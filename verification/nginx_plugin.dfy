/** The plugin object of `internal/plugins/nginx/configurator.go`, as far as HTTP-01 challenges
    are concerned, and the files it writes. */
module NginxPlugin {
  import opened Common
  import opened NginxAst
  import opened NginxParser
  import opened NginxRoundTrip
  import opened NginxChallenge
  import opened NginxUndo
  import opened NginxMarks
  import opened NginxExact

  type Disk = map<string, string>

  /** A loaded file and the places of its server blocks that serve a requested domain. */
  datatype LoadedFile = LoadedFile(path: string, ast: Config, hits: set<seq<nat>>)

  /** The file with the first http block, or the number of files. */
  function Owner(files: seq<LoadedFile>): (i: nat)
    ensures i <= |files| && (i < |files| ==> FindHttp(files[i].ast.nodes).At?)
  {
    if files == [] || FindHttp(files[0].ast.nodes).At? then 0 else 1 + Owner(files[1..])
  }

  function EditOf(files: seq<LoadedFile>, i: nat, conf: string): Edited
    requires i < |files|
  {
    EditTree(files[i].ast.nodes, files[i].hits, i == Owner(files), conf)
  }

  function EditedTrees(files: seq<LoadedFile>, conf: string): seq<seq<Node>> {
    seq(|files|, i requires 0 <= i < |files| => EditOf(files, i, conf).nodes)
  }

  /** One entry for each file in which a server is edited. */
  function Locations(files: seq<LoadedFile>): seq<string> {
    if files == [] then []
    else (if files[0].hits != {} then [files[0].path] else []) + Locations(files[1..])
  }

  /** `writeAllFiles`. */
  function Written(disk: Disk, files: seq<LoadedFile>, trees: seq<seq<Node>>): Disk
    requires |files| == |trees|
    decreases |files|
  {
    if files == [] then disk
    else Written(disk[files[0].path := Print(files[0].ast.(nodes := trees[0]))], files[1..], trees[1..])
  }

  datatype Marks = Marks(httpFile: string, addedInclude: bool, addedBucketSize: bool, conf: string)

  /** One file read, stripped and written back; None when it is missing or does not parse. */
  function StripOn(disk: Disk, path: string, rewrites: bool, withInclude: bool, withBucket: bool, conf: string):
    Option<Disk>
  {
    if path !in disk then None
    else match StripText(disk[path], rewrites, withInclude, withBucket, conf)
      case Failure(_) => None
      case Success(text) => Some(disk[path := text])
  }

  /** The first loop of `removeChallengeLocations`. */
  function StripAll(disk: Disk, locations: seq<string>, seen: set<string>, m: Marks): Option<Disk> {
    if locations == [] then Some(disk)
    else if locations[0] in seen then StripAll(disk, locations[1..], seen, m)
    else
      var http := locations[0] == m.httpFile;
      match StripOn(disk, locations[0], true, http && m.addedInclude, http && m.addedBucketSize, m.conf)
      case None => None
      case Some(d) => StripAll(d, locations[1..], seen + {locations[0]}, m)
  }

  /** All of it. */
  function Removed(disk: Disk, locations: seq<string>, m: Marks): Option<Disk> {
    match StripAll(disk, locations, {}, m)
    case None => None
    case Some(d) =>
      var own := if m.httpFile != "" && m.httpFile !in locations && (m.addedInclude || m.addedBucketSize)
                 then StripOn(d, m.httpFile, false, m.addedInclude, m.addedBucketSize, m.conf) else Some(d);
      if own.None? then None else Some(if m.conf != "" then own.value - {m.conf} else own.value)
  }

  const ConfHeader := "# Generated by go-certbot for ACME HTTP-01. DO NOT EDIT.\n"

  /** `disk` is the file system the plugin reads and writes. */
  class Plugin {
    var disk: Disk
    var addedLocations: seq<string>
    var addedInclude: bool
    var addedBucketSize: bool
    var httpBlockFile: string
    var challengeConfPath: string

    constructor (disk: Disk)
      ensures this.disk == disk && addedLocations == [] && Undo() == Marks("", false, false, "")
    {
      this.disk := disk;
      addedLocations, addedInclude, addedBucketSize, httpBlockFile, challengeConfPath := [], false, false, "", "";
    }

    function Undo(): Marks
      reads this
    {
      Marks(httpBlockFile, addedInclude, addedBucketSize, challengeConfPath)
    }

    method PrependRewrites(files: seq<LoadedFile>) returns (trees: seq<seq<Node>>)
      modifies this`addedLocations
      ensures |trees| == |files| && addedLocations == old(addedLocations) + Locations(files)
      ensures forall i :: 0 <= i < |files| ==> trees[i] == InjectRewrites(files[i].ast.nodes, files[i].hits, [], 0)
    {
      trees := [];
      for i := 0 to |files|
        invariant |trees| == i && addedLocations + Locations(files[i..]) == old(addedLocations) + Locations(files)
        invariant forall j :: 0 <= j < i ==> trees[j] == InjectRewrites(files[j].ast.nodes, files[j].hits, [], 0)
      {
        var f := files[i];
        assert files[i..][1..] == files[i + 1..];
        Assoc(addedLocations, if f.hits != {} then [f.path] else [], Locations(files[i + 1..]));
        trees := trees + [InjectRewrites(f.ast.nodes, f.hits, [], 0)];
        addedLocations := addedLocations + if f.hits != {} then [f.path] else [];
      }
      assert files[|files|..] == [];
    }

    method FindHTTPBlockFile(files: seq<LoadedFile>) returns (i: nat)
      ensures i == Owner(files)
    {
      i := 0;
      while i < |files|
        invariant i <= |files| && Owner(files) == i + Owner(files[i..])
      {
        if FindHttp(files[i].ast.nodes).At? { return; }
        assert files[i..][1..] == files[i + 1..];
        i := i + 1;
      }
    }

    method WriteAllFiles(files: seq<LoadedFile>, trees: seq<seq<Node>>)
      requires |files| == |trees|
      modifies this`disk
      ensures disk == Written(old(disk), files, trees)
    {
      for i := 0 to |files|
        invariant Written(disk, files[i..], trees[i..]) == Written(old(disk), files, trees)
      {
        var text := ConfigString(files[i].ast.(nodes := trees[i]));
        assert files[i..][1..] == files[i + 1..] && trees[i..][1..] == trees[i + 1..];
        disk := disk[files[i].path := text];
      }
      assert files[|files|..] == [];
    }

    /** Edits the trees, writes every file, edited or not, and remembers what to undo. */
    method InjectChallengeLocations(files: seq<LoadedFile>, conf: string)
      modifies this
      ensures disk == Written(old(disk)[conf := ConfHeader], files, EditedTrees(files, conf))
      ensures addedLocations == old(addedLocations) + Locations(files)
      ensures var o := Owner(files);
        Undo() == if o < |files| then
                    var e := EditOf(files, o, conf);
                    Marks(files[o].path, e.addedInclude, e.addedBucketSize, conf)
                  else old(Undo()).(conf := conf)
    {
      var trees := PrependRewrites(files);
      var owner := FindHTTPBlockFile(files);
      if owner < |files| {
        var (t1, a) := EnsureInclude(trees[owner], conf);
        var (t2, b) := EnsureBucketSize(t1);
        trees := trees[owner := t2];
        addedInclude, addedBucketSize, httpBlockFile := a, b, files[owner].path;
      }
      challengeConfPath := conf;
      disk := disk[conf := ConfHeader];
      assert trees == EditedTrees(files, conf);
      WriteAllFiles(files, trees);
    }

    /** Reads, strips and writes one file; it fails when the file is missing or does not parse. */
    method StripFile(path: string, rewrites: bool, withInclude: bool, withBucket: bool) returns (ok: bool)
      modifies this`disk
      ensures var d := StripOn(old(disk), path, rewrites, withInclude, withBucket, challengeConfPath);
        ok == d.Some? && disk == if ok then d.value else old(disk)
    {
      hide Parse, Print, StripRewrites, StripInclude, StripBucketSize;
      if path !in disk { return false; }
      var root := ParseText(disk[path]);
      if root.Failure? { return false; }
      var nodes := root.value.nodes;
      if rewrites { nodes := StripRewrites(nodes); }
      if withInclude { nodes := StripInclude(nodes, challengeConfPath); }
      if withBucket { nodes := StripBucketSize(nodes); }
      var text := ConfigString(root.value.(nodes := nodes));
      disk := disk[path := text];
      return true;
    }

    /** The loop over `addedLocations`: a file that is listed twice is stripped once. */
    method StripListedFiles() returns (ok: bool)
      modifies this`disk
      ensures var d := StripAll(old(disk), addedLocations, {}, Undo());
        ok == d.Some? && (ok ==> disk == d.value)
    {
      hide StripText;
      var seen := {};
      ghost var m, spec := Undo(), StripAll(disk, addedLocations, {}, Undo());
      for k := 0 to |addedLocations|
        invariant StripAll(disk, addedLocations[k..], seen, m) == spec
      {
        var path := addedLocations[k];
        assert addedLocations[k..][1..] == addedLocations[k + 1..];
        if path in seen { continue; }
        var http := path == httpBlockFile;
        var done := StripFile(path, true, http && addedInclude, http && addedBucketSize);
        if !done { return false; }
        seen := seen + {path};
      }
      assert addedLocations[|addedLocations|..] == [];
      return true;
    }

    /** Undoes the edits. */
    method RemoveChallengeLocations() returns (ok: bool)
      modifies this`disk, this`challengeConfPath
      ensures var d := Removed(old(disk), addedLocations, old(Undo()));
        ok == d.Some? && (ok ==> disk == d.value && challengeConfPath == "")
    {
      hide StripText, StripAll, StripOn;
      var stripped := StripListedFiles();
      if !stripped { return false; }
      if httpBlockFile != "" && httpBlockFile !in addedLocations && (addedInclude || addedBucketSize) {
        var done := StripFile(httpBlockFile, false, addedInclude, addedBucketSize);
        if !done { return false; }
      }
      if challengeConfPath != "" {
        disk := disk - {challengeConfPath};
        challengeConfPath := "";
      }
      return true;
    }
  }

  // ----- Injecting and removing -----

  predicate DistinctPaths(files: seq<LoadedFile>) {
    forall i, j :: 0 <= i < j < |files| ==> files[i].path != files[j].path
  }

  /** Well-formed files of different names, without challenge rewrites of their own. */
  predicate Usable(files: seq<LoadedFile>, conf: string) {
    DistinctPaths(files) && WordPath(conf) &&
    forall i :: 0 <= i < |files| ==>
      files[i].path != conf && files[i].path != "" && WellFormed(files[i].ast)
  }

  /** Every body that gets a marked line starts a line, and a file with an edited server, which is
      searched for rewrites, has none of its own. */
  predicate Restorable(f: LoadedFile, http: bool, conf: string) {
    Editable(f.ast, f.hits, http, conf) && (f.hits != {} ==> NoRewrites(f.ast.nodes))
  }

  predicate AllRestorable(files: seq<LoadedFile>, conf: string) {
    forall i :: 0 <= i < |files| ==> Restorable(files[i], i == Owner(files), conf)
  }

  /** What the undo needs of every loaded file. */
  predicate Ready(files: seq<LoadedFile>, conf: string) {
    Usable(files, conf) && AllRestorable(files, conf)
  }

  lemma {:induction false} WrittenAt(disk: Disk, files: seq<LoadedFile>, trees: seq<seq<Node>>, p: string)
    requires |files| == |trees| && DistinctPaths(files)
    ensures var w := Written(disk, files, trees);
      (forall i :: 0 <= i < |files| && files[i].path == p ==>
         p in w && w[p] == Print(files[i].ast.(nodes := trees[i]))) &&
      ((forall i :: 0 <= i < |files| ==> files[i].path != p) ==>
         (p in w <==> p in disk) && (p in w ==> w[p] == disk[p]))
    decreases |files|
  {
    if files != [] {
      var d := disk[files[0].path := Print(files[0].ast.(nodes := trees[0]))];
      WrittenAt(d, files[1..], trees[1..], p);
      forall i | 0 < i < |files| && files[i].path == p
        ensures p in Written(disk, files, trees) &&
                Written(disk, files, trees)[p] == Print(files[i].ast.(nodes := trees[i]))
      {
        assert files[1..][i - 1] == files[i] && trees[1..][i - 1] == trees[i];
      }
      assert (forall i :: 0 <= i < |files| ==> files[i].path != p) ==>
             (forall i :: 0 <= i < |files[1..]| ==> files[1..][i].path != p);
      assert files[0].path == p ==> forall i :: 0 <= i < |files[1..]| ==> files[1..][i].path != p;
    }
  }

  /** What the first loop makes of one file. */
  function StripListed(text: string, p: string, m: Marks): Result<string> {
    StripText(text, true, p == m.httpFile && m.addedInclude, p == m.httpFile && m.addedBucketSize, m.conf)
  }

  /** The first loop succeeds when it can strip every listed file, and changes listed files only,
      each once, from what it held before. */
  lemma {:induction false} StripAllAt(disk: Disk, locations: seq<string>, seen: set<string>, m: Marks, p: string)
    requires forall q <- locations :: q !in seen ==> q in disk && StripListed(disk[q], q, m).Success?
    ensures var r := StripAll(disk, locations, seen, m);
      r.Some? && (p in r.value <==> p in disk) &&
      (p in disk && p in locations && p !in seen ==> Success(r.value[p]) == StripListed(disk[p], p, m)) &&
      (p in disk && (p !in locations || p in seen) ==> r.value[p] == disk[p])
  {
    hide StripText;
    if locations != [] {
      var l := locations[0];
      assert forall q :: q in locations <==> q == l || q in locations[1..];
      if l in seen {
        StripAllAt(disk, locations[1..], seen, m, p);
      } else {
        StripAllAt(disk[l := StripListed(disk[l], l, m).value], locations[1..], seen + {l}, m, p);
      }
    }
  }

  lemma {:induction false} LocationsAre(files: seq<LoadedFile>, p: string)
    ensures p in Locations(files) <==> exists i :: 0 <= i < |files| && files[i].path == p && files[i].hits != {}
  {
    if files != [] {
      LocationsAre(files[1..], p);
      assert forall i :: 0 < i < |files| ==> files[1..][i - 1] == files[i];
      if p in Locations(files[1..]) {
        var i :| 0 <= i < |files[1..]| && files[1..][i].path == p && files[1..][i].hits != {};
        assert files[i + 1].path == p;
      }
    }
  }

  /** The marks a fresh plugin keeps for its cleanup. */
  function MarksFor(files: seq<LoadedFile>, conf: string): Marks {
    var o := Owner(files);
    if o < |files| then
      var e := EditOf(files, o, conf);
      Marks(files[o].path, e.addedInclude, e.addedBucketSize, conf)
    else Marks("", false, false, conf)
  }

  /** One file, through the edit, its text and the strip it gets. */
  lemma FileUndone(files: seq<LoadedFile>, conf: string, i: nat)
    requires Ready(files, conf) && i < |files|
    ensures var m, f := MarksFor(files, conf), files[i];
      var text := Print(f.ast.(nodes := EditOf(files, i, conf).nodes));
      (f.hits != {} ==> StripListed(text, f.path, m) == Success(Print(f.ast))) &&
      (f.hits == {} && f.path == m.httpFile ==>
         StripText(text, false, m.addedInclude, m.addedBucketSize, conf) == Success(Print(f.ast))) &&
      (f.hits == {} && !(f.path == m.httpFile && (m.addedInclude || m.addedBucketSize)) ==> text == Print(f.ast))
  {
    var m, f, o := MarksFor(files, conf), files[i], Owner(files);
    assert f.path == m.httpFile <==> i == o by {
      if o < |files| && i != o { assert files[i].path != files[o].path; }
    }
    TextUndone(f.ast, f.hits, i == o, conf);
    StripFixes(f.ast.nodes);
    if f.hits == {} {
      InjectNothing(f.ast.nodes, [], 0);
    }
  }

  lemma ListedIffHit(files: seq<LoadedFile>, i: nat)
    requires DistinctPaths(files) && i < |files|
    ensures files[i].path in Locations(files) <==> files[i].hits != {}
  {
    LocationsAre(files, files[i].path);
  }

  /** The disk after the edit. */
  function EditedDisk(disk: Disk, files: seq<LoadedFile>, conf: string): Disk {
    Written(disk[conf := ConfHeader], files, EditedTrees(files, conf))
  }

  function EditedText(files: seq<LoadedFile>, i: nat, conf: string): string
    requires i < |files|
  {
    Print(files[i].ast.(nodes := EditOf(files, i, conf).nodes))
  }

  predicate Loaded(files: seq<LoadedFile>, p: string) {
    exists i :: 0 <= i < |files| && files[i].path == p
  }

  lemma EditedAt(disk: Disk, files: seq<LoadedFile>, conf: string, i: nat)
    requires DistinctPaths(files) && i < |files|
    ensures files[i].path in EditedDisk(disk, files, conf)
    ensures EditedDisk(disk, files, conf)[files[i].path] == EditedText(files, i, conf)
  {
    WrittenAt(disk[conf := ConfHeader], files, EditedTrees(files, conf), files[i].path);
  }

  lemma ListedCanBeStripped(disk: Disk, files: seq<LoadedFile>, conf: string, q: string)
    requires Ready(files, conf) && q in Locations(files)
    ensures var d := EditedDisk(disk, files, conf);
      q in d && StripListed(d[q], q, MarksFor(files, conf)).Success?
  {
    LocationsAre(files, q);
    var i :| 0 <= i < |files| && files[i].path == q && files[i].hits != {};
    EditedAt(disk, files, conf, i);
    FileUndone(files, conf, i);
  }

  /** After the first loop the files with edited servers are restored. */
  lemma AfterLoopListed(disk: Disk, files: seq<LoadedFile>, conf: string, i: nat)
    requires Ready(files, conf) && i < |files|
    ensures var r := StripAll(EditedDisk(disk, files, conf), Locations(files), {}, MarksFor(files, conf));
      r.Some? && files[i].path in r.value &&
      r.value[files[i].path] == if files[i].hits != {} then Print(files[i].ast) else EditedText(files, i, conf)
  {
    hide StripText, StripListed, EditOf, MarksFor, StripAll, EditedDisk, Locations, WellFormed, Restorable;
    var edited, m, p := EditedDisk(disk, files, conf), MarksFor(files, conf), files[i].path;
    forall q <- Locations(files) ensures q in edited && StripListed(edited[q], q, m).Success? {
      ListedCanBeStripped(disk, files, conf, q);
    }
    EditedAt(disk, files, conf, i);
    ListedIffHit(files, i);
    FileUndone(files, conf, i);
    StripAllAt(edited, Locations(files), {}, m, p);
  }

  lemma AfterLoopOther(disk: Disk, files: seq<LoadedFile>, conf: string, p: string)
    requires Ready(files, conf) && !Loaded(files, p) && p != conf
    ensures var r := StripAll(EditedDisk(disk, files, conf), Locations(files), {}, MarksFor(files, conf));
      r.Some? && (p in r.value <==> p in disk) && (p in disk ==> r.value[p] == disk[p])
  {
    var edited, m := EditedDisk(disk, files, conf), MarksFor(files, conf);
    forall q <- Locations(files) ensures q in edited && StripListed(edited[q], q, m).Success? {
      ListedCanBeStripped(disk, files, conf, q);
    }
    WrittenAt(disk[conf := ConfHeader], files, EditedTrees(files, conf), p);
    LocationsAre(files, p);
    hide StripText, StripListed, EditOf, MarksFor, StripAll, Locations, WellFormed, Restorable;
    StripAllAt(edited, Locations(files), {}, m, p);
  }

  /** The second step of the cleanup, for an http file whose servers were not edited. */
  predicate OwnStep(files: seq<LoadedFile>, m: Marks) {
    m.httpFile != "" && m.httpFile !in Locations(files) && (m.addedInclude || m.addedBucketSize)
  }

  lemma OwnStepRestores(disk: Disk, files: seq<LoadedFile>, conf: string)
    requires Ready(files, conf) && OwnStep(files, MarksFor(files, conf))
    ensures var m, o := MarksFor(files, conf), Owner(files);
      o < |files| && m.httpFile == files[o].path && files[o].hits == {} &&
      var d := StripAll(EditedDisk(disk, files, conf), Locations(files), {}, m);
      d.Some? && StripOn(d.value, m.httpFile, false, m.addedInclude, m.addedBucketSize, conf) ==
                 Some(d.value[m.httpFile := Print(files[o].ast)])
  {
    var m, o := MarksFor(files, conf), Owner(files);
    ListedIffHit(files, o);
    AfterLoopListed(disk, files, conf, o);
    FileUndone(files, conf, o);
    hide StripText, StripListed, EditOf, StripAll, EditedDisk, Locations, WellFormed, Restorable;
  }

  lemma ReadyPaths(files: seq<LoadedFile>, conf: string, i: nat)
    requires Ready(files, conf) && i < |files|
    ensures conf != "" && files[i].path != conf && MarksFor(files, conf).conf == conf
  {
    hide AllRestorable, EditOf, TrimQuotes;
  }

  lemma ReadyDistinct(files: seq<LoadedFile>, conf: string, i: nat, j: nat)
    requires Ready(files, conf) && i < |files| && j < |files| && i != j
    ensures files[i].path != files[j].path
  {
    hide AllRestorable, WordPath;
  }

  /** Without that step, the http file was edited with the others or not at all. */
  lemma NoOwnStep(files: seq<LoadedFile>, conf: string, i: nat)
    requires Ready(files, conf) && i < |files| && files[i].hits == {}
    requires OwnStep(files, MarksFor(files, conf)) ==> i != Owner(files)
    ensures EditedText(files, i, conf) == Print(files[i].ast)
  {
    ReadyPaths(files, conf, i);
    hide StripText, StripListed, EditOf, Locations, Usable, AllRestorable, Print;
    FileUndone(files, conf, i);
    ListedIffHit(files, i);
    var o := Owner(files);
    if o < |files| && i != o { ReadyDistinct(files, conf, i, o); }
  }

  lemma RemovedSteps(disk: Disk, files: seq<LoadedFile>, m: Marks)
    ensures var d := StripAll(disk, Locations(files), {}, m);
      Removed(disk, Locations(files), m) ==
      if d.None? then None
      else
        var own := if OwnStep(files, m) then StripOn(d.value, m.httpFile, false, m.addedInclude, m.addedBucketSize, m.conf)
                   else d;
        if own.None? then None else Some(if m.conf != "" then own.value - {m.conf} else own.value)
  {
    hide StripAll, StripOn, Locations;
  }

  /** A fresh plugin's edit of any set of loaded files, followed by its cleanup, succeeds and leaves
      the print of every loaded configuration and no challenge file. */
  lemma ChallengeUndoneOnDisk(disk: Disk, files: seq<LoadedFile>, conf: string, i: nat)
    requires Ready(files, conf) && i < |files|
    ensures var r := Removed(EditedDisk(disk, files, conf), Locations(files), MarksFor(files, conf));
      r.Some? && conf !in r.value && files[i].path in r.value && r.value[files[i].path] == Print(files[i].ast)
  {
    hide *;
    var m, o := MarksFor(files, conf), Owner(files);
    AfterLoopListed(disk, files, conf, i);
    ReadyPaths(files, conf, i);
    RemovedSteps(EditedDisk(disk, files, conf), files, m);
    if OwnStep(files, m) {
      OwnStepRestores(disk, files, conf);
      if i != o { ReadyDistinct(files, conf, i, o); }
    }
    if files[i].hits == {} && (OwnStep(files, m) ==> i != o) { NoOwnStep(files, conf, i); }
  }

  /** Every other file is as it was before the challenge. */
  lemma OtherFilesUntouched(disk: Disk, files: seq<LoadedFile>, conf: string, p: string)
    requires Ready(files, conf) && !Loaded(files, p) && p != conf
    ensures var r := Removed(EditedDisk(disk, files, conf), Locations(files), MarksFor(files, conf));
      r.Some? && (p in r.value <==> p in disk) && (p in disk ==> r.value[p] == disk[p])
  {
    var m := MarksFor(files, conf);
    AfterLoopOther(disk, files, conf, p);
    assert m.conf == conf;
    if OwnStep(files, m) { OwnStepRestores(disk, files, conf); }
    hide StripText, StripListed, EditOf, MarksFor, StripAll, StripOn, EditedDisk, EditedText, Locations, Ready, WordPath;
  }

  // ----- The exact condition on disk -----

  /** If the first loop succeeds, it has stripped the listed files and no other. */
  lemma {:induction false} StripAllDoes(disk: Disk, locations: seq<string>, seen: set<string>, m: Marks, p: string)
    requires p in disk && StripAll(disk, locations, seen, m).Some?
    ensures var d := StripAll(disk, locations, seen, m).value;
      p in d &&
      if p in locations && p !in seen then Success(d[p]) == StripListed(disk[p], p, m) else d[p] == disk[p]
  {
    hide StripText;
    if locations != [] {
      var l := locations[0];
      assert forall q :: q in locations <==> q == l || q in locations[1..];
      if l in seen {
        StripAllDoes(disk, locations[1..], seen, m, p);
      } else {
        StripAllDoes(disk[l := StripListed(disk[l], l, m).value], locations[1..], seen + {l}, m, p);
      }
    }
  }

  lemma RemovedListed(disk: Disk, locations: seq<string>, m: Marks, p: string)
    requires p in disk && p in locations && p != m.conf && Removed(disk, locations, m).Some?
    ensures var d := Removed(disk, locations, m).value; p in d && Success(d[p]) == StripListed(disk[p], p, m)
  {
    hide StripText, StripAll, StripListed;
    StripAllDoes(disk, locations, {}, m, p);
  }

  lemma RemovedOwn(disk: Disk, locations: seq<string>, m: Marks, p: string)
    requires p in disk && p !in locations && p != m.conf && Removed(disk, locations, m).Some?
    requires p == m.httpFile != "" && (m.addedInclude || m.addedBucketSize)
    ensures var d := Removed(disk, locations, m).value;
      p in d && Success(d[p]) == StripText(disk[p], false, m.addedInclude, m.addedBucketSize, m.conf)
  {
    hide StripText, StripAll, StripListed;
    StripAllDoes(disk, locations, {}, m, p);
  }

  lemma {:induction false} NoHitsStart(nodes: seq<Node>, at: seq<nat>, i: nat)
    ensures HitsStartLine(nodes, {}, at, i)
    decreases nodes
  {
    if nodes != [] {
      NoHitsStart(nodes[1..], at, i + 1);
      if nodes[0].Block? { NoHitsStart(nodes[0].body, at + [i], 0); }
    }
  }

  /** A file that is not editable is not restored by the strip it gets. */
  lemma FileSpoiled(files: seq<LoadedFile>, conf: string, i: nat)
    requires Usable(files, conf) && i < |files| && !Restorable(files[i], i == Owner(files), conf)
    ensures var m, f, text := MarksFor(files, conf), files[i], EditedText(files, i, conf);
      (f.hits != {} ==> StripListed(text, f.path, m) != Success(Print(f.ast))) &&
      (f.hits == {} ==>
        i == Owner(files) && f.path == m.httpFile && (m.addedInclude || m.addedBucketSize) &&
        StripText(text, false, m.addedInclude, m.addedBucketSize, conf) != Success(Print(f.ast)))
  {
    var m, f, o := MarksFor(files, conf), files[i], Owner(files);
    assert f.path == m.httpFile <==> i == o by {
      if o < |files| && i != o { assert files[i].path != files[o].path; }
    }
    TextUndoneExactly(f.ast, Job(f.hits, conf, f.hits != {}), i == o);
    AddsHttpLine(f.ast.nodes, f.hits, i == o, conf);
    if f.hits == {} { NoHitsStart(f.ast.nodes, [], 0); }
    hide StripText, EditTree, HttpStartsLine, GetsHttpLine, WellFormed, NoRewrites;
  }

  /** The cleanup after the edit succeeds and leaves the print of every loaded configuration. */
  predicate AllRestored(disk: Disk, files: seq<LoadedFile>, conf: string) {
    var r := Removed(EditedDisk(disk, files, conf), Locations(files), MarksFor(files, conf));
    r.Some? &&
    forall i :: 0 <= i < |files| ==> files[i].path in r.value && r.value[files[i].path] == Print(files[i].ast)
  }

  lemma UsablePaths(files: seq<LoadedFile>, conf: string, i: nat)
    requires Usable(files, conf) && i < |files|
    ensures files[i].path != "" && files[i].path != conf && MarksFor(files, conf).conf == conf
  {
    hide EditOf, WordPath, WellFormed;
  }

  lemma AllRestoredAt(disk: Disk, files: seq<LoadedFile>, conf: string, i: nat)
    requires i < |files| && AllRestored(disk, files, conf)
    ensures var r := Removed(EditedDisk(disk, files, conf), Locations(files), MarksFor(files, conf));
      r.Some? && files[i].path in r.value && r.value[files[i].path] == Print(files[i].ast)
  {
    hide Removed, EditedDisk, Locations, MarksFor, Print;
  }

  lemma SpoiledOnDisk(disk: Disk, files: seq<LoadedFile>, conf: string, i: nat)
    requires Usable(files, conf) && i < |files| && !Restorable(files[i], i == Owner(files), conf)
    ensures !AllRestored(disk, files, conf)
  {
    var edited, m, p := EditedDisk(disk, files, conf), MarksFor(files, conf), files[i].path;
    EditedAt(disk, files, conf, i);
    ListedIffHit(files, i);
    FileSpoiled(files, conf, i);
    UsablePaths(files, conf, i);
    hide *;
    if AllRestored(disk, files, conf) { AllRestoredAt(disk, files, conf, i); }
    if Removed(edited, Locations(files), m).Some? {
      if files[i].hits == {} { RemovedOwn(edited, Locations(files), m, p); }
      else { RemovedListed(edited, Locations(files), m, p); }
    }
  }

  /** A fresh plugin's edit of any set of well-formed files, followed by its cleanup, restores all of
      them exactly when every body that gets a marked line starts a line. */
  lemma ChallengeUndoneExactly(disk: Disk, files: seq<LoadedFile>, conf: string)
    requires Usable(files, conf)
    ensures AllRestored(disk, files, conf) <==> AllRestorable(files, conf)
  {
    if AllRestorable(files, conf) {
      forall i | 0 <= i < |files|
        ensures var r := Removed(EditedDisk(disk, files, conf), Locations(files), MarksFor(files, conf));
          r.Some? && files[i].path in r.value && r.value[files[i].path] == Print(files[i].ast)
      {
        ChallengeUndoneOnDisk(disk, files, conf, i);
      }
      if files == [] { assert Removed(EditedDisk(disk, [], conf), [], MarksFor([], conf)).Some?; }
    } else {
      var i :| 0 <= i < |files| && !Restorable(files[i], i == Owner(files), conf);
      SpoiledOnDisk(disk, files, conf, i);
    }
  }
}
