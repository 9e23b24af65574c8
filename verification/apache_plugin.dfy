/** The plugin object of `internal/plugins/apache/configurator.go`, as far as HTTP-01 challenges are
    concerned, and the files it writes. */
module ApachePlugin {
  import opened Common
  import opened ApacheParser
  import opened ApacheFixpoint
  import opened ApacheNormal
  import opened ApacheChallenge
  import opened ApacheUndo

  type Disk = map<string, string>

  /** A loaded file and the places of its virtual hosts that get the challenge alias. */
  datatype LoadedFile = LoadedFile(path: string, nodes: seq<Node>, hits: set<Path>)

  /** The web root and the target of the alias. */
  datatype Site = Site(webroot: string, target: string)

  function EditedText(f: LoadedFile, site: Site): string {
    NodesText(InjectNodes(f.nodes, f.hits, [], 0, Snippets(site.webroot, site.target)))
  }

  /** Only files in which a virtual host was edited are written. */
  function Written(disk: Disk, files: seq<LoadedFile>, site: Site): Disk
    decreases |files|
  {
    if files == [] then disk
    else
      Written(if files[0].hits == {} then disk else disk[files[0].path := EditedText(files[0], site)], files[1..], site)
  }

  function Touched(files: seq<LoadedFile>): seq<string>
    decreases |files|
  {
    if files == [] then []
    else (if files[0].hits == {} then [] else [files[0].path]) + Touched(files[1..])
  }

  /** `removeChallengeAliases`; a file that is missing or does not parse is left as it is. */
  function StripOn(disk: Disk, path: string): Disk {
    if path !in disk then disk
    else match Parse(disk[path])
      case Failed => disk
      case Config(nodes) => disk[path := NodesText(StripNodes(nodes))]
  }

  /** The loop of `Cleanup`. */
  function StripAll(disk: Disk, paths: seq<string>, seen: set<string>): Disk
    decreases |paths|
  {
    if paths == [] then disk
    else if paths[0] in seen then StripAll(disk, paths[1..], seen)
    else StripAll(StripOn(disk, paths[0]), paths[1..], seen + {paths[0]})
  }

  /** `Cleanup`, which strips the root configuration as well. */
  function Cleaned(disk: Disk, paths: seq<string>, config: string): Disk {
    var d := StripAll(disk, paths, {});
    if config != "" && config !in paths then StripOn(d, config) else d
  }

  /** `Config.String`. */
  method ConfigText(nodes: seq<Node>) returns (text: string)
    ensures text == NodesText(nodes)
  {
    var sb := new Builder();
    sb.EmitNodes(nodes);
    text := sb.text;
    assert "" + NodesText(nodes) == NodesText(nodes);
  }

  class Plugin {
    var disk: Disk
    var injectedConfig: string
    var injectedFiles: seq<string>

    constructor (disk: Disk)
      ensures this.disk == disk && injectedConfig == "" && injectedFiles == []
    {
      this.disk := disk;
      injectedConfig, injectedFiles := "", [];
    }

    /** Edits the virtual hosts, remembers the files, and writes them. */
    method InjectChallengeAliases(files: seq<LoadedFile>, config: string, site: Site)
      modifies this
      ensures disk == Written(old(disk), files, site)
      ensures injectedConfig == config && injectedFiles == old(injectedFiles) + Touched(files)
    {
      injectedConfig := config;
      for i := 0 to |files|
        invariant injectedConfig == config && disk == old(disk)
        invariant injectedFiles + Touched(files[i..]) == old(injectedFiles) + Touched(files)
      {
        assert files[i..][1..] == files[i + 1..];
        var more := if files[i].hits == {} then [] else [files[i].path];
        Assoc(injectedFiles, more, Touched(files[i + 1..]));
        injectedFiles := injectedFiles + more;
      }
      assert files[|files|..] == [];
      WriteTouched(files, site);
    }

    method WriteTouched(files: seq<LoadedFile>, site: Site)
      modifies this`disk
      ensures disk == Written(old(disk), files, site)
    {
      for i := 0 to |files|
        invariant Written(disk, files[i..], site) == Written(old(disk), files, site)
      {
        assert files[i..][1..] == files[i + 1..];
        if files[i].hits != {} {
          var text := ConfigText(InjectNodes(files[i].nodes, files[i].hits, [], 0, Snippets(site.webroot, site.target)));
          disk := disk[files[i].path := text];
        }
      }
      assert files[|files|..] == [];
    }

    method RemoveChallengeAliases(path: string) returns (ok: bool)
      modifies this`disk
      ensures disk == StripOn(old(disk), path)
      ensures ok == (path in old(disk) && Parse(old(disk)[path]).Config?)
    {
      if path !in disk { return false; }
      var parsed, nodes := ParseText(disk[path]);
      if !parsed { return false; }
      var stripped := StripMarkers(nodes);
      var text := ConfigText(stripped);
      disk := disk[path := text];
      return true;
    }

    method Cleanup()
      modifies this`disk
      ensures disk == Cleaned(old(disk), injectedFiles, injectedConfig)
    {
      hide StripOn;
      var seen := {};
      for k := 0 to |injectedFiles|
        invariant StripAll(disk, injectedFiles[k..], seen) == StripAll(old(disk), injectedFiles, {})
        invariant seen == set p <- injectedFiles[..k]
      {
        var path := injectedFiles[k];
        assert injectedFiles[k..][1..] == injectedFiles[k + 1..];
        assert injectedFiles[..k + 1] == injectedFiles[..k] + [path];
        if path in seen { continue; }
        seen := seen + {path};
        var ok := RemoveChallengeAliases(path);
      }
      assert injectedFiles[|injectedFiles|..] == [] && injectedFiles[..|injectedFiles|] == injectedFiles;
      if injectedConfig != "" && injectedConfig !in seen { var ok := RemoveChallengeAliases(injectedConfig); }
    }
  }

  // ----- Injecting and removing -----

  predicate DistinctPaths(files: seq<LoadedFile>) {
    forall i, j :: 0 <= i < j < |files| ==> files[i].path != files[j].path
  }

  /** Files as they were loaded from the disk; those that are edited are fixed points of printing. */
  predicate Usable(disk: Disk, files: seq<LoadedFile>, site: Site) {
    DistinctPaths(files) && OnOneLine(site.webroot, site.target) &&
    forall i :: 0 <= i < |files| ==>
      files[i].path in disk && Parse(disk[files[i].path]) == Config(files[i].nodes) &&
      (files[i].hits != {} ==> SectionsStable(files[i].nodes) && DirectivesStable(files[i].nodes))
  }

  predicate Loaded(files: seq<LoadedFile>, p: string) {
    exists i :: 0 <= i < |files| && files[i].path == p
  }

  lemma {:induction false} WrittenAt(disk: Disk, files: seq<LoadedFile>, site: Site, p: string)
    requires DistinctPaths(files)
    ensures var w := Written(disk, files, site);
      (forall i :: 0 <= i < |files| && files[i].path == p && files[i].hits != {} ==>
        p in w && w[p] == EditedText(files[i], site)) &&
      ((forall i :: 0 <= i < |files| && files[i].path == p ==> files[i].hits == {}) ==>
        (p in w <==> p in disk) && (p in w ==> w[p] == disk[p]))
    decreases |files|
  {
    hide EditedText;
    if files != [] {
      var rest := files[1..];
      assert forall i :: 0 < i < |files| ==> rest[i - 1] == files[i];
      WrittenAt(if files[0].hits == {} then disk else disk[files[0].path := EditedText(files[0], site)], rest, site, p);
      forall i | 0 < i < |files| && files[i].path == p && files[i].hits != {}
        ensures p in Written(disk, files, site) && Written(disk, files, site)[p] == EditedText(files[i], site)
      {
        assert rest[i - 1] == files[i];
      }
      if files[0].path == p && files[0].hits != {} {
        assert forall i :: 0 <= i < |rest| ==> rest[i].path != p;
      }
    }
  }

  lemma {:induction false} TouchedAre(files: seq<LoadedFile>, p: string)
    ensures p in Touched(files) <==> exists i :: 0 <= i < |files| && files[i].path == p && files[i].hits != {}
    decreases |files|
  {
    if files != [] {
      TouchedAre(files[1..], p);
      assert forall i :: 0 < i < |files| ==> files[1..][i - 1] == files[i];
      if p in Touched(files[1..]) {
        var i :| 0 <= i < |files[1..]| && files[1..][i].path == p && files[1..][i].hits != {};
        assert files[i + 1].path == p;
      }
    }
  }

  /** The loop strips the listed files, each once, and no other. */
  lemma {:induction false} StripAllAt(disk: Disk, paths: seq<string>, seen: set<string>, p: string)
    requires p in disk
    ensures var d := StripAll(disk, paths, seen);
      p in d && d[p] == if p in paths && p !in seen then StripOn(disk, p)[p] else disk[p]
    decreases |paths|
  {
    hide Parse;
    if paths != [] {
      var l := paths[0];
      assert forall q :: q in paths <==> q == l || q in paths[1..];
      if l in seen {
        StripAllAt(disk, paths[1..], seen, p);
      } else {
        StripAllAt(StripOn(disk, l), paths[1..], seen + {l}, p);
      }
    }
  }

  lemma CleanedAt(disk: Disk, paths: seq<string>, config: string, p: string)
    requires p in disk
    ensures var d := Cleaned(disk, paths, config);
      p in d && d[p] == if p in paths || (p == config && config != "") then StripOn(disk, p)[p] else disk[p]
  {
    StripAllAt(disk, paths, {}, p);
    hide StripAll, Parse;
  }

  lemma StripOnAt(disk: Disk, p: string)
    requires p in disk
    ensures p in StripOn(disk, p) && StripOn(disk, p)[p] == CleanedText(disk[p])
  {
  }

  lemma LoadedOnce(files: seq<LoadedFile>, i: nat)
    requires DistinctPaths(files) && i < |files|
    ensures forall j :: 0 <= j < |files| && files[j].path == files[i].path ==> j == i
  {
  }

  /** What a fresh plugin leaves of a loaded file after the challenge and its cleanup: a file with hits
      holds the print of its configuration, exactly if that had no markers of its own and the web root
      closes the tag of every section that was edited; any other file is not touched, except that the
      root configuration is stripped and printed. */
  lemma ChallengeUndoneOnDisk(disk: Disk, files: seq<LoadedFile>, config: string, site: Site, i: nat)
    requires Usable(disk, files, site) && i < |files| && config != ""
    ensures var d := Cleaned(Written(disk, files, site), Touched(files), config); var f := files[i];
      f.path in d &&
      if f.hits != {} then
        d[f.path] == NodesText(f.nodes) <==> Unmarked(f.nodes) && (Edits(f.nodes, f.hits, [], 0) ==> TagCloses(site.webroot))
      else d[f.path] == if f.path == config then NodesText(StripNodes(f.nodes)) else disk[f.path]
  {
    var f, w := files[i], Written(disk, files, site);
    LoadedOnce(files, i);
    WrittenAt(disk, files, site, f.path);
    TouchedAre(files, f.path);
    assert Parse(disk[f.path]) == Config(f.nodes);
    hide Written, Touched, Parse, NodesText, StripNodes, InjectNodes, Cleaned, StripOn, Unmarked, Edits, TagCloses;
    CleanedAt(w, Touched(files), config, f.path);
    StripOnAt(w, f.path);
    if f.hits != {} { ChallengeUndoneExactly(disk[f.path], f.nodes, f.hits, site.webroot, site.target); }
  }

  /** Every other file is as it was before the challenge. */
  lemma OtherFilesUntouched(disk: Disk, files: seq<LoadedFile>, config: string, site: Site, p: string)
    requires Usable(disk, files, site) && p in disk && !Loaded(files, p) && p != config
    ensures var d := Cleaned(Written(disk, files, site), Touched(files), config); p in d && d[p] == disk[p]
  {
    WrittenAt(disk, files, site, p);
    TouchedAre(files, p);
    hide Written, Touched, Cleaned, StripOn, Usable;
    CleanedAt(Written(disk, files, site), Touched(files), config, p);
  }
}
