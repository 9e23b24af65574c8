/** The certificate lineage of `internal/storage/lineage.go`: versioned archive files, four live
    links, and their repair.

    Every operation is a list of primitive file-system steps, computed from the state it starts
    in; a crash or an I/O error at any point leaves the effect of a prefix of that list. The class
    `Store` performs the operations step by step and is proved to perform exactly those lists.
 */
module Lineage {
  import opened Common
  import opened Decimal
  import opened Text

  datatype Kind = Cert | Privkey | Chain | Fullchain

  /** The order in which `Write`, `EnsureDeployed` and `recoverPreviousLinks` go through the kinds. */
  const Kinds := [Cert, Privkey, Chain, Fullchain]

  function KindName(k: Kind): string {
    match k
    case Cert => "cert"
    case Privkey => "privkey"
    case Chain => "chain"
    case Fullchain => "fullchain"
  }

  /** `archiveSet`: the file of one kind and version. */
  function ArchiveName(k: Kind, version: nat): string {
    KindName(k) + Itoa(version) + ".pem"
  }

  // ----- Version numbers -----

  datatype Parsed = Bad | Number(value: int)

  /** Go's `strconv.Atoi`: an optional sign and digits. */
  function Atoi(s: string): Parsed {
    if s != "" && (s[0] == '-' || s[0] == '+') then
      if s[1..] != "" && AllDigits(s[1..]) then Number(if s[0] == '-' then 0 - Value(s[1..]) as int else Value(s[1..])) else Bad
    else if s != "" && AllDigits(s) then Number(Value(s))
    else Bad
  }

  function AfterKind(stem: string): string {
    if HasPrefix(stem, "fullchain") then stem[9..]
    else if HasPrefix(stem, "privkey") then stem[7..]
    else if HasPrefix(stem, "chain") then stem[5..]
    else if HasPrefix(stem, "cert") then stem[4..]
    else ""
  }

  /** `archiveVersionFromName`: 0 for names that are not archive files. */
  function VersionOf(name: string): int {
    if !HasSuffix(name, ".pem") then 0
    else
      match Atoi(AfterKind(name[..|name| - 4]))
      case Bad => 0
      case Number(n) => n
  }

  lemma AfterKindName(k: Kind, rest: string)
    ensures AfterKind(KindName(k) + rest) == rest
  {
    var s := KindName(k) + rest;
    match k
    case Fullchain => assert s[..9] == "fullchain";
    case Privkey => assert s[0] == 'p' && s[..7] == "privkey";
    case Chain => assert s[0] == 'c' && s[1] == 'h' && s[..5] == "chain";
    case Cert => assert s[0] == 'c' && s[1] == 'e' && s[..4] == "cert";
  }

  /** Reading the version back from the name of an archive file. */
  lemma VersionReadBack(k: Kind, version: nat)
    ensures VersionOf(ArchiveName(k, version)) == version
  {
    var digits := Itoa(version);
    var name := ArchiveName(k, version);
    assert name[..|name| - 4] == KindName(k) + digits && name[|name| - 4..] == ".pem";
    AfterKindName(k, digits);
    ValueOfItoa(version);
    assert IsDigit(digits[0]);
  }

  /** The name of a kind, a number that may have a plus sign, and the suffix. */
  predicate Versioned(name: string, k: Kind, plus: bool, digits: string, n: nat) {
    name == KindName(k) + ((if plus then "+" else "") + digits) + ".pem" &&
    digits != "" && AllDigits(digits) && Value(digits) == n
  }

  /** Exactly these names have a version. */
  lemma VersionExactly(name: string, n: nat)
    requires n > 0
    ensures VersionOf(name) == n <==> exists k: Kind, plus: bool, digits: string :: Versioned(name, k, plus, digits, n)
  {
    if VersionOf(name) == n {
      var k, plus, digits := VersionParts(name, n);
    }
    forall k: Kind, plus: bool, digits: string | Versioned(name, k, plus, digits, n) ensures VersionOf(name) == n {
      VersionedReads(name, k, plus, digits, n);
    }
  }

  lemma VersionedReads(name: string, k: Kind, plus: bool, digits: string, n: nat)
    requires Versioned(name, k, plus, digits, n)
    ensures VersionOf(name) == n
  {
    hide KindName, AfterKind, Atoi, Value;
    var number := (if plus then "+" else "") + digits;
    AfterKindName(k, number);
    NumberRead(plus, digits);
    StemRead(KindName(k) + number);
  }

  lemma NumberRead(plus: bool, digits: string)
    requires digits != "" && AllDigits(digits)
    ensures Atoi((if plus then "+" else "") + digits) == Number(Value(digits))
  {
    var number := (if plus then "+" else "") + digits;
    hide Value;
    assert IsDigit(digits[0]);
    assert number == if plus then "+" + digits else digits;
    assert plus ==> number[1..] == digits;
  }

  lemma StemRead(stem: string)
    ensures VersionOf(stem + ".pem") == match Atoi(AfterKind(stem)) { case Bad => 0 case Number(n) => n }
  {
    hide AfterKind, Atoi;
    var name := stem + ".pem";
    assert name[..|name| - 4] == stem && name[|name| - 4..] == ".pem";
  }

  lemma VersionParts(name: string, n: nat) returns (k: Kind, plus: bool, digits: string)
    requires n > 0 && VersionOf(name) == n
    ensures Versioned(name, k, plus, digits, n)
  {
    var stem := name[..|name| - 4];
    assert name == stem + ".pem";
    var number := AfterKind(stem);
    k := StemKind(stem);
    plus := number[0] == '+';
    digits := if plus then number[1..] else number;
    hide AfterKind, KindName, Value;
    assert number == (if plus then "+" else "") + digits;
  }

  lemma StemKind(stem: string) returns (k: Kind)
    requires AfterKind(stem) != ""
    ensures stem == KindName(k) + AfterKind(stem)
  {
    k := if HasPrefix(stem, "fullchain") then Fullchain
      else if HasPrefix(stem, "privkey") then Privkey
      else if HasPrefix(stem, "chain") then Chain else Cert;
  }

  lemma ArchiveNameInjective(j: Kind, m: nat, k: Kind, n: nat)
    requires ArchiveName(j, m) == ArchiveName(k, n)
    ensures j == k && m == n
  {
    VersionReadBack(j, m);
    VersionReadBack(k, n);
    var a, b := ArchiveName(j, m), ArchiveName(k, n);
    assert |a| == |KindName(j)| + |Itoa(m)| + 4 && |b| == |KindName(k)| + |Itoa(n)| + 4;
    assert a[0] == KindName(j)[0] && b[0] == KindName(k)[0];
  }

  // ----- The state and its primitive steps -----

  /** `live`, `temp` and `previous` are the symbolic links of the live directory and what they
      point to; `written` remembers every archive file that was written, in order. */
  datatype State = State(
    archiveExists: bool, archive: map<string, string>,
    live: map<Kind, string>, temp: map<Kind, string>, previous: map<Kind, string>,
    written: seq<string>)

  datatype Op =
    | MakeArchive
    | PutFile(name: string, data: string)
    | DropTemp(kind: Kind) | LinkTemp(kind: Kind, target: string) | RenameTemp(kind: Kind)
    | DropLive(kind: Kind) | LinkLive(kind: Kind, target: string) | DropPrevious(kind: Kind)

  function Apply(s: State, op: Op): State {
    match op
    case MakeArchive => s.(archiveExists := true)
    case PutFile(name, data) => s.(archive := s.archive[name := data], written := s.written + [name])
    case DropTemp(k) => s.(temp := s.temp - {k})
    case LinkTemp(k, target) => s.(temp := s.temp[k := target])
    case RenameTemp(k) => if k in s.temp then s.(live := s.live[k := s.temp[k]], temp := s.temp - {k}) else s
    case DropLive(k) => s.(live := s.live - {k})
    case LinkLive(k, target) => s.(live := s.live[k := target])
    case DropPrevious(k) => s.(previous := s.previous - {k})
  }

  function Run(s: State, ops: seq<Op>): State
    decreases |ops|
  {
    if ops == [] then s else Run(Apply(s, ops[0]), ops[1..])
  }

  lemma {:induction false} RunAppend(s: State, a: seq<Op>, b: seq<Op>)
    ensures Run(s, a + b) == Run(Run(s, a), b)
    decreases |a|
  {
    if a == [] { assert a + b == b; }
    else {
      RunAppend(Apply(s, a[0]), a[1..], b);
      assert (a + b)[1..] == a[1..] + b;
    }
  }

  // ----- The operations as lists of steps -----

  function Max(a: int, b: int): int {
    if a > b then a else b
  }

  /** The highest version among the names, or 0. */
  ghost function Highest(names: set<string>): (n: nat)
    ensures forall x <- names :: VersionOf(x) <= n
    ensures n > 0 ==> exists x <- names :: VersionOf(x) == n
  {
    if names == {} then 0
    else
      var x :| x in names;
      Max(VersionOf(x), Highest(names - {x}))
  }

  lemma HighestIs(names: set<string>, n: nat)
    requires forall x <- names :: VersionOf(x) <= n
    requires n > 0 ==> exists x <- names :: VersionOf(x) == n
    ensures Highest(names) == n
  {
  }

  /** What a live link of one kind and version points to; `base` is the relative archive directory. */
  function Link(base: string, k: Kind, version: nat): string {
    base + ArchiveName(k, version)
  }

  /** `replaceSymlink`. */
  function ReplaceLink(k: Kind, target: string): seq<Op> {
    [DropTemp(k), LinkTemp(k, target), RenameTemp(k)]
  }

  datatype Contents = Contents(cert: string, chain: string, fullchain: string, privkey: string)

  function ArchiveOps(version: nat, d: Contents): seq<Op> {
    [PutFile(ArchiveName(Cert, version), d.cert), PutFile(ArchiveName(Chain, version), d.chain),
     PutFile(ArchiveName(Fullchain, version), d.fullchain), PutFile(ArchiveName(Privkey, version), d.privkey)]
  }

  function LinkOps(base: string, kinds: seq<Kind>, version: nat): seq<Op> {
    if kinds == [] then []
    else ReplaceLink(kinds[0], Link(base, kinds[0], version)) + LinkOps(base, kinds[1..], version)
  }

  /** `Write`: the four archive files of the next version, then the four links. */
  ghost function WriteOps(s: State, base: string, d: Contents): seq<Op> {
    var version := Highest(s.archive.Keys) + 1;
    [MakeArchive] + ArchiveOps(version, d) + LinkOps(base, Kinds, version)
  }

  function RecoverKindOps(s: State, k: Kind): seq<Op> {
    if k in s.previous then [DropLive(k), LinkLive(k, s.previous[k]), DropPrevious(k)] else []
  }

  /** `recoverPreviousLinks`: a kind whose `previous_` link exists gets its old target back. */
  function RecoverOps(s: State, kinds: seq<Kind>): seq<Op> {
    if kinds == [] then [] else RecoverKindOps(s, kinds[0]) + RecoverOps(s, kinds[1..])
  }

  function RelinkKindOps(s: State, k: Kind, want: string): seq<Op> {
    if k in s.live && s.live[k] == want then [] else ReplaceLink(k, want)
  }

  /** The relinking loop of `EnsureDeployed`: only stale or missing links are replaced. */
  function RelinkOps(s: State, base: string, kinds: seq<Kind>, version: nat): seq<Op> {
    if kinds == [] then []
    else RelinkKindOps(s, kinds[0], Link(base, kinds[0], version)) + RelinkOps(s, base, kinds[1..], version)
  }

  ghost function DeployOps(s: State, base: string): seq<Op> {
    if !s.archiveExists then []
    else
      var recover := RecoverOps(s, Kinds);
      var highest := Highest(s.archive.Keys);
      if highest == 0 then recover else recover + RelinkOps(Run(s, recover), base, Kinds, highest)
  }

  // ----- The operations -----

  class Store {
    var s: State
    const base: string

    constructor (s: State, base: string)
      ensures this.s == s && this.base == base
    {
      this.s, this.base := s, base;
    }

    method Do(op: Op)
      modifies this
      ensures s == Apply(old(s), op)
    {
      s := Apply(s, op);
    }

    /** The scan of the archive directory that `NextVersion` and `EnsureDeployed` share. */
    method HighestVersion() returns (highest: nat)
      ensures highest == Highest(s.archive.Keys)
    {
      highest := 0;
      var todo := s.archive.Keys;
      while todo != {}
        invariant todo <= s.archive.Keys
        invariant forall x <- s.archive.Keys - todo :: VersionOf(x) <= highest
        invariant highest > 0 ==> exists x <- s.archive.Keys :: VersionOf(x) == highest
        decreases todo
      {
        var name :| name in todo;
        var n := VersionOf(name);
        if n > highest { highest := n; }
        todo := todo - {name};
      }
      HighestIs(s.archive.Keys, highest);
    }

    method ReplaceSymlink(k: Kind, target: string)
      modifies this
      ensures s == Run(old(s), ReplaceLink(k, target))
    {
      Do(DropTemp(k));
      Do(LinkTemp(k, target));
      Do(RenameTemp(k));
      ThreeSteps(old(s), DropTemp(k), LinkTemp(k, target), RenameTemp(k));
    }

    /** The four archive files; an existing privkey file is an error, which the scan rules out. */
    method WriteArchive(version: nat, d: Contents)
      requires version == Highest(s.archive.Keys) + 1
      modifies this
      ensures s == Run(old(s), [MakeArchive] + ArchiveOps(version, d))
    {
      Do(MakeArchive);
      Do(PutFile(ArchiveName(Cert, version), d.cert));
      Do(PutFile(ArchiveName(Chain, version), d.chain));
      Do(PutFile(ArchiveName(Fullchain, version), d.fullchain));
      PrivkeyIsNew(old(s), d, version, s);
      assert ArchiveName(Privkey, version) !in s.archive;
      Do(PutFile(ArchiveName(Privkey, version), d.privkey));
      FiveSteps(old(s), version, d);
    }

    method Write(d: Contents) returns (version: nat)
      modifies this
      ensures version == Highest(old(s).archive.Keys) + 1 && s == Run(old(s), WriteOps(old(s), base, d))
    {
      var highest := HighestVersion();
      version := highest + 1;
      WriteArchive(version, d);
      ghost var s1 := s;
      var kinds := Kinds;
      hide Apply, ArchiveOps, ArchiveName, Kinds;
      for i := 0 to |kinds|
        invariant Run(s, LinkOps(base, kinds[i..], version)) == Run(s1, LinkOps(base, kinds, version))
      {
        LinkStep(s, base, kinds, i, version);
        ReplaceSymlink(kinds[i], Link(base, kinds[i], version));
      }
      RunAppend(old(s), [MakeArchive] + ArchiveOps(version, d), LinkOps(base, kinds, version));
    }

    method RecoverKind(k: Kind)
      modifies this
      ensures s == Run(old(s), RecoverKindOps(old(s), k))
    {
      if k in s.previous {
        var target := s.previous[k];
        ThreeSteps(s, DropLive(k), LinkLive(k, target), DropPrevious(k));
        Do(DropLive(k));
        Do(LinkLive(k, target));
        Do(DropPrevious(k));
      }
    }

    method RecoverPreviousLinks()
      modifies this
      ensures s == Run(old(s), RecoverOps(old(s), Kinds))
    {
      var kinds := Kinds;
      assert Distinct(kinds);
      hide Kinds, Apply, RecoverKindOps;
      for i := 0 to |kinds|
        invariant SamePrevious(s, old(s), kinds[i..])
        invariant Run(s, RecoverOps(old(s), kinds[i..])) == Run(old(s), RecoverOps(old(s), kinds))
      {
        RecoverStep(s, old(s), kinds, i);
        RecoverKind(kinds[i]);
      }
      assert kinds[|kinds|..] == [];
    }

    method RelinkKind(k: Kind, want: string)
      modifies this
      ensures s == Run(old(s), RelinkKindOps(old(s), k, want))
    {
      if k in s.live && s.live[k] == want { return; }
      ReplaceSymlink(k, want);
    }

    /** The relinking loop of `EnsureDeployed`. */
    method Relink(version: nat)
      modifies this
      ensures s == Run(old(s), RelinkOps(old(s), base, Kinds, version))
    {
      var kinds := Kinds;
      assert Distinct(kinds);
      hide Kinds, Apply, RelinkKindOps;
      for i := 0 to |kinds|
        invariant SameLive(s, old(s), kinds[i..])
        invariant Run(s, RelinkOps(old(s), base, kinds[i..], version)) == Run(old(s), RelinkOps(old(s), base, kinds, version))
      {
        RelinkStep(s, old(s), base, kinds, i, version);
        RelinkKind(kinds[i], Link(base, kinds[i], version));
      }
      assert kinds[|kinds|..] == [];
    }

    /** Returns the version the links point to, or 0. */
    method EnsureDeployed() returns (version: nat)
      modifies this
      ensures version == (if old(s).archiveExists then Highest(old(s).archive.Keys) else 0)
      ensures s == Run(old(s), DeployOps(old(s), base))
    {
      if !s.archiveExists { return 0; }
      var highest := HighestVersion();
      RecoverPreviousLinks();
      if highest == 0 { return 0; }
      ghost var s1 := s;
      Relink(highest);
      RunAppend(old(s), RecoverOps(old(s), Kinds), RelinkOps(s1, base, Kinds, highest));
      return highest;
    }
  }

  predicate Distinct(kinds: seq<Kind>) {
    forall i, j :: 0 <= i < j < |kinds| ==> kinds[i] != kinds[j]
  }

  /** The two states agree on the `previous_` links of these kinds. */
  predicate SamePrevious(s: State, s0: State, kinds: seq<Kind>) {
    forall k <- kinds :: (k in s.previous <==> k in s0.previous) && (k in s.previous ==> s.previous[k] == s0.previous[k])
  }

  predicate SameLive(s: State, s0: State, kinds: seq<Kind>) {
    forall k <- kinds :: (k in s.live <==> k in s0.live) && (k in s.live ==> s.live[k] == s0.live[k])
  }

  lemma SameRecoverOps(s: State, s0: State, kinds: seq<Kind>)
    requires kinds != [] && SamePrevious(s, s0, kinds)
    ensures RecoverKindOps(s, kinds[0]) == RecoverKindOps(s0, kinds[0])
  {
  }

  lemma SameRelinkOps(s: State, s0: State, kinds: seq<Kind>, want: string)
    requires kinds != [] && SameLive(s, s0, kinds)
    ensures RelinkKindOps(s, kinds[0], want) == RelinkKindOps(s0, kinds[0], want)
  {
    assert kinds[0] in kinds;
  }

  lemma RecoverKindEffect(s: State, k: Kind)
    ensures var t := Run(s, RecoverKindOps(s, k));
      t == (if k in s.previous then s.(live := s.live[k := s.previous[k]], previous := s.previous - {k}) else s)
  {
    if k in s.previous {
      ThreeSteps(s, DropLive(k), LinkLive(k, s.previous[k]), DropPrevious(k));
      assert (s.live - {k})[k := s.previous[k]] == s.live[k := s.previous[k]];
    }
  }

  lemma ReplaceLinkEffect(s: State, k: Kind, target: string)
    ensures Run(s, ReplaceLink(k, target)) == s.(live := s.live[k := target], temp := s.temp - {k})
  {
    ThreeSteps(s, DropTemp(k), LinkTemp(k, target), RenameTemp(k));
    assert (s.temp - {k})[k := target] - {k} == s.temp - {k};
  }

  lemma RelinkKindEffect(s: State, k: Kind, want: string)
    ensures var t := Run(s, RelinkKindOps(s, k, want));
      k in t.live && t.live[k] == want && t.live == s.live[k := want] &&
      t == s.(live := t.live, temp := t.temp) && (t.temp == s.temp || t.temp == s.temp - {k})
  {
    if !(k in s.live && s.live[k] == want) { ReplaceLinkEffect(s, k, want); }
  }

  lemma RecoverKindFrame(s: State, k: Kind, s0: State, kinds: seq<Kind>, i: nat)
    requires Distinct(kinds) && i < |kinds| && kinds[i] == k && SamePrevious(s, s0, kinds[i..])
    ensures SamePrevious(Run(s, RecoverKindOps(s, k)), s0, kinds[i + 1..])
  {
    RecoverKindEffect(s, k);
    assert forall j <- kinds[i + 1..] :: j in kinds[i..] && j != k;
  }

  lemma RelinkKindFrame(s: State, k: Kind, want: string, s0: State, kinds: seq<Kind>, i: nat)
    requires Distinct(kinds) && i < |kinds| && kinds[i] == k && SameLive(s, s0, kinds[i..])
    ensures SameLive(Run(s, RelinkKindOps(s, k, want)), s0, kinds[i + 1..])
  {
    RelinkKindEffect(s, k, want);
    assert forall j <- kinds[i + 1..] :: j in kinds[i..] && j != k;
  }

  lemma LinkStep(s: State, base: string, kinds: seq<Kind>, i: nat, version: nat)
    requires i < |kinds|
    ensures Run(s, LinkOps(base, kinds[i..], version)) ==
      Run(Run(s, ReplaceLink(kinds[i], Link(base, kinds[i], version))), LinkOps(base, kinds[i + 1..], version))
  {
    assert kinds[i..][0] == kinds[i] && kinds[i..][1..] == kinds[i + 1..];
    RunAppend(s, ReplaceLink(kinds[i], Link(base, kinds[i], version)), LinkOps(base, kinds[i + 1..], version));
  }

  lemma RecoverStep(s: State, s0: State, kinds: seq<Kind>, i: nat)
    requires Distinct(kinds) && i < |kinds| && SamePrevious(s, s0, kinds[i..])
    ensures var t := Run(s, RecoverKindOps(s, kinds[i]));
      SamePrevious(t, s0, kinds[i + 1..]) && Run(s, RecoverOps(s0, kinds[i..])) == Run(t, RecoverOps(s0, kinds[i + 1..]))
  {
    assert kinds[i..][0] == kinds[i] && kinds[i..][1..] == kinds[i + 1..];
    RunAppend(s, RecoverKindOps(s0, kinds[i]), RecoverOps(s0, kinds[i + 1..]));
    SameRecoverOps(s, s0, kinds[i..]);
    RecoverKindFrame(s, kinds[i], s0, kinds, i);
  }

  lemma RelinkStep(s: State, s0: State, base: string, kinds: seq<Kind>, i: nat, version: nat)
    requires Distinct(kinds) && i < |kinds| && SameLive(s, s0, kinds[i..])
    ensures var t := Run(s, RelinkKindOps(s, kinds[i], Link(base, kinds[i], version)));
      SameLive(t, s0, kinds[i + 1..]) &&
      Run(s, RelinkOps(s0, base, kinds[i..], version)) == Run(t, RelinkOps(s0, base, kinds[i + 1..], version))
  {
    var want := Link(base, kinds[i], version);
    assert kinds[i..][0] == kinds[i] && kinds[i..][1..] == kinds[i + 1..];
    RunAppend(s, RelinkKindOps(s0, kinds[i], want), RelinkOps(s0, base, kinds[i + 1..], version));
    SameRelinkOps(s, s0, kinds[i..], want);
    RelinkKindFrame(s, kinds[i], want, s0, kinds, i);
  }

  lemma ThreeSteps(s: State, a: Op, b: Op, c: Op)
    ensures Run(s, [a, b, c]) == Apply(Apply(Apply(s, a), b), c)
  {
    assert [a, b, c][1..] == [b, c] && [b, c][1..] == [c] && [c][1..] == [];
    var s1 := Apply(s, a);
    var s2 := Apply(s1, b);
    assert Run(s2, [c]) == Run(Apply(s2, c), []);
    assert Run(s1, [b, c]) == Run(s2, [c]);
    assert Run(s, [a, b, c]) == Run(s1, [b, c]);
  }

  lemma FiveSteps(s: State, version: nat, d: Contents)
    ensures Run(s, [MakeArchive] + ArchiveOps(version, d)) ==
      Apply(Apply(Apply(Apply(Apply(s, MakeArchive),
        PutFile(ArchiveName(Cert, version), d.cert)), PutFile(ArchiveName(Chain, version), d.chain)),
        PutFile(ArchiveName(Fullchain, version), d.fullchain)), PutFile(ArchiveName(Privkey, version), d.privkey))
  {
    var ops := ArchiveOps(version, d);
    var s1 := Apply(s, MakeArchive);
    assert ([MakeArchive] + ops)[1..] == ops;
    assert Run(s1, ops) == Run(Apply(s1, ops[0]), ops[1..]);
    assert ops[1..] == [ops[1], ops[2], ops[3]];
    ThreeSteps(Apply(s1, ops[0]), ops[1], ops[2], ops[3]);
  }

  /** No archive file of a version above the highest exists. */
  lemma NextIsNew(names: set<string>, k: Kind, version: nat)
    requires version > Highest(names)
    ensures ArchiveName(k, version) !in names
  {
    VersionReadBack(k, version);
  }

  lemma PrivkeyIsNew(s0: State, d: Contents, version: nat, s: State)
    requires version == Highest(s0.archive.Keys) + 1
    requires s.archive.Keys == s0.archive.Keys +
      {ArchiveName(Cert, version), ArchiveName(Chain, version), ArchiveName(Fullchain, version)}
    ensures ArchiveName(Privkey, version) !in s.archive
  {
    NextIsNew(s0.archive.Keys, Privkey, version);
    forall k | k != Privkey && ArchiveName(k, version) == ArchiveName(Privkey, version) ensures false {
      ArchiveNameInjective(k, version, Privkey, version);
    }
  }

  // ----- No archive file is written twice -----

  function PutBy(op: Op): seq<string> {
    if op.PutFile? then [op.name] else []
  }

  /** The archive files that a list of steps writes. */
  function Puts(ops: seq<Op>): seq<string>
    decreases |ops|
  {
    if ops == [] then []
    else PutBy(ops[0]) + Puts(ops[1..])
  }

  function Elements(names: seq<string>): set<string> {
    set x <- names
  }

  predicate NoRepeat(names: seq<string>) {
    forall i, j :: 0 <= i < j < |names| ==> names[i] != names[j]
  }

  lemma ElementsAppend(a: seq<string>, b: seq<string>)
    ensures Elements(a + b) == Elements(a) + Elements(b)
  {
  }

  lemma PutOne(s: State, op: Op)
    ensures Apply(s, op).written == s.written + PutBy(op)
    ensures Apply(s, op).archive.Keys == s.archive.Keys + Elements(PutBy(op))
  {
  }

  lemma {:induction false} RunPuts(s: State, ops: seq<Op>)
    ensures Run(s, ops).written == s.written + Puts(ops)
    ensures Run(s, ops).archive.Keys == s.archive.Keys + Elements(Puts(ops))
    decreases |ops|
  {
    if ops != [] {
      var op, t := ops[0], Apply(s, ops[0]);
      RunPuts(t, ops[1..]);
      PutOne(s, op);
      var first, rest := PutBy(op), Puts(ops[1..]);
      hide Apply, PutBy;
      Assoc(s.written, first, rest);
      ElementsAppend(first, rest);
      hide Elements;
    }
  }

  lemma {:induction false} PutsAppend(a: seq<Op>, b: seq<Op>)
    ensures Puts(a + b) == Puts(a) + Puts(b)
    decreases |a|
  {
    if a == [] { assert a + b == b; }
    else {
      PutsAppend(a[1..], b);
      assert (a + b)[1..] == a[1..] + b;
      var first := PutBy(a[0]);
      hide PutBy;
      Assoc(first, Puts(a[1..]), Puts(b));
    }
  }

  lemma PutsCut(ops: seq<Op>, n: nat)
    requires n <= |ops|
    ensures Puts(ops[..n]) <= Puts(ops)
  {
    PutsAppend(ops[..n], ops[n..]);
    assert ops[..n] + ops[n..] == ops;
  }

  lemma ThreePutNothing(a: Op, b: Op, c: Op)
    requires !a.PutFile? && !b.PutFile? && !c.PutFile?
    ensures Puts([a, b, c]) == []
  {
    assert [a, b, c][1..] == [b, c] && [b, c][1..] == [c];
    assert Puts([b, c]) == Puts([c]) == [];
  }

  lemma {:induction false} LinkingPutsNothing(base: string, kinds: seq<Kind>, version: nat)
    ensures Puts(LinkOps(base, kinds, version)) == []
  {
    if kinds != [] {
      LinkingPutsNothing(base, kinds[1..], version);
      var target := Link(base, kinds[0], version);
      ThreePutNothing(DropTemp(kinds[0]), LinkTemp(kinds[0], target), RenameTemp(kinds[0]));
      PutsAppend(ReplaceLink(kinds[0], Link(base, kinds[0], version)), LinkOps(base, kinds[1..], version));
    }
  }

  lemma {:induction false} RelinkingPutsNothing(s: State, base: string, kinds: seq<Kind>, version: nat)
    ensures Puts(RelinkOps(s, base, kinds, version)) == []
  {
    if kinds != [] {
      RelinkingPutsNothing(s, base, kinds[1..], version);
      var target := Link(base, kinds[0], version);
      ThreePutNothing(DropTemp(kinds[0]), LinkTemp(kinds[0], target), RenameTemp(kinds[0]));
      PutsAppend(RelinkKindOps(s, kinds[0], Link(base, kinds[0], version)), RelinkOps(s, base, kinds[1..], version));
    }
  }

  lemma {:induction false} RecoveringPutsNothing(s: State, kinds: seq<Kind>)
    ensures Puts(RecoverOps(s, kinds)) == []
  {
    if kinds != [] {
      RecoveringPutsNothing(s, kinds[1..]);
      if kinds[0] in s.previous {
        ThreePutNothing(DropLive(kinds[0]), LinkLive(kinds[0], s.previous[kinds[0]]), DropPrevious(kinds[0]));
      }
      PutsAppend(RecoverKindOps(s, kinds[0]), RecoverOps(s, kinds[1..]));
    }
  }

  lemma DeployPutsNothing(s: State, base: string)
    ensures Puts(DeployOps(s, base)) == []
  {
    if s.archiveExists {
      var recover := RecoverOps(s, Kinds);
      var highest := Highest(s.archive.Keys);
      RecoveringPutsNothing(s, Kinds);
      RelinkingPutsNothing(Run(s, recover), base, Kinds, highest);
      PutsAppend(recover, RelinkOps(Run(s, recover), base, Kinds, highest));
    }
  }

  function VersionNames(version: nat): seq<string> {
    [ArchiveName(Cert, version), ArchiveName(Chain, version), ArchiveName(Fullchain, version), ArchiveName(Privkey, version)]
  }

  lemma MakePutsNothing()
    ensures Puts([MakeArchive]) == []
  {
    assert [MakeArchive][1..] == [];
  }

  lemma WritePuts(s: State, base: string, d: Contents)
    ensures Puts(WriteOps(s, base, d)) == VersionNames(Highest(s.archive.Keys) + 1)
  {
    var version := Highest(s.archive.Keys) + 1;
    var ops := ArchiveOps(version, d);
    hide Puts, ArchiveOps, ArchiveName, LinkOps, Kinds, VersionNames, Highest;
    MakePutsNothing();
    FourPuts(version, d);
    LinkingPutsNothing(base, Kinds, version);
    PutsAppend([MakeArchive] + ops, LinkOps(base, Kinds, version));
    PutsAppend([MakeArchive], ops);
  }

  lemma FourPuts(version: nat, d: Contents)
    ensures Puts(ArchiveOps(version, d)) == VersionNames(version)
  {
    var ops, names := ArchiveOps(version, d), VersionNames(version);
    assert ops[1..] == [ops[1], ops[2], ops[3]] && ops[1..][1..] == [ops[2], ops[3]];
    assert Puts([ops[3]]) == [names[3]];
    assert Puts([ops[2], ops[3]]) == [names[2], names[3]];
    assert Puts(ops[1..]) == [names[1], names[2], names[3]];
  }

  lemma VersionNamesNew(names: set<string>, version: nat)
    requires version > Highest(names)
    ensures NoRepeat(VersionNames(version)) && forall x <- VersionNames(version) :: x !in names
  {
    NextIsNew(names, Cert, version);
    NextIsNew(names, Chain, version);
    NextIsNew(names, Fullchain, version);
    NextIsNew(names, Privkey, version);
    forall j, k | ArchiveName(j, version) == ArchiveName(k, version) ensures j == k {
      ArchiveNameInjective(j, version, k, version);
    }
  }

  /** One call of the program, stopped by a crash or an error after `steps` primitive steps
      (a call that is not stopped takes them all). */
  datatype Event = CallWrite(d: Contents, steps: nat) | CallEnsureDeployed(steps: nat)

  function Cut(ops: seq<Op>, steps: nat): seq<Op> {
    if steps <= |ops| then ops[..steps] else ops
  }

  ghost function Whole(s: State, base: string, e: Event): seq<Op> {
    match e
    case CallWrite(d, _) => WriteOps(s, base, d)
    case CallEnsureDeployed(_) => DeployOps(s, base)
  }

  ghost function OpsOf(s: State, base: string, e: Event): seq<Op> {
    Cut(Whole(s, base, e), e.steps)
  }

  ghost function History(s: State, base: string, events: seq<Event>): State
    decreases |events|
  {
    if events == [] then s else History(Run(s, OpsOf(s, base, events[0])), base, events[1..])
  }

  ghost predicate WrittenOnce(s: State) {
    NoRepeat(s.written) && forall x <- s.written :: x in s.archive
  }

  lemma OnceAfter(s: State, t: State, puts: seq<string>)
    requires WrittenOnce(s) && NoRepeat(puts) && forall x <- puts :: x !in s.archive
    requires t.written == s.written + puts && t.archive.Keys == s.archive.Keys + Elements(puts)
    ensures WrittenOnce(t)
  {
    forall i, j | 0 <= i < j < |t.written| ensures t.written[i] != t.written[j] {
      if i < |s.written| <= j { assert t.written[i] in s.written && t.written[j] in puts; }
    }
    forall x <- t.written ensures x in t.archive {
      if x in puts { assert x in Elements(puts); }
      assert x in t.archive.Keys;
    }
  }

  lemma PrefixIsNew(a: seq<string>, b: seq<string>, names: set<string>)
    requires a <= b && NoRepeat(b) && forall x <- b :: x !in names
    ensures NoRepeat(a) && forall x <- a :: x !in names
  {
    assert forall x <- a :: x in b;
  }

  lemma WholePutsNew(s: State, base: string, e: Event)
    ensures var puts := Puts(Whole(s, base, e)); NoRepeat(puts) && forall x <- puts :: x !in s.archive.Keys
  {
    hide Puts, WriteOps, DeployOps, VersionNames;
    if e.CallWrite? {
      WritePuts(s, base, e.d);
      VersionNamesNew(s.archive.Keys, Highest(s.archive.Keys) + 1);
    } else {
      DeployPutsNothing(s, base);
    }
  }

  lemma CallPutsNew(s: State, base: string, e: Event)
    ensures var puts := Puts(OpsOf(s, base, e)); NoRepeat(puts) && forall x <- puts :: x !in s.archive.Keys
  {
    hide Puts, Whole;
    var whole := Whole(s, base, e);
    WholePutsNew(s, base, e);
    if e.steps <= |whole| { PutsCut(whole, e.steps); }
    PrefixIsNew(Puts(OpsOf(s, base, e)), Puts(whole), s.archive.Keys);
  }

  lemma CallWritesOnce(s: State, base: string, e: Event)
    requires WrittenOnce(s)
    ensures WrittenOnce(Run(s, OpsOf(s, base, e)))
  {
    CallPutsNew(s, base, e);
    RunPuts(s, OpsOf(s, base, e));
    OnceAfter(s, Run(s, OpsOf(s, base, e)), Puts(OpsOf(s, base, e)));
  }

  /** Over every sequence of calls, each stopped anywhere, no archive file is written twice. */
  lemma {:induction false} NoFileWrittenTwice(s: State, base: string, events: seq<Event>)
    requires WrittenOnce(s)
    ensures WrittenOnce(History(s, base, events))
    decreases |events|
  {
    if events != [] {
      CallWritesOnce(s, base, events[0]);
      NoFileWrittenTwice(Run(s, OpsOf(s, base, events[0])), base, events[1..]);
    }
  }
}
