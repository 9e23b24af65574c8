/** What crashes leave of a lineage: the theorems about `Write` and `EnsureDeployed` stopped at
    any step, and about the repair that `EnsureDeployed` makes afterwards.
 */
module LineageCrash {
  import opened Lineage

  /** All four live links point to one version. */
  predicate Deployed(s: State, base: string, version: nat) {
    forall k: Kind :: k in s.live && s.live[k] == Link(base, k, version)
  }

  predicate LinkedTo(s: State, base: string, kinds: seq<Kind>, version: nat) {
    forall k <- kinds :: k in s.live && s.live[k] == Link(base, k, version)
  }

  predicate NoPrevious(s: State, kinds: seq<Kind>) {
    forall k <- kinds :: k !in s.previous
  }

  // ----- Whole operations -----

  lemma {:induction false} LinkRun(s: State, base: string, kinds: seq<Kind>, version: nat)
    ensures var t := Run(s, LinkOps(base, kinds, version));
      LinkedTo(t, base, kinds, version) && t == s.(live := t.live, temp := t.temp)
    decreases |kinds|
  {
    if kinds != [] {
      var k, target := kinds[0], Link(base, kinds[0], version);
      RunAppend(s, ReplaceLink(k, target), LinkOps(base, kinds[1..], version));
      ReplaceLinkEffect(s, k, target);
      var s1 := Run(s, ReplaceLink(k, target));
      LinkRun(s1, base, kinds[1..], version);
      LinkRunOthers(s1, base, kinds[1..], version, k);
    }
  }

  lemma {:induction false} LinkRunOthers(s: State, base: string, kinds: seq<Kind>, version: nat, k: Kind)
    requires k in s.live && s.live[k] == Link(base, k, version)
    ensures var t := Run(s, LinkOps(base, kinds, version)); k in t.live && t.live[k] == Link(base, k, version)
    decreases |kinds|
  {
    if kinds != [] {
      var target := Link(base, kinds[0], version);
      RunAppend(s, ReplaceLink(kinds[0], target), LinkOps(base, kinds[1..], version));
      ReplaceLinkEffect(s, kinds[0], target);
      LinkRunOthers(Run(s, ReplaceLink(kinds[0], target)), base, kinds[1..], version, k);
    }
  }

  /** From `s` to `t` the live links of `kinds` are brought to `version`, and no others change. */
  predicate Relinked(s: State, t: State, base: string, kinds: seq<Kind>, version: nat) {
    LinkedTo(t, base, kinds, version) && t == s.(live := t.live, temp := t.temp) &&
    forall k :: k !in kinds && k in s.live ==> k in t.live && t.live[k] == s.live[k]
  }

  lemma {:induction false} RelinkRun(s: State, s0: State, base: string, kinds: seq<Kind>, version: nat)
    requires Distinct(kinds) && SameLive(s, s0, kinds)
    ensures Relinked(s, Run(s, RelinkOps(s0, base, kinds, version)), base, kinds, version)
    decreases |kinds|
  {
    if kinds != [] {
      var k, want := kinds[0], Link(base, kinds[0], version);
      assert kinds[0..] == kinds && Distinct(kinds[1..]);
      hide *;
      RelinkStep(s, s0, base, kinds, 0, version);
      RelinkKindEffect(s, k, want);
      var s1 := Run(s, RelinkKindOps(s, k, want));
      RelinkRun(s1, s0, base, kinds[1..], version);
      RelinkedMore(s, s1, Run(s1, RelinkOps(s0, base, kinds[1..], version)), base, kinds, version);
    }
  }

  /** The link of the first kind outlives the relinking of the others. */
  lemma RelinkedMore(s: State, s1: State, t: State, base: string, kinds: seq<Kind>, version: nat)
    requires kinds != [] && Distinct(kinds) && s1.live == s.live[kinds[0] := Link(base, kinds[0], version)]
    requires s1 == s.(live := s1.live, temp := s1.temp) && Relinked(s1, t, base, kinds[1..], version)
    ensures Relinked(s, t, base, kinds, version)
  {
    assert forall k :: k in kinds <==> k == kinds[0] || k in kinds[1..];
    assert kinds[0] !in kinds[1..];
    hide Link;
  }

  lemma {:induction false} RecoverRun(s: State, s0: State, kinds: seq<Kind>)
    requires Distinct(kinds) && SamePrevious(s, s0, kinds)
    ensures var t := Run(s, RecoverOps(s0, kinds));
      NoPrevious(t, kinds) && t.previous.Keys <= s.previous.Keys && t == s.(live := t.live, previous := t.previous)
    decreases |kinds|
  {
    if kinds != [] {
      var k := kinds[0];
      assert kinds[0..] == kinds;
      RecoverStep(s, s0, kinds, 0);
      RecoverKindEffect(s, k);
      hide Run, RecoverKindOps, RecoverOps;
      var s1 := Run(s, RecoverKindOps(s, k));
      RecoverRun(s1, s0, kinds[1..]);
    }
  }

  lemma EveryKind(k: Kind)
    ensures k in Kinds
  {
    assert Kinds[0] == Cert && Kinds[1] == Privkey && Kinds[2] == Chain && Kinds[3] == Fullchain;
  }

  lemma AllLinked(s: State, base: string, version: nat)
    requires LinkedTo(s, base, Kinds, version)
    ensures Deployed(s, base, version)
  {
    forall k: Kind ensures k in Kinds { EveryKind(k); }
  }

  lemma NoneLeft(s: State)
    requires NoPrevious(s, Kinds)
    ensures s.previous == map[]
  {
    forall k: Kind ensures k in Kinds { EveryKind(k); }
  }

  /** A finished `EnsureDeployed` that finds a version leaves all four links on the highest one,
      whatever crashes came before, leaves no `previous_` link, and touches no archive file. */
  lemma RepairDeploys(s: State, base: string)
    requires s.archiveExists && Highest(s.archive.Keys) > 0
    ensures var t := Run(s, DeployOps(s, base));
      Deployed(t, base, Highest(s.archive.Keys)) && t.previous == map[] && t.archive == s.archive
  {
    var highest := Highest(s.archive.Keys);
    assert Distinct(Kinds);
    hide Kinds, Run, RecoverOps, RelinkOps, Link, Deployed, LinkedTo, NoPrevious, Distinct;
    var s1 := Run(s, RecoverOps(s, Kinds));
    RecoverRun(s, s, Kinds);
    RelinkRun(s1, s1, base, Kinds, highest);
    RunAppend(s, RecoverOps(s, Kinds), RelinkOps(s1, base, Kinds, highest));
    var t := Run(s, DeployOps(s, base));
    AllLinked(t, base, highest);
    NoneLeft(t);
  }

  /** The archive after the four writes of one version. */
  function Stored(archive: map<string, string>, version: nat, d: Contents): map<string, string> {
    archive[ArchiveName(Cert, version) := d.cert][ArchiveName(Chain, version) := d.chain]
      [ArchiveName(Fullchain, version) := d.fullchain][ArchiveName(Privkey, version) := d.privkey]
  }

  lemma ArchiveRun(s: State, version: nat, d: Contents)
    ensures Run(s, [MakeArchive] + ArchiveOps(version, d)) ==
      s.(archiveExists := true, archive := Stored(s.archive, version, d), written := s.written + VersionNames(version))
  {
    FiveSteps(s, version, d);
    hide ArchiveName;
    var n := VersionNames(version);
    assert s.written + [n[0]] + [n[1]] + [n[2]] + [n[3]] == s.written + n;
  }

  /** Adding files of the next version makes that version the highest. */
  lemma NewHighest(names: set<string>, added: set<string>, version: nat)
    requires version == Highest(names) + 1 && added != {} && forall x <- added :: VersionOf(x) == version
    ensures Highest(names + added) == version
  {
    var x :| x in added;
    assert x in names + added;
    HighestIs(names + added, version);
  }

  lemma VersionOfNames(version: nat)
    ensures forall x <- VersionNames(version) :: VersionOf(x) == version
  {
    VersionReadBack(Cert, version);
    VersionReadBack(Chain, version);
    VersionReadBack(Fullchain, version);
    VersionReadBack(Privkey, version);
  }

  lemma NamedKind(k: Kind, version: nat)
    ensures ArchiveName(k, version) in VersionNames(version)
  {
    var n := VersionNames(version);
    assert n[0] == ArchiveName(Cert, version) && n[1] == ArchiveName(Chain, version);
    assert n[2] == ArchiveName(Fullchain, version) && n[3] == ArchiveName(Privkey, version);
  }

  lemma WriteRun(s: State, base: string, d: Contents)
    ensures var version := Highest(s.archive.Keys) + 1;
      Run(s, WriteOps(s, base, d)) == Run(Run(s, [MakeArchive] + ArchiveOps(version, d)), LinkOps(base, Kinds, version))
  {
    hide Run, ArchiveOps, LinkOps, Kinds;
    var version := Highest(s.archive.Keys) + 1;
    RunAppend(s, [MakeArchive] + ArchiveOps(version, d), LinkOps(base, Kinds, version));
  }

  /** A finished `Write` leaves all four links on the version it wrote, which is now the highest. */
  lemma WriteDeploys(s: State, base: string, d: Contents)
    ensures var version := Highest(s.archive.Keys) + 1;
      var t := Run(s, WriteOps(s, base, d));
      Deployed(t, base, version) && Highest(t.archive.Keys) == version &&
      t.archive == Stored(s.archive, version, d) && t.previous == s.previous
  {
    hide Run, ArchiveOps, LinkOps, WriteOps, Stored, Kinds, Link, LinkedTo, Deployed, VersionNames;
    var version := Highest(s.archive.Keys) + 1;
    ArchiveRun(s, version, d);
    WriteRun(s, base, d);
    LinkRun(Run(s, [MakeArchive] + ArchiveOps(version, d)), base, Kinds, version);
    AllLinked(Run(s, WriteOps(s, base, d)), base, version);
    StoredHighest(s.archive, version, d);
  }

  lemma StoredHighest(archive: map<string, string>, version: nat, d: Contents)
    requires version == Highest(archive.Keys) + 1
    ensures Highest(Stored(archive, version, d).Keys) == version
  {
    var added := Elements(VersionNames(version));
    VersionOfNames(version);
    NamedKind(Cert, version);
    hide ArchiveName, VersionOf;
    assert Stored(archive, version, d).Keys == archive.Keys + added;
    NewHighest(archive.Keys, added, version);
  }

  // ----- Crashes -----

  /** The number of steps of `Write` up to and including the private key. */
  const KEY_STEPS := 5

  lemma NoPutNoChange(s: State, op: Op)
    requires PutBy(op) == []
    ensures Apply(s, op).archive == s.archive && (s.archiveExists ==> Apply(s, op).archiveExists)
  {
  }

  lemma {:induction false} NoPutsNoChange(s: State, ops: seq<Op>)
    requires Puts(ops) == []
    ensures Run(s, ops).archive == s.archive
    ensures s.archiveExists ==> Run(s, ops).archiveExists
    decreases |ops|
  {
    if ops != [] {
      assert |Puts(ops)| == |PutBy(ops[0])| + |Puts(ops[1..])|;
      NoPutNoChange(s, ops[0]);
      hide Apply, PutBy;
      NoPutsNoChange(Apply(s, ops[0]), ops[1..]);
    }
  }

  /** Interrupted repairs leave the archive as it is. */
  lemma {:induction false} RepairsKeepArchive(s: State, base: string, events: seq<Event>)
    requires forall e <- events :: e.CallEnsureDeployed?
    ensures History(s, base, events).archive == s.archive
    ensures s.archiveExists ==> History(s, base, events).archiveExists
    decreases |events|
  {
    if events != [] {
      var ops := OpsOf(s, base, events[0]);
      assert events[0] in events;
      DeployPutsNothing(s, base);
      if events[0].steps <= |DeployOps(s, base)| { PutsCut(DeployOps(s, base), events[0].steps); }
      NoPutsNoChange(s, ops);
      RepairsKeepArchive(Run(s, ops), base, events[1..]);
    }
  }

  /** The steps before the private key is written, cut after `n`. */
  lemma CutBeforeKey(s: State, base: string, d: Contents, n: nat)
    requires n < KEY_STEPS
    ensures var version := Highest(s.archive.Keys) + 1;
      Cut(WriteOps(s, base, d), n) == ([MakeArchive] + ArchiveOps(version, d))[..n]
  {
    var version := Highest(s.archive.Keys) + 1;
    var first := [MakeArchive] + ArchiveOps(version, d);
    assert |first| == KEY_STEPS;
    hide ArchiveOps, LinkOps, Cut, Kinds, Highest;
    CutWithin(first, LinkOps(base, Kinds, version), n);
  }

  lemma CutWithin(a: seq<Op>, b: seq<Op>, n: nat)
    requires n <= |a|
    ensures Cut(a + b, n) == a[..n]
  {
  }

  lemma CutBehind(a: seq<Op>, b: seq<Op>, n: nat)
    requires n >= |a|
    ensures Cut(a + b, n) == a + Cut(b, n - |a|)
  {
  }

  lemma CutAfterKey(s: State, base: string, d: Contents, n: nat)
    requires n >= KEY_STEPS
    ensures var version := Highest(s.archive.Keys) + 1;
      Cut(WriteOps(s, base, d), n) == [MakeArchive] + ArchiveOps(version, d) + Cut(LinkOps(base, Kinds, version), n - KEY_STEPS)
  {
    var version := Highest(s.archive.Keys) + 1;
    var first := [MakeArchive] + ArchiveOps(version, d);
    assert |first| == KEY_STEPS;
    hide ArchiveOps, LinkOps, Cut, Kinds, Highest;
    CutBehind(first, LinkOps(base, Kinds, version), n);
  }

  /** What a crash inside `Write` leaves of the archive: from the first file on the new version is
      the highest, and the archive is that of the finished `Write` exactly when the private key
      was written. */
  lemma CrashedArchive(s: State, base: string, d: Contents, n: nat)
    requires n >= 2
    ensures var version := Highest(s.archive.Keys) + 1;
      var t := Run(s, Cut(WriteOps(s, base, d), n));
      t.archiveExists && Highest(t.archive.Keys) == version &&
      (n >= KEY_STEPS ==> t.archive == Stored(s.archive, version, d)) &&
      (ArchiveName(Privkey, version) in t.archive <==> n >= KEY_STEPS)
  {
    if n >= KEY_STEPS { CrashedAfterKey(s, base, d, n); }
    else { CrashedBeforeKey(s, base, d, n); }
  }

  lemma PrivkeyStored(archive: map<string, string>, version: nat, d: Contents)
    ensures ArchiveName(Privkey, version) in Stored(archive, version, d)
  {
    hide ArchiveName;
  }

  lemma CrashedAfterKey(s: State, base: string, d: Contents, n: nat)
    requires n >= KEY_STEPS
    ensures var version := Highest(s.archive.Keys) + 1;
      var t := Run(s, Cut(WriteOps(s, base, d), n));
      t.archiveExists && Highest(t.archive.Keys) == version && t.archive == Stored(s.archive, version, d) &&
      ArchiveName(Privkey, version) in t.archive
  {
    hide *;
    var version := Highest(s.archive.Keys) + 1;
    PrivkeyStored(s.archive, version, d);
    var first := [MakeArchive] + ArchiveOps(version, d);
    var links := LinkOps(base, Kinds, version);
    CutAfterKey(s, base, d, n);
    RunAppend(s, first, Cut(links, n - KEY_STEPS));
    ArchiveRun(s, version, d);
    LinkingPutsNothing(base, Kinds, version);
    CutPutsNothing(links, n - KEY_STEPS);
    NoPutsNoChange(Run(s, first), Cut(links, n - KEY_STEPS));
    StoredHighest(s.archive, version, d);
  }

  lemma CutPutsNothing(ops: seq<Op>, n: nat)
    requires Puts(ops) == []
    ensures Puts(Cut(ops, n)) == []
  {
    if n <= |ops| { PutsCut(ops, n); }
    hide Puts;
  }

  lemma CrashedBeforeKey(s: State, base: string, d: Contents, n: nat)
    requires 2 <= n < KEY_STEPS
    ensures var version := Highest(s.archive.Keys) + 1;
      var t := Run(s, Cut(WriteOps(s, base, d), n));
      t.archiveExists && Highest(t.archive.Keys) == version && ArchiveName(Privkey, version) !in t.archive
  {
    var version := Highest(s.archive.Keys) + 1;
    EarlyPuts(version, d, n);
    var ops := ([MakeArchive] + ArchiveOps(version, d))[..n];
    hide Run, Puts, WriteOps, ArchiveOps, ArchiveName, VersionNames, Elements, Cut, Apply, KEY_STEPS;
    CutBeforeKey(s, base, d, n);
    RunPuts(s, ops);
    FirstStepMakes(s, ops);
    PutsNoKey(s, version, n);
  }

  lemma EarlyPuts(version: nat, d: Contents, n: nat)
    requires 2 <= n < KEY_STEPS
    ensures |ArchiveOps(version, d)| == 4
    ensures var ops := ([MakeArchive] + ArchiveOps(version, d))[..n];
      Puts(ops) == VersionNames(version)[..n - 1] && ops[0] == MakeArchive
  {
    var ops := ArchiveOps(version, d);
    var early := ops[..n - 1];
    EarlySlices(ops, n);
    assert forall op <- early :: op.PutFile?;
    hide ArchiveOps;
    FourPuts(version, d);
    MakePutsNothing();
    hide Puts, VersionNames;
    PutsAppend([MakeArchive], early);
    PutsCut(ops, n - 1);
    AllPut(early);
  }

  lemma EarlySlices(ops: seq<Op>, n: nat)
    requires |ops| == 4 && 2 <= n <= 4
    ensures ([MakeArchive] + ops)[..n] == [MakeArchive] + ops[..n - 1]
  {
  }

  lemma MakePutsNothing()
    ensures Puts([MakeArchive]) == []
  {
  }

  lemma {:induction false} AllPut(ops: seq<Op>)
    requires forall op <- ops :: op.PutFile?
    ensures |Puts(ops)| == |ops|
    decreases |ops|
  {
    if ops != [] {
      assert ops[0] in ops && forall op <- ops[1..] :: op in ops;
      AllPut(ops[1..]);
    }
  }

  lemma {:induction false} FirstStepMakes(s: State, ops: seq<Op>)
    requires s.archiveExists || (ops != [] && ops[0] == MakeArchive)
    ensures Run(s, ops).archiveExists
    decreases |ops|
  {
    if ops != [] { FirstStepMakes(Apply(s, ops[0]), ops[1..]); }
  }

  lemma PutsNoKey(s: State, version: nat, n: nat)
    requires version == Highest(s.archive.Keys) + 1 && 2 <= n < KEY_STEPS
    ensures var names := s.archive.Keys + Elements(VersionNames(version)[..n - 1]);
      Highest(names) == version && ArchiveName(Privkey, version) !in names
  {
    var names := VersionNames(version);
    var added := Elements(names[..n - 1]);
    VersionOfNames(version);
    VersionNamesNew(s.archive.Keys, version);
    assert names[0] in added && names[3] == ArchiveName(Privkey, version);
    hide VersionNames, ArchiveName, VersionOf;
    assert forall x <- added :: x in names && x != names[3];
    NewHighest(s.archive.Keys, added, version);
    assert names[3] in names;
  }

  /** `Write` stopped after its first archive file, then any number of interrupted repairs, then
      one that finishes: the links are those of the finished `Write` and no `previous_` link is
      left. The archive, too, is that of the finished `Write` (so that no link dangles) exactly
      when the crash came after the private key. */
  lemma CrashThenRepair(s: State, base: string, d: Contents, n: nat, repairs: seq<Event>)
    requires n >= 2 && forall e <- repairs :: e.CallEnsureDeployed?
    ensures var version := Highest(s.archive.Keys) + 1;
      var finished := Run(s, WriteOps(s, base, d));
      var crashed := History(Run(s, Cut(WriteOps(s, base, d), n)), base, repairs);
      var repaired := Run(crashed, DeployOps(crashed, base));
      repaired.live == finished.live && Deployed(repaired, base, version) && repaired.previous == map[] &&
      (repaired.archive == finished.archive <==> n >= KEY_STEPS) &&
      ((forall k: Kind :: ArchiveName(k, version) in repaired.archive) <==> n >= KEY_STEPS)
  {
    var version := Highest(s.archive.Keys) + 1;
    var finished := Run(s, WriteOps(s, base, d));
    var t := Run(s, Cut(WriteOps(s, base, d), n));
    var crashed := History(t, base, repairs);
    var repaired := Run(crashed, DeployOps(crashed, base));
    WriteDeploys(s, base, d);
    CrashedArchive(s, base, d, n);
    RepairsKeepArchive(t, base, repairs);
    RepairDeploys(crashed, base);
    StoredHasAll(s.archive, version, d);
    SameLinks(repaired, finished, base, version);
    hide Run, WriteOps, DeployOps, History, Stored, Deployed, ArchiveName;
  }

  lemma StoredHasAll(archive: map<string, string>, version: nat, d: Contents)
    ensures forall k: Kind :: ArchiveName(k, version) in Stored(archive, version, d)
  {
    hide ArchiveName;
    forall k: Kind ensures ArchiveName(k, version) in Stored(archive, version, d) {
      match k
      case Cert => case Privkey => case Chain => case Fullchain =>
    }
  }

  lemma SameLinks(s: State, t: State, base: string, version: nat)
    requires Deployed(s, base, version) && Deployed(t, base, version)
    ensures s.live == t.live
  {
  }

  // ----- Links at every point -----

  /** No live link dangles. */
  ghost predicate Resolves(s: State, base: string) {
    forall k <- s.live :: exists x <- s.archive :: s.live[k] == base + x
  }

  /** Every link of `s0` is still there, and each link is one of `s0` or points to `version`. */
  predicate LinksFrom(s: State, s0: State, base: string, version: nat) {
    s0.live.Keys <= s.live.Keys &&
    forall k <- s.live :: (k in s0.live && s.live[k] == s0.live[k]) || s.live[k] == Link(base, k, version)
  }

  lemma ReplaceLinkCut(s: State, s0: State, base: string, k: Kind, version: nat, n: nat)
    requires LinksFrom(s, s0, base, version) && n <= 3
    ensures LinksFrom(Run(s, ReplaceLink(k, Link(base, k, version))[..n]), s0, base, version)
  {
    var target := Link(base, k, version);
    var ops := ReplaceLink(k, target);
    if n == 3 {
      assert ops[..3] == ops;
      ReplaceLinkEffect(s, k, target);
    } else if n == 2 {
      assert ops[..2] == [ops[0], ops[1]] && [ops[0], ops[1]][1..] == [ops[1]];
      assert Run(s, ops[..2]) == Run(Apply(s, ops[0]), [ops[1]]) == Apply(Apply(s, ops[0]), ops[1]);
    } else if n == 1 {
      assert ops[..1] == [ops[0]];
      assert Run(s, ops[..1]) == Apply(s, ops[0]);
    }
  }

  /** Splits a cut of two consecutive lists of steps. */
  lemma CutAppend(s: State, a: seq<Op>, b: seq<Op>, n: nat)
    ensures n <= |a| ==> Cut(a + b, n) == a[..n]
    ensures n >= |a| ==> Run(s, Cut(a + b, n)) == Run(Run(s, a), Cut(b, n - |a|))
  {
    if n <= |a| { assert (a + b)[..n] == a[..n]; }
    if n >= |a| {
      assert Cut(a + b, n) == a + Cut(b, n - |a|);
      RunAppend(s, a, Cut(b, n - |a|));
    }
  }

  lemma {:induction false} LinkCut(s: State, s0: State, base: string, kinds: seq<Kind>, version: nat, n: nat)
    requires LinksFrom(s, s0, base, version)
    ensures LinksFrom(Run(s, Cut(LinkOps(base, kinds, version), n)), s0, base, version)
    decreases |kinds|
  {
    if kinds != [] {
      var ops := ReplaceLink(kinds[0], Link(base, kinds[0], version));
      CutAppend(s, ops, LinkOps(base, kinds[1..], version), n);
      if n <= 3 {
        ReplaceLinkCut(s, s0, base, kinds[0], version, n);
      } else {
        ReplaceLinkCut(s, s0, base, kinds[0], version, 3);
        assert ops[..3] == ops;
        LinkCut(Run(s, ops), s0, base, kinds[1..], version, n - 3);
      }
    }
  }

  lemma {:induction false} RunKeepsLinks(s: State, ops: seq<Op>)
    requires forall op <- ops :: op.MakeArchive? || op.PutFile?
    ensures Run(s, ops).live == s.live
    decreases |ops|
  {
    if ops != [] {
      assert ops[0] in ops && forall op <- ops[1..] :: op in ops;
      RunKeepsLinks(Apply(s, ops[0]), ops[1..]);
    }
  }

  lemma ArchiveKeepsLinks(s: State, version: nat, d: Contents, n: nat)
    requires n <= KEY_STEPS
    ensures var first := [MakeArchive] + ArchiveOps(version, d);
      |first| == KEY_STEPS && Run(s, first[..n]).live == s.live && Run(s, first).live == s.live
  {
    var first := [MakeArchive] + ArchiveOps(version, d);
    assert forall op <- first :: op.MakeArchive? || op.PutFile?;
    hide ArchiveOps, Run;
    RunKeepsLinks(s, first[..n]);
    RunKeepsLinks(s, first);
  }

  lemma LinksSame(s: State, t: State, base: string, version: nat)
    requires t.live == s.live
    ensures LinksFrom(t, s, base, version)
  {
  }

  /** `Write` stopped anywhere: every live link is still there, and points where it did or to the
      new version. */
  lemma WriteKeepsLinks(s: State, base: string, d: Contents, n: nat)
    ensures LinksFrom(Run(s, Cut(WriteOps(s, base, d), n)), s, base, Highest(s.archive.Keys) + 1)
    ensures n < KEY_STEPS ==> Run(s, Cut(WriteOps(s, base, d), n)).live == s.live
  {
    hide Run, ArchiveOps, WriteOps, LinkOps, Kinds, Cut, Link, LinksFrom;
    var version := Highest(s.archive.Keys) + 1;
    var first := [MakeArchive] + ArchiveOps(version, d);
    if n < KEY_STEPS {
      CutBeforeKey(s, base, d, n);
      ArchiveKeepsLinks(s, version, d, n);
      LinksSame(s, Run(s, first[..n]), base, version);
    } else {
      CutAfterKey(s, base, d, n);
      ArchiveKeepsLinks(s, version, d, KEY_STEPS);
      LinksSame(s, Run(s, first), base, version);
      RunAppend(s, first, Cut(LinkOps(base, Kinds, version), n - KEY_STEPS));
      LinkCut(Run(s, first), s, base, Kinds, version, n - KEY_STEPS);
    }
  }

  /** At no point of `Write` does a live link dangle, if none did before. */
  lemma WriteNeverDangles(s: State, base: string, d: Contents, n: nat)
    requires Resolves(s, base)
    ensures Resolves(Run(s, Cut(WriteOps(s, base, d), n)), base)
  {
    hide Run, WriteOps, Puts, Stored, Elements, Cut, ArchiveName;
    var version := Highest(s.archive.Keys) + 1;
    var t := Run(s, Cut(WriteOps(s, base, d), n));
    WriteKeepsLinks(s, base, d, n);
    RunPuts(s, Cut(WriteOps(s, base, d), n));
    assert s.archive.Keys <= t.archive.Keys;
    if n >= KEY_STEPS {
      CrashedAfterKey(s, base, d, n);
      StoredHasAll(s.archive, version, d);
    }
    StillResolves(s, t, base, version);
  }

  lemma StillResolves(s: State, t: State, base: string, version: nat)
    requires Resolves(s, base) && LinksFrom(t, s, base, version) && s.archive.Keys <= t.archive.Keys
    requires t.live == s.live || forall k: Kind :: ArchiveName(k, version) in t.archive
    ensures Resolves(t, base)
  {
    hide ArchiveName;
    forall k <- t.live ensures exists x <- t.archive :: t.live[k] == base + x {
      if k in s.live && t.live[k] == s.live[k] {
        var x :| x in s.archive && s.live[k] == base + x;
        assert x in s.archive.Keys;
        assert x in t.archive;
      } else {
        assert ArchiveName(k, version) in t.archive;
      }
    }
  }

  /** Every kind that has a link, live or `previous_`, in `s` has one in `t`. */
  predicate KeepsKinds(s: State, t: State) {
    forall k: Kind :: k in s.live || k in s.previous ==> k in t.live || k in t.previous
  }

  lemma RecoverKindCut(s: State, k: Kind, n: nat)
    requires n <= |RecoverKindOps(s, k)|
    ensures KeepsKinds(s, Run(s, RecoverKindOps(s, k)[..n]))
  {
    var ops := RecoverKindOps(s, k);
    if n == 3 {
      assert ops[..3] == ops;
      RecoverKindEffect(s, k);
    } else if n == 2 {
      assert ops[..2] == [ops[0], ops[1]] && [ops[0], ops[1]][1..] == [ops[1]];
      assert Run(s, ops[..2]) == Run(Apply(s, ops[0]), [ops[1]]) == Apply(Apply(s, ops[0]), ops[1]);
    } else if n == 1 {
      assert ops[..1] == [ops[0]];
      assert Run(s, ops[..1]) == Apply(s, ops[0]);
    }
  }

  lemma {:induction false} RecoverCut(s: State, s0: State, kinds: seq<Kind>, n: nat)
    requires Distinct(kinds) && SamePrevious(s, s0, kinds)
    ensures KeepsKinds(s, Run(s, Cut(RecoverOps(s0, kinds), n)))
    decreases |kinds|
  {
    if kinds != [] {
      var ops := RecoverKindOps(s, kinds[0]);
      assert kinds[0..] == kinds;
      SameRecoverOps(s, s0, kinds);
      CutAppend(s, ops, RecoverOps(s0, kinds[1..]), n);
      if n < |ops| {
        RecoverKindCut(s, kinds[0], n);
      } else {
        RecoverKindCut(s, kinds[0], |ops|);
        assert ops[..|ops|] == ops;
        RecoverKindFrame(s, kinds[0], s0, kinds, 0);
        RecoverCut(Run(s, ops), s0, kinds[1..], n - |ops|);
      }
    }
  }

  lemma {:induction false} RelinkCut(s: State, s0: State, s1: State, base: string, kinds: seq<Kind>, version: nat, n: nat)
    requires LinksFrom(s, s0, base, version)
    ensures LinksFrom(Run(s, Cut(RelinkOps(s1, base, kinds, version), n)), s0, base, version)
    decreases |kinds|
  {
    if kinds != [] {
      var ops := RelinkKindOps(s1, kinds[0], Link(base, kinds[0], version));
      assert ops == [] || (ops == ReplaceLink(kinds[0], Link(base, kinds[0], version)) && |ops| == 3);
      assert RelinkOps(s1, base, kinds, version) == ops + RelinkOps(s1, base, kinds[1..], version);
      RunNothing(s);
      hide Run, Cut, RelinkOps, RelinkKindOps, LinksFrom, Link, ReplaceLink;
      CutAppend(s, ops, RelinkOps(s1, base, kinds[1..], version), n);
      if ops == [] {
        RelinkCut(s, s0, s1, base, kinds[1..], version, n);
      } else if n <= 3 {
        ReplaceLinkCut(s, s0, base, kinds[0], version, n);
      } else {
        ReplaceLinkCut(s, s0, base, kinds[0], version, 3);
        assert ops[..3] == ops;
        RelinkCut(Run(s, ops), s0, s1, base, kinds[1..], version, n - 3);
      }
    }
  }

  lemma RunNothing(s: State)
    ensures Run(s, []) == s
  {
  }

  lemma {:induction false} RelinkKeepsPrevious(s: State, ops: seq<Op>)
    requires forall op <- ops :: op.DropTemp? || op.LinkTemp? || op.RenameTemp?
    ensures Run(s, ops).previous == s.previous
    decreases |ops|
  {
    if ops != [] {
      assert ops[0] in ops && forall op <- ops[1..] :: op in ops;
      RelinkKeepsPrevious(Apply(s, ops[0]), ops[1..]);
    }
  }

  lemma {:induction false} RelinkSteps(s: State, base: string, kinds: seq<Kind>, version: nat)
    ensures forall op <- RelinkOps(s, base, kinds, version) :: op.DropTemp? || op.LinkTemp? || op.RenameTemp?
    decreases |kinds|
  {
    if kinds != [] { RelinkSteps(s, base, kinds[1..], version); }
  }

  /** `EnsureDeployed` stopped anywhere never loses the last link of a kind. */
  lemma RepairKeepsKinds(s: State, base: string, n: nat)
    ensures KeepsKinds(s, Run(s, Cut(DeployOps(s, base), n)))
  {
    if s.archiveExists {
      var highest := Highest(s.archive.Keys);
      var recover := RecoverOps(s, Kinds);
      var s1 := Run(s, recover);
      assert recover[..|recover|] == recover && Cut(recover, |recover|) == recover;
      assert Distinct(Kinds) && SamePrevious(s, s, Kinds);
      hide Run, Cut, RecoverOps, RelinkOps, KeepsKinds, Highest, Kinds, SamePrevious, Distinct;
      RecoverCut(s, s, Kinds, n);
      RecoverCut(s, s, Kinds, |recover|);
      if highest > 0 {
        CutAppend(s, recover, RelinkOps(s1, base, Kinds, highest), n);
        CutOf(recover, n);
        if n > |recover| { RelinkKeeps(s, s1, base, highest, n - |recover|); }
      }
    }
  }

  lemma CutOf(ops: seq<Op>, n: nat)
    ensures n <= |ops| ==> Cut(ops, n) == ops[..n]
  {
  }

  lemma RelinkKeeps(s: State, s1: State, base: string, version: nat, n: nat)
    requires KeepsKinds(s, s1)
    ensures KeepsKinds(s, Run(s1, Cut(RelinkOps(s1, base, Kinds, version), n)))
  {
    var relink := RelinkOps(s1, base, Kinds, version);
    assert LinksFrom(s1, s1, base, version);
    RelinkCut(s1, s1, s1, base, Kinds, version, n);
    RelinkSteps(s1, base, Kinds, version);
    assert forall op <- Cut(relink, n) :: op in relink;
    RelinkKeepsPrevious(s1, Cut(relink, n));
    hide Run, Cut, RelinkOps, Kinds, Link;
  }
}
