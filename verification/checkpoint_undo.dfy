/** Crash-safe undo: what recovery restores, over every run of the checkpoint operations, each of
    them stopped at any step.
 */
module CheckpointUndo {
  import opened Common
  import opened Checkpoint

  // ----- What a directory undoes -----

  function Copied(d: Dir, i: nat, files: map<string, string>): map<string, string>
    decreases |d.filePaths| - i
  {
    if i >= |d.filePaths| then files
    else
      var p := d.filePaths[i];
      Copied(d, i + 1, if BackupName(p, i) in d.backups then files[p := d.backups[BackupName(p, i)]] else files)
  }

  /** The files after every copy of `d` and then every deletion. */
  function Undo(d: Dir, files: map<string, string>): map<string, string> {
    Copied(d, 0, files) - Elements(d.newFiles)
  }

  function Recorded(d: Dir): set<string> {
    Elements(d.filePaths) + Elements(d.newFiles)
  }

  /** A path that one `Save` named twice was backed up twice with the same contents. */
  predicate Uniform(d: Dir)
    requires Complete(d)
  {
    forall i, j :: 0 <= i < j < |d.filePaths| && d.filePaths[i] == d.filePaths[j] ==>
      d.backups[BackupName(d.filePaths[i], i)] == d.backups[BackupName(d.filePaths[j], j)]
  }

  /** What every directory that `Save` leaves satisfies, also when it is stopped. */
  predicate Sound(d: Dir) {
    Complete(d) && Uniform(d) && (d.newFiles != [] ==> d.filePaths != [])
  }

  predicate Listed(d: Dir, i: nat, p: string) {
    exists j :: i <= j < |d.filePaths| && d.filePaths[j] == p
  }

  lemma {:induction false} CopiedGet(d: Dir, i: nat, f: map<string, string>, g: map<string, string>, p: string)
    requires Complete(d)
    ensures !Listed(d, i, p) ==> Get(Copied(d, i, f), p) == Get(f, p)
    ensures Listed(d, i, p) ==> Get(Copied(d, i, f), p) == Get(Copied(d, i, g), p)
    decreases |d.filePaths| - i
  {
    if i < |d.filePaths| {
      var q := d.filePaths[i];
      var data := d.backups[BackupName(q, i)];
      CopiedGet(d, i + 1, f[q := data], g[q := data], p);
      CopiedGet(d, i + 1, g[q := data], f[q := data], p);
      if Listed(d, i, p) && !Listed(d, i + 1, p) { assert q == p; }
    }
  }

  lemma ListedIs(d: Dir, p: string)
    ensures Listed(d, 0, p) <==> p in d.filePaths
  {
  }

  /** Undoing decides the recorded files whatever they are now, and leaves all the others. */
  lemma UndoGet(d: Dir, f: map<string, string>, g: map<string, string>, p: string)
    requires Complete(d)
    ensures p in Recorded(d) ==> Get(Undo(d, f), p) == Get(Undo(d, g), p)
    ensures p !in Recorded(d) ==> Get(Undo(d, f), p) == Get(f, p)
  {
    CopiedGet(d, 0, f, g, p);
    ListedIs(d, p);
    hide Copied, Complete;
  }

  lemma MapsEqual(f: map<string, string>, g: map<string, string>)
    requires forall p: string :: Get(f, p) == Get(g, p)
    ensures f == g
  {
    assert forall p: string :: (p in f <==> p in g) && (p in f ==> f[p] == g[p]) by {
      forall p: string ensures (p in f <==> p in g) && (p in f ==> f[p] == g[p]) { assert Get(f, p) == Get(g, p); }
    }
  }

  /** Files that differ only in recorded paths are the same once undone. */
  lemma UndoSame(d: Dir, f: map<string, string>, g: map<string, string>)
    requires Complete(d) && forall p: string :: p !in Recorded(d) ==> Get(f, p) == Get(g, p)
    ensures Undo(d, f) == Undo(d, g)
  {
    forall p: string ensures Get(Undo(d, f), p) == Get(Undo(d, g), p) {
      UndoGet(d, f, g, p);
      UndoGet(d, g, f, p);
    }
    MapsEqual(Undo(d, f), Undo(d, g));
  }

  // ----- Save, stopped anywhere -----

  function Cut(ops: seq<Op>, steps: nat): seq<Op> {
    if steps <= |ops| then ops[..steps] else ops
  }

  lemma CutAppend(s: State, a: seq<Op>, b: seq<Op>, n: nat)
    ensures n <= |a| ==> Cut(a + b, n) == Cut(a, n)
    ensures n >= |a| ==> Run(s, Cut(a + b, n)) == Run(Run(s, a), Cut(b, n - |a|))
  {
    if n <= |a| { assert (a + b)[..n] == a[..n]; }
    if n >= |a| {
      assert Cut(a + b, n) == a + Cut(b, n - |a|);
      RunAppend(s, a, Cut(b, n - |a|));
    }
  }

  /** `n` extra backups whose indexes are `from` or higher. */
  predicate Extends(d0: Dir, d: Dir) {
    d.filePaths == d0.filePaths && d.newFiles == d0.newFiles &&
    forall i :: 0 <= i < |d0.filePaths| && BackupName(d0.filePaths[i], i) in d0.backups ==>
      BackupName(d0.filePaths[i], i) in d.backups &&
      d.backups[BackupName(d0.filePaths[i], i)] == d0.backups[BackupName(d0.filePaths[i], i)]
  }

  lemma ExtendsByOne(d0: Dir, d: Dir, p: string, idx: nat, data: string)
    requires Extends(d0, d) && idx >= |d0.filePaths|
    ensures Extends(d0, d.(backups := d.backups[BackupName(p, idx) := data]))
  {
    forall i | 0 <= i < |d0.filePaths| && BackupName(d0.filePaths[i], i) == BackupName(p, idx) ensures false {
      BackupIndex(d0.filePaths[i], i, p, idx);
    }
    hide BackupName;
  }

  /** Each found path has its backup, from index `idx` on. */
  predicate BackedUp(backups: map<string, string>, files: map<string, string>, found: seq<string>, idx: nat) {
    forall k :: 0 <= k < |found| ==>
      BackupName(found[k], idx + k) in backups && found[k] in files && backups[BackupName(found[k], idx + k)] == files[found[k]]
  }

  /** The backups of `Save`, all of them or some: nothing else changes, and no listed backup is touched. */
  lemma {:induction false} PutsCut(s: State, d0: Dir, files: map<string, string>, existing: seq<string>, paths: seq<string>,
      idx: nat, n: nat)
    requires s.progress.Some? && Extends(d0, s.progress.value) && idx >= |d0.filePaths|
    ensures var t := Run(s, Cut(PlanFor(files, existing, paths, idx).puts, n));
      t.progress.Some? && t == s.(progress := t.progress) && Extends(d0, t.progress.value)
    decreases |paths|
  {
    if paths != [] {
      var p := paths[0];
      if p in existing || p !in files {
        PutsCut(s, d0, files, existing, paths[1..], idx, n);
      } else if n > 0 {
        var put := PutBackup(BackupName(p, idx), files[p]);
        var rest := PlanFor(files, existing, paths[1..], idx + 1).puts;
        assert Cut([put] + rest, n) == [put] + Cut(rest, n - 1);
        RunThen(s, put, Cut(rest, n - 1));
        ExtendsByOne(d0, s.progress.value, p, idx, files[p]);
        hide Extends, BackupName;
        PutsCut(Apply(s, put), d0, files, existing, paths[1..], idx + 1, n - 1);
      }
    }
  }

  lemma {:induction false} PutsKeep(s: State, files: map<string, string>, existing: seq<string>, paths: seq<string>,
      idx: nat, p: string, j: nat)
    requires s.progress.Some? && j < idx && BackupName(p, j) in s.progress.value.backups
    ensures var t := Run(s, PlanFor(files, existing, paths, idx).puts);
      t.progress.Some? && BackupName(p, j) in t.progress.value.backups &&
      t.progress.value.backups[BackupName(p, j)] == s.progress.value.backups[BackupName(p, j)]
    decreases |paths|
  {
    if paths != [] {
      var q := paths[0];
      if q in existing || q !in files {
        PutsKeep(s, files, existing, paths[1..], idx, p, j);
      } else {
        var put := PutBackup(BackupName(q, idx), files[q]);
        RunThen(s, put, PlanFor(files, existing, paths[1..], idx + 1).puts);
        if BackupName(q, idx) == BackupName(p, j) { BackupIndex(q, idx, p, j); }
        hide BackupName;
        PutsKeep(Apply(s, put), files, existing, paths[1..], idx + 1, p, j);
      }
    }
  }

  lemma {:induction false} PutsBackUp(s: State, files: map<string, string>, existing: seq<string>, paths: seq<string>, idx: nat)
    requires s.progress.Some?
    ensures var plan := PlanFor(files, existing, paths, idx);
      var t := Run(s, plan.puts);
      t.progress.Some? && BackedUp(t.progress.value.backups, files, plan.found, idx)
    decreases |paths|
  {
    if paths == [] {
      RunNone(s);
    } else {
      var p := paths[0];
      if p in existing || p !in files {
        PutsBackUp(s, files, existing, paths[1..], idx);
      } else {
        var put := PutBackup(BackupName(p, idx), files[p]);
        var rest := PlanFor(files, existing, paths[1..], idx + 1);
        RunThen(s, put, rest.puts);
        PutsBackUp(Apply(s, put), files, existing, paths[1..], idx + 1);
        PutsKeep(Apply(s, put), files, existing, paths[1..], idx + 1, p, idx);
        hide BackupName, Run;
        BackedUpPush(Run(Apply(s, put), rest.puts).progress.value.backups, files, p, rest.found, idx);
      }
    }
  }

  lemma BackedUpPush(backups: map<string, string>, files: map<string, string>, p: string, found: seq<string>, idx: nat)
    requires BackedUp(backups, files, found, idx + 1)
    requires BackupName(p, idx) in backups && p in files && backups[BackupName(p, idx)] == files[p]
    ensures BackedUp(backups, files, [p] + found, idx)
  {
    hide BackupName;
    forall k | 0 <= k < |[p] + found|
      ensures BackupName(([p] + found)[k], idx + k) in backups && ([p] + found)[k] in files &&
        backups[BackupName(([p] + found)[k], idx + k)] == files[([p] + found)[k]]
    {
      if k > 0 { assert ([p] + found)[k] == found[k - 1] && idx + k == idx + 1 + (k - 1); }
    }
  }

  lemma {:induction false} PathOpsRun(s: State, paths: seq<string>, n: nat)
    requires s.progress.Some? && n <= |paths|
    ensures |PathOps(paths)| == |paths|
    ensures Run(s, PathOps(paths)[..n]) ==
      s.(progress := Some(s.progress.value.(filePaths := s.progress.value.filePaths + paths[..n])))
    decreases n
  {
    PathOpsLength(paths);
    if n > 0 {
      var rest := PathOps(paths[1..]);
      PathOpsLength(paths[1..]);
      assert PathOps(paths)[..n] == [AddPath(paths[0])] + rest[..n - 1];
      RunThen(s, AddPath(paths[0]), rest[..n - 1]);
      PathOpsRun(Apply(s, AddPath(paths[0])), paths[1..], n - 1);
      assert s.progress.value.filePaths + [paths[0]] + paths[1..][..n - 1] == s.progress.value.filePaths + paths[..n];
    } else {
      assert s.progress.value.filePaths + paths[..0] == s.progress.value.filePaths;
    }
  }

  lemma {:induction false} PathOpsLength(paths: seq<string>)
    ensures |PathOps(paths)| == |paths|
    decreases |paths|
  {
    if paths != [] { PathOpsLength(paths[1..]); }
  }

  lemma {:induction false} NewOpsRun(s: State, paths: seq<string>, n: nat)
    requires s.progress.Some? && n <= |paths|
    ensures |NewOps(paths)| == |paths|
    ensures Run(s, NewOps(paths)[..n]) ==
      s.(progress := Some(s.progress.value.(newFiles := s.progress.value.newFiles + paths[..n])))
    decreases n
  {
    NewOpsLength(paths);
    if n > 0 {
      var rest := NewOps(paths[1..]);
      NewOpsLength(paths[1..]);
      assert NewOps(paths)[..n] == [AddNew(paths[0])] + rest[..n - 1];
      RunThen(s, AddNew(paths[0]), rest[..n - 1]);
      NewOpsRun(Apply(s, AddNew(paths[0])), paths[1..], n - 1);
      assert s.progress.value.newFiles + [paths[0]] + paths[1..][..n - 1] == s.progress.value.newFiles + paths[..n];
    } else {
      assert s.progress.value.newFiles + paths[..0] == s.progress.value.newFiles;
    }
  }

  lemma {:induction false} NewOpsLength(paths: seq<string>)
    ensures |NewOps(paths)| == |paths|
    decreases |paths|
  {
    if paths != [] { NewOpsLength(paths[1..]); }
  }

  /** The directory of `Save` once it listed some of the paths it found and some it did not find. */
  function Grown(d0: Dir, backups: map<string, string>, found: seq<string>, absent: seq<string>): Dir {
    Dir(d0.filePaths + found, d0.newFiles + absent, backups)
  }

  lemma {:induction false} CopiedSplit(d0: Dir, d: Dir, i: nat, f: map<string, string>)
    requires Complete(d0) && i <= |d0.filePaths| && d0.filePaths <= d.filePaths
    requires Extends(d0, d0.(backups := d.backups))
    ensures Copied(d, i, f) == Copied(d, |d0.filePaths|, Copied(d0, i, f))
    decreases |d0.filePaths| - i
  {
    if i < |d0.filePaths| {
      var p := d0.filePaths[i];
      assert d.filePaths[i] == p && BackupName(p, i) in d0.backups;
      CopiedSplit(d0, d, i + 1, f[p := d0.backups[BackupName(p, i)]]);
    }
  }

  /** Copies that write what is there already. */
  lemma {:induction false} CopiedIdle(d: Dir, i: nat, f: map<string, string>)
    requires forall j :: i <= j < |d.filePaths| ==>
      BackupName(d.filePaths[j], j) in d.backups && Get(f, d.filePaths[j]) == Some(d.backups[BackupName(d.filePaths[j], j)])
    ensures Copied(d, i, f) == f
    decreases |d.filePaths| - i
  {
    if i < |d.filePaths| {
      assert f[d.filePaths[i] := d.backups[BackupName(d.filePaths[i], i)]] == f;
      CopiedIdle(d, i + 1, f);
    }
  }

  /** The new paths do not belong to the old list, and are present or absent as they were found. */
  predicate Planned(d0: Dir, files: map<string, string>, found: seq<string>, absent: seq<string>) {
    (forall p <- found :: p in files && p !in d0.filePaths) && (forall p <- absent :: p !in files && p !in d0.filePaths)
  }

  lemma GrownCopies(d0: Dir, files: map<string, string>, backups: map<string, string>, found: seq<string>, absent: seq<string>)
    requires Complete(d0) && Extends(d0, d0.(backups := backups)) && BackedUp(backups, files, found, |d0.filePaths|)
    requires Planned(d0, files, found, absent)
    ensures var d := Grown(d0, backups, found, absent); Complete(d) && Copied(d, 0, files) == Copied(d0, 0, files)
  {
    var d := Grown(d0, backups, found, absent);
    var n := |d0.filePaths|;
    var g := Copied(d0, 0, files);
    hide BackupName;
    CopiedSplit(d0, d, 0, files);
    forall j | n <= j < |d.filePaths|
      ensures BackupName(d.filePaths[j], j) in d.backups && Get(g, d.filePaths[j]) == Some(d.backups[BackupName(d.filePaths[j], j)])
    {
      assert d.filePaths[j] == found[j - n] && j == n + (j - n);
      CopiedGet(d0, 0, files, files, found[j - n]);
      ListedIs(d0, found[j - n]);
    }
    CopiedIdle(d, n, g);
    forall j | 0 <= j < n ensures BackupName(d.filePaths[j], j) in d.backups { assert d.filePaths[j] == d0.filePaths[j]; }
  }

  lemma GrownUniform(d0: Dir, files: map<string, string>, backups: map<string, string>, found: seq<string>, absent: seq<string>)
    requires Sound(d0) && Extends(d0, d0.(backups := backups)) && BackedUp(backups, files, found, |d0.filePaths|)
    requires Planned(d0, files, found, absent) && Complete(Grown(d0, backups, found, absent))
    ensures Uniform(Grown(d0, backups, found, absent))
  {
    var d := Grown(d0, backups, found, absent);
    var n := |d0.filePaths|;
    hide BackupName;
    forall i, j | 0 <= i < j < |d.filePaths| && d.filePaths[i] == d.filePaths[j]
      ensures d.backups[BackupName(d.filePaths[i], i)] == d.backups[BackupName(d.filePaths[j], j)]
    {
      if j < n {
        assert d.filePaths[i] == d0.filePaths[i] && d.filePaths[j] == d0.filePaths[j];
      } else {
        assert d.filePaths[j] == found[j - n] && j == n + (j - n);
        assert found[j - n] in found;
        assert i >= n && d.filePaths[i] == found[i - n] && i == n + (i - n);
      }
    }
  }

  lemma GrownUndo(d0: Dir, files: map<string, string>, backups: map<string, string>, found: seq<string>, absent: seq<string>)
    requires Sound(d0) && Extends(d0, d0.(backups := backups)) && BackedUp(backups, files, found, |d0.filePaths|)
    requires Planned(d0, files, found, absent) && (absent != [] ==> d0.filePaths + found != [])
    ensures var d := Grown(d0, backups, found, absent);
      Sound(d) && Undo(d, files) == Undo(d0, files) && Recorded(d) == Recorded(d0) + Elements(found) + Elements(absent)
  {
    var d := Grown(d0, backups, found, absent);
    GrownCopies(d0, files, backups, found, absent);
    GrownUniform(d0, files, backups, found, absent);
    var g := Copied(d0, 0, files);
    forall p <- absent ensures p !in g {
      CopiedGet(d0, 0, files, files, p);
      ListedIs(d0, p);
    }
    hide Copied, Complete, Uniform, Extends, BackedUp;
    assert Elements(d.newFiles) == Elements(d0.newFiles) + Elements(absent);
    assert g - Elements(d.newFiles) == g - Elements(d0.newFiles);
  }

  /** `t` holds what `Save` wrote so far from `s`: recovery would give the same as before. */
  predicate SameUndo(s: State, t: State) {
    t.files == s.files && t.stack == s.stack && Recorded(Opened(s)) <= Recorded(Opened(t)) &&
    Sound(Opened(t)) && Undo(Opened(t), t.files) == Undo(Opened(s), s.files)
  }

  lemma {:induction false} PlanIsPlanned(s: State, existing: seq<string>, paths: seq<string>, idx: nat)
    ensures var plan := PlanFor(s.files, existing, paths, idx);
      (forall p <- plan.found :: p in s.files && p !in existing) && (forall p <- plan.absent :: p !in s.files && p !in existing)
    ensures var plan := PlanFor(s.files, existing, paths, idx);
      forall p <- paths :: p in existing || p in plan.found || p in plan.absent
    ensures var plan := PlanFor(s.files, existing, paths, idx);
      forall p :: p in plan.found ==> p in paths
    decreases |paths|
  {
    if paths != [] {
      PlanIsPlanned(s, existing, paths[1..], idx);
      PlanIsPlanned(s, existing, paths[1..], idx + 1);
      assert paths == [paths[0]] + paths[1..];
    }
  }

  lemma EmptySound()
    ensures Sound(EmptyDir) && Recorded(EmptyDir) == {} && forall f :: Undo(EmptyDir, f) == f
  {
    forall f ensures Undo(EmptyDir, f) == f { assert Copied(EmptyDir, 0, f) == f; }
  }

  /** `Save` stopped while it writes backups. */
  lemma SaveCutEarly(s: State, paths: seq<string>, n: nat)
    requires Sound(Opened(s)) && n <= 1 + |SavePlan(s, paths).puts|
    ensures SameUndo(s, Run(s, Cut(SaveOps(s, paths), n)))
  {
    var d0 := Opened(s);
    var plan := SavePlan(s, paths);
    var first := [MakeDir] + plan.puts;
    CutAppend(s, first, SaveOps(s, paths)[|first|..], n);
    assert SaveOps(s, paths) == first + SaveOps(s, paths)[|first|..];
    hide Run, PlanFor, SavePlan, SaveOps, BackupName, Complete, Uniform;
    if n == 0 {
      RunNone(s);
    } else {
      var s1 := Apply(s, MakeDir);
      assert Cut(first, n) == [MakeDir] + Cut(plan.puts, n - 1);
      hide Cut;
      RunThen(s, MakeDir, Cut(plan.puts, n - 1));
      PutsCut(s1, d0, s.files, d0.filePaths, paths, |d0.filePaths|, n - 1);
      var t := Run(s, Cut(SaveOps(s, paths), n));
      assert Extends(d0, d0.(backups := t.progress.value.backups));
      GrownUndo(d0, s.files, t.progress.value.backups, [], []);
      assert Grown(d0, t.progress.value.backups, [], []) == t.progress.value;
    }
  }

  /** The state once all backups are written. */
  lemma SaveBackedUp(s: State, paths: seq<string>)
    requires Sound(Opened(s))
    ensures var d0 := Opened(s); var plan := SavePlan(s, paths);
      var t := Run(s, [MakeDir] + plan.puts);
      t.progress.Some? && t == s.(progress := t.progress) && Extends(d0, t.progress.value) &&
      BackedUp(t.progress.value.backups, s.files, plan.found, |d0.filePaths|)
  {
    var d0 := Opened(s);
    var plan := SavePlan(s, paths);
    var s1 := Apply(s, MakeDir);
    RunThen(s, MakeDir, plan.puts);
    PutsCut(s1, d0, s.files, d0.filePaths, paths, |d0.filePaths|, |plan.puts|);
    assert Cut(plan.puts, |plan.puts|) == plan.puts;
    PutsBackUp(s1, s.files, d0.filePaths, paths, |d0.filePaths|);
  }

  /** `t` is `s` with every backup of this `Save` written. */
  predicate Ready(s: State, paths: seq<string>, t: State) {
    t.progress.Some? && t == s.(progress := t.progress) && Extends(Opened(s), t.progress.value) &&
    BackedUp(t.progress.value.backups, s.files, SavePlan(s, paths).found, |Opened(s).filePaths|)
  }

  /** The state after `a` lines were appended to FILEPATHS and `b` to NEW_FILES. */
  function Appended(s: State, paths: seq<string>, t: State, a: nat, b: nat): State
    requires t.progress.Some? && a <= |SavePlan(s, paths).found| && b <= |SavePlan(s, paths).absent|
  {
    var plan := SavePlan(s, paths);
    t.(progress := Some(Grown(Opened(s), t.progress.value.backups, plan.found[..a], plan.absent[..b])))
  }

  lemma AppendedUndo(s: State, paths: seq<string>, t: State, a: nat, b: nat)
    requires Sound(Opened(s)) && Ready(s, paths, t)
    requires a <= |SavePlan(s, paths).found| && b <= |SavePlan(s, paths).absent|
    requires b > 0 ==> a == |SavePlan(s, paths).found| && !NothingSaved(s, paths)
    ensures SameUndo(s, Appended(s, paths, t, a, b)) && SameUndo(s, Appended(s, paths, t, a, b).(inFlight := true))
  {
    var d0, plan := Opened(s), SavePlan(s, paths);
    var backups := t.progress.value.backups;
    PlanIsPlanned(s, d0.filePaths, paths, |d0.filePaths|);
    hide BackupName, PlanFor, Complete, Undo, Recorded;
    assert Extends(d0, d0.(backups := backups));
    assert BackedUp(backups, s.files, plan.found[..a], |d0.filePaths|);
    assert Planned(d0, s.files, plan.found[..a], plan.absent[..b]);
    assert b > 0 ==> plan.found[..a] == plan.found;
    GrownUndo(d0, s.files, backups, plan.found[..a], plan.absent[..b]);
  }

  lemma AppendPaths(s: State, paths: seq<string>, t: State, a: nat)
    requires Ready(s, paths, t) && a <= |SavePlan(s, paths).found|
    ensures |PathOps(SavePlan(s, paths).found)| == |SavePlan(s, paths).found|
    ensures Run(t, PathOps(SavePlan(s, paths).found)[..a]) == Appended(s, paths, t, a, 0)
  {
    var plan := SavePlan(s, paths);
    assert Extends(Opened(s), t.progress.value);
    hide PlanFor, BackedUp, Run;
    PathOpsRun(t, plan.found, a);
    assert Opened(s).newFiles + plan.absent[..0] == Opened(s).newFiles;
  }

  lemma AppendNews(s: State, paths: seq<string>, t: State, b: nat)
    requires Ready(s, paths, t) && b <= |SavePlan(s, paths).absent|
    ensures |NewOps(SavePlan(s, paths).absent)| == |SavePlan(s, paths).absent|
    ensures var n := |SavePlan(s, paths).found|;
      Run(Appended(s, paths, t, n, 0), NewOps(SavePlan(s, paths).absent)[..b]) == Appended(s, paths, t, n, b)
  {
    var plan := SavePlan(s, paths);
    hide PlanFor, BackedUp, Run, Extends;
    NewOpsRun(Appended(s, paths, t, |plan.found|, 0), plan.absent, b);
    assert Opened(s).newFiles + plan.absent[..0] + plan.absent[..b] == Opened(s).newFiles + plan.absent[..b];
  }

  function TailOps(s: State, paths: seq<string>): seq<Op> {
    PathOps(SavePlan(s, paths).found) + NewOps(SavePlan(s, paths).absent) + [Mark]
  }

  lemma CutIs(ops: seq<Op>, n: nat)
    ensures n <= |ops| ==> Cut(ops, n) == ops[..n]
    ensures n >= |ops| ==> Cut(ops, n) == ops
    ensures ops[..|ops|] == ops
  {
  }

  lemma TailNews(s: State, paths: seq<string>, t: State, k: nat)
    requires Sound(Opened(s)) && Ready(s, paths, t) && !NothingSaved(s, paths)
    ensures SameUndo(s, Run(Appended(s, paths, t, |SavePlan(s, paths).found|, 0),
      Cut(NewOps(SavePlan(s, paths).absent) + [Mark], k)))
  {
    var found, absent := SavePlan(s, paths).found, SavePlan(s, paths).absent;
    var u := Appended(s, paths, t, |found|, 0);
    var news := NewOps(absent);
    hide Run, PlanFor, SavePlan, Cut, SameUndo, Ready, Appended, Sound, NothingSaved, NewOps;
    NewOpsLength(absent);
    CutAppend(u, news, [Mark], k);
    CutIs(news, k);
    if k <= |absent| {
      AppendNews(s, paths, t, k);
      AppendedUndo(s, paths, t, |found|, k);
    } else {
      AppendNews(s, paths, t, |absent|);
      CutIs([Mark], k - |absent|);
      RunOne(Run(u, news), Mark);
      AppendedUndo(s, paths, t, |found|, |absent|);
    }
  }

  lemma TailCut(s: State, paths: seq<string>, t: State, m: nat)
    requires Sound(Opened(s)) && Ready(s, paths, t) && !NothingSaved(s, paths)
    ensures SameUndo(s, Run(t, Cut(TailOps(s, paths), m)))
  {
    var found, absent := SavePlan(s, paths).found, SavePlan(s, paths).absent;
    hide Run, PlanFor, Cut, SameUndo, Ready, Appended, Sound, NothingSaved, NewOps, PathOps;
    Assoc(PathOps(found), NewOps(absent), [Mark]);
    CutAppend(t, PathOps(found), NewOps(absent) + [Mark], m);
    CutIs(PathOps(found), m);
    if m <= |PathOps(found)| {
      PathOpsLength(found);
      AppendPaths(s, paths, t, m);
      AppendedUndo(s, paths, t, m, 0);
    } else {
      AppendPaths(s, paths, t, |found|);
      TailNews(s, paths, t, m - |PathOps(found)|);
    }
  }

  /** `Save` stopped while it appends lines, or finished. */
  lemma SaveCutLate(s: State, paths: seq<string>, n: nat)
    requires Sound(Opened(s)) && !NothingSaved(s, paths) && n > 1 + |SavePlan(s, paths).puts|
    ensures SameUndo(s, Run(s, Cut(SaveOps(s, paths), n)))
  {
    var first := [MakeDir] + SavePlan(s, paths).puts;
    SaveBackedUp(s, paths);
    assert SaveOps(s, paths) == first + TailOps(s, paths) && Ready(s, paths, Run(s, first)) && |first| < n;
    hide *;
    CutAppend(s, first, TailOps(s, paths), n);
    TailCut(s, paths, Run(s, first), n - |first|);
  }

  /** `Save` stopped when it found nothing to save: the directory holds no line, or is gone. */
  lemma SaveCutNothing(s: State, paths: seq<string>, n: nat)
    requires Sound(Opened(s)) && NothingSaved(s, paths) && n > 1 + |SavePlan(s, paths).puts|
    ensures SameUndo(s, Run(s, Cut(SaveOps(s, paths), n))) && Recorded(Opened(s)) == {}
  {
    var plan := SavePlan(s, paths);
    var first := [MakeDir] + plan.puts;
    SaveBackedUp(s, paths);
    EmptyUndo(Opened(s), s.files);
    EmptySound();
    hide Run, PlanFor, Cut, Extends, BackedUp, Undo, Recorded, Sound;
    CutAppend(s, first, [DropProgress], n);
    CutIs([DropProgress], n - |first|);
    RunOne(Run(s, first), DropProgress);
  }

  lemma EmptyUndo(d: Dir, files: map<string, string>)
    requires Sound(d) && d.filePaths == []
    ensures Undo(d, files) == files && Recorded(d) == {}
  {
  }

  /** Wherever `Save` is stopped, recovery would restore what it would have restored before. */
  lemma SaveKeepsUndo(s: State, paths: seq<string>, n: nat)
    requires Sound(Opened(s))
    ensures SameUndo(s, Run(s, Cut(SaveOps(s, paths), n)))
  {
    hide Run, Cut, SameUndo;
    if n <= 1 + |SavePlan(s, paths).puts| { SaveCutEarly(s, paths, n); }
    else if NothingSaved(s, paths) { SaveCutNothing(s, paths, n); }
    else { SaveCutLate(s, paths, n); }
  }

  lemma NothingIff(s: State, paths: seq<string>)
    ensures NothingSaved(s, paths) <==> !(exists p <- paths :: p in s.files) && Opened(s).filePaths == []
  {
    var existing := Opened(s).filePaths;
    var found := SavePlan(s, paths).found;
    PlanIsPlanned(s, existing, paths, |existing|);
    hide PlanFor;
    if found != [] { assert found[0] in found; }
  }

  /** A finished `Save` records every path it names, or else, when none of them exists and no
      earlier call listed a file, nothing at all. */
  lemma SaveRecords(s: State, paths: seq<string>)
    requires Sound(Opened(s))
    ensures var t := Run(s, SaveOps(s, paths));
      if (exists p <- paths :: p in s.files) || Opened(s).filePaths != []
      then t.progress.Some? && t.inFlight && forall p <- paths :: p in Recorded(t.progress.value)
      else t.progress == None
  {
    var plan := SavePlan(s, paths);
    var first := [MakeDir] + plan.puts;
    var t := Run(s, first);
    NothingIff(s, paths);
    SaveBackedUp(s, paths);
    hide Run, PlanFor, SavePlan, BackedUp, Sound, NothingSaved, Extends;
    if NothingSaved(s, paths) {
      RunAppend(s, first, [DropProgress]);
      RunOne(t, DropProgress);
    } else {
      RunAppend(s, first, TailOps(s, paths));
      TailRecords(s, paths, t);
    }
  }

  lemma TailRecords(s: State, paths: seq<string>, t: State)
    requires Ready(s, paths, t)
    ensures var u := Run(t, TailOps(s, paths));
      u.progress.Some? && u.inFlight && forall p <- paths :: p in Recorded(u.progress.value)
  {
    var found, absent := SavePlan(s, paths).found, SavePlan(s, paths).absent;
    PlanIsPlanned(s, Opened(s).filePaths, paths, |Opened(s).filePaths|);
    hide Run, PlanFor, Ready, PathOps, NewOps;
    SaveTail(t, found, absent);
    AppendPaths(s, paths, t, |found|);
    AppendNews(s, paths, t, |absent|);
    CutIs(PathOps(found), 0);
    CutIs(NewOps(absent), 0);
    assert found[..|found|] == found && absent[..|absent|] == absent;
  }

  // ----- Recovery, stopped anywhere -----

  /** Steps that only write or delete files recorded in `d`. */
  predicate WithinRecorded(d: Dir, ops: seq<Op>) {
    forall op <- ops :: (op.PutFile? && op.path in Recorded(d)) || (op.DeleteFile? && op.path in Recorded(d))
  }

  ghost predicate SameElsewhere(d: Dir, f: map<string, string>, g: map<string, string>) {
    forall p: string :: p !in Recorded(d) ==> Get(f, p) == Get(g, p)
  }

  lemma {:induction false} WithinRun(s: State, d: Dir, ops: seq<Op>)
    requires WithinRecorded(d, ops)
    ensures var t := Run(s, ops); t == s.(files := t.files) && SameElsewhere(d, s.files, t.files)
    decreases |ops|
  {
    if ops == [] {
      RunNone(s);
    } else {
      assert ops[0] in ops && forall op <- ops[1..] :: op in ops;
      hide Recorded;
      WithinRun(Apply(s, ops[0]), d, ops[1..]);
    }
  }

  lemma {:induction false} CopiesWithin(d: Dir, i: nat)
    ensures WithinRecorded(d, CopyOps(d, i))
    decreases |d.filePaths| - i
  {
    if i < |d.filePaths| {
      assert d.filePaths[i] in Recorded(d);
      CopiesWithin(d, i + 1);
    }
  }

  lemma {:induction false} DeletesWithin(d: Dir, paths: seq<string>)
    requires forall p <- paths :: p in d.newFiles
    ensures WithinRecorded(d, DeleteOps(paths))
    decreases |paths|
  {
    if paths != [] {
      assert paths[0] in Recorded(d);
      DeletesWithin(d, paths[1..]);
    }
  }

  lemma {:induction false} CopiesRun(s: State, d: Dir, i: nat)
    requires Complete(d)
    ensures Run(s, CopyOps(d, i)) == s.(files := Copied(d, i, s.files))
    decreases |d.filePaths| - i
  {
    if i >= |d.filePaths| {
      RunNone(s);
    } else {
      var p := d.filePaths[i];
      var put := PutFile(p, d.backups[BackupName(p, i)]);
      RunThen(s, put, CopyOps(d, i + 1));
      CopiesRun(Apply(s, put), d, i + 1);
    }
  }

  lemma {:induction false} DeletesRun(s: State, paths: seq<string>)
    ensures Run(s, DeleteOps(paths)) == s.(files := s.files - Elements(paths))
    decreases |paths|
  {
    if paths == [] {
      RunNone(s);
      assert s.files - Elements(paths) == s.files;
    } else {
      RunThen(s, DeleteFile(paths[0]), DeleteOps(paths[1..]));
      DeletesRun(Apply(s, DeleteFile(paths[0])), paths[1..]);
      assert Elements(paths) == {paths[0]} + Elements(paths[1..]);
      assert s.files - {paths[0]} - Elements(paths[1..]) == s.files - Elements(paths);
    }
  }

  /** `restoreDir` finished: the files are those of `Undo` and the directory is gone. */
  lemma RestoreDirRun(s: State, d: Dir)
    requires Complete(d)
    ensures Run(s, RestoreDirOps(d)) == s.(files := Undo(d, s.files), progress := None)
  {
    var copies, deletes := CopyOps(d, 0), DeleteOps(d.newFiles);
    CopiesRun(s, d, 0);
    DeletesRun(Run(s, copies), d.newFiles);
    hide Run, Complete, Copied, Elements;
    RunAppend(s, copies, deletes + [DropProgress]);
    RunAppend(Run(s, copies), deletes, [DropProgress]);
    RunOne(Run(Run(s, copies), deletes), DropProgress);
  }

  /** `restoreDir` stopped before its end: the directory is still there and would restore the same. */
  lemma RestoreDirCut(s: State, d: Dir, n: nat)
    requires Complete(d) && n < |RestoreDirOps(d)|
    ensures var t := Run(s, Cut(RestoreDirOps(d), n));
      t == s.(files := t.files) && Undo(d, t.files) == Undo(d, s.files) && SameElsewhere(d, s.files, t.files)
  {
    var ops := RestoreDirOps(d);
    CopiesWithin(d, 0);
    DeletesWithin(d, d.newFiles);
    assert WithinRecorded(d, Cut(ops, n)) by {
      assert ops == CopyOps(d, 0) + DeleteOps(d.newFiles) + [DropProgress];
      assert forall op <- Cut(ops, n) :: op in CopyOps(d, 0) || op in DeleteOps(d.newFiles);
    }
    WithinRun(s, d, Cut(ops, n));
    UndoSame(d, Run(s, Cut(ops, n)).files, s.files);
  }

  // ----- Runs -----

  /** One event: a call stopped after `steps` steps (or finished), a write or a deletion of any
      file by the program or the user, or the loss of the process with its in-memory marker. */
  datatype Event =
    | Save(paths: seq<string>, steps: nat) | Write(path: string, data: Option<string>)
    | MarkClean(steps: nat) | RestoreInFlight(steps: nat) | Recover(steps: nat) | Crash

  function Next(s: State, e: Event): State {
    match e
    case Save(paths, steps) => Run(s, Cut(SaveOps(s, paths), steps))
    case Write(p, data) => s.(files := if data.Some? then s.files[p := data.value] else s.files - {p})
    case MarkClean(steps) => Run(s, Cut(MarkCleanOps(s), steps))
    case RestoreInFlight(steps) => Run(s, Cut(RestoreInFlightOps(s), steps))
    case Recover(steps) => Run(s, Cut(RecoverOps(s), steps))
    case Crash => s.(inFlight := false)
  }

  /** For each path of the open checkpoint, the file (or its absence) when the path was recorded
      first: a `Save` does not change files, so the state before the event is the state then. */
  function FirstSeen(first: map<string, Option<string>>, s: State, t: State): map<string, Option<string>> {
    map p | p in Recorded(Opened(t)) :: if p in first then first[p] else Get(s.files, p)
  }

  datatype Watched = Watched(s: State, first: map<string, Option<string>>)

  function History(w: Watched, events: seq<Event>): Watched
    decreases |events|
  {
    if events == [] then w
    else
      var t := Next(w.s, events[0]);
      History(Watched(t, FirstSeen(w.first, w.s, t)), events[1..])
  }

  /** Undoing the open checkpoint gives every recorded path its first contents. */
  ghost predicate Undoable(w: Watched) {
    var d := Opened(w.s);
    Sound(d) && w.first.Keys == Recorded(d) && forall p <- w.first :: Get(Undo(d, w.s.files), p) == w.first[p]
  }

  lemma SavePreserves(w: Watched, t: State)
    requires Undoable(w) && SameUndo(w.s, t)
    ensures Undoable(Watched(t, FirstSeen(w.first, w.s, t)))
  {
    var d := Opened(w.s);
    forall p: string | p !in Recorded(d) ensures Get(Undo(d, w.s.files), p) == Get(w.s.files, p) {
      UndoGet(d, w.s.files, w.s.files, p);
    }
    hide Undo, Recorded, Sound;
  }

  lemma WritePreserves(w: Watched, t: State)
    requires Undoable(w) && t == w.s.(files := t.files, inFlight := t.inFlight, stack := t.stack)
    ensures Undoable(Watched(t, FirstSeen(w.first, w.s, t)))
  {
    var d := Opened(w.s);
    forall p <- w.first ensures Get(Undo(d, t.files), p) == w.first[p] { UndoGet(d, t.files, w.s.files, p); }
    hide Undo, Recorded, Sound;
  }

  lemma ClosedPreserves(w: Watched, t: State)
    requires t.progress == None
    ensures Undoable(Watched(t, FirstSeen(w.first, w.s, t)))
  {
    EmptySound();
  }

  lemma RestorePreserves(w: Watched, s: State, n: nat)
    requires Undoable(w) && w.s.progress.Some? && s == w.s.(inFlight := s.inFlight)
    ensures var t := Run(s, Cut(RestoreDirOps(w.s.progress.value), n));
      Undoable(Watched(t, FirstSeen(w.first, w.s, t)))
  {
    var d := w.s.progress.value;
    if n < |RestoreDirOps(d)| {
      RestoreDirCut(s, d, n);
      WritePreserves(w, Run(s, Cut(RestoreDirOps(d), n)));
    } else {
      CutIs(RestoreDirOps(d), n);
      RestoreDirRun(s, d);
      ClosedPreserves(w, Run(s, RestoreDirOps(d)));
    }
  }

  lemma EventPreserves(w: Watched, e: Event)
    requires Undoable(w)
    ensures var t := Next(w.s, e); Undoable(Watched(t, FirstSeen(w.first, w.s, t)))
  {
    var s, t := w.s, Next(w.s, e);
    hide Run, Undoable, FirstSeen, SaveOps, RestoreDirOps, Cut, Sound;
    if e.Save? {
      assert Sound(Opened(s)) by { UndoableSound(w); }
      SaveKeepsUndo(s, e.paths, e.steps);
      SavePreserves(w, t);
    } else if e.Write? || e.Crash? {
      WritePreserves(w, t);
    } else if e.MarkClean? {
      MarkCleanPreserves(w, e.steps);
    } else if e.RestoreInFlight? {
      InFlightPreserves(w, e.steps);
    } else if s.progress.Some? {
      RestorePreserves(w, s, e.steps);
    } else {
      CutIs([], e.steps);
      RunNone(s);
      ClosedPreserves(w, t);
    }
  }

  lemma UndoableSound(w: Watched)
    requires Undoable(w)
    ensures Sound(Opened(w.s))
  {
  }

  lemma MarkCleanPreserves(w: Watched, n: nat)
    requires Undoable(w)
    ensures var t := Run(w.s, Cut(MarkCleanOps(w.s), n)); Undoable(Watched(t, FirstSeen(w.first, w.s, t)))
  {
    var s := w.s;
    var t := Run(s, Cut(MarkCleanOps(s), n));
    hide Undoable, FirstSeen, Sound;
    if n == 0 {
      RunNone(s);
      WritePreserves(w, t);
    } else if n == 1 || !(s.inFlight && s.progress.Some?) {
      assert Cut(MarkCleanOps(s), n) == [Unmark];
      RunOne(s, Unmark);
      WritePreserves(w, t);
    } else {
      assert Cut(MarkCleanOps(s), n) == [Unmark] + [Promote];
      RunThen(s, Unmark, [Promote]);
      RunOne(Apply(s, Unmark), Promote);
      ClosedPreserves(w, t);
    }
  }

  lemma InFlightPreserves(w: Watched, n: nat)
    requires Undoable(w)
    ensures var t := Run(w.s, Cut(RestoreInFlightOps(w.s), n)); Undoable(Watched(t, FirstSeen(w.first, w.s, t)))
  {
    var s := w.s;
    var t := Run(s, Cut(RestoreInFlightOps(s), n));
    hide Undoable, FirstSeen, Sound, RestoreDirOps;
    if n == 0 {
      RunNone(s);
      WritePreserves(w, t);
    } else if s.inFlight && s.progress.Some? {
      var ops := RestoreDirOps(s.progress.value);
      assert Cut([Unmark] + ops, n) == [Unmark] + Cut(ops, n - 1);
      RunThen(s, Unmark, Cut(ops, n - 1));
      RestorePreserves(w, Apply(s, Unmark), n - 1);
    } else {
      assert Cut(RestoreInFlightOps(s), n) == [Unmark];
      RunOne(s, Unmark);
      WritePreserves(w, t);
    }
  }

  lemma {:induction false} RunPreserves(w: Watched, events: seq<Event>)
    requires Undoable(w)
    ensures Undoable(History(w, events))
    decreases |events|
  {
    if events != [] {
      var t := Next(w.s, events[0]);
      EventPreserves(w, events[0]);
      hide Undoable, Next;
      RunPreserves(Watched(t, FirstSeen(w.first, w.s, t)), events[1..]);
    }
  }

  /** After any run, each call of it stopped anywhere (recovery too), recovery gives every path
      recorded in the open checkpoint what it was when it was recorded first, touches no other
      file, and leaves no open checkpoint. */
  lemma CrashSafeUndo(s0: State, events: seq<Event>)
    requires s0.progress == None
    ensures var w := History(Watched(s0, map[]), events);
      var t := Run(w.s, RecoverOps(w.s));
      t.progress == None && w.first.Keys == Recorded(Opened(w.s)) &&
      forall p: string :: Get(t.files, p) == if p in w.first then w.first[p] else Get(w.s.files, p)
  {
    var w0 := Watched(s0, map[]);
    EmptySound();
    assert Undoable(w0);
    RunPreserves(w0, events);
    var w := History(w0, events);
    var d := Opened(w.s);
    if w.s.progress.Some? { RestoreDirRun(w.s, d); } else { RunNone(w.s); }
    var t := Run(w.s, RecoverOps(w.s));
    hide Run, RestoreDirOps, History;
    forall p: string ensures Get(t.files, p) == if p in w.first then w.first[p] else Get(w.s.files, p) {
      UndoGet(d, w.s.files, w.s.files, p);
    }
  }

  /** A `Save` of a file that does not exist, with no earlier one, records nothing: what is written
      to the file afterwards stays. */
  lemma DroppedSaveIsNotUndone(s: State, p: string, data: string)
    requires s.progress == None && p !in s.files
    ensures var saved := Run(s, SaveOps(s, [p]));
      var t := Next(saved, Write(p, Some(data)));
      Get(Run(t, RecoverOps(t)).files, p) == Some(data)
  {
    var saved := Run(s, SaveOps(s, [p]));
    EmptySound();
    SaveRecords(s, [p]);
    RunNone(Next(saved, Write(p, Some(data))));
    hide Run, SaveOps;
  }
}
