/** The checkpoint log of `internal/checkpoint/checkpoint.go`: snapshots of files in an in-progress
    directory, finalised checkpoints, and the operations that restore from them.

    Every operation is a list of primitive steps computed from the state it starts in; a crash or
    an I/O error at any point leaves the effect of a prefix of that list. The class `Checkpoints`
    performs the operations step by step and is proved to perform exactly those lists.
 */
module Checkpoint {
  import opened Common
  import opened Decimal

  /** A checkpoint directory: the lines of FILEPATHS and NEW_FILES, and the backed-up contents. */
  datatype Dir = Dir(filePaths: seq<string>, newFiles: seq<string>, backups: map<string, string>)

  /** `stack` holds the finalised checkpoints in the order of `List`, oldest first; `inFlight` is
      the marker that the process keeps in memory. */
  datatype State = State(files: map<string, string>, progress: Option<Dir>, stack: seq<Dir>, inFlight: bool)

  const EmptyDir := Dir([], [], map[])

  function Opened(s: State): Dir {
    if s.progress.Some? then s.progress.value else EmptyDir
  }

  function Get(files: map<string, string>, p: string): Option<string> {
    if p in files then Some(files[p]) else None
  }

  /** `filepath.Base` of an absolute path. */
  function Base(p: string): string {
    if p == "" then "" else if p[|p| - 1] == '/' then "" else Base(p[..|p| - 1]) + [p[|p| - 1]]
  }

  /** The last element of a path. */
  lemma {:induction false} BaseExactly(dir: string, name: string)
    requires '/' !in name
    ensures Base(dir + "/" + name) == name
    decreases |name|
  {
    if name == "" {
      assert dir + "/" + "" == dir + "/";
    } else {
      var n := |name| - 1;
      var p := dir + "/" + name;
      BaseExactly(dir, name[..n]);
      assert name[n] in name && p[..|p| - 1] == dir + "/" + name[..n] && p[|p| - 1] == name[n];
    }
  }

  function BackupName(p: string, idx: nat): string {
    Base(p) + "_" + Itoa(idx)
  }

  /** Two backups never share a name, because their indexes differ. */
  lemma BackupIndex(p: string, i: nat, q: string, j: nat)
    requires BackupName(p, i) == BackupName(q, j)
    ensures i == j
  {
    IndexAtEnd(p, i);
    IndexAtEnd(q, j);
    var a := BackupName(p, i);
    assert |Itoa(i)| == |Itoa(j)|;
    assert a[|a| - |Itoa(i)|..] == Itoa(i) == Itoa(j);
    ItoaInjective(i, j);
  }

  lemma IndexAtEnd(p: string, i: nat)
    ensures var a, m := BackupName(p, i), |Itoa(i)|;
      |a| > m && a[|a| - 1 - m] == '_' && a[|a| - m..] == Itoa(i) && forall k :: |a| - m <= k < |a| ==> IsDigit(a[k])
  {
    var a, m := BackupName(p, i), |Itoa(i)|;
    assert a[|a| - m..] == Itoa(i);
    assert forall k :: |a| - m <= k < |a| ==> a[k] == Itoa(i)[k - (|a| - m)];
  }

  // ----- Primitive steps -----

  datatype Op =
    | MakeDir | PutBackup(name: string, data: string) | AddPath(path: string) | AddNew(path: string)
    | Mark | Unmark | PutFile(path: string, data: string) | DeleteFile(path: string)
    | DropProgress | Promote | DropTop

  function Apply(s: State, op: Op): State {
    var d := Opened(s);
    match op
    case MakeDir => s.(progress := Some(d))
    case PutBackup(name, data) => s.(progress := Some(d.(backups := d.backups[name := data])))
    case AddPath(p) => s.(progress := Some(d.(filePaths := d.filePaths + [p])))
    case AddNew(p) => s.(progress := Some(d.(newFiles := d.newFiles + [p])))
    case Mark => s.(inFlight := true)
    case Unmark => s.(inFlight := false)
    case PutFile(p, data) => s.(files := s.files[p := data])
    case DeleteFile(p) => s.(files := s.files - {p})
    case DropProgress => s.(progress := None)
    case Promote => s.(progress := None, stack := s.stack + [d])
    case DropTop => if s.stack == [] then s else s.(stack := s.stack[..|s.stack| - 1])
  }

  function Run(s: State, ops: seq<Op>): State
    decreases |ops|
  {
    if ops == [] then s else Run(Apply(s, ops[0]), ops[1..])
  }

  lemma {:induction false} RunAppend(s: State, a: seq<Op>, b: seq<Op>)
    ensures Run(s, a + b) == Run(Run(s, a), b)
    decreases |a|
  {
    if a == [] { assert a + b == b; }
    else {
      RunAppend(Apply(s, a[0]), a[1..], b);
      assert (a + b)[1..] == a[1..] + b;
    }
  }

  lemma RunOne(s: State, op: Op)
    ensures Run(s, [op]) == Apply(s, op)
  {
    assert [op][1..] == [];
  }

  lemma RunThen(s: State, op: Op, rest: seq<Op>)
    ensures Run(s, [op] + rest) == Run(Apply(s, op), rest)
  {
    assert ([op] + rest)[1..] == rest;
  }

  // ----- Save -----

  /** What the loop of `Save` collects: the backups to write, the paths to list in FILEPATHS and
      those to list in NEW_FILES. */
  datatype Plan = Plan(puts: seq<Op>, found: seq<string>, absent: seq<string>)

  function PlanFor(files: map<string, string>, existing: seq<string>, paths: seq<string>, idx: nat): Plan
    decreases |paths|
  {
    if paths == [] then Plan([], [], [])
    else
      var p := paths[0];
      if p in existing then PlanFor(files, existing, paths[1..], idx)
      else if p !in files then
        var rest := PlanFor(files, existing, paths[1..], idx);
        Plan(rest.puts, rest.found, [p] + rest.absent)
      else
        var rest := PlanFor(files, existing, paths[1..], idx + 1);
        Plan([PutBackup(BackupName(p, idx), files[p])] + rest.puts, [p] + rest.found, rest.absent)
  }

  function PathOps(paths: seq<string>): seq<Op>
    decreases |paths|
  {
    if paths == [] then [] else [AddPath(paths[0])] + PathOps(paths[1..])
  }

  function NewOps(paths: seq<string>): seq<Op>
    decreases |paths|
  {
    if paths == [] then [] else [AddNew(paths[0])] + NewOps(paths[1..])
  }

  function SavePlan(s: State, paths: seq<string>): Plan {
    PlanFor(s.files, Opened(s).filePaths, paths, |Opened(s).filePaths|)
  }

  /** Nothing was read and no earlier `Save` listed a path: the directory goes away again. */
  predicate NothingSaved(s: State, paths: seq<string>) {
    SavePlan(s, paths).found == [] && Opened(s).filePaths == []
  }

  function SaveOps(s: State, paths: seq<string>): seq<Op> {
    var plan := SavePlan(s, paths);
    [MakeDir] + plan.puts +
    (if NothingSaved(s, paths) then [DropProgress] else PathOps(plan.found) + NewOps(plan.absent) + [Mark])
  }

  // ----- Restoring -----

  /** The copies back of `restoreDir`, up to a missing backup, which is an error. */
  function CopyOps(d: Dir, i: nat): seq<Op>
    decreases |d.filePaths| - i
  {
    if i >= |d.filePaths| then []
    else
      var p := d.filePaths[i];
      if BackupName(p, i) !in d.backups then []
      else [PutFile(p, d.backups[BackupName(p, i)])] + CopyOps(d, i + 1)
  }

  predicate Complete(d: Dir) {
    forall i :: 0 <= i < |d.filePaths| ==> BackupName(d.filePaths[i], i) in d.backups
  }

  function DeleteOps(paths: seq<string>): seq<Op>
    decreases |paths|
  {
    if paths == [] then [] else [DeleteFile(paths[0])] + DeleteOps(paths[1..])
  }

  /** `restoreDir` on the in-progress directory. */
  function RestoreDirOps(d: Dir): seq<Op> {
    CopyOps(d, 0) + (if Complete(d) then DeleteOps(d.newFiles) + [DropProgress] else [])
  }

  function RecoverOps(s: State): seq<Op> {
    if s.progress.None? then [] else RestoreDirOps(s.progress.value)
  }

  function RestoreInFlightOps(s: State): seq<Op> {
    [Unmark] + (if s.inFlight && s.progress.Some? then RestoreDirOps(s.progress.value) else [])
  }

  function MarkCleanOps(s: State): seq<Op> {
    [Unmark] + (if s.inFlight && s.progress.Some? then [Promote] else [])
  }

  // ----- Rolling back -----

  /** The copies of `Restore` from one checkpoint: a path in `seen` is skipped. */
  function UnseenOps(d: Dir, i: nat, seen: set<string>): seq<Op>
    decreases |d.filePaths| - i
  {
    if i >= |d.filePaths| then []
    else
      var p := d.filePaths[i];
      if p in seen then UnseenOps(d, i + 1, seen)
      else if BackupName(p, i) !in d.backups then []
      else [PutFile(p, d.backups[BackupName(p, i)])] + UnseenOps(d, i + 1, seen + {p})
  }

  /** Every path that is not skipped has its backup. */
  predicate UnseenComplete(d: Dir, i: nat, seen: set<string>)
    decreases |d.filePaths| - i
  {
    i >= |d.filePaths| ||
    (var p := d.filePaths[i];
     if p in seen then UnseenComplete(d, i + 1, seen)
     else BackupName(p, i) in d.backups && UnseenComplete(d, i + 1, seen + {p}))
  }

  function Elements(paths: seq<string>): set<string> {
    set p <- paths
  }

  /** `Restore` on the newest `n` of these checkpoints, newest first. */
  function RestoreOps(dirs: seq<Dir>, n: nat, seen: set<string>): seq<Op>
    requires n <= |dirs|
    decreases n
  {
    if n == 0 then []
    else
      var d := dirs[|dirs| - 1];
      UnseenOps(d, 0, seen) +
      (if !UnseenComplete(d, 0, seen) then []
       else DeleteOps(d.newFiles) + [DropTop] + RestoreOps(dirs[..|dirs| - 1], n - 1, seen + Elements(d.filePaths)))
  }

  /** No round of `Restore` misses a backup. */
  predicate RoundsComplete(dirs: seq<Dir>, n: nat, seen: set<string>)
    requires n <= |dirs|
    decreases n
  {
    n == 0 ||
    (var d := dirs[|dirs| - 1];
     UnseenComplete(d, 0, seen) && RoundsComplete(dirs[..|dirs| - 1], n - 1, seen + Elements(d.filePaths)))
  }

  function Min(a: int, b: int): int {
    if a < b then a else b
  }

  function RollbackOps(s: State, n: int): seq<Op> {
    if n <= 0 then [] else RestoreOps(s.stack, Min(n, |s.stack|), {})
  }

  // ----- The operations -----

  class Checkpoints {
    var s: State

    constructor (s: State)
      ensures this.s == s
    {
      this.s := s;
    }

    method Do(op: Op)
      modifies this
      ensures s == Apply(old(s), op)
    {
      s := Apply(s, op);
    }

    /** Appends lines to FILEPATHS. */
    method AddPaths(paths: seq<string>)
      modifies this
      ensures s == Run(old(s), PathOps(paths))
    {
      for i := 0 to |paths|
        invariant Run(s, PathOps(paths[i..])) == Run(old(s), PathOps(paths))
      {
        assert paths[i..][0] == paths[i] && paths[i..][1..] == paths[i + 1..];
        RunThen(s, AddPath(paths[i]), PathOps(paths[i + 1..]));
        Do(AddPath(paths[i]));
      }
    }

    /** Appends lines to NEW_FILES. */
    method AddNews(paths: seq<string>)
      modifies this
      ensures s == Run(old(s), NewOps(paths))
    {
      for i := 0 to |paths|
        invariant Run(s, NewOps(paths[i..])) == Run(old(s), NewOps(paths))
      {
        assert paths[i..][0] == paths[i] && paths[i..][1..] == paths[i + 1..];
        RunThen(s, AddNew(paths[i]), NewOps(paths[i + 1..]));
        Do(AddNew(paths[i]));
      }
    }

    /** Deletes these files; returns those that existed. */
    method DeletePaths(paths: seq<string>) returns (removed: seq<string>)
      modifies this
      ensures s == Run(old(s), DeleteOps(paths))
      ensures ChangedOnly(old(s), s, removed)
    {
      removed := [];
      for i := 0 to |paths|
        invariant Run(s, DeleteOps(paths[i..])) == Run(old(s), DeleteOps(paths))
        invariant ChangedOnly(old(s), s, removed)
      {
        assert paths[i..][0] == paths[i] && paths[i..][1..] == paths[i + 1..];
        RunThen(s, DeleteFile(paths[i]), DeleteOps(paths[i + 1..]));
        if paths[i] in s.files { removed := removed + [paths[i]]; }
        Do(DeleteFile(paths[i]));
      }
    }

    /** Reads the files and writes their backups. */
    method BackUp(paths: seq<string>) returns (found: seq<string>, absent: seq<string>)
      requires s.progress.Some?
      modifies this
      ensures s == Run(old(s), SavePlan(old(s), paths).puts)
      ensures found == SavePlan(old(s), paths).found && absent == SavePlan(old(s), paths).absent
    {
      var existing := Opened(s).filePaths;
      var idx: nat := |existing|;
      ghost var plan := SavePlan(s, paths);
      found, absent := [], [];
      hide Run, BackupName;
      for i := 0 to |paths|
        invariant s.files == old(s).files
        invariant PlanTail(s, PlanFor(s.files, existing, paths[i..], idx), found, absent, old(s), plan)
      {
        var p := paths[i];
        assert paths[i..][0] == p && paths[i..][1..] == paths[i + 1..];
        if p !in existing {
          if p !in s.files {
            Assoc(absent, [p], PlanFor(s.files, existing, paths[i + 1..], idx).absent);
            absent := absent + [p];
          } else {
            ghost var rest := PlanFor(s.files, existing, paths[i + 1..], idx + 1);
            var put := PutBackup(BackupName(p, idx), s.files[p]);
            Assoc(found, [p], rest.found);
            RunThen(s, put, rest.puts);
            Do(put);
            found := found + [p];
            idx := idx + 1;
          }
        }
      }
      assert paths[|paths|..] == [];
      RunNone(s);
    }

    /** Returns whether there is a checkpoint directory afterwards (the source returns its path or ""). */
    method Save(paths: seq<string>) returns (saved: bool)
      modifies this
      ensures saved == !NothingSaved(old(s), paths) && s == Run(old(s), SaveOps(old(s), paths))
    {
      ghost var plan := SavePlan(s, paths);
      hide Run, PlanFor;
      Do(MakeDir);
      ghost var s1 := s;
      assert SavePlan(s, paths) == plan;
      var existing := Opened(s).filePaths;
      var found, absent := BackUp(paths);
      RunThen(old(s), MakeDir, plan.puts);
      ghost var s2 := s;
      if |found| == 0 && |existing| == 0 {
        RunOne(s, DropProgress);
        Do(DropProgress);
        RunAppend(old(s), [MakeDir] + plan.puts, [DropProgress]);
        return false;
      }
      AddPaths(found);
      AddNews(absent);
      RunOne(s, Mark);
      Do(Mark);
      SaveTail(s2, found, absent);
      RunAppend(old(s), [MakeDir] + plan.puts, PathOps(found) + NewOps(absent) + [Mark]);
      return true;
    }

    /** Copies the backups back; `ok` is false at a missing backup. */
    method CopyBack(d: Dir) returns (ok: bool)
      modifies this
      ensures ok == Complete(d) && s == Run(old(s), CopyOps(d, 0))
    {
      for i := 0 to |d.filePaths|
        invariant forall j :: 0 <= j < i ==> BackupName(d.filePaths[j], j) in d.backups
        invariant Run(s, CopyOps(d, i)) == Run(old(s), CopyOps(d, 0))
      {
        var p := d.filePaths[i];
        if BackupName(p, i) !in d.backups { return false; }
        RunThen(s, PutFile(p, d.backups[BackupName(p, i)]), CopyOps(d, i + 1));
        Do(PutFile(p, d.backups[BackupName(p, i)]));
      }
      return true;
    }

    method RestoreDir(d: Dir)
      modifies this
      ensures s == Run(old(s), RestoreDirOps(d))
    {
      var ok := CopyBack(d);
      ghost var s1 := s;
      if ok {
        var _ := DeletePaths(d.newFiles);
        RunOne(s, DropProgress);
        Do(DropProgress);
        RunAppend(s1, DeleteOps(d.newFiles), [DropProgress]);
        RunAppend(old(s), CopyOps(d, 0), DeleteOps(d.newFiles) + [DropProgress]);
      } else {
        assert CopyOps(d, 0) + [] == CopyOps(d, 0);
      }
    }

    method RecoverInterrupted()
      modifies this
      ensures s == Run(old(s), RecoverOps(old(s)))
    {
      if s.progress.None? { return; }
      RestoreDir(s.progress.value);
    }

    method RestoreInFlight()
      modifies this
      ensures s == Run(old(s), RestoreInFlightOps(old(s)))
    {
      var marked := s.inFlight;
      RunThen(s, Unmark, RestoreInFlightOps(s)[1..]);
      assert RestoreInFlightOps(s) == [Unmark] + RestoreInFlightOps(s)[1..];
      Do(Unmark);
      if !marked || s.progress.None? { return; }
      assert RestoreInFlightOps(old(s))[1..] == RestoreDirOps(s.progress.value);
      RestoreDir(s.progress.value);
    }

    /** The copies from one checkpoint, of the paths not seen in a newer one. */
    method CopyUnseen(d: Dir, seen0: set<string>) returns (ok: bool, seen: set<string>, copied: seq<string>)
      modifies this
      ensures ok == UnseenComplete(d, 0, seen0) && s == Run(old(s), UnseenOps(d, 0, seen0))
      ensures ok ==> seen == seen0 + Elements(d.filePaths)
      ensures ChangedOnly(old(s), s, copied)
    {
      seen, copied := seen0, [];
      hide Run, BackupName;
      RunNone(s);
      for i := 0 to |d.filePaths|
        invariant seen == seen0 + Elements(d.filePaths[..i])
        invariant UnseenComplete(d, i, seen) == UnseenComplete(d, 0, seen0)
        invariant Run(s, UnseenOps(d, i, seen)) == Run(old(s), UnseenOps(d, 0, seen0))
        invariant ChangedOnly(old(s), s, copied)
      {
        var p := d.filePaths[i];
        ElementsPush(d.filePaths, i, seen0);
        if p !in seen {
          if BackupName(p, i) !in d.backups { RunNone(s); return false, seen, copied; }
          var put := PutFile(p, d.backups[BackupName(p, i)]);
          RunThen(s, put, UnseenOps(d, i + 1, seen + {p}));
          Do(put);
          seen, copied := seen + {p}, copied + [p];
        }
      }
      RunNone(s);
      assert d.filePaths[..|d.filePaths|] == d.filePaths;
      return true, seen, copied;
    }

    /** One round of `Restore`: the newest checkpoint, without the paths already seen. */
    method RestoreNewest(d: Dir, seen: set<string>) returns (ok: bool, nowSeen: set<string>, changed: seq<string>)
      requires s.stack != []
      modifies this
      ensures ok == UnseenComplete(d, 0, seen) && s == RestoredOne(old(s), d, seen)
      ensures ok ==> nowSeen == seen + Elements(d.filePaths) && s.stack == old(s).stack[..|old(s).stack| - 1]
      ensures ChangedOnly(old(s), s, changed)
    {
      hide Run, UnseenOps, UnseenComplete, DeleteOps;
      ok, nowSeen, changed := CopyUnseen(d, seen);
      if !ok { return; }
      ghost var copied := s;
      var removed := DeletePaths(d.newFiles);
      ChangedAppend(old(s), copied, s, changed, removed);
      changed := changed + removed;
      DeletesKeepStack(copied, d.newFiles);
      CopiesKeepStack(old(s), d, 0, seen);
      Do(DropTop);
    }

    /** Rolls back the newest `n` checkpoints; `changed` lists the files restored or deleted. */
    method Restore(n: int) returns (ok: bool, changed: seq<string>)
      modifies this
      ensures s == Run(old(s), RollbackOps(old(s), n))
      ensures ChangedOnly(old(s), s, changed)
      ensures ok == (n <= 0 || (old(s).stack != [] && RoundsComplete(old(s).stack, Min(n, |old(s).stack|), {})))
    {
      hide *;
      changed := [];
      RollbackNothing(s, n);
      ChangedNone(s);
      if n <= 0 { return true, []; }
      var all := s.stack;
      if |all| == 0 { return false, []; }
      var count: nat := if n > |all| then |all| else n;
      MinIs(n, |all|);
      ghost var goal, good := Run(s, RollbackOps(s, n)), RoundsComplete(all, count, {});
      var seen := {};
      assert all[..|all|] == all;
      RoundsStart(s, n, all, count);
      for i := |all| downto |all| - count
        invariant s.stack == all[..i]
        invariant ChangedOnly(old(s), s, changed)
        invariant RoundsLeft(s, all[..i], i - (|all| - count), seen, goal, good)
      {
        ghost var before := s;
        assert all[..i + 1][..i] == all[..i] && all[..i + 1][i] == all[i];
        RoundsStep(s, all[..i + 1], i + 1 - (|all| - count), seen, goal, good);
        var ok1, nowSeen, more := RestoreNewest(all[i], seen);
        ChangedAppend(old(s), before, s, changed, more);
        changed := changed + more;
        if !ok1 { return false, changed; }
        seen := nowSeen;
      }
      RoundsEnd(s, all[..|all| - count], seen, goal, good);
      return true, changed;
    }

    method MarkClean()
      modifies this
      ensures s == Run(old(s), MarkCleanOps(old(s)))
    {
      var marked := s.inFlight;
      Do(Unmark);
      if !marked || s.progress.None? { RunOne(old(s), Unmark); return; }
      RunOne(s, Promote);
      RunThen(old(s), Unmark, [Promote]);
      Do(Promote);
    }
  }

  /** Only these files differ. */
  ghost predicate ChangedOnly(s: State, t: State, paths: seq<string>) {
    forall p: string :: Get(s.files, p) != Get(t.files, p) ==> p in paths
  }

  lemma ChangedNone(s: State)
    ensures ChangedOnly(s, s, [])
  {
  }

  lemma ChangedAppend(s: State, t: State, u: State, a: seq<string>, b: seq<string>)
    requires ChangedOnly(s, t, a) && ChangedOnly(t, u, b)
    ensures ChangedOnly(s, u, a + b)
  {
  }

  lemma ElementsPush(paths: seq<string>, i: nat, seen: set<string>)
    requires i < |paths|
    ensures seen + Elements(paths[..i]) + {paths[i]} == seen + Elements(paths[..i + 1])
  {
    assert paths[..i + 1] == paths[..i] + [paths[i]];
  }

  /** What is left of the plan completes what was done of it. */
  predicate PlanTail(s: State, rest: Plan, found: seq<string>, absent: seq<string>, s0: State, plan: Plan) {
    Run(s, rest.puts) == Run(s0, plan.puts) && found + rest.found == plan.found && absent + rest.absent == plan.absent
  }

  lemma RunNone(s: State)
    ensures Run(s, []) == s
  {
  }

  lemma SaveTail(s: State, found: seq<string>, absent: seq<string>)
    ensures Run(s, PathOps(found) + NewOps(absent) + [Mark]) == Apply(Run(Run(s, PathOps(found)), NewOps(absent)), Mark)
  {
    RunAppend(s, PathOps(found), NewOps(absent));
    RunAppend(s, PathOps(found) + NewOps(absent), [Mark]);
    RunOne(Run(s, PathOps(found) + NewOps(absent)), Mark);
  }

  lemma RestoreNone(dirs: seq<Dir>, seen: set<string>)
    ensures RestoreOps(dirs, 0, seen) == [] && RoundsComplete(dirs, 0, seen)
  {
  }

  ghost function RestoredOne(s: State, d: Dir, seen: set<string>): State {
    var copied := Run(s, UnseenOps(d, 0, seen));
    if UnseenComplete(d, 0, seen) then Apply(Run(copied, DeleteOps(d.newFiles)), DropTop) else copied
  }

  /** The steps of `Restore` for one checkpoint. */
  lemma RestoreStep(s: State, dirs: seq<Dir>, n: nat, seen: set<string>)
    requires 0 < n <= |dirs|
    ensures var d := dirs[|dirs| - 1];
      Run(s, RestoreOps(dirs, n, seen)) ==
        if !UnseenComplete(d, 0, seen) then RestoredOne(s, d, seen)
        else Run(RestoredOne(s, d, seen), RestoreOps(dirs[..|dirs| - 1], n - 1, seen + Elements(d.filePaths)))
  {
    hide Run, UnseenOps, UnseenComplete, DeleteOps;
    var d := dirs[|dirs| - 1];
    var copies, deletes := UnseenOps(d, 0, seen), DeleteOps(d.newFiles);
    if !UnseenComplete(d, 0, seen) {
      assert copies + [] == copies;
    } else {
      var rest := RestoreOps(dirs[..|dirs| - 1], n - 1, seen + Elements(d.filePaths));
      RunAppend(s, copies, deletes + [DropTop] + rest);
      Assoc(deletes, [DropTop], rest);
      RunAppend(Run(s, copies), deletes, [DropTop] + rest);
      RunThen(Run(Run(s, copies), deletes), DropTop, rest);
    }
  }

  lemma RoundsFirst(dirs: seq<Dir>, n: nat, seen: set<string>)
    requires 0 < n <= |dirs|
    ensures var d := dirs[|dirs| - 1];
      RoundsComplete(dirs, n, seen) ==
        (UnseenComplete(d, 0, seen) && RoundsComplete(dirs[..|dirs| - 1], n - 1, seen + Elements(d.filePaths)))
  {
  }

  /** The rounds that are left lead to this state and find all their backups or not. */
  ghost predicate RoundsLeft(s: State, dirs: seq<Dir>, n: nat, seen: set<string>, goal: State, good: bool) {
    n <= |dirs| && Run(s, RestoreOps(dirs, n, seen)) == goal && RoundsComplete(dirs, n, seen) == good
  }

  lemma RollbackNothing(s: State, n: int)
    ensures n <= 0 || s.stack == [] ==> Run(s, RollbackOps(s, n)) == s
  {
    RunNone(s);
    RestoreNone(s.stack, {});
  }

  lemma MinIs(a: int, b: int)
    ensures Min(a, b) == if a > b then b else a
  {
  }

  lemma RoundsStart(s: State, n: int, dirs: seq<Dir>, count: nat)
    requires n > 0 && dirs == s.stack && count == Min(n, |dirs|)
    ensures RoundsLeft(s, dirs, count, {}, Run(s, RollbackOps(s, n)), RoundsComplete(dirs, count, {}))
  {
    hide Run, RestoreOps, RoundsComplete;
  }

  lemma RoundsStep(s: State, dirs: seq<Dir>, n: nat, seen: set<string>, goal: State, good: bool)
    requires 0 < n <= |dirs| && RoundsLeft(s, dirs, n, seen, goal, good)
    ensures var d := dirs[|dirs| - 1];
      if !UnseenComplete(d, 0, seen) then RestoredOne(s, d, seen) == goal && !good
      else RoundsLeft(RestoredOne(s, d, seen), dirs[..|dirs| - 1], n - 1, seen + Elements(d.filePaths), goal, good)
  {
    RestoreStep(s, dirs, n, seen);
    RoundsFirst(dirs, n, seen);
    hide Run, RestoreOps, RoundsComplete, UnseenComplete, RestoredOne, Elements;
  }

  lemma RoundsEnd(s: State, dirs: seq<Dir>, seen: set<string>, goal: State, good: bool)
    requires RoundsLeft(s, dirs, 0, seen, goal, good)
    ensures s == goal && good
  {
    RunNone(s);
  }

  lemma {:induction false} DeletesKeepStack(s: State, paths: seq<string>)
    ensures var t := Run(s, DeleteOps(paths)); t.stack == s.stack && t.progress == s.progress
    decreases |paths|
  {
    if paths != [] {
      RunThen(s, DeleteFile(paths[0]), DeleteOps(paths[1..]));
      DeletesKeepStack(Apply(s, DeleteFile(paths[0])), paths[1..]);
    }
  }

  lemma {:induction false} CopiesKeepStack(s: State, d: Dir, i: nat, seen: set<string>)
    ensures var t := Run(s, UnseenOps(d, i, seen)); t.stack == s.stack && t.progress == s.progress
    decreases |d.filePaths| - i
  {
    if i < |d.filePaths| {
      var p := d.filePaths[i];
      if p in seen { CopiesKeepStack(s, d, i + 1, seen); }
      else if BackupName(p, i) in d.backups {
        var put := PutFile(p, d.backups[BackupName(p, i)]);
        RunThen(s, put, UnseenOps(d, i + 1, seen + {p}));
        CopiesKeepStack(Apply(s, put), d, i + 1, seen + {p});
      }
    }
  }
}
