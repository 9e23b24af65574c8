/** What the operations of the checkpoint log leave when they finish: a checkpoint that is saved,
    finalised and rolled back, and when a rollback succeeds.
 */
module CheckpointDone {
  import opened Common
  import opened Checkpoint
  import opened CheckpointUndo
  import opened CheckpointRollback

  // ----- Finalising and restoring -----

  /** `MarkClean` turns the open directory into the newest checkpoint and changes no file, so that a
      recovery behind it has nothing to undo. Without the marker it leaves the log as it is. */
  lemma MarkCleanDone(s: State)
    ensures var t := Run(s, MarkCleanOps(s));
      t.files == s.files && !t.inFlight &&
      (if s.inFlight && s.progress.Some? then t.progress == None && t.stack == s.stack + [s.progress.value]
       else t.progress == s.progress && t.stack == s.stack) &&
      (s.inFlight ==> Run(t, RecoverOps(t)) == t)
  {
    var u := Apply(s, Unmark);
    if s.inFlight && s.progress.Some? {
      RunThen(s, Unmark, [Promote]);
      RunOne(u, Promote);
    } else {
      RunOne(s, Unmark);
    }
    RunNone(Run(s, MarkCleanOps(s)));
  }

  /** `RestoreInFlight` undoes the open directory and removes it, when this process has opened it. */
  lemma InFlightDone(s: State)
    requires s.progress.Some? ==> Complete(s.progress.value)
    ensures Run(s, RestoreInFlightOps(s)) ==
      if s.inFlight && s.progress.Some?
      then s.(inFlight := false, progress := None, files := Undo(s.progress.value, s.files))
      else s.(inFlight := false)
  {
    hide Run, RestoreDirOps, Undo;
    if s.inFlight && s.progress.Some? {
      var d := s.progress.value;
      RunThen(s, Unmark, RestoreDirOps(d));
      RestoreDirRun(Apply(s, Unmark), d);
    } else {
      RunOne(s, Unmark);
      assert [Unmark] + [] == [Unmark];
    }
  }

  // ----- Saving -----

  lemma {:induction false} PlanWithin(files: map<string, string>, existing: seq<string>, paths: seq<string>, idx: nat)
    ensures var plan := PlanFor(files, existing, paths, idx);
      (forall p <- plan.found :: p in paths) && (forall p <- plan.absent :: p in paths)
    decreases |paths|
  {
    if paths != [] {
      PlanWithin(files, existing, paths[1..], idx);
      PlanWithin(files, existing, paths[1..], idx + 1);
      assert paths == [paths[0]] + paths[1..];
    }
  }

  /** A `Save` that finishes and finds a file, or follows one that did: it marks the directory, which
      now records exactly the named paths besides those it had. */
  lemma SaveDone(s: State, paths: seq<string>)
    requires Sound(Opened(s)) && ((exists p <- paths :: p in s.files) || Opened(s).filePaths != [])
    ensures var t := Run(s, SaveOps(s, paths));
      t.progress.Some? && t == s.(progress := t.progress, inFlight := true) && SameUndo(s, t) &&
      Recorded(t.progress.value) == Recorded(Opened(s)) + Elements(paths)
  {
    var plan := SavePlan(s, paths);
    var first, t := [MakeDir] + plan.puts, Run(s, [MakeDir] + plan.puts);
    NothingIff(s, paths);
    SaveBackedUp(s, paths);
    SaveKeepsUndo(s, paths, |SaveOps(s, paths)|);
    CutIs(SaveOps(s, paths), |SaveOps(s, paths)|);
    SaveRecords(s, paths);
    PlanWithin(s.files, Opened(s).filePaths, paths, |Opened(s).filePaths|);
    hide Run, PlanFor, BackedUp, Sound, NothingSaved, Extends, Undo, Recorded;
    RunAppend(s, first, TailOps(s, paths));
    TailDone(s, paths, t);
    RecordedIs(Opened(s), Run(t, TailOps(s, paths)).progress.value, plan.found, plan.absent, paths);
  }

  lemma TailDone(s: State, paths: seq<string>, t: State)
    requires Ready(s, paths, t)
    ensures var u := Run(t, TailOps(s, paths)); var plan := SavePlan(s, paths);
      u.progress.Some? && u == t.(progress := u.progress, inFlight := true) &&
      u.progress.value == Grown(Opened(s), t.progress.value.backups, plan.found, plan.absent)
  {
    var found, absent := SavePlan(s, paths).found, SavePlan(s, paths).absent;
    hide Run, PlanFor, PathOps, NewOps;
    SaveTail(t, found, absent);
    AppendPaths(s, paths, t, |found|);
    AppendNews(s, paths, t, |absent|);
    hide Ready;
    CutIs(PathOps(found), 0);
    CutIs(NewOps(absent), 0);
    assert found[..|found|] == found && absent[..|absent|] == absent;
  }

  lemma RecordedIs(d0: Dir, d: Dir, found: seq<string>, absent: seq<string>, paths: seq<string>)
    requires d == Grown(d0, d.backups, found, absent)
    requires (forall p <- found :: p in paths) && (forall p <- absent :: p in paths) && (forall p <- paths :: p in Recorded(d))
    ensures Recorded(d) == Recorded(d0) + Elements(paths)
  {
  }

  // ----- One installation -----

  /** The program saves paths of which at least one exists, changes any files, and finalises: the log
      has one checkpoint more, the files stay as they are, and recovery changes none of them. */
  lemma InstallFinalised(s: State, paths: seq<string>, written: Files)
    requires s.progress == None && exists p <- paths :: p in s.files
    ensures var saved := Run(s, SaveOps(s, paths)); var u := saved.(files := written);
      saved.progress.Some? && saved.files == s.files &&
      (var t := Run(u, MarkCleanOps(u));
       t.files == written && t.progress == None && !t.inFlight && t.stack == s.stack + [saved.progress.value] &&
       Recorded(saved.progress.value) == Elements(paths) && Run(t, RecoverOps(t)) == t)
  {
    EmptySound();
    hide Run, Sound, Undo, Recorded, SaveOps, RecoverOps;
    SaveDone(s, paths);
    var u := Run(s, SaveOps(s, paths)).(files := written);
    MarkCleanDone(u);
  }

  /** Rolling the installation back gives every saved path the contents it had, or its absence, and
      leaves every other file as it is. */
  lemma InstallRolledBack(s: State, paths: seq<string>, written: Files)
    requires s.progress == None && (exists p <- paths :: p in s.files) && AllSound(s.stack)
    ensures var u := Run(s, SaveOps(s, paths)).(files := written);
      var t := Rollback(Run(u, MarkCleanOps(u)), 1);
      t.stack == s.stack && t.progress == None &&
      forall p: string :: Get(t.files, p) == if p in paths then Get(s.files, p) else Get(written, p)
  {
    EmptySound();
    SaveDone(s, paths);
    var saved := Run(s, SaveOps(s, paths));
    var d := saved.progress.value;
    var u := saved.(files := written);
    var t := Run(u, MarkCleanOps(u));
    assert Sound(d) && Undo(d, s.files) == s.files;
    hide Run, Sound, Undo, Recorded, SaveOps, MarkCleanOps, RecoverOps, SameUndo;
    InstallFinalised(s, paths, written);
    SoundPush(s.stack, d);
    hide AllSound, Rollback;
    RollbackUndoes(t);
    assert t.stack[..|t.stack| - 1] == s.stack;
    forall p: string ensures Get(Undo(d, written), p) == if p in paths then Get(s.files, p) else Get(written, p) {
      SoundComplete(d);
      UndoGet(d, written, s.files, p);
    }
  }

  lemma SoundComplete(d: Dir)
    requires Sound(d)
    ensures Complete(d)
  {
  }

  lemma SoundPush(dirs: seq<Dir>, d: Dir)
    requires AllSound(dirs) && Sound(d)
    ensures AllSound(dirs + [d])
  {
  }

  // ----- Rollbacks that succeed -----

  /** The first listing of its path in the directory, of a path that neither a newer directory lists
      nor `seen` has. */
  predicate Needed(dirs: seq<Dir>, i: nat, j: nat, seen: set<string>)
    requires i < |dirs| && j < |dirs[i].filePaths|
  {
    var p := dirs[i].filePaths[j];
    p !in seen && p !in dirs[i].filePaths[..j] && forall k :: i < k < |dirs| ==> p !in dirs[k].filePaths
  }

  predicate HasBackup(d: Dir, j: nat)
    requires j < |d.filePaths|
  {
    BackupName(d.filePaths[j], j) in d.backups
  }

  /** Of the newest `n` directories, each has the backups that a rollback takes from it. */
  predicate Restorable(dirs: seq<Dir>, n: nat, seen: set<string>)
    requires n <= |dirs|
  {
    forall i, j :: |dirs| - n <= i < |dirs| && 0 <= j < |dirs[i].filePaths| && Needed(dirs, i, j, seen) ==>
      HasBackup(dirs[i], j)
  }

  /** The first listing of its path from `i` on, of a path that `seen` does not have. */
  predicate NeededFrom(d: Dir, i: nat, j: nat, seen: set<string>)
    requires i <= j < |d.filePaths|
  {
    d.filePaths[j] !in seen && d.filePaths[j] !in d.filePaths[i..j]
  }

  predicate BackedFrom(d: Dir, i: nat, seen: set<string>) {
    forall j :: i <= j < |d.filePaths| && NeededFrom(d, i, j, seen) ==> HasBackup(d, j)
  }

  function SeenAt(d: Dir, i: nat, seen: set<string>): set<string>
    requires i < |d.filePaths|
  {
    if d.filePaths[i] in seen then seen else seen + {d.filePaths[i]}
  }

  lemma NeededLater(d: Dir, i: nat, j: nat, seen: set<string>)
    requires i < j < |d.filePaths|
    ensures NeededFrom(d, i, j, seen) == NeededFrom(d, i + 1, j, SeenAt(d, i, seen))
  {
    assert d.filePaths[i..j] == [d.filePaths[i]] + d.filePaths[i + 1..j];
  }

  lemma UnseenFirst(d: Dir, i: nat, seen: set<string>)
    requires i < |d.filePaths|
    ensures NeededFrom(d, i, i, seen) == (d.filePaths[i] !in seen)
    ensures UnseenComplete(d, i, seen) <==>
      (NeededFrom(d, i, i, seen) ==> HasBackup(d, i)) && UnseenComplete(d, i + 1, SeenAt(d, i, seen))
  {
    hide BackupName;
  }

  lemma {:induction false} UnseenExactly(d: Dir, i: nat, seen: set<string>)
    requires i <= |d.filePaths|
    ensures UnseenComplete(d, i, seen) <==> BackedFrom(d, i, seen)
    decreases |d.filePaths| - i
  {
    hide UnseenComplete, NeededFrom, HasBackup, SeenAt;
    if i < |d.filePaths| {
      UnseenFirst(d, i, seen);
      UnseenExactly(d, i + 1, SeenAt(d, i, seen));
      forall j | i < j < |d.filePaths| ensures NeededFrom(d, i, j, seen) == NeededFrom(d, i + 1, j, SeenAt(d, i, seen)) {
        NeededLater(d, i, j, seen);
      }
    } else {
      UnseenEnd(d, i, seen);
    }
  }

  lemma UnseenEnd(d: Dir, i: nat, seen: set<string>)
    requires i == |d.filePaths|
    ensures UnseenComplete(d, i, seen)
  {
  }

  lemma NeededInFront(dirs: seq<Dir>, i: nat, j: nat, seen: set<string>)
    requires i < |dirs| - 1 && j < |dirs[i].filePaths|
    ensures Needed(dirs, i, j, seen) ==
      Needed(dirs[..|dirs| - 1], i, j, seen + Elements(dirs[|dirs| - 1].filePaths))
  {
  }

  lemma NeededInLast(dirs: seq<Dir>, j: nat, seen: set<string>)
    requires dirs != [] && j < |dirs[|dirs| - 1].filePaths|
    ensures Needed(dirs, |dirs| - 1, j, seen) == NeededFrom(dirs[|dirs| - 1], 0, j, seen)
  {
    var d := dirs[|dirs| - 1];
    assert d.filePaths[0..j] == d.filePaths[..j];
  }

  lemma RestorableStep(dirs: seq<Dir>, n: nat, seen: set<string>)
    requires 0 < n <= |dirs|
    ensures var d, front := dirs[|dirs| - 1], dirs[..|dirs| - 1];
      Restorable(dirs, n, seen) <==> BackedFrom(d, 0, seen) && Restorable(front, n - 1, seen + Elements(d.filePaths))
  {
    hide Needed, NeededFrom, HasBackup, Elements;
    var last := |dirs| - 1;
    var d, front := dirs[last], dirs[..last];
    var more := seen + Elements(d.filePaths);
    assert forall i :: 0 <= i < last ==> front[i] == dirs[i];
    forall j | 0 <= j < |d.filePaths| ensures Needed(dirs, last, j, seen) == NeededFrom(d, 0, j, seen) {
      NeededInLast(dirs, j, seen);
    }
    forall i, j | 0 <= i < last && 0 <= j < |dirs[i].filePaths| ensures Needed(dirs, i, j, seen) == Needed(front, i, j, more) {
      NeededInFront(dirs, i, j, seen);
    }
  }

  lemma {:induction false} RoundsExactly(dirs: seq<Dir>, n: nat, seen: set<string>)
    requires n <= |dirs|
    ensures RoundsComplete(dirs, n, seen) <==> Restorable(dirs, n, seen)
    decreases n
  {
    hide *;
    if n > 0 {
      var d := dirs[|dirs| - 1];
      UnseenExactly(d, 0, seen);
      RoundsFirst(dirs, n, seen);
      RestorableStep(dirs, n, seen);
      RoundsExactly(dirs[..|dirs| - 1], n - 1, seen + Elements(d.filePaths));
    } else {
      NoRounds(dirs, seen);
    }
  }

  lemma NoRounds(dirs: seq<Dir>, seen: set<string>)
    ensures RoundsComplete(dirs, 0, seen) && Restorable(dirs, 0, seen)
  {
  }

  lemma RoundPops(s: State, d: Dir, seen: set<string>)
    requires s.stack != []
    ensures RestoredOne(s, d, seen).stack == if UnseenComplete(d, 0, seen) then s.stack[..|s.stack| - 1] else s.stack
  {
    var copied := Run(s, UnseenOps(d, 0, seen));
    CopiesKeepStack(s, d, 0, seen);
    DeletesKeepStack(copied, d.newFiles);
    hide Run, UnseenOps, UnseenComplete, DeleteOps;
  }

  lemma {:induction false} RoundsPop(s: State, n: nat, seen: set<string>)
    requires n <= |s.stack|
    ensures var t := Run(s, RestoreOps(s.stack, n, seen));
      t.stack <= s.stack && |t.stack| >= |s.stack| - n &&
      (|t.stack| == |s.stack| - n <==> RoundsComplete(s.stack, n, seen))
    decreases n
  {
    hide *;
    if n == 0 {
      RestoreNone(s.stack, seen);
      RunNone(s);
    } else {
      var d := s.stack[|s.stack| - 1];
      var u := RestoredOne(s, d, seen);
      RestoreStep(s, s.stack, n, seen);
      RoundsFirst(s.stack, n, seen);
      RoundPops(s, d, seen);
      if UnseenComplete(d, 0, seen) {
        RoundsPop(u, n - 1, seen + Elements(d.filePaths));
      }
    }
  }

  /** `Restore(workDir, n)` drops the newest `n` checkpoints, or all of them when there are fewer, if
      and only if it misses none of their backups; otherwise some of them stay. */
  lemma RollbackDropsExactly(s: State, n: nat)
    ensures var count := Min(n, |s.stack|); var t := Rollback(s, n);
      t.stack <= s.stack && |t.stack| >= |s.stack| - count &&
      (|t.stack| == |s.stack| - count <==> Restorable(s.stack, count, {}))
  {
    var count: nat := Min(n, |s.stack|);
    RoundsExactly(s.stack, count, {});
    RoundsPop(s, count, {});
    RollbackClamped(s, n);
    hide RoundsComplete, RestoreOps, Run, Restorable;
  }

  /** Asking for more checkpoints than there are is asking for all of them. */
  lemma RollbackClamped(s: State, n: nat)
    ensures Rollback(s, n) == Run(s, RestoreOps(s.stack, Min(n, |s.stack|), {})) == Rollback(s, Min(n, |s.stack|))
  {
    RestoreNone(s.stack, {});
  }

  /** Rolling back more checkpoints than there are leaves none, when their directories are as `Save`
      leaves them, and at every path what all of them together lead back to. */
  lemma RollbackOfAll(s: State, n: nat, p: string)
    requires n >= |s.stack| && AllSound(s.stack)
    ensures var t := Rollback(s, n);
      t.stack == [] && Get(t.files, p) == RolledMany(s.stack, |s.stack|, p, false, Get(s.files, p))
  {
    RollbackClamped(s, n);
    RollbackAt(s, |s.stack|, p);
    hide Rollback, Run, RestoreOps, RolledMany;
  }
}
