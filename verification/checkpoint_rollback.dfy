/** Rollback: finalised checkpoints form a stack, and rolling back several of them at once agrees
    with doing it one at a time exactly when the condition of `Agreeable` holds.
 */
module CheckpointRollback {
  import opened Common
  import opened Checkpoint
  import opened CheckpointUndo

  // ----- One path at a time -----

  /** The backup of a listed path (they are all equal). */
  function Snapshot(d: Dir, i: nat, p: string): string
    requires Complete(d) && i <= |d.filePaths| && p in d.filePaths[i..]
    decreases |d.filePaths| - i
  {
    if d.filePaths[i] == p then d.backups[BackupName(p, i)] else Snapshot(d, i + 1, p)
  }

  lemma {:induction false} SnapshotAny(d: Dir, i: nat, j: nat)
    requires Sound(d) && i <= j < |d.filePaths|
    ensures d.filePaths[j] in d.filePaths[i..] &&
      Snapshot(d, i, d.filePaths[j]) == d.backups[BackupName(d.filePaths[j], j)]
    decreases j - i
  {
    assert d.filePaths[j] == d.filePaths[i..][j - i];
    if d.filePaths[i] != d.filePaths[j] { SnapshotAny(d, i + 1, j); }
  }

  function Backup(d: Dir, p: string): string
    requires Complete(d) && p in d.filePaths
  {
    assert d.filePaths[0..] == d.filePaths;
    Snapshot(d, 0, p)
  }

  lemma {:induction false} CopiedListed(d: Dir, i: nat, f: map<string, string>, p: string)
    requires Sound(d) && Listed(d, i, p)
    ensures p in d.filePaths && Get(Copied(d, i, f), p) == Some(Backup(d, p))
    decreases |d.filePaths| - i
  {
    var q := d.filePaths[i];
    var g := f[q := d.backups[BackupName(q, i)]];
    if Listed(d, i + 1, p) {
      CopiedListed(d, i + 1, g, p);
    } else {
      assert q == p;
      CopiedGet(d, i + 1, g, g, p);
      SnapshotAny(d, 0, i);
    }
  }

  /** What undoing `d` leaves at one path. */
  function Restored(d: Dir, p: string, now: Option<string>): Option<string>
    requires Complete(d)
  {
    if p in d.newFiles then None else if p in d.filePaths then Some(Backup(d, p)) else now
  }

  lemma UndoAt(d: Dir, f: map<string, string>, p: string)
    requires Sound(d)
    ensures Get(Undo(d, f), p) == Restored(d, p, Get(f, p))
  {
    ListedIs(d, p);
    if p in d.filePaths { CopiedListed(d, 0, f, p); } else { CopiedGet(d, 0, f, f, p); }
    hide Copied, Backup;
  }

  // ----- One round of Restore -----

  /** What one round leaves at a path; `seen` tells whether a newer checkpoint has restored it. */
  function Rolled(d: Dir, p: string, seen: bool, now: Option<string>): Option<string>
    requires Complete(d)
  {
    if p in d.newFiles then None else if p in d.filePaths && !seen then Some(Backup(d, p)) else now
  }

  lemma {:induction false} UnseenRun(s: State, d: Dir, i: nat, seen: set<string>, p: string)
    requires Sound(d)
    ensures UnseenComplete(d, i, seen)
    ensures var t := Run(s, UnseenOps(d, i, seen));
      t == s.(files := t.files) && UnseenResult(d, i, seen, p, Get(s.files, p), Get(t.files, p))
    decreases |d.filePaths| - i
  {
    if i >= |d.filePaths| {
      RunNone(s);
    } else {
      var q := d.filePaths[i];
      if q in seen {
        UnseenRun(s, d, i + 1, seen, p);
      } else {
        var put := PutFile(q, d.backups[BackupName(q, i)]);
        RunThen(s, put, UnseenOps(d, i + 1, seen + {q}));
        SnapshotAny(d, 0, i);
        hide Backup, Run, Complete, Uniform, BackupName;
        UnseenRun(Apply(s, put), d, i + 1, seen + {q}, p);
      }
    }
  }

  predicate UnseenResult(d: Dir, i: nat, seen: set<string>, p: string, before: Option<string>, after: Option<string>)
    requires Complete(d)
  {
    if p !in seen && Listed(d, i, p) then p in d.filePaths && after == Some(Backup(d, p)) else after == before
  }

  lemma RoundAt(s: State, d: Dir, seen: set<string>, p: string)
    requires Sound(d)
    ensures UnseenComplete(d, 0, seen)
    ensures var t := RestoredOne(s, d, seen);
      Get(t.files, p) == Rolled(d, p, p in seen, Get(s.files, p)) && t == Apply(s, DropTop).(files := t.files)
  {
    UnseenRun(s, d, 0, seen, p);
    ListedIs(d, p);
    hide UnseenComplete, UnseenOps, Run, Sound, Backup;
    var copied := Run(s, UnseenOps(d, 0, seen));
    assert UnseenResult(d, 0, seen, p, Get(s.files, p), Get(copied.files, p));
    DeletesRun(copied, d.newFiles);
  }

  // ----- Several rounds -----

  ghost predicate AllSound(dirs: seq<Dir>) {
    forall i :: 0 <= i < |dirs| ==> Sound(dirs[i])
  }

  lemma AllSoundFront(dirs: seq<Dir>)
    requires AllSound(dirs) && dirs != []
    ensures AllSound(dirs[..|dirs| - 1])
  {
  }

  /** What `Restore` of the newest `n` checkpoints leaves at a path. */
  ghost function RolledMany(dirs: seq<Dir>, n: nat, p: string, seen: bool, now: Option<string>): Option<string>
    requires n <= |dirs| && AllSound(dirs)
    decreases n
  {
    if n == 0 then now
    else
      var d := dirs[|dirs| - 1];
      RolledMany(dirs[..|dirs| - 1], n - 1, p, seen || p in d.filePaths, Rolled(d, p, seen, now))
  }

  /** What undoing the newest `n` checkpoints, one after the other, leaves at a path. */
  ghost function UndoneMany(dirs: seq<Dir>, n: nat, p: string, now: Option<string>): Option<string>
    requires n <= |dirs| && AllSound(dirs)
    decreases n
  {
    if n == 0 then now
    else UndoneMany(dirs[..|dirs| - 1], n - 1, p, Restored(dirs[|dirs| - 1], p, now))
  }

  /** `n` checkpoints are gone; files aside, nothing else changed. */
  predicate Popped(s: State, t: State, n: nat) {
    n <= |s.stack| && t.stack == s.stack[..|s.stack| - n] && t.progress == s.progress && t.inFlight == s.inFlight
  }

  lemma PoppedOne(s: State, u: State)
    requires Popped(s, u, 1)
    ensures u.stack == s.stack[..|s.stack| - 1]
  {
  }

  lemma SeenMore(seen: set<string>, paths: seq<string>, p: string)
    ensures p in seen + Elements(paths) <==> p in seen || p in paths
  {
  }

  /** One round leaves the rest of the rounds to do. */
  lemma RoundStep(s: State, n: nat, seen: set<string>, p: string)
    requires 0 < n <= |s.stack| && AllSound(s.stack)
    ensures var d := s.stack[|s.stack| - 1];
      var t := RestoredOne(s, d, seen);
      Popped(s, t, 1) && AllSound(t.stack) &&
      Run(s, RestoreOps(s.stack, n, seen)) == Run(t, RestoreOps(t.stack, n - 1, seen + Elements(d.filePaths))) &&
      Get(t.files, p) == Rolled(d, p, p in seen, Get(s.files, p))
  {
    var d := s.stack[|s.stack| - 1];
    assert Sound(d);
    hide Run, RestoreOps, UnseenComplete, RestoredOne, Rolled, Sound, AllSound, Elements;
    AllSoundFront(s.stack);
    RestoreStep(s, s.stack, n, seen);
    RoundAt(s, d, seen, p);
  }

  lemma PoppedMore(s: State, u: State, t: State, n: nat)
    requires 0 < n <= |s.stack| && Popped(s, u, 1) && Popped(u, t, n - 1)
    ensures Popped(s, t, n)
  {
    var front := s.stack[..|s.stack| - 1];
    assert front[..|front| - (n - 1)] == s.stack[..|s.stack| - n];
  }

  lemma PoppedNone(s: State, p: string, seen: bool)
    requires AllSound(s.stack)
    ensures Popped(s, s, 0)
    ensures RolledMany(s.stack, 0, p, seen, Get(s.files, p)) == Get(s.files, p) == UndoneMany(s.stack, 0, p, Get(s.files, p))
  {
    assert s.stack[..|s.stack|] == s.stack;
  }

  lemma RolledFirst(dirs: seq<Dir>, n: nat, p: string, seen: bool, now: Option<string>)
    requires 0 < n <= |dirs| && AllSound(dirs)
    ensures var d, front := dirs[|dirs| - 1], dirs[..|dirs| - 1];
      AllSound(front) &&
      RolledMany(dirs, n, p, seen, now) == RolledMany(front, n - 1, p, seen || p in d.filePaths, Rolled(d, p, seen, now))
  {
  }

  lemma {:induction false} RestoreAt(s: State, n: nat, seen: set<string>, p: string)
    requires n <= |s.stack| && AllSound(s.stack)
    ensures var t := Run(s, RestoreOps(s.stack, n, seen));
      Get(t.files, p) == RolledMany(s.stack, n, p, p in seen, Get(s.files, p)) &&
      Popped(s, t, n)
    decreases n
  {
    hide *;
    if n == 0 {
      RunNone(s);
      RestoreNone(s.stack, seen);
      PoppedNone(s, p, p in seen);
    } else {
      var d := s.stack[|s.stack| - 1];
      var u := RestoredOne(s, d, seen);
      RoundStep(s, n, seen, p);
      PoppedOne(s, u);
      RolledFirst(s.stack, n, p, p in seen, Get(s.files, p));
      SeenMore(seen, d.filePaths, p);
      RestoreAt(u, n - 1, seen + Elements(d.filePaths), p);
      PoppedMore(s, u, Run(s, RestoreOps(s.stack, n, seen)), n);
    }
  }

  /** `Restore(workDir, n)`, finished. */
  function Rollback(s: State, n: int): State {
    Run(s, RollbackOps(s, n))
  }

  lemma RollbackAt(s: State, n: nat, p: string)
    requires n <= |s.stack| && AllSound(s.stack)
    ensures var t := Rollback(s, n);
      Get(t.files, p) == RolledMany(s.stack, n, p, false, Get(s.files, p)) &&
      Popped(s, t, n)
  {
    if n == 0 {
      RunNone(s);
      assert s.stack[..|s.stack|] == s.stack;
    } else {
      RestoreAt(s, n, {}, p);
    }
  }

  /** `Restore(workDir, 1)`, `k` times. */
  function RollbackEach(s: State, k: nat): State
    decreases k
  {
    if k == 0 then s else RollbackEach(Rollback(s, 1), k - 1)
  }

  lemma {:induction false} RollbackEachAt(s: State, k: nat, p: string)
    requires k <= |s.stack| && AllSound(s.stack)
    ensures var t := RollbackEach(s, k);
      Get(t.files, p) == UndoneMany(s.stack, k, p, Get(s.files, p)) &&
      Popped(s, t, k)
    decreases k
  {
    hide *;
    PoppedNone(s, p, false);
    EachFirst(s, k);
    if k > 0 {
      var u := Rollback(s, 1);
      RollbackOnce(s, p);
      PoppedOne(s, u);
      UndoneFirst(s.stack, k, p, Get(s.files, p));
      RollbackEachAt(u, k - 1, p);
      PoppedMore(s, u, RollbackEach(s, k), k);
    }
  }

  lemma EachFirst(s: State, k: nat)
    ensures RollbackEach(s, k) == if k == 0 then s else RollbackEach(Rollback(s, 1), k - 1)
  {
  }

  lemma UndoneFirst(dirs: seq<Dir>, n: nat, p: string, now: Option<string>)
    requires 0 < n <= |dirs| && AllSound(dirs)
    ensures var d, front := dirs[|dirs| - 1], dirs[..|dirs| - 1];
      AllSound(front) && UndoneMany(dirs, n, p, now) == UndoneMany(front, n - 1, p, Restored(d, p, now))
  {
  }

  lemma RollbackOnce(s: State, p: string)
    requires s.stack != [] && AllSound(s.stack)
    ensures var t := Rollback(s, 1);
      Get(t.files, p) == Restored(s.stack[|s.stack| - 1], p, Get(s.files, p)) &&
      Popped(s, t, 1) && AllSound(t.stack)
  {
    RollbackAt(s, 1, p);
    AllSoundFront(s.stack);
    hide Rollback, AllSound, Sound, Backup;
    var d := s.stack[|s.stack| - 1];
    assert RolledMany(s.stack, 1, p, false, Get(s.files, p)) == Rolled(d, p, false, Get(s.files, p));
  }

  // ----- When the two agree -----

  /** The newest of these checkpoints that lists `p` in FILEPATHS. */
  predicate NewestListing(dirs: seq<Dir>, h: nat, p: string) {
    h < |dirs| && p in dirs[h].filePaths && forall i :: h < i < |dirs| ==> p !in dirs[i].filePaths
  }

  /** The oldest one, from `lo` on, that records `p` at all. */
  predicate OldestRecord(dirs: seq<Dir>, lo: nat, o: nat, p: string) {
    lo <= o < |dirs| && p in Recorded(dirs[o]) && forall i :: lo <= i < o ==> p !in Recorded(dirs[i])
  }

  /** The oldest record says that `p` is new; or no later record does, up to the newest snapshot of
      `p`, and this snapshot equals the oldest one. */
  ghost predicate Agreeable(dirs: seq<Dir>, lo: nat, p: string)
    requires AllSound(dirs)
  {
    forall h: nat, o: nat :: NewestListing(dirs, h, p) && OldestRecord(dirs, lo, o, p) && o <= h && p !in dirs[o].newFiles ==>
      SameBackup(dirs, h, o, p) && forall i :: o <= i <= h ==> p !in dirs[i].newFiles
  }

  ghost predicate NewWithin(dirs: seq<Dir>, lo: int, hi: int, p: string) {
    exists i :: 0 <= i < |dirs| && lo <= i < hi && p in dirs[i].newFiles
  }

  lemma {:induction false} RolledOld(dirs: seq<Dir>, n: nat, p: string, now: Option<string>)
    requires n <= |dirs| && AllSound(dirs)
    ensures RolledMany(dirs, n, p, true, now) == if NewWithin(dirs, |dirs| - n, |dirs|, p) then None else now
    decreases n
  {
    if n > 0 {
      var d, rest := dirs[|dirs| - 1], dirs[..|dirs| - 1];
      RolledOld(rest, n - 1, p, Rolled(d, p, true, now));
      assert forall i :: 0 <= i < |rest| ==> rest[i] == dirs[i];
    }
  }

  lemma {:induction false} RolledFrom(dirs: seq<Dir>, n: nat, p: string, now: Option<string>, h: nat)
    requires n <= |dirs| && AllSound(dirs) && NewestListing(dirs, h, p) && h >= |dirs| - n
    ensures RolledMany(dirs, n, p, false, now) ==
      if NewWithin(dirs, |dirs| - n, h + 1, p) then None else Some(Backup(dirs[h], p))
    decreases n
  {
    var d, rest := dirs[|dirs| - 1], dirs[..|dirs| - 1];
    assert forall i :: 0 <= i < |rest| ==> rest[i] == dirs[i];
    if h == |dirs| - 1 {
      RolledOld(rest, n - 1, p, Rolled(d, p, false, now));
    } else {
      RolledFrom(rest, n - 1, p, Rolled(d, p, false, now), h);
    }
  }

  lemma {:induction false} RolledUnlisted(dirs: seq<Dir>, n: nat, p: string, now: Option<string>)
    requires n <= |dirs| && AllSound(dirs) && forall i :: |dirs| - n <= i < |dirs| ==> p !in dirs[i].filePaths
    ensures RolledMany(dirs, n, p, false, now) == if NewWithin(dirs, |dirs| - n, |dirs|, p) then None else now
    decreases n
  {
    if n > 0 {
      var d, rest := dirs[|dirs| - 1], dirs[..|dirs| - 1];
      assert forall i :: 0 <= i < |rest| ==> rest[i] == dirs[i];
      RolledUnlisted(rest, n - 1, p, Rolled(d, p, false, now));
    }
  }

  lemma {:induction false} UndoneFrom(dirs: seq<Dir>, n: nat, p: string, now: Option<string>, o: nat)
    requires n <= |dirs| && AllSound(dirs) && OldestRecord(dirs, |dirs| - n, o, p)
    ensures UndoneMany(dirs, n, p, now) == Restored(dirs[o], p, None)
    decreases n
  {
    var d, rest := dirs[|dirs| - 1], dirs[..|dirs| - 1];
    assert forall i :: 0 <= i < |rest| ==> rest[i] == dirs[i];
    if o == |dirs| - 1 {
      UndoneUnrecorded(rest, n - 1, p, Restored(d, p, now));
    } else {
      UndoneFrom(rest, n - 1, p, Restored(d, p, now), o);
    }
  }

  lemma {:induction false} UndoneUnrecorded(dirs: seq<Dir>, n: nat, p: string, now: Option<string>)
    requires n <= |dirs| && AllSound(dirs) && forall i :: |dirs| - n <= i < |dirs| ==> p !in Recorded(dirs[i])
    ensures UndoneMany(dirs, n, p, now) == now
    decreases n
  {
    if n > 0 {
      var d, rest := dirs[|dirs| - 1], dirs[..|dirs| - 1];
      assert forall i :: 0 <= i < |rest| ==> rest[i] == dirs[i];
      UndoneUnrecorded(rest, n - 1, p, Restored(d, p, now));
    }
  }

  /** At one path, `Restore(workDir, n)` gives what `n` single rollbacks give, exactly when the
      checkpoints are agreeable there. (When neither records the path, both leave it.) */
  lemma AgreesExactly(dirs: seq<Dir>, n: nat, p: string, now: Option<string>)
    requires n <= |dirs| && AllSound(dirs)
    ensures RolledMany(dirs, n, p, false, now) == UndoneMany(dirs, n, p, now) <==> Agreeable(dirs, |dirs| - n, p)
  {
    hide *;
    var lo := |dirs| - n;
    if o: nat :| OldestRecord(dirs, lo, o, p) {
      if h: nat :| NewestListing(dirs, h, p) && h >= lo {
        OrderedRecords(dirs, lo, o, h, p);
        AgreesListed(dirs, n, p, now, o, h);
      } else {
        NoListing(dirs, lo, p);
        AgreesNew(dirs, n, p, now, o);
      }
    } else {
      NoRecord(dirs, lo, p);
      AgreesUnrecorded(dirs, n, p, now);
    }
  }

  lemma AgreesListed(dirs: seq<Dir>, n: nat, p: string, now: Option<string>, o: nat, h: nat)
    requires n <= |dirs| && AllSound(dirs) && OldestRecord(dirs, |dirs| - n, o, p) && NewestListing(dirs, h, p) && o <= h
    ensures RolledMany(dirs, n, p, false, now) == UndoneMany(dirs, n, p, now) <==> Agreeable(dirs, |dirs| - n, p)
  {
    var lo := |dirs| - n;
    assert h < |dirs| && o >= lo;
    hide RolledMany, UndoneMany, AllSound, Agreeable, Backup, OldestRecord, NewestListing, NewWithin, NoneNew, Sound;
    UndoneFrom(dirs, n, p, now, o);
    RolledFrom(dirs, n, p, now, h);
    AgreeableAt(dirs, lo, h, o, p);
    NewFrom(dirs, lo, o, h, p);
  }

  lemma AgreesNew(dirs: seq<Dir>, n: nat, p: string, now: Option<string>, o: nat)
    requires n <= |dirs| && AllSound(dirs) && OldestRecord(dirs, |dirs| - n, o, p)
    requires forall i :: |dirs| - n <= i < |dirs| ==> p !in dirs[i].filePaths
    ensures RolledMany(dirs, n, p, false, now) == UndoneMany(dirs, n, p, now) && Agreeable(dirs, |dirs| - n, p)
  {
    UndoneFrom(dirs, n, p, now, o);
    RolledUnlisted(dirs, n, p, now);
    hide RolledMany, UndoneMany, AllSound, Backup, Sound;
    assert p in dirs[o].newFiles;
  }

  lemma AgreesUnrecorded(dirs: seq<Dir>, n: nat, p: string, now: Option<string>)
    requires n <= |dirs| && AllSound(dirs) && forall i :: |dirs| - n <= i < |dirs| ==> p !in Recorded(dirs[i])
    ensures RolledMany(dirs, n, p, false, now) == UndoneMany(dirs, n, p, now) && Agreeable(dirs, |dirs| - n, p)
  {
    UndoneUnrecorded(dirs, n, p, now);
    RolledUnlisted(dirs, n, p, now);
    hide RolledMany, UndoneMany, AllSound, Backup, Sound;
  }

  lemma OrderedRecords(dirs: seq<Dir>, lo: nat, o: nat, h: nat, p: string)
    requires OldestRecord(dirs, lo, o, p) && NewestListing(dirs, h, p) && h >= lo
    ensures o <= h
  {
    assert p in Recorded(dirs[h]);
  }

  lemma NoRecord(dirs: seq<Dir>, lo: nat, p: string)
    requires lo <= |dirs| && forall o: nat :: !OldestRecord(dirs, lo, o, p)
    ensures forall i :: lo <= i < |dirs| ==> p !in Recorded(dirs[i])
  {
    if i :| lo <= i < |dirs| && p in Recorded(dirs[i]) {
      var o := FirstRecord(dirs, lo, p);
    }
  }

  lemma NoListing(dirs: seq<Dir>, lo: nat, p: string)
    requires lo <= |dirs| && forall h: nat :: !(NewestListing(dirs, h, p) && h >= lo)
    ensures forall i :: lo <= i < |dirs| ==> p !in dirs[i].filePaths
  {
    if i :| lo <= i < |dirs| && p in dirs[i].filePaths {
      var h := LastListing(dirs, lo, p);
    }
  }

  lemma FirstRecord(dirs: seq<Dir>, lo: nat, p: string) returns (o: nat)
    requires exists i :: lo <= i < |dirs| && p in Recorded(dirs[i])
    ensures OldestRecord(dirs, lo, o, p)
  {
    o := lo;
    while p !in Recorded(dirs[o])
      invariant lo <= o < |dirs| && forall i :: lo <= i < o ==> p !in Recorded(dirs[i])
      decreases |dirs| - o
    {
      o := o + 1;
    }
  }

  lemma LastListing(dirs: seq<Dir>, lo: nat, p: string) returns (h: nat)
    requires exists i :: lo <= i < |dirs| && p in dirs[i].filePaths
    ensures NewestListing(dirs, h, p) && h >= lo
  {
    h := |dirs| - 1;
    while p !in dirs[h].filePaths
      decreases h
      invariant lo <= h < |dirs| && forall i :: h < i < |dirs| ==> p !in dirs[i].filePaths
    {
      h := h - 1;
    }
  }

  /** The newest listing and the oldest record are unique. */
  lemma AgreeableAt(dirs: seq<Dir>, lo: nat, h: nat, o: nat, p: string)
    requires AllSound(dirs) && NewestListing(dirs, h, p) && OldestRecord(dirs, lo, o, p) && o <= h
    ensures p in dirs[o].newFiles ==> Agreeable(dirs, lo, p)
    ensures p !in dirs[o].newFiles ==> p in dirs[o].filePaths
    ensures p !in dirs[o].newFiles ==>
      (Agreeable(dirs, lo, p) <==> SameBackup(dirs, h, o, p) && NoneNew(dirs, o, h, p))
  {
    forall h1: nat | NewestListing(dirs, h1, p) ensures h1 == h { NewestUnique(dirs, h, h1, p); }
    forall o1: nat | OldestRecord(dirs, lo, o1, p) ensures o1 == o { OldestUnique(dirs, lo, o, o1, p); }
    hide Backup, Sound;
  }

  lemma NewestUnique(dirs: seq<Dir>, h: nat, h1: nat, p: string)
    requires NewestListing(dirs, h, p) && NewestListing(dirs, h1, p)
    ensures h == h1
  {
  }

  lemma OldestUnique(dirs: seq<Dir>, lo: nat, o: nat, o1: nat, p: string)
    requires OldestRecord(dirs, lo, o, p) && OldestRecord(dirs, lo, o1, p)
    ensures o == o1
  {
  }

  predicate SameBackup(dirs: seq<Dir>, h: nat, o: nat, p: string)
    requires h < |dirs| && o < |dirs| && Complete(dirs[h]) && Complete(dirs[o]) && p in dirs[h].filePaths && p in dirs[o].filePaths
  {
    Backup(dirs[h], p) == Backup(dirs[o], p)
  }

  /** No checkpoint from `o` to `h` has the path as a new file. */
  predicate NoneNew(dirs: seq<Dir>, o: nat, h: nat, p: string)
    requires o <= h < |dirs|
  {
    forall i :: o <= i <= h ==> p !in dirs[i].newFiles
  }

  lemma NewFrom(dirs: seq<Dir>, lo: nat, o: nat, h: nat, p: string)
    requires OldestRecord(dirs, lo, o, p) && o <= h < |dirs|
    ensures NewWithin(dirs, lo, h + 1, p) <==> !NoneNew(dirs, o, h, p)
    ensures p in dirs[o].newFiles ==> NewWithin(dirs, lo, h + 1, p)
  {
    if NewWithin(dirs, lo, h + 1, p) {
      var i :| 0 <= i < |dirs| && lo <= i < h + 1 && p in dirs[i].newFiles;
      assert p in Recorded(dirs[i]);
    }
  }

  ghost predicate AllAgree(dirs: seq<Dir>, lo: nat)
    requires AllSound(dirs)
  {
    forall p: string :: Agreeable(dirs, lo, p)
  }

  /** `Restore(workDir, n)` leaves the files that `n` single rollbacks leave, exactly when the
      newest `n` checkpoints are agreeable at every path. */
  lemma RollbackAgreesExactly(s: State, n: nat)
    requires n <= |s.stack| && AllSound(s.stack)
    ensures Rollback(s, n).files == RollbackEach(s, n).files <==> AllAgree(s.stack, |s.stack| - n)
  {
    hide RollbackOps, Rollback, RollbackEach, Agreeable, AllSound, Popped;
    var t, u, dirs, lo := Rollback(s, n).files, RollbackEach(s, n).files, s.stack, |s.stack| - n;
    forall p: string ensures Get(t, p) == Get(u, p) <==> Agreeable(dirs, lo, p) {
      RollbackAt(s, n, p);
      RollbackEachAt(s, n, p);
      AgreesExactly(dirs, n, p, Get(s.files, p));
    }
    if AllAgree(dirs, lo) {
      forall p: string ensures Get(t, p) == Get(u, p) { assert Agreeable(dirs, lo, p); }
      MapsEqual(t, u);
    }
  }

  /** Checkpoints whose FILEPATHS share no path are agreeable. */
  lemma DisjointAgree(dirs: seq<Dir>, lo: nat, p: string)
    requires AllSound(dirs) && forall i, j :: lo <= i < j < |dirs| ==> !(p in dirs[i].filePaths && p in dirs[j].filePaths)
    ensures Agreeable(dirs, lo, p)
  {
    forall h: nat, o: nat | NewestListing(dirs, h, p) && OldestRecord(dirs, lo, o, p) && o <= h && p !in dirs[o].newFiles
      ensures o == h
    {
      assert p in dirs[o].filePaths;
    }
    hide Backup, Sound;
  }

  /** A path in both of the newest two checkpoints, with different contents: rolling both back at
      once gives the newer contents, one at a time the older. */
  lemma SharedPathDiffers(s: State, p: string)
    requires |s.stack| >= 2 && AllSound(s.stack)
    requires var older, newer := s.stack[|s.stack| - 2], s.stack[|s.stack| - 1];
      p in older.filePaths && p in newer.filePaths && p !in older.newFiles && p !in newer.newFiles
    ensures var older, newer := s.stack[|s.stack| - 2], s.stack[|s.stack| - 1];
      Get(Rollback(s, 2).files, p) == Some(Backup(newer, p)) && Get(RollbackEach(s, 2).files, p) == Some(Backup(older, p))
  {
    hide RolledMany, UndoneMany, Rollback, RollbackEach, Backup, Sound, Popped;
    var dirs, now := s.stack, Get(s.files, p);
    RollbackAt(s, 2, p);
    RollbackEachAt(s, 2, p);
    RolledFrom(dirs, 2, p, now, |dirs| - 1);
    assert !NewWithin(dirs, |dirs| - 2, |dirs|, p);
    UndoneFrom(dirs, 2, p, now, |dirs| - 2);
  }

  // ----- The stack, over every run -----

  /** Every directory, oldest first, the open one last. */
  function Dirs(s: State): seq<Dir> {
    s.stack + (if s.progress.Some? then [s.progress.value] else [])
  }

  type Files = map<string, string>

  /** The files when the next directory was opened, or now. */
  function Later(chain: seq<Files>, files: Files, i: nat): Files {
    if i + 1 < |chain| then chain[i + 1] else files
  }

  /** `chain[i]`, the files when directory `i` was opened, is what undoing it leads back to. */
  ghost predicate Stacked(dirs: seq<Dir>, chain: seq<Files>, files: Files) {
    |chain| == |dirs| && AllSound(dirs) &&
    forall i :: 0 <= i < |dirs| ==> chain[i] == Undo(dirs[i], Later(chain, files, i))
  }

  lemma StackedTop(dirs: seq<Dir>, chain: seq<Files>, files: Files)
    requires Stacked(dirs, chain, files) && dirs != []
    ensures var n := |dirs| - 1; Sound(dirs[n]) && chain[n] == Undo(dirs[n], files)
  {
  }

  lemma StackedReplace(dirs: seq<Dir>, d: Dir, chain: seq<Files>, files: Files, now: Files)
    requires Stacked(dirs, chain, files) && dirs != [] && Sound(d) && Undo(d, now) == chain[|dirs| - 1]
    ensures Stacked(dirs[..|dirs| - 1] + [d], chain, now)
  {
    hide Undo, Sound;
  }

  lemma StackedPush(dirs: seq<Dir>, d: Dir, chain: seq<Files>, files: Files)
    requires Stacked(dirs, chain, files) && Sound(d) && Undo(d, files) == files
    ensures Stacked(dirs + [d], chain + [files], files)
  {
    hide Undo, Sound;
  }

  lemma StackedPop(dirs: seq<Dir>, chain: seq<Files>, files: Files)
    requires Stacked(dirs, chain, files) && dirs != []
    ensures Stacked(dirs[..|dirs| - 1], chain[..|chain| - 1], chain[|chain| - 1])
  {
    hide Undo, Sound;
  }

  /** An event of the run, or one `Restore(workDir, 1)` stopped after `steps` steps. */
  datatype Action = Call(event: Event) | RollbackOne(steps: nat)

  function Act(s: State, a: Action): State {
    match a
    case Call(e) => Next(s, e)
    case RollbackOne(steps) => Run(s, Cut(RollbackOps(s, 1), steps))
  }

  /** Only files recorded in the newest directory are written, and rollback waits for recovery. */
  predicate Disciplined(s: State, a: Action) {
    match a
    case Call(Write(p, _)) => Dirs(s) != [] ==> p in Recorded(Dirs(s)[|Dirs(s)| - 1])
    case Call(_) => true
    case RollbackOne(_) => s.progress.None?
  }

  /** Opening a directory pushes the files of that moment; removing one pops. */
  function NextChain(chain: seq<Files>, s: State, t: State): seq<Files> {
    if |Dirs(t)| > |Dirs(s)| then chain + [s.files]
    else if |Dirs(t)| < |Dirs(s)| && chain != [] then chain[..|chain| - 1]
    else chain
  }

  ghost predicate Holds(s: State, chain: seq<Files>) {
    Stacked(Dirs(s), chain, s.files)
  }

  lemma FrontAndTop(s: State)
    requires s.progress.Some?
    ensures Dirs(s)[..|Dirs(s)| - 1] == s.stack && Dirs(s)[|Dirs(s)| - 1] == s.progress.value
    ensures Dirs(s) == s.stack + [s.progress.value]
  {
  }

  lemma SaveHolds(s: State, chain: seq<Files>, t: State)
    requires Holds(s, chain) && SameUndo(s, t)
    ensures Holds(t, NextChain(chain, s, t))
  {
    EmptySound();
    hide Stacked, Undo, Sound, Recorded;
    if s.progress.Some? {
      FrontAndTop(s);
      StackedTop(Dirs(s), chain, s.files);
      StackedLength(Dirs(s), chain, s.files);
      if t.progress.Some? {
        FrontAndTop(t);
        StackedReplace(Dirs(s), t.progress.value, chain, s.files, s.files);
      } else {
        assert Dirs(t) == s.stack;
        StackedPop(Dirs(s), chain, s.files);
      }
    } else {
      assert Dirs(s) == s.stack;
      if t.progress.Some? {
        FrontAndTop(t);
        StackedPush(Dirs(s), t.progress.value, chain, s.files);
      } else {
        assert Dirs(t) == s.stack;
      }
    }
  }

  lemma StackedLength(dirs: seq<Dir>, chain: seq<Files>, files: Files)
    requires Stacked(dirs, chain, files)
    ensures |chain| == |dirs|
  {
  }

  /** Changing files recorded in the newest directory only. */
  lemma FilesHold(s: State, chain: seq<Files>, t: State)
    requires Holds(s, chain) && Dirs(t) == Dirs(s)
    requires Dirs(s) != [] ==> SameElsewhere(Dirs(s)[|Dirs(s)| - 1], t.files, s.files)
    ensures Holds(t, NextChain(chain, s, t))
  {
    var dirs := Dirs(s);
    if dirs != [] {
      var d := dirs[|dirs| - 1];
      StackedTop(dirs, chain, s.files);
      UndoSame(d, t.files, s.files);
      hide Stacked, Undo, Sound, Recorded, Dirs, SameElsewhere;
      StackedReplace(dirs, d, chain, s.files, t.files);
      assert dirs[..|dirs| - 1] + [d] == dirs;
    }
  }

  /** Undoing and removing the newest directory. */
  lemma UndoneHolds(s: State, chain: seq<Files>, t: State)
    requires Holds(s, chain) && Dirs(s) != []
    requires var dirs := Dirs(s); Dirs(t) == dirs[..|dirs| - 1] && t.files == Undo(dirs[|dirs| - 1], s.files)
    ensures Holds(t, NextChain(chain, s, t))
  {
    hide Stacked, Undo, Sound, Recorded, Dirs;
    StackedTop(Dirs(s), chain, s.files);
    StackedLength(Dirs(s), chain, s.files);
    StackedPop(Dirs(s), chain, s.files);
  }

  lemma RestoreHolds(s: State, chain: seq<Files>, u: State, n: nat)
    requires Holds(s, chain) && s.progress.Some? && u == s.(inFlight := u.inFlight)
    ensures var t := Run(u, Cut(RestoreDirOps(s.progress.value), n)); Holds(t, NextChain(chain, s, t))
  {
    var d := s.progress.value;
    var ops := RestoreDirOps(d);
    FrontAndTop(s);
    StackedTop(Dirs(s), chain, s.files);
    hide Run, Cut, Holds, Stacked, RestoreDirOps, NextChain, Undo;
    var t := Run(u, Cut(ops, n));
    if n < |ops| {
      RestoreDirCut(u, d, n);
      FilesHold(s, chain, t);
    } else {
      CutIs(ops, n);
      RestoreDirRun(u, d);
      assert Dirs(t) == s.stack;
      UndoneHolds(s, chain, t);
    }
  }

  lemma MarkCleanHolds(s: State, chain: seq<Files>, n: nat)
    requires Holds(s, chain)
    ensures var t := Run(s, Cut(MarkCleanOps(s), n)); Holds(t, NextChain(chain, s, t))
  {
    var t := Run(s, Cut(MarkCleanOps(s), n));
    if n == 0 {
      RunNone(s);
    } else if n == 1 || !(s.inFlight && s.progress.Some?) {
      assert Cut(MarkCleanOps(s), n) == [Unmark];
      RunOne(s, Unmark);
    } else {
      assert Cut(MarkCleanOps(s), n) == [Unmark] + [Promote];
      RunThen(s, Unmark, [Promote]);
      RunOne(Apply(s, Unmark), Promote);
    }
    hide Stacked, Run, Recorded, Cut;
    assert Dirs(t) == Dirs(s) && t.files == s.files;
  }

  lemma InFlightHolds(s: State, chain: seq<Files>, n: nat)
    requires Holds(s, chain)
    ensures var t := Run(s, Cut(RestoreInFlightOps(s), n)); Holds(t, NextChain(chain, s, t))
  {
    hide Stacked, RestoreDirOps;
    if n == 0 {
      RunNone(s);
    } else if s.inFlight && s.progress.Some? {
      var ops := RestoreDirOps(s.progress.value);
      assert Cut([Unmark] + ops, n) == [Unmark] + Cut(ops, n - 1);
      RunThen(s, Unmark, Cut(ops, n - 1));
      RestoreHolds(s, chain, Apply(s, Unmark), n - 1);
    } else {
      assert Cut(RestoreInFlightOps(s), n) == [Unmark];
      RunOne(s, Unmark);
    }
  }

  lemma {:induction false} UnseenWithin(d: Dir, i: nat, seen: set<string>)
    ensures WithinRecorded(d, UnseenOps(d, i, seen))
    decreases |d.filePaths| - i
  {
    if i < |d.filePaths| {
      assert d.filePaths[i] in Recorded(d);
      UnseenWithin(d, i + 1, seen);
      UnseenWithin(d, i + 1, seen + {d.filePaths[i]});
    }
  }

  lemma {:induction false} UnseenIsComplete(d: Dir, i: nat, seen: set<string>)
    requires Complete(d)
    ensures UnseenComplete(d, i, seen)
    decreases |d.filePaths| - i
  {
    if i < |d.filePaths| {
      UnseenIsComplete(d, i + 1, seen);
      UnseenIsComplete(d, i + 1, seen + {d.filePaths[i]});
    }
  }

  lemma OneRoundOps(s: State)
    requires s.stack != [] && Sound(s.stack[|s.stack| - 1])
    ensures var d := s.stack[|s.stack| - 1];
      RollbackOps(s, 1) == UnseenOps(d, 0, {}) + DeleteOps(d.newFiles) + [DropTop]
  {
    var d := s.stack[|s.stack| - 1];
    UnseenIsComplete(d, 0, {});
    RestoreNone(s.stack[..|s.stack| - 1], {} + Elements(d.filePaths));
    assert [DropTop] + [] == [DropTop];
    Assoc(UnseenOps(d, 0, {}), DeleteOps(d.newFiles), [DropTop]);
  }

  /** A single rollback stopped before its end. */
  lemma RollbackCut(s: State, n: nat)
    requires s.stack != [] && Sound(s.stack[|s.stack| - 1]) && n < |RollbackOps(s, 1)|
    ensures var t := Run(s, Cut(RollbackOps(s, 1), n));
      t == s.(files := t.files) && SameElsewhere(s.stack[|s.stack| - 1], s.files, t.files)
  {
    var d := s.stack[|s.stack| - 1];
    var within := UnseenOps(d, 0, {}) + DeleteOps(d.newFiles);
    OneRoundOps(s);
    UnseenWithin(d, 0, {});
    DeletesWithin(d, d.newFiles);
    var ops := Cut(RollbackOps(s, 1), n);
    hide Run, UnseenOps, DeleteOps, Recorded, RollbackOps, Sound;
    assert ops == within[..n];
    assert forall op <- ops :: op in UnseenOps(d, 0, {}) || op in DeleteOps(d.newFiles);
    WithinRun(s, d, ops);
  }

  /** A single rollback that finishes. */
  lemma RollbackUndoes(s: State)
    requires s.stack != [] && AllSound(s.stack)
    ensures Rollback(s, 1) == s.(files := Undo(s.stack[|s.stack| - 1], s.files), stack := s.stack[..|s.stack| - 1])
  {
    var d, t := s.stack[|s.stack| - 1], Rollback(s, 1);
    assert Sound(d);
    hide Rollback, AllSound, Undo, Sound, Restored;
    forall p: string ensures Get(t.files, p) == Get(Undo(d, s.files), p) {
      RollbackOnce(s, p);
      UndoAt(d, s.files, p);
    }
    RollbackOnce(s, "");
    MapsEqual(t.files, Undo(d, s.files));
  }

  lemma RollbackHolds(s: State, chain: seq<Files>, n: nat)
    requires Holds(s, chain) && s.progress == None
    ensures var t := Run(s, Cut(RollbackOps(s, 1), n)); Holds(t, NextChain(chain, s, t))
  {
    assert Dirs(s) == s.stack;
    var t := Run(s, Cut(RollbackOps(s, 1), n));
    if s.stack == [] {
      RestoreNone([], {});
      assert RollbackOps(s, 1) == [];
      CutIs([], n);
      RunNone(s);
    } else {
      assert AllSound(s.stack);
      var d := s.stack[|s.stack| - 1];
      assert Sound(d);
      hide Run, Holds, Stacked, AllSound, Sound, RollbackOps, NextChain, Cut, Undo;
      CutIs(RollbackOps(s, 1), n);
      if n < |RollbackOps(s, 1)| {
        RollbackCut(s, n);
        assert Dirs(t) == Dirs(s);
        FilesHold(s, chain, t);
      } else {
        RollbackUndoes(s);
        assert Dirs(t) == t.stack;
        UndoneHolds(s, chain, t);
      }
    }
  }

  lemma ActHolds(s: State, chain: seq<Files>, a: Action)
    requires Holds(s, chain) && Disciplined(s, a)
    ensures var t := Act(s, a); Holds(t, NextChain(chain, s, t))
  {
    var t := Act(s, a);
    if a.RollbackOne? { RollbackHolds(s, chain, a.steps); }
    else if a.event.Save? {
      OpenIsSound(s, chain);
      hide Holds, Run, Cut, SaveOps, SameUndo, Sound, NextChain;
      SaveKeepsUndo(s, a.event.paths, a.event.steps);
      SaveHolds(s, chain, t);
    }
    else if a.event.Write? || a.event.Crash? { hide Holds, NextChain, Recorded; assert Dirs(t) == Dirs(s); FilesHold(s, chain, t); }
    else if a.event.MarkClean? { MarkCleanHolds(s, chain, a.event.steps); }
    else if a.event.RestoreInFlight? { InFlightHolds(s, chain, a.event.steps); }
    else if s.progress.Some? { RestoreHolds(s, chain, s, a.event.steps); }
    else {
      CutIs([], a.event.steps);
      RunNone(s);
    }
  }

  lemma OpenIsSound(s: State, chain: seq<Files>)
    requires Holds(s, chain)
    ensures Sound(Opened(s))
  {
    EmptySound();
    if s.progress.Some? { StackedTop(Dirs(s), chain, s.files); }
  }

  datatype Record = Record(s: State, chain: seq<Files>)

  function Unfold(r: Record, actions: seq<Action>): Record
    decreases |actions|
  {
    if actions == [] then r
    else
      var t := Act(r.s, actions[0]);
      Unfold(Record(t, NextChain(r.chain, r.s, t)), actions[1..])
  }

  predicate AllDisciplined(s: State, actions: seq<Action>)
    decreases |actions|
  {
    actions == [] || (Disciplined(s, actions[0]) && AllDisciplined(Act(s, actions[0]), actions[1..]))
  }

  lemma {:induction false} UnfoldHolds(r: Record, actions: seq<Action>)
    requires Holds(r.s, r.chain) && AllDisciplined(r.s, actions)
    ensures var e := Unfold(r, actions); Holds(e.s, e.chain)
    decreases |actions|
  {
    if actions != [] {
      var t := Act(r.s, actions[0]);
      ActHolds(r.s, r.chain, actions[0]);
      hide Holds, Act, Disciplined, NextChain;
      UnfoldHolds(Record(t, NextChain(r.chain, r.s, t)), actions[1..]);
    }
  }

  lemma DownStep(s: State, chain: seq<Files>)
    requires Holds(s, chain) && s.progress == None && s.stack != []
    ensures |chain| == |s.stack|
    ensures var t := Rollback(s, 1);
      Holds(t, chain[..|chain| - 1]) && t.progress == None && t.files == chain[|chain| - 1] &&
      t.stack == s.stack[..|s.stack| - 1]
  {
    assert Dirs(s) == s.stack;
    StackedTop(s.stack, chain, s.files);
    StackedLength(s.stack, chain, s.files);
    assert AllSound(s.stack);
    StackedPop(s.stack, chain, s.files);
    hide Stacked, AllSound, Undo, Rollback, Sound;
    RollbackUndoes(s);
    assert Dirs(Rollback(s, 1)) == s.stack[..|s.stack| - 1];
  }

  lemma FrontOfFront<T>(a: seq<T>, k: nat)
    requires 1 < k <= |a|
    ensures var front := a[..|a| - 1]; front[..|front| - (k - 1)] == a[..|a| - k] && front[|front| - (k - 1)] == a[|a| - k]
  {
  }

  lemma {:induction false} RollbackDown(s: State, chain: seq<Files>, k: nat)
    requires Holds(s, chain) && s.progress == None && 0 < k <= |s.stack|
    ensures |chain| == |s.stack|
    ensures var t := RollbackEach(s, k); t.files == chain[|chain| - k] && t.stack == s.stack[..|s.stack| - k]
    decreases k
  {
    hide *;
    var t := Rollback(s, 1);
    DownStep(s, chain);
    EachFirst(s, k);
    if k == 1 {
      EachFirst(t, 0);
    } else {
      FrontOfFront(chain, k);
      FrontOfFront(s.stack, k);
      RollbackDown(t, chain[..|chain| - 1], k - 1);
    }
  }

  lemma StartHolds(s: State)
    requires s.progress == None && s.stack == []
    ensures Holds(s, [])
  {
  }

  lemma HoldsLength(s: State, chain: seq<Files>)
    requires Holds(s, chain)
    ensures |chain| == |Dirs(s)|
  {
    StackedLength(Dirs(s), chain, s.files);
  }

  /** Over every disciplined run from an empty log, each call of it stopped anywhere: `k` single
      rollbacks bring all files back to what they were when the `k`-th newest checkpoint was
      opened, and drop those `k` checkpoints. */
  lemma RollbackIsStack(s0: State, actions: seq<Action>, k: nat)
    requires s0.progress == None && s0.stack == [] && AllDisciplined(s0, actions)
    ensures var e := Unfold(Record(s0, []), actions);
      |e.chain| == |Dirs(e.s)| &&
      (e.s.progress == None && 0 < k <= |e.s.stack| ==>
        var t := RollbackEach(e.s, k);
        t.files == e.chain[|e.chain| - k] && t.stack == e.s.stack[..|e.s.stack| - k])
  {
    hide *;
    var e := Unfold(Record(s0, []), actions);
    StartHolds(s0);
    UnfoldHolds(Record(s0, []), actions);
    HoldsLength(e.s, e.chain);
    if e.s.progress == None && 0 < k <= |e.s.stack| { RollbackDown(e.s, e.chain, k); }
  }
}
