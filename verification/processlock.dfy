/** The advisory-lock protocol of `internal/processlock/processlock.go`.

    Any number of processes run `AcquireDirs`, hold their locks and run `Release`; the steps of
    different processes interleave freely and a process can crash between any two of its steps.
    The file system maps a lock path to an inode, the kernel maps an inode to the one process
    that owns a POSIX record lock on it, and closing any descriptor of an inode drops the lock
    its process has there.
 */
module ProcessLock {
  import opened Paths

  type Path = string
  type Inode = nat
  type Pid = nat

  /** One element of `Held.locks`: an open descriptor (named by its inode) and the path. */
  datatype Lock = Lock(path: Path, inode: Inode)

  /** Where a process stands. The inode in a constructor is the descriptor `f` of `tryAcquire`. */
  datatype Pc =
    | Opening              // before `OpenFile` of todo[0]; with todo == [] every lock is held
    | Opened(inode: Inode) // before `fcntlExclusive`
    | Locked(inode: Inode) // before the inode recheck
    | Stale(inode: Inode)  // the recheck failed: before `Close` and another turn of the loop
    | Refused(inode: Inode) // an error: before `Close` and `Release`
    | Releasing(failed: bool) // in `Release`, before `Remove` of held[0]
    | Unlinked(failed: bool)  // in `Release`, before `Close` of held[0]
    | Ended(failed: bool)
    | Crashed

  /** `request` is the argument of `AcquireDirs`, `todo` what is left of it, `held` is `h.locks`.
      The last three fields only measure: the turns of the retry loop taken for todo[0], and how
      often other processes had unlinked todo[0] when it was first and when it was last opened. */
  datatype Process = Process(
    pc: Pc, request: seq<Path>, todo: seq<Path>, held: seq<Lock>,
    retries: nat, firstOpen: nat, lastOpen: nat)

  datatype Unlink = Unlink(path: Path, who: Pid)

  datatype World = World(
    names: map<Path, Inode>, owner: map<Inode, Pid>, procs: map<Pid, Process>, unlinks: seq<Unlink>)

  /** The primitive steps. `Open` carries the inode number the kernel picks for a new file. */
  datatype Action =
    | Start(dirs: seq<string>) | Open(fileNo: Inode) | OpenError
    | LockOk | LockRefused | Stat | StatError | CloseStale | CloseRefused
    | BeginRelease | UnlinkHeld | CloseHeld | Crash

  datatype Event = Event(pid: Pid, action: Action)

  // ----- Descriptors, lock paths and the unlink count -----

  const LockName := ".certbot.lock"

  /** The lock file of each directory that is not the empty string. */
  function LockPaths(dirs: seq<string>): seq<Path> {
    if dirs == [] then []
    else (if dirs[0] == "" then [] else [Join(dirs[0], LockName)]) + LockPaths(dirs[1..])
  }

  predicate Distinct<T(==)>(s: seq<T>) {
    forall i, j :: 0 <= i < j < |s| ==> s[i] != s[j]
  }

  predicate Alive(p: Process) {
    !p.pc.Ended? && !p.pc.Crashed?
  }

  predicate HasFile(pc: Pc) {
    pc.Opened? || pc.Locked? || pc.Stale? || pc.Refused?
  }

  /** The descriptors a process has open. */
  function Files(p: Process): set<Inode> {
    if !Alive(p) then {}
    else (set l <- p.held :: l.inode) + (if HasFile(p.pc) then {p.pc.inode} else {})
  }

  /** How often a process other than `pid` has unlinked `path`. */
  function OthersUnlinked(log: seq<Unlink>, path: Path, pid: Pid): nat {
    if log == [] then 0
    else
      var last := log[|log| - 1];
      OthersUnlinked(log[..|log| - 1], path, pid) + (if last.path == path && last.who != pid then 1 else 0)
  }

  // ----- The step system -----

  predicate Enabled(w: World, e: Event) {
    if e.action.Start? then e.pid !in w.procs || !Alive(w.procs[e.pid])
    else e.pid in w.procs && Alive(w.procs[e.pid]) && CanStep(w, e.pid, w.procs[e.pid], e.action)
  }

  predicate CanStep(w: World, pid: Pid, p: Process, action: Action) {
    match action
    case Start(_) => false
    case Open(fileNo) => p.pc.Opening? && p.todo != [] && (p.todo[0] !in w.names ==> Unused(w, fileNo))
    case OpenError => p.pc.Opening? && p.todo != []
    case LockOk => p.pc.Opened? && (p.pc.inode in w.owner ==> w.owner[p.pc.inode] == pid)
    case LockRefused => p.pc.Opened?
    case Stat => p.pc.Locked? && p.todo != []
    case StatError => p.pc.Locked?
    case CloseStale => p.pc.Stale?
    case CloseRefused => p.pc.Refused?
    case BeginRelease => p.pc.Opening? && p.todo == []
    case UnlinkHeld => p.pc.Releasing? && p.held != []
    case CloseHeld => p.pc.Unlinked? && p.held != []
    case Crash => true
  }

  /** An inode number is given out only when no path and no descriptor refers to it. */
  predicate Unused(w: World, i: Inode) {
    (forall path <- w.names :: w.names[path] != i) &&
    (forall q <- w.procs :: i !in Files(w.procs[q]))
  }

  /** Closing a descriptor drops every lock its process has on that inode. */
  function DropLock(owner: map<Inode, Pid>, pid: Pid, inode: Inode): map<Inode, Pid> {
    if inode in owner && owner[inode] == pid then owner - {inode} else owner
  }

  function NextRelease(held: seq<Lock>, failed: bool): Pc {
    if held == [] then Ended(failed) else Releasing(failed)
  }

  function Apply(w: World, e: Event): World
    requires Enabled(w, e)
  {
    if e.action.Start? then
      var paths := LockPaths(e.action.dirs);
      w.(procs := w.procs[e.pid := Process(Opening, paths, paths, [], 0, 0, 0)])
    else
      Step(w, e.pid, w.procs[e.pid], e.action)
  }

  function Step(w: World, pid: Pid, p: Process, action: Action): World
    requires CanStep(w, pid, p, action)
  {
    match action
    case Open(fileNo) =>
        var path := p.todo[0];
        var inode := if path in w.names then w.names[path] else fileNo;
        var count := OthersUnlinked(w.unlinks, path, pid);
        w.(names := w.names[path := inode],
           procs := w.procs[pid := p.(pc := Opened(inode), lastOpen := count,
                                      firstOpen := if p.retries == 0 then count else p.firstOpen)])
    case OpenError => w.(procs := w.procs[pid := p.(pc := NextRelease(p.held, true))])
    case LockOk =>
        w.(owner := w.owner[p.pc.inode := pid], procs := w.procs[pid := p.(pc := Locked(p.pc.inode))])
    case LockRefused => w.(procs := w.procs[pid := p.(pc := Refused(p.pc.inode))])
    case Stat =>
        var path := p.todo[0];
        if path in w.names && w.names[path] == p.pc.inode then
          w.(procs := w.procs[pid := p.(pc := Opening, todo := p.todo[1..], retries := 0,
                                        held := p.held + [Lock(path, p.pc.inode)])])
        else
          w.(procs := w.procs[pid := p.(pc := Stale(p.pc.inode))])
    case StatError => w.(procs := w.procs[pid := p.(pc := Refused(p.pc.inode))])
    case CloseStale =>
        w.(owner := DropLock(w.owner, pid, p.pc.inode),
           procs := w.procs[pid := p.(pc := Opening, retries := p.retries + 1)])
    case CloseRefused =>
        w.(owner := DropLock(w.owner, pid, p.pc.inode),
           procs := w.procs[pid := p.(pc := NextRelease(p.held, true))])
    case BeginRelease => w.(procs := w.procs[pid := p.(pc := NextRelease(p.held, false))])
    case UnlinkHeld =>
        var path := p.held[0].path;
        w.(names := w.names - {path},
           unlinks := if path in w.names then w.unlinks + [Unlink(path, pid)] else w.unlinks,
           procs := w.procs[pid := p.(pc := Unlinked(p.pc.failed))])
    case CloseHeld =>
        w.(owner := DropLock(w.owner, pid, p.held[0].inode),
           procs := w.procs[pid := p.(held := p.held[1..], pc := NextRelease(p.held[1..], p.pc.failed))])
    case Crash =>
        w.(owner := map i | i in w.owner && w.owner[i] != pid :: w.owner[i],
           procs := w.procs[pid := p.(pc := Crashed)])
  }

  /** A run: every event is enabled when it happens. */
  predicate Legal(w: World, run: seq<Event>)
    decreases |run|
  {
    run == [] || (Enabled(w, run[0]) && Legal(Apply(w, run[0]), run[1..]))
  }

  function Exec(w: World, run: seq<Event>): World
    requires Legal(w, run)
    decreases |run|
  {
    if run == [] then w else Exec(Apply(w, run[0]), run[1..])
  }

  /** The world before any process starts: lock files of crashed runs may lie around. */
  ghost predicate Initial(w: World) {
    w.owner == map[] && w.procs == map[] && w.unlinks == [] &&
    (forall a, b :: a in w.names && b in w.names && w.names[a] == w.names[b] ==> a == b)
  }

  /** Every process asks for pairwise different lock paths. */
  predicate DistinctRequests(run: seq<Event>) {
    forall e <- run :: e.action.Start? ==> Distinct(LockPaths(e.action.dirs))
  }

  // ----- What is proved about a world -----

  /** Between the return of `tryAcquire` for lock `k` and its unlink. */
  predicate Holds(w: World, pid: Pid, k: nat) {
    pid in w.procs && Alive(w.procs[pid]) && k < |w.procs[pid].held| &&
    (w.procs[pid].pc.Unlinked? ==> k > 0)
  }

  ghost predicate MutualExclusion(w: World) {
    forall p, q, i: nat, j: nat ::
      (Holds(w, p, i) && Holds(w, q, j) && w.procs[p].held[i].path == w.procs[q].held[j].path) ==>
      p == q && i == j
  }

  /** A lock that is held is owned on its inode, and its path still names that inode. */
  ghost predicate HoldersOwn(w: World) {
    forall pid, k: nat :: Holds(w, pid, k) ==>
      var l := w.procs[pid].held[k];
      l.path in w.names && w.names[l.path] == l.inode && l.inode in w.owner && w.owner[l.inode] == pid
  }

  ghost predicate NamesInjective(w: World) {
    forall a, b :: a in w.names && b in w.names && w.names[a] == w.names[b] ==> a == b
  }

  ghost predicate OwnersHaveFiles(w: World) {
    forall i <- w.owner :: w.owner[i] in w.procs && i in Files(w.procs[w.owner[i]])
  }

  function HeldPaths(held: seq<Lock>): seq<Path> {
    seq(|held|, i requires 0 <= i < |held| => held[i].path)
  }

  predicate Acquiring(pc: Pc) {
    pc.Opening? || HasFile(pc)
  }

  /** What one process knows about itself. */
  ghost predicate ProcessOk(w: World, pid: Pid)
    requires pid in w.procs
  {
    var p := w.procs[pid];
    Distinct(p.request) &&
    (Ended(true) == p.pc || Ended(false) == p.pc ==> p.held == []) &&
    (Alive(p) ==>
      Distinct(HeldPaths(p.held)) &&
      (forall i, j :: 0 <= i < j < |p.held| ==> p.held[i].inode != p.held[j].inode) &&
      (Acquiring(p.pc) ==> HeldPaths(p.held) + p.todo == p.request) &&
      ((p.pc.Releasing? || p.pc.Unlinked?) ==> p.held != []) &&
      (HasFile(p.pc) ==>
         p.todo != [] &&
         (forall k :: 0 <= k < |p.held| ==> p.held[k].inode != p.pc.inode)) &&
      (p.pc.Locked? ==> p.pc.inode in w.owner && w.owner[p.pc.inode] == pid))
  }

  /** The retry loop pays for each turn with an unlink some other process did since the open. */
  ghost predicate RetriesPaid(w: World, pid: Pid)
    requires pid in w.procs
  {
    var p := w.procs[pid];
    Alive(p) && Acquiring(p.pc) && p.todo != [] ==>
      var count := OthersUnlinked(w.unlinks, p.todo[0], pid);
      (p.pc.Opening? ==> p.retries > 0 ==> p.firstOpen + p.retries <= count) &&
      (HasFile(p.pc) ==> p.firstOpen + p.retries <= p.lastOpen <= count) &&
      ((p.pc.Opened? || p.pc.Locked?) && p.lastOpen == count ==>
         p.todo[0] in w.names && w.names[p.todo[0]] == p.pc.inode) &&
      (p.pc.Stale? ==> p.lastOpen < count)
  }

  ghost predicate Invariant(w: World) {
    HoldersOwn(w) && NamesInjective(w) && OwnersHaveFiles(w) &&
    (forall pid <- w.procs :: ProcessOk(w, pid)) &&
    (forall pid <- w.procs :: RetriesPaid(w, pid))
  }

  // ----- The invariant is kept by every step -----

  lemma CountAppend(log: seq<Unlink>, u: Unlink, path: Path, pid: Pid)
    ensures OthersUnlinked(log + [u], path, pid) ==
            OthersUnlinked(log, path, pid) + (if u.path == path && u.who != pid then 1 else 0)
  {
    assert (log + [u])[..|log|] == log;
  }

  /** The path a step takes out of the file system, if any. */
  function Victim(w: World, e: Event): set<Path>
    requires Enabled(w, e)
  {
    if e.action.UnlinkHeld? && w.procs[e.pid].held[0].path in w.names then {w.procs[e.pid].held[0].path} else {}
  }

  /** What a step of `pid` leaves alone: other processes, their locks, and all names but the victim. */
  ghost predicate Frame(w: World, w': World, pid: Pid, victim: set<Path>) {
    (forall q :: q != pid ==> (q in w.procs <==> q in w'.procs)) &&
    (forall q :: q != pid && q in w.procs ==> w'.procs[q] == w.procs[q]) &&
    (forall i :: i in w.owner && w.owner[i] != pid ==> i in w'.owner && w'.owner[i] == w.owner[i]) &&
    (forall i :: i in w'.owner && w'.owner[i] != pid ==> i in w.owner && w.owner[i] == w'.owner[i]) &&
    (forall a :: a in w.names && a !in victim ==> a in w'.names && w'.names[a] == w.names[a]) &&
    (if victim == {} then w'.unlinks == w.unlinks
     else exists a :: victim == {a} && w'.unlinks == w.unlinks + [Unlink(a, pid)])
  }

  lemma StepFrame(w: World, e: Event)
    requires Enabled(w, e)
    ensures Frame(w, Apply(w, e), e.pid, Victim(w, e))
  {
    if e.action.UnlinkHeld? || e.action.Open? { NameStepFrame(w, e); }
    else if e.action.Start? {}
    else if e.action.CloseHeld? || e.action.CloseStale? || e.action.CloseRefused? { CloseStepFrame(w, e); }
    else if e.action.LockOk? || e.action.Crash? { OwnerStepFrame(w, e); }
    else { PlainStepFrame(w, e); }
  }

  lemma NameStepFrame(w: World, e: Event)
    requires Enabled(w, e) && (e.action.UnlinkHeld? || e.action.Open?)
    ensures Frame(w, Apply(w, e), e.pid, Victim(w, e))
  {
  }

  lemma CloseStepFrame(w: World, e: Event)
    requires Enabled(w, e) && (e.action.CloseHeld? || e.action.CloseStale? || e.action.CloseRefused?)
    ensures Frame(w, Apply(w, e), e.pid, {})
  {
  }

  lemma OwnerStepFrame(w: World, e: Event)
    requires Enabled(w, e) && (e.action.LockOk? || e.action.Crash?)
    ensures Frame(w, Apply(w, e), e.pid, {})
  {
  }

  lemma PlainStepFrame(w: World, e: Event)
    requires Enabled(w, e)
    requires e.action.OpenError? || e.action.LockRefused? || e.action.Stat? || e.action.StatError? || e.action.BeginRelease?
    ensures Frame(w, Apply(w, e), e.pid, {})
  {
  }

  lemma OtherHolderKept(w: World, w': World, pid: Pid, victim: set<Path>, q: Pid, k: nat)
    requires Frame(w, w', pid, victim) && HoldersOwn(w) && Holds(w', q, k) && q != pid
    requires w'.procs[q].held[k].path !in victim
    ensures var l := w'.procs[q].held[k];
      l.path in w'.names && w'.names[l.path] == l.inode && l.inode in w'.owner && w'.owner[l.inode] == q
  {
    assert Holds(w, q, k);
  }

  lemma OtherProcessKept(w: World, w': World, pid: Pid, victim: set<Path>, q: Pid)
    requires Frame(w, w', pid, victim) && q in w.procs && q != pid && ProcessOk(w, q)
    ensures ProcessOk(w', q)
  {
  }

  lemma OtherRetriesPaid(w: World, w': World, pid: Pid, victim: set<Path>, q: Pid)
    requires Frame(w, w', pid, victim) && q in w.procs && q != pid && RetriesPaid(w, q)
    ensures RetriesPaid(w', q)
  {
    var p := w.procs[q];
    if victim != {} && Alive(p) && Acquiring(p.pc) && p.todo != [] {
      var a :| victim == {a} && w'.unlinks == w.unlinks + [Unlink(a, pid)];
      CountAppend(w.unlinks, Unlink(a, pid), p.todo[0], q);
    }
  }

  // ----- The acting process -----

  lemma ActorHolderKept(w: World, e: Event, k: nat)
    requires HoldersOwn(w) && Enabled(w, e) && Holds(Apply(w, e), e.pid, k)
    requires e.action.Start? || ProcessOk(w, e.pid)
    ensures var w' := Apply(w, e); var l := w'.procs[e.pid].held[k];
      l.path in w'.names && w'.names[l.path] == l.inode && l.inode in w'.owner && w'.owner[l.inode] == e.pid
  {
    if e.action.Stat? {
      if k < |w.procs[e.pid].held| { assert Holds(w, e.pid, k); }
    } else if e.action.CloseHeld? || e.action.UnlinkHeld? {
      ReleaseHolderKept(w, e, k);
    } else {
      assert Holds(w, e.pid, k);
    }
  }

  lemma ReleaseHolderKept(w: World, e: Event, k: nat)
    requires HoldersOwn(w) && Enabled(w, e) && (e.action.CloseHeld? || e.action.UnlinkHeld?)
    requires Holds(Apply(w, e), e.pid, k) && ProcessOk(w, e.pid)
    ensures var w' := Apply(w, e); var l := w'.procs[e.pid].held[k];
      l.path in w'.names && w'.names[l.path] == l.inode && l.inode in w'.owner && w'.owner[l.inode] == e.pid
  {
    if e.action.CloseHeld? {
      assert Holds(w, e.pid, k + 1);
    } else {
      assert Holds(w, e.pid, k);
      assert HeldPaths(w.procs[e.pid].held)[0] != HeldPaths(w.procs[e.pid].held)[k];
    }
  }

  /** The path being opened is none of the held ones, so its inode is none of the held inodes. */
  lemma TargetNotHeld(w: World, pid: Pid, k: nat)
    requires HoldersOwn(w) && NamesInjective(w) && pid in w.procs && ProcessOk(w, pid)
    requires w.procs[pid].pc.Opening? && w.procs[pid].todo != [] && k < |w.procs[pid].held|
    ensures w.procs[pid].todo[0] in w.names ==> w.names[w.procs[pid].todo[0]] != w.procs[pid].held[k].inode
  {
    var p := w.procs[pid];
    assert p.request[k] == HeldPaths(p.held)[k] && p.request[|p.held|] == p.todo[0];
    assert Holds(w, pid, k);
  }

  lemma OpenKeepsActor(w: World, e: Event)
    requires HoldersOwn(w) && NamesInjective(w) && Enabled(w, e) && e.action.Open? && ProcessOk(w, e.pid)
    ensures ProcessOk(Apply(w, e), e.pid)
  {
    var w', p := Apply(w, e), w.procs[e.pid];
    forall k: nat | k < |p.held|
      ensures p.held[k].inode != w'.procs[e.pid].pc.inode
    {
      TargetNotHeld(w, e.pid, k);
      if p.todo[0] !in w.names { assert p.held[k].inode in Files(p); }
    }
  }

  lemma StatKeepsActor(w: World, e: Event)
    requires Enabled(w, e) && e.action.Stat? && ProcessOk(w, e.pid)
    ensures ProcessOk(Apply(w, e), e.pid)
  {
    var p, p' := w.procs[e.pid], Apply(w, e).procs[e.pid];
    if p'.pc.Opening? {
      assert HeldPaths(p'.held) == HeldPaths(p.held) + [p.todo[0]];
      assert HeldPaths(p'.held) + p'.todo == p.request;
      forall i, j | 0 <= i < j < |p'.held| ensures HeldPaths(p'.held)[i] != HeldPaths(p'.held)[j] {
        assert HeldPaths(p'.held)[i] == p.request[i] && HeldPaths(p'.held)[j] == p.request[j];
      }
    }
  }

  lemma ActorProcessKept(w: World, e: Event)
    requires HoldersOwn(w) && NamesInjective(w) && Enabled(w, e)
    requires if e.action.Start? then Distinct(LockPaths(e.action.dirs)) else ProcessOk(w, e.pid)
    ensures ProcessOk(Apply(w, e), e.pid)
  {
    if e.action.Open? { OpenKeepsActor(w, e); }
    else if e.action.Stat? { StatKeepsActor(w, e); }
    else if e.action.CloseHeld? { CloseHeldKeepsActor(w, e); }
    else if e.action.OpenError? || e.action.BeginRelease? || e.action.CloseRefused? { ReleaseKeepsActor(w, e); }
    else if e.action.UnlinkHeld? || e.action.Crash? { UnlinkKeepsActor(w, e); }
    else if !e.action.Start? { LoopStepKeepsActor(w, e); }
  }

  lemma CloseHeldKeepsActor(w: World, e: Event)
    requires Enabled(w, e) && e.action.CloseHeld? && ProcessOk(w, e.pid)
    ensures ProcessOk(Apply(w, e), e.pid)
  {
    var p, p' := w.procs[e.pid], Apply(w, e).procs[e.pid];
    assert HeldPaths(p'.held) == HeldPaths(p.held)[1..];
  }

  lemma ReleaseKeepsActor(w: World, e: Event)
    requires Enabled(w, e) && (e.action.OpenError? || e.action.BeginRelease? || e.action.CloseRefused?)
    requires ProcessOk(w, e.pid)
    ensures ProcessOk(Apply(w, e), e.pid)
  {
  }

  lemma UnlinkKeepsActor(w: World, e: Event)
    requires Enabled(w, e) && (e.action.UnlinkHeld? || e.action.Crash?) && ProcessOk(w, e.pid)
    ensures ProcessOk(Apply(w, e), e.pid)
  {
  }

  lemma LoopStepKeepsActor(w: World, e: Event)
    requires Enabled(w, e)
    requires e.action.LockOk? || e.action.LockRefused? || e.action.StatError? || e.action.CloseStale?
    requires ProcessOk(w, e.pid)
    ensures ProcessOk(Apply(w, e), e.pid)
  {
  }

  /** The heart of the retry bound: without an unlink since the open, the path still names the
      inode, so a failed recheck proves that some other process unlinked it in between. */
  lemma StatRetriesPaid(w: World, e: Event)
    requires Enabled(w, e) && e.action.Stat? && RetriesPaid(w, e.pid)
    ensures RetriesPaid(Apply(w, e), e.pid)
  {
  }

  lemma ActorRetriesPaid(w: World, e: Event)
    requires Enabled(w, e) && (e.action.Start? || RetriesPaid(w, e.pid))
    ensures RetriesPaid(Apply(w, e), e.pid)
  {
    if e.action.Stat? { StatRetriesPaid(w, e); }
    else if e.action.Open? || e.action.LockOk? || e.action.CloseStale? { LoopRetriesPaid(w, e); }
    else if e.action.LockRefused? || e.action.StatError? { FailureRetriesPaid(w, e); }
    else { assert !Acquiring(Apply(w, e).procs[e.pid].pc) || e.action.Start?; }
  }

  lemma FailureRetriesPaid(w: World, e: Event)
    requires Enabled(w, e) && (e.action.LockRefused? || e.action.StatError?)
    requires RetriesPaid(w, e.pid)
    ensures RetriesPaid(Apply(w, e), e.pid)
  {
  }

  lemma LoopRetriesPaid(w: World, e: Event)
    requires Enabled(w, e) && (e.action.Open? || e.action.LockOk? || e.action.CloseStale?)
    requires RetriesPaid(w, e.pid)
    ensures RetriesPaid(Apply(w, e), e.pid)
  {
  }

  lemma OwnersKept(w: World, e: Event)
    requires OwnersHaveFiles(w) && Enabled(w, e)
    requires e.action.Start? || ProcessOk(w, e.pid)
    ensures OwnersHaveFiles(Apply(w, e))
  {
    StepFrame(w, e);
    var w' := Apply(w, e);
    forall i <- w'.owner ensures w'.owner[i] in w'.procs && i in Files(w'.procs[w'.owner[i]]) {
      if w'.owner[i] == e.pid { ActorOwnerKept(w, e, i); }
    }
  }

  lemma ActorOwnerKept(w: World, e: Event, i: Inode)
    requires OwnersHaveFiles(w) && Enabled(w, e) && i in Apply(w, e).owner && Apply(w, e).owner[i] == e.pid
    requires e.action.Start? || ProcessOk(w, e.pid)
    ensures e.pid in Apply(w, e).procs && i in Files(Apply(w, e).procs[e.pid])
  {
    if e.action.CloseHeld? { CloseHeldOwnerKept(w, e, i); }
    else if e.action.Stat? { StatOwnerKept(w, e, i); }
    else if e.action.Open? || e.action.LockOk? || e.action.LockRefused? || e.action.StatError? { LoopOwnerKept(w, e, i); }
    else if e.action.CloseStale? || e.action.CloseRefused? { CloseOwnerKept(w, e, i); }
    else if e.action.OpenError? || e.action.BeginRelease? || e.action.UnlinkHeld? { ReleaseOwnerKept(w, e, i); }
  }

  lemma LoopOwnerKept(w: World, e: Event, i: Inode)
    requires OwnersHaveFiles(w) && Enabled(w, e)
    requires e.action.Open? || e.action.LockOk? || e.action.LockRefused? || e.action.StatError?
    requires i in Apply(w, e).owner && Apply(w, e).owner[i] == e.pid
    ensures i in Files(Apply(w, e).procs[e.pid])
  {
    if !e.action.LockOk? { assert i in Files(w.procs[w.owner[i]]); }
  }

  lemma CloseOwnerKept(w: World, e: Event, i: Inode)
    requires OwnersHaveFiles(w) && Enabled(w, e) && (e.action.CloseStale? || e.action.CloseRefused?)
    requires i in Apply(w, e).owner && Apply(w, e).owner[i] == e.pid
    ensures i in Files(Apply(w, e).procs[e.pid])
  {
    var p, p' := w.procs[e.pid], Apply(w, e).procs[e.pid];
    assert i in Files(p) && i != p.pc.inode && p'.held == p.held;
  }

  lemma ReleaseOwnerKept(w: World, e: Event, i: Inode)
    requires OwnersHaveFiles(w) && Enabled(w, e)
    requires e.action.OpenError? || e.action.BeginRelease? || e.action.UnlinkHeld?
    requires i in Apply(w, e).owner && Apply(w, e).owner[i] == e.pid
    ensures i in Files(Apply(w, e).procs[e.pid])
  {
    var p, p' := w.procs[e.pid], Apply(w, e).procs[e.pid];
    assert i in Files(p) && p'.held == p.held;
  }

  lemma CloseHeldOwnerKept(w: World, e: Event, i: Inode)
    requires OwnersHaveFiles(w) && Enabled(w, e) && e.action.CloseHeld?
    requires i in Apply(w, e).owner && Apply(w, e).owner[i] == e.pid
    ensures i in Files(Apply(w, e).procs[e.pid])
  {
    var p := w.procs[e.pid];
    var l :| l in p.held && l.inode == i;
    assert l in p.held[1..];
  }

  lemma StatOwnerKept(w: World, e: Event, i: Inode)
    requires OwnersHaveFiles(w) && Enabled(w, e) && e.action.Stat? && i in w.owner && w.owner[i] == e.pid
    ensures i in Files(Apply(w, e).procs[e.pid])
  {
    var p, p' := w.procs[e.pid], Apply(w, e).procs[e.pid];
    if p'.pc.Opening? { assert Lock(p.todo[0], p.pc.inode) in p'.held; }
    assert forall l <- p.held :: l in p'.held;
  }

  lemma NamesKept(w: World, e: Event)
    requires NamesInjective(w) && Enabled(w, e)
    ensures NamesInjective(Apply(w, e))
  {
  }

  /** A victim is the actor's own file: nobody else can hold it. */
  lemma VictimIsOwn(w: World, e: Event, q: Pid, k: nat)
    requires HoldersOwn(w) && Enabled(w, e) && Holds(w, q, k) && q != e.pid
    ensures w.procs[q].held[k].path !in Victim(w, e)
  {
    if e.action.UnlinkHeld? { assert Holds(w, e.pid, 0); }
  }

  lemma HoldersKept(w: World, e: Event)
    requires HoldersOwn(w) && Enabled(w, e)
    requires e.action.Start? || ProcessOk(w, e.pid)
    ensures HoldersOwn(Apply(w, e))
  {
    StepFrame(w, e);
    var w' := Apply(w, e);
    forall q, k: nat | Holds(w', q, k)
      ensures var l := w'.procs[q].held[k];
        l.path in w'.names && w'.names[l.path] == l.inode && l.inode in w'.owner && w'.owner[l.inode] == q
    {
      if q == e.pid {
        ActorHolderKept(w, e, k);
      } else {
        assert Holds(w, q, k);
        VictimIsOwn(w, e, q, k);
        OtherHolderKept(w, w', e.pid, Victim(w, e), q, k);
      }
    }
  }

  lemma StepKeepsInvariant(w: World, e: Event)
    requires Invariant(w) && Enabled(w, e)
    requires e.action.Start? ==> Distinct(LockPaths(e.action.dirs))
    ensures Invariant(Apply(w, e))
  {
    HoldersKept(w, e);
    NamesKept(w, e);
    OwnersKept(w, e);
    StepFrame(w, e);
    var w' := Apply(w, e);
    forall q <- w'.procs ensures ProcessOk(w', q) && RetriesPaid(w', q) {
      if q == e.pid {
        ActorProcessKept(w, e);
        ActorRetriesPaid(w, e);
      } else {
        OtherProcessKept(w, w', e.pid, Victim(w, e), q);
        OtherRetriesPaid(w, w', e.pid, Victim(w, e), q);
      }
    }
  }

  // ----- Whole runs -----

  lemma {:induction false} RunKeepsInvariant(w: World, run: seq<Event>)
    requires Invariant(w) && Legal(w, run) && DistinctRequests(run)
    ensures Invariant(Exec(w, run))
    decreases |run|
  {
    if run != [] {
      assert run[0] in run;
      StepKeepsInvariant(w, run[0]);
      forall e <- run[1..] | e.action.Start? ensures Distinct(LockPaths(e.action.dirs)) {
        assert e in run;
      }
      RunKeepsInvariant(Apply(w, run[0]), run[1..]);
    }
  }

  /** In every interleaving of any number of processes, with crashes at any step, a lock path is
      held by at most one process; the holder owns the lock of the inode the path names. */
  lemma AtMostOneHolder(w: World, run: seq<Event>)
    requires Initial(w) && Legal(w, run) && DistinctRequests(run)
    ensures MutualExclusion(Exec(w, run)) && HoldersOwn(Exec(w, run))
  {
    RunKeepsInvariant(w, run);
    var z := Exec(w, run);
    forall p, q, i: nat, j: nat |
      Holds(z, p, i) && Holds(z, q, j) && z.procs[p].held[i].path == z.procs[q].held[j].path
      ensures p == q && i == j
    {
      assert p == q ==> HeldPaths(z.procs[p].held)[i] == HeldPaths(z.procs[q].held)[j];
    }
  }

  /** `AcquireDirs` is all or nothing: when it has returned a `Held`, every requested path is held,
      in order; when it (or `Release`, or a crash) has ended, no lock on any inode is left behind. */
  lemma AllOrNothing(w: World, run: seq<Event>, pid: Pid)
    requires Initial(w) && Legal(w, run) && DistinctRequests(run)
    requires pid in Exec(w, run).procs
    ensures var z := Exec(w, run); var p := z.procs[pid];
      (p.pc.Opening? && p.todo == [] ==>
         HeldPaths(p.held) == p.request &&
         forall l <- p.held :: l.path in z.names && z.names[l.path] == l.inode &&
                               l.inode in z.owner && z.owner[l.inode] == pid) &&
      (!Alive(p) ==> forall i <- z.owner :: z.owner[i] != pid)
  {
    RunKeepsInvariant(w, run);
    var z := Exec(w, run);
    var p := z.procs[pid];
    assert ProcessOk(z, pid);
    if p.pc.Opening? && p.todo == [] {
      forall l <- p.held
        ensures l.path in z.names && z.names[l.path] == l.inode && l.inode in z.owner && z.owner[l.inode] == pid
      {
        var k :| 0 <= k < |p.held| && p.held[k] == l;
        assert Holds(z, pid, k);
      }
    }
  }

  /** The retry loop is charged to other processes: since the first open of the path it is waiting
      for, a process has gone round at most as often as others have unlinked that path. When the
      recheck fails, such an unlink happened after the descriptor was opened. */
  lemma RetriesAreBounded(w: World, run: seq<Event>, pid: Pid)
    requires Initial(w) && Legal(w, run) && DistinctRequests(run)
    requires var z := Exec(w, run);
      pid in z.procs && Alive(z.procs[pid]) && Acquiring(z.procs[pid].pc) && z.procs[pid].todo != []
    ensures var z := Exec(w, run); var p := z.procs[pid];
      var count := OthersUnlinked(z.unlinks, p.todo[0], pid);
      (p.retries > 0 ==> p.retries <= count - p.firstOpen) &&
      (p.pc.Locked? && !(p.todo[0] in z.names && z.names[p.todo[0]] == p.pc.inode) ==> p.lastOpen < count)
  {
    RunKeepsInvariant(w, run);
    assert RetriesPaid(Exec(w, run), pid);
  }

  /** Extends a run that leads to `w` by one event. */
  lemma Extend(start: World, run: seq<Event>, w: World, e: Event)
    requires Legal(start, run) && Exec(start, run) == w && Enabled(w, e)
    ensures Legal(start, run + [e]) && Exec(start, run + [e]) == Apply(w, e)
    decreases |run|
  {
    if run == [] {
      assert [e][1..] == [];
      assert Legal(Apply(w, e), []);
    } else {
      Extend(Apply(start, run[0]), run[1..], w, e);
      assert (run + [e])[1..] == run[1..] + [e];
    }
  }

  /** The world after one undisturbed turn of the loop in `tryAcquire`. */
  function Granted(w: World, pid: Pid, i: Inode): World
    requires pid in w.procs && w.procs[pid].todo != []
  {
    var p := w.procs[pid];
    var count := OthersUnlinked(w.unlinks, p.todo[0], pid);
    w.(names := w.names[p.todo[0] := i], owner := w.owner[i := pid],
       procs := w.procs[pid := p.(todo := p.todo[1..], held := p.held + [Lock(p.todo[0], i)],
                                  retries := 0, lastOpen := count,
                                  firstOpen := if p.retries == 0 then count else p.firstOpen)])
  }

  function Turn(pid: Pid, i: Inode): seq<Event> {
    [Event(pid, Open(i)), Event(pid, LockOk), Event(pid, Stat)]
  }

  lemma OpenThenLock(w: World, pid: Pid, i: Inode) returns (w': World)
    requires Enabled(w, Event(pid, Open(i)))
    requires var path := w.procs[pid].todo[0];
      if path in w.names then i == w.names[path] && (i in w.owner ==> w.owner[i] == pid) else i !in w.owner
    ensures Enabled(Apply(w, Event(pid, Open(i))), Event(pid, LockOk))
    ensures w' == Apply(Apply(w, Event(pid, Open(i))), Event(pid, LockOk))
    ensures var p, g := w.procs[pid], Granted(w, pid, i);
      w'.names == g.names && w'.owner == g.owner && w'.unlinks == w.unlinks &&
      w'.procs == w.procs[pid := p.(pc := Locked(i), lastOpen := g.procs[pid].lastOpen,
                                    firstOpen := g.procs[pid].firstOpen)]
  {
    w' := Apply(Apply(w, Event(pid, Open(i))), Event(pid, LockOk));
  }

  /** When no other process owns the inode, an undisturbed turn of the loop takes the lock. */
  lemma TurnGrants(start: World, run: seq<Event>, w: World, pid: Pid, i: Inode)
    requires Legal(start, run) && Exec(start, run) == w && Enabled(w, Event(pid, Open(i)))
    requires var path := w.procs[pid].todo[0];
      if path in w.names then i == w.names[path] && (i in w.owner ==> w.owner[i] == pid) else i !in w.owner
    ensures Legal(start, run + Turn(pid, i)) && Exec(start, run + Turn(pid, i)) == Granted(w, pid, i)
  {
    var e0, e1, e2 := Event(pid, Open(i)), Event(pid, LockOk), Event(pid, Stat);
    Extend(start, run, w, e0);
    var w2 := OpenThenLock(w, pid, i);
    Extend(start, run + [e0], Apply(w, e0), e1);
    Extend(start, run + [e0] + [e1], w2, e2);
    assert run + Turn(pid, i) == run + [e0] + [e1] + [e2];
  }

  /** A lock file left by a crashed run blocks nobody: in every reachable world, when no process
      owns the inode the path names, an undisturbed turn of the loop takes the lock. */
  lemma UncontendedAcquires(start: World, run: seq<Event>, pid: Pid, i: Inode)
    requires Initial(start) && Legal(start, run) && DistinctRequests(run)
    requires Enabled(Exec(start, run), Event(pid, Open(i)))
    requires var w := Exec(start, run); var path := w.procs[pid].todo[0];
      path in w.names ==> i == w.names[path] && i !in w.owner
    ensures Legal(start, run + Turn(pid, i))
    ensures Exec(start, run + Turn(pid, i)) == Granted(Exec(start, run), pid, i)
  {
    RunKeepsInvariant(start, run);
    var w := Exec(start, run);
    forall j <- w.owner | w.procs[pid].todo[0] !in w.names ensures i != j {
      assert j in Files(w.procs[w.owner[j]]);
    }
    TurnGrants(start, run, w, pid, i);
  }

  // ----- Why the requested paths must differ -----

  const Empty := World(map[], map[], map[], [])

  /** Requests have different lock paths, except that `dirs` may be requested as it is. */
  predicate Allowed(e: Event, dirs: seq<string>) {
    e.action.Start? ==> e.action.dirs == dirs || Distinct(LockPaths(e.action.dirs))
  }

  predicate DistinctBeside(run: seq<Event>, dirs: seq<string>) {
    forall e <- run :: Allowed(e, dirs)
  }

  /** Exclusion whatever other processes do, when some may request `dirs`. */
  ghost predicate Exclusive(dirs: seq<string>) {
    forall w, run :: Initial(w) && Legal(w, run) && DistinctBeside(run, dirs) ==> MutualExclusion(Exec(w, run))
  }

  predicate Reached(dirs: seq<string>, run: seq<Event>, w: World) {
    Legal(Empty, run) && Exec(Empty, run) == w && DistinctBeside(run, dirs)
  }

  lemma Do(dirs: seq<string>, run: seq<Event>, w: World, e: Event) returns (run': seq<Event>, w': World)
    requires Reached(dirs, run, w) && Enabled(w, e) && Allowed(e, dirs)
    ensures w' == Apply(w, e) && Reached(dirs, run', w')
  {
    hide Legal, Exec, Enabled, Apply;
    Extend(Empty, run, w, e);
    run', w' := run + [e], Apply(w, e);
  }

  lemma Take(dirs: seq<string>, run: seq<Event>, w: World, pid: Pid, i: Inode) returns (run': seq<Event>)
    requires Reached(dirs, run, w) && Enabled(w, Event(pid, Open(i)))
    requires var path := w.procs[pid].todo[0];
      if path in w.names then i == w.names[path] && (i in w.owner ==> w.owner[i] == pid) else i !in w.owner
    ensures Reached(dirs, run', Granted(w, pid, i))
  {
    hide Legal, Exec, Apply;
    TurnGrants(Empty, run, w, pid, i);
    run' := run + Turn(pid, i);
  }

  /** Every inode number in use is below `n`. */
  ghost predicate Below(w: World, n: nat) {
    (forall path <- w.names :: w.names[path] < n) && (forall i <- w.owner :: i < n) &&
    (forall q <- w.procs :: forall i <- Files(w.procs[q]) :: i < n)
  }

  /** Process 1, which runs alone, holds the first `k` paths of its request. */
  ghost predicate Taken(w: World, paths: seq<Path>, k: nat) {
    k <= |paths| && Below(w, k) && w.procs.Keys == {1} && (forall i <- w.owner :: w.owner[i] == 1) &&
    var p := w.procs[1];
    p.pc == Opening && p.todo == paths[k..] && HeldPaths(p.held) == paths[..k]
  }

  lemma TakenOneMore(w: World, paths: seq<Path>, k: nat, i: Inode)
    requires k < |paths| && Taken(w, paths, k)
    requires i == if paths[k] in w.names then w.names[paths[k]] else k
    ensures Taken(Granted(w, 1, i), paths, k + 1)
  {
    var p, p' := w.procs[1], Granted(w, 1, i).procs[1];
    assert HeldPaths(p'.held) == HeldPaths(p.held) + [paths[k]];
    assert p'.todo == paths[k + 1..] && paths[..k + 1] == paths[..k] + [paths[k]];
    forall j <- Files(p') ensures j < k + 1 {
      var l :| l in p'.held && l.inode == j;
      assert l in p.held ==> j in Files(p);
    }
  }

  /** A process that runs alone gets every path, also one that it already holds: record locks never
      refuse their owner. */
  lemma TakeRest(dirs: seq<string>, run: seq<Event>, w: World, paths: seq<Path>, k: nat)
    returns (run': seq<Event>, w': World)
    requires Reached(dirs, run, w) && Taken(w, paths, k)
    ensures Reached(dirs, run', w') && Taken(w', paths, |paths|)
    decreases |paths| - k
  {
    if k == |paths| {
      run', w' := run, w;
    } else {
      var i := if paths[k] in w.names then w.names[paths[k]] else k;
      TakenOneMore(w, paths, k, i);
      assert Enabled(w, Event(1, Open(i)));
      run' := Take(dirs, run, w, 1, i);
      run', w' := TakeRest(dirs, run', Granted(w, 1, i), paths, k + 1);
    }
  }

  lemma TakeAll(dirs: seq<string>) returns (run: seq<Event>, w: World)
    ensures Reached(dirs, run, w) && Taken(w, LockPaths(dirs), |LockPaths(dirs)|)
  {
    var paths := LockPaths(dirs);
    assert Reached(dirs, [], Empty);
    run, w := Do(dirs, [], Empty, Event(1, Start(dirs)));
    assert w.procs[1].todo == paths[0..] && HeldPaths(w.procs[1].held) == paths[..0];
    run, w := TakeRest(dirs, run, w, paths, 0);
  }

  /** Process 1 is in `Release` with `held` left. */
  predicate Letting(w: World, held: seq<Lock>) {
    1 in w.procs && w.procs[1].pc == Releasing(false) && w.procs[1].held == held
  }

  /** Nothing was created, and the other processes did not move. */
  ghost predicate Shrunk(w: World, w': World) {
    w'.names.Keys <= w.names.Keys && (forall n :: Below(w, n) ==> Below(w', n)) &&
    w'.procs.Keys == w.procs.Keys && forall q <- w.procs :: q != 1 ==> w'.procs[q] == w.procs[q]
  }

  lemma LetGo(dirs: seq<string>, run: seq<Event>, w: World, held: seq<Lock>)
    returns (run': seq<Event>, w': World)
    requires Reached(dirs, run, w) && Letting(w, held) && |held| > 1
    ensures Reached(dirs, run', w') && Letting(w', held[1..]) && Shrunk(w, w') && held[0].path !in w'.names
  {
    run', w' := Do(dirs, run, w, Event(1, UnlinkHeld));
    run', w' := Do(dirs, run', w', Event(1, CloseHeld));
    LetGoShrinks(w, w', held);
  }

  lemma LetGoShrinks(w: World, w': World, held: seq<Lock>)
    requires Letting(w, held) && |held| > 1
    requires w'.names == w.names - {held[0].path} && w'.owner == DropLock(w.owner, 1, held[0].inode)
    requires w'.procs == w.procs[1 := w.procs[1].(held := held[1..])]
    ensures Shrunk(w, w')
  {
    forall i <- Files(w'.procs[1]) ensures i in Files(w.procs[1]) {
      var l :| l in held[1..] && l.inode == i;
      assert l in held;
    }
  }

  lemma ShrunkTwice(w: World, w1: World, w2: World)
    requires Shrunk(w, w1) && Shrunk(w1, w2)
    ensures Shrunk(w, w2) && w2.names.Keys <= w1.names.Keys
  {
    hide Below;
  }

  /** Process 1 lets go of `n` locks; the file of the last of them is gone. */
  lemma LetGoMany(dirs: seq<string>, run: seq<Event>, w: World, held: seq<Lock>, n: nat)
    returns (run': seq<Event>, w': World)
    requires Reached(dirs, run, w) && Letting(w, held) && n < |held|
    ensures Reached(dirs, run', w') && Letting(w', held[n..]) && Shrunk(w, w')
    ensures n > 0 ==> held[n - 1].path !in w'.names
    decreases n
  {
    if n == 0 {
      assert held[0..] == held;
      run', w' := run, w;
    } else {
      hide Reached, Letting, Shrunk;
      var w1;
      run', w1 := LetGo(dirs, run, w, held);
      run', w' := LetGoMany(dirs, run', w1, held[1..], n - 1);
      assert held[1..][n - 1..] == held[n..];
      ShrunkTwice(w, w1, w');
    }
  }

  /** A new process takes the lock of the directory `d`, whose file does not exist. */
  lemma StartAndTake(dirs: seq<string>, run: seq<Event>, w: World, pid: Pid, d: string, path: Path, n: nat)
    returns (run': seq<Event>, w': World)
    requires Reached(dirs, run, w) && LockPaths([d]) == [path]
    requires pid !in w.procs && path !in w.names && Below(w, n)
    ensures Reached(dirs, run', w') && Below(w', n + 1)
    ensures pid in w'.procs && w'.procs == w.procs[pid := w'.procs[pid]]
    ensures w'.procs[pid].pc == Opening && w'.procs[pid].held == [Lock(path, n)]
  {
    var w1 := w.(procs := w.procs[pid := Process(Opening, [path], [path], [], 0, 0, 0)]);
    StartNew(w, pid, d, path, n);
    NewHolder(w, w1, pid, path, n);
    assert Allowed(Event(pid, Start([d])), dirs);
    hide *;
    run', w' := Do(dirs, run, w, Event(pid, Start([d])));
    run' := Take(dirs, run', w1, pid, n);
    w' := Granted(w1, pid, n);
  }

  lemma StartNew(w: World, pid: Pid, d: string, path: Path, n: nat)
    requires LockPaths([d]) == [path] && pid !in w.procs && path !in w.names && Below(w, n)
    ensures var w1 := w.(procs := w.procs[pid := Process(Opening, [path], [path], [], 0, 0, 0)]);
      Enabled(w, Event(pid, Start([d]))) && Apply(w, Event(pid, Start([d]))) == w1 &&
      Distinct(LockPaths([d])) && Enabled(w1, Event(pid, Open(n)))
  {
  }

  lemma NewHolder(w: World, w1: World, pid: Pid, path: Path, n: nat)
    requires Below(w, n) && pid !in w.procs && path !in w.names
    requires w1 == w.(procs := w.procs[pid := Process(Opening, [path], [path], [], 0, 0, 0)])
    ensures n !in w1.owner && path !in w1.names
    ensures var g := Granted(w1, pid, n);
      Below(g, n + 1) && pid in g.procs && g.procs == w.procs[pid := g.procs[pid]] &&
      g.procs[pid].pc == Opening && g.procs[pid].held == [Lock(path, n)]
  {
    var g := Granted(w1, pid, n);
    assert Files(g.procs[pid]) == {n};
  }

  /** A lock path belongs to some directory of the request. */
  lemma {:induction false} DirectoryOf(dirs: seq<string>, k: nat) returns (d: string)
    requires k < |LockPaths(dirs)|
    ensures LockPaths([d]) == [LockPaths(dirs)[k]]
  {
    if dirs[0] == "" {
      d := DirectoryOf(dirs[1..], k);
    } else if k == 0 {
      d := dirs[0];
      assert [d][1..] == [];
    } else {
      d := DirectoryOf(dirs[1..], k - 1);
    }
  }

  lemma BothHold(w: World, p: Pid, q: Pid, path: Path)
    requires p != q && p in w.procs && q in w.procs && w.procs[p].pc == w.procs[q].pc == Opening
    requires w.procs[p].held != [] && w.procs[p].held[0].path == path
    requires w.procs[q].held != [] && w.procs[q].held[0].path == path
    ensures !MutualExclusion(w)
  {
    assert Holds(w, p, 0) && Holds(w, q, 0);
  }

  /** A request with the same path at `i` and `j` breaks the exclusion: process 1 takes all its
      locks and releases through `i`, process 2 takes that path, process 1 releases up to `j` and
      unlinks the file of process 2, and process 3 takes the path. */
  lemma RepeatBreaksExclusion(dirs: seq<string>, i: nat, j: nat) returns (run: seq<Event>, w: World)
    requires i < j < |LockPaths(dirs)| && LockPaths(dirs)[i] == LockPaths(dirs)[j]
    ensures Reached(dirs, run, w) && !MutualExclusion(w)
  {
    hide Reached, Enabled, Apply, Below, LockPaths;
    var paths := LockPaths(dirs);
    var path, n := paths[i], |paths|;
    var d := DirectoryOf(dirs, i);
    run, w := TakeAll(dirs);
    var held := w.procs[1].held;
    assert |held| == n && held[i].path == held[j].path == path by {
      assert HeldPaths(held)[i] == paths[i] && HeldPaths(held)[j] == paths[j];
    }
    run, w := StartRelease(dirs, run, w, n);
    run, w := LetGoMany(dirs, run, w, held, i + 1);
    run, w := StartAndTake(dirs, run, w, 2, d, path, n);
    run, w := LetGoMany(dirs, run, w, held[i + 1..], j - i - 1);
    assert held[i + 1..][j - i - 1..] == held[j..];
    run, w := UnlinkNext(dirs, run, w, held[j..], n + 1);
    run, w := StartAndTake(dirs, run, w, 3, d, path, n + 1);
    BothHold(w, 2, 3, path);
  }

  lemma StartRelease(dirs: seq<string>, run: seq<Event>, w: World, n: nat) returns (run': seq<Event>, w': World)
    requires Reached(dirs, run, w) && Below(w, n) && w.procs.Keys == {1}
    requires w.procs[1].pc == Opening && w.procs[1].todo == [] && w.procs[1].held != []
    ensures Reached(dirs, run', w') && Letting(w', w.procs[1].held) && Below(w', n) && w'.procs.Keys == {1}
  {
    run', w' := Do(dirs, run, w, Event(1, BeginRelease));
    assert Files(w'.procs[1]) == Files(w.procs[1]);
  }

  /** Process 1 unlinks the next path, whoever owns the file there now. */
  lemma UnlinkNext(dirs: seq<string>, run: seq<Event>, w: World, held: seq<Lock>, n: nat)
    returns (run': seq<Event>, w': World)
    requires Reached(dirs, run, w) && Letting(w, held) && held != [] && Below(w, n)
    ensures Reached(dirs, run', w') && held[0].path !in w'.names && Below(w', n)
    ensures w'.procs.Keys == w.procs.Keys && forall q <- w.procs :: q != 1 ==> w'.procs[q] == w.procs[q]
  {
    run', w' := Do(dirs, run, w, Event(1, UnlinkHeld));
    assert Files(w'.procs[1]) == Files(w.procs[1]);
  }

  /** The exclusion survives a request for `dirs` exactly when its lock paths differ. */
  lemma ExclusionExactly(dirs: seq<string>)
    ensures Exclusive(dirs) <==> Distinct(LockPaths(dirs))
  {
    hide Legal, Exec, Initial, MutualExclusion, LockPaths;
    if Distinct(LockPaths(dirs)) {
      forall w, run | Initial(w) && Legal(w, run) && DistinctBeside(run, dirs)
        ensures MutualExclusion(Exec(w, run))
      {
        AtMostOneHolder(w, run);
      }
    } else {
      var i, j :| 0 <= i < j < |LockPaths(dirs)| && LockPaths(dirs)[i] == LockPaths(dirs)[j];
      var run, w := RepeatBreaksExclusion(dirs, i, j);
      EmptyIsInitial();
    }
  }

  /** The directories that are locked, as `filepath.Clean` writes them. */
  function LockedDirs(dirs: seq<string>): seq<string> {
    if dirs == [] then []
    else (if dirs[0] == "" then [] else [Clean(dirs[0])]) + LockedDirs(dirs[1..])
  }

  lemma {:induction false} SameWhere(dirs: seq<string>, d: string)
    requires d != ""
    ensures |LockPaths(dirs)| == |LockedDirs(dirs)|
    ensures forall i :: 0 <= i < |LockPaths(dirs)| ==> (LockPaths(dirs)[i] == Join(d, LockName) <==> LockedDirs(dirs)[i] == Clean(d))
  {
    hide Join, Clean;
    if dirs != [] {
      SameWhere(dirs[1..], d);
      if dirs[0] != "" { SameFile(dirs[0], d, LockName); }
    }
  }

  lemma {:induction false} SameRepeats(dirs: seq<string>)
    ensures Distinct(LockPaths(dirs)) <==> Distinct(LockedDirs(dirs))
  {
    hide Join, Clean;
    if dirs != [] {
      SameRepeats(dirs[1..]);
      if dirs[0] == "" {
        assert [] + LockPaths(dirs[1..]) == LockPaths(dirs[1..]) && [] + LockedDirs(dirs[1..]) == LockedDirs(dirs[1..]);
      } else {
        SameWhere(dirs[1..], dirs[0]);
        hide LockPaths, LockedDirs;
        DistinctFirst(Join(dirs[0], LockName), LockPaths(dirs[1..]));
        DistinctFirst(Clean(dirs[0]), LockedDirs(dirs[1..]));
      }
    }
  }

  lemma DistinctFirst<T>(x: T, s: seq<T>)
    ensures Distinct([x] + s) <==> Distinct(s) && forall i :: 0 <= i < |s| ==> s[i] != x
  {
    if Distinct([x] + s) {
      assert forall i :: 0 <= i < |s| ==> s[i] == ([x] + s)[i + 1] && ([x] + s)[0] != ([x] + s)[i + 1];
      assert forall i, j :: 0 <= i < j < |s| ==> s[i] == ([x] + s)[i + 1] && s[j] == ([x] + s)[j + 1];
    }
  }

  /** In terms of the caller: exactly when no two of the directories clean to one path. */
  lemma ExclusionByDirectory(dirs: seq<string>)
    ensures Exclusive(dirs) <==> Distinct(LockedDirs(dirs))
  {
    hide *;
    ExclusionExactly(dirs);
    SameRepeats(dirs);
  }

  lemma EmptyIsInitial()
    ensures Initial(Empty)
  {
  }
}
