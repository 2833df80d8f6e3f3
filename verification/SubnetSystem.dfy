/**
 Any number of processes reserving /24s by locking bytes of lock files, as a system of atomic steps.

 Record locks follow the fcntl() page of POSIX.1-2017: they belong to a process and a file, a process never conflicts
 with itself, and closing any descriptor of a file drops all of the process's locks on it. An event is one system call,
 or one statement on the process's own bookkeeping; a process may die between any two.
 */
module SubnetSystem {
  import opened Common
  import opened Addresses
  import opened Candidates

  type Pid = nat
  type Fd = nat
  type Id = nat
  type Path = string

  // A byte of a lock file.
  type Key = (Path, nat)

  // `candidates` are all the blocks `create` goes through, and `subnet` the one it got.
  datatype Reservation = Reservation(lock: Path, candidates: seq<Slot>, subnet: Option<Slot>)

  // Where a process's single thread is: outside of `create` and `destroy`, or between two of their steps.
  datatype Phase =
    | Idle
    | Opening(id: Id, used: seq<Cidr>)
    | Trying(id: Id, used: seq<Cidr>, next: nat)
    | Granted(id: Id, next: nat)
    | Unlocked(id: Id)
    | Removed(id: Id)
    | Closed(id: Id)

  // `taken` and `files` are shared by the process's reservations.
  datatype Process = Process(
    taken: set<Key>, files: map<Path, Fd>, reservations: map<Id, Reservation>, phase: Phase)

  // `full` says that the system is out of locks, so that requesting one fails without a conflict.
  datatype System = System(
    processes: map<Pid, Process>, locks: map<Key, Pid>, descriptors: map<(Pid, Fd), Path>, full: bool)

  datatype OpenOutcome = Reused | Opened | OpenFailed | ModeFailed

  datatype Event =
    | Spawn(pid: Pid)
    | Die(pid: Pid)
    | LockTable(full: bool)
    | Construct(pid: Pid, id: Id, lock: Path, candidates: seq<Slot>)
    | ReadRoutes(pid: Pid, id: Id, routes: seq<Destination>)
    | Open(pid: Pid, fd: Fd, outcome: OpenOutcome)
    | Skip(pid: Pid)
    | TryLock(pid: Pid)
    | Record(pid: Pid)
    | GiveUp(pid: Pid)
    | Unlock(pid: Pid, id: Id)
    | Remove(pid: Pid)
    | Close(pid: Pid)
    | Clear(pid: Pid)

  const INITIAL := System(map[], map[], map[], false)

  predicate Holds(s: System, pid: Pid, key: Key) {
    key in s.locks && s.locks[key] == pid
  }

  ghost function Held(s: System, pid: Pid): set<Key> {
    set k | k in s.locks && s.locks[k] == pid
  }

  // Whether requesting the byte fails: another process's lock is in the way, or there are no locks left.
  predicate Blocked(s: System, pid: Pid, key: Key) {
    s.full || (key in s.locks && s.locks[key] != pid)
  }

  predicate IsOpen(s: System, pid: Pid, fd: Fd, path: Path) {
    (pid, fd) in s.descriptors && s.descriptors[(pid, fd)] == path
  }

  function CandidateKey(r: Reservation, j: nat): Key
    requires j < |r.candidates|
  {
    (r.lock, Index(r.candidates[j]))
  }

  // Whether a candidate isn't even tried.
  predicate Skips(p: Process, r: Reservation, used: seq<Cidr>, j: nat)
    requires j < |r.candidates|
  {
    CandidateKey(r, j) in p.taken || OverlapsAny(r.candidates[j], used)
  }

  predicate Current(p: Process) {
    !p.phase.Idle? && p.phase.id in p.reservations
  }

  function CurrentReservation(p: Process): Reservation
    requires Current(p)
  {
    p.reservations[p.phase.id]
  }

  function KeyOf(r: Reservation): Key
    requires r.subnet.Some?
  {
    (r.lock, Index(r.subnet.value))
  }

  predicate Enabled(s: System, e: Event) {
    match e
    case Spawn(pid) => pid !in s.processes
    case LockTable(_) => true
    case _ => e.pid in s.processes && EnabledIn(s, e, s.processes[e.pid])
  }

  predicate EnabledIn(s: System, e: Event, p: Process)
    requires !e.Spawn? && !e.LockTable?
  {
    match e
    case Die(_) => true
    case Construct(_, id, _, _) => p.phase.Idle? && id !in p.reservations
    case ReadRoutes(_, id, _) => p.phase.Idle? && id in p.reservations && p.reservations[id].subnet.None?
    case Open(pid, fd, outcome) =>
      && p.phase.Opening? && Current(p)
      && (outcome.Reused? <==> CurrentReservation(p).lock in p.files)
      && (outcome.Opened? || outcome.ModeFailed? ==> (pid, fd) !in s.descriptors)
    case Skip(_) =>
      && p.phase.Trying? && Current(p) && p.phase.next < |CurrentReservation(p).candidates|
      && Skips(p, CurrentReservation(p), p.phase.used, p.phase.next)
    case TryLock(_) =>
      && p.phase.Trying? && Current(p) && p.phase.next < |CurrentReservation(p).candidates|
      && !Skips(p, CurrentReservation(p), p.phase.used, p.phase.next)
    case Record(_) => p.phase.Granted? && Current(p) && p.phase.next < |CurrentReservation(p).candidates|
    case GiveUp(_) => p.phase.Trying? && Current(p) && p.phase.next == |CurrentReservation(p).candidates|
    case Unlock(_, id) => p.phase.Idle? && id in p.reservations && p.reservations[id].subnet.Some?
    case Remove(_) => p.phase.Unlocked? && Current(p) && CurrentReservation(p).subnet.Some?
    case Close(_) => p.phase.Removed? && Current(p) && CurrentReservation(p).lock in p.files
    case Clear(_) => p.phase.Closed? && Current(p)
  }

  predicate StillUsed(taken: set<Key>, lock: Path) {
    exists k | k in taken :: k.0 == lock
  }

  // Whether the event is by a process that exists and goes on existing.
  predicate ByProcess(e: Event) {
    !e.Spawn? && !e.Die? && !e.LockTable?
  }

  function Apply(s: System, e: Event): System
    requires Enabled(s, e)
  {
    System(ProcessesAfter(s, e), LocksAfter(s, e), DescriptorsAfter(s, e), if e.LockTable? then e.full else s.full)
  }

  function ProcessesAfter(s: System, e: Event): map<Pid, Process>
    requires Enabled(s, e)
  {
    match e
    case LockTable(_) => s.processes
    case Spawn(pid) => s.processes[pid := Process({}, map[], map[], Idle)]
    case Die(pid) => s.processes - {pid}
    case _ => s.processes[e.pid := ProcessAfter(s, e, s.processes[e.pid])]
  }

  function LocksAfter(s: System, e: Event): map<Key, Pid>
    requires Enabled(s, e)
  {
    match e
    case Die(pid) => map k | k in s.locks && s.locks[k] != pid :: s.locks[k]
    case TryLock(pid) =>
      var p := s.processes[pid];
      var key := CandidateKey(CurrentReservation(p), p.phase.next);
      if Blocked(s, pid, key) then s.locks else s.locks[key := pid]
    case Unlock(pid, id) =>
      var key := KeyOf(s.processes[pid].reservations[id]);
      if Holds(s, pid, key) then s.locks - {key} else s.locks
    case Close(pid) =>
      var p := s.processes[pid];
      var lock := CurrentReservation(p).lock;
      if StillUsed(p.taken, lock) then s.locks
      else map k | k in s.locks && !(s.locks[k] == pid && k.0 == lock) :: s.locks[k]
    case _ => s.locks
  }

  function DescriptorsAfter(s: System, e: Event): map<(Pid, Fd), Path>
    requires Enabled(s, e)
  {
    match e
    case Die(pid) => map d | d in s.descriptors && d.0 != pid :: s.descriptors[d]
    case Open(pid, fd, outcome) =>
      if outcome.Opened? || outcome.ModeFailed? then
        s.descriptors[(pid, fd) := CurrentReservation(s.processes[pid]).lock]
      else s.descriptors
    case Close(pid) =>
      var p := s.processes[pid];
      var lock := CurrentReservation(p).lock;
      if StillUsed(p.taken, lock) then s.descriptors else s.descriptors - {(pid, p.files[lock])}
    case _ => s.descriptors
  }

  function ProcessAfter(s: System, e: Event, p: Process): Process
    requires ByProcess(e) && EnabledIn(s, e, p)
  {
    match e
    case Construct(_, id, lock, candidates) =>
      p.(reservations := p.reservations[id := Reservation(lock, candidates, None)])
    case ReadRoutes(_, id, routes) => p.(phase := Opening(id, HostSubnets(routes)))
    case Open(_, fd, outcome) =>
      var files :=
        if outcome.Opened? || outcome.ModeFailed? then p.files[CurrentReservation(p).lock := fd] else p.files;
      var phase := if outcome.Opened? || outcome.Reused? then Trying(p.phase.id, p.phase.used, 0) else Idle;
      p.(files := files, phase := phase)
    case Skip(_) => p.(phase := Trying(p.phase.id, p.phase.used, p.phase.next + 1))
    case TryLock(pid) =>
      if Blocked(s, pid, CandidateKey(CurrentReservation(p), p.phase.next)) then
        p.(phase := Trying(p.phase.id, p.phase.used, p.phase.next + 1))
      else
        p.(phase := Granted(p.phase.id, p.phase.next))
    case Record(_) =>
      var r := CurrentReservation(p);
      Process(
        p.taken + {CandidateKey(r, p.phase.next)},
        p.files,
        p.reservations[p.phase.id := r.(subnet := Some(r.candidates[p.phase.next]))],
        Idle)
    case GiveUp(_) => p.(phase := Idle)
    case Unlock(_, id) => p.(phase := Unlocked(id))
    case Remove(_) => p.(taken := p.taken - {KeyOf(CurrentReservation(p))}, phase := Removed(p.phase.id))
    case Close(_) =>
      var lock := CurrentReservation(p).lock;
      p.(files := if StillUsed(p.taken, lock) then p.files else p.files - {lock}, phase := Closed(p.phase.id))
    case Clear(_) =>
      p.(reservations := p.reservations[p.phase.id := CurrentReservation(p).(subnet := None)], phase := Idle)
  }

  /** The state after a run, if every event of it was possible when it happened. */
  function Exec(events: seq<Event>): Option<System> {
    if events == [] then Some(INITIAL)
    else
      var last := |events| - 1;
      match Exec(events[..last])
      case None => None
      case Some(s) => if Enabled(s, events[last]) then Some(Apply(s, events[last])) else None
  }

  // ---- What every reachable state satisfies ----

  // Reservations that `create` returned and no `destroy` began to release.
  predicate LiveIn(p: Process, id: Id) {
    && id in p.reservations && p.reservations[id].subnet.Some?
    && !((p.phase.Unlocked? || p.phase.Removed? || p.phase.Closed?) && p.phase.id == id)
  }

  predicate Live(s: System, pid: Pid, id: Id) {
    pid in s.processes && LiveIn(s.processes[pid], id)
  }

  // The bytes a process should hold: those in TAKEN, but for the one between the lock call and the bookkeeping.
  function Expected(p: Process): set<Key>
    requires WellFormed(p)
  {
    match p.phase
    case Granted(id, next) => p.taken + {CandidateKey(p.reservations[id], next)}
    case Unlocked(id) => p.taken - {KeyOf(p.reservations[id])}
    case _ => p.taken
  }

  ghost predicate WellFormed(p: Process) {
    && (!p.phase.Idle? ==> p.phase.id in p.reservations)
    && PhaseFits(p)
  }

  ghost predicate PhaseFits(p: Process)
    requires !p.phase.Idle? ==> p.phase.id in p.reservations
  {
    match p.phase
    case Idle => true
    case Opening(id, _) => p.reservations[id].subnet.None?
    case Trying(id, _, next) =>
      && p.reservations[id].subnet.None? && p.reservations[id].lock in p.files
      && next <= |p.reservations[id].candidates|
    case Granted(id, next) =>
      && p.reservations[id].subnet.None? && p.reservations[id].lock in p.files
      && next < |p.reservations[id].candidates|
      && CandidateKey(p.reservations[id], next) !in p.taken
    case Unlocked(id) => p.reservations[id].subnet.Some? && KeyOf(p.reservations[id]) in p.taken
    case Removed(id) =>
      && p.reservations[id].subnet.Some? && KeyOf(p.reservations[id]) !in p.taken
      && p.reservations[id].lock in p.files
    case Closed(id) => p.reservations[id].subnet.Some? && KeyOf(p.reservations[id]) !in p.taken
  }

  // TAKEN has an entry for each of the process's reservations and no other, no two share one, and each entry's file is
  // open.
  ghost predicate Bookkeeping(p: Process) {
    Recorded(p) && Distinct(p) && Owned(p) && FilesOpen(p)
  }

  ghost predicate Recorded(p: Process) {
    forall id | id in p.reservations && p.reservations[id].subnet.Some? ::
      KeyOf(p.reservations[id]) in p.taken || ((p.phase.Removed? || p.phase.Closed?) && p.phase.id == id)
  }

  ghost predicate Distinct(p: Process) {
    forall i, j | i in p.reservations && j in p.reservations && i != j
                  && p.reservations[i].subnet.Some? && p.reservations[j].subnet.Some? ::
      KeyOf(p.reservations[i]) != KeyOf(p.reservations[j])
  }

  ghost predicate Owns(p: Process, id: Id, k: Key) {
    id in p.reservations && p.reservations[id].subnet.Some? && KeyOf(p.reservations[id]) == k
  }

  ghost predicate Owned(p: Process) {
    forall k | k in p.taken :: exists id :: Owns(p, id, k)
  }

  ghost predicate FilesOpen(p: Process) {
    forall k | k in p.taken :: k.0 in p.files
  }

  // The kernel's view of the process agrees with its own: its locks are the expected ones, its descriptors FILES.
  ghost predicate Coupled(s: System, pid: Pid)
    requires pid in s.processes && WellFormed(s.processes[pid])
  {
    var p := s.processes[pid];
    && Held(s, pid) == Expected(p)
    && (forall fd, path :: IsOpen(s, pid, fd, path) <==> path in p.files && p.files[path] == fd)
  }

  ghost predicate Sound(s: System, pid: Pid) {
    pid in s.processes ==> WellFormed(s.processes[pid]) && Bookkeeping(s.processes[pid]) && Coupled(s, pid)
  }

  ghost predicate Invariant(s: System) {
    && (forall k | k in s.locks :: s.locks[k] in s.processes)
    && (forall d | d in s.descriptors :: d.0 in s.processes)
    && (forall pid | pid in s.processes :: Sound(s, pid))
  }

  // An event of one process leaves the others' memory, locks and descriptors alone.
  lemma OthersUntouched(s: System, e: Event, pid: Pid)
    requires Enabled(s, e) && (e.LockTable? || e.pid != pid)
    ensures var t := Apply(s, e);
      && (pid in t.processes <==> pid in s.processes)
      && (pid in s.processes ==> t.processes[pid] == s.processes[pid])
      && Held(t, pid) == Held(s, pid)
      && (forall fd, path :: IsOpen(t, pid, fd, path) <==> IsOpen(s, pid, fd, path))
  {
  }

  // What an event does to the locks its process holds.
  lemma HeldAfter(s: System, e: Event)
    requires Enabled(s, e) && ByProcess(e)
    ensures var p, before, after := s.processes[e.pid], Held(s, e.pid), Held(Apply(s, e), e.pid);
      match e
      case TryLock(pid) =>
        var key := CandidateKey(CurrentReservation(p), p.phase.next);
        after == if Blocked(s, pid, key) then before else before + {key}
      case Unlock(_, id) => after == before - {KeyOf(p.reservations[id])}
      case Close(_) =>
        after == if StillUsed(p.taken, CurrentReservation(p).lock) then before
                 else set k | k in before && k.0 != CurrentReservation(p).lock
      case _ => after == before
  {
  }

  // What an event does to the descriptors its process has open.
  lemma OpenAfter(s: System, e: Event, fd: Fd, path: Path)
    requires Enabled(s, e) && ByProcess(e)
    ensures var p := s.processes[e.pid];
      var before, after := IsOpen(s, e.pid, fd, path), IsOpen(Apply(s, e), e.pid, fd, path);
      match e
      case Open(_, fresh_, outcome) =>
        after <==>
          before || ((outcome.Opened? || outcome.ModeFailed?) && fd == fresh_ && path == CurrentReservation(p).lock)
      case Close(_) =>
        after <==>
          before && (StillUsed(p.taken, CurrentReservation(p).lock) || fd != p.files[CurrentReservation(p).lock])
      case _ => after <==> before
  {
  }

  lemma StaysWellFormed(s: System, e: Event, p: Process)
    requires ByProcess(e) && EnabledIn(s, e, p) && WellFormed(p) && Bookkeeping(p)
    ensures WellFormed(ProcessAfter(s, e, p))
  {
  }

  lemma BookkeepingKept(s: System, e: Event, p: Process)
    requires ByProcess(e) && EnabledIn(s, e, p) && WellFormed(p) && Bookkeeping(p)
    ensures Bookkeeping(ProcessAfter(s, e, p))
  {
    StaysRecorded(s, e, p);
    StaysDistinct(s, e, p);
    StaysOwned(s, e, p);
  }

  lemma StaysRecorded(s: System, e: Event, p: Process)
    requires ByProcess(e) && EnabledIn(s, e, p) && WellFormed(p) && Bookkeeping(p)
    ensures Recorded(ProcessAfter(s, e, p))
  {
  }

  lemma StaysDistinct(s: System, e: Event, p: Process)
    requires ByProcess(e) && EnabledIn(s, e, p) && WellFormed(p) && Bookkeeping(p)
    ensures Distinct(ProcessAfter(s, e, p))
  {
  }

  lemma StaysOwned(s: System, e: Event, p: Process)
    requires ByProcess(e) && EnabledIn(s, e, p) && WellFormed(p) && Bookkeeping(p)
    ensures Owned(ProcessAfter(s, e, p))
  {
    var q := ProcessAfter(s, e, p);
    forall k | k in q.taken
      ensures exists id :: Owns(q, id, k)
    {
      if e.Record? && k == CandidateKey(CurrentReservation(p), p.phase.next) {
        assert Owns(q, p.phase.id, k);
      } else {
        var id :| Owns(p, id, k);
        assert Owns(q, id, k);
      }
    }
  }

  lemma LocksExpected(s: System, e: Event)
    requires Enabled(s, e) && ByProcess(e) && Sound(s, e.pid)
    requires WellFormed(ProcessAfter(s, e, s.processes[e.pid]))
    ensures Held(Apply(s, e), e.pid) == Expected(ProcessAfter(s, e, s.processes[e.pid]))
  {
    HeldAfter(s, e);
  }

  lemma DescriptorsExpected(s: System, e: Event, fd: Fd, path: Path)
    requires Enabled(s, e) && ByProcess(e) && Sound(s, e.pid)
    ensures var q := ProcessAfter(s, e, s.processes[e.pid]);
      IsOpen(Apply(s, e), e.pid, fd, path) <==> path in q.files && q.files[path] == fd
  {
    var p := s.processes[e.pid];
    OpenAfter(s, e, fd, path);
    assert IsOpen(s, e.pid, fd, path) <==> path in p.files && p.files[path] == fd;
    if e.Close? {
      var lock := CurrentReservation(p).lock;
      assert IsOpen(s, e.pid, p.files[lock], lock);
    }
  }

  lemma OwnStep(s: System, e: Event)
    requires Enabled(s, e) && ByProcess(e) && Sound(s, e.pid)
    ensures Sound(Apply(s, e), e.pid)
  {
    var p := s.processes[e.pid];
    StaysWellFormed(s, e, p);
    BookkeepingKept(s, e, p);
    LocksExpected(s, e);
    forall fd, path
      ensures var q := ProcessAfter(s, e, p);
        IsOpen(Apply(s, e), e.pid, fd, path) <==> path in q.files && q.files[path] == fd
    {
      DescriptorsExpected(s, e, fd, path);
    }
  }

  lemma OwnersExist(s: System, e: Event)
    requires Invariant(s) && Enabled(s, e)
    ensures var t := Apply(s, e);
      && (forall k | k in t.locks :: t.locks[k] in t.processes)
      && (forall d | d in t.descriptors :: d.0 in t.processes)
  {
  }

  lemma Preserved(s: System, e: Event)
    requires Invariant(s) && Enabled(s, e)
    ensures Invariant(Apply(s, e))
  {
    OwnersExist(s, e);
    var t := Apply(s, e);
    forall pid | pid in t.processes
      ensures Sound(t, pid)
    {
      if e.LockTable? || e.pid != pid {
        OthersUntouched(s, e, pid);
        assert Sound(s, pid);
      } else if e.Spawn? {
        StartsSound(s, e);
      } else {
        assert Sound(s, pid);
        OwnStep(s, e);
      }
    }
  }

  lemma StartsSound(s: System, e: Event)
    requires Invariant(s) && Enabled(s, e) && e.Spawn?
    ensures Sound(Apply(s, e), e.pid)
  {
    assert Held(s, e.pid) == {};
  }
}
