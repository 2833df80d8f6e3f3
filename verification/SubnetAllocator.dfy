/**
 The allocator as the program has it: one process's class variables and reservations, updated by `create` and `destroy`.
 Each call is a run of the process's steps with those of the other processes anywhere in between, so that everything
 proved of runs holds of it.
 */
module SubnetAllocator {
  import opened Common
  import opened Addresses
  import opened Candidates
  import opened SubnetSystem
  import opened SubnetSafety

  datatype Outcome = Done | AssertionError | HostError | OsError | ValueError | NoFreeSubnet

  // Whether none of the events is the process's own.
  predicate Foreign(pid: Pid, events: seq<Event>) {
    forall e | e in events :: e.LockTable? || e.pid != pid
  }

  // The process asked for the byte, from one length of the run on, when another living process held it or the system
  // was out of locks.
  ghost predicate Refused(events: seq<Event>, from: nat, pid: Pid, key: Key) {
    exists n | from <= n < |events| :: RefusedAt(events, n, pid, key)
  }

  ghost predicate RefusedAt(events: seq<Event>, n: nat, pid: Pid, key: Key)
    requires n < |events|
  {
    && events[n] == TryLock(pid) && Exec(events[..n]).Some?
    && var s := Exec(events[..n]).value;
       && pid in s.processes && Asks(s.processes[pid], key)
       && InTheWay(s, pid, key)
  }

  // The system is out of locks, or another living process holds the byte.
  ghost predicate InTheWay(s: System, pid: Pid, key: Key) {
    s.full || exists other | other in s.processes :: other != pid && Holds(s, other, key)
  }

  lemma BlockedByOther(events: seq<Event>, pid: Pid, key: Key)
    requires Exec(events).Some? && Blocked(Exec(events).value, pid, key)
    ensures InTheWay(Exec(events).value, pid, key)
  {
    ReachableIsSound(events);
  }

  // The next request is for the byte.
  predicate Asks(p: Process, key: Key) {
    && p.phase.Trying? && Current(p) && p.phase.next < |CurrentReservation(p).candidates|
    && CandidateKey(CurrentReservation(p), p.phase.next) == key
  }

  lemma RefusedStays(events: seq<Event>, more: seq<Event>, from: nat, pid: Pid, key: Key)
    requires Refused(events, from, pid, key)
    ensures Refused(events + more, from, pid, key)
  {
    var n :| from <= n < |events| && RefusedAt(events, n, pid, key);
    assert (events + more)[..n] == events[..n];
    assert RefusedAt(events + more, n, pid, key);
  }

  // Why a block wasn't taken: its process had it, a route leads into it, or its lock wasn't to be had.
  ghost predicate Rejected(
    b: Slot, lock: Path, taken: set<Key>, routes: seq<Destination>, events: seq<Event>, from: nat, pid: Pid)
  {
    (lock, Index(b)) in taken || RoutedInto(b, routes) || Refused(events, from, pid, (lock, Index(b)))
  }

  ghost predicate AllRejected(
    blocks: seq<Slot>, lock: Path, taken: set<Key>, routes: seq<Destination>, events: seq<Event>, from: nat, pid: Pid)
  {
    forall b | b in blocks :: Rejected(b, lock, taken, routes, events, from, pid)
  }

  // The first candidate that nothing ruled out: its number wasn't taken, no route leads into it, and all before it were
  // rejected.
  ghost predicate FirstFit(
    subnets: Cidr, b: Slot, lock: Path, taken: set<Key>, routes: seq<Destination>, events: seq<Event>, from: nat,
    pid: Pid)
  {
    exists k: nat | k < Count(subnets) ::
      && b == AllCandidates(subnets)[k]
      && (lock, Index(b)) !in taken
      && !RoutedInto(b, routes)
      && AllRejected(AllCandidates(subnets)[..k], lock, taken, routes, events, from, pid)
  }

  lemma IsFirstFit(
    subnets: Cidr, k: nat, lock: Path, taken: set<Key>, routes: seq<Destination>, events: seq<Event>, from: nat,
    pid: Pid)
    requires k < Count(subnets)
    requires var b := AllCandidates(subnets)[k]; (lock, Index(b)) !in taken && !RoutedInto(b, routes)
    requires AllRejected(AllCandidates(subnets)[..k], lock, taken, routes, events, from, pid)
    ensures FirstFit(subnets, AllCandidates(subnets)[k], lock, taken, routes, events, from, pid)
  {
  }

  lemma OneMoreRejected(
    blocks: seq<Slot>, k: nat, lock: Path, taken: set<Key>, routes: seq<Destination>, events: seq<Event>, from: nat,
    pid: Pid)
    requires k < |blocks| && AllRejected(blocks[..k], lock, taken, routes, events, from, pid)
    requires Rejected(blocks[k], lock, taken, routes, events, from, pid)
    ensures AllRejected(blocks[..k + 1], lock, taken, routes, events, from, pid)
  {
    assert blocks[..k + 1] == blocks[..k] + [blocks[k]];
  }

  lemma RejectedStays(
    blocks: seq<Slot>, lock: Path, taken: set<Key>, routes: seq<Destination>, events: seq<Event>, more: seq<Event>,
    from: nat, pid: Pid)
    requires AllRejected(blocks, lock, taken, routes, events, from, pid)
    ensures AllRejected(blocks, lock, taken, routes, events + more, from, pid)
  {
    forall b | b in blocks
      ensures Rejected(b, lock, taken, routes, events + more, from, pid)
    {
      var key := (lock, Index(b));
      assert Rejected(b, lock, taken, routes, events, from, pid);
      if Refused(events, from, pid, key) {
        RefusedStays(events, more, from, pid, key);
      }
    }
  }

  // What others do doesn't reach into a process.
  lemma {:induction false} ForeignRun(events: seq<Event>, more: seq<Event>, pid: Pid)
    requires Exec(events).Some? && Exec(events + more).Some? && Foreign(pid, more)
    requires pid in Exec(events).value.processes
    ensures pid in Exec(events + more).value.processes
    ensures Exec(events + more).value.processes[pid] == Exec(events).value.processes[pid]
  {
    if more == [] {
      assert events + more == events;
    } else {
      var last := |more| - 1;
      assert (events + more)[..|events| + last] == events + more[..last];
      ForeignRun(events, more[..last], pid);
      assert more[last] in more;
      OthersUntouched(Exec(events + more[..last]).value, more[last], pid);
    }
  }

  lemma HeldAreExpected(events: seq<Event>, pid: Pid)
    requires Exec(events).Some? && pid in Exec(events).value.processes
    ensures var s := Exec(events).value;
      WellFormed(s.processes[pid]) && Held(s, pid) == Expected(s.processes[pid])
  {
    ReachableIsSound(events);
    assert Sound(Exec(events).value, pid);
  }

  // No file is closed, and none but the given one opened.
  predicate AtMostAdds(before: map<Path, Fd>, after: map<Path, Fd>, lock: Path) {
    after == before || (lock !in before && lock in after && after == before[lock := after[lock]])
  }

  lemma ExecStep(events: seq<Event>, e: Event)
    requires Exec(events).Some? && Enabled(Exec(events).value, e)
    ensures Exec(events + [e]) == Some(Apply(Exec(events).value, e))
  {
    assert (events + [e])[..|events|] == events;
  }

  /** A process: SubnetReservation's class variables, and the system it runs in. */
  class PythonProcess {
    const me: Pid
    var taken: set<Key>
    var files: map<Path, Fd>
    // The run so far and the state it led to; `others` is what the other processes do at each point it can be seen, and
    // `faults` whether each system call that may fail does.
    var events: seq<Event>
    var system: System
    var others: seq<seq<Event>>
    var faults: seq<bool>

    ghost predicate Valid()
      reads this
    {
      && Exec(events) == Some(system)
      && me in system.processes
      && system.processes[me].taken == taken
      && system.processes[me].files == files
    }

    ghost function Own(): Process
      reads this
      requires Valid()
    {
      system.processes[me]
    }

    constructor (me: Pid, events: seq<Event>, others: seq<seq<Event>>, faults: seq<bool>)
      requires Exec(events).Some? && me !in Exec(events).value.processes
      ensures Valid() && this.me == me && Own() == Process({}, map[], map[], Idle)
      ensures this.events == events + [Spawn(me)] && this.faults == faults
    {
      this.me := me;
      this.taken, this.files := {}, map[];
      this.events := events + [Spawn(me)];
      this.system := Apply(Exec(events).value, Spawn(me));
      this.others, this.faults := others, faults;
      new;
      ExecStep(events, Spawn(me));
    }

    // Lets the other processes run.
    method Interfere()
      requires Valid()
      modifies `events, `system, `others
      ensures Valid() && Own() == old(Own())
      ensures old(events) <= events && Foreign(me, events[|old(events)|..])
    {
      if others != [] {
        var batch := others[0];
        others := others[1..];
        if Foreign(me, batch) && Exec(events + batch).Some? {
          ForeignRun(events, batch, me);
          events := events + batch;
          system := Exec(events).value;
        }
      }
    }

    // The process's own event, which must agree with what its code did to its variables.
    method Commit(e: Event)
      requires Exec(events) == Some(system) && me in system.processes
      requires ByProcess(e) && e.pid == me && Enabled(system, e)
      requires var p := ProcessAfter(system, e, system.processes[me]); p.taken == taken && p.files == files
      modifies `events, `system
      ensures Valid() && events == old(events) + [e] && system == Apply(old(system), e)
      ensures Own() == ProcessAfter(old(system), e, old(system).processes[me])
      ensures !e.Construct? && !e.Record? && !e.Clear? ==>
        Own().reservations == old(system).processes[me].reservations
    {
      ExecStep(events, e);
      events := events + [e];
      system := Apply(system, e);
    }

    method Fault() returns (failed: bool)
      modifies `faults
      ensures failed <==> Fails(old(faults), 0)
      ensures faults == if old(faults) == [] then [] else old(faults)[1..]
    {
      failed := faults != [] && faults[0];
      if faults != [] {
        faults := faults[1..];
      }
    }

    // The lowest descriptor that isn't open.
    method FreeDescriptor() returns (fd: Fd)
      ensures (me, fd) !in system.descriptors
    {
      fd := 0;
      ghost var left := system.descriptors.Keys;
      while (me, fd) in system.descriptors
        invariant forall d | d in system.descriptors && d !in left :: d.0 == me && d.1 < fd
        decreases |left|
      {
        left := left - {(me, fd)};
        fd := fd + 1;
      }
    }
  }

  class SubnetReservation {
    const process: PythonProcess
    const id: Id
    const lock: Path
    const subnets: Cidr
    var index: Option<nat>
    var subnet: Option<Slot>

    ghost predicate Valid()
      reads this, process
    {
      && process.Valid()
      && id in process.Own().reservations
      && process.Own().reservations[id] == Reservation(lock, AllCandidates(subnets), subnet)
      && index == match subnet { case None => None case Some(b) => Some(Index(b)) }
    }

    ghost predicate Idle()
      reads process
      requires process.Valid()
    {
      process.Own().phase.Idle?
    }

    // Nothing but this reservation changed in its process.
    twostate predicate OnlyThis()
      requires old(process.Valid()) && process.Valid()
      reads this, process
    {
      && old(process.events) <= process.events
      && process.Own().reservations.Keys == old(process.Own().reservations.Keys)
      && forall other | other in process.Own().reservations && other != id ::
           process.Own().reservations[other] == old(process.Own().reservations[other])
    }

    constructor (process: PythonProcess, id: Id, lock: Path, subnets: Cidr)
      requires process.Valid() && process.Own().phase.Idle? && id !in process.Own().reservations
      modifies process`events, process`system
      ensures Valid() && Idle() && subnet == None
      ensures this.process == process && this.id == id && this.lock == lock && this.subnets == subnets
      ensures process.events == old(process.events) + [Construct(process.me, id, lock, AllCandidates(subnets))]
    {
      this.process, this.id, this.lock, this.subnets := process, id, lock, subnets;
      index, subnet := None, None;
      new;
      process.Commit(Construct(process.me, id, lock, AllCandidates(subnets)));
    }

    method Create(routes: Option<seq<Destination>>) returns (outcome: Outcome)
      requires Valid() && Idle()
      modifies this, process
      ensures Valid() && Idle() && OnlyThis()
      ensures outcome == AssertionError <==> old(subnet).Some?
      ensures outcome == HostError <==> old(subnet).None? && routes.None?
      // First fit.
      ensures outcome == Done ==>
        && subnet.Some? && !RoutedInto(subnet.value, routes.value)
        && FirstFit(subnets, subnet.value, lock, old(process.taken), routes.value, process.events,
                    |old(process.events)|, process.me)
        && process.taken == old(process.taken) + {(lock, Index(subnet.value))}
      ensures outcome == NoFreeSubnet ==>
        && Splits(subnets)
        && AllRejected(AllCandidates(subnets), lock, old(process.taken), routes.value, process.events,
                       |old(process.events)|, process.me)
      ensures outcome == ValueError ==> !Splits(subnets)
      ensures outcome == AssertionError || outcome == HostError ==> process.files == old(process.files)
      // Opening the lock file, or only changing its mode, failed. The file stays open after anything else.
      ensures outcome == OsError <==>
        && old(subnet).None? && routes.Some? && lock !in old(process.files)
        && (Fails(old(process.faults), 0) || Fails(old(process.faults), 1))
      ensures outcome == OsError ==> (lock in process.files <==> !Fails(old(process.faults), 0))
      ensures outcome == Done || outcome == NoFreeSubnet || outcome == ValueError ==> lock in process.files
      ensures outcome != Done ==> subnet == old(subnet) && process.taken == old(process.taken)
      ensures AtMostAdds(old(process.files), process.files, lock)
    {
      if subnet.Some? {
        return AssertionError;
      }
      ReadHost(routes);
      if routes.None? {
        return HostError;
      }
      outcome := Reserve(HostSubnets(routes.value), routes.value, |old(process.events)|);
    }

    // What follows once the routes are known.
    method Reserve(used: seq<Cidr>, ghost routes: seq<Destination>, ghost from: nat) returns (outcome: Outcome)
      requires Valid() && subnet.None? && process.Own().phase == Opening(id, used) && from <= |process.events|
      requires used == HostSubnets(routes)
      modifies this, process
      ensures Valid() && Idle() && OnlyThis()
      ensures outcome == Done || outcome == NoFreeSubnet || outcome == ValueError || outcome == OsError
      ensures outcome == Done ==>
        && subnet.Some?
        && FirstFit(subnets, subnet.value, lock, old(process.taken), routes, process.events, from, process.me)
        && process.taken == old(process.taken) + {(lock, Index(subnet.value))}
      ensures outcome == NoFreeSubnet ==>
        && Splits(subnets)
        && AllRejected(AllCandidates(subnets), lock, old(process.taken), routes, process.events, from, process.me)
      ensures outcome == ValueError ==> !Splits(subnets)
      ensures outcome == OsError <==>
        lock !in old(process.files) && (Fails(old(process.faults), 0) || Fails(old(process.faults), 1))
      ensures outcome == OsError ==> (lock in process.files <==> !Fails(old(process.faults), 0))
      ensures outcome != OsError ==> lock in process.files
      ensures outcome != Done ==> subnet.None? && process.taken == old(process.taken)
      ensures AtMostAdds(old(process.files), process.files, lock)
    {
      var ready := LockFile(used);
      if !ready {
        return OsError;
      }
      outcome := Scan(used, routes, from);
    }

    // Asks the host for its routes, which fails without any.
    method ReadHost(routes: Option<seq<Destination>>)
      requires Valid() && Idle() && subnet.None?
      modifies process
      ensures Valid() && OnlyThis() && process.taken == old(process.taken) && process.files == old(process.files)
      ensures process.faults == old(process.faults)
      ensures process.Own().phase == if routes.Some? then Opening(id, HostSubnets(routes.value)) else Phase.Idle
    {
      process.Interfere();
      if routes.Some? {
        process.Commit(ReadRoutes(process.me, id, routes.value));
      }
    }

    // Opens the lock file unless it already is. Changing its mode may fail, which leaves it open.
    method LockFile(ghost used: seq<Cidr>) returns (ready: bool)
      requires Valid() && process.Own().phase == Opening(id, used)
      modifies process
      ensures Valid() && OnlyThis() && process.taken == old(process.taken)
      ensures process.Own().phase == if ready then Trying(id, used, 0) else Phase.Idle
      ensures lock in process.files <==> lock in old(process.files) || !Fails(old(process.faults), 0)
      ensures ready <==>
        lock in old(process.files) || (!Fails(old(process.faults), 0) && !Fails(old(process.faults), 1))
      ensures AtMostAdds(old(process.files), process.files, lock)
    {
      process.Interfere();
      if lock in process.files {
        process.Commit(Open(process.me, 0, Reused));
        return true;
      }
      ready := OpenFile(used);
    }

    method OpenFile(ghost used: seq<Cidr>) returns (ready: bool)
      requires Valid() && process.Own().phase == Opening(id, used) && lock !in process.files
      modifies process
      ensures Valid() && OnlyThis() && process.taken == old(process.taken)
      ensures process.Own().phase == if ready then Trying(id, used, 0) else Phase.Idle
      ensures lock in process.files <==> !Fails(old(process.faults), 0)
      ensures ready <==> !Fails(old(process.faults), 0) && !Fails(old(process.faults), 1)
      ensures AtMostAdds(old(process.files), process.files, lock)
    {
      var failed := process.Fault();
      if failed {
        process.Commit(Open(process.me, 0, OpenFailed));
        return false;
      }
      var fd := process.FreeDescriptor();
      failed := process.Fault();
      Hold(used, fd, if failed then ModeFailed else Opened);
      return !failed;
    }

    // Enters the new descriptor of the lock file.
    method Hold(ghost used: seq<Cidr>, fd: Fd, outcome: OpenOutcome)
      requires Valid() && process.Own().phase == Opening(id, used) && lock !in process.files
      requires (process.me, fd) !in process.system.descriptors && (outcome.Opened? || outcome.ModeFailed?)
      modifies process
      ensures Valid() && OnlyThis() && process.taken == old(process.taken)
      ensures process.Own().phase == if outcome.Opened? then Trying(id, used, 0) else Phase.Idle
      ensures process.files == old(process.files)[lock := fd]
    {
      process.files := process.files[lock := fd];
      process.Commit(Open(process.me, fd, outcome));
    }

    // One non-blocking request for the byte of the next candidate.
    method Lockf(ghost used: seq<Cidr>, j: nat, ghost from: nat) returns (locked: bool)
      requires Valid() && process.Own().phase == Trying(id, used, j) && j < Count(subnets)
      requires !Skips(process.Own(), process.Own().reservations[id], used, j)
      requires from <= |process.events|
      modifies process
      ensures Valid() && OnlyThis() && process.taken == old(process.taken) && process.files == old(process.files)
      ensures process.Own().phase == if locked then Granted(id, j) else Trying(id, used, j + 1)
      ensures !locked ==>
        Refused(process.events, from, process.me, (lock, Index(AllCandidates(subnets)[j])))
    {
      process.Interfere();
      ghost var before := process.events;
      locked := !Blocked(process.system, process.me, (lock, Index(AllCandidates(subnets)[j])));
      process.Commit(TryLock(process.me));
      if !locked {
        assert process.events[..|before|] == before;
        BlockedByOther(before, process.me, (lock, Index(AllCandidates(subnets)[j])));
        assert RefusedAt(process.events, |before|, process.me, (lock, Index(AllCandidates(subnets)[j])));
      }
    }

    method Scan(used: seq<Cidr>, ghost routes: seq<Destination>, ghost from: nat) returns (outcome: Outcome)
      requires Valid() && subnet.None? && process.Own().phase == Trying(id, used, 0) && from <= |process.events|
      requires used == HostSubnets(routes)
      modifies this, process
      ensures Valid() && Idle() && OnlyThis() && process.files == old(process.files)
      ensures outcome == Done || outcome == NoFreeSubnet || outcome == ValueError
      ensures outcome == Done ==>
        && subnet.Some?
        && FirstFit(subnets, subnet.value, lock, old(process.taken), routes, process.events, from, process.me)
        && process.taken == old(process.taken) + {(lock, Index(subnet.value))}
      ensures outcome == NoFreeSubnet ==>
        && Splits(subnets)
        && AllRejected(AllCandidates(subnets), lock, old(process.taken), routes, process.events, from, process.me)
      ensures outcome == ValueError ==> !Splits(subnets)
      ensures outcome != Done ==> subnet.None? && process.taken == old(process.taken)
    {
      var candidates := AllCandidates(subnets);
      var j := 0;
      while j < |candidates|
        invariant j <= |candidates|
        invariant Valid() && OnlyThis() && subnet.None?
        invariant process.Own().phase == Trying(id, used, j)
        invariant process.taken == old(process.taken) && process.files == old(process.files)
        invariant AllRejected(candidates[..j], lock, process.taken, routes, process.events, from, process.me)
      {
        var locked := Try(used, routes, j, from);
        if locked {
          IsFirstFit(subnets, j, lock, old(process.taken), routes, process.events, from, process.me);
          return Done;
        }
        OneMoreRejected(candidates, j, lock, process.taken, routes, process.events, from, process.me);
        j := j + 1;
      }
      assert candidates[..j] == candidates;
      Exhaust(used, routes, from);
      return if Splits(subnets) then NoFreeSubnet else ValueError;
    }

    // Raises, after the last candidate.
    method Exhaust(ghost used: seq<Cidr>, ghost routes: seq<Destination>, ghost from: nat)
      requires Valid() && subnet.None? && process.Own().phase == Trying(id, used, Count(subnets))
      requires AllRejected(AllCandidates(subnets), lock, process.taken, routes, process.events, from, process.me)
      modifies process
      ensures Valid() && Idle() && OnlyThis()
      ensures process.taken == old(process.taken) && process.files == old(process.files)
      ensures AllRejected(AllCandidates(subnets), lock, process.taken, routes, process.events, from, process.me)
    {
      RejectedStays(
        AllCandidates(subnets), lock, process.taken, routes, process.events, [GiveUp(process.me)], from, process.me);
      process.Commit(GiveUp(process.me));
    }

    method Keep(j: nat)
      requires Valid() && subnet.None? && process.Own().phase == Granted(id, j) && j < Count(subnets)
      modifies this, process
      ensures Valid() && Idle() && OnlyThis() && process.files == old(process.files)
      ensures subnet == Some(AllCandidates(subnets)[j])
      ensures process.taken == old(process.taken) + {(lock, Index(subnet.value))}
    {
      var b := AllCandidates(subnets)[j];
      process.taken := process.taken + {(lock, Index(b))};
      index, subnet := Some(Index(b)), Some(b);
      process.Commit(Record(process.me));
    }

    // The loop's body for one candidate.
    method Try(used: seq<Cidr>, ghost routes: seq<Destination>, j: nat, ghost from: nat) returns (reserved: bool)
      requires Valid() && subnet.None? && process.Own().phase == Trying(id, used, j) && j < Count(subnets)
      requires used == HostSubnets(routes)
      requires from <= |process.events|
      requires AllRejected(AllCandidates(subnets)[..j], lock, process.taken, routes, process.events, from, process.me)
      modifies this, process
      ensures Valid() && OnlyThis() && process.files == old(process.files)
      ensures
        AllRejected(AllCandidates(subnets)[..j], lock, old(process.taken), routes, process.events, from, process.me)
      ensures reserved ==>
        && Idle() && subnet == Some(AllCandidates(subnets)[j]) && !RoutedInto(subnet.value, routes)
        && process.taken == old(process.taken) + {(lock, Index(subnet.value))}
        && (lock, Index(subnet.value)) !in old(process.taken)
      ensures !reserved ==>
        && process.Own().phase == Trying(id, used, j + 1) && subnet.None? && process.taken == old(process.taken)
        && Rejected(AllCandidates(subnets)[j], lock, process.taken, routes, process.events, from, process.me)
    {
      var b := AllCandidates(subnets)[j];
      OverlapsIfRouted(b, routes);
      if (lock, Index(b)) in process.taken || OverlapsAny(b, used) {
        process.Commit(Skip(process.me));
        reserved := false;
      } else {
        reserved := Lockf(used, j, from);
        if reserved {
          Keep(j);
        }
      }
      ghost var more := process.events[|old(process.events)|..];
      assert process.events == old(process.events) + more;
      RejectedStays(
        AllCandidates(subnets)[..j], lock, old(process.taken), routes, old(process.events), more, from, process.me);
    }

    method Destroy() returns (outcome: Outcome)
      requires Valid() && Idle()
      modifies this, process
      ensures Valid() && Idle() && OnlyThis()
      ensures outcome == if old(subnet).Some? then Done else AssertionError
      ensures subnet.None?
      ensures outcome == AssertionError ==> process.taken == old(process.taken) && process.files == old(process.files)
      ensures outcome == Done ==>
        && process.taken == old(process.taken) - {(lock, old(index).value)}
        && process.files ==
             if exists k | k in process.taken :: k.0 == lock then old(process.files) else old(process.files) - {lock}
    {
      if subnet.None? {
        return AssertionError;
      }
      Release();
      CloseUnused();
      index, subnet := None, None;
      process.Commit(Clear(process.me));
      return Done;
    }

    // Unlocks the byte, and only then removes its entry.
    method Release()
      requires Valid() && Idle() && subnet.Some?
      modifies process
      ensures Held(process.system, process.me) == process.taken
      ensures Valid() && OnlyThis() && process.Own().phase == Removed(id)
      ensures process.taken == old(process.taken) - {(lock, index.value)} && process.files == old(process.files)
    {
      process.Interfere();
      process.Commit(Unlock(process.me, id));
      process.taken := process.taken - {(lock, index.value)};
      process.Commit(Remove(process.me));
      HeldAreExpected(process.events, process.me);
    }

    // Closes the lock file if the process has no other reservation in it.
    method CloseUnused()
      requires Valid() && process.Own().phase == Removed(id) && subnet.Some?
      modifies process
      ensures Valid() && OnlyThis() && process.Own().phase == Closed(id) && process.taken == old(process.taken)
      ensures process.files ==
        if exists k | k in process.taken :: k.0 == lock then old(process.files) else old(process.files) - {lock}
    {
      process.Interfere();
      assert lock in process.files by {
        ReachableIsSound(process.events);
        assert Sound(process.system, process.me);
      }
      if !StillUsed(process.taken, lock) {
        process.files := process.files - {lock};
      }
      process.Commit(Close(process.me));
    }
  }

  // A process whose first `create` fails as the lock file's mode can't be changed: it reserves nothing, and has the
  // file open.
  method LeftOpen(lock: Path, subnets: Cidr) returns (process: PythonProcess)
    ensures process.Valid() && lock in process.files && process.taken == {}
  {
    process := new PythonProcess(0, [], [], [false, true]);
    var reservation := new SubnetReservation(process, 0, lock, subnets);
    var outcome := reservation.Create(Some([]));
    assert outcome == OsError;
  }
}
