/** What holds of every run of the reserving processes. */
module SubnetSafety {
  import opened Addresses
  import opened Candidates
  import opened SubnetSystem

  lemma {:induction false} ReachableIsSound(events: seq<Event>)
    requires Exec(events).Some?
    ensures Invariant(Exec(events).value)
  {
    if events != [] {
      var last := |events| - 1;
      ReachableIsSound(events[..last]);
      Preserved(Exec(events[..last]).value, events[last]);
    }
  }

  lemma LiveHoldsItsByte(s: System, pid: Pid, id: Id)
    requires Invariant(s) && Live(s, pid, id)
    ensures Holds(s, pid, KeyOf(s.processes[pid].reservations[id]))
  {
    assert Sound(s, pid);
    var p := s.processes[pid];
    var key := KeyOf(p.reservations[id]);
    assert Held(s, pid) == Expected(p);
    assert p.phase.Unlocked? ==> KeyOf(p.reservations[p.phase.id]) != key;
    assert key in Expected(p);
  }

  /**
   Mutual exclusion: whatever the interleaving, and whatever ranges they were asked from, no two live reservations on
   one lock file share an address.
   */
  lemma NoOverlap(events: seq<Event>, pid: Pid, id: Id, other: Pid, otherId: Id)
    requires Exec(events).Some?
    requires Live(Exec(events).value, pid, id) && Live(Exec(events).value, other, otherId)
    requires (pid, id) != (other, otherId)
    requires var s := Exec(events).value;
      s.processes[pid].reservations[id].lock == s.processes[other].reservations[otherId].lock
    ensures var s := Exec(events).value;
      forall a :: !(Contains(s.processes[pid].reservations[id].subnet.value, a)
                    && Contains(s.processes[other].reservations[otherId].subnet.value, a))
  {
    ReachableIsSound(events);
    var s := Exec(events).value;
    var r, q := s.processes[pid].reservations[id], s.processes[other].reservations[otherId];
    LiveHoldsItsByte(s, pid, id);
    LiveHoldsItsByte(s, other, otherId);
    assert Sound(s, pid);
    assert KeyOf(r) != KeyOf(q);
    DifferentNumbersAreDisjoint(r.subnet.value, q.subnet.value);
    OverlapIsIntersection(r.subnet.value, q.subnet.value);
  }

  lemma OwnStepKeeps(s: System, e: Event, p: Process, id: Id)
    requires ByProcess(e) && EnabledIn(s, e, p) && WellFormed(p) && LiveIn(p, id)
    requires !(e.Unlock? && e.id == id)
    ensures var q := ProcessAfter(s, e, p); LiveIn(q, id) && q.reservations[id] == p.reservations[id]
  {
  }

  // Only its own release, or its process's death, ends a reservation.
  lemma NoReservationLost(s: System, e: Event, pid: Pid, id: Id)
    requires Invariant(s) && Enabled(s, e) && Live(s, pid, id)
    requires e != Die(pid) && e != Unlock(pid, id)
    ensures Live(Apply(s, e), pid, id)
    ensures Apply(s, e).processes[pid].reservations[id] == s.processes[pid].reservations[id]
  {
    assert Sound(s, pid);
    if e.LockTable? || e.pid != pid {
      OthersUntouched(s, e, pid);
    } else {
      OwnStepKeeps(s, e, s.processes[pid], id);
    }
  }

  /**
   A reserved byte stays locked by its process, through everything any process does (in particular closing and failing),
   until its own release or its process's death.
   */
  lemma {:induction false} ByteStaysLocked(events: seq<Event>, more: seq<Event>, pid: Pid, id: Id)
    requires Exec(events + more).Some? && Exec(events).Some? && Live(Exec(events).value, pid, id)
    requires Die(pid) !in more && Unlock(pid, id) !in more
    ensures var s, t := Exec(events).value, Exec(events + more).value;
      && Live(t, pid, id)
      && t.processes[pid].reservations[id] == s.processes[pid].reservations[id]
      && Holds(t, pid, KeyOf(s.processes[pid].reservations[id]))
  {
    if more == [] {
      assert events + more == events;
    } else {
      var last := |more| - 1;
      assert (events + more)[..|events| + last] == events + more[..last];
      ByteStaysLocked(events, more[..last], pid, id);
      ReachableIsSound(events + more[..last]);
      NoReservationLost(Exec(events + more[..last]).value, more[last], pid, id);
    }
    ReachableIsSound(events + more);
    LiveHoldsItsByte(Exec(events + more).value, pid, id);
  }

  // While TAKEN has an entry for a file, the process has exactly one descriptor of it.
  lemma OneDescriptor(events: seq<Event>, pid: Pid, key: Key)
    requires Exec(events).Some? && pid in Exec(events).value.processes
    requires key in Exec(events).value.processes[pid].taken
    ensures var s := Exec(events).value;
      exists fd :: IsOpen(s, pid, fd, key.0) && forall fd' :: IsOpen(s, pid, fd', key.0) ==> fd' == fd
  {
    ReachableIsSound(events);
    var s := Exec(events).value;
    assert Sound(s, pid);
    assert IsOpen(s, pid, s.processes[pid].files[key.0], key.0);
  }

  // A living process closes a lock file only in the destroy that removed its last entry, when it holds no byte of it.
  lemma ClosedOnlyWhenUnused(events: seq<Event>, e: Event, pid: Pid, fd: Fd, path: Path)
    requires Exec(events + [e]).Some? && Exec(events).Some? && e != Die(pid)
    requires IsOpen(Exec(events).value, pid, fd, path) && !IsOpen(Exec(events + [e]).value, pid, fd, path)
    ensures e == Close(pid)
    ensures forall k | k in Exec(events).value.processes[pid].taken :: k.0 != path
    ensures forall k | Holds(Exec(events).value, pid, k) :: k.0 != path
  {
    var s := Exec(events).value;
    assert (events + [e])[..|events|] == events;
    ReachableIsSound(events);
    assert (pid, fd) in s.descriptors;
    assert Sound(s, pid);
    if e.LockTable? || e.pid != pid {
      OthersUntouched(s, e, pid);
      assert false;
    } else {
      assert ByProcess(e);
      OpenAfter(s, e, fd, path);
      var p := s.processes[pid];
      assert IsOpen(s, pid, p.files[CurrentReservation(p).lock], CurrentReservation(p).lock);
      forall k | Holds(s, pid, k)
        ensures k.0 != path
      {
        assert k in Held(s, pid) && Held(s, pid) == p.taken;
      }
    }
  }

  // Nothing leaks: an idle process holds exactly the bytes of its live reservations.
  lemma HeldAreTheLive(events: seq<Event>, pid: Pid, key: Key)
    requires Exec(events).Some? && pid in Exec(events).value.processes
    requires Exec(events).value.processes[pid].phase.Idle?
    ensures var s := Exec(events).value;
      Holds(s, pid, key) <==> exists id :: Live(s, pid, id) && KeyOf(s.processes[pid].reservations[id]) == key
  {
    ReachableIsSound(events);
    var s := Exec(events).value;
    assert Sound(s, pid);
    var p := s.processes[pid];
    assert Holds(s, pid, key) <==> key in Held(s, pid);
    if Holds(s, pid, key) {
      var id :| Owns(p, id, key);
      assert Live(s, pid, id);
    }
    if id :| Live(s, pid, id) && KeyOf(p.reservations[id]) == key {
      LiveHoldsItsByte(s, pid, id);
    }
  }
}
