/** Creating saved resources again as they were, and destroying them. */
module SavedState {
  import opened Common
  import opened Hosts
  import opened StateSave

  // ---- What creating and destroying log ----

  // The restored volumes hold their files' data, unless some machine that uses them runs.
  ghost predicate Kept(users: Users, resources: seq<Resource>, files: Files, n: nat, running: set<Name>,
                       contents: map<Name, Data>) {
    n <= |resources| && OwnFiles(resources, files) &&
    forall i | 0 <= i < n && resources[i].Volume? && i in files ::
      && resources[i].name in contents
      && (!Used(users, resources[i].name, running) ==> contents[resources[i].name] == files[i].data)
  }

  // A resource with a file was restored from it, memory or data, and one without was started.
  predicate Resumes(event: Event, resource: Resource, index: nat, files: Files) {
    if index in files then
      && event.Restored? && event.index == index && event.file == files[index]
      && (resource.Machine? ==>
            resource.name in event.moment.memories && event.moment.memories[resource.name] == files[index].data)
      && (resource.Volume? ==>
            resource.name in event.moment.contents && event.moment.contents[resource.name] == files[index].data)
    else event.Started? && event.index == index
  }

  // When it was, volumes restored before held their files' data, unless some other machine that uses them ran.
  ghost predicate IsCreation(users: Users, event: Event, resources: seq<Resource>, files: Files, i: nat) {
    && i < |resources| && Resumes(event, resources[i], i, files)
    && Kept(users, resources, files, i, event.moment.running - MachineNames([resources[i]]), event.moment.contents)
  }

  // The first n resources were created, in order, from one length of the log on.
  ghost predicate CreatedFrom(
    users: Users, log: seq<Event>, from: nat, resources: seq<Resource>, files: Files, n: nat) {
    && from + n <= |log| && n <= |resources|
    && forall k | from <= k < from + n :: IsCreation(users, log[k], resources, files, k - from)
  }

  // All of the first n resources down to one of them were destroyed, last first.
  ghost predicate DestroyedFrom(log: seq<Event>, from: nat, n: nat, down: nat) {
    && down <= n && from + n - down <= |log|
    && forall k | from <= k < from + n - down :: log[k] == Destroyed(n - 1 - (k - from))
  }

  lemma CreatedStill(users: Users, log: seq<Event>, more: seq<Event>, from: nat, resources: seq<Resource>, files: Files,
                     n: nat)
    requires CreatedFrom(users, log, from, resources, files, n) && log <= more
    ensures CreatedFrom(users, more, from, resources, files, n)
  {
    assert forall k | from <= k < from + n :: more[k] == log[k];
  }

  lemma OneMoreCreated(users: Users, log: seq<Event>, event: Event, from: nat, resources: seq<Resource>, files: Files,
                       n: nat)
    requires CreatedFrom(users, log, from, resources, files, n) && |log| == from + n
    requires n < |resources| && IsCreation(users, event, resources, files, n)
    ensures CreatedFrom(users, log + [event], from, resources, files, n + 1)
  {
    CreatedStill(users, log, log + [event], from, resources, files, n);
  }

  lemma StillKept(users: Users, resources: seq<Resource>, files: Files, n: nat, running: set<Name>, more: set<Name>,
                  before: map<Name, Data>, after: map<Name, Data>)
    requires Kept(users, resources, files, n, running, before) && AtRest(users, running, before, after)
    requires running <= more && before.Keys <= after.Keys
    ensures Kept(users, resources, files, n, running, after) && Kept(users, resources, files, n, more, after)
  {
    assert forall v | Used(users, v, running) :: Used(users, v, more);
  }

  // The next resource came to be, and nothing else happened to volumes that weren't in use.
  ghost predicate Becomes(users: Users, resource: Resource, before: Moment, after: Moment) {
    && MachineNames([resource]) !! before.running && VolumeNames([resource]) !! before.contents.Keys
    && after.running == before.running + MachineNames([resource])
    && after.contents.Keys == before.contents.Keys + VolumeNames([resource])
    && AtRest(users, before.running, before.contents, after.contents)
  }

  lemma NextCreation(users: Users, saved: seq<Resource>, files: Files, i: nat, event: Event, before: Moment)
    requires i < |saved| && Kept(users, saved, files, i, before.running, before.contents)
    requires Resumes(event, saved[i], i, files) && Becomes(users, saved[i], before, event.moment)
    ensures IsCreation(users, event, saved, files, i)
    ensures Kept(users, saved, files, i + 1, event.moment.running, event.moment.contents)
  {
    var now := event.moment;
    assert now.running - MachineNames([saved[i]]) == before.running;
    StillKept(users, saved, files, i, before.running, now.running, before.contents, now.contents);
  }

  lemma AtRestBoth(users: Users, first: map<Name, Data>, resource: Resource, before: Moment, after: Moment)
    requires AtRest(users, before.running, first, before.contents) && Becomes(users, resource, before, after)
    ensures AtRest(users, after.running, first, after.contents)
  {
    assert forall v | Used(users, v, before.running) :: Used(users, v, after.running);
  }

  predicate ListedOnce(resources: seq<Resource>) {
    FirstListedOnce(resources, |resources|)
  }

  predicate FirstListedOnce(resources: seq<Resource>, n: nat)
    requires n <= |resources|
  {
    forall i | 0 <= i < n && !resources[i].Other? :: resources[i] !in resources[..i]
  }

  // What creating needs: the saved resources are gone and listed once.
  ghost predicate Creatable(saved: seq<Resource>, running: set<Name>, volumes: set<Name>) {
    ListedOnce(saved) && MachineNames(saved) !! running && VolumeNames(saved) !! volumes
  }

  // How many operations creating a resource takes, each of which may fail: a volume with a file is created and
  // uploaded to.
  function StepsOf(resource: Resource, i: nat, files: Files): nat {
    if resource.Volume? && i in files then 2 else 1
  }

  function Steps(saved: seq<Resource>, files: Files, n: nat): nat
    requires n <= |saved|
  {
    if n == 0 then 0 else Steps(saved, files, n - 1) + StepsOf(saved[n - 1], n - 1, files)
  }

  lemma {:induction false} StepsGrow(saved: seq<Resource>, files: Files, n: nat, m: nat)
    requires n < m <= |saved|
    ensures Steps(saved, files, n) + StepsOf(saved[n], n, files) <= Steps(saved, files, m)
  {
    if n + 1 < m {
      StepsGrow(saved, files, n, m - 1);
    }
  }

  /**
   What creating leaves if it stops at a resource: its volume, if it is new and was created, and only its upload
   failed. Then it isn't in the list yet, so that rolling back doesn't destroy it.
   */
  function LeftBehind(saved: seq<Resource>, n: nat, files: Files, volumes: set<Name>, faults: seq<bool>): set<Name>
    requires n < |saved|
  {
    if saved[n].Volume? && n in files && saved[n].name !in volumes + VolumeNames(saved[..n])
       && !Fails(faults, Steps(saved, files, n))
    then {saved[n].name} else {}
  }

  // What one attempt to create a resource leaves if it fails.
  function LeftBy(resource: Resource, i: nat, files: Files, volumes: set<Name>, faults: seq<bool>): set<Name> {
    if resource.Volume? && i in files && resource.name !in volumes && !Fails(faults, 0) then {resource.name} else {}
  }

  // What destroying needs: volumes exist and are listed once.
  ghost predicate Destroyable(resources: seq<Resource>, volumes: set<Name>) {
    ListedOnce(resources) && VolumeNames(resources) <= volumes
  }

  lemma NamesOfOne(saved: seq<Resource>, n: nat)
    requires n < |saved|
    ensures MachineNames(saved[..n + 1]) == MachineNames(saved[..n]) + MachineNames([saved[n]])
    ensures VolumeNames(saved[..n + 1]) == VolumeNames(saved[..n]) + VolumeNames([saved[n]])
  {
    NamesOfBoth(saved[..n], [saved[n]]);
    assert saved[..n + 1] == saved[..n] + [saved[n]];
  }

  lemma NamesOfBoth(a: seq<Resource>, b: seq<Resource>)
    ensures MachineNames(a + b) == MachineNames(a) + MachineNames(b)
    ensures VolumeNames(a + b) == VolumeNames(a) + VolumeNames(b)
  {
    assert forall r :: r in a + b <==> r in a || r in b;
  }

  lemma NotCreatable(saved: seq<Resource>, i: nat, was: Moment, now: Moment)
    requires i < |saved|
    requires now.running == was.running + MachineNames(saved[..i])
    requires now.contents.Keys == was.contents.Keys + VolumeNames(saved[..i])
    requires !(MachineNames([saved[i]]) !! now.running && VolumeNames([saved[i]]) !! now.contents.Keys)
    ensures !Creatable(saved, was.running, was.contents.Keys)
  {
    NamesOfOnly(saved[i]);
    assert saved[i] in saved;
    assert saved[i].Machine? ==> saved[i].name in MachineNames(saved);
    assert saved[i].Volume? ==> saved[i].name in VolumeNames(saved);
  }

  lemma StillListedOnce(saved: seq<Resource>, i: nat, now: Moment)
    requires i < |saved| && FirstListedOnce(saved, i)
    requires MachineNames([saved[i]]) !! now.running && VolumeNames([saved[i]]) !! now.contents.Keys
    requires MachineNames(saved[..i]) <= now.running && VolumeNames(saved[..i]) <= now.contents.Keys
    ensures FirstListedOnce(saved, i + 1)
  {
    NamesOfOnly(saved[i]);
  }

  // Makes one resource be: restores it from its file if it has one, and otherwise starts it.
  method Resume(host: Host, resource: Resource, index: nat) returns (ok: bool)
    requires host.directory.Some?
    requires index in host.directory.value ==> OwnFile(resource, host.directory.value[index])
    modifies host`running, host`memories, host`contents, host`writes, host`faults, host`log
    ensures true in host.faults ==> true in old(host.faults)
    ensures ok ==>
      && Becomes(host.users, resource, old(host.Now()), host.Now())
      && |host.log| == |old(host.log)| + 1 && host.log == old(host.log) + [host.log[|old(host.log)|]]
      && Resumes(host.log[|old(host.log)|], resource, index, host.directory.value)
      && host.log[|old(host.log)|].moment == host.Now()
    ensures !ok ==>
      && host.running == old(host.running) && host.log == old(host.log)
      && host.contents.Keys == old(host.contents).Keys
           + LeftBy(resource, index, host.directory.value, old(host.contents).Keys, old(host.faults))
    ensures ok <==>
      && NoneFails(old(host.faults), StepsOf(resource, index, host.directory.value))
      && MachineNames([resource]) !! old(host.running) && VolumeNames([resource]) !! old(host.contents).Keys
    ensures ok ==> host.faults == Dropped(old(host.faults), StepsOf(resource, index, host.directory.value))
  {
    NamesOfOnly(resource);
    if index in host.directory.value {
      if resource.Machine? {
        ok := host.RestoreMachine(resource.name, index);
      } else {
        ok := host.RestoreVolume(resource.name, index);
      }
    } else {
      ok := host.Start(resource, index);
    }
  }

  lemma NamesOfOnly(resource: Resource)
    ensures MachineNames([resource]) == if resource.Machine? then {resource.name} else {}
    ensures VolumeNames([resource]) == if resource.Volume? then {resource.name} else {}
  {
  }

  lemma StillThere(resources: seq<Resource>, i: nat)
    requires ListedOnce(resources) && i < |resources| && resources[i].Volume?
    ensures resources[i].name in VolumeNames(resources) - VolumeNames(resources[i + 1..])
  {
    assert resources[i] in resources;
    forall k | i < k < |resources|
      ensures resources[k] != resources[i]
    {
      assert resources[..k][i] == resources[i];
    }
  }

  datatype Outcome = Done | AssertionError | Raised | RaisedDestroying

  class LVState {
    const host: Host
    var resources: seq<Resource>

    constructor (host: Host)
      ensures this.host == host && resources == []
    {
      this.host, resources := host, [];
    }

    // The first n saved resources have been created, and nothing else has changed but what was in use.
    ghost predicate Creating(saved: seq<Resource>, n: nat, was: Moment, log: seq<Event>, faults: seq<bool>)
      reads this, host
    {
      && n <= |saved| && resources == saved[..n]
      && host.directory.Some? && OwnFiles(saved, host.directory.value)
      && log <= host.log && |host.log| == |log| + n
      && CreatedFrom(host.users, host.log, |log|, saved, host.directory.value, n)
      && Kept(host.users, saved, host.directory.value, n, host.running, host.contents)
      && MachineNames(resources) !! was.running && VolumeNames(resources) !! was.contents.Keys
      && host.running == was.running + MachineNames(resources)
      && host.contents.Keys == was.contents.Keys + VolumeNames(resources)
      && AtRest(host.users, host.running, was.contents, host.contents)
      && NoneFails(faults, Steps(saved, host.directory.value, n))
      && host.faults == Dropped(faults, Steps(saved, host.directory.value, n)) && FirstListedOnce(saved, n)
    }

    /**
     Creates the saved resources: each machine or volume from the file its own index wrote, if any, and the others
     afresh. Afterwards exactly the listed machines run besides those that did, and volumes hold their files' data
     unless some machine that uses them runs. If one raises, those before it are destroyed, last first, each once, so
     that just the machines run that did, and just the volumes are there that were, and the one that is left behind if
     only its upload raised. It succeeds exactly if no operation raises, something was saved, and the saved resources
     are gone and listed once.
     */
    method Create() returns (outcome: Outcome, ghost n: nat)
      requires host.Valid()
      modifies this, host
      ensures host.Valid() && host.directory == old(host.directory) && host.pickle == old(host.pickle)
      ensures old(host.log) <= host.log
      ensures outcome == AssertionError <==> old(resources) != []
      ensures outcome == AssertionError ==> resources == old(resources) && host.log == old(host.log)
      ensures outcome == Done ==>
        && host.pickle == Some(resources) && n == |resources|
        && Creating(resources, n, old(host.Now()), old(host.log), old(host.faults))
      ensures outcome == Done <==>
        && old(resources) == [] && host.pickle.Some?
        && NoneFails(old(host.faults), Steps(host.pickle.value, host.directory.value, |host.pickle.value|))
        && Creatable(host.pickle.value, old(host.running), old(host.contents).Keys)
      ensures (outcome == Raised && host.pickle.Some?) || outcome == RaisedDestroying ==>
        && host.pickle.Some? && n < |host.pickle.value|
        && CreatedFrom(host.users, host.log, |old(host.log)|, host.pickle.value, host.directory.value, n)
      ensures outcome == Raised ==> resources == [] && host.running == old(host.running)
      ensures outcome == Raised && host.pickle.Some? ==>
        && |host.log| == |old(host.log)| + n + n && DestroyedFrom(host.log, |old(host.log)| + n, n, 0)
        && host.contents.Keys == old(host.contents).Keys
             + LeftBehind(host.pickle.value, n, host.directory.value, old(host.contents).Keys, old(host.faults))
      ensures outcome == RaisedDestroying ==>
        && resources <= host.pickle.value && |resources| < n
        && |host.log| == |old(host.log)| + n + (n - |resources|)
        && DestroyedFrom(host.log, |old(host.log)| + n, n, |resources| + 1)
        && host.log[|host.log| - 1] == DestroyRaised(|resources|)
    {
      n := 0;
      if resources != [] {
        return AssertionError, n;
      }
      if host.pickle.None? {
        return Raised, n;
      }
      var saved := host.pickle.value;
      ghost var was, log, faults := host.Now(), host.log, host.faults;
      var ok := CreateAll(saved);
      n := |resources|;
      if ok {
        assert saved[..n] == saved;
        return Done, n;
      }
      var destroyed := RollBack(saved, n, was, log, faults);
      return if destroyed then Raised else RaisedDestroying, n;
    }

    method RollBack(
        saved: seq<Resource>, ghost n: nat, ghost was: Moment, ghost log: seq<Event>, ghost faults: seq<bool>)
      returns (ok: bool)
      requires Stopped(saved, n, was, log, faults)
      modifies this, host`running, host`memories, host`contents, host`writes, host`faults, host`log
      ensures log <= host.log && CreatedFrom(host.users, host.log, |log|, saved, host.directory.value, n)
      ensures ok ==>
        && resources == [] && host.running == was.running
        && |host.log| == |log| + n + n && DestroyedFrom(host.log, |log| + n, n, 0)
        && host.contents.Keys ==
             was.contents.Keys + LeftBehind(saved, n, host.directory.value, was.contents.Keys, faults)
      ensures !ok ==>
        && |resources| < n && resources == saved[..|resources|]
        && |host.log| == |log| + n + (n - |resources|) && DestroyedFrom(host.log, |log| + n, n, |resources| + 1)
        && host.log[|host.log| - 1] == DestroyRaised(|resources|)
    {
      ok := Destroy();
      CreatedStill(host.users, old(host.log), host.log, |log|, saved, host.directory.value, n);
    }

    method CreateAll(saved: seq<Resource>) returns (ok: bool)
      requires resources == [] && host.directory.Some? && OwnFiles(saved, host.directory.value)
      modifies this, host`running, host`memories, host`contents, host`writes, host`faults, host`log
      ensures ok ==>
        |resources| == |saved| && Creating(saved, |saved|, old(host.Now()), old(host.log), old(host.faults))
      ensures !ok ==>
        && |resources| < |saved| && Stopped(saved, |resources|, old(host.Now()), old(host.log), old(host.faults))
        && (|| !NoneFails(old(host.faults), Steps(saved, host.directory.value, |saved|))
            || !Creatable(saved, old(host.running), old(host.contents).Keys))
    {
      ghost var was, log, faults := host.Now(), host.log, host.faults;
      var index := 0;
      while index < |saved|
        invariant Creating(saved, index, was, log, faults)
      {
        var created := CreateOne(saved, index, was, log, faults);
        if !created {
          StepsGrow(saved, host.directory.value, index, |saved|);
          return false;
        }
        index := index + 1;
      }
      return true;
    }

    // Likewise, but the next resource's volume may have been created without its data.
    ghost predicate Stopped(saved: seq<Resource>, n: nat, was: Moment, log: seq<Event>, faults: seq<bool>)
      reads this, host
    {
      && n < |saved| && resources == saved[..n] && host.directory.Some?
      && log <= host.log && |host.log| == |log| + n
      && CreatedFrom(host.users, host.log, |log|, saved, host.directory.value, n)
      && MachineNames(resources) !! was.running && VolumeNames(resources) !! was.contents.Keys
      && host.running == was.running + MachineNames(resources)
      && host.contents.Keys == was.contents.Keys + VolumeNames(resources)
           + LeftBehind(saved, n, host.directory.value, was.contents.Keys, faults)
    }

    // The loop's body for one resource.
    method CreateOne(
        saved: seq<Resource>, index: nat, ghost was: Moment, ghost log: seq<Event>, ghost faults: seq<bool>)
      returns (created: bool)
      requires index < |saved| && Creating(saved, index, was, log, faults)
      modifies this, host`running, host`memories, host`contents, host`writes, host`faults, host`log
      ensures created ==> Creating(saved, index + 1, was, log, faults)
      ensures !created ==>
        && |resources| == index && Stopped(saved, index, was, log, faults)
        && (|| !NoneFails(faults, Steps(saved, host.directory.value, index + 1))
            || !Creatable(saved, was.running, was.contents.Keys))
    {
      ghost var before, logged, done := host.Now(), host.log, Steps(saved, host.directory.value, index);
      NoneFailsMore(faults, done, StepsOf(saved[index], index, host.directory.value));
      DroppedTwice(faults, done, StepsOf(saved[index], index, host.directory.value));
      DroppedTwice(faults, done, 0);
      created := Resume(host, saved[index], index);
      if created {
        ghost var event := host.log[|logged|];
        NextCreation(host.users, saved, host.directory.value, index, event, before);
        OneMoreCreated(host.users, logged, event, |log|, saved, host.directory.value, index);
        AtRestBoth(host.users, was.contents, saved[index], before, host.Now());
        NamesOfOne(saved, index);
        StillListedOnce(saved, index, before);
        resources := resources + [saved[index]];
      } else if !(
          MachineNames([saved[index]]) !! before.running && VolumeNames([saved[index]]) !! before.contents.Keys) {
        NotCreatable(saved, index, was, before);
      }
    }

    // Of all there were, those after the ones left have been destroyed, last first.
    ghost predicate Undoing(all: seq<Resource>, was: Moment, log: seq<Event>)
      reads this, host
    {
      && |resources| <= |all| && resources == all[..|resources|]
      && log <= host.log && |host.log| == |log| + (|all| - |resources|)
      && DestroyedFrom(host.log, |log|, |all|, |resources|)
      && host.running == was.running - MachineNames(all[|resources|..])
      && host.contents.Keys == was.contents.Keys - VolumeNames(all[|resources|..])
    }

    /** Destroys the created resources, last first, each once, or up to one whose destroy raises. */
    method Destroy() returns (ok: bool)
      modifies this, host`running, host`memories, host`contents, host`writes, host`faults, host`log
      ensures old(host.log) <= host.log
      ensures ok ==>
        && resources == [] && |host.log| == |old(host.log)| + |old(resources)|
        && DestroyedFrom(host.log, |old(host.log)|, |old(resources)|, 0)
        && host.running == old(host.running) - MachineNames(old(resources))
        && host.contents.Keys == old(host.contents).Keys - VolumeNames(old(resources))
      ensures !ok ==> Raising(old(resources), old(host.Now()), old(host.log))
      ensures true in host.faults ==> true in old(host.faults)
      ensures !ok ==> true in old(host.faults) || !Destroyable(old(resources), old(host.contents).Keys)
    {
      ghost var all, was, log := resources, host.Now(), host.log;
      while resources != []
        invariant Undoing(all, was, log)
        invariant true in host.faults ==> true in old(host.faults)
        decreases |resources|
      {
        ok := Pop(all, was, log);
        if !ok {
          return;
        }
      }
      assert all[0..] == all;
      return true;
    }

    // As far, but for one whose destroy raised.
    ghost predicate Raising(all: seq<Resource>, was: Moment, log: seq<Event>)
      reads this, host
    {
      && |resources| < |all| && resources == all[..|resources|]
      && log <= host.log && |host.log| == |log| + (|all| - |resources|)
      && DestroyedFrom(host.log, |log|, |all|, |resources| + 1)
      && host.log[|host.log| - 1] == DestroyRaised(|resources|)
      && host.running == was.running - MachineNames(all[|resources| + 1..])
      && host.contents.Keys == was.contents.Keys - VolumeNames(all[|resources| + 1..])
    }

    method Pop(ghost all: seq<Resource>, ghost was: Moment, ghost log: seq<Event>) returns (ok: bool)
      requires Undoing(all, was, log) && resources != []
      modifies this, host`running, host`memories, host`contents, host`writes, host`faults, host`log
      ensures |resources| == |old(resources)| - 1
      ensures if ok then Undoing(all, was, log) else Raising(all, was, log)
      ensures true in host.faults ==> true in old(host.faults)
      ensures !ok ==> true in old(host.faults) || !Destroyable(all, was.contents.Keys)
    {
      var resource := resources[|resources| - 1];
      resources := resources[..|resources| - 1];
      assert all[|resources|..] == [resource] + all[|resources| + 1..];
      NamesOfBoth([resource], all[|resources| + 1..]);
      if Destroyable(all, was.contents.Keys) && resource.Volume? {
        StillThere(all, |resources|);
      }
      ok := host.Destroy(resource, |resources|);
    }
  }

  // Creating a saved volume whose upload raises leaves it, empty of what was saved, after rolling back.
  method LeavesVolume(name: Name, data: Data) returns (host: Host, outcome: Outcome)
    ensures outcome == Raised && host.directory == Some(map[0 := Disk(name, data)]) && host.contents.Keys == {name}
  {
    host := new Host(map[], {}, map[], map[], [], [false, true]);
    host.directory, host.pickle := Some(map[0 := Disk(name, data)]), Some([Volume(name)]);
    var state := new LVState(host);
    assert Steps([Volume(name)], map[0 := Disk(name, data)], 0) == 0;
    assert Steps([Volume(name)], map[0 := Disk(name, data)], 1) == 2;
    assert Fails(host.faults, 1);
    ghost var n;
    outcome, n := state.Create();
  }

  // ---- Saving and creating again ----

  /**
   A volume was created with its data of the moment it was copied, which is that of the cut if its users are all
   listed. A machine that ran when all was saved was started from its memory of the moment it was stopped, and any
   other resource afresh.
   */
  ghost predicate CameBack(resource: Resource, i: nat, ran: set<Name>, users: Users, resources: seq<Resource>,
                           cut: map<Name, Data>, log: seq<Event>, first: nat, from: nat)
    requires from + i < |log|
  {
    var event := log[from + i];
    match resource
    case Volume(name) =>
      && event.Restored? && name in event.moment.contents
      && WasWritten(resource, i, Disk(name, event.moment.contents[name]), log, first)
      && (UsersListed(resources, users, name) ==> name in cut && event.moment.contents[name] == cut[name])
    case Machine(name) =>
      if name in ran then
        && event.Restored? && name in event.moment.memories
        && WasWritten(resource, i, Memory(name, event.moment.memories[name]), log, first)
      else event.Started?
    case Other(_) => event.Started?
  }

  lemma ComesBack(resources: seq<Resource>, users: Users, files: Files, ran: set<Name>, cut: map<Name, Data>,
                  saved: seq<Event>, first: nat, log: seq<Event>, from: nat, i: nat)
    requires SavedSince(resources, users, files, saved, first, cut) && FilesFor(resources, ran, files)
    requires saved <= log && CreatedFrom(users, log, from, resources, files, |resources|) && i < |resources|
    requires VolumeNames(resources) <= cut.Keys
    ensures CameBack(resources[i], i, ran, users, resources, cut, log, first, from)
  {
    assert IsCreation(users, log[from + i], resources, files, i);
    WrittenAreOwn(resources, files, saved, first);
    StillWritten(resources, files, saved, log, first);
    if resources[i].Volume? && UsersListed(resources, users, resources[i].name) {
      assert resources[i].name in VolumeNames(resources);
      CopiesAreTheCut(resources, users, files, saved, first, cut, i);
    }
  }

  lemma VolumesKeptTheCut(resources: seq<Resource>, users: Users, files: Files, cut: map<Name, Data>, saved: seq<Event>,
                          first: nat, ran: set<Name>, running: set<Name>, contents: map<Name, Data>, i: nat)
    requires SavedSince(resources, users, files, saved, first, cut) && FilesFor(resources, ran, files)
    requires VolumeNames(resources) <= cut.Keys
    requires Kept(users, resources, files, |resources|, running, contents)
    requires i < |resources| && resources[i].Volume? && !Used(users, resources[i].name, running)
    requires UsersListed(resources, users, resources[i].name)
    ensures resources[i].name in cut && resources[i].name in contents
    ensures contents[resources[i].name] == cut[resources[i].name]
  {
    assert resources[i].name in VolumeNames(resources);
    CopiesAreTheCut(resources, users, files, saved, first, cut, i);
  }

  // Volumes whose users are listed hold their data of the cut, unless some machine that uses them runs.
  ghost predicate StillTheCut(resources: seq<Resource>, host: Host, cut: map<Name, Data>)
    reads host
  {
    forall i | 0 <= i < |resources| && resources[i].Volume? && UsersListed(resources, host.users, resources[i].name)
               && !Used(host.users, resources[i].name, host.running) ::
      && resources[i].name in cut && resources[i].name in host.contents
      && host.contents[resources[i].name] == cut[resources[i].name]
  }

  lemma CreatingSavesNothing(users: Users, log: seq<Event>, more: seq<Event>, resources: seq<Resource>, files: Files)
    requires log <= more && |more| == |log| + |resources|
    requires CreatedFrom(users, more, |log|, resources, files, |resources|)
    ensures NoSaves(log, more)
  {
    forall k | |log| <= k < |more|
      ensures !more[k].Saved?
    {
      assert IsCreation(users, more[k], resources, files, k - |log|);
    }
  }

  // Destroys listed resources, as a session does with what it created.
  method DestroyListed(host: Host, resources: seq<Resource>) returns (ok: bool)
    modifies host`running, host`memories, host`contents, host`writes, host`faults, host`log
    ensures ok ==>
      && host.running == old(host.running) - MachineNames(resources)
      && host.contents.Keys == old(host.contents).Keys - VolumeNames(resources)
      && NoSaves(old(host.log), host.log)
    ensures true in host.faults ==> true in old(host.faults)
    ensures !ok ==> true in old(host.faults) || !Destroyable(resources, old(host.contents).Keys)
  {
    var state := new LVState(host);
    state.resources := resources;
    ok := state.Destroy();
    assert ok ==> forall k | |old(host.log)| <= k < |host.log| :: host.log[k].Destroyed?;
  }

  // Creates what was saved last.
  method CreateListed(host: Host, resources: seq<Resource>) returns (ok: bool)
    requires host.Valid() && host.pickle == Some(resources)
    modifies host
    ensures host.Valid() && host.directory == old(host.directory)
    ensures !ok ==> true in old(host.faults) || !Creatable(resources, old(host.running), old(host.contents).Keys)
    ensures ok ==>
      && host.running == old(host.running) + MachineNames(resources)
      && NoSaves(old(host.log), host.log) && |host.log| == |old(host.log)| + |resources|
      && CreatedFrom(host.users, host.log, |old(host.log)|, resources, host.directory.value, |resources|)
      && Kept(host.users, resources, host.directory.value, |resources|, host.running, host.contents)
  {
    var state := new LVState(host);
    var outcome, n := state.Create();
    ok := outcome == Done;
    if ok {
      CreatingSavesNothing(host.users, old(host.log), host.log, resources, host.directory.value);
    }
  }

  /**
   Saving resources, destroying them, and creating them again: whatever running machines wrote in between, every
   resource comes back, volumes whose users are listed as they were at one moment, in which those that nobody used any
   more agree with each memory. All listed machines run then, and these volumes still are as they were unless some
   machine that uses them runs. It fails only if an operation does, the directory exists, a volume doesn't, or a
   resource is listed twice.
   */
  method SaveAndCreate(host: Host, resources: seq<Resource>)
    returns (ok: bool, ghost cut: map<Name, Data>, ghost from: nat)
    requires host.Valid()
    modifies host
    ensures host.Valid()
    ensures !ok ==>
      || old(host.directory).Some? || true in old(host.faults)
      || !Destroyable(resources, old(host.contents).Keys)
    ensures ok ==> host.running == old(host.running) + MachineNames(resources)
    ensures ok ==> from + |resources| == |host.log| && MemoriesAgree(host.users, host.log, |old(host.log)|, cut)
    ensures ok ==> forall i | 0 <= i < |resources| ::
      CameBack(resources[i], i, old(host.running), host.users, resources, cut, host.log, |old(host.log)|, from)
    ensures ok ==> StillTheCut(resources, host, cut)
  {
    from := 0;
    ghost var first, ran := |host.log|, host.running;
    ok, cut := Save(host, resources);
    if !ok {
      return;
    }
    ghost var saved, files := host.log, host.directory.value;
    ok := DestroyListed(host, resources);
    if !ok {
      return;
    }
    from := |host.log|;
    ok := CreateListed(host, resources);
    if ok {
      MemoriesStillAgree(host.users, saved, host.log, first, cut);
      AllComeBack(resources, host, files, ran, cut, saved, first, from);
    }
  }

  lemma AllComeBack(resources: seq<Resource>, host: Host, files: Files, ran: set<Name>, cut: map<Name, Data>,
                    saved: seq<Event>, first: nat, from: nat)
    requires SavedSince(resources, host.users, files, saved, first, cut) && FilesFor(resources, ran, files)
    requires VolumeNames(resources) <= cut.Keys
    requires saved <= host.log && CreatedFrom(host.users, host.log, from, resources, files, |resources|)
    requires Kept(host.users, resources, files, |resources|, host.running, host.contents)
    ensures forall i | 0 <= i < |resources| ::
      CameBack(resources[i], i, ran, host.users, resources, cut, host.log, first, from)
    ensures StillTheCut(resources, host, cut)
  {
    forall i | 0 <= i < |resources|
      ensures CameBack(resources[i], i, ran, host.users, resources, cut, host.log, first, from)
    {
      ComesBack(resources, host.users, files, ran, cut, saved, first, host.log, from, i);
    }
    forall i | 0 <= i < |resources| && resources[i].Volume? && UsersListed(resources, host.users, resources[i].name)
               && !Used(host.users, resources[i].name, host.running)
      ensures resources[i].name in cut && resources[i].name in host.contents
      ensures host.contents[resources[i].name] == cut[resources[i].name]
    {
      VolumesKeptTheCut(
        resources, host.users, files, cut, saved, first, ran, host.running, host.contents, i);
    }
  }
}
