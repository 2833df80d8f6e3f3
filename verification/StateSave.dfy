/** Saving machines and volumes to files: stopping what runs, copying, and starting it again. */
module StateSave {
  import opened Common
  import opened Hosts

  predicate Lists(resources: seq<Resource>, name: Name) {
    Machine(name) in resources
  }

  // The indices of the machines that run.
  function RunningIndices(resources: seq<Resource>, running: set<Name>, n: nat): seq<nat>
    requires n <= |resources|
  {
    if n == 0 then []
    else
      RunningIndices(resources, running, n - 1)
      + if resources[n - 1].Machine? && resources[n - 1].name in running then [n - 1] else []
  }

  lemma {:induction false} RunningAreRunning(resources: seq<Resource>, running: set<Name>, n: nat)
    requires n <= |resources|
    ensures forall k | 0 <= k < |RunningIndices(resources, running, n)| ::
      var i := RunningIndices(resources, running, n)[k];
      i < n && resources[i].Machine? && resources[i].name in running
    ensures forall i | 0 <= i < n && resources[i].Machine? && resources[i].name in running ::
      i in RunningIndices(resources, running, n)
    ensures forall j, k | 0 <= j < k < |RunningIndices(resources, running, n)| ::
      RunningIndices(resources, running, n)[j] < RunningIndices(resources, running, n)[k]
  {
    if n > 0 {
      RunningAreRunning(resources, running, n - 1);
    }
  }

  // The names of the resources of some of the indices.
  function NamesOf(resources: seq<Resource>, indices: seq<nat>): set<Name> {
    set i | i in indices && i < |resources| :: resources[i].name
  }

  predicate InBounds(resources: seq<Resource>, indices: seq<nat>) {
    forall k | 0 <= k < |indices| :: indices[k] < |resources| && resources[indices[k]].Machine?
  }

  predicate DistinctNames(resources: seq<Resource>, indices: seq<nat>)
    requires InBounds(resources, indices)
  {
    forall k | 0 <= k < |indices| :: resources[indices[k]].name !in NamesOf(resources, indices[..k])
  }

  lemma NamesOfOneMore(resources: seq<Resource>, indices: seq<nat>, k: nat)
    requires InBounds(resources, indices) && k < |indices|
    ensures NamesOf(resources, indices[..k + 1]) == NamesOf(resources, indices[..k]) + {resources[indices[k]].name}
    ensures NamesOf(resources, indices[..k + 1]) <= NamesOf(resources, indices)
  {
    assert indices[..k + 1] == indices[..k] + [indices[k]];
    assert forall i | i in indices[..k + 1] :: i in indices;
  }

  // What saving needs: machines that run are listed once, and volumes exist.
  predicate Saveable(resources: seq<Resource>, running: set<Name>, volumes: set<Name>) {
    && (forall i | 0 <= i < |resources| && resources[i].Machine? && resources[i].name in running ::
          resources[i] !in resources[..i])
    && VolumeNames(resources) <= volumes
  }

  // Whoever uses a volume is listed.
  ghost predicate UsersListed(resources: seq<Resource>, users: Users, volume: Name) {
    forall m | volume in users && m in users[volume] :: Lists(resources, m)
  }

  // ---- The log since one of its lengths ----

  // An event wrote a resource's file, with what its machine's memory or its volume held at that moment.
  predicate Wrote(event: Event, resource: Resource, index: nat, file: File) {
    match event
    case Saved(i, moment) =>
      && i == index && resource.Machine? && resource.name in moment.memories
      && file == Memory(resource.name, moment.memories[resource.name])
    case Copied(i, moment) =>
      && i == index && resource.Volume? && resource.name in moment.contents
      && file == Disk(resource.name, moment.contents[resource.name])
    case _ => false
  }

  ghost predicate WasWritten(resource: Resource, index: nat, file: File, log: seq<Event>, from: nat) {
    exists k | from <= k < |log| :: Wrote(log[k], resource, index, file)
  }

  ghost predicate AllWritten(resources: seq<Resource>, files: Files, log: seq<Event>, from: nat) {
    forall i | i in files :: i < |resources| && WasWritten(resources[i], i, files[i], log, from)
  }

  // Volumes were copied only while no listed machine ran.
  ghost predicate CopiedAtRest(resources: seq<Resource>, log: seq<Event>, from: nat) {
    forall k, m | from <= k < |log| && log[k].Copied? && Lists(resources, m) :: m !in log[k].moment.running
  }

  // At every copy, each listed volume whose users are listed held the same data.
  ghost predicate CopiedAtOnce(
    resources: seq<Resource>, users: Users, log: seq<Event>, from: nat, cut: map<Name, Data>) {
    forall k, v | from <= k < |log| && log[k].Copied? && Volume(v) in resources && v in cut
                  && UsersListed(resources, users, v) ::
      v in log[k].moment.contents && log[k].moment.contents[v] == cut[v]
  }

  // When a machine's memory was saved, the volumes nobody used any more held what was copied.
  ghost predicate MemoriesAgree(users: Users, log: seq<Event>, from: nat, cut: map<Name, Data>) {
    forall k, v | from <= k < |log| && log[k].Saved? && v in log[k].moment.contents
                  && !Used(users, v, log[k].moment.running) ::
      v in cut && cut[v] == log[k].moment.contents[v]
  }

  ghost predicate NoCopies(log: seq<Event>, more: seq<Event>) {
    log <= more && forall k | |log| <= k < |more| :: !more[k].Copied?
  }

  ghost predicate NoSaves(log: seq<Event>, more: seq<Event>) {
    log <= more && forall k | |log| <= k < |more| :: !more[k].Saved?
  }

  // Nothing was started afresh.
  ghost predicate NoStarts(log: seq<Event>, more: seq<Event>) {
    log <= more && forall k | |log| <= k < |more| :: !more[k].Started?
  }

  lemma NoStartsBoth(log: seq<Event>, more: seq<Event>, most: seq<Event>)
    requires NoStarts(log, more) && NoStarts(more, most)
    ensures NoStarts(log, most)
  {
    assert forall k | |log| <= k < |more| :: most[k] == more[k];
  }

  // A machine was restored from its file, with the memory in it.
  predicate Reran(event: Event, resource: Resource, index: nat, files: Files) {
    && event.Restored? && event.index == index && index in files && event.file == files[index]
    && resource.name in event.moment.memories && event.moment.memories[resource.name] == files[index].data
  }

  // From one length of the log on, just the machines of the first indices were restored, in order.
  ghost predicate RestartedFrom(
    resources: seq<Resource>, indices: seq<nat>, files: Files, log: seq<Event>, from: nat, k: nat) {
    && k <= |indices| && |log| == from + k
    && forall j | 0 <= j < k ::
         indices[j] < |resources| && Reran(log[from + j], resources[indices[j]], indices[j], files)
  }

  // The last events of the log are those.
  ghost predicate RestartedLast(resources: seq<Resource>, indices: seq<nat>, files: Files, log: seq<Event>) {
    |indices| <= |log| && RestartedFrom(resources, indices, files, log, |log| - |indices|, |indices|)
  }

  lemma StillWritten(resources: seq<Resource>, files: Files, log: seq<Event>, more: seq<Event>, from: nat)
    requires AllWritten(resources, files, log, from) && log <= more
    ensures AllWritten(resources, files, more, from)
  {
    forall i | i in files
      ensures WasWritten(resources[i], i, files[i], more, from)
    {
      var k :| from <= k < |log| && Wrote(log[k], resources[i], i, files[i]);
      assert more[k] == log[k];
    }
  }

  lemma OneMoreWritten(
      resources: seq<Resource>, files: Files, log: seq<Event>, from: nat, event: Event, i: nat, file: File)
    requires AllWritten(resources, files, log, from) && from <= |log|
    requires i < |resources| && Wrote(event, resources[i], i, file)
    ensures AllWritten(resources, files[i := file], log + [event], from)
  {
    StillWritten(resources, files, log, log + [event], from);
    assert (log + [event])[|log|] == event;
    assert WasWritten(resources[i], i, file, log + [event], from);
  }

  lemma MemoriesStillAgree(users: Users, log: seq<Event>, more: seq<Event>, from: nat, cut: map<Name, Data>)
    requires MemoriesAgree(users, log, from, cut) && NoSaves(log, more)
    ensures MemoriesAgree(users, more, from, cut)
  {
    forall k | from <= k < |more| && more[k].Saved?
      ensures k < |log| && more[k] == log[k]
    {
    }
  }

  // A volume that wasn't in use when a memory was saved isn't while ever fewer machines run.
  lemma OneMoreMemory(users: Users, log: seq<Event>, from: nat, event: Event,
                      running: set<Name>, before: map<Name, Data>)
    requires MemoriesAgree(users, log, from, before) && event.Saved? && event.moment.running <= running
    requires FewerRun(log, from, running)
    requires AtRest(users, running, before, event.moment.contents)
    ensures MemoriesAgree(users, log + [event], from, event.moment.contents)
  {
    var more := log + [event];
    forall k, v | from <= k < |more| && more[k].Saved? && v in more[k].moment.contents
                  && !Used(users, v, more[k].moment.running)
      ensures v in event.moment.contents && event.moment.contents[v] == more[k].moment.contents[v]
    {
      if k < |log| {
        assert more[k] == log[k];
        assert !Used(users, v, running);
      }
    }
  }

  // ---- The three loops ----

  // The machines of the first k indices stopped, and their memories are all that was saved.
  ghost predicate Stopping(host: Host, resources: seq<Resource>, indices: seq<nat>, k: nat, first: seq<Event>,
                           running: set<Name>)
    reads host
  {
    && k <= |indices| && host.directory.Some? && host.running == running - NamesOf(resources, indices[..k])
    && NoCopies(first, host.log) && NoStarts(first, host.log)
    && AllWritten(resources, host.directory.value, host.log, |first|)
    && MemoriesAgree(host.users, host.log, |first|, host.contents) && FewerRun(host.log, |first|, host.running)
    && host.directory.value.Keys == set i | i in indices[..k]
  }

  // No other machine runs than ran when memories were saved.
  ghost predicate FewerRun(log: seq<Event>, from: nat, running: set<Name>) {
    forall k | from <= k < |log| && log[k].Saved? :: running <= log[k].moment.running
  }

  // Saves the memories of the machines of the indices, each of which stops.
  method StopAll(host: Host, resources: seq<Resource>, indices: seq<nat>) returns (ok: bool)
    requires host.directory == Some(map[]) && InBounds(resources, indices)
    requires NamesOf(resources, indices) <= host.running
    modifies host`running, host`memories, host`contents, host`writes, host`faults, host`directory, host`log
    ensures host.directory.Some? && host.running <= old(host.running)
    ensures host.contents.Keys == old(host.contents).Keys && (true in host.faults ==> true in old(host.faults))
    ensures !ok ==> true in old(host.faults) || !DistinctNames(resources, indices)
    ensures NoCopies(old(host.log), host.log) && NoStarts(old(host.log), host.log)
    ensures AllWritten(resources, host.directory.value, host.log, |old(host.log)|)
    ensures MemoriesAgree(host.users, host.log, |old(host.log)|, host.contents)
    ensures ok ==> host.running == old(host.running) - NamesOf(resources, indices)
    ensures ok ==> host.directory.value.Keys == set i | i in indices
  {
    ghost var first, running := host.log, host.running;
    var k := 0;
    while k < |indices|
      invariant Stopping(host, resources, indices, k, first, running)
      invariant host.contents.Keys == old(host.contents).Keys && (true in host.faults ==> true in old(host.faults))
    {
      var stopped := StopOne(host, resources, indices, k, first, running);
      if !stopped {
        return false;
      }
      k := k + 1;
    }
    assert indices[..k] == indices;
    return true;
  }

  method StopOne(host: Host, resources: seq<Resource>, indices: seq<nat>, k: nat, ghost first: seq<Event>,
                 ghost running: set<Name>) returns (ok: bool)
    requires Stopping(host, resources, indices, k, first, running) && k < |indices|
    requires InBounds(resources, indices) && NamesOf(resources, indices) <= running
    modifies host`running, host`memories, host`contents, host`writes, host`faults, host`directory, host`log
    ensures Stopping(host, resources, indices, if ok then k + 1 else k, first, running)
    ensures host.contents.Keys == old(host.contents).Keys && (true in host.faults ==> true in old(host.faults))
    ensures !ok ==> true in old(host.faults) || !DistinctNames(resources, indices)
  {
    NamesOfOneMore(resources, indices, k);
    assert indices[..k + 1] == indices[..k] + [indices[k]];
    ghost var was, log, files := host.Now(), host.log, host.directory.value;
    var name := resources[indices[k]].name;
    ok := host.SaveMachine(name, indices[k]);
    if ok {
      ghost var event := Saved(indices[k], host.Now());
      OneMoreWritten(resources, files, log, |first|, event, indices[k], Memory(name, host.Recall(name)));
      OneMoreMemory(host.users, log, |first|, event, was.running, was.contents);
    } else {
      OneMoreAtRest(host.users, log, |first|, was.running, was.contents, host.contents);
    }
  }

  lemma OneMoreAtRest(users: Users, log: seq<Event>, from: nat, running: set<Name>, before: map<Name, Data>,
                      after: map<Name, Data>)
    requires MemoriesAgree(users, log, from, before) && AtRest(users, running, before, after)
    requires FewerRun(log, from, running)
    ensures MemoriesAgree(users, log, from, after)
  {
  }

  // No listed volume is in use, so all copies are of the same moment.
  method CopyAll(host: Host, resources: seq<Resource>, ghost from: nat) returns (ok: bool)
    requires host.directory.Some? && from <= |host.log|
    requires AllWritten(resources, host.directory.value, host.log, from)
    requires forall m | Lists(resources, m) :: m !in host.running
    modifies host`memories, host`contents, host`writes, host`faults, host`directory, host`log
    ensures host.directory.Some? && NoSaves(old(host.log), host.log) && NoStarts(old(host.log), host.log)
    ensures host.contents.Keys == old(host.contents).Keys
    ensures true in host.faults ==> true in old(host.faults)
    ensures !ok ==>
      || true in old(host.faults)
      || !(VolumeNames(resources) <= old(host.contents).Keys)
    ensures CopiedAtRest(resources, host.log, |old(host.log)|)
    ensures AllWritten(resources, host.directory.value, host.log, from)
    ensures CopiedAtOnce(resources, host.users, host.log, |old(host.log)|, old(host.contents))
    ensures ok ==> VolumeNames(resources) <= old(host.contents).Keys
    ensures ok ==> host.directory.value.Keys == old(host.directory.value).Keys + VolumesOf(resources, |resources|)
  {
    ghost var first, before, there := host.log, host.contents, host.directory.value.Keys;
    var i := 0;
    while i < |resources|
      invariant Copying(host, resources, i, from, first, before, there)
      invariant true in host.faults ==> true in old(host.faults)
    {
      if resources[i].Volume? {
        var copied := CopyOne(host, resources, i, from, first, before, there);
        if !copied {
          return false;
        }
      }
      i := i + 1;
    }
    return true;
  }

  function VolumesOf(resources: seq<Resource>, n: nat): set<nat>
    requires n <= |resources|
  {
    set i: nat | i < n && resources[i].Volume?
  }

  lemma OneMoreVolume(resources: seq<Resource>, i: nat)
    requires i < |resources| && resources[i].Volume?
    ensures VolumesOf(resources, i + 1) == VolumesOf(resources, i) + {i}
    ensures resources[i].name in VolumeNames(resources)
  {
    assert resources[i] in resources;
  }

  // The first i resources' volumes are copied.
  ghost predicate Copying(host: Host, resources: seq<Resource>, i: nat, from: nat, first: seq<Event>,
                          before: map<Name, Data>, there: set<nat>)
    reads host
  {
    && host.directory.Some?
    && CopiedSoFar(resources, host.users, host.directory.value, host.log, host.contents, i, from, first, before, there)
  }

  ghost predicate CopiedSoFar(resources: seq<Resource>, users: Users, files: Files, log: seq<Event>,
                              contents: map<Name, Data>, i: nat, from: nat, first: seq<Event>,
                              before: map<Name, Data>, there: set<nat>) {
    && i <= |resources| && from <= |first| && NoSaves(first, log) && NoStarts(first, log)
    && contents.Keys == before.Keys && AllWritten(resources, files, log, from)
    && Holding(resources, users, log, |first|, before, contents)
    && (forall j | 0 <= j < i && resources[j].Volume? :: resources[j].name in before)
    && files.Keys == there + VolumesOf(resources, i)
  }

  lemma NextCopy(resources: seq<Resource>, users: Users, files: Files, log: seq<Event>, contents: map<Name, Data>,
                 i: nat, from: nat, first: seq<Event>, before: map<Name, Data>, there: set<nat>, event: Event)
    requires CopiedSoFar(resources, users, files, log, contents, i, from, first, before, there)
    requires i < |resources| && resources[i].Volume? && event.Copied? && event.index == i
    requires resources[i].name in event.moment.contents && event.moment.contents.Keys == contents.Keys
    requires AtRest(users, event.moment.running, contents, event.moment.contents)
    requires forall m | Lists(resources, m) :: m !in event.moment.running
    ensures var file := Disk(resources[i].name, event.moment.contents[resources[i].name]);
      CopiedSoFar(
        resources, users, files[i := file], log + [event], event.moment.contents, i + 1, from, first, before, there)
  {
    var now := event.moment;
    StillHolding(resources, users, now.running, log, |first|, before, contents, now.contents);
    OneMoreCopied(resources, users, log, |first|, before, event);
    OneMoreWritten(resources, files, log, from, event, i, Disk(resources[i].name, now.contents[resources[i].name]));
    OneMoreVolume(resources, i);
  }

  method CopyOne(host: Host, resources: seq<Resource>, i: nat, ghost from: nat, ghost first: seq<Event>,
                 ghost before: map<Name, Data>, ghost there: set<nat>) returns (ok: bool)
    requires Copying(host, resources, i, from, first, before, there) && i < |resources| && resources[i].Volume?
    requires forall m | Lists(resources, m) :: m !in host.running
    modifies host`memories, host`contents, host`writes, host`faults, host`directory, host`log
    ensures Copying(host, resources, if ok then i + 1 else i, from, first, before, there)
    ensures true in host.faults ==> true in old(host.faults)
    ensures !ok ==> true in old(host.faults) || !(VolumeNames(resources) <= before.Keys)
  {
    ghost var contents, log, files := host.contents, host.log, host.directory.value;
    OneMoreVolume(resources, i);
    ok := host.SaveVolume(resources[i].name, i);
    if ok {
      NextCopy(
        resources, host.users, files, log, contents, i, from, first, before, there, Copied(i, host.Now()));
    } else {
      StillHolding(resources, host.users, host.running, log, |first|, before, contents, host.contents);
    }
  }

  // Listed volumes whose users are listed hold what they held before.
  ghost predicate Unchanged(resources: seq<Resource>, users: Users, before: map<Name, Data>, after: map<Name, Data>) {
    forall v | Volume(v) in resources && v in before && UsersListed(resources, users, v) ::
      v in after && after[v] == before[v]
  }

  // Copies were made at rest, and all volumes still hold what they held at each.
  ghost predicate Holding(resources: seq<Resource>, users: Users, log: seq<Event>, from: nat, before: map<Name, Data>,
                          contents: map<Name, Data>) {
    && CopiedAtRest(resources, log, from)
    && CopiedAtOnce(resources, users, log, from, before)
    && Unchanged(resources, users, before, contents)
  }

  lemma StillHolding(resources: seq<Resource>, users: Users, running: set<Name>, log: seq<Event>, from: nat,
                     before: map<Name, Data>, contents: map<Name, Data>, after: map<Name, Data>)
    requires Holding(resources, users, log, from, before, contents) && AtRest(users, running, contents, after)
    requires forall m | Lists(resources, m) :: m !in running
    ensures Holding(resources, users, log, from, before, after)
  {
    assert forall v | UsersListed(resources, users, v) :: !Used(users, v, running);
  }

  lemma OneMoreCopied(resources: seq<Resource>, users: Users, log: seq<Event>, from: nat, before: map<Name, Data>,
                      event: Event)
    requires event.Copied? && forall m | Lists(resources, m) :: m !in event.moment.running
    requires Holding(resources, users, log, from, before, event.moment.contents)
    ensures Holding(resources, users, log + [event], from, before, event.moment.contents)
  {
  }

  // The machines of the indices are off and have their memories' files.
  ghost predicate Restartable(resources: seq<Resource>, indices: seq<nat>, files: Files, running: set<Name>) {
    && InBounds(resources, indices)
    && forall k | 0 <= k < |indices| ::
         && indices[k] in files && OwnFile(resources[indices[k]], files[indices[k]])
         && resources[indices[k]].name !in running
  }

  method RestartAll(host: Host, resources: seq<Resource>, indices: seq<nat>) returns (ok: bool)
    requires host.directory.Some? && Restartable(resources, indices, host.directory.value, host.running)
    modifies host`running, host`memories, host`contents, host`writes, host`faults, host`log
    ensures true in host.faults ==> true in old(host.faults)
    ensures !ok ==> true in old(host.faults) || !DistinctNames(resources, indices)
    ensures NoCopies(old(host.log), host.log) && NoSaves(old(host.log), host.log)
    ensures NoStarts(old(host.log), host.log)
    ensures ok ==> RestartedFrom(resources, indices, host.directory.value, host.log, |old(host.log)|, |indices|)
    ensures host.contents.Keys == old(host.contents).Keys
    ensures host.running <= old(host.running) + NamesOf(resources, indices)
    ensures ok ==> host.running == old(host.running) + NamesOf(resources, indices)
  {
    var k := 0;
    while k < |indices|
      invariant k <= |indices| && host.directory == old(host.directory)
      invariant true in host.faults ==> true in old(host.faults)
      invariant NoCopies(old(host.log), host.log) && NoSaves(old(host.log), host.log)
      invariant NoStarts(old(host.log), host.log)
      invariant RestartedFrom(resources, indices, host.directory.value, host.log, |old(host.log)|, k)
      invariant host.contents.Keys == old(host.contents).Keys
      invariant host.running == old(host.running) + NamesOf(resources, indices[..k])
    {
      NamesOfOneMore(resources, indices, k);
      var restored := host.RestoreMachine(resources[indices[k]].name, indices[k]);
      if !restored {
        return false;
      }
      k := k + 1;
    }
    assert indices[..k] == indices;
    return true;
  }

  // The indices are those of the listed machines that run, and of nothing else.
  ghost predicate AreTheRunning(resources: seq<Resource>, running: set<Name>, indices: seq<nat>) {
    && InBounds(resources, indices) && NamesOf(resources, indices) <= running
    && (forall m | Lists(resources, m) && m in running :: m in NamesOf(resources, indices))
    && (forall i: nat :: i in indices <==> i < |resources| && resources[i].Machine? && resources[i].name in running)
  }

  lemma IndicesOfTheRunning(resources: seq<Resource>, running: set<Name>, volumes: set<Name>)
    ensures var indices := RunningIndices(resources, running, |resources|);
      && AreTheRunning(resources, running, indices)
      && (Saveable(resources, running, volumes) ==> DistinctNames(resources, indices))
  {
    RunningAreRunning(resources, running, |resources|);
    var indices := RunningIndices(resources, running, |resources|);
    forall m | Lists(resources, m) && m in running
      ensures m in NamesOf(resources, indices)
    {
      var i :| 0 <= i < |resources| && resources[i] == Machine(m);
      assert i in indices;
    }
    if Saveable(resources, running, volumes) {
      forall k | 0 <= k < |indices|
        ensures resources[indices[k]].name !in NamesOf(resources, indices[..k])
      {
        forall j | 0 <= j < k
          ensures resources[indices[j]].name != resources[indices[k]].name
        {
          assert resources[..indices[k]][indices[j]] == resources[indices[j]];
        }
      }
    }
  }

  // The volumes and the machines that ran have files, and nothing else has.
  ghost predicate FilesFor(resources: seq<Resource>, running: set<Name>, files: Files) {
    forall i: nat :: i in files <==>
      && i < |resources|
      && (resources[i].Volume? || (resources[i].Machine? && resources[i].name in running))
  }

  /** What a save leaves in the log and the directory. */
  ghost predicate SavedSince(resources: seq<Resource>, users: Users, files: Files, log: seq<Event>, from: nat,
                             cut: map<Name, Data>) {
    && AllWritten(resources, files, log, from)
    && MemoriesAgree(users, log, from, cut)
    && CopiedAtOnce(resources, users, log, from, cut)
  }

  // Memories are saved first, and then volumes copied.
  lemma SavedAtCopies(resources: seq<Resource>, users: Users, files: Files, first: seq<Event>, stopped: seq<Event>,
                      copied: seq<Event>, cut: map<Name, Data>)
    requires NoCopies(first, stopped) && MemoriesAgree(users, stopped, |first|, cut) && NoSaves(stopped, copied)
    requires AllWritten(resources, files, copied, |first|) && CopiedAtRest(resources, copied, |stopped|)
    requires CopiedAtOnce(resources, users, copied, |stopped|, cut)
    ensures SavedSince(resources, users, files, copied, |first|, cut) && CopiedAtRest(resources, copied, |first|)
  {
    MemoriesStillAgree(users, stopped, copied, |first|, cut);
    assert forall k | |first| <= k < |stopped| :: copied[k] == stopped[k];
  }

  lemma StillSaved(resources: seq<Resource>, users: Users, files: Files, log: seq<Event>, more: seq<Event>, from: nat,
                   cut: map<Name, Data>)
    requires SavedSince(resources, users, files, log, from, cut) && CopiedAtRest(resources, log, from)
    requires NoCopies(log, more) && NoSaves(log, more)
    ensures SavedSince(resources, users, files, more, from, cut) && CopiedAtRest(resources, more, from)
  {
    MemoriesStillAgree(users, log, more, from, cut);
    StillWritten(resources, files, log, more, from);
    assert forall k | from <= k < |log| :: more[k] == log[k];
  }

  lemma FilesOfAll(
      resources: seq<Resource>, running: set<Name>, indices: seq<nat>, files: Files, log: seq<Event>, from: nat)
    requires AreTheRunning(resources, running, indices) && AllWritten(resources, files, log, from)
    requires files.Keys == (set i | i in indices) + VolumesOf(resources, |resources|)
    ensures FilesFor(resources, running, files)
    ensures Restartable(resources, indices, files, running - NamesOf(resources, indices))
  {
    WrittenAreOwn(resources, files, log, from);
  }

  // The three loops of `save`.
  method SaveEach(host: Host, resources: seq<Resource>, indices: seq<nat>)
    returns (ok: bool, ghost cut: map<Name, Data>)
    requires host.directory == Some(map[]) && AreTheRunning(resources, host.running, indices)
    modifies host`running, host`memories, host`contents, host`writes, host`faults, host`directory, host`log
    ensures host.directory.Some? && (true in host.faults ==> true in old(host.faults))
    ensures host.contents.Keys == old(host.contents).Keys
    ensures !ok ==>
      || true in old(host.faults) || !DistinctNames(resources, indices)
      || !(VolumeNames(resources) <= old(host.contents).Keys)
    ensures host.running <= old(host.running) && (ok ==> host.running == old(host.running))
    ensures old(host.log) <= host.log && CopiedAtRest(resources, host.log, |old(host.log)|)
    ensures ok ==> SavedSince(resources, host.users, host.directory.value, host.log, |old(host.log)|, cut)
    ensures ok ==> VolumeNames(resources) <= cut.Keys == old(host.contents).Keys
    ensures ok ==> FilesFor(resources, old(host.running), host.directory.value)
    ensures ok ==> RestartedLast(resources, indices, host.directory.value, host.log)
    ensures NoStarts(old(host.log), host.log)
  {
    ghost var first := host.log;
    ok := StopAll(host, resources, indices);
    cut := host.contents;
    if !ok {
      return;
    }
    ok := CopyAndRestart(host, resources, indices, first, old(host.running));
  }

  // The machines of the indices are off, and their memories saved.
  ghost predicate AllStopped(host: Host, resources: seq<Resource>, indices: seq<nat>, first: seq<Event>,
                             running: set<Name>)
    reads host
  {
    && AreTheRunning(resources, running, indices) && host.running == running - NamesOf(resources, indices)
    && host.directory.Some? && host.directory.value.Keys == (set i | i in indices)
    && NoCopies(first, host.log) && NoStarts(first, host.log)
    && AllWritten(resources, host.directory.value, host.log, |first|)
    && MemoriesAgree(host.users, host.log, |first|, host.contents)
  }

  // The last two loops.
  method CopyAndRestart(host: Host, resources: seq<Resource>, indices: seq<nat>, ghost first: seq<Event>,
                        ghost running: set<Name>) returns (ok: bool)
    requires AllStopped(host, resources, indices, first, running)
    modifies host`running, host`memories, host`contents, host`writes, host`faults, host`directory, host`log
    ensures host.directory.Some? && (true in host.faults ==> true in old(host.faults))
    ensures host.contents.Keys == old(host.contents).Keys
    ensures !ok ==>
      || true in old(host.faults) || !DistinctNames(resources, indices)
      || !(VolumeNames(resources) <= old(host.contents).Keys)
    ensures host.running <= running && (ok ==> host.running == running)
    ensures first <= host.log && CopiedAtRest(resources, host.log, |first|)
    ensures ok ==> SavedSince(resources, host.users, host.directory.value, host.log, |first|, old(host.contents))
    ensures ok ==> VolumeNames(resources) <= old(host.contents).Keys
    ensures ok ==> FilesFor(resources, running, host.directory.value)
    ensures ok ==> RestartedLast(resources, indices, host.directory.value, host.log)
    ensures NoStarts(first, host.log)
  {
    ghost var stopped, cut := host.log, host.contents;
    ok := CopyAll(host, resources, |first|);
    ghost var copied, files := host.log, host.directory.value;
    SavedAtCopies(resources, host.users, files, first, stopped, copied, cut);
    NoStartsBoth(first, stopped, copied);
    if !ok {
      return;
    }
    ok := RestartSaved(host, resources, indices, |first|, running, cut);
    NoStartsBoth(first, copied, host.log);
  }

  // The last loop, after which everything saved still is.
  method RestartSaved(host: Host, resources: seq<Resource>, indices: seq<nat>, ghost from: nat,
                      ghost running: set<Name>, ghost cut: map<Name, Data>) returns (ok: bool)
    requires AreTheRunning(resources, running, indices) && host.running == running - NamesOf(resources, indices)
    requires host.directory.Some?
    requires host.directory.value.Keys == (set i | i in indices) + VolumesOf(resources, |resources|)
    requires SavedSince(resources, host.users, host.directory.value, host.log, from, cut)
    requires CopiedAtRest(resources, host.log, from)
    modifies host`running, host`memories, host`contents, host`writes, host`faults, host`log
    ensures true in host.faults ==> true in old(host.faults)
    ensures host.contents.Keys == old(host.contents).Keys && old(host.log) <= host.log
    ensures !ok ==> true in old(host.faults) || !DistinctNames(resources, indices)
    ensures host.running <= running && (ok ==> host.running == running)
    ensures SavedSince(resources, host.users, host.directory.value, host.log, from, cut)
    ensures CopiedAtRest(resources, host.log, from)
    ensures FilesFor(resources, running, host.directory.value)
    ensures ok ==> RestartedLast(resources, indices, host.directory.value, host.log)
    ensures NoStarts(old(host.log), host.log)
  {
    ghost var copied, files := host.log, host.directory.value;
    FilesOfAll(resources, running, indices, files, copied, from);
    ok := RestartAll(host, resources, indices);
    StillSaved(resources, host.users, files, copied, host.log, from, cut);
  }

  lemma WrittenAreOwn(resources: seq<Resource>, files: Files, log: seq<Event>, from: nat)
    requires AllWritten(resources, files, log, from)
    ensures OwnFiles(resources, files)
  {
    forall i | i in files
      ensures OwnFile(resources[i], files[i])
    {
      assert WasWritten(resources[i], i, files[i], log, from);
    }
  }

  /** The files of the volumes whose users are all listed are of the one moment of the cut. */
  lemma CopiesAreTheCut(resources: seq<Resource>, users: Users, files: Files, log: seq<Event>, from: nat,
                        cut: map<Name, Data>, i: nat)
    requires SavedSince(resources, users, files, log, from, cut)
    requires i in files && resources[i].Volume? && resources[i].name in cut
    requires UsersListed(resources, users, resources[i].name)
    ensures files[i] == Disk(resources[i].name, cut[resources[i].name])
  {
    var k :| from <= k < |log| && Wrote(log[k], resources[i], i, files[i]);
    assert Volume(resources[i].name) in resources;
  }

  // A memory agrees with the copies of the volumes whose users are listed and that nobody used any more when it was
  // saved.
  lemma MemoriesAgreeWithCopies(resources: seq<Resource>, users: Users, files: Files, log: seq<Event>, from: nat,
                                cut: map<Name, Data>, k: nat, i: nat)
    requires SavedSince(resources, users, files, log, from, cut) && from <= k < |log| && log[k].Saved?
    requires i in files && resources[i].Volume? && UsersListed(resources, users, resources[i].name)
    requires !Used(users, resources[i].name, log[k].moment.running) && resources[i].name in log[k].moment.contents
    ensures files[i].data == log[k].moment.contents[resources[i].name]
  {
    CopiesAreTheCut(resources, users, files, log, from, cut, i);
  }

  lemma LastAreRestored(resources: seq<Resource>, indices: seq<nat>, files: Files, log: seq<Event>, k: nat)
    requires RestartedLast(resources, indices, files, log) && |log| - |indices| <= k < |log|
    ensures log[k].Restored?
  {
    var start := |log| - |indices|;
    assert Reran(log[start + (k - start)], resources[indices[k - start]], indices[k - start], files);
  }

  lemma RestoredAt(resources: seq<Resource>, running: set<Name>, files: Files, log: seq<Event>, i: nat) returns (k: nat)
    requires RestartedLast(resources, RunningIndices(resources, running, |resources|), files, log)
    requires i < |resources| && resources[i].Machine? && resources[i].name in running
    ensures |log| - |RunningIndices(resources, running, |resources|)| <= k < |log|
    ensures Reran(log[k], resources[i], i, files)
  {
    var indices := RunningIndices(resources, running, |resources|);
    RunningAreRunning(resources, running, |resources|);
    var m :| 0 <= m < |indices| && indices[m] == i;
    k := |log| - |indices| + m;
  }

  /** A machine that ran was restored, after all copies, with the memory that was saved when it was stopped. */
  lemma MemoriesComeBack(resources: seq<Resource>, running: set<Name>, files: Files, log: seq<Event>, from: nat, i: nat)
    returns (j: nat, k: nat)
    requires AllWritten(resources, files, log, from) && FilesFor(resources, running, files)
    requires RestartedLast(resources, RunningIndices(resources, running, |resources|), files, log)
    requires i < |resources| && resources[i].Machine? && resources[i].name in running
    ensures from <= j < k < |log|
    ensures Wrote(log[j], resources[i], i, files[i]) && Reran(log[k], resources[i], i, files)
    ensures log[k].moment.memories[resources[i].name] == log[j].moment.memories[resources[i].name]
    ensures forall l | k <= l < |log| :: !log[l].Copied?
  {
    k := RestoredAt(resources, running, files, log, i);
    var saved :| from <= saved < |log| && Wrote(log[saved], resources[i], i, files[i]);
    j := saved;
    forall l | |log| - |RunningIndices(resources, running, |resources|)| <= l < |log|
      ensures log[l].Restored?
    {
      LastAreRestored(resources, RunningIndices(resources, running, |resources|), files, log, l);
    }
  }

  /**
   Saves to a new directory. Volumes are copied only while no listed machine runs. If nothing raises, exactly the
   machines run that ran before, each restored from its own file after that and none started afresh; exactly the
   volumes and the machines that ran have files, written from what they held when they were saved; all volumes whose
   users are listed held at every copy what their copies hold; and each memory agrees with those of them that nobody
   used any more when it was saved. It raises only if an operation does, the directory exists, a volume doesn't, or a
   running machine is listed twice; then machines that ran may be left off, but none is started.
   */
  method Save(host: Host, resources: seq<Resource>) returns (ok: bool, ghost cut: map<Name, Data>)
    requires host.Valid()
    modifies host
    ensures host.Valid() && host.contents.Keys == old(host.contents).Keys
    ensures true in host.faults ==> true in old(host.faults)
    ensures !ok ==>
      || old(host.directory).Some? || true in old(host.faults)
      || !Saveable(resources, old(host.running), old(host.contents).Keys)
    ensures host.running <= old(host.running) && (ok ==> host.running == old(host.running))
    ensures old(host.log) <= host.log && CopiedAtRest(resources, host.log, |old(host.log)|)
    ensures ok ==> old(host.directory).None? && host.directory.Some? && host.pickle == Some(resources)
    ensures ok ==> SavedSince(resources, host.users, host.directory.value, host.log, |old(host.log)|, cut)
    ensures ok ==> VolumeNames(resources) <= cut.Keys == old(host.contents).Keys
    ensures ok ==> FilesFor(resources, old(host.running), host.directory.value)
    ensures ok ==>
      var indices := RunningIndices(resources, old(host.running), |resources|);
      RestartedLast(resources, indices, host.directory.value, host.log)
    ensures NoStarts(old(host.log), host.log)
  {
    cut := map[];
    if host.directory.Some? {
      return false, cut;
    }
    host.directory := Some(map[]);
    var indices := RunningIndices(resources, host.running, |resources|);
    IndicesOfTheRunning(resources, host.running, host.contents.Keys);
    ok, cut := SaveEach(host, resources, indices);
    if !ok {
      return;
    }
    WrittenAreOwn(resources, host.directory.value, host.log, |old(host.log)|);
    ok := host.WriteList(resources);
  }
}
