/** A host's machines and volumes, the directory of a saved state on it, and what is done to them. */
module Hosts {
  import opened Common

  type Name = string
  type Data = Bytes

  datatype Resource = Machine(name: Name) | Volume(name: Name) | Other(name: Name)

  // What a file holds: a machine's memory, or a volume's data.
  datatype File = Memory(name: Name, data: Data) | Disk(name: Name, data: Data)

  type Files = map<nat, File>

  // The machines that run, what is in their memories, and what volumes hold.
  datatype Moment = Moment(running: set<Name>, memories: map<Name, Data>, contents: map<Name, Data>)

  // What was done to the resource of an index, with the moment it was done.
  datatype Event =
    | Saved(index: nat, moment: Moment)
    | Copied(index: nat, moment: Moment)
    | Restored(index: nat, file: File, moment: Moment)
    | Started(index: nat, moment: Moment)
    | Destroyed(index: nat)
    | DestroyRaised(index: nat)

  // What running machines write until the next operation.
  datatype Writes = Writes(memories: map<Name, Data>, contents: map<Name, Data>)

  // The machines that use each volume.
  type Users = map<Name, set<Name>>

  predicate Used(users: Users, volume: Name, running: set<Name>) {
    volume in users && exists m | m in users[volume] :: m in running
  }

  // Volumes that weren't in use hold what they held.
  ghost predicate AtRest(users: Users, running: set<Name>, before: map<Name, Data>, after: map<Name, Data>) {
    forall v | v in before && !Used(users, v, running) :: v in after && after[v] == before[v]
  }

  function MachineNames(resources: seq<Resource>): set<Name> {
    set r | r in resources && r.Machine? :: r.name
  }

  function VolumeNames(resources: seq<Resource>): set<Name> {
    set r | r in resources && r.Volume? :: r.name
  }

  // A file is one that saving the resource wrote.
  predicate OwnFile(resource: Resource, file: File) {
    match resource
    case Machine(name) => file.Memory? && file.name == name
    case Volume(name) => file.Disk? && file.name == name
    case Other(_) => false
  }

  predicate OwnFiles(resources: seq<Resource>, files: Files) {
    forall i | i in files :: i < |resources| && OwnFile(resources[i], files[i])
  }

  class Host {
    const users: Users
    var running: set<Name>
    var memories: map<Name, Data>
    var contents: map<Name, Data>
    // The directory's files, if it exists, and the list of resources written last.
    var directory: Option<Files>
    var pickle: Option<seq<Resource>>
    var log: seq<Event>
    // What is written between our operations, and whether each operation raises.
    var writes: seq<Writes>
    var faults: seq<bool>

    // The list of resources is written last, so that every file is there with it.
    ghost predicate Valid()
      reads this
    {
      pickle.Some? ==> directory.Some? && OwnFiles(pickle.value, directory.value)
    }

    function Now(): Moment
      reads this
    {
      Moment(running, memories, contents)
    }

    constructor (users: Users, running: set<Name>, memories: map<Name, Data>, contents: map<Name, Data>,
                 writes: seq<Writes>, faults: seq<bool>)
      ensures Valid() && this.users == users && Now() == Moment(running, memories, contents)
      ensures directory.None? && pickle.None? && log == [] && this.faults == faults
    {
      this.users, this.running, this.memories, this.contents := users, running, memories, contents;
      this.writes, this.faults := writes, faults;
      directory, pickle, log := None, None, [];
    }

    // Lets running machines write, and tells whether the next operation raises.
    method Elapse() returns (raises: bool)
      modifies `memories, `contents, `writes, `faults
      ensures contents.Keys == old(contents).Keys && AtRest(users, running, old(contents), contents)
      ensures raises <==> Fails(old(faults), 0)
      ensures faults == Dropped(old(faults), 1)
      ensures raises || true in faults ==> true in old(faults)
    {
      if writes != [] {
        var step := writes[0];
        writes := writes[1..];
        memories := map m | m in running :: if m in step.memories then step.memories[m] else Recall(m);
        contents := map v | v in contents ::
          if v in step.contents && Used(users, v, running) then step.contents[v] else contents[v];
      }
      raises := faults != [] && faults[0];
      if faults != [] {
        faults := faults[1..];
      }
    }

    function Recall(name: Name): Data
      reads this
    {
      if name in memories then memories[name] else []
    }

    // Saves a running machine's memory, stopping it.
    method SaveMachine(name: Name, index: nat) returns (ok: bool)
      requires directory.Some?
      modifies `running, `memories, `contents, `writes, `faults, `directory, `log
      ensures directory.Some? && (true in faults ==> true in old(faults))
      ensures contents.Keys == old(contents).Keys && AtRest(users, old(running), old(contents), contents)
      ensures ok ==>
        && name in old(running) && running == old(running) - {name}
        && directory.value == old(directory.value)[index := Memory(name, Recall(name))]
        && name in memories && log == old(log) + [Saved(index, Now())]
      ensures !ok ==> running == old(running) && directory == old(directory) && log == old(log)
      ensures !ok ==> true in old(faults) || name !in old(running)
    {
      var raises := Elapse();
      if raises || name !in running {
        return false;
      }
      memories := memories[name := Recall(name)];
      running := running - {name};
      directory := Some(directory.value[index := Memory(name, memories[name])]);
      log := log + [Saved(index, Now())];
      return true;
    }

    method SaveVolume(name: Name, index: nat) returns (ok: bool)
      requires directory.Some?
      modifies `memories, `contents, `writes, `faults, `directory, `log
      ensures directory.Some? && (true in faults ==> true in old(faults))
      ensures contents.Keys == old(contents).Keys && AtRest(users, running, old(contents), contents)
      ensures ok ==>
        && name in contents && directory.value == old(directory.value)[index := Disk(name, contents[name])]
        && log == old(log) + [Copied(index, Now())]
      ensures !ok ==> directory == old(directory) && log == old(log)
      ensures !ok ==> true in old(faults) || name !in old(contents)
    {
      var raises := Elapse();
      if raises || name !in contents {
        return false;
      }
      directory := Some(directory.value[index := Disk(name, contents[name])]);
      log := log + [Copied(index, Now())];
      return true;
    }

    // Starts a machine from the memory saved in the file of an index.
    method RestoreMachine(name: Name, index: nat) returns (ok: bool)
      requires directory.Some? && index in directory.value && OwnFile(Machine(name), directory.value[index])
      modifies `running, `memories, `contents, `writes, `faults, `log
      ensures contents.Keys == old(contents).Keys && AtRest(users, old(running), old(contents), contents)
      ensures true in faults ==> true in old(faults)
      ensures ok ==>
        && name !in old(running) && running == old(running) + {name}
        && name in memories && memories[name] == directory.value[index].data
        && log == old(log) + [Restored(index, directory.value[index], Now())]
      ensures !ok ==> running == old(running) && log == old(log)
      ensures ok <==> name !in old(running) && !Fails(old(faults), 0)
      ensures faults == Dropped(old(faults), 1)
    {
      var raises := Elapse();
      if raises || name in running {
        return false;
      }
      running := running + {name};
      memories := memories[name := directory.value[index].data];
      log := log + [Restored(index, directory.value[index], Now())];
      return true;
    }

    // Creates a volume, and then uploads the data saved in the file of an index. If just that raises, the volume stays.
    method RestoreVolume(name: Name, index: nat) returns (ok: bool)
      requires directory.Some? && index in directory.value
      modifies `memories, `contents, `writes, `faults, `log
      ensures AtRest(users, running, old(contents), contents) && (true in faults ==> true in old(faults))
      ensures ok ==>
        && name !in old(contents) && contents.Keys == old(contents).Keys + {name}
        && contents[name] == directory.value[index].data
        && log == old(log) + [Restored(index, directory.value[index], Now())]
      ensures !ok ==> log == old(log) && old(contents).Keys <= contents.Keys <= old(contents).Keys + {name}
      ensures !ok ==> (name in contents <==> name in old(contents) || !Fails(old(faults), 0))
      ensures ok <==> name !in old(contents) && !Fails(old(faults), 0) && !Fails(old(faults), 1)
      ensures ok ==> faults == Dropped(old(faults), 2)
    {
      ok := CreateVolume(name);
      if ok {
        ok := Upload(name, index);
      }
    }

    method CreateVolume(name: Name) returns (ok: bool)
      modifies `memories, `contents, `writes, `faults
      ensures AtRest(users, running, old(contents), contents) && (true in faults ==> true in old(faults))
      ensures ok <==> name !in old(contents) && !Fails(old(faults), 0)
      ensures contents.Keys == old(contents).Keys + if ok then {name} else {}
      ensures faults == Dropped(old(faults), 1)
    {
      var raises := Elapse();
      if raises || name in contents {
        return false;
      }
      contents := contents[name := []];
      return true;
    }

    // Replaces what an existing volume holds.
    method Upload(name: Name, index: nat) returns (ok: bool)
      requires name in contents && directory.Some? && index in directory.value
      modifies `memories, `contents, `writes, `faults, `log
      ensures contents.Keys == old(contents).Keys && (true in faults ==> true in old(faults))
      ensures forall v | v in old(contents) && v != name && !Used(users, v, running) :: contents[v] == old(contents)[v]
      ensures ok <==> !Fails(old(faults), 0)
      ensures ok ==>
        contents[name] == directory.value[index].data
        && log == old(log) + [Restored(index, directory.value[index], Now())]
      ensures !ok ==> log == old(log)
      ensures faults == Dropped(old(faults), 1)
    {
      var raises := Elapse();
      if raises {
        return false;
      }
      contents := contents[name := directory.value[index].data];
      log := log + [Restored(index, directory.value[index], Now())];
      return true;
    }

    method WriteList(resources: seq<Resource>) returns (ok: bool)
      modifies `memories, `contents, `writes, `faults, `pickle
      ensures pickle == if ok then Some(resources) else old(pickle)
      ensures contents.Keys == old(contents).Keys
      ensures true in faults ==> true in old(faults)
      ensures !ok ==> true in old(faults)
    {
      var raises := Elapse();
      if !raises {
        pickle := Some(resources);
      }
      return !raises;
    }

    method Start(resource: Resource, index: nat) returns (ok: bool)
      modifies `running, `memories, `contents, `writes, `faults, `log
      ensures AtRest(users, old(running), old(contents), contents) && (true in faults ==> true in old(faults))
      ensures ok ==>
        && MachineNames([resource]) !! old(running) && VolumeNames([resource]) !! old(contents).Keys
        && running == old(running) + MachineNames([resource])
        && contents.Keys == old(contents).Keys + VolumeNames([resource])
        && log == old(log) + [Started(index, Now())]
      ensures !ok ==> running == old(running) && contents.Keys == old(contents).Keys && log == old(log)
      ensures ok <==>
        && !Fails(old(faults), 0)
        && MachineNames([resource]) !! old(running) && VolumeNames([resource]) !! old(contents).Keys
      ensures faults == Dropped(old(faults), 1)
    {
      var raises := Elapse();
      if raises {
        return false;
      }
      match resource {
        case Machine(name) =>
          if name in running {
            return false;
          }
          running, memories := running + {name}, memories[name := []];
        case Volume(name) =>
          if name in contents {
            return false;
          }
          contents := contents[name := []];
        case Other(_) =>
      }
      log := log + [Started(index, Now())];
      return true;
    }

    method Destroy(resource: Resource, index: nat) returns (ok: bool)
      modifies `running, `memories, `contents, `writes, `faults, `log
      ensures log == old(log) + [if ok then Destroyed(index) else DestroyRaised(index)]
      ensures running == old(running) - if ok then MachineNames([resource]) else {}
      ensures contents.Keys == old(contents).Keys - if ok then VolumeNames([resource]) else {}
      ensures true in faults ==> true in old(faults)
      ensures !ok ==> true in old(faults) || (resource.Volume? && resource.name !in old(contents))
    {
      var raises := Elapse();
      if raises || (resource.Volume? && resource.name !in contents) {
        log := log + [DestroyRaised(index)];
        return false;
      }
      running := if resource.Machine? then running - {resource.name} else running;
      contents := if resource.Volume? then contents - {resource.name} else contents;
      log := log + [Destroyed(index)];
      return true;
    }
  }
}
