/** Sessions: objects made in order from recipes that refer back to them, created, and destroyed in reverse. */
module Sessions {
  import opened Common
  import opened Recipes

  datatype Entry = Entry(name: string, recipe: Recipe)

  // What was done to resources. A destroy that raised still took its resource off the list.
  datatype Event = Created(resource: Made) | Destroyed(resource: Made) | DestroyRaised(resource: Made)

  datatype Outcome = Done | AssertionError | Raised | RaisedDestroying

  type Resources = seq<(string, Made)>

  // The names of the first entries.
  function Names(objects: seq<Entry>, n: nat): set<string>
    requires n <= |objects|
  {
    set i | 0 <= i < n :: objects[i].name
  }

  // No entry has the name of an earlier one.
  predicate UniqueNames(objects: seq<Entry>) {
    UniqueFirst(objects, |objects|)
  }

  predicate UniqueFirst(objects: seq<Entry>, n: nat)
    requires n <= |objects|
  {
    forall i {:trigger Names(objects, i)} | 0 <= i < n :: objects[i].name !in Names(objects, i)
  }

  lemma UniqueIsPairwise(objects: seq<Entry>)
    ensures UniqueNames(objects) <==> forall i, j | 0 <= i < j < |objects| :: objects[i].name != objects[j].name
  {
    if UniqueNames(objects) {
      forall i, j | 0 <= i < j < |objects|
        ensures objects[i].name != objects[j].name
      {
        assert objects[i].name in Names(objects, j);
      }
    }
  }

  /** Names are unique exactly if there are as many as entries. */
  lemma {:induction false} UniqueIfAsMany(objects: seq<Entry>, n: nat)
    requires n <= |objects|
    ensures |Names(objects, n)| <= n
    ensures |Names(objects, n)| == n <==> UniqueFirst(objects, n)
  {
    if n == 0 {
      assert Names(objects, 0) == {};
    } else {
      UniqueIfAsMany(objects, n - 1);
      assert Names(objects, n) == Names(objects, n - 1) + {objects[n - 1].name};
    }
  }

  // For each entry, the recipes that raise for another reason than a reference while it is made.
  type Faulty = nat -> set<Recipe>

  /** The resources that the events leave, most recent last, if every destroy was of the most recent one. */
  function Standing(log: seq<Event>): Option<seq<Made>> {
    if log == [] then Some([])
    else
      match Standing(log[..|log| - 1])
      case None => None
      case Some(stack) =>
        match log[|log| - 1]
        case Created(m) => Some(stack + [m])
        case _ =>
          if stack != [] && stack[|stack| - 1] == log[|log| - 1].resource then Some(stack[..|stack| - 1]) else None
  }

  function Instances(resources: Resources): seq<Made> {
    if resources == [] then []
    else Instances(resources[..|resources| - 1]) + [resources[|resources| - 1].1]
  }

  function Creations(resources: Resources): seq<Event> {
    if resources == [] then []
    else Creations(resources[..|resources| - 1]) + [Created(resources[|resources| - 1].1)]
  }

  // In reverse order.
  function Destructions(resources: Resources): seq<Event> {
    if resources == [] then []
    else [Destroyed(resources[|resources| - 1].1)] + Destructions(resources[..|resources| - 1])
  }

  lemma RecordsOneMore(resources: Resources, name: string, m: Made, before: seq<Event>)
    ensures Instances(resources + [(name, m)]) == Instances(resources) + [m]
    ensures before + Creations(resources + [(name, m)]) == before + Creations(resources) + [Created(m)]
  {
    var all := resources + [(name, m)];
    assert all[..|all| - 1] == resources;
    assert Creations(all) == Creations(resources) + [Created(m)];
  }

  lemma {:induction false} DestroysOneMore(resources: Resources, n: nat)
    requires n < |resources|
    ensures Destructions(resources[n..]) == Destructions(resources[n + 1..]) + [Destroyed(resources[n].1)]
    decreases |resources|
  {
    var last := |resources| - 1;
    if n == last {
      assert resources[n..] == [resources[n]];
      assert resources[n + 1..] == [];
      assert resources[n..][..0] == [];
    } else {
      DestroysOneMore(resources[..last], n);
      assert resources[n..][..last - n] == resources[..last][n..];
      assert resources[n + 1..][..last - n - 1] == resources[..last][n + 1..];
    }
  }

  lemma StandingAfter(log: seq<Event>, e: Event)
    ensures Standing(log + [e]) ==
            match Standing(log)
            case None => None
            case Some(stack) =>
              if e.Created? then Some(stack + [e.resource])
              else if stack != [] && stack[|stack| - 1] == e.resource then Some(stack[..|stack| - 1])
              else None
  {
    assert (log + [e])[..|log|] == log;
  }

  lemma StandingAfterPop(log: seq<Event>, created: Resources, e: Event)
    requires created != [] && Standing(log) == Some(Instances(created))
    requires !e.Created? && e.resource == created[|created| - 1].1
    ensures Standing(log + [e]) == Some(Instances(created[..|created| - 1]))
  {
    StandingAfter(log, e);
  }

  lemma LoggedOneMore(log: seq<Event>, start: seq<Event>, all: Resources, n: nat)
    requires n < |all| && log == start + Destructions(all[n + 1..])
    ensures log + [Destroyed(all[n].1)] == start + Destructions(all[n..])
  {
    DestroysOneMore(all, n);
    Regroup(start, Destructions(all[n + 1..]), [Destroyed(all[n].1)]);
  }

  // Events undo creations one for one, in reverse: what stands before them stands after.
  lemma {:induction false} StandingAfterUndo(log: seq<Event>, resources: Resources)
    requires Standing(log).Some?
    ensures Standing(log + Creations(resources)) == Some(Standing(log).value + Instances(resources))
    ensures Standing(log + Creations(resources) + Destructions(resources)) == Standing(log)
  {
    StandingAfterCreations(log, resources);
    StandingAfterDestructions(log + Creations(resources), Standing(log).value, resources);
  }

  lemma {:induction false} StandingAfterCreations(log: seq<Event>, resources: Resources)
    requires Standing(log).Some?
    ensures Standing(log + Creations(resources)) == Some(Standing(log).value + Instances(resources))
  {
    var stack := Standing(log).value;
    if resources == [] {
      assert log + Creations(resources) == log;
      assert stack + Instances(resources) == stack;
    } else {
      var last := |resources| - 1;
      StandingAfterCreations(log, resources[..last]);
      assert log + Creations(resources) == log + Creations(resources[..last]) + [Created(resources[last].1)];
      StandingAfter(log + Creations(resources[..last]), Created(resources[last].1));
      assert stack + Instances(resources) == stack + Instances(resources[..last]) + [resources[last].1];
    }
  }

  lemma {:induction false} StandingAfterDestructions(log: seq<Event>, stack: seq<Made>, resources: Resources)
    requires Standing(log) == Some(stack + Instances(resources))
    ensures Standing(log + Destructions(resources)) == Some(stack)
    decreases |resources|
  {
    if resources == [] {
      assert log + Destructions(resources) == log;
      assert stack + Instances(resources) == stack;
    } else {
      var last := |resources| - 1;
      var m, front := resources[last].1, Instances(resources[..last]);
      var next := log + [Destroyed(m)];
      StandingAfter(log, Destroyed(m));
      PoppedStack(stack, front, m);
      assert Standing(next) == Some(stack + front);
      StandingAfterDestructions(next, stack, resources[..last]);
      DestroysLastFirst(log, resources);
    }
  }

  lemma DestroysLastFirst(log: seq<Event>, resources: Resources)
    requires resources != []
    ensures var last := |resources| - 1;
      log + Destructions(resources) == log + [Destroyed(resources[last].1)] + Destructions(resources[..last])
  {
    var last := |resources| - 1;
    Regroup(log, [Destroyed(resources[last].1)], Destructions(resources[..last]));
  }

  lemma PoppedStack(stack: seq<Made>, front: seq<Made>, m: Made)
    ensures var all := stack + (front + [m]);
      all != [] && all[|all| - 1] == m && all[..|all| - 1] == stack + front
  {
  }

  // ---- References ----

  // The names made so far, over all attempts, are those of the first entries, which only refer further back.
  ghost predicate Backward(objects: seq<Entry>, reach: nat, names: set<string>) {
    && reach <= |objects|
    && names == Names(objects, reach)
    && forall i | 0 <= i < reach :: References(objects[i].recipe) <= Names(objects, i)
  }

  /** If all references of an entry resolve when its turn comes, in whichever attempt, they are to earlier entries. */
  lemma ResolvesBackward(objects: seq<Entry>, reach: nat, names: set<string>, i: nat)
    requires UniqueNames(objects) && Backward(objects, reach, names) && i < |objects| && i <= reach
    requires References(objects[i].recipe) <= names
    ensures References(objects[i].recipe) <= Names(objects, i)
    ensures Backward(objects, if i == reach then reach + 1 else reach, names + {objects[i].name})
  {
    if i == reach {
      assert Names(objects, reach + 1) == Names(objects, reach) + {objects[i].name};
    } else {
      assert objects[i].name in Names(objects, reach);
      assert names + {objects[i].name} == names;
    }
  }

  // The resources among the first entries, as they are made now.
  function ResourcesAmong(objects: seq<Entry>, made: Objects, classes: set<string>, n: nat): Resources
    requires n <= |objects| && Names(objects, n) <= made.Keys
  {
    if n == 0 then []
    else
      var name := objects[n - 1].name;
      assert Names(objects, n - 1) <= Names(objects, n);
      ResourcesAmong(objects, made, classes, n - 1)
      + if made[name].cls in classes then [(name, made[name])] else []
  }

  lemma {:induction false} ResourcesUntouched(
    objects: seq<Entry>, made: Objects, classes: set<string>, n: nat, name: string, m: Made)
    requires n <= |objects| && Names(objects, n) <= made.Keys && name !in Names(objects, n)
    ensures ResourcesAmong(objects, made[name := m], classes, n) == ResourcesAmong(objects, made, classes, n)
  {
    if n > 0 {
      assert Names(objects, n - 1) <= Names(objects, n);
      ResourcesUntouched(objects, made, classes, n - 1, name, m);
      assert objects[n - 1].name in Names(objects, n);
    }
  }

  lemma EntryAdded(objects: seq<Entry>, made: Objects, classes: set<string>, i: nat, m: Made)
    requires UniqueNames(objects) && i < |objects| && Names(objects, i) <= made.Keys
    ensures var after := made[objects[i].name := m];
      && Names(objects, i + 1) <= after.Keys
      && ResourcesAmong(objects, after, classes, i + 1)
         == ResourcesAmong(objects, made, classes, i) + if m.cls in classes then [(objects[i].name, m)] else []
  {
    assert Names(objects, i + 1) == Names(objects, i) + {objects[i].name};
    ResourcesUntouched(objects, made, classes, i, objects[i].name, m);
  }

  // Every object was made for its entry, in some attempt, and only uses earlier ones of that attempt.
  ghost predicate Coherent(m: Made, i: nat) {
    && m.stamp.position == i
    && forall u | u in Uses(m) :: u.stamp.attempt == m.stamp.attempt && u.stamp.position < i
  }

  ghost predicate MadeFor(objects: seq<Entry>, made: Objects, attempt: nat, i: nat)
    requires i < |objects|
  {
    objects[i].name in made && Coherent(made[objects[i].name], i) && made[objects[i].name].stamp.attempt <= attempt
  }

  ghost predicate AllCoherent(objects: seq<Entry>, made: Objects, attempt: nat, reach: nat) {
    && Backward(objects, reach, made.Keys)
    && forall i | 0 <= i < reach :: MadeFor(objects, made, attempt, i)
  }

  // The first entries' objects are those of the current attempt.
  ghost predicate Current(objects: seq<Entry>, made: Objects, attempt: nat, n: nat)
    requires n <= |objects|
  {
    forall i | 0 <= i < n :: objects[i].name in made && made[objects[i].name].stamp == Stamp(attempt, i)
  }

  /** What an entry's recipe makes in its turn only uses objects of the current attempt, never stale or later ones. */
  lemma UsesCurrent(objects: seq<Entry>, c: Context, i: nat)
    requires UniqueNames(objects) && i < |objects| && c.stamp.position == i
    requires Current(objects, c.objects, c.stamp.attempt, i)
    requires Make(objects[i].recipe, c).Some? && References(objects[i].recipe) <= Names(objects, i)
    ensures Coherent(Make(objects[i].recipe, c).value, i)
  {
    MakesExactly(objects[i].recipe, c);
    var m := Make(objects[i].recipe, c).value;
    forall u | u in Uses(m)
      ensures u.stamp.attempt == m.stamp.attempt && u.stamp.position < i
    {
      var n :| n in References(objects[i].recipe) && c.objects[n] == u;
      assert n in Names(objects, i);
      var j :| 0 <= j < i && objects[j].name == n;
    }
  }

  lemma StaysCoherent(objects: seq<Entry>, c: Context, reach: nat, i: nat)
    requires UniqueNames(objects) && i < |objects| && i <= reach && c.stamp.position == i
    requires AllCoherent(objects, c.objects, c.stamp.attempt, reach)
    requires Current(objects, c.objects, c.stamp.attempt, i)
    requires Make(objects[i].recipe, c).Some?
    ensures var made := c.objects[objects[i].name := Make(objects[i].recipe, c).value];
      && AllCoherent(objects, made, c.stamp.attempt, if i == reach then reach + 1 else reach)
      && Current(objects, made, c.stamp.attempt, i + 1)
  {
    var m := Make(objects[i].recipe, c).value;
    var made := c.objects[objects[i].name := m];
    MakesExactly(objects[i].recipe, c);
    ResolvesBackward(objects, reach, c.objects.Keys, i);
    UsesCurrent(objects, c, i);
    assert made.Keys == c.objects.Keys + {objects[i].name};
    forall j | 0 <= j < if i == reach then reach + 1 else reach
      ensures MadeFor(objects, made, c.stamp.attempt, j)
    {
      assert j < reach ==> MadeFor(objects, c.objects, c.stamp.attempt, j);
    }
  }

  lemma LaterAttempt(objects: seq<Entry>, made: Objects, attempt: nat, later: nat, reach: nat)
    requires AllCoherent(objects, made, attempt, reach) && attempt <= later
    ensures AllCoherent(objects, made, later, reach)
  {
    forall i | 0 <= i < reach
      ensures MadeFor(objects, made, later, i)
    {
      assert MadeFor(objects, made, attempt, i);
    }
  }

  // ---- What an attempt does ----

  // Making an entry's object raises nothing: all it refers to has been made before it, and no call raises.
  predicate Makes(objects: seq<Entry>, faulty: Faulty, i: nat)
    requires i < |objects|
  {
    Sound(objects[i].recipe, faulty(i)) && References(objects[i].recipe) <= Names(objects, i)
  }

  predicate AllMake(objects: seq<Entry>, faulty: Faulty, n: nat)
    requires n <= |objects|
  {
    forall i | 0 <= i < n :: Makes(objects, faulty, i)
  }

  /** That is so exactly if it can be made when its turn comes, in whichever attempt. */
  lemma MakesInTurn(objects: seq<Entry>, made: Objects, reach: nat, faulty: Faulty, attempt: nat, i: nat)
    requires UniqueNames(objects) && Backward(objects, reach, made.Keys) && i < |objects| && i <= reach
    requires Names(objects, i) <= made.Keys
    ensures Make(objects[i].recipe, Context(made, faulty(i), Stamp(attempt, i))).Some?
            <==> Makes(objects, faulty, i)
  {
    MakesIf(objects[i].recipe, Context(made, faulty(i), Stamp(attempt, i)));
    if References(objects[i].recipe) <= made.Keys {
      ResolvesBackward(objects, reach, made.Keys, i);
    }
  }

  // How many resources there are among the first entries.
  function Count(objects: seq<Entry>, classes: set<string>, n: nat): nat
    requires n <= |objects|
  {
    if n == 0 then 0
    else Count(objects, classes, n - 1) + if objects[n - 1].recipe.cls in classes then 1 else 0
  }

  lemma {:induction false} CountGrows(objects: seq<Entry>, classes: set<string>, m: nat, n: nat)
    requires m <= n <= |objects|
    ensures Count(objects, classes, m) <= Count(objects, classes, n)
    decreases n
  {
    if m < n {
      CountGrows(objects, classes, m, n - 1);
    }
  }

  // Every object is there that its recipe makes of the objects.
  ghost predicate Written(objects: seq<Entry>, made: Objects, faulty: Faulty, attempt: nat, i: nat)
    requires i < |objects|
  {
    && objects[i].name in made
    && Make(objects[i].recipe, Context(made, faulty(i), Stamp(attempt, i))) == Some(made[objects[i].name])
  }

  ghost predicate AllWritten(objects: seq<Entry>, made: Objects, faulty: Faulty, attempt: nat, n: nat)
    requires n <= |objects|
  {
    forall i | 0 <= i < n :: Written(objects, made, faulty, attempt, i)
  }

  lemma StaysWritten(
    objects: seq<Entry>, made: Objects, faulty: Faulty, attempt: nat, i: nat, j: nat, m: Made)
    requires UniqueNames(objects) && j <= i < |objects| && References(objects[j].recipe) <= Names(objects, j)
    ensures var c := Context(made, faulty(j), Stamp(attempt, j));
      Make(objects[j].recipe, c) == Make(objects[j].recipe, c.(objects := made[objects[i].name := m]))
  {
    var c := Context(made, faulty(j), Stamp(attempt, j));
    assert objects[i].name !in Names(objects, i) && Names(objects, j) <= Names(objects, i);
    MakesAlike(objects[j].recipe, c, c.(objects := made[objects[i].name := m]));
  }

  /** One more object leaves those before it as their recipes make them. */
  lemma WrittenOneMore(objects: seq<Entry>, made: Objects, faulty: Faulty, attempt: nat, i: nat, m: Made)
    requires UniqueNames(objects) && i < |objects| && AllMake(objects, faulty, i + 1)
    requires AllWritten(objects, made, faulty, attempt, i)
    requires Make(objects[i].recipe, Context(made, faulty(i), Stamp(attempt, i))) == Some(m)
    ensures AllWritten(objects, made[objects[i].name := m], faulty, attempt, i + 1)
  {
    var after := made[objects[i].name := m];
    forall j | 0 <= j < i + 1
      ensures Written(objects, after, faulty, attempt, j)
    {
      assert Makes(objects, faulty, j);
      StaysWritten(objects, made, faulty, attempt, i, j, m);
      if j < i {
        assert Written(objects, made, faulty, attempt, j);
        assert objects[j].name in Names(objects, i);
      }
    }
  }

  // What then holds of it and those before.
  lemma EntryMade(
    objects: seq<Entry>, made: Objects, classes: set<string>, faulty: Faulty, attempt: nat, i: nat, m: Made)
    requires UniqueNames(objects) && i < |objects| && AllMake(objects, faulty, i) && Makes(objects, faulty, i)
    requires AllWritten(objects, made, faulty, attempt, i) && Names(objects, i) <= made.Keys
    requires Make(objects[i].recipe, Context(made, faulty(i), Stamp(attempt, i))) == Some(m)
    ensures var after := made[objects[i].name := m];
      && AllMake(objects, faulty, i + 1) && m.cls == objects[i].recipe.cls
      && AllWritten(objects, after, faulty, attempt, i) && AllWritten(objects, after, faulty, attempt, i + 1)
      && Names(objects, i) <= after.Keys && Names(objects, i + 1) <= after.Keys
      && ResourcesAmong(objects, after, classes, i) == ResourcesAmong(objects, made, classes, i)
      && ResourcesAmong(objects, after, classes, i + 1)
         == ResourcesAmong(objects, made, classes, i) + if m.cls in classes then [(objects[i].name, m)] else []
  {
    WrittenOneMore(objects, made, faulty, attempt, i, m);
    EntryAdded(objects, made, classes, i, m);
    ResourcesUntouched(objects, made, classes, i, objects[i].name, m);
  }

  /**
   An object is what its recipe says, call by call and argument by argument, and uses exactly the objects of the names
   that refers to.
   */
  lemma WrittenIsOf(objects: seq<Entry>, made: Objects, faulty: Faulty, attempt: nat, i: nat)
    requires i < |objects| && Written(objects, made, faulty, attempt, i)
    ensures IsOf(objects[i].recipe, made[objects[i].name], made, Stamp(attempt, i))
    ensures Exactly(Uses(made[objects[i].name]), References(objects[i].recipe), made)
  {
    MakesAsWritten(objects[i].recipe, Context(made, faulty(i), Stamp(attempt, i)));
    MakesExactly(objects[i].recipe, Context(made, faulty(i), Stamp(attempt, i)));
  }

  // The first objects are what their recipes say of the objects there are, made in the attempt.
  ghost predicate AreOf(objects: seq<Entry>, made: Objects, attempt: nat, n: nat) {
    && n <= |objects| && Names(objects, n) <= made.Keys
    && forall j | 0 <= j < n ::
         objects[j].name in made && IsOf(objects[j].recipe, made[objects[j].name], made, Stamp(attempt, j))
  }

  lemma AllWrittenAreOf(objects: seq<Entry>, made: Objects, faulty: Faulty, attempt: nat, n: nat)
    requires n <= |objects| && Names(objects, n) <= made.Keys && AllWritten(objects, made, faulty, attempt, n)
    ensures AreOf(objects, made, attempt, n)
    ensures forall j | 0 <= j < n ::
      objects[j].name in made && Exactly(Uses(made[objects[j].name]), References(objects[j].recipe), made)
  {
    forall j | 0 <= j < n
      ensures objects[j].name in made && IsOf(objects[j].recipe, made[objects[j].name], made, Stamp(attempt, j))
      ensures Exactly(Uses(made[objects[j].name]), References(objects[j].recipe), made)
    {
      assert Written(objects, made, faulty, attempt, j);
      WrittenIsOf(objects, made, faulty, attempt, j);
    }
  }

  // The first entry at which an attempt fails: making its object does, or creating that.
  predicate StopsAt(objects: seq<Entry>, classes: set<string>, faulty: Faulty, planned: seq<bool>, i: nat) {
    && i < |objects| && AllMake(objects, faulty, i) && NoneFails(planned, Count(objects, classes, i))
    && (Makes(objects, faulty, i) ==>
          objects[i].recipe.cls in classes && Fails(planned, Count(objects, classes, i)))
  }

  // How many creates it has then tried.
  function Tried(objects: seq<Entry>, classes: set<string>, faulty: Faulty, i: nat): nat
    requires i < |objects|
  {
    Count(objects, classes, i) + if Makes(objects, faulty, i) then 1 else 0
  }

  predicate NeverStops(objects: seq<Entry>, classes: set<string>, faulty: Faulty, planned: seq<bool>) {
    AllMake(objects, faulty, |objects|) && NoneFails(planned, Count(objects, classes, |objects|))
  }

  lemma StopsOrNot(objects: seq<Entry>, classes: set<string>, faulty: Faulty, planned: seq<bool>, i: nat)
    requires StopsAt(objects, classes, faulty, planned, i)
    ensures !NeverStops(objects, classes, faulty, planned)
  {
    if Makes(objects, faulty, i) {
      CountGrows(objects, classes, i + 1, |objects|);
    }
  }

  class Session {
    const objects: seq<Entry>
    // The classes of resources.
    const classes: set<string>
    var made: Objects
    var created: Resources
    var attempt: nat
    var log: seq<Event>
    // Whether each resource's create or destroy raises.
    var faults: seq<bool>
    ghost var reach: nat

    ghost predicate Valid()
      reads this
    {
      && UniqueNames(objects)
      && AllCoherent(objects, made, attempt, reach)
      && Standing(log) == Some(Instances(created))
    }

    // Names must be unique.
    constructor (objects: seq<Entry>, classes: set<string>, faults: seq<bool>)
      requires UniqueNames(objects)
      ensures Valid() && made == map[] && created == [] && log == [] && attempt == 0
      ensures this.objects == objects && this.classes == classes
    {
      this.objects, this.classes, this.faults := objects, classes, faults;
      made, created, attempt, log, reach := map[], [], 0, [], 0;
    }

    method Fault() returns (raises: bool)
      modifies `faults
      ensures raises <==> Fails(old(faults), 0)
      ensures faults == Dropped(old(faults), 1)
    {
      raises := faults != [] && faults[0];
      if faults != [] {
        faults := faults[1..];
      }
    }

    /**
     Destroys the created resources, last first. If one's destroy raises, which is the only reason to stop, those before
     it remain.
     */
    method Destroy() returns (ok: bool)
      requires Valid()
      modifies `created, `log, `faults
      ensures Valid()
      ensures ok <==> NoneFails(old(faults), |old(created)|)
      ensures ok ==>
        && created == [] && log == old(log) + Destructions(old(created))
        && faults == Dropped(old(faults), |old(created)|)
      ensures !ok ==> StoppedUndoing(old(created), old(log), old(faults))
    {
      assert created == created[..|created|] && created[|created|..] == [];
      assert log == log + Destructions([]);
      while created != []
        invariant Undoing(old(created), old(log), old(faults))
        decreases |created|
      {
        var popped := Pop(old(created), old(log), old(faults));
        if !popped {
          return false;
        }
      }
      assert old(created)[0..] == old(created);
      return true;
    }

    // All but the first of the resources there were have been destroyed.
    ghost predicate Undoing(all: Resources, start: seq<Event>, planned: seq<bool>)
      reads this
    {
      && Valid() && |created| <= |all| && created == all[..|created|]
      && log == start + Destructions(all[|created|..])
      && NoneFails(planned, |all| - |created|) && faults == Dropped(planned, |all| - |created|)
    }

    // All but the first of the resources there were have been destroyed, of which the last one's destroy raised.
    ghost predicate StoppedUndoing(all: Resources, start: seq<Event>, planned: seq<bool>)
      reads this
    {
      && Valid() && |created| < |all| && created == all[..|created|]
      && log == start + Destructions(all[|created| + 1..]) + [DestroyRaised(all[|created|].1)]
      && NoneFails(planned, |all| - |created| - 1) && Fails(planned, |all| - |created| - 1)
      && faults == Dropped(planned, |all| - |created|)
    }

    method Pop(ghost all: Resources, ghost start: seq<Event>, ghost planned: seq<bool>) returns (ok: bool)
      requires Undoing(all, start, planned) && created != []
      modifies `created, `log, `faults
      ensures |created| == |old(created)| - 1
      ensures ok <==> !Fails(old(faults), 0)
      ensures ok ==> Undoing(all, start, planned)
      ensures !ok ==> StoppedUndoing(all, start, planned)
    {
      var n := |created| - 1;
      var resource := created[n].1;
      ghost var stack := created;
      created := created[..n];
      assert created == all[..n];
      NextStep(planned, |all| - n - 1);
      var raises := Fault();
      if raises {
        StandingAfterPop(log, stack, DestroyRaised(resource));
        log := log + [DestroyRaised(resource)];
        return false;
      }
      StandingAfterPop(log, stack, Destroyed(resource));
      LoggedOneMore(log, start, all, n);
      log := log + [Destroyed(resource)];
      return true;
    }

    // Within an attempt, the first i entries have been made and created.
    ghost predicate InProgress(i: nat, faulty: Faulty, before: seq<Event>, planned: seq<bool>)
      reads this
    {
      && Valid() && i <= |objects| && i <= reach && Current(objects, made, attempt, i)
      && SoFar(i, faulty, before, planned)
      && faults == Dropped(planned, |created|)
    }

    // They were made as their recipes say, and no create raised.
    ghost predicate SoFar(i: nat, faulty: Faulty, before: seq<Event>, planned: seq<bool>)
      requires i <= |objects|
      reads this
    {
      && AllMake(objects, faulty, i) && AllWritten(objects, made, faulty, attempt, i)
      && Names(objects, i) <= made.Keys && created == ResourcesAmong(objects, made, classes, i)
      && |created| == Count(objects, classes, i) && NoneFails(planned, |created|)
      && log == before + Creations(created)
    }

    // So they have, and then making or creating the next one failed.
    ghost predicate Stopped(i: nat, faulty: Faulty, before: seq<Event>, planned: seq<bool>)
      reads this
    {
      && Valid() && StopsAt(objects, classes, faulty, planned, i)
      && SoFar(i, faulty, before, planned)
      && faults == Dropped(planned, Tried(objects, classes, faulty, i))
    }

    // What `create` tries: makes every object, and creates the resources among them.
    method Attempt(faulty: Faulty) returns (ok: bool, ghost at: nat)
      requires Valid() && created == []
      modifies this
      ensures attempt == old(attempt) + 1
      ensures ok ==> InProgress(|objects|, faulty, old(log), old(faults))
      ensures !ok ==> Stopped(at, faulty, old(log), old(faults))
    {
      NextAttempt(faulty);
      for i := 0 to |objects|
        invariant InProgress(i, faulty, old(log), old(faults))
        invariant attempt == old(attempt) + 1
      {
        var entered := Enter(i, faulty, old(log), old(faults));
        if !entered {
          return false, i;
        }
      }
      return true, |objects|;
    }

    method NextAttempt(ghost faulty: Faulty)
      requires Valid() && created == []
      modifies `attempt
      ensures InProgress(0, faulty, log, faults) && attempt == old(attempt) + 1
    {
      assert log == log + Creations([]);
      LaterAttempt(objects, made, attempt, attempt + 1, reach);
      attempt := attempt + 1;
    }

    // The first i entries have been made and created, and the next one has been made.
    ghost predicate Entering(i: nat, m: Made, faulty: Faulty, before: seq<Event>, planned: seq<bool>)
      reads this
    {
      && Valid() && i < |objects| && i < reach && Current(objects, made, attempt, i + 1)
      && SoFar(i, faulty, before, planned) && faults == Dropped(planned, |created|)
      && AllMake(objects, faulty, i + 1) && AllWritten(objects, made, faulty, attempt, i + 1)
      && Names(objects, i + 1) <= made.Keys && made[objects[i].name] == m && m.cls == objects[i].recipe.cls
      && ResourcesAmong(objects, made, classes, i + 1)
         == created + if m.cls in classes then [(objects[i].name, m)] else []
    }

    // The loop's body: makes one entry's object and creates it if it is a resource.
    method Enter(i: nat, faulty: Faulty, ghost before: seq<Event>, ghost planned: seq<bool>) returns (ok: bool)
      requires i < |objects| && InProgress(i, faulty, before, planned)
      modifies this
      ensures attempt == old(attempt)
      ensures ok ==> InProgress(i + 1, faulty, before, planned)
      ensures !ok ==> Stopped(i, faulty, before, planned)
    {
      var m := MakeEntry(i, faulty, before, planned);
      if m.None? {
        return false;
      }
      ok := true;
      if m.value.cls in classes {
        ok := CreateMade(i, m.value, faulty, before, planned);
      }
    }

    method CreateMade(i: nat, m: Made, ghost faulty: Faulty, ghost before: seq<Event>, ghost planned: seq<bool>)
      returns (ok: bool)
      requires Entering(i, m, faulty, before, planned) && m.cls in classes
      modifies `created, `log, `faults
      ensures ok ==> InProgress(i + 1, faulty, before, planned)
      ensures !ok ==> Stopped(i, faulty, before, planned)
    {
      NextStep(planned, |created|);
      var raises := Fault();
      if raises {
        return false;
      }
      Record(objects[i].name, m, before);
      return true;
    }

    // Makes one entry's object, replacing that of an earlier attempt.
    method MakeEntry(i: nat, faulty: Faulty, ghost before: seq<Event>, ghost planned: seq<bool>)
      returns (m: Option<Made>)
      requires i < |objects| && InProgress(i, faulty, before, planned)
      modifies `made, `reach
      ensures m == Make(objects[i].recipe, Context(old(made), faulty(i), Stamp(attempt, i)))
      ensures m.None? ==> made == old(made) && Stopped(i, faulty, before, planned)
      ensures m.Some? ==>
        made == old(made)[objects[i].name := m.value] && Entering(i, m.value, faulty, before, planned)
    {
      var c := Context(made, faulty(i), Stamp(attempt, i));
      m := Make(objects[i].recipe, c);
      MakesInTurn(objects, made, reach, faulty, attempt, i);
      if m.Some? {
        StaysCoherent(objects, c, reach, i);
        EntryMade(objects, made, classes, faulty, attempt, i, m.value);
        made := made[objects[i].name := m.value];
        reach := if i == reach then reach + 1 else reach;
      }
    }

    method Record(name: string, m: Made, ghost before: seq<Event>)
      requires Valid() && log == before + Creations(created)
      modifies `created, `log
      ensures Valid() && created == old(created) + [(name, m)] && log == old(log) + [Created(m)]
      ensures log == before + Creations(created)
    {
      RecordsOneMore(created, name, m, before);
      StandingAfter(log, Created(m));
      created := created + [(name, m)];
      log := log + [Created(m)];
    }

    /**
     Makes and creates everything, in order, exactly if no making and no create raises: every object is what its recipe
     makes of the others. Otherwise it rolls back at the first entry where one does: exactly the resources whose creates
     didn't raise are destroyed, once each and in reverse order, unless a destroy raises, which leaves those before it
     for a later destroy.
     */
    method Create(faulty: Faulty) returns (outcome: Outcome, ghost at: nat)
      requires Valid()
      modifies this
      ensures Valid()
      ensures outcome == AssertionError <==> old(created) != []
      ensures outcome == AssertionError ==>
        made == old(made) && created == old(created) && log == old(log) && faults == old(faults)
      ensures outcome == Done <==> old(created) == [] && NeverStops(objects, classes, faulty, old(faults))
      ensures outcome == Done ==>
        && attempt == old(attempt) + 1 && AreOf(objects, made, attempt, |objects|)
        && Current(objects, made, attempt, |objects|) && AllCoherent(objects, made, attempt, |objects|)
        && Names(objects, |objects|) <= made.Keys
        && created == ResourcesAmong(objects, made, classes, |objects|)
        && |created| == Count(objects, classes, |objects|)
        && log == old(log) + Creations(created) && faults == Dropped(old(faults), |created|)
      ensures outcome == Done ==>
        forall j | 0 <= j < |objects| :: Exactly(Uses(made[objects[j].name]), References(objects[j].recipe), made)
      ensures outcome == Raised || outcome == RaisedDestroying ==>
        && attempt == old(attempt) + 1 && StopsAt(objects, classes, faulty, old(faults), at)
        && AreOf(objects, made, attempt, at)
        && var undone, rest := ResourcesAmong(objects, made, classes, at),
             Dropped(old(faults), Tried(objects, classes, faulty, at));
           && |undone| == Count(objects, classes, at)
           && (outcome == Raised <==> NoneFails(rest, |undone|))
           && (outcome == Raised ==>
                 created == [] && log == old(log) + Creations(undone) + Destructions(undone))
           && (outcome == RaisedDestroying ==> StoppedUndoing(undone, old(log) + Creations(undone), rest))
    {
      at := 0;
      if created != [] {
        return AssertionError, at;
      }
      var ok;
      ok, at := Attempt(faulty);
      if ok {
        AllWrittenAreOf(objects, made, faulty, attempt, |objects|);
        return Done, at;
      }
      AllWrittenAreOf(objects, made, faulty, attempt, at);
      StopsOrNot(objects, classes, faulty, old(faults), at);
      var destroyed := Destroy();
      return if destroyed then Raised else RaisedDestroying, at;
    }
  }

  // A session of named objects, or None for the error that names must be unique.
  method NewSession(objects: seq<Entry>, classes: set<string>, faults: seq<bool>) returns (session: Option<Session>)
    ensures session.Some? <==> forall i, j | 0 <= i < j < |objects| :: objects[i].name != objects[j].name
    ensures session.Some? ==>
      && fresh(session.value) && session.value.Valid() && session.value.objects == objects
      && session.value.made == map[] && session.value.created == []
  {
    UniqueIfAsMany(objects, |objects|);
    UniqueIsPairwise(objects);
    if |Names(objects, |objects|)| != |objects| {
      return None;
    }
    var s := new Session(objects, classes, faults);
    session := Some(s);
  }
}
