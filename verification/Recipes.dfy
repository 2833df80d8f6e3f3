/** Recipes for objects, whose arguments may refer to objects made before by name. */
module Recipes {
  import opened Common

  // Arguments are given by name: plain, a reference to an object (or what an attribute path leads to), or a recipe.
  datatype Value = Plain(text: string) | Reference(name: string, attributes: seq<string>) | Nested(recipe: Recipe)

  datatype Argument = Argument(name: string, value: Value)

  type Arguments = seq<Argument>

  datatype Step = Step(builder: string, arguments: Arguments)

  // A recipe calls a class, or makes a builder and then takes steps.
  datatype Recipe = Call(cls: string, arguments: Arguments) | Build(cls: string, steps: seq<Step>)

  // When an object was made: in which attempt, and for which entry.
  datatype Stamp = Stamp(attempt: nat, position: nat)

  // An object, with every call that made it, in order: the constructor's, and then the builders'.
  datatype Made = Made(stamp: Stamp, cls: string, calls: seq<Invocation>)
  datatype Invocation = Invocation(name: string, arguments: seq<Passed>)
  datatype Passed = Passed(name: string, value: Resolved)
  datatype Resolved = Text(text: string) | Attribute(of: Made, attributes: seq<string>) | Instance(made: Made)

  type Objects = map<string, Made>

  const INIT := "__init__"

  // What resolving needs: the objects there are, the recipes that raise for another reason, and the stamp for new
  // objects.
  datatype Context = Context(objects: Objects, faulty: set<Recipe>, stamp: Stamp)

  function Resolve(v: Value, c: Context): Option<Resolved>
    decreases v
  {
    match v
    case Plain(text) => Some(Text(text))
    case Reference(name, attributes) => if name in c.objects then Some(Attribute(c.objects[name], attributes)) else None
    case Nested(recipe) =>
      match Make(recipe, c)
      case None => None
      case Some(m) => Some(Instance(m))
  }

  function ResolveAll(arguments: Arguments, c: Context): Option<seq<Passed>>
    decreases arguments
  {
    if arguments == [] then Some([])
    else
      match Resolve(arguments[0].value, c)
      case None => None
      case Some(first) =>
        match ResolveAll(arguments[1..], c)
        case None => None
        case Some(rest) => Some([Passed(arguments[0].name, first)] + rest)
  }

  function TakeSteps(steps: seq<Step>, c: Context): Option<seq<Invocation>>
    decreases steps
  {
    if steps == [] then Some([])
    else
      match ResolveAll(steps[0].arguments, c)
      case None => None
      case Some(first) =>
        match TakeSteps(steps[1..], c)
        case None => None
        case Some(rest) => Some([Invocation(steps[0].builder, first)] + rest)
  }

  function Make(recipe: Recipe, c: Context): Option<Made>
    decreases recipe
  {
    if recipe in c.faulty then None
    else if recipe.Call? then
      match ResolveAll(recipe.arguments, c)
      case None => None
      case Some(passed) => Some(Made(c.stamp, recipe.cls, [Invocation(INIT, passed)]))
    else
      match TakeSteps(recipe.steps, c)
      case None => None
      case Some(calls) => Some(Made(c.stamp, recipe.cls, [Invocation(INIT, [])] + calls))
  }

  // ---- What an object made from a recipe is ----

  // A plain value as it is, a reference as the object of its name with its attributes, and a recipe as its own object.
  predicate IsValue(v: Value, r: Resolved, objects: Objects, stamp: Stamp)
    decreases v
  {
    match v
    case Plain(text) => r == Text(text)
    case Reference(name, attributes) => name in objects && r == Attribute(objects[name], attributes)
    case Nested(recipe) => r.Instance? && IsOf(recipe, r.made, objects, stamp)
  }

  // Every argument by its name, and no other.
  predicate AreValues(arguments: Arguments, passed: seq<Passed>, objects: Objects, stamp: Stamp)
    decreases arguments
  {
    && |passed| == |arguments|
    && forall i | 0 <= i < |arguments| ::
         passed[i].name == arguments[i].name && IsValue(arguments[i].value, passed[i].value, objects, stamp)
  }

  predicate AreSteps(steps: seq<Step>, calls: seq<Invocation>, objects: Objects, stamp: Stamp)
    decreases steps
  {
    && |calls| == |steps|
    && forall i | 0 <= i < |steps| ::
         calls[i].name == steps[i].builder && AreValues(steps[i].arguments, calls[i].arguments, objects, stamp)
  }

  // The class was called with the arguments, or without any and then its builders step by step.
  predicate IsOf(recipe: Recipe, m: Made, objects: Objects, stamp: Stamp)
    decreases recipe
  {
    && m.stamp == stamp && m.cls == recipe.cls && m.calls != [] && m.calls[0].name == INIT
    && if recipe.Call? then |m.calls| == 1 && AreValues(recipe.arguments, m.calls[0].arguments, objects, stamp)
       else m.calls[0].arguments == [] && AreSteps(recipe.steps, m.calls[1..], objects, stamp)
  }

  lemma {:induction false} IsOneValue(v: Value, r: Resolved, q: Resolved, objects: Objects, stamp: Stamp)
    requires IsValue(v, r, objects, stamp) && IsValue(v, q, objects, stamp)
    ensures r == q
    decreases v
  {
    if v.Nested? {
      IsOne(v.recipe, r.made, q.made, objects, stamp);
    }
  }

  lemma {:induction false} AreOneList(
    arguments: Arguments, a: seq<Passed>, b: seq<Passed>, objects: Objects, stamp: Stamp)
    requires AreValues(arguments, a, objects, stamp) && AreValues(arguments, b, objects, stamp)
    ensures a == b
    decreases arguments
  {
    forall i | 0 <= i < |arguments|
      ensures a[i] == b[i]
    {
      IsOneValue(arguments[i].value, a[i].value, b[i].value, objects, stamp);
    }
  }

  /** And that is one object: nothing about it is left open. */
  lemma {:induction false} IsOne(recipe: Recipe, a: Made, b: Made, objects: Objects, stamp: Stamp)
    requires IsOf(recipe, a, objects, stamp) && IsOf(recipe, b, objects, stamp)
    ensures a == b
    decreases recipe
  {
    if recipe.Call? {
      AreOneList(recipe.arguments, a.calls[0].arguments, b.calls[0].arguments, objects, stamp);
      assert a.calls == [a.calls[0]] && b.calls == [b.calls[0]];
    } else {
      var steps := recipe.steps;
      forall i | 0 <= i < |steps|
        ensures a.calls[1..][i] == b.calls[1..][i]
      {
        AreOneList(steps[i].arguments, a.calls[1..][i].arguments, b.calls[1..][i].arguments, objects, stamp);
      }
      assert a.calls == [a.calls[0]] + a.calls[1..] && b.calls == [b.calls[0]] + b.calls[1..];
    }
  }

  lemma {:induction false} ResolvesAsWritten(v: Value, c: Context)
    ensures Resolve(v, c).Some? ==> IsValue(v, Resolve(v, c).value, c.objects, c.stamp)
    decreases v
  {
    if v.Nested? {
      MakesAsWritten(v.recipe, c);
    }
  }

  lemma {:induction false} ResolvesAllAsWritten(arguments: Arguments, c: Context)
    ensures ResolveAll(arguments, c).Some? ==>
      AreValues(arguments, ResolveAll(arguments, c).value, c.objects, c.stamp)
    decreases arguments
  {
    if arguments != [] {
      ResolvesAsWritten(arguments[0].value, c);
      ResolvesAllAsWritten(arguments[1..], c);
    }
  }

  lemma {:induction false} StepsAsWritten(steps: seq<Step>, c: Context)
    ensures TakeSteps(steps, c).Some? ==> AreSteps(steps, TakeSteps(steps, c).value, c.objects, c.stamp)
    decreases steps
  {
    if steps != [] {
      ResolvesAllAsWritten(steps[0].arguments, c);
      StepsAsWritten(steps[1..], c);
    }
  }

  /** What is made is what the recipe says, call by call and argument by argument, at any depth. */
  lemma {:induction false} MakesAsWritten(recipe: Recipe, c: Context)
    ensures Make(recipe, c).Some? ==> IsOf(recipe, Make(recipe, c).value, c.objects, c.stamp)
    decreases recipe
  {
    if recipe.Call? {
      ResolvesAllAsWritten(recipe.arguments, c);
    } else {
      StepsAsWritten(recipe.steps, c);
    }
  }

  // ---- What is referred to ----

  function NamesIn(v: Value): set<string>
    decreases v
  {
    match v
    case Plain(_) => {}
    case Reference(name, _) => {name}
    case Nested(recipe) => References(recipe)
  }

  function NamesInAll(arguments: Arguments): set<string>
    decreases arguments
  {
    if arguments == [] then {} else NamesIn(arguments[0].value) + NamesInAll(arguments[1..])
  }

  function NamesInSteps(steps: seq<Step>): set<string>
    decreases steps
  {
    if steps == [] then {} else NamesInAll(steps[0].arguments) + NamesInSteps(steps[1..])
  }

  // Every name a recipe refers to, in nested recipes too.
  function References(recipe: Recipe): set<string>
    decreases recipe
  {
    if recipe.Call? then NamesInAll(recipe.arguments) else NamesInSteps(recipe.steps)
  }

  // Every object that what was resolved refers to.
  function UsedBy(r: Resolved): set<Made>
    decreases r
  {
    match r
    case Text(_) => {}
    case Attribute(of, _) => {of}
    case Instance(made) => Uses(made)
  }

  function UsedByAll(passed: seq<Passed>): set<Made>
    decreases passed
  {
    if passed == [] then {} else UsedBy(passed[0].value) + UsedByAll(passed[1..])
  }

  function UsedByCalls(calls: seq<Invocation>): set<Made>
    decreases calls
  {
    if calls == [] then {} else UsedByAll(calls[0].arguments) + UsedByCalls(calls[1..])
  }

  function Uses(m: Made): set<Made>
    decreases m
  {
    UsedByCalls(m.calls)
  }

  // Neither a recipe nor one nested in it raises for another reason than a reference.
  predicate Sound(recipe: Recipe, faulty: set<Recipe>)
    decreases recipe
  {
    recipe !in faulty && if recipe.Call? then SoundIn(recipe.arguments, faulty) else SoundSteps(recipe.steps, faulty)
  }

  predicate SoundIn(arguments: Arguments, faulty: set<Recipe>)
    decreases arguments
  {
    arguments != [] ==>
      && (arguments[0].value.Nested? ==> Sound(arguments[0].value.recipe, faulty))
      && SoundIn(arguments[1..], faulty)
  }

  predicate SoundSteps(steps: seq<Step>, faulty: set<Recipe>)
    decreases steps
  {
    steps != [] ==> SoundIn(steps[0].arguments, faulty) && SoundSteps(steps[1..], faulty)
  }

  // Just the named objects are used.
  ghost predicate Exactly(used: set<Made>, names: set<string>, objects: Objects) {
    && (forall n | n in names :: n in objects)
    && used == set n | n in names && n in objects :: objects[n]
  }

  lemma ExactlyBoth(a: set<Made>, m: set<string>, b: set<Made>, n: set<string>, objects: Objects)
    requires Exactly(a, m, objects) && Exactly(b, n, objects)
    ensures Exactly(a + b, m + n, objects)
  {
  }

  lemma {:induction false} ResolvesExactly(v: Value, c: Context)
    requires Resolve(v, c).Some?
    ensures Exactly(UsedBy(Resolve(v, c).value), NamesIn(v), c.objects)
    decreases v
  {
    if v.Nested? {
      MakesExactly(v.recipe, c);
    }
  }

  lemma {:induction false} ResolvesAllExactly(arguments: Arguments, c: Context)
    requires ResolveAll(arguments, c).Some?
    ensures Exactly(UsedByAll(ResolveAll(arguments, c).value), NamesInAll(arguments), c.objects)
    decreases arguments
  {
    if arguments != [] {
      ResolvesExactly(arguments[0].value, c);
      ResolvesAllExactly(arguments[1..], c);
      var first, rest := Resolve(arguments[0].value, c).value, ResolveAll(arguments[1..], c).value;
      assert ([Passed(arguments[0].name, first)] + rest)[1..] == rest;
      ExactlyBoth(UsedBy(first), NamesIn(arguments[0].value), UsedByAll(rest), NamesInAll(arguments[1..]), c.objects);
    }
  }

  lemma {:induction false} StepsExactly(steps: seq<Step>, c: Context)
    requires TakeSteps(steps, c).Some?
    ensures Exactly(UsedByCalls(TakeSteps(steps, c).value), NamesInSteps(steps), c.objects)
    decreases steps
  {
    if steps != [] {
      ResolvesAllExactly(steps[0].arguments, c);
      StepsExactly(steps[1..], c);
      var first, rest := ResolveAll(steps[0].arguments, c).value, TakeSteps(steps[1..], c).value;
      assert ([Invocation(steps[0].builder, first)] + rest)[1..] == rest;
      ExactlyBoth(
        UsedByAll(first), NamesInAll(steps[0].arguments), UsedByCalls(rest), NamesInSteps(steps[1..]), c.objects);
    }
  }

  lemma {:induction false} ResolvesIf(arguments: Arguments, c: Context)
    ensures ResolveAll(arguments, c).Some? <==> SoundIn(arguments, c.faulty) && NamesInAll(arguments) <= c.objects.Keys
    decreases arguments
  {
    if arguments != [] {
      if arguments[0].value.Nested? {
        MakesIf(arguments[0].value.recipe, c);
      }
      ResolvesIf(arguments[1..], c);
    }
  }

  lemma {:induction false} StepsIf(steps: seq<Step>, c: Context)
    ensures TakeSteps(steps, c).Some? <==> SoundSteps(steps, c.faulty) && NamesInSteps(steps) <= c.objects.Keys
    decreases steps
  {
    if steps != [] {
      ResolvesIf(steps[0].arguments, c);
      StepsIf(steps[1..], c);
    }
  }

  /** Making succeeds exactly if all references resolve, at any depth, and nothing raises for another reason. */
  lemma {:induction false} MakesIf(recipe: Recipe, c: Context)
    ensures Make(recipe, c).Some? <==> Sound(recipe, c.faulty) && References(recipe) <= c.objects.Keys
    decreases recipe
  {
    if recipe.Call? {
      ResolvesIf(recipe.arguments, c);
    } else {
      StepsIf(recipe.steps, c);
    }
  }

  /**
   What is made uses exactly the objects with the names it refers to, at any depth.
   */
  lemma {:induction false} MakesExactly(recipe: Recipe, c: Context)
    requires Make(recipe, c).Some?
    ensures Exactly(Uses(Make(recipe, c).value), References(recipe), c.objects)
    ensures Make(recipe, c).value.stamp == c.stamp
    decreases recipe
  {
    var m := Make(recipe, c).value;
    if recipe.Call? {
      ResolvesAllExactly(recipe.arguments, c);
      assert m.calls[1..] == [] && UsedByCalls(m.calls[1..]) == {};
    } else {
      StepsExactly(recipe.steps, c);
      assert m.calls[1..] == TakeSteps(recipe.steps, c).value && UsedByAll(m.calls[0].arguments) == {};
    }
  }

  // Both have the same objects of these names.
  ghost predicate Agree(names: set<string>, a: Objects, b: Objects) {
    forall n | n in names :: (n in a <==> n in b) && (n in a ==> a[n] == b[n])
  }

  ghost predicate Alike(c: Context, d: Context, names: set<string>) {
    c.faulty == d.faulty && c.stamp == d.stamp && Agree(names, c.objects, d.objects)
  }

  lemma {:induction false} ResolvesOneAlike(v: Value, c: Context, d: Context)
    requires Alike(c, d, NamesIn(v))
    ensures Resolve(v, c) == Resolve(v, d)
    decreases v
  {
    if v.Nested? {
      MakesAlike(v.recipe, c, d);
    }
  }

  lemma {:induction false} ResolvesAlike(arguments: Arguments, c: Context, d: Context)
    requires Alike(c, d, NamesInAll(arguments))
    ensures ResolveAll(arguments, c) == ResolveAll(arguments, d)
    decreases arguments
  {
    if arguments != [] {
      ResolvesOneAlike(arguments[0].value, c, d);
      ResolvesAlike(arguments[1..], c, d);
    }
  }

  lemma {:induction false} StepsAlike(steps: seq<Step>, c: Context, d: Context)
    requires Alike(c, d, NamesInSteps(steps))
    ensures TakeSteps(steps, c) == TakeSteps(steps, d)
    decreases steps
  {
    if steps != [] {
      ResolvesAlike(steps[0].arguments, c, d);
      StepsAlike(steps[1..], c, d);
    }
  }

  /** What is made depends on no other objects than those of the names it refers to. */
  lemma {:induction false} MakesAlike(recipe: Recipe, c: Context, d: Context)
    requires Alike(c, d, References(recipe))
    ensures Make(recipe, c) == Make(recipe, d)
    decreases recipe
  {
    if recipe.Call? {
      ResolvesAlike(recipe.arguments, c, d);
    } else {
      StepsAlike(recipe.steps, c, d);
    }
  }
}
