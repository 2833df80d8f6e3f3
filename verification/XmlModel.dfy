/**
 XML trees whose children are kept sorted by tag, by binary search, and attributes by name: whatever order builders run
 in, the same contents are the same tree.
 */
module XmlModel {
  import opened Common
  import opened TextOrder

  type Attributes = seq<(string, string)>

  datatype Element = Element(tag: string, attributes: Attributes, text: Option<string>, children: seq<Element>)

  // ---- Children ----

  ghost predicate Sorted(children: seq<Element>) {
    forall i, j | 0 <= i < j < |children| :: AtMost(children[i].tag, children[j].tag)
  }

  function WithTag(children: seq<Element>, tag: string): seq<Element> {
    if children == [] then []
    else (if children[0].tag == tag then [children[0]] else []) + WithTag(children[1..], tag)
  }

  function Without(children: seq<Element>, tag: string): seq<Element> {
    if children == [] then []
    else (if children[0].tag == tag then [] else [children[0]]) + Without(children[1..], tag)
  }

  // `bisect_right` between two bounds.
  function BisectRight(children: seq<Element>, tag: string, lo: nat, hi: nat): (index: nat)
    requires lo <= hi <= |children|
    ensures lo <= index <= hi
    decreases hi - lo
  {
    if lo == hi then lo
    else
      var mid := (lo + hi) / 2;
      if Less(tag, children[mid].tag) then BisectRight(children, tag, lo, mid)
      else BisectRight(children, tag, mid + 1, hi)
  }

  // After every child with a tag up to the given one, and before the others.
  ghost predicate Splits(children: seq<Element>, tag: string, index: nat) {
    && index <= |children|
    && (forall i | 0 <= i < index :: AtMost(children[i].tag, tag))
    && (forall i | index <= i < |children| :: Less(tag, children[i].tag))
  }

  lemma {:induction false} BisectSplits(children: seq<Element>, tag: string, lo: nat, hi: nat)
    requires Sorted(children) && lo <= hi <= |children|
    requires forall i | 0 <= i < lo :: AtMost(children[i].tag, tag)
    requires forall i | hi <= i < |children| :: Less(tag, children[i].tag)
    ensures Splits(children, tag, BisectRight(children, tag, lo, hi))
    decreases hi - lo
  {
    if lo < hi {
      var mid := (lo + hi) / 2;
      forall i | 0 <= i < |children|
        ensures Less(tag, children[mid].tag) && mid <= i ==> Less(tag, children[i].tag)
        ensures !Less(tag, children[mid].tag) && i <= mid ==> AtMost(children[i].tag, tag)
      {
        Mixed(tag, children[mid].tag, children[i].tag);
        Mixed(children[i].tag, children[mid].tag, tag);
      }
      if Less(tag, children[mid].tag) {
        BisectSplits(children, tag, lo, mid);
      } else {
        BisectSplits(children, tag, mid + 1, hi);
      }
    }
  }

  function Added(children: seq<Element>, e: Element): seq<Element> {
    var index := BisectRight(children, e.tag, 0, |children|);
    children[..index] + [e] + children[index..]
  }

  function PutIn(children: seq<Element>, e: Element): seq<Element> {
    Added(Without(children, e.tag), e)
  }

  lemma {:induction false} WithTagConcat(a: seq<Element>, b: seq<Element>, tag: string)
    ensures WithTag(a + b, tag) == WithTag(a, tag) + WithTag(b, tag)
  {
    if a == [] {
      assert a + b == b;
    } else {
      assert (a + b)[0] == a[0] && (a + b)[1..] == a[1..] + b;
      WithTagConcat(a[1..], b, tag);
      Regroup(if a[0].tag == tag then [a[0]] else [], WithTag(a[1..], tag), WithTag(b, tag));
    }
  }

  lemma {:induction false} NoneWithTag(children: seq<Element>, tag: string)
    requires forall c | c in children :: c.tag != tag
    ensures WithTag(children, tag) == []
  {
    if children != [] {
      NoneWithTag(children[1..], tag);
    }
  }

  /** Adding keeps the order and appends to the list of the element's tag, leaving the other tags' alone. */
  lemma AddedByTag(children: seq<Element>, e: Element, tag: string)
    requires Sorted(children)
    ensures Sorted(Added(children, e))
    ensures WithTag(Added(children, e), tag) == WithTag(children, tag) + if tag == e.tag then [e] else []
  {
    BisectSplits(children, e.tag, 0, |children|);
    var index := BisectRight(children, e.tag, 0, |children|);
    var before, after := children[..index], children[index..];
    SplitsStaysSorted(children, e, index);
    assert children == before + after;
    WithTagConcat(before, after, tag);
    WithTagConcat(before + [e], after, tag);
    WithTagConcat(before, [e], tag);
    assert WithTag([e], tag) == if tag == e.tag then [e] else [];
    if tag == e.tag {
      forall c | c in after
        ensures c.tag != tag
      {
        Irreflexive(tag);
      }
      NoneWithTag(after, tag);
    }
  }

  lemma SplitsStaysSorted(children: seq<Element>, e: Element, index: nat)
    requires Sorted(children) && Splits(children, e.tag, index)
    ensures Sorted(children[..index] + [e] + children[index..])
  {
    var result := children[..index] + [e] + children[index..];
    forall i, j | 0 <= i < j < |result|
      ensures AtMost(result[i].tag, result[j].tag)
    {
      if i < index && j == index {
        assert result[i] == children[i];
      } else if i == index {
        assert result[j] == children[j - 1];
        Mixed(e.tag, result[j].tag, result[j].tag);
      } else {
        assert result[i] == if i < index then children[i] else children[i - 1];
        assert result[j] == if j < index then children[j] else children[j - 1];
      }
    }
  }

  lemma {:induction false} WithoutByTag(children: seq<Element>, e: string, tag: string)
    ensures WithTag(Without(children, e), tag) == if tag == e then [] else WithTag(children, tag)
  {
    if children != [] {
      WithoutByTag(children[1..], e, tag);
      WithTagConcat(if children[0].tag == e then [] else [children[0]], Without(children[1..], e), tag);
    }
  }

  lemma {:induction false} WithoutIsPart(children: seq<Element>, tag: string)
    ensures forall c | c in Without(children, tag) :: c in children && c.tag != tag
  {
    if children != [] {
      WithoutIsPart(children[1..], tag);
    }
  }

  lemma {:induction false} WithoutStaysSorted(children: seq<Element>, tag: string)
    requires Sorted(children)
    ensures Sorted(Without(children, tag))
  {
    if children != [] {
      WithoutStaysSorted(children[1..], tag);
      WithoutIsPart(children[1..], tag);
      var rest := Without(children[1..], tag);
      forall j | 0 <= j < |rest|
        ensures AtMost(children[0].tag, rest[j].tag)
      {
        assert rest[j] in children[1..];
        var k :| 0 <= k < |children[1..]| && children[1..][k] == rest[j];
        assert children[k + 1] == rest[j];
      }
    }
  }

  /** Putting replaces the list of the element's tag. */
  lemma PutByTag(children: seq<Element>, e: Element, tag: string)
    requires Sorted(children)
    ensures Sorted(PutIn(children, e))
    ensures WithTag(PutIn(children, e), tag) == if tag == e.tag then [e] else WithTag(children, tag)
  {
    WithoutStaysSorted(children, e.tag);
    WithoutByTag(children, e.tag, tag);
    AddedByTag(Without(children, e.tag), e, tag);
  }

  // ---- The sorted list stands for a map from tag to list ----

  lemma {:induction false} WithTagIsPart(children: seq<Element>, tag: string)
    ensures forall c | c in WithTag(children, tag) :: c in children && c.tag == tag
    ensures forall c | c in children && c.tag == tag :: c in WithTag(children, tag)
  {
    if children != [] {
      WithTagIsPart(children[1..], tag);
    }
  }

  lemma FirstIsLeast(children: seq<Element>, c: Element)
    requires Sorted(children) && c in children
    ensures AtMost(children[0].tag, c.tag)
  {
    Irreflexive(c.tag);
    var i :| 0 <= i < |children| && children[i] == c;
  }

  lemma SameFirst(a: seq<Element>, b: seq<Element>)
    requires Sorted(a) && Sorted(b) && a != [] && forall tag :: WithTag(a, tag) == WithTag(b, tag)
    ensures b != [] && a[0] == b[0]
  {
    WithTagIsPart(a, a[0].tag);
    WithTagIsPart(b, a[0].tag);
    assert a[0] in WithTag(a, a[0].tag);
    assert WithTag(b, a[0].tag)[0] in b;
    WithTagIsPart(b, b[0].tag);
    WithTagIsPart(a, b[0].tag);
    assert b[0] in WithTag(b, b[0].tag);
    FirstIsLeast(b, WithTag(b, a[0].tag)[0]);
    FirstIsLeast(a, WithTag(a, b[0].tag)[0]);
    Mixed(a[0].tag, b[0].tag, a[0].tag);
    Mixed(b[0].tag, a[0].tag, b[0].tag);
    assert a[0].tag == b[0].tag;
    assert WithTag(a, a[0].tag)[0] == a[0] && WithTag(b, b[0].tag)[0] == b[0];
  }

  lemma TailWithTag(a: seq<Element>, tag: string)
    requires a != []
    ensures WithTag(a[1..], tag) == if a[0].tag == tag then WithTag(a, tag)[1..] else WithTag(a, tag)
  {
  }

  /** Two sorted lists with the same elements of each tag, in order, are equal. */
  lemma {:induction false} SortedIsDetermined(a: seq<Element>, b: seq<Element>)
    requires Sorted(a) && Sorted(b) && forall tag :: WithTag(a, tag) == WithTag(b, tag)
    ensures a == b
  {
    if a == [] {
      if b != [] {
        SameFirst(b, a);
      }
    } else {
      SameFirst(a, b);
      forall tag
        ensures WithTag(a[1..], tag) == WithTag(b[1..], tag)
      {
        TailWithTag(a, tag);
        TailWithTag(b, tag);
      }
      SortedIsDetermined(a[1..], b[1..]);
      assert a == [a[0]] + a[1..] && b == [b[0]] + b[1..];
    }
  }

  function Grouped(children: seq<Element>, tags: seq<string>): seq<Element> {
    if tags == [] then [] else WithTag(children, tags[0]) + Grouped(children, tags[1..])
  }

  ghost predicate Ascending(tags: seq<string>) {
    forall i, j | 0 <= i < j < |tags| :: Less(tags[i], tags[j])
  }

  lemma {:induction false} GroupedParts(children: seq<Element>, tags: seq<string>)
    ensures forall c | c in Grouped(children, tags) :: c.tag in tags
  {
    if tags != [] {
      WithTagIsPart(children, tags[0]);
      GroupedParts(children, tags[1..]);
    }
  }

  lemma {:induction false} GroupedByTag(children: seq<Element>, tags: seq<string>, tag: string)
    requires Ascending(tags)
    ensures WithTag(Grouped(children, tags), tag) == if tag in tags then WithTag(children, tag) else []
  {
    if tags != [] {
      var rest := tags[1..];
      GroupedByTag(children, rest, tag);
      WithTagConcat(WithTag(children, tags[0]), Grouped(children, rest), tag);
      WithTagTwice(children, tags[0], tag);
      if tag == tags[0] && tag in rest {
        var i :| 0 <= i < |rest| && rest[i] == tag;
        assert Less(tags[0], tags[i + 1]);
        Irreflexive(tag);
        assert false;
      }
    }
  }

  lemma {:induction false} WithTagTwice(children: seq<Element>, a: string, b: string)
    ensures WithTag(WithTag(children, a), b) == if a == b then WithTag(children, a) else []
  {
    if children != [] {
      WithTagTwice(children[1..], a, b);
      WithTagConcat(if children[0].tag == a then [children[0]] else [], WithTag(children[1..], a), b);
    }
  }

  lemma {:induction false} GroupedIsSorted(children: seq<Element>, tags: seq<string>)
    requires Ascending(tags)
    ensures Sorted(Grouped(children, tags))
  {
    if tags != [] {
      var first, rest := WithTag(children, tags[0]), Grouped(children, tags[1..]);
      GroupedIsSorted(children, tags[1..]);
      WithTagIsPart(children, tags[0]);
      GroupedParts(children, tags[1..]);
      var all := first + rest;
      forall i, j | 0 <= i < j < |all|
        ensures AtMost(all[i].tag, all[j].tag)
      {
        Irreflexive(tags[0]);
        if i < |first| {
          assert all[i] in first;
          if j < |first| {
            assert all[j] in first;
          } else {
            assert all[j] == rest[j - |first|] && all[j] in rest;
            var k :| 0 <= k < |tags[1..]| && tags[1..][k] == all[j].tag;
            assert Less(tags[0], tags[k + 1]);
            Mixed(tags[0], all[j].tag, all[j].tag);
          }
        } else {
          assert all[i] == rest[i - |first|] && all[j] == rest[j - |first|];
        }
      }
    }
  }

  /** A sorted list is the concatenation, in tag order, of its elements of each tag. */
  lemma SortedIsGrouped(children: seq<Element>, tags: seq<string>)
    requires Sorted(children) && Ascending(tags) && forall c | c in children :: c.tag in tags
    ensures children == Grouped(children, tags)
  {
    GroupedIsSorted(children, tags);
    forall tag
      ensures WithTag(children, tag) == WithTag(Grouped(children, tags), tag)
    {
      GroupedByTag(children, tags, tag);
      if tag !in tags {
        NoneWithTag(children, tag);
      }
    }
    SortedIsDetermined(children, Grouped(children, tags));
  }

  // ---- Any sequence of operations ----

  datatype Operation = Add(element: Element) | Put(element: Element)

  function Applied(children: seq<Element>, op: Operation): seq<Element> {
    match op
    case Add(e) => Added(children, e)
    case Put(e) => PutIn(children, e)
  }

  function Built(children: seq<Element>, ops: seq<Operation>): seq<Element>
    decreases |ops|
  {
    if ops == [] then children else Built(Applied(children, ops[0]), ops[1..])
  }

  // The operations on one tag.
  function Those(ops: seq<Operation>, tag: string): seq<Operation> {
    if ops == [] then []
    else (if ops[0].element.tag == tag then [ops[0]] else []) + Those(ops[1..], tag)
  }

  // What they do to its list: adding appends, and putting replaces all.
  function Listed(list: seq<Element>, ops: seq<Operation>): seq<Element>
    decreases |ops|
  {
    if ops == [] then list
    else Listed(if ops[0].Add? then list + [ops[0].element] else [ops[0].element], ops[1..])
  }

  lemma AppliedByTag(children: seq<Element>, op: Operation, tag: string)
    requires Sorted(children)
    ensures Sorted(Applied(children, op))
    ensures WithTag(Applied(children, op), tag) ==
            if op.element.tag != tag then WithTag(children, tag)
            else if op.Add? then WithTag(children, tag) + [op.element]
            else [op.element]
  {
    AddedByTag(children, op.element, tag);
    PutByTag(children, op.element, tag);
  }

  lemma {:induction false} BuiltByTag(children: seq<Element>, ops: seq<Operation>, tag: string)
    requires Sorted(children)
    ensures Sorted(Built(children, ops))
    ensures WithTag(Built(children, ops), tag) == Listed(WithTag(children, tag), Those(ops, tag))
    decreases |ops|
  {
    if ops != [] {
      AppliedByTag(children, ops[0], tag);
      BuiltByTag(Applied(children, ops[0]), ops[1..], tag);
      if ops[0].element.tag == tag {
        assert Those(ops, tag) == [ops[0]] + Those(ops[1..], tag);
        assert Those(ops, tag)[1..] == Those(ops[1..], tag);
      } else {
        assert Those(ops, tag) == [] + Those(ops[1..], tag) == Those(ops[1..], tag);
      }
    }
  }

  /** Two sequences with the same operations on each tag build equal lists, however they are interleaved. */
  lemma OrderDoesntMatter(children: seq<Element>, ops: seq<Operation>, others: seq<Operation>)
    requires Sorted(children) && forall tag :: Those(ops, tag) == Those(others, tag)
    ensures Built(children, ops) == Built(children, others)
  {
    forall tag
      ensures Sorted(Built(children, ops)) && Sorted(Built(children, others))
      ensures WithTag(Built(children, ops), tag) == WithTag(Built(children, others), tag)
    {
      BuiltByTag(children, ops, tag);
      BuiltByTag(children, others, tag);
    }
    BuiltByTag(children, ops, "");
    BuiltByTag(children, others, "");
    SortedIsDetermined(Built(children, ops), Built(children, others));
  }

  // ---- Attributes ----

  function SetPair(attributes: Attributes, name: string, value: string): Attributes {
    if attributes == [] then [(name, value)]
    else if attributes[0].0 == name then [(name, value)] + attributes[1..]
    else [attributes[0]] + SetPair(attributes[1..], name, value)
  }

  function InsertByName(attributes: Attributes, pair: (string, string)): Attributes {
    if attributes == [] || AtMost(pair.0, attributes[0].0) then [pair] + attributes
    else [attributes[0]] + InsertByName(attributes[1..], pair)
  }

  function SortedByName(attributes: Attributes): Attributes {
    if attributes == [] then [] else InsertByName(SortedByName(attributes[1..]), attributes[0])
  }

  // Setting an attribute, which sorts them all again.
  function WithAttribute(attributes: Attributes, name: string, value: string): Attributes {
    SortedByName(SetPair(attributes, name, value))
  }

  function AsMap(attributes: Attributes): map<string, string> {
    if attributes == [] then map[] else AsMap(attributes[1..])[attributes[0].0 := attributes[0].1]
  }

  predicate UniqueNames(attributes: Attributes) {
    attributes != [] ==> attributes[0].0 !in AsMap(attributes[1..]) && UniqueNames(attributes[1..])
  }

  ghost predicate ByName(attributes: Attributes) {
    forall i, j | 0 <= i < j < |attributes| :: Less(attributes[i].0, attributes[j].0)
  }

  lemma {:induction false} NamesOf(attributes: Attributes, name: string)
    ensures name in AsMap(attributes) <==> exists i :: 0 <= i < |attributes| && attributes[i].0 == name
  {
    if attributes != [] {
      NamesOf(attributes[1..], name);
      if i :| 0 <= i < |attributes| && attributes[i].0 == name {
        assert i > 0 ==> attributes[1..][i - 1].0 == name;
      }
      if i :| 0 <= i < |attributes[1..]| && attributes[1..][i].0 == name {
        assert attributes[i + 1].0 == name;
      }
    }
  }

  lemma {:induction false} SetPairIsUpdate(attributes: Attributes, name: string, value: string)
    requires UniqueNames(attributes)
    ensures AsMap(SetPair(attributes, name, value)) == AsMap(attributes)[name := value]
    ensures UniqueNames(SetPair(attributes, name, value))
  {
    if attributes != [] {
      SetPairIsUpdate(attributes[1..], name, value);
      assert SetPair(attributes, name, value)[1..]
          == if attributes[0].0 == name then attributes[1..] else SetPair(attributes[1..], name, value);
    }
  }

  lemma {:induction false} InsertKeepsMap(attributes: Attributes, pair: (string, string))
    requires pair.0 !in AsMap(attributes)
    ensures AsMap(InsertByName(attributes, pair)) == AsMap(attributes)[pair.0 := pair.1]
  {
    var result := InsertByName(attributes, pair);
    if attributes == [] || AtMost(pair.0, attributes[0].0) {
      assert result[1..] == attributes;
    } else {
      InsertKeepsMap(attributes[1..], pair);
      assert result[1..] == InsertByName(attributes[1..], pair);
    }
  }

  lemma HeadIsLeast(attributes: Attributes, name: string)
    requires ByName(attributes) && name in AsMap(attributes)
    ensures AtMost(attributes[0].0, name)
    ensures name != attributes[0].0 ==> Less(attributes[0].0, name)
  {
    NamesOf(attributes, name);
    Irreflexive(name);
    var i :| 0 <= i < |attributes| && attributes[i].0 == name;
    Mixed(attributes[0].0, name, name);
  }

  lemma {:induction false} InsertStaysByName(attributes: Attributes, pair: (string, string))
    requires ByName(attributes) && pair.0 !in AsMap(attributes)
    ensures ByName(InsertByName(attributes, pair))
  {
    var result := InsertByName(attributes, pair);
    if attributes == [] {
    } else if AtMost(pair.0, attributes[0].0) {
      forall j | 0 <= j < |attributes|
        ensures Less(pair.0, attributes[j].0)
      {
        Mixed(pair.0, attributes[0].0, attributes[j].0);
        NamesOf(attributes, attributes[0].0);
      }
    } else {
      var rest := attributes[1..];
      InsertStaysByName(rest, pair);
      InsertKeepsMap(rest, pair);
      var inserted := InsertByName(rest, pair);
      forall j | 0 <= j < |inserted|
        ensures Less(attributes[0].0, inserted[j].0)
      {
        NamesOf(inserted, inserted[j].0);
        NamesOf(rest, inserted[j].0);
        Total(attributes[0].0, pair.0);
      }
    }
  }

  lemma {:induction false} SortKeepsMap(attributes: Attributes)
    requires UniqueNames(attributes)
    ensures ByName(SortedByName(attributes)) && AsMap(SortedByName(attributes)) == AsMap(attributes)
  {
    if attributes != [] {
      SortKeepsMap(attributes[1..]);
      InsertKeepsMap(SortedByName(attributes[1..]), attributes[0]);
      InsertStaysByName(SortedByName(attributes[1..]), attributes[0]);
    }
  }

  lemma {:induction false} ByNameIsUnique(attributes: Attributes)
    requires ByName(attributes)
    ensures UniqueNames(attributes)
  {
    if attributes != [] {
      ByNameIsUnique(attributes[1..]);
      NamesOf(attributes[1..], attributes[0].0);
      Irreflexive(attributes[0].0);
    }
  }

  /** Attributes are a map from name to value, as a list in name order. */
  lemma AttributeIsUpdate(attributes: Attributes, name: string, value: string)
    requires UniqueNames(attributes)
    ensures ByName(WithAttribute(attributes, name, value))
    ensures AsMap(WithAttribute(attributes, name, value)) == AsMap(attributes)[name := value]
  {
    SetPairIsUpdate(attributes, name, value);
    SortKeepsMap(SetPair(attributes, name, value));
  }

  /** And the list is determined by the map, so the order of setting different attributes doesn't matter. */
  lemma {:induction false} ByNameIsDetermined(a: Attributes, b: Attributes)
    requires ByName(a) && ByName(b) && AsMap(a) == AsMap(b)
    ensures a == b
  {
    ByNameIsUnique(a);
    ByNameIsUnique(b);
    assert a != [] ==> a[0].0 in AsMap(a);
    assert b != [] ==> b[0].0 in AsMap(b);
    if a != [] && b != [] {
      HeadIsLeast(b, a[0].0);
      HeadIsLeast(a, b[0].0);
      Mixed(a[0].0, b[0].0, a[0].0);
      assert AsMap(a[1..]) == AsMap(a) - {a[0].0};
      assert AsMap(b[1..]) == AsMap(b) - {b[0].0};
      ByNameIsDetermined(a[1..], b[1..]);
      assert a == [a[0]] + a[1..] && b == [b[0]] + b[1..];
    }
  }

  // ---- Whole trees ----

  // Sorted at every depth.
  ghost predicate Canonical(e: Element) {
    Sorted(e.children) && ByName(e.attributes) && forall c | c in e.children :: Canonical(c)
  }

  function AddedAll(children: seq<Element>, elements: seq<Element>): seq<Element>
    decreases |elements|
  {
    if elements == [] then children else AddedAll(Added(children, elements[0]), elements[1..])
  }

  lemma AddedParts(children: seq<Element>, e: Element)
    ensures forall c | c in Added(children, e) :: c in children || c == e
  {
  }

  lemma PutParts(children: seq<Element>, e: Element)
    ensures forall c | c in PutIn(children, e) :: c in children || c == e
  {
    WithoutIsPart(children, e.tag);
    AddedParts(Without(children, e.tag), e);
  }

  lemma {:induction false} AddedAllKeeps(children: seq<Element>, elements: seq<Element>)
    requires Sorted(children) && (forall c | c in children :: Canonical(c)) && forall c | c in elements :: Canonical(c)
    ensures Sorted(AddedAll(children, elements)) && forall c | c in AddedAll(children, elements) :: Canonical(c)
    decreases |elements|
  {
    if elements != [] {
      AddedByTag(children, elements[0], "");
      AddedParts(children, elements[0]);
      AddedAllKeeps(Added(children, elements[0]), elements[1..]);
    }
  }

  /** All are there, those of each tag in their order. */
  lemma {:induction false} AddedAllByTag(children: seq<Element>, elements: seq<Element>, tag: string)
    requires Sorted(children)
    ensures Sorted(AddedAll(children, elements))
    ensures WithTag(AddedAll(children, elements), tag) == WithTag(children, tag) + WithTag(elements, tag)
    decreases |elements|
  {
    if elements != [] {
      AddedByTag(children, elements[0], tag);
      AddedAllByTag(Added(children, elements[0]), elements[1..], tag);
    }
  }

  // A new element with the given children and attributes.
  method NewNode(tag: string, elements: seq<Element>, attributes: Attributes, text: Option<string>) returns (e: Element)
    ensures e == Element(tag, SortedByName(attributes), text, AddedAll([], elements))
    ensures Sorted(e.children) && forall t :: WithTag(e.children, t) == WithTag(elements, t)
    ensures UniqueNames(attributes) ==> AsMap(e.attributes) == AsMap(attributes)
    ensures UniqueNames(attributes) && (forall c | c in elements :: Canonical(c)) ==> Canonical(e)
  {
    var node := new Node(tag, SortedByName(attributes), text);
    var i := 0;
    while i < |elements|
      invariant i <= |elements|
      invariant node.tag == tag && node.attributes == SortedByName(attributes) && node.text == text
      invariant AddedAll(node.children, elements[i..]) == AddedAll([], elements)
    {
      node.AddChild(elements[i]);
      assert elements[i..][1..] == elements[i + 1..];
      i := i + 1;
    }
    if UniqueNames(attributes) {
      SortKeepsMap(attributes);
      if forall c | c in elements :: Canonical(c) {
        AddedAllKeeps([], elements);
      }
    }
    forall t
      ensures Sorted(AddedAll([], elements)) && WithTag(AddedAll([], elements), t) == WithTag(elements, t)
    {
      AddedAllByTag([], elements, t);
    }
    AddedAllByTag([], elements, "");
    return node.Value();
  }

  function RemoveFirst(children: seq<Element>, e: Element): seq<Element> {
    if children == [] then []
    else if children[0] == e then children[1..]
    else [children[0]] + RemoveFirst(children[1..], e)
  }

  lemma {:induction false} RemoveFirstByTag(children: seq<Element>, tag: string)
    requires WithTag(children, tag) != []
    ensures var rest := RemoveFirst(children, WithTag(children, tag)[0]);
      WithTag(rest, tag) == WithTag(children, tag)[1..] && Without(rest, tag) == Without(children, tag)
  {
    var e := WithTag(children, tag)[0];
    WithTagIsPart(children, tag);
    assert e in WithTag(children, tag);
    if children[0].tag != tag {
      RemoveFirstByTag(children[1..], tag);
      assert RemoveFirst(children, e)[1..] == RemoveFirst(children[1..], e);
    }
  }

  lemma {:induction false} WithoutNothing(children: seq<Element>, tag: string)
    requires WithTag(children, tag) == []
    ensures Without(children, tag) == children
  {
    if children != [] {
      WithoutNothing(children[1..], tag);
    }
  }

  /** An element whose children and attributes builders change in place. */
  class Node {
    const tag: string
    var attributes: Attributes
    var text: Option<string>
    var children: seq<Element>

    function Value(): Element
      reads this
    {
      Element(tag, attributes, text, children)
    }

    constructor (tag: string, attributes: Attributes, text: Option<string>)
      ensures Value() == Element(tag, attributes, text, [])
    {
      this.tag, this.attributes, this.text, children := tag, attributes, text, [];
    }

    method AddChild(e: Element)
      modifies `children
      ensures children == Added(old(children), e)
      ensures old(Canonical(Value())) && Canonical(e) ==> Canonical(Value())
    {
      var index := BisectRight(children, e.tag, 0, |children|);
      children := children[..index] + [e] + children[index..];
      AddedParts(old(children), e);
      if Sorted(old(children)) {
        AddedByTag(old(children), e, "");
      }
    }

    method PutChild(e: Element)
      modifies `children
      ensures children == PutIn(old(children), e)
      ensures old(Canonical(Value())) && Canonical(e) ==> Canonical(Value())
    {
      var found := WithTag(children, e.tag);
      var i := 0;
      while i < |found|
        invariant i <= |found|
        invariant WithTag(children, e.tag) == found[i..]
        invariant Without(children, e.tag) == Without(old(children), e.tag)
      {
        RemoveFirstByTag(children, e.tag);
        children := RemoveFirst(children, found[i]);
        i := i + 1;
      }
      WithoutNothing(children, e.tag);
      PutParts(old(children), e);
      if Sorted(old(children)) {
        PutByTag(old(children), e, "");
      }
      AddChild(e);
    }

    method SetAttribute(name: string, value: string)
      modifies `attributes
      ensures attributes == WithAttribute(old(attributes), name, value)
      ensures old(Canonical(Value())) ==> Canonical(Value())
    {
      attributes := SetPair(attributes, name, value);
      attributes := SortedByName(attributes);
      if ByName(old(attributes)) {
        ByNameIsUnique(old(attributes));
        AttributeIsUpdate(old(attributes), name, value);
      }
    }
  }
}
