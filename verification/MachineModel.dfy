/** Naming the disks of a machine's XML: one sequence of names over all buses, in bijective base 26. */
module MachineModel {
  import opened Common
  import opened TextOrder
  import opened XmlModel

  const BUS_PREFIXES: map<string, string> := map["ide" := "hd", "fdc" := "fd", "virtio" := "vd"]

  // How a disk's name starts, by its bus; any bus without a prefix of its own has that of SCSI.
  function BusPrefix(bus: string): (prefix: string)
    ensures |prefix| == 2
  {
    if bus in BUS_PREFIXES then BUS_PREFIXES[bus] else "sd"
  }

  function Letter(n: nat): char
    requires n < 26
  {
    'a' + n as char
  }

  predicate Letters(s: string) {
    forall i | 0 <= i < |s| :: 'a' <= s[i] <= 'z'
  }

  // The name of the disk with the given number, counting from 1.
  function Suffix(index: nat): (s: string)
    ensures Letters(s)
    ensures s == [] <==> index == 0
  {
    if index == 0 then [] else Suffix((index - 1) / 26) + [Letter((index - 1) % 26)]
  }

  // The number a name stands for.
  function Number(s: string): nat
    requires Letters(s)
  {
    if s == [] then 0
    else
      var last := s[|s| - 1];
      Number(s[..|s| - 1]) * 26 + (last as int - 'a' as int) + 1
  }

  /** Numbers and names are in bijection. */
  lemma {:induction false} NumberOfSuffix(index: nat)
    ensures Number(Suffix(index)) == index
  {
    if index > 0 {
      var s := Suffix(index);
      assert s[..|s| - 1] == Suffix((index - 1) / 26);
      NumberOfSuffix((index - 1) / 26);
    }
  }

  lemma {:induction false} SuffixOfNumber(s: string)
    requires Letters(s)
    ensures Suffix(Number(s)) == s
    decreases |s|
  {
    if s != [] {
      var front, last := s[..|s| - 1], s[|s| - 1];
      assert s == front + [last];
      SuffixOfNumber(front);
      NumberOfLast(front, last);
      SuffixOfLast(Number(front), last);
    }
  }

  lemma NumberOfLast(front: string, last: char)
    requires Letters(front) && 'a' <= last <= 'z'
    ensures Letters(front + [last])
    ensures Number(front + [last]) == Number(front) * 26 + (last as int - 'a' as int) + 1
  {
    assert (front + [last])[..|front|] == front;
  }

  lemma SuffixOfLast(n: nat, last: char)
    requires 'a' <= last <= 'z'
    ensures Suffix(n * 26 + (last as int - 'a' as int) + 1) == Suffix(n) + [last]
  {
    LetterOf(last);
    LastDigit(n, last as int - 'a' as int);
  }

  lemma LetterOf(c: char)
    requires 'a' <= c <= 'z'
    ensures Letter(c as int - 'a' as int) == c
  {
  }

  lemma LastDigit(n: nat, digit: nat)
    requires digit < 26
    ensures Suffix(n * 26 + digit + 1) == Suffix(n) + [Letter(digit)]
  {
    assert (n * 26 + digit) / 26 == n && (n * 26 + digit) % 26 == digit;
  }

  // Shorter names first, and those of one length alphabetically.
  predicate ShortLex(a: string, b: string) {
    |a| < |b| || (|a| == |b| && Less(a, b))
  }

  lemma {:induction false} LessByLast(a: string, x: char, b: string, y: char)
    requires |a| == |b|
    ensures Less(a + [x], b + [y]) <==> Less(a, b) || (a == b && x < y)
    decreases |a|
  {
    if a != [] {
      assert (a + [x])[1..] == a[1..] + [x] && (b + [y])[1..] == b[1..] + [y];
      LessByLast(a[1..], x, b[1..], y);
      assert a == [a[0]] + a[1..] && b == [b[0]] + b[1..];
    }
  }

  lemma {:induction false} OrderIsShortLex(a: string, b: string)
    requires Letters(a) && Letters(b)
    ensures Number(a) < Number(b) <==> ShortLex(a, b)
    decreases |a|
  {
    if a != [] && b != [] {
      var (c, x, d, y) := (a[..|a| - 1], a[|a| - 1], b[..|b| - 1], b[|b| - 1]);
      assert a == c + [x] && b == d + [y];
      OrderIsShortLex(c, d);
      if Number(c) == Number(d) {
        SuffixOfNumber(c);
        SuffixOfNumber(d);
      }
      if |c| == |d| {
        LessByLast(c, x, d, y);
        Irreflexive(c);
      }
    }
  }

  /** Names are in the order of their disks. */
  lemma SuffixesInOrder(i: nat, j: nat)
    ensures i < j <==> ShortLex(Suffix(i), Suffix(j))
  {
    NumberOfSuffix(i);
    NumberOfSuffix(j);
    OrderIsShortLex(Suffix(i), Suffix(j));
  }

  // The first disk on virtio, the second on a floppy's bus, the 27th on IDE, and the 703rd on any other, like SCSI.
  lemma NameExamples()
    ensures BusPrefix("virtio") + Suffix(1) == "vda" && BusPrefix("fdc") + Suffix(2) == "fdb"
    ensures BusPrefix("ide") + Suffix(27) == "hdaa" && BusPrefix("scsi") + Suffix(703) == "sdaaa"
  {
    ShortSuffixes();
    LastDigit(1, 0);
    NextSuffix(27);
  }

  lemma ShortSuffixes()
    ensures Suffix(1) == ['a'] && Suffix(2) == ['b']
  {
    LastDigit(0, 0);
    LastDigit(0, 1);
  }

  lemma NextSuffix(n: nat)
    ensures Suffix(n * 26 + 1) == Suffix(n) + ['a']
  {
    LastDigit(n, 0);
  }

  // ---- Disks ----

  function Target(bus: string, dev: string): Element {
    Element("target", SortedByName([("bus", bus), ("dev", dev)]), None, [])
  }

  // The disk's first target, if it has one.
  function FindTarget(disk: Element): Option<Element> {
    var found := WithTag(disk.children, "target");
    if found == [] then None else Some(found[0])
  }

  lemma {:induction false} FoundIsFirst(children: seq<Element>, tag: string)
    ensures WithTag(children, tag) == [] <==> forall c | c in children :: c.tag != tag
    ensures WithTag(children, tag) != [] ==>
      exists i | 0 <= i < |children| ::
        && WithTag(children, tag)[0] == children[i] && children[i].tag == tag
        && forall k | 0 <= k < i :: children[k].tag != tag
  {
    WithTagIsPart(children, tag);
    if children != [] && children[0].tag != tag {
      FoundIsFirst(children[1..], tag);
      if WithTag(children, tag) != [] {
        var i :| 0 <= i < |children[1..]|
          && WithTag(children[1..], tag)[0] == children[1..][i] && children[1..][i].tag == tag
          && forall k | 0 <= k < i :: children[1..][k].tag != tag;
        assert forall k | 0 < k < i + 1 :: children[k] == children[1..][k - 1];
        assert children[i + 1] == children[1..][i];
      }
    }
  }

  /** What is found is the first child that is a target. */
  lemma TargetIsFirst(disk: Element)
    ensures FindTarget(disk).None? <==> forall c | c in disk.children :: c.tag != "target"
    ensures FindTarget(disk).Some? ==>
      exists i | 0 <= i < |disk.children| ::
        && disk.children[i] == FindTarget(disk).value && disk.children[i].tag == "target"
        && forall k | 0 <= k < i :: disk.children[k].tag != "target"
  {
    FoundIsFirst(disk.children, "target");
  }

  // The device name in it.
  function DevOf(disk: Element): Option<string> {
    match FindTarget(disk)
    case None => None
    case Some(target) =>
      if "dev" in AsMap(target.attributes) then Some(AsMap(target.attributes)["dev"]) else None
  }

  ghost predicate Named(disk: Element, index: nat) {
    var dev := DevOf(disk);
    dev.Some? && |dev.value| > 2 && dev.value[2..] == Suffix(index)
  }

  // The i-th disk has the i-th name, with some bus's prefix.
  ghost predicate NamedInOrder(disks: seq<Element>) {
    forall i | 0 <= i < |disks| :: Named(disks[i], i + 1)
  }

  /** So all disks have different names, whatever their buses. */
  lemma NamesAreDistinct(disks: seq<Element>, i: nat, j: nat)
    requires NamedInOrder(disks) && i < j < |disks|
    ensures DevOf(disks[i]) != DevOf(disks[j])
  {
    assert Named(disks[i], i + 1) && Named(disks[j], j + 1);
    SuffixesDiffer(i + 1, j + 1);
  }

  lemma SuffixesDiffer(m: nat, n: nat)
    requires m != n
    ensures Suffix(m) != Suffix(n)
  {
    NumberOfSuffix(m);
    NumberOfSuffix(n);
  }

  lemma TargetDev(bus: string, dev: string)
    ensures AsMap(Target(bus, dev).attributes) == map["bus" := bus, "dev" := dev]
    ensures UniqueNames([("bus", bus), ("dev", dev)])
  {
    var pairs := [("bus", bus), ("dev", dev)];
    assert pairs[1..] == [("dev", dev)];
    assert pairs[1..][1..] == [];
    assert UniqueNames(pairs[1..]);
    SortKeepsMap(pairs);
  }

  lemma {:induction false} WithTagUnsorted(before: seq<Element>, e: Element, after: seq<Element>)
    requires WithTag(before + after, e.tag) == []
    ensures WithTag(before + [e] + after, e.tag) == [e]
  {
    WithTagConcat(before, after, e.tag);
    WithTagConcat(before, [e], e.tag);
    WithTagConcat(before + [e], after, e.tag);
    assert WithTag([e], e.tag) == [e];
  }

  // Putting inserts it somewhere between the others.
  lemma PutBetween(children: seq<Element>, e: Element) returns (before: seq<Element>, after: seq<Element>)
    ensures Without(children, e.tag) == before + after && PutIn(children, e) == before + [e] + after
  {
    var rest := Without(children, e.tag);
    var index := BisectRight(rest, e.tag, 0, |rest|);
    before, after := rest[..index], rest[index..];
  }

  // Putting leaves exactly the one element of its tag, even in a list that isn't sorted.
  lemma PutFinds(children: seq<Element>, e: Element)
    ensures WithTag(PutIn(children, e), e.tag) == [e]
  {
    WithoutByTag(children, e.tag, e.tag);
    var before, after := PutBetween(children, e);
    WithTagUnsorted(before, e, after);
  }

  function Targeted(disk: Element, bus: string, dev: string): Element {
    disk.(children := PutIn(disk.children, Target(bus, dev)))
  }

  // Putting leaves the other tags' elements alone, even in a list that isn't sorted.
  lemma PutLeaves(children: seq<Element>, e: Element, tag: string)
    requires tag != e.tag
    ensures WithTag(PutIn(children, e), tag) == WithTag(children, tag)
  {
    WithoutByTag(children, e.tag, tag);
    var before, after := PutBetween(children, e);
    WithTagSkips(before, e, after, tag);
  }

  lemma WithTagSkips(before: seq<Element>, e: Element, after: seq<Element>, tag: string)
    requires tag != e.tag
    ensures WithTag(before + [e] + after, tag) == WithTag(before + after, tag)
  {
    WithTagConcat(before, after, tag);
    WithTagConcat(before, [e], tag);
    WithTagConcat(before + [e], after, tag);
    assert WithTag([e], tag) == [];
  }

  /** A targeted disk is the disk with just a target of the bus and device name in place of any it had. */
  lemma TargetedIsTheDisk(disk: Element, bus: string, dev: string)
    ensures var targeted := Targeted(disk, bus, dev);
      && targeted.tag == disk.tag && targeted.attributes == disk.attributes && targeted.text == disk.text
      && |WithTag(targeted.children, "target")| == 1
      && AsMap(WithTag(targeted.children, "target")[0].attributes) == map["bus" := bus, "dev" := dev]
      && WithTag(targeted.children, "target")[0].text.None? && WithTag(targeted.children, "target")[0].children == []
      && (forall tag | tag != "target" :: WithTag(targeted.children, tag) == WithTag(disk.children, tag))
  {
    PutFinds(disk.children, Target(bus, dev));
    TargetDev(bus, dev);
    forall tag | tag != "target"
      ensures WithTag(Targeted(disk, bus, dev).children, tag) == WithTag(disk.children, tag)
    {
      PutLeaves(disk.children, Target(bus, dev), tag);
    }
  }

  lemma TargetedDev(disk: Element, bus: string, dev: string)
    ensures DevOf(Targeted(disk, bus, dev)) == Some(dev)
  {
    PutFinds(disk.children, Target(bus, dev));
    TargetDev(bus, dev);
  }

  lemma TargetedIsNamed(disk: Element, bus: string, n: nat)
    requires n > 0
    ensures Named(Targeted(disk, bus, BusPrefix(bus) + Suffix(n)), n)
  {
    TargetedDev(disk, bus, BusPrefix(bus) + Suffix(n));
  }

  class LVMachineModel {
    const devices: Node
    const defaultBus: string

    ghost predicate Valid()
      reads this, devices
    {
      Sorted(devices.children) && NamedInOrder(WithTag(devices.children, "disk"))
    }

    constructor (defaultBus: string)
      ensures Valid() && fresh(devices) && devices.Value() == Element("devices", [], None, [])
      ensures this.defaultBus == defaultBus
    {
      devices := new Node("devices", [], None);
      this.defaultBus := defaultBus;
    }

    method NextDiskName(bus: string) returns (name: string)
      ensures name == BusPrefix(bus) + Suffix(|WithTag(devices.children, "disk")| + 1)
    {
      var suffix := [];
      var index := |WithTag(devices.children, "disk")| + 1;
      ghost var number := index;
      assert Suffix(number) + [] == Suffix(number);
      while index > 0
        invariant 0 <= index
        invariant Suffix(index) + suffix == Suffix(number)
      {
        var remainder := (index - 1) % 26;
        assert Suffix(index) + suffix == Suffix((index - 1) / 26) + ([Letter(remainder)] + suffix);
        index := (index - 1) / 26;
        suffix := [Letter(remainder)] + suffix;
      }
      assert [] + suffix == suffix;
      return BusPrefix(bus) + suffix;
    }

    // Adds a copy of the disk with a target of its own, unless its target has no bus.
    method Disk(disk: Element) returns (ok: bool)
      requires Valid() && disk.tag == "disk"
      modifies devices
      ensures Valid()
      ensures ok <==> FindTarget(disk).None? || "bus" in AsMap(FindTarget(disk).value.attributes)
      ensures !ok ==> devices.children == old(devices.children)
      ensures ok ==>
        var bus := if FindTarget(disk).None? then defaultBus else AsMap(FindTarget(disk).value.attributes)["bus"];
        var disks := old(WithTag(devices.children, "disk"));
        WithTag(devices.children, "disk") == disks + [Targeted(disk, bus, BusPrefix(bus) + Suffix(|disks| + 1))]
      ensures forall tag | tag != "disk" :: WithTag(devices.children, tag) == old(WithTag(devices.children, tag))
    {
      var target := FindTarget(disk);
      if target.Some? && "bus" !in AsMap(target.value.attributes) {
        return false;
      }
      var bus := if target.None? then defaultBus else AsMap(target.value.attributes)["bus"];
      var dev := NextDiskName(bus);
      TargetedIsNamed(disk, bus, |WithTag(devices.children, "disk")| + 1);
      Device(Targeted(disk, bus, dev));
      return true;
    }

    // Adds any other device, or a disk that has its name.
    method Device(element: Element)
      requires Valid()
      requires element.tag == "disk" ==> Named(element, |WithTag(devices.children, "disk")| + 1)
      modifies devices
      ensures Valid()
      ensures forall tag :: WithTag(devices.children, tag)
                            == old(WithTag(devices.children, tag)) + if tag == element.tag then [element] else []
    {
      forall tag
        ensures WithTag(Added(devices.children, element), tag)
             == WithTag(devices.children, tag) + if tag == element.tag then [element] else []
        ensures Sorted(Added(devices.children, element))
      {
        AddedByTag(devices.children, element, tag);
      }
      AddedByTag(devices.children, element, "disk");
      devices.AddChild(element);
    }
  }
}
