/** The /24s a reservation tries, their numbers, and the blocks the host routes to. */
module Candidates {
  import opened Addresses

  datatype Route = Default | To(address: int, prefix: nat)

  type Destination = r: Route | r.To? ==> 0 <= r.address < SPACE && r.prefix <= 32 witness Default

  // A route's destination with its host bits cleared.
  function Masked(r: Destination): Cidr
    requires r.To?
  {
    MaskedIsBlock(r.address, r.prefix);
    Block(r.address - r.address % Size(r.prefix), r.prefix)
  }

  lemma MaskedIsBlock(a: int, prefix: nat)
    requires 0 <= a < SPACE && prefix <= 32
    ensures Block(a - a % Size(prefix), prefix).Valid()
  {
    Pow2Sum(prefix, 32 - prefix);
    SpaceSize();
    RoundedDown(a, Size(prefix), Pow2(prefix));
  }

  lemma SpaceSize()
    ensures Pow2(32) == SPACE
  {
    Pow2Sum(8, 8);
    Pow2Sum(16, 16);
    assert Pow2(8) == 256;
  }

  // Every destination but the default one, in order.
  function HostSubnets(routes: seq<Destination>): (used: seq<Cidr>)
  {
    if routes == [] then []
    else (if routes[0].To? then [Masked(routes[0])] else []) + HostSubnets(routes[1..])
  }

  // The address has the leading bits of the route's destination, unless that is the default one.
  predicate Leads(r: Destination, a: int) {
    r.To? && a / Size(r.prefix) == r.address / Size(r.prefix)
  }

  // Some route other than the default one leads to the address.
  ghost predicate Routed(routes: seq<Destination>, a: int) {
    exists j | 0 <= j < |routes| :: Leads(routes[j], a)
  }

  ghost predicate InAny(blocks: seq<Cidr>, a: int) {
    exists i | 0 <= i < |blocks| :: Contains(blocks[i], a)
  }

  lemma SameQuotient(a: int, b: int, size: int)
    requires size > 0
    ensures a - a % size == b - b % size <==> a / size == b / size
  {
    assert a == a / size * size + a % size && b == b / size * size + b % size;
    MultipleBelow(a / size, b / size, size);
    MultipleBelow(b / size, a / size, size);
  }

  lemma MaskedLeads(r: Destination, a: int)
    requires r.To?
    ensures Contains(Masked(r), a) <==> Leads(r, a)
  {
    SameQuotient(a, r.address, Size(r.prefix));
  }

  lemma InAnyOf(first: seq<Cidr>, rest: seq<Cidr>, a: int)
    ensures InAny(first + rest, a) <==> InAny(first, a) || InAny(rest, a)
  {
    var all := first + rest;
    if i :| 0 <= i < |first| && Contains(first[i], a) {
      assert all[i] == first[i];
    }
    if i :| 0 <= i < |rest| && Contains(rest[i], a) {
      assert all[|first| + i] == rest[i];
    }
  }

  /** The blocks are of exactly the addresses that routes other than the default one lead to. */
  lemma {:induction false} HostSubnetsAreRouted(routes: seq<Destination>, a: int)
    ensures InAny(HostSubnets(routes), a) <==> Routed(routes, a)
  {
    if routes != [] {
      var first := if routes[0].To? then [Masked(routes[0])] else [];
      HostSubnetsAreRouted(routes[1..], a);
      InAnyOf(first, HostSubnets(routes[1..]), a);
      if routes[0].To? {
        MaskedLeads(routes[0], a);
        assert first[0] == Masked(routes[0]);
      }
      if Routed(routes[1..], a) {
        var j :| 0 <= j < |routes[1..]| && Leads(routes[1..][j], a);
        assert Leads(routes[j + 1], a);
      }
      if j :| 0 <= j < |routes| && Leads(routes[j], a) {
        assert j > 0 ==> Leads(routes[1..][j - 1], a);
      }
    }
  }

  predicate OverlapsAny(b: Cidr, used: seq<Cidr>) {
    exists i | 0 <= i < |used| :: Overlaps(b, used[i])
  }

  // Some route other than the default one leads into the block.
  ghost predicate RoutedInto(b: Cidr, routes: seq<Destination>) {
    exists a :: Contains(b, a) && Routed(routes, a)
  }

  /** A block overlaps one of them exactly if such a route leads to an address in it. */
  lemma OverlapsIfRouted(b: Cidr, routes: seq<Destination>)
    ensures OverlapsAny(b, HostSubnets(routes)) <==> RoutedInto(b, routes)
  {
    var used := HostSubnets(routes);
    if i :| 0 <= i < |used| && Overlaps(b, used[i]) {
      OverlapIsIntersection(b, used[i]);
      var a :| Contains(b, a) && Contains(used[i], a);
      HostSubnetsAreRouted(routes, a);
    }
    if a :| Contains(b, a) && Routed(routes, a) {
      HostSubnetsAreRouted(routes, a);
      var i :| 0 <= i < |used| && Contains(used[i], a);
      OverlapIsIntersection(b, used[i]);
    }
  }

  // Splitting a single address yields itself; splitting anything else smaller than a /24 is an error.
  predicate Splits(subnets: Cidr) {
    subnets.prefix <= 24 || subnets.prefix == 32
  }

  function Count(subnets: Cidr): nat {
    if subnets.prefix == 32 then 1
    else if subnets.prefix <= 24 then Size(subnets.prefix) / 256
    else 0
  }

  function Candidate(subnets: Cidr, j: nat): Cidr
    requires j < Count(subnets)
  {
    if subnets.prefix == 32 then subnets
    else
      CandidateIsBlock(subnets, j);
      Block(subnets.address + 256 * j, 24)
  }

  // A block's number among all /24s.
  function Index(b: Cidr): nat {
    b.address / 256
  }

  lemma SizeOf24s(prefix: nat)
    requires prefix <= 24
    ensures Size(prefix) == 256 * Pow2(24 - prefix)
    ensures Size(prefix) / 256 == Pow2(24 - prefix)
  {
    Pow2Sum(8, 24 - prefix);
    assert Pow2(8) == 256;
    DividesBack(Pow2(24 - prefix));
  }

  lemma DividesBack(n: nat)
    ensures 256 * n / 256 == n
  {
  }

  lemma CandidateIsBlock(subnets: Cidr, j: nat)
    requires subnets.prefix <= 24 && j < Count(subnets)
    ensures Block(subnets.address + 256 * j, 24).Valid()
    ensures subnets.address % 256 == 0
    ensures subnets.address + 256 * j + 255 <= Broadcast(subnets)
  {
    SizeOf24s(subnets.prefix);
    MultipleOf256(subnets.address, Pow2(24 - subnets.prefix));
    SlashTwentyFourSize();
    StrideOf256(subnets.address, j, Pow2(24 - subnets.prefix));
  }

  lemma StrideOf256(a: int, j: nat, n: nat)
    requires a % 256 == 0 && j < n
    ensures (a + 256 * j) % 256 == 0
    ensures a + 256 * j + 256 <= a + 256 * n
  {
  }

  lemma SlashTwentyFourSize()
    ensures Size(24) == 256
  {
    assert Pow2(8) == 256;
  }

  lemma MultipleOf256(a: int, n: nat)
    requires n > 0 && a % (256 * n) == 0
    ensures a % 256 == 0
  {
    var q := a / (256 * n);
    assert a == (256 * n) * q == 256 * (n * q);
  }

  // Whichever range a candidate comes from, it lies in the /24 of its number, and its position is recovered from it.
  lemma CandidateIndex(subnets: Cidr, j: nat)
    requires j < Count(subnets)
    ensures 256 * Index(Candidate(subnets, j)) <= Candidate(subnets, j).address
    ensures Broadcast(Candidate(subnets, j)) <= 256 * Index(Candidate(subnets, j)) + 255
    ensures Index(Candidate(subnets, j)) == Index(subnets) + j
    ensures subnets.address <= Candidate(subnets, j).address && Broadcast(Candidate(subnets, j)) <= Broadcast(subnets)
  {
    if subnets.prefix <= 24 {
      CandidateIsBlock(subnets, j);
      SlashTwentyFourSize();
    } else {
      assert Size(32) == Pow2(0) == 1;
    }
  }

  // A block inside the /24 of its number, as every candidate is.
  predicate Fits(b: Cidr) {
    Broadcast(b) <= 256 * Index(b) + 255
  }

  type Slot = b: Cidr | Fits(b) witness Block(0, 32)

  // All candidates, in the order they are tried.
  function AllCandidates(subnets: Cidr): (slots: seq<Slot>)
    ensures |slots| == Count(subnets)
    ensures forall j | 0 <= j < |slots| :: slots[j] == Candidate(subnets, j)
  {
    seq(Count(subnets), j requires 0 <= j < Count(subnets) =>
      CandidateIndex(subnets, j);
      Candidate(subnets, j))
  }

  /** Splitting a single address yields itself, and splitting anything else smaller than a /24 nothing. */
  lemma NoSlash24s(b: Cidr)
    requires b.prefix > 24
    ensures AllCandidates(b) == if b.prefix == 32 then [b] else []
  {
    assert Size(32) == Pow2(0) == 1;
  }

  /** Which is just when it raises. */
  lemma SplitsIntoSome(b: Cidr)
    ensures Splits(b) <==> AllCandidates(b) != []
  {
    if b.prefix <= 24 {
      SizeOf24s(b.prefix);
    }
  }

  // 10.0.0.7/32 has itself as its only candidate, and 10.0.0.0/25 can't be split.
  lemma SmallRanges()
    ensures Block(0x0A00_0007, 32).Valid() && AllCandidates(Block(0x0A00_0007, 32)) == [Block(0x0A00_0007, 32)]
    ensures Block(0x0A00_0000, 25).Valid() && !Splits(Block(0x0A00_0000, 25))
  {
    assert Size(32) == Pow2(0) == 1;
    assert Size(25) == Pow2(7) == 128;
  }

  lemma DifferentNumbersAreDisjoint(b: Slot, c: Slot)
    requires Index(b) != Index(c)
    ensures !Overlaps(b, c)
  {
    OverlapIsInterval(b, c);
  }

  // The number is a bijection between the /24s and 0..2^24, and different numbers mean disjoint blocks.
  lemma IndexIsBijection(i: nat)
    requires i < 0x100_0000
    ensures Block(256 * i, 24).Valid() && Index(Block(256 * i, 24)) == i
    ensures forall b: Cidr | b.prefix == 24 && Index(b) == i :: b == Block(256 * i, 24)
  {
    SlashTwentyFourSize();
  }

  // The candidates are exactly the /24s inside the range, in ascending order.
  lemma CandidatesAreTheSlash24s(subnets: Cidr, b: Cidr)
    requires subnets.prefix <= 24 && b.prefix == 24
    ensures subnets.address <= b.address && Broadcast(b) <= Broadcast(subnets)
            <==> exists j: nat | j < Count(subnets) :: Candidate(subnets, j) == b
  {
    SlashTwentyFourSize();
    SizeOf24s(subnets.prefix);
    MultipleOf256(subnets.address, Pow2(24 - subnets.prefix));
    if subnets.address <= b.address && Broadcast(b) <= Broadcast(subnets) {
      var j := PositionOf(subnets.address, b.address, Pow2(24 - subnets.prefix));
      assert Candidate(subnets, j) == b;
    }
    if j: nat :| j < Count(subnets) && Candidate(subnets, j) == b {
      CandidateIndex(subnets, j);
    }
  }

  lemma PositionOf(base: int, a: int, n: nat) returns (j: nat)
    requires base % 256 == 0 && a % 256 == 0 && base <= a && a + 255 <= base + 256 * n - 1
    ensures j < n && a == base + 256 * j
  {
    j := (a - base) / 256;
  }
}
