/** IPv4 addresses as integers, and CIDR blocks of them (section 3.1 of RFC 4632). */
module Addresses {
  const SPACE := 0x1_0000_0000

  function Pow2(n: nat): (r: nat)
    ensures r >= 1
  {
    if n == 0 then 1 else 2 * Pow2(n - 1)
  }

  lemma {:induction false} Pow2Sum(m: nat, n: nat)
    ensures Pow2(m + n) == Pow2(m) * Pow2(n)
  {
    if m > 0 {
      Pow2Sum(m - 1, n);
      assert 2 * (Pow2(m - 1) * Pow2(n)) == 2 * Pow2(m - 1) * Pow2(n);
    }
  }

  /** The number of addresses under a prefix of the given length. */
  function Size(prefix: nat): nat
    requires prefix <= 32
  {
    Pow2(32 - prefix)
  }

  datatype RawBlock = Block(address: int, prefix: nat) {
    ghost predicate Valid() {
      prefix <= 32 && 0 <= address && address % Size(prefix) == 0 && address + Size(prefix) <= SPACE
    }
  }

  type Cidr = b: RawBlock | b.Valid() witness Block(0, 32)

  function Broadcast(b: Cidr): int {
    b.address + Size(b.prefix) - 1
  }

  // Containment compares the masked address, as the library does.
  predicate Contains(b: Cidr, a: int) {
    a - a % Size(b.prefix) == b.address
  }

  predicate Overlaps(b: Cidr, c: Cidr) {
    || Contains(c, b.address)
    || Contains(c, Broadcast(b))
    || Contains(b, c.address)
    || Contains(b, Broadcast(c))
  }

  lemma QuotientUnique(a: int, size: int, q: int)
    requires size > 0
    requires q * size <= a < q * size + size
    ensures a / size == q && a % size == a - q * size
  {
    var d := a / size;
    assert a == d * size + a % size;
    MultipleBelow(d, q, size);
    MultipleBelow(q, d, size);
  }

  lemma MultipleBelow(m: int, n: int, size: int)
    requires size > 0
    ensures m < n ==> m * size + size <= n * size
  {
    if m < n {
      assert n * size == (m + 1) * size + (n - m - 1) * size;
      assert (n - m - 1) * size >= 0;
    }
  }

  lemma RoundedDown(a: int, size: int, n: int)
    requires size > 0 && 0 <= a < n * size
    ensures 0 <= a - a % size && (a - a % size) % size == 0
    ensures a - a % size + size <= n * size
  {
    var q := a / size;
    assert a == q * size + a % size;
    QuotientUnique(q * size, size, q);
    MultipleBelow(q, n, size);
    MultipleBelow(n, q, size);
    MultipleBelow(q, 0, size);
  }

  // The addresses that masking takes to a multiple of the size are the size ones from it on.
  lemma MaskedInterval(base: int, size: int, a: int)
    requires size > 0 && base % size == 0
    ensures a - a % size == base <==> base <= a < base + size
  {
    if base <= a < base + size {
      assert base == (base / size) * size;
      QuotientUnique(a, size, base / size);
    }
  }

  lemma ContainsIsInterval(b: Cidr, a: int)
    ensures Contains(b, a) <==> b.address <= a <= Broadcast(b)
  {
    MaskedInterval(b.address, Size(b.prefix), a);
  }

  lemma OverlapIsInterval(b: Cidr, c: Cidr)
    ensures Overlaps(b, c) <==> b.address <= Broadcast(c) && c.address <= Broadcast(b)
  {
    ContainsIsInterval(c, b.address);
    ContainsIsInterval(c, Broadcast(b));
    ContainsIsInterval(b, c.address);
    ContainsIsInterval(b, Broadcast(c));
  }

  // The four endpoint checks decide whether two blocks share an address.
  lemma OverlapIsIntersection(b: Cidr, c: Cidr)
    ensures Overlaps(b, c) <==> exists a :: Contains(b, a) && Contains(c, a)
  {
    OverlapIsInterval(b, c);
    if Overlaps(b, c) {
      var a := if b.address <= c.address then c.address else b.address;
      ContainsIsInterval(b, a);
      ContainsIsInterval(c, a);
      assert Contains(b, a) && Contains(c, a);
    }
    if a :| Contains(b, a) && Contains(c, a) {
      ContainsIsInterval(b, a);
      ContainsIsInterval(c, a);
    }
  }
}
