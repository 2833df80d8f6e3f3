/** The order of strings by their characters' codes, in which tags and attribute names are sorted. */
module TextOrder {
  predicate Less(a: string, b: string)
    decreases |a|
  {
    b != [] && (a == [] || a[0] < b[0] || (a[0] == b[0] && Less(a[1..], b[1..])))
  }

  predicate AtMost(a: string, b: string) {
    !Less(b, a)
  }

  lemma {:induction false} Irreflexive(a: string)
    ensures !Less(a, a)
    decreases |a|
  {
    if a != [] {
      Irreflexive(a[1..]);
    }
  }

  lemma {:induction false} Transitive(a: string, b: string, c: string)
    requires Less(a, b) && Less(b, c)
    ensures Less(a, c)
    decreases |a|
  {
    if a != [] && a[0] == b[0] == c[0] {
      Transitive(a[1..], b[1..], c[1..]);
    }
  }

  lemma {:induction false} Total(a: string, b: string)
    ensures Less(a, b) || Less(b, a) || a == b
    decreases |a|
  {
    if a != [] && b != [] && a[0] == b[0] {
      Total(a[1..], b[1..]);
      if a[1..] == b[1..] {
        assert a == [a[0]] + a[1..] == b;
      }
    }
  }

  // The order as a whole: `AtMost` is its total, transitive closure with equality.
  lemma Mixed(a: string, b: string, c: string)
    ensures AtMost(a, b) <==> Less(a, b) || a == b
    ensures AtMost(a, b) && AtMost(b, c) ==> AtMost(a, c)
    ensures Less(a, b) && AtMost(b, c) ==> Less(a, c)
    ensures AtMost(a, b) && Less(b, c) ==> Less(a, c)
  {
    Irreflexive(a);
    Total(a, b);
    Total(b, c);
    Total(a, c);
    if Less(a, b) && Less(b, a) {
      Transitive(a, b, a);
    }
    if Less(a, b) && Less(b, c) {
      Transitive(a, b, c);
      if Less(c, a) {
        Transitive(a, c, a);
      }
    }
  }

  // The strings are equal before an index, and there the first is at its end or has the smaller character.
  predicate DifferAt(a: string, b: string, k: nat) {
    k <= |a| && k < |b| && a[..k] == b[..k] && (k < |a| ==> a[k] < b[k])
  }

  /** It is decided by the first difference. */
  lemma {:induction false} LessByFirst(a: string, b: string)
    ensures Less(a, b) <==> exists k: nat :: DifferAt(a, b, k)
    decreases |a|
  {
    if b != [] && (a == [] || a[0] < b[0]) {
      assert DifferAt(a, b, 0);
    } else if a != [] && b != [] && a[0] == b[0] {
      LessByFirst(a[1..], b[1..]);
      if k: nat :| DifferAt(a[1..], b[1..], k) {
        assert a[..k + 1] == [a[0]] + a[1..][..k] && b[..k + 1] == [b[0]] + b[1..][..k];
        assert DifferAt(a, b, k + 1);
      }
      if k: nat :| DifferAt(a, b, k) {
        assert a[1..][..k - 1] == a[..k][1..] && b[1..][..k - 1] == b[..k][1..];
        assert DifferAt(a[1..], b[1..], k - 1);
      }
    } else {
      forall k: nat
        ensures !DifferAt(a, b, k)
      {
        if 0 < k <= |a| && k < |b| {
          assert a[..k][0] == a[0] && b[..k][0] == b[0];
        }
      }
    }
  }
}
