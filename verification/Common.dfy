/** Types shared by the whole model. */
module Common {
  datatype Option<+T> = None | Some(value: T)

  newtype Byte = x: int | 0 <= x < 256

  type Bytes = seq<Byte>

  // Whether the n-th operation from now on that may fail does.
  predicate Fails(faults: seq<bool>, n: nat) {
    n < |faults| && faults[n]
  }

  // What is left of a plan of failures after its first n operations.
  function Dropped(faults: seq<bool>, n: nat): seq<bool> {
    if n <= |faults| then faults[n..] else []
  }

  lemma DroppedTwice(faults: seq<bool>, m: nat, n: nat)
    ensures Dropped(Dropped(faults, m), n) == Dropped(faults, m + n)
    ensures Fails(Dropped(faults, m), n) <==> Fails(faults, m + n)
  {
  }

  // Whether none of the next n operations that may fail does.
  predicate NoneFails(faults: seq<bool>, n: nat) {
    forall k | 0 <= k < n :: !Fails(faults, k)
  }

  lemma NoneFailsMore(faults: seq<bool>, m: nat, n: nat)
    ensures NoneFails(faults, m + n) <==> NoneFails(faults, m) && NoneFails(Dropped(faults, m), n)
  {
    forall k | 0 <= k < n
      ensures Fails(Dropped(faults, m), k) <==> Fails(faults, m + k)
    {
      DroppedTwice(faults, m, k);
    }
    assert forall k | m <= k < m + n :: Fails(faults, k) <==> Fails(Dropped(faults, m), k - m);
  }

  lemma NextStep(faults: seq<bool>, n: nat)
    ensures Dropped(Dropped(faults, n), 1) == Dropped(faults, n + 1)
    ensures Fails(Dropped(faults, n), 0) <==> Fails(faults, n)
    ensures NoneFails(faults, n + 1) <==> NoneFails(faults, n) && !Fails(faults, n)
  {
  }

  // A command's two outputs.
  datatype Which = Out | Err

  lemma Regroup<T>(a: seq<T>, b: seq<T>, c: seq<T>)
    ensures a + b + c == a + (b + c)
  {
  }
}
