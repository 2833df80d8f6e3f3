/** Time limits on a monotone clock, and waiting for a condition. */
module Deadlines {
  import opened Common

  // When the time is up, if ever.
  type Deadline = Option<nat>

  function Start(timeout: Option<nat>, now: nat): Deadline {
    match timeout
    case None => None
    case Some(t) => Some(now + t)
  }

  function Remaining(end: Deadline, now: nat): Option<nat> {
    match end
    case None => None
    case Some(e) => Some(if now < e then e - now else 0)
  }

  predicate Passed(end: Deadline, now: nat) {
    Remaining(end, now) == Some(0)
  }

  // One test of a condition: whether it holds, and how long testing it takes.
  datatype Test = Test(holds: bool, took: nat)

  // How waiting ends, or that the condition was still not seen to hold.
  datatype Wait = Held(test: nat) | TimeUp | Waiting

  // When the n-th test starts, if none before it holds.
  function StartOf(tests: seq<Test>, n: nat, interval: nat): nat
    requires n <= |tests|
  {
    if n == 0 then 0 else StartOf(tests, n - 1, interval) + tests[n - 1].took + interval
  }

  class Clock {
    var now: nat

    constructor (now: nat)
      ensures this.now == now
    {
      this.now := now;
    }

    method Sleep(interval: nat)
      modifies this
      ensures now == old(now) + interval
    {
      now := now + interval;
    }

    /**
     Polls a condition, given as successive tests, at once and then after each interval: it returns at the first test
     that holds, unless the time was up before that test. It overruns its limit by at most an interval and the longest
     test.
     */
    method WaitUntil(tests: seq<Test>, timeout: Option<nat>, interval: nat, ghost longest: nat) returns (outcome: Wait)
      requires forall t | t in tests :: t.took <= longest
      modifies this
      ensures outcome.Held? ==>
        && outcome.test < |tests| && tests[outcome.test].holds && (forall j | 0 <= j < outcome.test :: !tests[j].holds)
        && now == old(now) + StartOf(tests, outcome.test, interval) + tests[outcome.test].took
        && (timeout.Some? ==> StartOf(tests, outcome.test, interval) < timeout.value)
      ensures outcome.TimeUp? ==>
        && timeout.Some?
        && exists i: nat | i < |tests| ::
             && now == old(now) + StartOf(tests, i, interval) && timeout.value <= StartOf(tests, i, interval)
             && forall j | 0 <= j < i :: !tests[j].holds
      ensures outcome.Waiting? ==> forall j | 0 <= j < |tests| :: !tests[j].holds
      ensures timeout.Some? ==> now <= old(now) + timeout.value + interval + longest
    {
      var end := Start(timeout, now);
      var i := 0;
      while i < |tests|
        invariant i <= |tests|
        invariant forall j | 0 <= j < i :: !tests[j].holds
        invariant now == old(now) + StartOf(tests, i, interval)
        invariant timeout.Some? ==> now <= old(now) + timeout.value + interval + longest
      {
        if Passed(end, now) {
          return TimeUp;
        }
        assert tests[i] in tests;
        Sleep(tests[i].took);
        if tests[i].holds {
          return Held(i);
        }
        Sleep(interval);
        i := i + 1;
      }
      return Waiting;
    }
  }
}
