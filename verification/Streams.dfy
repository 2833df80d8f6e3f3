/**
 Reading a stream of bytes that arrive over time in chunks: until a pattern appears, until it ends, or until it is
 quiet. What arrives when is arbitrary; reads block for at most their timeout.
 */
module Streams {
  import opened Common
  import opened Deadlines
  import opened ExitPattern

  // What one read gets, no earlier than at the given time: a chunk, or that the stream ended.
  datatype Arrival = Chunk(at: nat, data: Bytes) | End(at: nat)

  datatype State = State(now: nat, incoming: seq<Arrival>)

  datatype Reading = Data(data: Bytes) | Eof | Never

  datatype Expected = Literal(bytes: Bytes) | Exit

  // How reading until something appears ends: `Hung` if the read never returns.
  datatype Outcome = Found(data: Bytes) | TimedOut(data: Bytes) | Ended(data: Bytes) | Hung

  datatype Quietness = Quiet | NotQuiet | EndedInstead

  function Max(a: nat, b: nat): nat {
    if a < b then b else a
  }

  function Read(s: State, timeout: Option<nat>): (Reading, State) {
    if s.incoming != [] && (timeout.Some? ==> s.incoming[0].at <= s.now + timeout.value) then
      var now := Max(s.now, s.incoming[0].at);
      match s.incoming[0]
      case Chunk(_, data) => (Data(data), State(now, s.incoming[1..]))
      case End(_) => (Eof, State(now, s.incoming))
    else
      match timeout
      case None => (Never, s)
      case Some(t) => (Data([]), s.(now := s.now + t))
  }

  predicate OccursAt(bytes: Bytes, s: Bytes, i: nat) {
    i + |bytes| <= |s| && s[i..i + |bytes|] == bytes
  }

  predicate Hit(expected: Expected, s: Bytes) {
    match expected
    case Literal(bytes) => exists i: nat | i <= |s| :: OccursAt(bytes, s, i)
    case Exit => Search(s).Some?
  }

  // A literal is hit exactly if it is a part of what was read.
  lemma LiteralIsPart(bytes: Bytes, s: Bytes)
    ensures Hit(Literal(bytes), s) <==> exists before, after :: s == before + bytes + after
  {
    if i: nat :| i <= |s| && OccursAt(bytes, s, i) {
      assert s == s[..i] + bytes + s[i + |bytes|..];
    }
    if before, after :| s == before + bytes + after {
      assert OccursAt(bytes, s, |before|);
    }
  }

  function ReadUntil(s: State, expected: Expected, end: Deadline, result: Bytes): (Outcome, State)
    decreases |s.incoming|, if end.Some? && s.now < end.value then end.value - s.now else 0
  {
    if Hit(expected, result) then (Found(result), s)
    else if Passed(end, s.now) then (TimedOut(result), s)
    else
      var (reading, t) := Read(s, Remaining(end, s.now));
      match reading
      case Data(data) => ReadUntil(t, expected, end, result + data)
      case Eof => (Ended(result), t)
      case Never => (Hung, t)
  }

  // Reading everything: the result is only known to be complete at the end, and a late end is a timeout.
  function ReadAll(s: State, end: Deadline, result: Bytes): (Outcome, State)
    decreases |s.incoming|, if end.Some? && s.now < end.value then end.value - s.now else 0
  {
    if Passed(end, s.now) then (TimedOut(result), s)
    else
      var (reading, t) := Read(s, Remaining(end, s.now));
      match reading
      case Data(data) => ReadAll(t, end, result + data)
      case Eof => (Found(result), t)
      case Never => (Hung, t)
  }

  function WaitUntilQuiet(s: State, quiet: nat, end: Deadline): (Quietness, State)
    decreases |s.incoming|
  {
    var remaining := Remaining(end, s.now);
    if remaining.Some? && remaining.value < quiet then (NotQuiet, s)
    else
      var (reading, t) := Read(s, Some(quiet));
      match reading
      case Data(data) => if data == [] then (Quiet, t) else WaitUntilQuiet(t, quiet, end)
      case _ => (EndedInstead, t)
  }

  // ---- What they promise ----

  function Joined(arrivals: seq<Arrival>): Bytes {
    if arrivals == [] then []
    else (if arrivals[0].Chunk? then arrivals[0].data else []) + Joined(arrivals[1..])
  }

  lemma {:induction false} JoinedConcat(a: seq<Arrival>, b: seq<Arrival>)
    ensures Joined(a + b) == Joined(a) + Joined(b)
  {
    if a == [] {
      assert a + b == b;
    } else {
      assert (a + b)[1..] == a[1..] + b;
      JoinedConcat(a[1..], b);
    }
  }

  // What arrives before the given time.
  function JoinedBefore(arrivals: seq<Arrival>, time: nat): Bytes {
    if arrivals == [] || arrivals[0].at >= time || arrivals[0].End? then []
    else arrivals[0].data + JoinedBefore(arrivals[1..], time)
  }

  // Those are the first arrivals, up to one that comes no earlier, or the end of the stream.
  lemma {:induction false} BeforeIsFirst(arrivals: seq<Arrival>, time: nat) returns (n: nat)
    ensures n <= |arrivals| && JoinedBefore(arrivals, time) == Joined(arrivals[..n])
    ensures forall k | 0 <= k < n :: arrivals[k].Chunk? && arrivals[k].at < time
    ensures n < |arrivals| ==> arrivals[n].End? || time <= arrivals[n].at
  {
    n := 0;
    if arrivals != [] && arrivals[0].Chunk? && arrivals[0].at < time {
      n := BeforeIsFirst(arrivals[1..], time);
      assert arrivals[..n + 1][1..] == arrivals[1..][..n];
      assert forall k | 0 < k < n + 1 :: arrivals[k] == arrivals[1..][k - 1];
      n := n + 1;
    }
  }

  // `t` follows from `s` by reading.
  ghost predicate Follows(s: State, t: State) {
    && s.now <= t.now
    && |t.incoming| <= |s.incoming|
    && t.incoming == s.incoming[|s.incoming| - |t.incoming|..]
  }

  // What was read from one to the other.
  ghost function Between(s: State, t: State): Bytes
    requires Follows(s, t)
  {
    Joined(s.incoming[..|s.incoming| - |t.incoming|])
  }

  lemma FollowsBoth(s: State, t: State, u: State)
    requires Follows(s, t) && Follows(t, u)
    ensures Follows(s, u) && Between(s, u) == Between(s, t) + Between(t, u)
  {
    var k, m := |s.incoming| - |t.incoming|, |s.incoming| - |u.incoming|;
    assert s.incoming[..m] == s.incoming[..k] + t.incoming[..m - k];
    JoinedConcat(s.incoming[..k], t.incoming[..m - k]);
  }

  lemma JoinedFirst(arrivals: seq<Arrival>)
    requires arrivals != []
    ensures Joined(arrivals[..1]) == if arrivals[0].Chunk? then arrivals[0].data else []
  {
    assert arrivals[..1] == [arrivals[0]] && [arrivals[0]][1..] == [];
  }

  lemma FollowsAfter(s: State, t: State, n: nat)
    requires n <= |s.incoming| && s.now <= t.now && t.incoming == s.incoming[n..]
    ensures Follows(s, t) && Between(s, t) == Joined(s.incoming[..n])
  {
  }

  lemma ReadFollows(s: State, timeout: Option<nat>)
    ensures var (reading, t) := Read(s, timeout);
      && Follows(s, t)
      && Between(s, t) == (if reading.Data? then reading.data else [])
      && (timeout.Some? ==> t.now <= s.now + timeout.value && !reading.Never?)
  {
    var t := Read(s, timeout).1;
    if t.incoming == s.incoming {
      assert s.incoming[0..] == s.incoming;
      FollowsAfter(s, t, 0);
    } else {
      JoinedFirst(s.incoming);
      FollowsAfter(s, t, 1);
    }
  }

  // The result, unless reading never ends, is what there was of it and all that was read.
  ghost predicate Delivers(s: State, t: State, outcome: Outcome, result: Bytes) {
    Follows(s, t) && (!outcome.Hung? ==> outcome.data == result + Between(s, t))
  }

  lemma DeliversNothing(s: State, outcome: Outcome, result: Bytes)
    requires !outcome.Hung? ==> outcome.data == result
    ensures Delivers(s, s, outcome, result)
  {
    assert s.incoming[0..] == s.incoming;
    assert result + [] == result;
  }

  // One read, and then whatever reading on delivers.
  lemma DeliversMore(s: State, timeout: Option<nat>, u: State, outcome: Outcome, result: Bytes)
    requires var (reading, t) := Read(s, timeout);
      if reading.Data? then Delivers(t, u, outcome, result + reading.data)
      else u == t && (!outcome.Hung? ==> outcome.data == result)
    ensures Delivers(s, u, outcome, result)
  {
    ReadFollows(s, timeout);
    var (reading, t) := Read(s, timeout);
    if reading.Data? {
      FollowsBoth(s, t, u);
      Regroup(result, reading.data, Between(t, u));
    } else {
      assert result + [] == result;
    }
  }

  /** Nothing is lost or reordered. */
  lemma {:induction false} ReadUntilLosesNothing(s: State, expected: Expected, end: Deadline, result: Bytes)
    ensures var (outcome, t) := ReadUntil(s, expected, end, result); Delivers(s, t, outcome, result)
    decreases |s.incoming|, if end.Some? && s.now < end.value then end.value - s.now else 0
  {
    var (outcome, u) := ReadUntil(s, expected, end, result);
    if Hit(expected, result) || Passed(end, s.now) {
      DeliversNothing(s, outcome, result);
    } else {
      var (reading, t) := Read(s, Remaining(end, s.now));
      if reading.Data? {
        ReadUntilLosesNothing(t, expected, end, result + reading.data);
      }
      DeliversMore(s, Remaining(end, s.now), u, outcome, result);
    }
  }

  // Reading ended by the deadline, and no earlier if by a timeout. Only without a deadline may it not end.
  ghost predicate ByDeadline(end: Deadline, start: nat, outcome: Outcome, now: nat) {
    && (end.Some? ==> !outcome.Hung? && now <= Max(start, end.value))
    && (outcome.TimedOut? ==> end.Some? && end.value <= now)
  }

  // One read before the deadline.
  lemma ReadInTime(s: State, end: Deadline)
    requires !Passed(end, s.now)
    ensures var (reading, t) := Read(s, Remaining(end, s.now));
      && s.now <= t.now
      && (end.Some? ==> t.now <= end.value && !reading.Never?)
  {
    ReadFollows(s, Remaining(end, s.now));
  }

  /** The time limit is kept, and a match found by the last read beats the timeout. */
  lemma {:induction false} ReadUntilInTime(s: State, expected: Expected, end: Deadline, result: Bytes)
    ensures var (outcome, t) := ReadUntil(s, expected, end, result);
      && ByDeadline(end, s.now, outcome, t.now)
      && (outcome.Found? ==> Hit(expected, outcome.data))
      && (outcome.TimedOut? ==> !Hit(expected, outcome.data))
    decreases |s.incoming|, if end.Some? && s.now < end.value then end.value - s.now else 0
  {
    if !Hit(expected, result) && !Passed(end, s.now) {
      ReadInTime(s, end);
      var (reading, t) := Read(s, Remaining(end, s.now));
      if reading.Data? {
        ReadUntilInTime(t, expected, end, result + reading.data);
      }
    }
  }

  /** Reading times out only after reading, without a match, at least all that arrived before the deadline. */
  lemma {:induction false} TimesOutLate(s: State, expected: Expected, end: Deadline, result: Bytes)
    requires end.Some? && s.now < end.value
    requires ReadUntil(s, expected, end, result).0.TimedOut?
    ensures result + JoinedBefore(s.incoming, end.value) <= ReadUntil(s, expected, end, result).0.data
    decreases |s.incoming|, end.value - s.now
  {
    ReadUntilInTime(s, expected, end, result);
    var (reading, t) := Read(s, Remaining(end, s.now));
    if t.now < end.value {
      TimesOutLate(t, expected, end, result + reading.data);
    } else {
      assert JoinedBefore(s.incoming, end.value) == [];
      assert result + [] == result;
    }
  }

  /** Reading to the end returns what arrived up to it. */
  lemma {:induction false} ReadAllLosesNothing(s: State, end: Deadline, result: Bytes)
    ensures var (outcome, t) := ReadAll(s, end, result); Delivers(s, t, outcome, result)
    decreases |s.incoming|, if end.Some? && s.now < end.value then end.value - s.now else 0
  {
    var (outcome, u) := ReadAll(s, end, result);
    if Passed(end, s.now) {
      DeliversNothing(s, outcome, result);
    } else {
      var (reading, t) := Read(s, Remaining(end, s.now));
      if reading.Data? {
        ReadAllLosesNothing(t, end, result + reading.data);
      }
      DeliversMore(s, Remaining(end, s.now), u, outcome, result);
    }
  }

  lemma {:induction false} ReadAllInTime(s: State, end: Deadline, result: Bytes)
    ensures var (outcome, t) := ReadAll(s, end, result);
      && ByDeadline(end, s.now, outcome, t.now)
      && (outcome.Found? ==> t.incoming != [] && t.incoming[0].End?)
    decreases |s.incoming|, if end.Some? && s.now < end.value then end.value - s.now else 0
  {
    if !Passed(end, s.now) {
      ReadInTime(s, end);
      var (reading, t) := Read(s, Remaining(end, s.now));
      if reading.Data? {
        ReadAllInTime(t, end, result + reading.data);
      }
    }
  }

  // Every chunk has bytes, as all but empty reads on timeouts do.
  predicate Genuine(arrivals: seq<Arrival>) {
    forall a | a in arrivals :: a.Chunk? ==> a.data != []
  }

  /** Waiting for quiet keeps its time limit, and gives up only once less than a full window is left of it. */
  lemma {:induction false} QuietInTime(s: State, quiet: nat, end: Deadline)
    ensures var (outcome, t) := WaitUntilQuiet(s, quiet, end);
      && Follows(s, t)
      && (end.Some? ==> t.now <= Max(s.now, end.value))
      && (outcome.NotQuiet? ==> end.Some? && end.value < t.now + quiet)
    decreases |s.incoming|
  {
    var remaining := Remaining(end, s.now);
    if remaining.None? || quiet <= remaining.value {
      ReadFollows(s, Some(quiet));
      var (reading, t) := Read(s, Some(quiet));
      if reading.Data? && reading.data != [] {
        QuietInTime(t, quiet, end);
        FollowsBoth(s, t, WaitUntilQuiet(t, quiet, end).1);
      }
    }
  }

  /**
   It succeeds only after a full window in which nothing arrived: all it read came no later than the window's start, and
   what is left comes after its end.
   */
  lemma {:induction false} QuietIsQuiet(s: State, quiet: nat, end: Deadline)
    requires Genuine(s.incoming) && WaitUntilQuiet(s, quiet, end).0.Quiet?
    ensures var t := WaitUntilQuiet(s, quiet, end).1;
      && Follows(s, t)
      && s.now + quiet <= t.now
      && (forall i | 0 <= i < |s.incoming| - |t.incoming| :: s.incoming[i].at <= t.now - quiet)
      && (t.incoming == [] || t.now < t.incoming[0].at)
    decreases |s.incoming|
  {
    var (reading, t) := Read(s, Some(quiet));
    if reading.data != [] {
      assert t.incoming == s.incoming[1..];
      QuietIsQuiet(t, quiet, end);
      var u := WaitUntilQuiet(t, quiet, end).1;
      forall i | 0 <= i < |s.incoming| - |u.incoming|
        ensures s.incoming[i].at <= u.now - quiet
      {
        assert i > 0 ==> s.incoming[i] == t.incoming[i - 1];
      }
    }
  }

  // ---- When each ends how ----

  // When the first n arrivals were read.
  function ReadBy(s: State, n: nat): nat
    requires n <= |s.incoming|
  {
    if n == 0 then s.now else Max(ReadBy(s, n - 1), s.incoming[n - 1].at)
  }

  function AfterRead(s: State, n: nat): State
    requires n <= |s.incoming|
  {
    State(ReadBy(s, n), s.incoming[n..])
  }

  lemma AfterFirst(s: State)
    requires s.incoming != []
    ensures AfterRead(s, 1) == State(Max(s.now, s.incoming[0].at), s.incoming[1..])
  {
    assert ReadBy(s, 0) == s.now;
  }

  lemma {:induction false} ReadByNext(s: State, n: nat)
    requires s.incoming != [] && n < |s.incoming|
    ensures var t := AfterRead(s, 1); ReadBy(t, n) == ReadBy(s, n + 1) && AfterRead(t, n) == AfterRead(s, n + 1)
  {
    if n > 0 {
      ReadByNext(s, n - 1);
    }
  }

  // The next arrival comes within the time.
  predicate Comes(s: State, within: Option<nat>) {
    s.incoming != [] && (within.Some? ==> s.incoming[0].at <= s.now + within.value)
  }

  // A chunk comes before the deadline.
  predicate Goes(s: State, end: Deadline) {
    !Passed(end, s.now) && Comes(s, Remaining(end, s.now)) && s.incoming[0].Chunk?
  }

  // What there is after the first n arrivals.
  function Gathered(s: State, result: Bytes, n: nat): Bytes
    requires n <= |s.incoming|
  {
    result + Joined(s.incoming[..n])
  }

  lemma GatheredNext(s: State, result: Bytes, n: nat)
    requires s.incoming != [] && n < |s.incoming| && s.incoming[0].Chunk?
    ensures Gathered(AfterRead(s, 1), result + s.incoming[0].data, n) == Gathered(s, result, n + 1)
  {
    assert s.incoming[..n + 1][1..] == s.incoming[1..][..n];
  }

  // Reading goes on through the first n arrivals: each is a chunk that comes before the deadline, without a match yet.
  ghost predicate GoesOn(s: State, expected: Option<Expected>, end: Deadline, result: Bytes, n: nat) {
    && n <= |s.incoming|
    && forall k | 0 <= k < n ::
         Goes(AfterRead(s, k), end) && (expected.Some? ==> !Hit(expected.value, Gathered(s, result, k)))
  }

  lemma GoesOnNext(s: State, expected: Option<Expected>, end: Deadline, result: Bytes, n: nat)
    requires Goes(s, end) && (expected.Some? ==> !Hit(expected.value, result))
    requires GoesOn(AfterRead(s, 1), expected, end, result + s.incoming[0].data, n)
    ensures GoesOn(s, expected, end, result, n + 1)
  {
    forall k | 0 <= k < n + 1
      ensures Goes(AfterRead(s, k), end) && (expected.Some? ==> !Hit(expected.value, Gathered(s, result, k)))
    {
      if k == 0 {
        assert s.incoming[0..] == s.incoming && result + [] == result;
      } else {
        assert Goes(AfterRead(AfterRead(s, 1), k - 1), end);
        ReadByNext(s, k - 1);
        GatheredNext(s, result, k - 1);
      }
    }
  }

  // How reading ends where it doesn't go on: at the end of the stream, at the deadline, or never.
  function Stopped(s: State, end: Deadline, result: Bytes, ended: Outcome): (Outcome, State) {
    if Passed(end, s.now) then (TimedOut(result), s)
    else if Comes(s, Remaining(end, s.now)) then (ended, s.(now := Max(s.now, s.incoming[0].at)))
    else if end.Some? then (TimedOut(result), s.(now := end.value))
    else (Hung, s)
  }

  /**
   Reading until something appears goes on through some number of arrivals, and stops right when it appears, or when it
   can't go on.
   */
  lemma {:induction false} ReadUntilStops(s: State, expected: Expected, end: Deadline, result: Bytes) returns (n: nat)
    ensures GoesOn(s, Some(expected), end, result, n)
    ensures var t, gathered := AfterRead(s, n), Gathered(s, result, n);
      if Hit(expected, gathered) then ReadUntil(s, expected, end, result) == (Found(gathered), t)
      else
        && !Goes(t, end)
        && ReadUntil(s, expected, end, result) == Stopped(t, end, gathered, Ended(gathered))
    decreases |s.incoming|
  {
    assert s.incoming[0..] == s.incoming && s.incoming[..0] == [] && result + [] == result;
    n := 0;
    if !Hit(expected, result) && Goes(s, end) {
      var data := s.incoming[0].data;
      AfterFirst(s);
      n := ReadUntilStops(AfterRead(s, 1), expected, end, result + data);
      GoesOnNext(s, Some(expected), end, result, n);
      ReadByNext(s, n);
      GatheredNext(s, result, n);
      n := n + 1;
    } else if !Hit(expected, result) && !Passed(end, s.now) && !Comes(s, Remaining(end, s.now)) && end.Some? {
      AtDeadline(s, expected, end, result);
    }
  }

  // A read to the deadline gets nothing, after which the time is up.
  lemma AtDeadline(s: State, expected: Expected, end: Deadline, result: Bytes)
    requires end.Some? && !Passed(end, s.now) && !Comes(s, Remaining(end, s.now))
    ensures !Hit(expected, result) ==>
      ReadUntil(s, expected, end, result) == (TimedOut(result), s.(now := end.value))
    ensures ReadAll(s, end, result) == (TimedOut(result), s.(now := end.value))
  {
    assert result + [] == result;
    assert Read(s, Remaining(end, s.now)) == (Data([]), s.(now := end.value));
  }

  /** Reading everything goes on through all chunks before the deadline, and returns them at the stream's end. */
  lemma {:induction false} ReadAllStops(s: State, end: Deadline, result: Bytes) returns (n: nat)
    ensures GoesOn(s, None, end, result, n) && !Goes(AfterRead(s, n), end)
    ensures var t, gathered := AfterRead(s, n), Gathered(s, result, n);
      ReadAll(s, end, result) == Stopped(t, end, gathered, Found(gathered))
    decreases |s.incoming|
  {
    assert s.incoming[0..] == s.incoming && s.incoming[..0] == [] && result + [] == result;
    n := 0;
    if Goes(s, end) {
      var data := s.incoming[0].data;
      AfterFirst(s);
      n := ReadAllStops(AfterRead(s, 1), end, result + data);
      GoesOnNext(s, None, end, result, n);
      ReadByNext(s, n);
      GatheredNext(s, result, n);
      n := n + 1;
    } else if !Passed(end, s.now) && !Comes(s, Remaining(end, s.now)) && end.Some? {
      AtDeadline(s, Exit, end, result);
    }
  }

  // There is time for a full window.
  predicate HasWindow(s: State, quiet: nat, end: Deadline) {
    var remaining := Remaining(end, s.now);
    remaining.Some? ==> quiet <= remaining.value
  }

  // There is, and bytes come within it.
  predicate Loud(s: State, quiet: nat, end: Deadline) {
    HasWindow(s, quiet, end) && Comes(s, Some(quiet)) && s.incoming[0].Chunk? && s.incoming[0].data != []
  }

  ghost predicate StaysLoud(s: State, quiet: nat, end: Deadline, n: nat) {
    n <= |s.incoming| && forall k | 0 <= k < n :: Loud(AfterRead(s, k), quiet, end)
  }

  lemma StaysLoudNext(s: State, quiet: nat, end: Deadline, n: nat)
    requires Loud(s, quiet, end) && StaysLoud(AfterRead(s, 1), quiet, end, n)
    ensures StaysLoud(s, quiet, end, n + 1)
  {
    forall k | 0 <= k < n + 1
      ensures Loud(AfterRead(s, k), quiet, end)
    {
      if k == 0 {
        assert s.incoming[0..] == s.incoming;
      } else {
        assert Loud(AfterRead(AfterRead(s, 1), k - 1), quiet, end);
        ReadByNext(s, k - 1);
      }
    }
  }

  /**
   Waiting for quiet goes on while bytes come within each window and there is time for another. It succeeds exactly if
   it stops at a window without any, and raises the end of the stream exactly if that comes within the window.
   */
  lemma {:induction false} QuietStops(s: State, quiet: nat, end: Deadline) returns (n: nat)
    ensures StaysLoud(s, quiet, end, n) && !Loud(AfterRead(s, n), quiet, end)
    ensures var t := AfterRead(s, n); var (outcome, u) := WaitUntilQuiet(s, quiet, end);
      && (outcome.NotQuiet? <==> !HasWindow(t, quiet, end))
      && (outcome.EndedInstead? <==> HasWindow(t, quiet, end) && Comes(t, Some(quiet)) && t.incoming[0].End?)
      && (outcome.NotQuiet? ==> u == t)
      && (outcome.EndedInstead? ==> u == t.(now := Max(t.now, t.incoming[0].at)))
      && (outcome.Quiet? && !Comes(t, Some(quiet)) ==> u == t.(now := t.now + quiet))
      && (outcome.Quiet? && Comes(t, Some(quiet)) ==> u == AfterRead(t, 1))
    decreases |s.incoming|
  {
    assert s.incoming[0..] == s.incoming;
    n := 0;
    if Loud(s, quiet, end) {
      AfterFirst(s);
      n := QuietStops(AfterRead(s, 1), quiet, end);
      StaysLoudNext(s, quiet, end, n);
      ReadByNext(s, n);
      n := n + 1;
    }
  }

  // ---- Streams without long pauses ----

  // Every arrival has bytes, and comes no later than a full window after the ones before it.
  predicate Dense(incoming: seq<Arrival>, from: nat, quiet: nat)
    decreases |incoming|
  {
    incoming != [] ==>
      && incoming[0].Chunk? && incoming[0].data != [] && incoming[0].at <= from + quiet
      && Dense(incoming[1..], Max(from, incoming[0].at), quiet)
  }

  lemma {:induction false} DenseLater(incoming: seq<Arrival>, from: nat, later: nat, quiet: nat)
    requires Dense(incoming, from, quiet) && from <= later
    ensures Dense(incoming, later, quiet)
    decreases |incoming|
  {
    if incoming != [] {
      DenseLater(incoming[1..], Max(from, incoming[0].at), Max(later, incoming[0].at), quiet);
    }
  }

  lemma {:induction false} DenseConcat(a: seq<Arrival>, b: seq<Arrival>, from: nat, base: nat, quiet: nat)
    requires Dense(a, from, quiet) && Dense(b, base, quiet)
    requires base <= if a == [] then from else Max(from, a[|a| - 1].at)
    ensures Dense(a + b, from, quiet)
    decreases |a|
  {
    if a == [] {
      assert a + b == b;
      DenseLater(b, base, from, quiet);
    } else {
      assert (a + b)[1..] == a[1..] + b;
      DenseConcat(a[1..], b, Max(from, a[0].at), base, quiet);
    }
  }

  lemma ReadStaysDense(s: State, timeout: Option<nat>, quiet: nat)
    requires Dense(s.incoming, s.now, quiet)
    ensures var t := Read(s, timeout).1; Dense(t.incoming, t.now, quiet)
  {
    var t := Read(s, timeout).1;
    if t.incoming == s.incoming {
      DenseLater(s.incoming, s.now, t.now, quiet);
    }
  }

  lemma {:induction false} ReadUntilStaysDense(s: State, expected: Expected, end: Deadline, result: Bytes, quiet: nat)
    requires Dense(s.incoming, s.now, quiet)
    ensures var t := ReadUntil(s, expected, end, result).1; Dense(t.incoming, t.now, quiet)
    decreases |s.incoming|, if end.Some? && s.now < end.value then end.value - s.now else 0
  {
    if !Hit(expected, result) && !Passed(end, s.now) {
      ReadStaysDense(s, Remaining(end, s.now), quiet);
      var (reading, t) := Read(s, Remaining(end, s.now));
      if reading.Data? {
        ReadUntilStaysDense(t, expected, end, result + reading.data, quiet);
      }
    }
  }

  /** Waiting for quiet reads a stream without long pauses to its last byte. */
  lemma {:induction false} QuietDrains(s: State, quiet: nat, end: Deadline)
    requires Dense(s.incoming, s.now, quiet) && WaitUntilQuiet(s, quiet, end).0.Quiet?
    ensures WaitUntilQuiet(s, quiet, end).1.incoming == []
    decreases |s.incoming|
  {
    if s.incoming != [] {
      ReadStaysDense(s, Some(quiet), quiet);
      QuietDrains(Read(s, Some(quiet)).1, quiet, end);
    }
  }

  // ---- The stream itself ----

  // What arrives so long after the previous arrival, or after what was written.
  datatype Delayed = After(wait: nat, data: Bytes) | Closing(wait: nat)

  function Scheduled(from: nat, delays: seq<Delayed>): seq<Arrival>
    decreases |delays|
  {
    if delays == [] then []
    else
      var at := from + delays[0].wait;
      [if delays[0].After? then Chunk(at, delays[0].data) else End(at)] + Scheduled(at, delays[1..])
  }

  // Writing makes something arrive, after whatever was still to.
  function Written(s: State, reaction: seq<Delayed>): State {
    var from := if s.incoming == [] then s.now else Max(s.now, s.incoming[|s.incoming| - 1].at);
    s.(incoming := s.incoming + Scheduled(from, reaction))
  }

  // Bytes keep coming, without pauses of more than a window.
  predicate Prompt(delays: seq<Delayed>, quiet: nat) {
    forall d | d in delays :: d.After? && d.data != [] && d.wait <= quiet
  }

  lemma {:induction false} ScheduledIsDense(from: nat, delays: seq<Delayed>, quiet: nat)
    requires Prompt(delays, quiet)
    ensures Dense(Scheduled(from, delays), from, quiet)
    decreases |delays|
  {
    if delays != [] {
      assert delays[0] in delays;
      ScheduledIsDense(from + delays[0].wait, delays[1..], quiet);
      assert Scheduled(from, delays)[1..] == Scheduled(from + delays[0].wait, delays[1..]);
    }
  }

  lemma WrittenIsDense(s: State, reaction: seq<Delayed>, quiet: nat)
    requires Dense(s.incoming, s.now, quiet) && Prompt(reaction, quiet)
    ensures Dense(Written(s, reaction).incoming, s.now, quiet)
  {
    var from := if s.incoming == [] then s.now else Max(s.now, s.incoming[|s.incoming| - 1].at);
    ScheduledIsDense(from, reaction, quiet);
    DenseConcat(s.incoming, Scheduled(from, reaction), s.now, from, quiet);
  }

  class Stream {
    var state: State
    // How the other side reacts to each write.
    var reactions: seq<seq<Delayed>>
    var written: seq<Bytes>

    constructor (state: State, reactions: seq<seq<Delayed>>)
      ensures this.state == state && this.reactions == reactions && written == []
    {
      this.state, this.reactions, written := state, reactions, [];
    }

    method ReadOnce(timeout: Option<nat>) returns (reading: Reading)
      modifies `state
      ensures (reading, state) == Read(old(state), timeout)
    {
      var (r, t) := Read(state, timeout);
      state := t;
      return r;
    }

    method Write(data: Bytes)
      modifies this
      ensures written == old(written) + [data]
      ensures state == Written(old(state), if old(reactions) == [] then [] else old(reactions)[0])
      ensures reactions == if old(reactions) == [] then [] else old(reactions)[1..]
    {
      written := written + [data];
      if reactions == [] {
        state := Written(state, []);
      } else {
        state := Written(state, reactions[0]);
        reactions := reactions[1..];
      }
    }

    method ReadUntilMatch(expected: Expected, timeout: Option<nat>) returns (outcome: Outcome)
      modifies `state
      ensures (outcome, state) == ReadUntil(old(state), expected, Start(timeout, old(state.now)), [])
    {
      var end := Start(timeout, state.now);
      var result := [];
      while !Hit(expected, result)
        invariant ReadUntil(state, expected, end, result) == ReadUntil(old(state), expected, end, [])
        decreases |state.incoming|, if end.Some? && state.now < end.value then end.value - state.now else 0
      {
        if Passed(end, state.now) {
          return TimedOut(result);
        }
        var reading := ReadOnce(Remaining(end, state.now));
        match reading
        case Data(data) => result := result + data;
        case Eof => return Ended(result);
        case Never => return Hung;
      }
      return Found(result);
    }

    method ReadToEnd(timeout: Option<nat>) returns (outcome: Outcome)
      modifies `state
      ensures (outcome, state) == ReadAll(old(state), Start(timeout, old(state.now)), [])
    {
      var end := Start(timeout, state.now);
      var result := [];
      while true
        invariant ReadAll(state, end, result) == ReadAll(old(state), end, [])
        decreases |state.incoming|, if end.Some? && state.now < end.value then end.value - state.now else 0
      {
        if Passed(end, state.now) {
          return TimedOut(result);
        }
        var reading := ReadOnce(Remaining(end, state.now));
        match reading
        case Data(data) => result := result + data;
        case Eof => return Found(result);
        case Never => return Hung;
      }
    }

    // Quiet is that no bytes arrive within the duration, and the stream doesn't end.
    method IsQuiet(duration: nat) returns (reading: Reading, quiet: bool)
      modifies `state
      ensures (reading, state) == Read(old(state), Some(duration))
      ensures var incoming := old(state.incoming);
        quiet <==>
        incoming == [] || old(state.now) + duration < incoming[0].at || (incoming[0].Chunk? && incoming[0].data == [])
    {
      reading := ReadOnce(Some(duration));
      quiet := reading == Data([]);
    }

    method WaitForQuiet(quietTime: nat, timeout: Option<nat>) returns (outcome: Quietness)
      modifies `state
      ensures (outcome, state) == WaitUntilQuiet(old(state), quietTime, Start(timeout, old(state.now)))
    {
      var end := Start(timeout, state.now);
      while Remaining(end, state.now).None? || Remaining(end, state.now).value >= quietTime
        invariant WaitUntilQuiet(state, quietTime, end) == WaitUntilQuiet(old(state), quietTime, end)
        decreases |state.incoming|
      {
        var reading, quiet := IsQuiet(quietTime);
        if reading.Eof? {
          return EndedInstead;
        }
        if quiet {
          return Quiet;
        }
      }
      return NotQuiet;
    }
  }
}
