/** Running commands in a shell over a stream: each one's output and exit code are cut out at an exit marker. */
module Shell {
  import opened Common
  import opened Deadlines
  import opened ExitPattern
  import opened Replies
  import opened Streams

  // In milliseconds.
  const SETUP_TIMEOUT := 60_000
  const SETUP_ATTEMPT_TIMEOUT := 10_000
  const RECOVERY_QUIET_TIME := 1_000

  const ENTER: Bytes := [13]
  const INTERRUPT: Bytes := [3]
  // "echo SUSA-EXIT-$?"
  const MARK_EXIT: Bytes := [101, 99, 104, 111, 32] + MARK + [36, 63]

  // How `run` ends: the last three raise, and `Hanging` doesn't end.
  datatype Run =
    | Completed(stdout: Bytes, exitCode: nat)
    | TookTooLong
    | NeverQuiet
    | StreamEnded
    | Hanging

  // The stream after the command is written, and after the interrupt is.
  datatype Reactions = Reactions(command: seq<Delayed>, interrupt: seq<Delayed>)

  // Reading up to the marker.
  function Waited(s: State, r: Reactions, timeout: Option<nat>): (Outcome, State) {
    ReadUntil(Written(s, r.command), Exit, Start(timeout, s.now), [])
  }

  // The stream once a timeout's interrupt was written, and once another marker was waited for.
  function Interrupted(s: State, r: Reactions): State {
    Written(s, r.interrupt)
  }

  function Reread(s: State): (Outcome, State) {
    ReadUntil(s, Exit, Some(s.now + SETUP_ATTEMPT_TIMEOUT), [])
  }

  function Settled(s: State): (Quietness, State) {
    WaitUntilQuiet(s, RECOVERY_QUIET_TIME, Some(s.now + SETUP_TIMEOUT))
  }

  function Recover(s: State): (Run, State) {
    var (again, t) := Reread(s);
    if again.Ended? then (StreamEnded, t)
    else if again.Hung? then (Hanging, t)
    else
      var (quiet, u) := Settled(t);
      match quiet
      case Quiet => (TookTooLong, u)
      case NotQuiet => (NeverQuiet, u)
      case EndedInstead => (StreamEnded, u)
  }

  function RunOne(s: State, r: Reactions, timeout: Option<nat>): (Run, State) {
    var (outcome, t) := Waited(s, r, timeout);
    match outcome
    case Found(output) =>
      ReadUntilInTime(Written(s, r.command), Exit, Start(timeout, s.now), []);
      (Completed(Result(output).value.0, Result(output).value.1), t)
    case TimedOut(_) => Recover(Interrupted(t, r))
    case Ended(_) => (StreamEnded, t)
    case Hung => (Hanging, t)
  }

  class ShellCommunicator {
    const stream: Stream

    constructor (stream: Stream)
      ensures this.stream == stream
    {
      this.stream := stream;
    }

    method Execute(command: Bytes, timeout: Option<nat>) returns (run: Run)
      requires |stream.reactions| >= 2
      modifies stream
      ensures var r := Reactions(old(stream.reactions)[0], old(stream.reactions)[1]);
        && (run, stream.state) == RunOne(old(stream.state), r, timeout)
        && stream.written == old(stream.written) + [command + ENTER + MARK_EXIT + ENTER]
             + if Waited(old(stream.state), r, timeout).0.TimedOut? then [INTERRUPT + MARK_EXIT + ENTER] else []
    {
      stream.Write(command + ENTER + MARK_EXIT + ENTER);
      var outcome := stream.ReadUntilMatch(Exit, timeout);
      match outcome
      case Found(output) =>
        ghost var start := Written(old(stream.state), old(stream.reactions)[0]);
        ReadUntilInTime(start, Exit, Start(timeout, old(stream.state.now)), []);
        var found := Search(output);
        var (stdout, code) := Cut(output, found.value.0);
        return Completed(stdout, code);
      case Ended(_) => return StreamEnded;
      case Hung => return Hanging;
      case TimedOut(_) => run := Interrupt();
    }

    // The interrupt may have taken the command's own marker line with it, which is why another one follows.
    method Interrupt() returns (run: Run)
      requires |stream.reactions| >= 1
      modifies stream
      ensures (run, stream.state) == Recover(Written(old(stream.state), old(stream.reactions)[0]))
      ensures stream.written == old(stream.written) + [INTERRUPT + MARK_EXIT + ENTER]
    {
      stream.Write(INTERRUPT + MARK_EXIT + ENTER);
      var again := stream.ReadUntilMatch(Exit, Some(SETUP_ATTEMPT_TIMEOUT));
      if again.Ended? {
        return StreamEnded;
      }
      if again.Hung? {
        return Hanging;
      }
      var quiet := stream.WaitForQuiet(RECOVERY_QUIET_TIME, Some(SETUP_TIMEOUT));
      match quiet
      case Quiet => return TookTooLong;
      case NotQuiet => return NeverQuiet;
      case EndedInstead => return StreamEnded;
    }
  }

  // ---- Independence of chunking ----

  // The bytes of a reaction, however they are split and delayed.
  function BytesOf(delays: seq<Delayed>): Bytes {
    if delays == [] then []
    else (if delays[0].After? then delays[0].data else []) + BytesOf(delays[1..])
  }

  lemma {:induction false} ScheduledBytes(from: nat, delays: seq<Delayed>)
    ensures Joined(Scheduled(from, delays)) == BytesOf(delays)
    decreases |delays|
  {
    if delays != [] {
      ScheduledBytes(from + delays[0].wait, delays[1..]);
      assert Scheduled(from, delays)[1..] == Scheduled(from + delays[0].wait, delays[1..]);
    }
  }

  lemma WrittenBytes(s: State, delays: seq<Delayed>)
    ensures Joined(Written(s, delays).incoming) == Joined(s.incoming) + BytesOf(delays)
  {
    var from := if s.incoming == [] then s.now else Max(s.now, s.incoming[|s.incoming| - 1].at);
    ScheduledBytes(from, delays);
    JoinedConcat(s.incoming, Scheduled(from, delays));
  }

  lemma BetweenAndRest(s: State, t: State)
    requires Follows(s, t)
    ensures Joined(s.incoming) == Between(s, t) + Joined(t.incoming)
  {
    var k := |s.incoming| - |t.incoming|;
    assert s.incoming == s.incoming[..k] + s.incoming[k..];
    JoinedConcat(s.incoming[..k], s.incoming[k..]);
  }

  lemma WaitedBytes(s: State, r: Reactions, timeout: Option<nat>)
    requires Waited(s, r, timeout).0.Found?
    ensures var (outcome, t) := Waited(s, r, timeout);
      && outcome.data + Joined(t.incoming) == Joined(s.incoming) + BytesOf(r.command)
      && Search(outcome.data).Some?
  {
    var w := Written(s, r.command);
    var (outcome, t) := Waited(s, r, timeout);
    ReadUntilInTime(w, Exit, Start(timeout, s.now), []);
    ReadUntilLosesNothing(w, Exit, Start(timeout, s.now), []);
    assert [] + Between(w, t) == Between(w, t);
    BetweenAndRest(w, t);
    WrittenBytes(s, r.command);
  }

  /** What a command returns is a function of the bytes that arrive, not of when or in which chunks they do. */
  lemma RunDependsOnlyOnBytes(s: State, r: Reactions, timeout: Option<nat>)
    requires RunOne(s, r, timeout).0.Completed?
    ensures var run := RunOne(s, r, timeout).0;
      Result(Joined(s.incoming) + BytesOf(r.command)) == Some((run.stdout, run.exitCode))
  {
    WaitedBytes(s, r, timeout);
    var (outcome, t) := Waited(s, r, timeout);
    ResultIsStable(outcome.data, Joined(t.incoming));
  }

  /** And it is an exchange of the pending bytes and the command's, whose rest is what is still to arrive. */
  lemma RunExchanges(s: State, r: Reactions, timeout: Option<nat>, output: Bytes, code: nat)
    requires RunOne(s, r, timeout).0.Completed? && BytesOf(r.command) == output + Marker(code)
    ensures var (run, t) := RunOne(s, r, timeout);
      Exchanged(Joined(s.incoming), output, code, |Joined(t.incoming)|)
      == Reply(run.stdout, run.exitCode, Joined(t.incoming))
  {
    var (outcome, t) := Waited(s, r, timeout);
    WaitedBytes(s, r, timeout);
    Regroup(Joined(s.incoming), output, Marker(code));
    ExchangedFrom(outcome.data, Joined(t.incoming), Joined(s.incoming), output, code);
  }

  lemma ExchangedFrom(data: Bytes, rest: Bytes, pending: Bytes, output: Bytes, code: nat)
    requires Search(data).Some? && data + rest == pending + output + Marker(code)
    ensures var (stdout, exitCode) := Result(data).value;
      Exchanged(pending, output, code, |rest|) == Reply(stdout, exitCode, rest)
  {
    SearchIsStable(data, rest);
    ResultIsStable(data, rest);
    MatchEnds(data, Search(data).value.0);
  }

  lemma ResultIsStable(s: Bytes, t: Bytes)
    requires Search(s).Some?
    ensures Result(s + t) == Result(s)
  {
    SearchIsStable(s, t);
    var (m, e) := Search(s).value;
    MatchEnds(s, m);
    assert (s + t)[..m] == s[..m];
    DigitsEndUnique(s + t, m + |MARK|, DigitsEnd(s, m + |MARK|));
    assert (s + t)[m + |MARK|..DigitsEnd(s, m + |MARK|)] == s[m + |MARK|..DigitsEnd(s, m + |MARK|)];
  }

  // The stream stays open, and all arrives before the deadline.
  ghost predicate AllBefore(incoming: seq<Arrival>, end: Deadline) {
    forall a | a in incoming :: a.Chunk? && (end.Some? ==> a.at < end.value)
  }

  // A marker that arrives before the deadline is found.
  lemma {:induction false} MarkerIsFound(s: State, end: Deadline, result: Bytes)
    requires Search(result + Joined(s.incoming)).Some?
    requires AllBefore(s.incoming, end)
    requires end.Some? ==> s.now < end.value
    ensures ReadUntil(s, Exit, end, result).0.Found?
    decreases |s.incoming|
  {
    if s.incoming == [] {
      assert result + [] == result;
    } else if !Hit(Exit, result) {
      assert s.incoming[0] in s.incoming;
      var t := Read(s, Remaining(end, s.now)).1;
      assert result + Joined(s.incoming) == (result + s.incoming[0].data) + Joined(t.incoming);
      MarkerIsFound(t, end, result + s.incoming[0].data);
    }
  }

  // All that is pending and that the command makes arrive does before its time limit, if it has one.
  ghost predicate ArrivesInTime(s: State, r: Reactions, timeout: Option<nat>) {
    AllBefore(Written(s, r.command).incoming, Start(timeout, s.now))
  }

  lemma MarkerIsFoundAtFirst(w: State, end: Deadline, bytes: Bytes)
    requires Joined(w.incoming) == bytes && Search(bytes).Some?
    requires AllBefore(w.incoming, end) && (end.Some? ==> w.now < end.value)
    ensures ReadUntil(w, Exit, end, []).0.Found?
  {
    assert [] + bytes == bytes;
    MarkerIsFound(w, end, []);
  }

  lemma FoundInTime(s: State, r: Reactions, timeout: Option<nat>)
    requires timeout != Some(0) && ArrivesInTime(s, r, timeout)
    requires Search(Joined(s.incoming) + BytesOf(r.command)).Some?
    ensures Waited(s, r, timeout).0.Found?
  {
    WrittenBytes(s, r.command);
    MarkerIsFoundAtFirst(Written(s, r.command), Start(timeout, s.now), Joined(s.incoming) + BytesOf(r.command));
  }

  lemma CompletesInTime(s: State, r: Reactions, timeout: Option<nat>)
    requires timeout != Some(0) && ArrivesInTime(s, r, timeout)
    requires Search(Joined(s.incoming) + BytesOf(r.command)).Some?
    ensures var run := RunOne(s, r, timeout).0;
      run.Completed? && Result(Joined(s.incoming) + BytesOf(r.command)) == Some((run.stdout, run.exitCode))
  {
    FoundInTime(s, r, timeout);
    RunDependsOnlyOnBytes(s, r, timeout);
  }

  /**
   A command whose output and marker arrive in time, in any chunks, returns its exit code and that output, after any
   bytes still pending from before, if and only if these have no marker themselves.
   */
  lemma FramedCommand(s: State, r: Reactions, timeout: Option<nat>, out: Bytes, code: nat)
    requires timeout != Some(0) && ArrivesInTime(s, r, timeout) && BytesOf(r.command) == out + Marker(code)
    ensures RunOne(s, r, timeout).0 == Completed(Joined(s.incoming) + out, code) <==>
            Search(Joined(s.incoming) + out).None?
  {
    Regroup(Joined(s.incoming), out, Marker(code));
    WholeFrames(Joined(s.incoming) + out, code);
    CompletesInTime(s, r, timeout);
  }

  // ---- Recovery ----

  /**
   When a timeout leaves `run` after its quiet window, nothing is left in the stream if nothing arrives later: however
   much stale output and however many markers came, none is credited to a later command.
   */
  lemma Resynchronised(s: State, r: Reactions, timeout: Option<nat>)
    requires RunOne(s, r, timeout).0.TookTooLong?
    requires Settling(s, r, timeout)
    ensures RunOne(s, r, timeout).1.incoming == []
  {
    var i := Interrupted(Waited(s, r, timeout).1, r);
    ReadUntilLosesNothing(i, Exit, Some(i.now + SETUP_ATTEMPT_TIMEOUT), []);
    SettledIsEmpty(Reread(i).1);
  }

  lemma SettledIsEmpty(t: State)
    requires Settled(t).0.Quiet? && Genuine(t.incoming)
    requires forall a | a in t.incoming :: a.at <= Settled(t).1.now
    ensures Settled(t).1.incoming == []
  {
    QuietIsQuiet(t, RECOVERY_QUIET_TIME, Some(t.now + SETUP_TIMEOUT));
    var u := Settled(t).1;
    assert forall a | a in u.incoming :: a in t.incoming;
  }

  // Nothing arrives after the quiet window that ended the recovery.
  ghost predicate Settling(s: State, r: Reactions, timeout: Option<nat>) {
    var i := Interrupted(Waited(s, r, timeout).1, r);
    Genuine(i.incoming) && forall a | a in i.incoming :: a.at <= RunOne(s, r, timeout).1.now
  }

  /**
   That is so in particular if what the shell writes, for the command and for the interrupt, never pauses for longer
   than the quiet window.
   */
  lemma PromptResynchronises(s: State, r: Reactions, timeout: Option<nat>)
    requires RunOne(s, r, timeout).0.TookTooLong? && s.incoming == []
    requires Prompt(r.command, RECOVERY_QUIET_TIME) && Prompt(r.interrupt, RECOVERY_QUIET_TIME)
    ensures RunOne(s, r, timeout).1.incoming == []
  {
    var w := Written(s, r.command);
    WrittenIsDense(s, r.command, RECOVERY_QUIET_TIME);
    ReadUntilStaysDense(w, Exit, Start(timeout, s.now), [], RECOVERY_QUIET_TIME);
    WrittenIsDense(Waited(s, r, timeout).1, r.interrupt, RECOVERY_QUIET_TIME);
    var i := Interrupted(Waited(s, r, timeout).1, r);
    ReadUntilStaysDense(i, Exit, Some(i.now + SETUP_ATTEMPT_TIMEOUT), [], RECOVERY_QUIET_TIME);
    var t := Reread(i).1;
    QuietDrains(t, RECOVERY_QUIET_TIME, Some(t.now + SETUP_TIMEOUT));
  }

  // ---- When a timeout is raised as such ----

  // The stream isn't closed by what is pending, or in reaction to the command or to the interrupt.
  ghost predicate StaysOpen(s: State, r: Reactions) {
    && (forall a | a in s.incoming :: a.Chunk?)
    && (forall d | d in r.command :: d.After?) && (forall d | d in r.interrupt :: d.After?)
  }

  lemma {:induction false} ScheduledChunks(from: nat, delays: seq<Delayed>)
    requires forall d | d in delays :: d.After?
    ensures forall a | a in Scheduled(from, delays) :: a.Chunk?
    decreases |delays|
  {
    if delays != [] {
      assert delays[0] in delays;
      ScheduledChunks(from + delays[0].wait, delays[1..]);
    }
  }

  lemma WrittenChunks(s: State, delays: seq<Delayed>)
    requires (forall a | a in s.incoming :: a.Chunk?) && forall d | d in delays :: d.After?
    ensures forall a | a in Written(s, delays).incoming :: a.Chunk?
  {
    var from := if s.incoming == [] then s.now else Max(s.now, s.incoming[|s.incoming| - 1].at);
    ScheduledChunks(from, delays);
  }

  lemma OpenNeverEnds(s: State, end: Deadline)
    requires forall a | a in s.incoming :: a.Chunk?
    ensures var (outcome, t) := ReadUntil(s, Exit, end, []);
      !outcome.Ended? && forall a | a in t.incoming :: a in s.incoming
  {
    var n := ReadUntilStops(s, Exit, end, []);
    ReadUntilLosesNothing(s, Exit, end, []);
  }

  lemma OpenSettles(s: State, quiet: nat, end: Deadline)
    requires forall a | a in s.incoming :: a.Chunk?
    ensures !WaitUntilQuiet(s, quiet, end).0.EndedInstead?
  {
    var n := QuietStops(s, quiet, end);
  }

  /** The end of the stream is raised only if the stream was closed. */
  lemma EndsOnlyIfClosed(s: State, r: Reactions, timeout: Option<nat>)
    requires StaysOpen(s, r)
    ensures !RunOne(s, r, timeout).0.StreamEnded?
  {
    WrittenChunks(s, r.command);
    OpenNeverEnds(Written(s, r.command), Start(timeout, s.now));
    var t := Waited(s, r, timeout).1;
    WrittenChunks(t, r.interrupt);
    var i := Interrupted(t, r);
    OpenNeverEnds(i, Some(i.now + SETUP_ATTEMPT_TIMEOUT));
    var u := Reread(i).1;
    OpenSettles(u, RECOVERY_QUIET_TIME, Some(u.now + SETUP_TIMEOUT));
  }

  // All that is still to arrive does so a full window before the recovery's time is up at the latest.
  ghost predicate SettlesInTime(s: State) {
    forall a | a in s.incoming :: a.at + RECOVERY_QUIET_TIME <= s.now + SETUP_TIMEOUT
  }

  lemma {:induction false} ReadByLatest(s: State, n: nat, latest: nat)
    requires n <= |s.incoming| && s.now <= latest && forall a | a in s.incoming :: a.at <= latest
    ensures ReadBy(s, n) <= latest
  {
    if n > 0 {
      assert s.incoming[n - 1] in s.incoming;
      ReadByLatest(s, n - 1, latest);
    }
  }

  lemma SettlesQuiet(s: State)
    requires forall a | a in s.incoming :: a.Chunk? && a.at + RECOVERY_QUIET_TIME <= s.now + SETUP_TIMEOUT
    ensures Settled(s).0.Quiet?
  {
    var n := QuietStops(s, RECOVERY_QUIET_TIME, Some(s.now + SETUP_TIMEOUT));
    ReadByLatest(s, n, s.now + SETUP_TIMEOUT - RECOVERY_QUIET_TIME);
  }

  /** A command that takes too long raises just that if the stream stays open and is quiet in time. */
  lemma TimeoutIsRaised(s: State, r: Reactions, timeout: Option<nat>)
    requires Waited(s, r, timeout).0.TimedOut? && StaysOpen(s, r)
    requires SettlesInTime(Interrupted(Waited(s, r, timeout).1, r))
    ensures RunOne(s, r, timeout).0.TookTooLong?
  {
    WrittenChunks(s, r.command);
    OpenNeverEnds(Written(s, r.command), Start(timeout, s.now));
    var t := Waited(s, r, timeout).1;
    WrittenChunks(t, r.interrupt);
    var i := Interrupted(t, r);
    OpenNeverEnds(i, Some(i.now + SETUP_ATTEMPT_TIMEOUT));
    ReadUntilInTime(i, Exit, Some(i.now + SETUP_ATTEMPT_TIMEOUT), []);
    ReadUntilLosesNothing(i, Exit, Some(i.now + SETUP_ATTEMPT_TIMEOUT), []);
    SettlesQuiet(Reread(i).1);
  }

  // The stream stays open, a timeout's recovery is quiet in time, and without a time limit a marker arrives.
  ghost predicate Returns(s: State, r: Reactions, timeout: Option<nat>) {
    && StaysOpen(s, r)
    && (Waited(s, r, timeout).0.TimedOut? ==> SettlesInTime(Interrupted(Waited(s, r, timeout).1, r)))
    && (timeout.None? ==> Search(Joined(s.incoming) + BytesOf(r.command)).Some?)
  }

  /** Then a command completes or raises its timeout. */
  lemma CompletesOrTimesOut(s: State, r: Reactions, timeout: Option<nat>)
    requires Returns(s, r, timeout)
    ensures var run := RunOne(s, r, timeout).0; run.Completed? || run.TookTooLong?
  {
    EndsOnlyIfClosed(s, r, timeout);
    WrittenChunks(s, r.command);
    if timeout.Some? {
      ReadUntilInTime(Written(s, r.command), Exit, Start(timeout, s.now), []);
    } else {
      FoundInTime(s, r, timeout);
    }
    if Waited(s, r, timeout).0.TimedOut? {
      TimeoutIsRaised(s, r, timeout);
    }
  }

  /**
   A timeout is raised only after the time limit, and never without one, whether or not the recovery gets quiet. Only
   without a limit may a command not return, and on an open stream only if there is no marker.
   */
  lemma TimesOutOnlyLate(s: State, r: Reactions, timeout: Option<nat>)
    ensures var (run, t) := RunOne(s, r, timeout);
      && (run.TookTooLong? || run.NeverQuiet? ==> timeout.Some? && s.now + timeout.value <= t.now)
      && (run.Hanging? ==>
            timeout.None? && (StaysOpen(s, r) ==> Search(Joined(s.incoming) + BytesOf(r.command)).None?))
  {
    var w := Written(s, r.command);
    ReadUntilInTime(w, Exit, Start(timeout, s.now), []);
    var (outcome, t) := Waited(s, r, timeout);
    RecoverInTime(Interrupted(t, r));
    RecoverTakesTime(Interrupted(t, r));
    if outcome.Hung? && StaysOpen(s, r) && Search(Joined(s.incoming) + BytesOf(r.command)).Some? {
      WrittenChunks(s, r.command);
      FoundInTime(s, r, timeout);
    }
  }

  lemma RecoverTakesTime(i: State)
    ensures i.now <= Recover(i).1.now
  {
    ReadUntilLosesNothing(i, Exit, Some(i.now + SETUP_ATTEMPT_TIMEOUT), []);
    var t := Reread(i).1;
    QuietInTime(t, RECOVERY_QUIET_TIME, Some(t.now + SETUP_TIMEOUT));
  }

  /**
   However long the shell is silent before the marker that it prints after the interrupt, that marker is waited for, so
   that it isn't left for a later command.
   */
  lemma LateMarkerIsAwaited(s: State, r: Reactions, timeout: Option<nat>, out: Bytes, code: nat)
    requires Waited(s, r, timeout).0.TimedOut? && Search(out).None?
    requires var i := Interrupted(Waited(s, r, timeout).1, r);
      && AllBefore(i.incoming, Some(i.now + SETUP_ATTEMPT_TIMEOUT)) && Genuine(i.incoming)
      && Joined(i.incoming) == out + Marker(code)
    ensures RunOne(s, r, timeout).0.TookTooLong? && RunOne(s, r, timeout).1.incoming == []
  {
    var i := Interrupted(Waited(s, r, timeout).1, r);
    RereadTakesAll(i, out, code);
    var t := Reread(i).1;
    SettlesQuiet(t);
    SettledIsEmpty(t);
  }

  lemma RereadTakesAll(i: State, out: Bytes, code: nat)
    requires AllBefore(i.incoming, Some(i.now + SETUP_ATTEMPT_TIMEOUT)) && Genuine(i.incoming)
    requires Search(out).None? && Joined(i.incoming) == out + Marker(code)
    ensures Reread(i).0.Found? && Reread(i).1.incoming == []
  {
    WholeFrames(out, code);
    MarkerIsFoundAtFirst(i, Some(i.now + SETUP_ATTEMPT_TIMEOUT), out + Marker(code));
    RereadBytes(i);
    var (found, t) := Reread(i);
    FrameTakesAll(out, code, found.data, Joined(t.incoming));
    NothingJoined(t.incoming);
  }

  lemma RereadBytes(i: State)
    requires Reread(i).0.Found?
    ensures var (found, t) := Reread(i);
      && found.data + Joined(t.incoming) == Joined(i.incoming) && Search(found.data).Some?
      && forall a | a in t.incoming :: a in i.incoming
  {
    var end := Some(i.now + SETUP_ATTEMPT_TIMEOUT);
    ReadUntilInTime(i, Exit, end, []);
    ReadUntilLosesNothing(i, Exit, end, []);
    var t := Reread(i).1;
    BetweenAndRest(i, t);
    assert [] + Between(i, t) == Between(i, t);
  }

  // The first marker of a framed output is its end.
  lemma FrameTakesAll(out: Bytes, code: nat, data: Bytes, rest: Bytes)
    requires Search(out).None? && Search(data).Some? && data + rest == out + Marker(code)
    ensures rest == []
  {
    assert data <= data + rest;
    WholeFrame(out, code, data);
  }

  lemma NothingJoined(incoming: seq<Arrival>)
    requires Joined(incoming) == [] && forall a | a in incoming :: a.Chunk? && a.data != []
    ensures incoming == []
  {
  }

  lemma RecoverInTime(i: State)
    ensures Recover(i).1.now <= i.now + SETUP_ATTEMPT_TIMEOUT + SETUP_TIMEOUT && !Recover(i).0.Hanging?
  {
    ReadUntilInTime(i, Exit, Some(i.now + SETUP_ATTEMPT_TIMEOUT), []);
    var t := Reread(i).1;
    QuietInTime(t, RECOVERY_QUIET_TIME, Some(t.now + SETUP_TIMEOUT));
  }

  /** Even with its recovery, a command with a time limit returns in bounded time. */
  lemma RunInTime(s: State, r: Reactions, timeout: nat)
    ensures RunOne(s, r, Some(timeout)).1.now <= s.now + timeout + SETUP_ATTEMPT_TIMEOUT + SETUP_TIMEOUT
    ensures !RunOne(s, r, Some(timeout)).0.Hanging?
  {
    ReadUntilInTime(Written(s, r.command), Exit, Some(s.now + timeout), []);
    RecoverInTime(Interrupted(Waited(s, r, Some(timeout)).1, r));
  }

  // ---- Sessions ----

  // A command, its time limit, and what the shell would write for it if let finish.
  datatype Command = Command(timeout: Option<nat>, reactions: Reactions, out: Bytes, code: nat)

  function Session(s: State, commands: seq<Command>): (runs: seq<Run>)
    ensures |runs| <= |commands|
    decreases |commands|
  {
    if commands == [] then []
    else
      var (run, t) := RunOne(s, commands[0].reactions, commands[0].timeout);
      if run.Completed? || run.TookTooLong? then [run] + Session(t, commands[1..]) else [run]
  }

  ghost predicate AllReturn(s: State, commands: seq<Command>)
    decreases |commands|
  {
    commands != [] ==>
      && Returns(s, commands[0].reactions, commands[0].timeout)
      && AllReturn(RunOne(s, commands[0].reactions, commands[0].timeout).1, commands[1..])
  }

  /** A session of such commands runs to its last one, whichever of them take too long. */
  lemma {:induction false} SessionLasts(s: State, commands: seq<Command>)
    requires AllReturn(s, commands)
    ensures |Session(s, commands)| == |commands|
    ensures forall run | run in Session(s, commands) :: run.Completed? || run.TookTooLong?
    decreases |commands|
  {
    if commands != [] {
      var c := commands[0];
      CompletesOrTimesOut(s, c.reactions, c.timeout);
      SessionLasts(RunOne(s, c.reactions, c.timeout).1, commands[1..]);
    }
  }

  ghost predicate NeverPauses(s: State, r: Reactions) {
    s.incoming == [] && Prompt(r.command, RECOVERY_QUIET_TIME) && Prompt(r.interrupt, RECOVERY_QUIET_TIME)
  }

  // Commands print no markers, write nothing but their framed output (all or some of it), and recoveries settle.
  ghost predicate WellBehaved(s: State, commands: seq<Command>)
    decreases |commands|
  {
    commands != [] ==>
      var c := commands[0];
      var (run, t) := RunOne(s, c.reactions, c.timeout);
      && Search(c.out).None?
      && BytesOf(c.reactions.command) <= c.out + Marker(c.code)
      && (run.TookTooLong? ==> Settling(s, c.reactions, c.timeout) || NeverPauses(s, c.reactions))
      && (run.Completed? || run.TookTooLong? ==> WellBehaved(t, commands[1..]))
  }

  lemma WholeFrame(out: Bytes, code: nat, data: Bytes)
    requires Search(out).None? && Search(data).Some? && data <= out + Marker(code)
    ensures data == out + Marker(code) && Result(data) == Some((out, code))
  {
    var framed := out + Marker(code);
    assert data == framed[..|data|];
    if |data| < |framed| {
      FramedIsMinimal(out, code, |data|);
    }
    assert data == framed == framed + [];
    FramedResult(out, code, []);
  }

  lemma CompletedIsExact(s: State, c: Command)
    requires Joined(s.incoming) == []
    requires Search(c.out).None? && BytesOf(c.reactions.command) <= c.out + Marker(c.code)
    requires RunOne(s, c.reactions, c.timeout).0.Completed?
    ensures RunOne(s, c.reactions, c.timeout).0 == Completed(c.out, c.code)
    ensures Joined(RunOne(s, c.reactions, c.timeout).1.incoming) == []
  {
    WaitedBytes(s, c.reactions, c.timeout);
    var (outcome, t) := Waited(s, c.reactions, c.timeout);
    assert [] + BytesOf(c.reactions.command) == BytesOf(c.reactions.command);
    assert outcome.data <= c.out + Marker(c.code);
    WholeFrame(c.out, c.code, outcome.data);
  }

  /**
   In any session of well-behaved commands, with any time limits, chunks and delays, every command that completes
   returns exactly its own output and exit code: no timeout before it desynchronises it.
   */
  lemma {:induction false} SessionIsExact(s: State, commands: seq<Command>)
    requires Joined(s.incoming) == [] && WellBehaved(s, commands)
    ensures forall i | 0 <= i < |Session(s, commands)| && Session(s, commands)[i].Completed? ::
      Session(s, commands)[i] == Completed(commands[i].out, commands[i].code)
    decreases |commands|
  {
    if commands != [] {
      var c := commands[0];
      var (run, t) := RunOne(s, c.reactions, c.timeout);
      if run.Completed? {
        CompletedIsExact(s, c);
        SessionIsExact(t, commands[1..]);
      } else if run.TookTooLong? {
        if Settling(s, c.reactions, c.timeout) {
          Resynchronised(s, c.reactions, c.timeout);
        } else {
          PromptResynchronises(s, c.reactions, c.timeout);
        }
        SessionIsExact(t, commands[1..]);
      }
    }
  }
}
