/**
 Running a command on the host and waiting for it while two threads drain its outputs through pipes of bounded capacity,
 as a system of atomic steps: the command's and what it left behind's writes, the two readers, and the waiting thread.
 */
module AsyncRun {
  import opened Common

  datatype Write = Write(to: Which, data: Bytes)

  // An output: everything written to it, what of that is still in the pipe, what its reader got, and whether that
  // ended.
  datatype Pipe = Pipe(written: Bytes, buffer: Bytes, got: Bytes, ended: bool)

  datatype Waiter = Waiting | JoiningOut | JoiningErr | Returned(stdout: Bytes, stderr: Bytes)

  // `concurrent` says that the readers run while the command is waited for, as they do; `todo` is what the command
  // still writes before it exits, and `leftover` what processes it left behind (which hold the pipes too) still
  // write. These are killed with the command's process group, unless they left it (`escaped`).
  datatype State = State(
    capacity: nat, concurrent: bool, todo: seq<Write>, exited: bool,
    leftover: seq<Write>, lingering: bool, escaped: bool,
    out: Pipe, err: Pipe, waiter: Waiter)

  const EMPTY := Pipe([], [], [], false)

  // What a command leaves behind, if anything: what that writes, and whether it left the process group.
  datatype Leftover = Leftover(writes: seq<Write>, escaped: bool)

  function Initial(capacity: nat, concurrent: bool, program: seq<Write>, left: Option<Leftover>): State {
    State(
      capacity, concurrent, program, false, if left.Some? then left.value.writes else [], left.Some?,
      left.Some? && left.value.escaped, EMPTY, EMPTY, Waiting)
  }

  // The command, or what it left behind, writes the first n bytes of its next write; finishes a write; or exits. A
  // reader gets n bytes or sees the end. The waiter sees the exit (and kills what is left of the group), and joins
  // each reader.
  datatype Step =
    | Emit(n: nat) | Next | Exit
    | LeftEmit(n: nat) | LeftNext | LeftExit
    | Drain(which: Which, n: nat) | SeeEnd(which: Which)
    | SeeExit | JoinOut | JoinErr

  function PipeOf(s: State, which: Which): Pipe {
    if which.Out? then s.out else s.err
  }

  function WithPipe(s: State, which: Which, p: Pipe): State {
    if which.Out? then s.(out := p) else s.(err := p)
  }

  predicate Fits(s: State, writes: seq<Write>, n: nat) {
    && writes != [] && 0 < n <= |writes[0].data|
    && |PipeOf(s, writes[0].to).buffer| + n <= s.capacity
  }

  predicate Reading(s: State) {
    s.concurrent || !s.waiter.Waiting?
  }

  predicate Enabled(s: State, step: Step) {
    match step
    case Emit(n) => !s.exited && Fits(s, s.todo, n)
    case Next => !s.exited && s.todo != [] && s.todo[0].data == []
    case Exit => !s.exited && s.todo == []
    case LeftEmit(n) => s.lingering && Fits(s, s.leftover, n)
    case LeftNext => s.lingering && s.leftover != [] && s.leftover[0].data == []
    case LeftExit => s.lingering && s.leftover == []
    case Drain(which, n) => Reading(s) && !PipeOf(s, which).ended && 0 < n <= |PipeOf(s, which).buffer|
    case SeeEnd(which) =>
      Reading(s) && !PipeOf(s, which).ended && PipeOf(s, which).buffer == [] && s.exited && !s.lingering
    case SeeExit => s.waiter.Waiting? && s.exited
    case JoinOut => s.waiter.JoiningOut? && s.out.ended
    case JoinErr => s.waiter.JoiningErr? && s.err.ended
  }

  function Put(s: State, w: Write, n: nat): State
    requires n <= |w.data|
  {
    var p := PipeOf(s, w.to);
    WithPipe(s, w.to, p.(written := p.written + w.data[..n], buffer := p.buffer + w.data[..n]))
  }

  function Apply(s: State, step: Step): State
    requires Enabled(s, step)
  {
    match step
    case Emit(n) =>
      var w := s.todo[0];
      Put(s, w, n).(todo := [w.(data := w.data[n..])] + s.todo[1..])
    case Next => s.(todo := s.todo[1..])
    case Exit => s.(exited := true)
    case LeftEmit(n) =>
      var w := s.leftover[0];
      Put(s, w, n).(leftover := [w.(data := w.data[n..])] + s.leftover[1..])
    case LeftNext => s.(leftover := s.leftover[1..])
    case LeftExit => s.(lingering := false)
    case Drain(which, n) =>
      var p := PipeOf(s, which);
      WithPipe(s, which, p.(buffer := p.buffer[n..], got := p.got + p.buffer[..n]))
    case SeeEnd(which) => WithPipe(s, which, PipeOf(s, which).(ended := true))
    case SeeExit =>
      if s.escaped then s.(waiter := JoiningOut) else s.(lingering := false, leftover := [], waiter := JoiningOut)
    case JoinOut => s.(waiter := JoiningErr)
    case JoinErr => s.(waiter := Returned(s.out.got, s.err.got))
  }

  function Exec(s: State, steps: seq<Step>): Option<State>
    decreases |steps|
  {
    if steps == [] then Some(s)
    else if Enabled(s, steps[0]) then Exec(Apply(s, steps[0]), steps[1..])
    else None
  }

  // ---- Safety ----

  // Everything written to an output is in its reader's hands or still in the pipe, in order.
  predicate Whole(s: State, p: Pipe) {
    && p.written == p.got + p.buffer
    && |p.buffer| <= s.capacity
    && (p.ended ==> p.buffer == [] && s.exited && !s.lingering)
  }

  predicate Invariant(s: State) {
    && Whole(s, s.out) && Whole(s, s.err)
    && (!s.waiter.Waiting? ==> s.exited && (s.lingering ==> s.escaped))
    && (s.waiter.JoiningErr? || s.waiter.Returned? ==> s.out.ended)
    && (s.waiter.Returned? ==> s.err.ended && s.waiter.stdout == s.out.got && s.waiter.stderr == s.err.got)
  }

  lemma PutKeepsWhole(s: State, w: Write, n: nat)
    requires Whole(s, s.out) && Whole(s, s.err) && n <= |w.data|
    requires |PipeOf(s, w.to).buffer| + n <= s.capacity && (!s.exited || s.lingering)
    ensures Whole(s, Put(s, w, n).out) && Whole(s, Put(s, w, n).err)
  {
    var p := PipeOf(s, w.to);
    assert p.got + p.buffer + w.data[..n] == p.got + (p.buffer + w.data[..n]);
  }

  lemma DrainKeepsWhole(s: State, p: Pipe, n: nat)
    requires Whole(s, p) && n <= |p.buffer|
    ensures p.written == p.got + p.buffer[..n] + p.buffer[n..]
  {
    assert p.buffer == p.buffer[..n] + p.buffer[n..];
  }

  lemma EmitPreserves(s: State, step: Step)
    requires Invariant(s) && Enabled(s, step) && (step.Emit? || step.LeftEmit?)
    ensures Invariant(Apply(s, step))
  {
    PutKeepsWhole(s, if step.Emit? then s.todo[0] else s.leftover[0], step.n);
  }

  lemma DrainPreserves(s: State, step: Step)
    requires Invariant(s) && Enabled(s, step) && step.Drain?
    ensures Invariant(Apply(s, step))
  {
    DrainKeepsWhole(s, PipeOf(s, step.which), step.n);
  }

  lemma Preserved(s: State, step: Step)
    requires Invariant(s) && Enabled(s, step)
    ensures Invariant(Apply(s, step))
  {
    match step
    case Emit(_) => EmitPreserves(s, step);
    case LeftEmit(_) => EmitPreserves(s, step);
    case Drain(_, _) => DrainPreserves(s, step);
    case _ =>
  }

  lemma {:induction false} RunsKeep(s: State, steps: seq<Step>)
    requires Invariant(s) && Exec(s, steps).Some?
    ensures Invariant(Exec(s, steps).value)
    decreases |steps|
  {
    if steps != [] {
      Preserved(s, steps[0]);
      RunsKeep(Apply(s, steps[0]), steps[1..]);
    }
  }

  // What the command still writes to an output.
  function Pending(writes: seq<Write>, which: Which): Bytes {
    if writes == [] then []
    else (if writes[0].to == which then writes[0].data else []) + Pending(writes[1..], which)
  }

  lemma EmitConserves(s: State, step: Step, which: Which)
    requires Enabled(s, step) && step.Emit?
    ensures var t := Apply(s, step);
      PipeOf(t, which).written + Pending(t.todo, which) == PipeOf(s, which).written + Pending(s.todo, which)
  {
    var w, t, rest := s.todo[0], Apply(s, step), Pending(s.todo[1..], which);
    assert t.todo[1..] == s.todo[1..];
    if w.to == which {
      Regroup(PipeOf(s, which).written, w.data[..step.n], w.data[step.n..] + rest);
      Regroup(w.data[..step.n], w.data[step.n..], rest);
      assert w.data == w.data[..step.n] + w.data[step.n..];
    }
  }

  // The command's own output, if it left nothing behind: what it wrote and what it has yet to.
  lemma OutputConserved(s: State, step: Step, which: Which)
    requires Enabled(s, step) && !s.lingering
    ensures var t := Apply(s, step);
      && !t.lingering
      && PipeOf(t, which).written + Pending(t.todo, which) == PipeOf(s, which).written + Pending(s.todo, which)
  {
    match step
    case Emit(_) => EmitConserves(s, step, which);
    case _ =>
  }

  lemma {:induction false} OutputConservedByRuns(s: State, steps: seq<Step>, which: Which)
    requires Exec(s, steps).Some? && !s.lingering
    ensures var t := Exec(s, steps).value;
      PipeOf(t, which).written + Pending(t.todo, which) == PipeOf(s, which).written + Pending(s.todo, which)
    decreases |steps|
  {
    if steps != [] {
      OutputConserved(s, steps[0], which);
      OutputConservedByRuns(Apply(s, steps[0]), steps[1..], which);
    }
  }

  lemma {:induction false} ExitsDone(s: State, steps: seq<Step>)
    requires Exec(s, steps).Some? && (s.exited ==> s.todo == [])
    ensures Exec(s, steps).value.exited ==> Exec(s, steps).value.todo == []
    decreases |steps|
  {
    if steps != [] {
      ExitsDone(Apply(s, steps[0]), steps[1..]);
    }
  }

  /** Whatever the interleaving and the pipes' capacity, what is returned is exactly what was written, in order. */
  lemma ReturnsWhatWasWritten(s: State, steps: seq<Step>)
    requires Invariant(s) && Exec(s, steps).Some? && Exec(s, steps).value.waiter.Returned?
    ensures var t := Exec(s, steps).value;
      t.exited && t.waiter.stdout == t.out.written && t.waiter.stderr == t.err.written
  {
    RunsKeep(s, steps);
    var t := Exec(s, steps).value;
    assert t.out.got + [] == t.out.got && t.err.got + [] == t.err.got;
  }

  // In particular the whole of the command's program, when it left nothing behind.
  lemma ReturnsTheProgram(capacity: nat, program: seq<Write>, steps: seq<Step>)
    requires var s := Initial(capacity, true, program, None);
      Exec(s, steps).Some? && Exec(s, steps).value.waiter.Returned?
    ensures var t := Exec(Initial(capacity, true, program, None), steps).value;
      t.waiter == Returned(Pending(program, Out), Pending(program, Err))
  {
    var s := Initial(capacity, true, program, None);
    var t := Exec(s, steps).value;
    ReturnsWhatWasWritten(s, steps);
    ExitsDone(s, steps);
    OutputConservedByRuns(s, steps, Out);
    OutputConservedByRuns(s, steps, Err);
    assert t.out.written + [] == t.out.written && t.err.written + [] == t.err.written;
    assert [] + Pending(program, Out) == Pending(program, Out) && [] + Pending(program, Err) == Pending(program, Err);
  }

  // ---- Progress ----

  function Volume(writes: seq<Write>): nat {
    if writes == [] then 0 else 1 + 2 * |writes[0].data| + Volume(writes[1..])
  }

  function Flag(b: bool): nat {
    if b then 1 else 0
  }

  function Buffered(s: State): nat {
    |s.out.buffer| + |s.err.buffer|
  }

  // The steps left of the threads, other than moving bytes.
  function PhasesLeft(s: State): nat {
    Flag(!s.exited) + Flag(s.lingering) + Flag(!s.out.ended) + Flag(!s.err.ended)
    + (match s.waiter case Waiting => 3 case JoiningOut => 2 case JoiningErr => 1 case Returned(_, _) => 0)
  }

  // How many steps are left at most.
  function Left(s: State): nat {
    Volume(s.todo) + Volume(s.leftover) + Buffered(s) + PhasesLeft(s)
  }

  lemma Shortened(writes: seq<Write>, n: nat)
    requires writes != [] && n <= |writes[0].data|
    ensures var w := writes[0];
      Volume([w.(data := w.data[n..])] + writes[1..]) + 2 * n == Volume(writes)
  {
    var w := writes[0];
    assert ([w.(data := w.data[n..])] + writes[1..])[1..] == writes[1..];
  }

  lemma PutBuffers(s: State, w: Write, n: nat)
    requires n <= |w.data|
    ensures var t := Put(s, w, n);
      && Buffered(t) == Buffered(s) + n && PhasesLeft(t) == PhasesLeft(s)
      && t.todo == s.todo && t.leftover == s.leftover
  {
  }

  lemma EmitDecreases(s: State, step: Step)
    requires Enabled(s, step) && step.Emit?
    ensures Left(Apply(s, step)) < Left(s)
  {
    Shortened(s.todo, step.n);
    PutBuffers(s, s.todo[0], step.n);
  }

  lemma LeftEmitDecreases(s: State, step: Step)
    requires Enabled(s, step) && step.LeftEmit?
    ensures Left(Apply(s, step)) < Left(s)
  {
    Shortened(s.leftover, step.n);
    PutBuffers(s, s.leftover[0], step.n);
  }

  lemma DrainDecreases(s: State, step: Step)
    requires Enabled(s, step) && step.Drain?
    ensures Left(Apply(s, step)) < Left(s)
  {
    var t := Apply(s, step);
    assert |PipeOf(t, step.which).buffer| == |PipeOf(s, step.which).buffer| - step.n;
    assert PhasesLeft(t) == PhasesLeft(s);
  }

  lemma Decreases(s: State, step: Step)
    requires Enabled(s, step)
    ensures Left(Apply(s, step)) < Left(s)
  {
    match step
    case Emit(_) => EmitDecreases(s, step);
    case LeftEmit(_) => LeftEmitDecreases(s, step);
    case Drain(_, _) => DrainDecreases(s, step);
    case _ => assert Buffered(Apply(s, step)) == Buffered(s);
  }

  // Every run is finite.
  lemma {:induction false} RunsAreFinite(s: State, steps: seq<Step>)
    requires Exec(s, steps).Some?
    ensures |steps| + Left(Exec(s, steps).value) <= Left(s)
    decreases |steps|
  {
    if steps != [] {
      Decreases(s, steps[0]);
      RunsAreFinite(Apply(s, steps[0]), steps[1..]);
    }
  }

  // A step that can be taken for a process's writes: its own, or the read that unblocks it.
  function NextWrite(s: State, writes: seq<Write>, emit: Step, next: Step, exit: Step): Step {
    if writes == [] then exit
    else if writes[0].data == [] then next
    else if |PipeOf(s, writes[0].to).buffer| < s.capacity then emit
    else Drain(writes[0].to, 1)
  }

  // A step that can be taken: towards the command's exit, the exit of what escaped, and then the readers' and waiter's.
  function Possible(s: State): Step {
    if !s.exited then NextWrite(s, s.todo, Emit(1), Next, Exit)
    else if s.waiter.Waiting? then SeeExit
    else if s.lingering then NextWrite(s, s.leftover, LeftEmit(1), LeftNext, LeftExit)
    else if s.waiter.JoiningOut? then
      if s.out.ended then JoinOut else if s.out.buffer == [] then SeeEnd(Out) else Drain(Out, 1)
    else
      if s.err.ended then JoinErr else if s.err.buffer == [] then SeeEnd(Err) else Drain(Err, 1)
  }

  lemma NeverStuck(s: State)
    requires Invariant(s) && s.concurrent && s.capacity > 0 && !s.waiter.Returned?
    ensures Enabled(s, Possible(s))
  {
  }

  lemma {:induction false} SettingsKept(s: State, steps: seq<Step>)
    requires Exec(s, steps).Some?
    ensures Exec(s, steps).value.concurrent == s.concurrent && Exec(s, steps).value.capacity == s.capacity
    decreases |steps|
  {
    if steps != [] {
      SettingsKept(Apply(s, steps[0]), steps[1..]);
    }
  }

  /**
   No deadlock: for any positive capacity, program and processes left behind, a run is of bounded length, and one that
   can't go on has returned.
   */
  lemma AlwaysReturns(capacity: nat, program: seq<Write>, left: Option<Leftover>, steps: seq<Step>)
    requires capacity > 0
    requires Exec(Initial(capacity, true, program, left), steps).Some?
    ensures var s := Initial(capacity, true, program, left); var t := Exec(s, steps).value;
      && |steps| <= Left(s)
      && ((forall step :: !Enabled(t, step)) ==> t.waiter.Returned?)
  {
    var s := Initial(capacity, true, program, left);
    var t := Exec(s, steps).value;
    RunsKeep(s, steps);
    RunsAreFinite(s, steps);
    SettingsKept(s, steps);
    if !t.waiter.Returned? {
      NeverStuck(t);
    }
  }

  // Reading only after waiting would hang on any output that exceeds a pipe, whatever its capacity.
  lemma SequentialReadingHangs(capacity: nat, data: Bytes)
    requires 0 < capacity < |data|
    ensures var s := Initial(capacity, false, [Write(Out, data)], None);
      && Exec(s, [Emit(capacity)]).Some?
      && var t := Exec(s, [Emit(capacity)]).value;
         !t.waiter.Returned? && forall step :: !Enabled(t, step)
  {
    var s := Initial(capacity, false, [Write(Out, data)], None);
    assert Exec(s, [Emit(capacity)]) == Exec(Apply(s, Emit(capacity)), []);
  }
}
