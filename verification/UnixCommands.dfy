/**
 A background command over a shell: its output goes to files that are tailed while it may still write them, and its
 exit code to another file once it ended. Between any two of our remote commands it may do anything. What these get
 depends on how the communicator they run over frames their output; a shell cuts it at the first exit marker.
 */
module UnixCommands {
  import opened Common
  import opened Deadlines
  import opened ExitPattern
  import opened Replies

  // In milliseconds.
  const POLL_INTERVAL := 200

  // What the command does during one of ours: what it writes to its outputs, and whether it then exits. And how long
  // ours takes, and whether bytes of its output are left unread if that is cut.
  datatype Progress = Progress(out: Bytes, err: Bytes, exit: Option<nat>, took: nat, leaves: bool)

  // What polling finds. `Confused`, here and below, is whatever comes of a command that finds bytes of an earlier one
  // in the stream.
  datatype Polled = Running | Known(code: nat) | Confused

  // How a read ends: `Never` if it doesn't.
  datatype Reading = Data(data: Bytes) | Eof | Never | Garbled

  // How reading everything, waiting, or running ends.
  datatype Whole = All(data: Bytes) | Late | Forever | Unknown
  datatype Exit = Exited(code: nat) | StillRunning | NeverExits | Unclear
  datatype Outcome = Completed(exitCode: nat, stdout: Bytes, stderr: Bytes) | TookTooLong | Hangs | Undefined

  function OutputOf(schedule: seq<Progress>, which: Which): nat {
    if schedule == [] then 0
    else |if which.Out? then schedule[0].out else schedule[0].err| + OutputOf(schedule[1..], which)
  }

  // What `tail` from an offset, cut by `head` if a size is given, prints of a file.
  function Tailed(file: Bytes, offset: nat, size: Option<nat>): Bytes
    requires offset <= |file|
  {
    if size.Some? && size.value < |file| - offset then file[offset..offset + size.value] else file[offset..]
  }

  /**
   What is printed is a beginning of the rest, of just the size if there is more. So nothing being printed means that
   all was delivered, except when asking for no bytes with some left.
   */
  lemma NothingPrinted(file: Bytes, offset: nat, size: Option<nat>)
    requires offset <= |file|
    ensures Tailed(file, offset, size) <= file[offset..]
    ensures size.Some? ==> |Tailed(file, offset, size)| <= size.value
    ensures size.None? || |Tailed(file, offset, size)| < size.value ==> Tailed(file, offset, size) == file[offset..]
    ensures Tailed(file, offset, size) == [] <==> file[..offset] == file || size == Some(0)
  {
    if offset == |file| {
      assert file[..offset] == file;
    }
  }

  // The text of the status file, and what it is read as.
  function StatusText(status: Option<nat>): Bytes {
    match status
    case None => []
    case Some(code) => Decimal(code) + [NEWLINE]
  }

  function ParseStatus(text: Bytes): Polled {
    if text == [] then Running
    else if |text| > 1 && text[|text| - 1] == NEWLINE && AllDigits(text[..|text| - 1]) then
      Known(ParseDecimal(text[..|text| - 1]))
    else Confused
  }

  /** The status is read back as it is, with or without an exit code, and has no marker. */
  lemma StatusIsRead(status: Option<nat>)
    ensures ParseStatus(StatusText(status)) == match status { case None => Running case Some(code) => Known(code) }
    ensures Search(StatusText(status)).None?
  {
    var text := StatusText(status);
    match status
    case None => ShortHasNone(text);
    case Some(code) =>
      assert text[..|text| - 1] == Decimal(code);
      DecimalParses(code);
      DigitsHaveNone(Decimal(code));
  }

  lemma DigitsHaveNone(digits: Bytes)
    requires AllDigits(digits)
    ensures Search(digits + [NEWLINE]).None?
  {
    var text := digits + [NEWLINE];
    assert MARK[0] !in digits && MARK[0] !in text;
    if Search(text).Some? {
      var m := Search(text).value.0;
      MarkHasLetter(text, m);
    }
  }

  lemma MarkHasLetter(text: Bytes, i: nat)
    requires MarkAt(text, i)
    ensures MARK[0] in text
  {
    assert text[i] == text[i..i + |MARK|][0];
  }

  // What a communicator returns of the output of the commands it runs.
  type Framing = Bytes -> Bytes

  // It returns a beginning of it, and nothing of what it didn't.
  ghost predicate Cuts(f: Framing, output: Bytes) {
    f(output) <= output && f(output[|f(output)|..]) == []
  }

  // It returns the whole of any part of an output that it returns the whole of.
  ghost predicate KeepsPart(f: Framing, before: Bytes, part: Bytes, after: Bytes) {
    f(before + part + after) == before + part + after ==> f(part) == part
  }

  // It returns the whole of a status.
  ghost predicate KeepsStatus(f: Framing, status: Option<nat>) {
    f(StatusText(status)) == StatusText(status)
  }

  ghost predicate IsFraming(f: Framing) {
    && (forall output :: Cuts(f, output))
    && (forall before, part, after :: KeepsPart(f, before, part, after))
    && (forall status :: KeepsStatus(f, status))
  }

  /**
   That is so of a shell, which cuts an output at its first exit marker, and of a communicator that returns it as it
   is.
   */
  lemma ShellIsFraming()
    ensures IsFraming(Cutoff)
    ensures IsFraming((s: Bytes) => s)
  {
    forall output
      ensures Cuts(Cutoff, output)
    {
      CutoffOfRest(output);
    }
    forall before, part, after
      ensures KeepsPart(Cutoff, before, part, after)
    {
      CutoffIsWhole(before + part + after);
      CutoffIsWhole(part);
      if Search(before + part + after).None? {
        PartsHaveNone(before, part, after);
      }
    }
    forall status
      ensures KeepsStatus(Cutoff, status)
    {
      StatusIsRead(status);
      CutoffIsWhole(StatusText(status));
    }
  }

  // What a read of the file then gets.
  function Piece(f: Framing, file: Bytes, offset: nat, size: Option<nat>): Bytes
    requires offset <= |file|
  {
    f(Tailed(file, offset, size))
  }

  /**
   Over a shell, getting nothing means that all was delivered, that no bytes were asked for, or that a marker is next,
   of which enough is printed.
   */
  lemma NothingRead(file: Bytes, offset: nat, size: Option<nat>)
    requires offset <= |file|
    ensures Piece(Cutoff, file, offset, size) == [] <==>
      file[..offset] == file || size == Some(0) || MatchAt(Tailed(file, offset, size), 0).Some?
  {
    NothingPrinted(file, offset, size);
    CutoffIsWhole(Tailed(file, offset, size));
  }

  /**
   A piece is what the file has next. After a piece of all the rest there is no other. If the file has nothing that is
   cut, it is all that was printed, so that getting nothing means that all was delivered, except when asking for no
   bytes.
   */
  lemma PieceIsNext(f: Framing, file: Bytes, offset: nat, size: Option<nat>)
    requires IsFraming(f) && offset <= |file|
    ensures IsNext(f, file, offset, size, Piece(f, file, offset, size))
    ensures f(file) == file ==> Piece(f, file, offset, size) == Tailed(file, offset, size)
  {
    PieceContinues(f, file, offset, size);
    PieceIsLast(f, file, offset);
    PieceIsWhole(f, file, offset, size);
    NothingPrinted(file, offset, size);
  }

  ghost predicate IsNext(f: Framing, file: Bytes, offset: nat, size: Option<nat>, data: Bytes) {
    var end := offset + |data|;
    && end <= |file| && file[..offset] + data == file[..end]
    && (size.Some? ==> |data| <= size.value)
    && (size.None? ==> Piece(f, file, end, None) == [])
    && (data == [] && size != Some(0) && f(file) == file ==> file[..end] == file)
  }

  lemma PieceContinues(f: Framing, file: Bytes, offset: nat, size: Option<nat>)
    requires IsFraming(f) && offset <= |file|
    ensures var data := Piece(f, file, offset, size);
      && offset + |data| <= |file| && file[..offset] + data == file[..offset + |data|]
      && (size.Some? ==> |data| <= size.value)
  {
    var part := Tailed(file, offset, size);
    assert Cuts(f, part);
    assert part == file[offset..offset + |part|];
    assert f(part) == file[offset..offset + |f(part)|];
  }

  lemma PieceIsWhole(f: Framing, file: Bytes, offset: nat, size: Option<nat>)
    requires IsFraming(f) && offset <= |file|
    ensures f(file) == file ==> Piece(f, file, offset, size) == Tailed(file, offset, size)
  {
    var part := Tailed(file, offset, size);
    assert KeepsPart(f, file[..offset], part, file[offset + |part|..]);
    assert file == file[..offset] + part + file[offset + |part|..];
  }

  lemma PieceIsLast(f: Framing, file: Bytes, offset: nat)
    requires IsFraming(f) && offset <= |file|
    ensures var end := offset + |Piece(f, file, offset, None)|;
      end <= |file| && Piece(f, file, end, None) == []
  {
    var rest := file[offset..];
    assert Cuts(f, rest);
    assert rest[|f(rest)|..] == file[offset + |f(rest)|..];
  }

  /** The machine: the command's files, and what it does between our commands. It writes nothing once it exited. */
  class Remote {
    var out: Bytes
    var err: Bytes
    var status: Option<nat>
    var schedule: seq<Progress>
    var now: nat
    // The longest that a remote command of ours takes.
    const latency: nat
    const framing: Framing
    // Whether cut outputs may leave bytes for later commands to find, and whether there are some now.
    const mayLeave: bool
    var stale: bool
    // Whether the process that holds the command's input open runs.
    var held: bool

    constructor (schedule: seq<Progress>, now: nat, latency: nat, framing: Framing, mayLeave: bool)
      ensures out == [] && err == [] && status == None && !stale && held
      ensures this.schedule == schedule && this.now == now
      ensures this.latency == latency && this.framing == framing && this.mayLeave == mayLeave
    {
      out, err, status, stale, held := [], [], None, false, true;
      this.schedule, this.now, this.latency, this.framing, this.mayLeave := schedule, now, latency, framing, mayLeave;
    }

    // What one of our commands gets of its output, if it finds nothing of earlier ones.
    method Receive(output: Bytes, leaves: bool) returns (stdout: Option<Bytes>)
      modifies `stale
      ensures stdout.None? <==> old(stale)
      ensures stdout.Some? ==> stdout.value == framing(output)
      ensures old(stale) ==> stale
      ensures stale && !old(stale) ==> framing(output) != output && mayLeave
    {
      if stale {
        return None;
      }
      var data := framing(output);
      stale := data != output && mayLeave && leaves;
      return Some(data);
    }

    function File(which: Which): Bytes
      reads this
    {
      if which.Out? then out else err
    }

    // The command hasn't exited, and does nothing any more.
    predicate Over()
      reads this
    {
      schedule == [] && status.None?
    }

    // All the bytes an output may ever have.
    function Ever(which: Which): nat
      reads this
    {
      |File(which)| + OutputOf(schedule, which)
    }

    // Time only passes, files only grow, and an exit, or the holder's end, is final.
    twostate predicate Later()
      reads this
    {
      && old(now) <= now
      && old(out) <= out && old(err) <= err
      && |schedule| <= old(|schedule|)
      && (old(status).Some? ==> status == old(status) && out == old(out) && err == old(err))
      && Ever(Out) <= old(Ever(Out)) && Ever(Err) <= old(Ever(Err))
      && (held ==> old(held))
    }

    // What the command does next, if anything, has happened.
    twostate predicate Stepped()
      reads this
    {
      if old(schedule) == [] then schedule == [] && out == old(out) && err == old(err) && status == old(status)
      else
        && schedule == old(schedule)[1..]
        && (old(status).None? ==>
              && out == old(out) + old(schedule)[0].out && err == old(err) + old(schedule)[0].err
              && status == old(schedule)[0].exit)
    }

    method Advance() returns (leaves: bool)
      modifies `out, `err, `status, `schedule, `now
      ensures Later() && Stepped() && now <= old(now) + latency
    {
      var took := latency;
      leaves := true;
      if schedule != [] {
        var step := schedule[0];
        schedule, leaves := schedule[1..], step.leaves;
        if status.None? {
          out, err, status := out + step.out, err + step.err, step.exit;
        }
        took := if step.took < latency then step.took else latency;
      }
      now := now + took;
    }

    // The status file's contents, which are written at once.
    method CatStatus() returns (polled: Polled)
      requires IsFraming(framing)
      modifies this
      ensures Later() && Stepped() && now <= old(now) + latency
      ensures polled.Confused? <==> stale
      ensures !polled.Confused? ==> polled == match status { case None => Running case Some(code) => Known(code) }
      ensures stale == old(stale)
    {
      var leaves := Advance();
      StatusIsRead(status);
      assert KeepsStatus(framing, status);
      var text := Receive(StatusText(status), leaves);
      polled := if text.None? then Confused else ParseStatus(text.value);
    }

    // The file from the given offset on, and only its first bytes if a size is given.
    method Tail(which: Which, offset: nat, size: Option<nat>) returns (data: Option<Bytes>)
      requires IsFraming(framing) && offset <= |File(which)|
      modifies this
      ensures Later() && now <= old(now) + latency
      ensures offset <= |File(which)| && File(which)[..offset] == old(File(which)[..offset])
      ensures (data.None? <==> old(stale)) && (old(stale) ==> stale)
      ensures data.Some? ==>
        && data.value == Piece(framing, File(which), offset, size)
        && IsNext(framing, File(which), offset, size, data.value)
      ensures stale && !old(stale) ==> framing(File(which)) != File(which) && mayLeave
      ensures old(schedule) == [] ==> schedule == [] && status == old(status)
    {
      var leaves := Advance();
      var file := File(which);
      PieceIsNext(framing, file, offset, size);
      data := Receive(Tailed(file, offset, size), leaves);
      assert File(which) == file;
    }

    // Kills the process that holds the command's input open, which prints nothing.
    method Kill() returns (ok: bool)
      requires IsFraming(framing)
      modifies this
      ensures Later() && now <= old(now) + latency
      ensures ok <==> !stale
      ensures stale == old(stale) && (ok ==> !held)
    {
      var leaves := Advance();
      assert KeepsStatus(framing, None) && StatusText(None) == [];
      var none := Receive([], leaves);
      ok := none.Some?;
      held := held && !ok;
    }

    method Sleep(interval: nat)
      modifies `now
      ensures now == old(now) + interval
    {
      now := now + interval;
    }
  }

  class UnixCommand {
    const remote: Remote
    var exitCode: Option<nat>
    // Whether something still holds the command's input open.
    var holder: bool

    ghost predicate Valid()
      reads this, remote
    {
      && IsFraming(remote.framing)
      && (exitCode.Some? ==> remote.status == exitCode && !holder)
      && (!holder ==> !remote.held)
    }

    constructor (remote: Remote)
      requires IsFraming(remote.framing)
      ensures Valid() && this.remote == remote && exitCode.None? && holder
    {
      this.remote, exitCode, holder := remote, None, true;
    }

    // Closes the command's input, if it wasn't yet.
    method CloseStdin() returns (ok: bool)
      requires Valid()
      modifies `holder, remote
      ensures Valid() && remote.Later() && remote.now <= old(remote.now) + remote.latency
      ensures ok <==> !holder
      ensures ok <==> !old(remote.stale) || !old(holder)
      ensures remote.stale == old(remote.stale)
    {
      ok := true;
      if holder {
        ok := remote.Kill();
        holder := !ok;
      }
    }

    method Poll() returns (polled: Polled)
      requires Valid()
      modifies this, remote
      ensures Valid() && remote.Later() && remote.now <= old(remote.now) + 2 * remote.latency
      ensures polled.Confused? <==> old(exitCode).None? && old(remote.stale)
      ensures old(exitCode).None? && !old(remote.stale) && old(remote.status).None? && old(remote.schedule) != [] ==>
        && remote.out == old(remote.out) + old(remote.schedule)[0].out
        && remote.err == old(remote.err) + old(remote.schedule)[0].err
        && exitCode == old(remote.schedule)[0].exit
      ensures polled.Known? <==> exitCode.Some?
      ensures polled.Known? ==> exitCode == Some(polled.code)
      ensures old(exitCode).Some? ==> exitCode == old(exitCode)
      ensures polled.Running? ==> remote.status.None?
      ensures polled.Running? && old(remote.schedule) != [] ==> |remote.schedule| < |old(remote.schedule)|
      ensures remote.stale == old(remote.stale)
    {
      if exitCode.Some? {
        return Known(exitCode.value);
      }
      polled := remote.CatStatus();
      if polled.Known? {
        var closed := CloseStdin();
        exitCode := Some(polled.code);
      }
    }

    method Wait(timeout: Option<nat>) returns (exit: Exit)
      requires Valid()
      modifies this, remote
      ensures Valid() && remote.Later()
      ensures exit.Exited? ==> remote.status == Some(exit.code) && exitCode == remote.status
      ensures exit.StillRunning? ==> timeout.Some? && old(remote.now) + timeout.value <= remote.now
      ensures exit.NeverExits? ==> timeout.None? && remote.Over()
      ensures exit.Unclear? <==> old(exitCode).None? && old(remote.stale)
      ensures timeout.Some? ==> remote.now < old(remote.now) + timeout.value + POLL_INTERVAL + 2 * remote.latency
      ensures remote.stale == old(remote.stale)
    {
      var end := Start(timeout, remote.now);
      while true
        invariant Valid() && remote.Later()
        invariant exitCode == old(exitCode)
        invariant remote.stale == old(remote.stale)
        invariant timeout.Some? ==> remote.now < old(remote.now) + timeout.value + POLL_INTERVAL
        decreases |remote.schedule|, if end.Some? && remote.now < end.value then end.value - remote.now else 0
      {
        var waiting := |remote.schedule|;
        var polled := Poll();
        if polled.Known? {
          return Exited(polled.code);
        }
        if polled.Confused? {
          return Unclear;
        }
        if Passed(end, remote.now) {
          return StillRunning;
        }
        if waiting == 0 && timeout.None? {
          return NeverExits;
        }
        remote.Sleep(POLL_INTERVAL);
      }
    }
  }

  class UnixOutputStream {
    const command: UnixCommand
    const remote: Remote := command.remote
    const which: Which
    var offset: nat
    // Everything its reads returned so far.
    ghost var delivered: Bytes

    ghost predicate Valid()
      reads this, command, remote
    {
      && command.Valid()
      && offset <= |remote.File(which)|
      && delivered == remote.File(which)[..offset]
    }

    constructor (command: UnixCommand, which: Which)
      requires command.Valid()
      ensures Valid() && this.command == command && this.which == which && offset == 0 && delivered == []
    {
      this.command, this.which, offset, delivered := command, which, 0, [];
    }

    // The file has something that is cut.
    ghost predicate Marked()
      reads this, command, remote
    {
      remote.framing(remote.File(which)) != remote.File(which)
    }

    // Bytes that are left stay, and only cutting the file leaves some. What was cut is.
    twostate predicate Left()
      reads this, command, remote
    {
      && (old(remote.stale) ==> remote.stale)
      && (remote.stale && !old(remote.stale) ==> Marked() && remote.mayLeave)
      && (old(Marked()) ==> Marked())
    }

    // The exit status is asked for before the file is read. None if either finds bytes of an earlier command.
    method Attempt(size: Option<nat>) returns (data: Option<Bytes>, finished: bool)
      requires Valid()
      modifies this, command, remote
      ensures Valid() && remote.Later()
      ensures remote.now <= old(remote.now) + 3 * remote.latency
      ensures data.None? <==> old(remote.stale)
      ensures delivered == old(delivered) + (if data.Some? then data.value else []) && |old(delivered)| == old(offset)
      ensures data.Some? ==>
        && old(offset) <= |remote.File(which)| && (size.Some? ==> |data.value| <= size.value)
        && data.value == Piece(remote.framing, remote.File(which), old(offset), size)
      ensures data.Some? && size.None? ==> Piece(remote.framing, remote.File(which), offset, None) == []
      ensures data == Some([]) && size != Some(0) && !Marked() ==> delivered == remote.File(which)
      ensures Left()
      ensures finished ==> remote.status.Some?
      ensures old(command.exitCode).Some? ==> finished && command.exitCode == old(command.exitCode)
      ensures data.Some? && !finished && old(remote.schedule) == [] ==> remote.Over()
      ensures data.Some? && !finished && old(remote.schedule) != [] ==>
        |remote.schedule| < |old(remote.schedule)|
    {
      ghost var before := remote.File(which);
      var polled := command.Poll();
      finished := polled.Known?;
      StillMarked(remote.framing, before, remote.File(which));
      if polled.Confused? {
        assert delivered + [] == delivered;
        return None, finished;
      }
      data := Fetch(size);
      StillMarked(remote.framing, before, remote.File(which));
    }

    // One `tail` of the file.
    method Fetch(size: Option<nat>) returns (data: Option<Bytes>)
      requires Valid()
      modifies `offset, `delivered, remote
      ensures Valid() && remote.Later()
      ensures remote.now <= old(remote.now) + remote.latency
      ensures data.None? <==> old(remote.stale)
      ensures delivered == old(delivered) + (if data.Some? then data.value else [])
      ensures data.Some? ==>
        && old(offset) <= |remote.File(which)| && (size.Some? ==> |data.value| <= size.value)
        && data.value == Piece(remote.framing, remote.File(which), old(offset), size)
      ensures data.Some? && size.None? ==> Piece(remote.framing, remote.File(which), offset, None) == []
      ensures data == Some([]) && size != Some(0) && !Marked() ==> delivered == remote.File(which)
      ensures old(remote.stale) ==> remote.stale
      ensures remote.stale && !old(remote.stale) ==> Marked() && remote.mayLeave
      ensures old(remote.schedule) == [] ==>
        remote.schedule == [] && remote.status == old(remote.status)
    {
      data := remote.Tail(which, offset, size);
      assert delivered == remote.File(which)[..offset];
      if data.Some? {
        offset, delivered := offset + |data.value|, delivered + data.value;
      } else {
        assert delivered + [] == delivered;
      }
    }

    /**
     Reads are what the file has next, so that together they are its first bytes. The end is reported only once the
     command exited, and only if there is no piece to get: all was delivered, nothing was asked for, or a marker comes
     next. Of a command known to have exited a read gets exactly the piece, or the end.
     */
    method Read(size: Option<nat>, timeout: Option<nat>) returns (reading: Reading)
      requires Valid()
      modifies this, command, remote
      ensures Valid() && remote.Later()
      ensures delivered == old(delivered) + if reading.Data? then reading.data else []
      ensures reading.Data? && size.Some? ==> |reading.data| <= size.value
      ensures reading == Data([]) ==> timeout.Some? && old(remote.now) + timeout.value <= remote.now
      ensures reading.Eof? ==>
        && remote.status.Some? && Piece(remote.framing, remote.File(which), offset, size) == []
        && (size != Some(0) && !Marked() ==> delivered == remote.File(which))
      ensures reading.Data? && size.None? ==>
        Piece(remote.framing, remote.File(which), offset, None) == []
      ensures reading.Never? ==> timeout.None? && remote.Over()
      ensures old(remote.stale) ==> reading.Garbled?
      ensures Left() && (reading.Garbled? ==> remote.stale)
      ensures old(command.exitCode).Some? ==> command.exitCode == old(command.exitCode)
      ensures old(command.exitCode).Some? && !old(remote.stale) ==>
        var piece := Piece(remote.framing, remote.File(which), old(offset), size);
        reading == if piece == [] then Eof else Data(piece)
      ensures timeout.Some? ==>
        remote.now < old(remote.now) + timeout.value + POLL_INTERVAL + 3 * remote.latency
    {
      ghost var before := delivered;
      var end := Start(timeout, remote.now);
      while true
        invariant Valid() && remote.Later() && delivered == before && offset == old(offset)
        invariant Left()
        invariant old(command.exitCode).Some? ==>
          command.exitCode == old(command.exitCode) && remote.stale == old(remote.stale)
        invariant timeout.Some? ==> remote.now < old(remote.now) + timeout.value + POLL_INTERVAL
        decreases |remote.schedule|, if end.Some? && remote.now < end.value then end.value - remote.now else 0
      {
        var waiting := |remote.schedule|;
        var data, finished := Attempt(size);
        if data.None? {
          return Garbled;
        }
        if data.value != [] {
          return Data(data.value);
        }
        if finished {
          return Eof;
        }
        if Passed(end, remote.now) {
          return Data([]);
        }
        if waiting == 0 && timeout.None? {
          return Never;
        }
        remote.Sleep(POLL_INTERVAL);
      }
    }

    /**
     Reading everything of a command ends at the end of its file or at a marker, with everything before it. Of one
     known to have exited that is exactly what comes before the first marker.
     */
    method ReadAll(timeout: Option<nat>) returns (whole: Whole)
      requires Valid()
      modifies this, command, remote
      ensures Valid() && remote.Later()
      ensures whole.All? ==>
        && remote.status.Some?
        && delivered == old(delivered) + whole.data
        && Piece(remote.framing, remote.File(which), offset, None) == []
      ensures whole.All? && !Marked() ==> delivered == remote.File(which)
      ensures whole.All? && old(command.exitCode).Some? ==>
        whole.data == Piece(remote.framing, remote.File(which), old(offset), None)
      ensures whole.Late? ==> timeout.Some? && old(remote.now) + timeout.value <= remote.now
      ensures whole.Forever? ==> timeout.None? && remote.Over()
      ensures Left() && (whole.Unknown? ==> remote.stale)
      ensures old(command.exitCode).Some? ==> command.exitCode == old(command.exitCode)
      ensures timeout == Some(0) ==> remote.now == old(remote.now)
      ensures timeout.Some? ==>
        remote.now < old(remote.now) + timeout.value + POLL_INTERVAL + 3 * remote.latency
    {
      var end := Start(timeout, remote.now);
      var result := [];
      ghost var piece := Piece(remote.framing, remote.File(which), offset, None);
      ghost var before, known := delivered, command.exitCode;
      assert delivered + [] == delivered;
      while true
        invariant Valid() && remote.Later() && delivered == before + result
        invariant Left()
        invariant known.Some? ==> command.exitCode == known
        invariant known.Some? && result != [] ==>
          result == piece && Piece(remote.framing, remote.File(which), offset, None) == []
        invariant timeout == Some(0) ==> remote.now == old(remote.now)
        invariant end.Some? ==> remote.now < end.value + POLL_INTERVAL + 3 * remote.latency
        decreases remote.Ever(which) - offset, if Passed(end, remote.now) then 0 else 1
      {
        if Passed(end, remote.now) {
          return Late;
        }
        var reading := Read(None, Remaining(end, remote.now));
        match reading
        case Data(data) =>
          Regroup(before, result, data);
          result := result + data;
          assert data == [] ==> Passed(end, remote.now);
        case Eof => return All(result);
        case Never => return Forever;
        case Garbled => return Unknown;
      }
    }
  }

  // What is returned as it is still was so before more came.
  lemma StillMarked(f: Framing, file: Bytes, later: Bytes)
    requires IsFraming(f) && file <= later
    ensures f(later) == later ==> f(file) == file
  {
    assert KeepsPart(f, [], file, later[|file|..]);
    assert later == [] + file + later[|file|..];
  }

  /**
   Running a command returns its exit code and what the communicator returns of all that it wrote to each output,
   however it interleaved with us.
   */
  method Run(remote: Remote, timeout: Option<nat>) returns (result: Outcome)
    requires IsFraming(remote.framing)
    requires remote.out == [] && remote.err == [] && remote.status.None?
    modifies remote
    ensures result.Completed? ==>
      && remote.status == Some(result.exitCode)
      && result.stdout == remote.framing(remote.out)
      && result.stderr == remote.framing(remote.err)
    ensures result.TookTooLong? ==> timeout.Some? && old(remote.now) + timeout.value <= remote.now
    ensures result.Hangs? ==> timeout.None? && remote.Over()
    ensures result.Undefined? ==> remote.stale
    // Its input is at its end.
    ensures !result.Undefined? ==> !remote.held
    // Bytes of an earlier command are only found if there were some at first, or cutting an output leaves some.
    ensures remote.stale && !old(remote.stale) ==>
      && remote.mayLeave
      && (remote.framing(remote.out) != remote.out || remote.framing(remote.err) != remote.err)
    ensures timeout.Some? ==>
      remote.now < old(remote.now) + timeout.value + POLL_INTERVAL + 3 * remote.latency
  {
    var end := Start(timeout, remote.now);
    var command := new UnixCommand(remote);
    var stdout := new UnixOutputStream(command, Out);
    var stderr := new UnixOutputStream(command, Err);
    var closed := command.CloseStdin();
    if !closed {
      return Undefined;
    }
    var exit := command.Wait(Remaining(end, remote.now));
    match exit {
      case Exited(_) =>
      case StillRunning => return TookTooLong;
      case NeverExits => return Hangs;
      case Unclear => return Undefined;
    }
    var out := stdout.ReadAll(Remaining(end, remote.now));
    if !out.All? {
      return Failed(out);
    }
    var err := stderr.ReadAll(Remaining(end, remote.now));
    if !err.All? {
      return Failed(err);
    }
    return Completed(exit.code, out.data, err.data);
  }

  function Failed(whole: Whole): Outcome
    requires !whole.All?
  {
    match whole
    case Late => TookTooLong
    case Forever => Hangs
    case Unknown => Undefined
  }

  /**
   Over a shell it returns of an output what comes before its first marker: the whole exactly if it has none. With no
   bytes of earlier commands in the stream, and no markers in the outputs, it returns these unless it takes too long
   or the command never exits.
   */
  method RunOverShell(remote: Remote, timeout: Option<nat>) returns (result: Outcome)
    requires remote.framing == Cutoff
    requires remote.out == [] && remote.err == [] && remote.status.None?
    modifies remote
    ensures result.Completed? ==>
      && remote.status == Some(result.exitCode)
      && result.stdout == Cutoff(remote.out) && (result.stdout == remote.out <==> Search(remote.out).None?)
      && result.stderr == Cutoff(remote.err) && (result.stderr == remote.err <==> Search(remote.err).None?)
    ensures result.Undefined? ==>
      old(remote.stale) || (remote.mayLeave && (Search(remote.out).Some? || Search(remote.err).Some?))
    ensures result.TookTooLong? ==> timeout.Some? && old(remote.now) + timeout.value <= remote.now
    ensures result.Hangs? ==> timeout.None? && remote.Over()
  {
    ShellIsFraming();
    result := Run(remote, timeout);
    CutoffIsWhole(remote.out);
    CutoffIsWhole(remote.err);
  }

  // Asking for no bytes reports the end of a command that wrote one and exited, with that byte still unread.
  method EarlyEnd() returns (reading: Reading, delivered: Bytes, file: Bytes)
    ensures reading.Eof? && delivered == [] && file == [65]
  {
    ShellIsFraming();
    var remote := new Remote([Progress([65], [], Some(0), 0, false)], 0, 0, Cutoff, false);
    var command := new UnixCommand(remote);
    var stdout := new UnixOutputStream(command, Out);
    var _ := command.Poll();
    reading := stdout.Read(Some(0), Some(0));
    delivered, file := remote.File(Out)[..stdout.offset], remote.File(Out);
  }

  // So does a command that writes just a marker, whatever is asked for: all its output is lost.
  method MarkedEnd(code: nat) returns (reading: Reading, delivered: Bytes, file: Bytes)
    ensures reading.Eof? && delivered == [] && file == Marker(code)
  {
    ShellIsFraming();
    var remote := new Remote([Progress(Marker(code), [], Some(0), 0, false)], 0, 0, Cutoff, false);
    var command := new UnixCommand(remote);
    var stdout := new UnixOutputStream(command, Out);
    var _ := command.Poll();
    MarkerMatches([], code, []);
    assert [] + Marker(code) + [] == Marker(code);
    CutoffIsWhole(Marker(code));
    assert Tailed(Marker(code), 0, None) == Marker(code);
    reading := stdout.Read(None, None);
    delivered, file := remote.File(Out)[..stdout.offset], remote.File(Out);
  }
}
