# A model of SUSA in Dafny

SUSA is a Python library that drives virtual machines. Most of it passes strings to other programs, but some parts hold
algorithms or protocols whose correctness isn't visible from any one function. This project models those parts and proves
what they are for. `dafny verify dfyconfig.toml` checks all of it.

- **Subnet reservation across processes** (`Addresses`, `Candidates`, `SubnetSystem`, `SubnetSafety`,
  `SubnetAllocator`). Any number of processes reserve /24s by locking single bytes of lock files. `SubnetSystem` is the
  system of their atomic steps: reading routes, opening the file, one lock request, unlocking, each update of `TAKEN` and
  `FILES`, closing, dying. Its lock table follows the fcntl() page of POSIX.1-2017: locks belong to a process and a file, a
  process doesn't conflict with itself, and closing any descriptor of a file drops all of the process's locks on it.
  `SubnetSafety` proves properties of every run. `SubnetAllocator` has the code in its own form, as classes with `create`'s
  loop; each of its methods is proved to be a run of the system's steps, with any steps of other processes in between.
- **Commands in a shell over a byte stream** (`ExitPattern`, `Deadlines`, `Streams`, `Replies`, `Shell`). Bytes arrive at
  arbitrary times in arbitrary chunks. Output and exit code are cut out at an in-band marker, and a timeout is followed by
  a recovery. `Replies` has what becomes of outputs that contain a marker themselves.
- **Background commands** (`Printf`, `UnixCommands`, `AsyncRun`). The `printf` octal codec against POSIX's rules for
  quoting and for `printf` formats; a tailing reader, over any communicator that may cut outputs as a shell does, racing
  the command that writes its file; and waiting for a command while two bounded pipes drain, as a system of steps.
- **XML builders** (`TextOrder`, `XmlModel`, `MachineModel`, `NetworkModel`). Sorted children and attributes stand for
  maps; on them rest disk names, DHCP ranges and reserved IPs.
- **Sessions and saved states** (`Recipes`, `Sessions`, `Hosts`, `StateSave`, `SavedState`). Creation in stack discipline
  with rollback, references that only lead back, and saving machines with their volumes at one moment and creating them
  again, on a host whose running machines write all the time.

## Assumptions

- Processes are single-threaded and spawned, not forked while they hold reservations. Different lock paths name different
  files, which aren't replaced. What other processes do between two of one's own steps is a parameter (`others`), as is
  which system calls fail (`faults`). A lock request fails on a conflict or when the system is out of locks (`full`), since
  the code goes on to the next candidate after any `OSError`.
- Time is a monotone clock in milliseconds that only reading, sleeping, tests of conditions and remote commands advance. A
  read takes at most its time limit. `Hung`, `Never`, `Hangs` and the like are calls that don't return.
- A background command's exit code is written to its status file at once, and nothing is written to its outputs after it.
- What a shell writes in reaction to each line, and what a background command writes between our remote commands, are
  parameters. So is what the communicator under a background command makes of outputs (`UnixCommands.IsFraming`), which is
  proved of a shell and of one that returns outputs as they are.
- Recipes are already validated, and no object is named `self`.
- The host's machines change power state only through the operations modelled, and running machines write only to their
  memories and the volumes they use. Machines and volumes are known by name. A directory with a list of resources is one
  that a save wrote (`Hosts.Host.Valid`).

## Where the code differs from what it or its comments suggest

- `subnets(new_prefix=24)` on a single address yields that /32 rather than a /24, and on a /25 to /31 raises an error, after
  the lock file was opened. Both are modelled (`Candidates.Splits`), and the exclusion theorems cover the former;
  `Candidates.SmallRanges` has an instance of each.
- A lock file in `FILES` is meant to be open for the reservations in it, but a `create` that fails once it was opened, even
  if just by changing its mode, leaves it open without any (networking.py:96-97, 120, 145-153;
  `SubnetAllocator.SubnetReservation.Create` says exactly when, `SubnetAllocator.LeftOpen` is an instance). That is
  harmless: what matters is that it isn't closed while one is needed.
- An output with an exit marker in it is cut there by the shell (shell.py:156-160), and so is what `tail` prints of a
  background command's output (unix.py:250-251), after which the reader takes the end as reached, with bytes unread.
  - What a shell command returns is its whole output exactly if that has no marker (`Shell.FramedCommand`,
    `Replies.ExactReply`).
  - A background command's output is returned whole exactly if it has no marker (`UnixCommands.RunOverShell`); one that is
    just a marker is lost (`UnixCommands.MarkedEnd`). Reads while the command still runs may get more than what comes
    before a marker, if they happen to divide it (`Replies.LuckyPieces`, `UnixCommands.NothingRead`).
  - If the bytes after the cut come too late, the next command finds them: it then gets nothing of its own output
    (`Replies.StaleMarker`).
- A `read` of size 0 on a background command's output reports the end of a finished command with output left
  (`UnixCommands.UnixOutputStream.Read` says exactly when, `UnixCommands.EarlyEnd` is an instance).
- `get_hosts` is a dictionary by MAC, so a second reservation for a MAC hides the first one's IP, which may then be given out
  again (`NetworkModel.ReissuedIfShadowed`, `NetworkModel.ReissuedExample`).
- A /31 has two hosts but no DHCP ranges, so there, and only there, automatically picked IPs lie outside of them
  (`NetworkModel.AutomaticIsInRanges`, `NetworkModel.OutsideExample`).
- Restoring a volume creates it and then uploads to it; if just the upload raises, rolling back doesn't destroy it, since it
  isn't in the list yet (`SavedState.LVState.Create` and `RollBack` say exactly when, `SavedState.LeavesVolume` is an
  instance).
- The addresses 0.0.0.0 and 255.255.255.255 can't be a DHCP network's own, since computing the ranges raises.

## Model

| member | source | states |
|---|---|---|
| Addresses.OverlapIsIntersection | packages/susa-core/src/susa/utilities/networking.py:123-125 | two CIDR blocks overlap, by the library's four endpoint checks, exactly if some address is in both |
| Candidates.MaskedIsBlock | packages/susa-core/src/susa/utilities/networking.py:157-161 | clearing the host bits of any route's destination gives a block of the address space |
| Candidates.HostSubnetsAreRouted | packages/susa-core/src/susa/utilities/networking.py:155-161 | an address is in one of the blocks gathered from the routes exactly if some route other than the default one has its leading bits |
| Candidates.OverlapsIfRouted | packages/susa-core/src/susa/utilities/networking.py:123-125 | a candidate overlaps one of them exactly if such a route leads to an address in it |
| Candidates.CandidatesAreTheSlash24s | packages/susa-core/src/susa/utilities/networking.py:121 | of a range of /24 or wider, the candidates are exactly the /24s inside it |
| Candidates.CandidateIndex | packages/susa-core/src/susa/utilities/networking.py:121-122 | the j-th candidate of any range lies inside the range and inside the /24 its number names, and its number is the range's plus j |
| Candidates.NoSlash24s | packages/susa-core/src/susa/utilities/networking.py:121 | a /32 has itself as its only candidate, and a /25 to /31 none |
| Candidates.SplitsIntoSome | packages/susa-core/src/susa/utilities/networking.py:121 | splitting raises exactly if there are no candidates |
| Candidates.SmallRanges | packages/susa-core/src/susa/utilities/networking.py:121 | as for 10.0.0.7/32 and 10.0.0.0/25 |
| Candidates.IndexIsBijection | packages/susa-core/src/susa/utilities/networking.py:122 | every number below 2^24 is that of exactly one /24 |
| Candidates.DifferentNumbersAreDisjoint | packages/susa-core/src/susa/utilities/networking.py:122-128 | candidates with different numbers, from whatever ranges, don't overlap |
| SubnetSystem.Preserved | packages/susa-core/src/susa/utilities/networking.py:94-97 | the invariant is kept by every step of every process, death included: the locks a process holds are its `TAKEN` entries, but for those between the lock call and its bookkeeping; its descriptors are exactly those in `FILES`; each entry belongs to one reservation of its own |
| SubnetSystem.OthersUntouched | packages/susa-core/src/susa/utilities/networking.py:94-97 | no step changes another process's memory, locks or descriptors |
| SubnetSafety.ReachableIsSound | packages/susa-core/src/susa/utilities/networking.py:94-143 | the invariant holds after every run of any number of processes |
| SubnetSafety.NoOverlap | packages/susa-core/src/susa/utilities/networking.py:85-86 | after every run, two live reservations on one lock file, of any processes and ranges, share no address |
| SubnetSafety.NoReservationLost | packages/susa-core/src/susa/utilities/networking.py:136-143 | only its own destroy or its process's death ends a reservation or changes its subnet |
| SubnetSafety.ByteStaysLocked | packages/susa-core/src/susa/utilities/networking.py:94-97 | through any further steps of anyone, failed creates and other destroys included, a live reservation's byte stays locked by its process until its own release or the process's death |
| SubnetSafety.OneDescriptor | packages/susa-core/src/susa/utilities/networking.py:96-97 | while `TAKEN` has an entry for a file, the process has exactly one descriptor of it open |
| SubnetSafety.ClosedOnlyWhenUnused | packages/susa-core/src/susa/utilities/networking.py:139-142 | a living process closes a lock file only in a destroy, when it has no entry in it and holds no byte of it |
| SubnetSafety.HeldAreTheLive | packages/susa-core/src/susa/utilities/networking.py:116-143 | a process outside of `create` and `destroy` holds exactly the bytes of its live reservations, so that nothing leaks |
| SubnetAllocator.ForeignRun | packages/susa-core/src/susa/utilities/networking.py:94-97 | whatever the others do in between, a process's own state stays |
| SubnetAllocator.PythonProcess.Interfere | packages/susa-core/src/susa/utilities/networking.py:85-86 | other processes' steps may come between any two of one's own, and change none of its variables |
| SubnetAllocator.PythonProcess.Commit | packages/susa-core/src/susa/utilities/networking.py:116-143 | each system call and bookkeeping statement of the code is one possible step of the system, with the variables it leaves |
| SubnetAllocator.SubnetReservation.Create | packages/susa-core/src/susa/utilities/networking.py:116-134 | first fit: the subnet is the first candidate that was neither in `TAKEN`, nor led into by any route but the default one, nor refused when asked for, as another process held its byte or there were no locks left; the errors mean a second create, no routes, a lock file that wasn't open and couldn't be opened or have its mode changed, a range that can't be split, or that all candidates were so rejected; a failure takes nothing and closes nothing, and the first two open nothing; the lock file is open after all outcomes once it was opened |
| SubnetAllocator.SubnetReservation.Reserve | packages/susa-core/src/susa/utilities/networking.py:120-134 | the part of `create` that can leave the lock file open: with that opened, or with the error exactly if opening it or changing its mode failed, the first fit |
| SubnetAllocator.LeftOpen | packages/susa-core/src/susa/utilities/networking.py:145-153 | a process whose first create fails to change the mode has the file open and no reservation |
| SubnetAllocator.SubnetReservation.Scan | packages/susa-core/src/susa/utilities/networking.py:121-134 | the loop over the candidates, with why each one before the chosen one was rejected, refused ones at the request for them |
| SubnetAllocator.SubnetReservation.Try | packages/susa-core/src/susa/utilities/networking.py:122-133 | one candidate is reserved and recorded, or is rejected for one of the three reasons |
| SubnetAllocator.SubnetReservation.Lockf | packages/susa-core/src/susa/utilities/networking.py:127-130 | a refused request means that, at that request of the run, another living process held its byte, or the system was out of locks |
| SubnetAllocator.SubnetReservation.LockFile | packages/susa-core/src/susa/utilities/networking.py:145-153 | the file is open afterwards exactly if it was or opening it succeeded, and ready exactly if changing its mode succeeded too; no other file is opened, and none closed |
| SubnetAllocator.SubnetReservation.OpenFile | packages/susa-core/src/susa/utilities/networking.py:147-152 | the file is open afterwards exactly if opening it succeeded, also when changing its mode then fails |
| SubnetAllocator.SubnetReservation.Destroy | packages/susa-core/src/susa/utilities/networking.py:136-143 | exactly its own entry goes, the file is closed exactly if that was the last one in it, and a second destroy is an error without effect |
| SubnetAllocator.SubnetReservation.Release | packages/susa-core/src/susa/utilities/networking.py:139-140 | afterwards its entry is gone, its byte is unlocked, and the process holds exactly the bytes of its other entries |
| SubnetAllocator.SubnetReservation.CloseUnused | packages/susa-core/src/susa/utilities/networking.py:141-142 | closes the lock file exactly if `TAKEN` has no other entry in it |
| ExitPattern.MatchAtIsMatch | packages/susa-communicators/src/susa/communicators/shell.py:23 | scanning greedily, without giving digits back, finds at each position exactly the matches of the pattern as it reads |
| ExitPattern.MatchIsLocal | packages/susa-communicators/src/susa/communicators/shell.py:23 | whether bytes match depends on none after the match's end |
| ExitPattern.MarksDontOverlap | packages/susa-communicators/src/susa/communicators/shell.py:23 | two occurrences of the marker's fixed part don't overlap |
| ExitPattern.NoMatchAcross | packages/susa-communicators/src/susa/communicators/shell.py:23 | a match that starts before a marker ends before it, so none straddles output and marker |
| ExitPattern.DigitsAreDecimal | packages/susa-communicators/src/susa/communicators/shell.py:23 | the digits of the pattern are those that exit codes are written with |
| ExitPattern.SearchIsStable | packages/susa-communicators/src/susa/communicators/shell.py:156 | the leftmost match stays the leftmost whatever bytes follow |
| ExitPattern.DecimalParses | packages/susa-communicators/src/susa/communicators/shell.py:158 | an exit code's digits are read back as that code |
| ExitPattern.FramedResult | packages/susa-communicators/src/susa/communicators/shell.py:156-160 | from output, marker and anything after, exactly the output and the code are cut out if and only if the output has no marker of its own |
| ExitPattern.FramedIsMinimal | packages/susa-communicators/src/susa/communicators/shell.py:138 | no proper prefix of output and marker has a match, so reading stops only when all of it arrived |
| Deadlines.Clock.WaitUntil | packages/susa-core/src/susa/utilities/generic.py:34-44 | returns at the first test that holds unless the time was up before that test, and overruns its limit by at most an interval and the longest test |
| Streams.ReadUntilLosesNothing | packages/susa-core/src/susa/core/stream.py:22-34 | however it ends, what was read is exactly the bytes between the two states of the stream, in order |
| Streams.ReadUntilInTime | packages/susa-core/src/susa/core/stream.py:22-34 | ends no later than its deadline; it succeeds only with a match, and times out only at the deadline without one, so a match found by the last read counts |
| Streams.TimesOutLate | packages/susa-core/src/susa/core/stream.py:29-33 | a timeout means that all that arrived before the deadline was read and had no match |
| Streams.ReadUntilStops | packages/susa-core/src/susa/core/stream.py:22-34 | exactly when each outcome happens: chunks are read while they come before the deadline and what was read has no match; it is found right when it has, the end of the stream is raised exactly if that comes before the deadline, and else it is a timeout at the deadline, or without one it doesn't return |
| Streams.LiteralIsPart | packages/susa-core/src/susa/core/stream.py:27 | bytes are found exactly if what was read has them as a part |
| Streams.BeforeIsFirst | packages/susa-core/src/susa/core/stream.py:29-33 | what arrived before a time is the chunks up to the first arrival that is later or the end |
| Streams.ReadAllLosesNothing | packages/susa-core/src/susa/core/stream.py:36-44 | returns exactly the bytes that arrived up to the stream's end |
| Streams.ReadAllInTime | packages/susa-core/src/susa/core/stream.py:36-44 | keeps its deadline, times out only at it, and returns only at the stream's end |
| Streams.ReadAllStops | packages/susa-core/src/susa/core/stream.py:36-44 | chunks are read while they come before the deadline; the result is returned exactly if the stream ends before it, and else it is a timeout, or without a deadline it doesn't return |
| Streams.QuietInTime | packages/susa-core/src/susa/core/stream.py:59-66 | keeps its deadline, and gives up only once less than a full window is left |
| Streams.QuietIsQuiet | packages/susa-core/src/susa/core/stream.py:56-66 | succeeds only after a full window without arrivals: all it read came before the window, and what is left comes after it |
| Streams.QuietStops | packages/susa-core/src/susa/core/stream.py:56-66 | exactly when each outcome happens: waiting goes on while there is time for a window and bytes come within it; it succeeds exactly if there is time and none come, raises the timeout exactly if there isn't, and the end of the stream exactly if that comes within the window |
| Streams.QuietDrains | packages/susa-core/src/susa/core/stream.py:59-66 | if bytes keep coming without pauses of more than a window, it succeeds only once all were read |
| Streams.Stream.ReadUntilMatch | packages/susa-core/src/susa/core/stream.py:19-34 | the loop over the stateful stream is the function the theorems are about |
| Streams.Stream.ReadToEnd | packages/susa-core/src/susa/core/stream.py:36-44 | likewise for reading to the end |
| Streams.Stream.IsQuiet | packages/susa-core/src/susa/core/stream.py:56-57 | quiet is that no bytes arrive within the duration: the next chunk comes after it, or is empty, and the stream doesn't end before |
| Streams.Stream.WaitForQuiet | packages/susa-core/src/susa/core/stream.py:59-66 | likewise for waiting for quiet |
| Shell.ShellCommunicator.Execute | packages/susa-communicators/src/susa/communicators/shell.py:125-160 | what is written to the shell, the interrupt exactly after a timeout, and that the result and the stream's new state are those the theorems are about |
| Shell.ShellCommunicator.Interrupt | packages/susa-communicators/src/susa/communicators/shell.py:139-155 | the recovery after a timeout: the interrupt and one more marker line, then up to one marker read, then quiet |
| Shell.RunDependsOnlyOnBytes | packages/susa-communicators/src/susa/communicators/shell.py:131-160 | a completed command's result is a function of the bytes that arrive, not of their times or chunks |
| Shell.MarkerIsFound | packages/susa-core/src/susa/core/stream.py:22-34 | reading finds the marker if it arrives before the deadline, or ever without one, in whatever chunks, empty ones included |
| Shell.FramedCommand | packages/susa-communicators/src/susa/communicators/shell.py:131-160 | a command whose output and marker arrive within its time limit, or at any time without one, in any chunks, returns its code and exactly that output, after bytes still pending, if and only if these have no marker themselves |
| Shell.RunExchanges | packages/susa-communicators/src/susa/communicators/shell.py:125-160 | a completed command is one exchange, from the bytes pending before to the ones still to arrive after it, whatever its output and whenever these arrive |
| Replies.ExactReply | packages/susa-communicators/src/susa/communicators/shell.py:156-160 | with nothing pending, a command returns what comes before the first marker in its output, which is the whole of it exactly if it has none; then it returns its own code, too, and leaves nothing |
| Replies.CutoffOfRest | packages/susa-communicators/src/susa/communicators/shell.py:156-160 | what comes after the bytes before the first marker starts with it, so that nothing is returned of it |
| Replies.PartsHaveNone | packages/susa-communicators/src/susa/communicators/shell.py:23 | no part of an output without a marker has one |
| Replies.StaleMarker | packages/susa-communicators/src/susa/communicators/shell.py:156-160 | after an output that is a marker, if what ends the command arrives late, the next command returns nothing of its output, whatever that is |
| Replies.LuckyPieces | packages/susa-communicators/src/susa/communicators/unix.py:242-257 | three pieces cut by a shell may together be an output that has a marker |
| Shell.Resynchronised | packages/susa-communicators/src/susa/communicators/shell.py:139-155 | when a timeout leaves `run` and nothing arrives after its quiet window, the stream is empty, whether one, two or more markers came |
| Shell.PromptResynchronises | packages/susa-communicators/src/susa/communicators/shell.py:139-155 | which is so if what the shell writes for the command and the interrupt never pauses for longer than the quiet window |
| Shell.EndsOnlyIfClosed | packages/susa-communicators/src/susa/communicators/shell.py:137-155 | the end of the stream is raised only if the stream was closed |
| Shell.TimeoutIsRaised | packages/susa-communicators/src/susa/communicators/shell.py:139-155 | a command that takes too long raises its timeout if the stream stays open and nothing arrives later than a window before the recovery's limit |
| Shell.TimesOutOnlyLate | packages/susa-communicators/src/susa/communicators/shell.py:137-155 | a timeout is raised only after the time limit, never without one, and only without one may a command not return, which on an open stream means that no marker comes |
| Shell.LateMarkerIsAwaited | packages/susa-communicators/src/susa/communicators/shell.py:146-153 | the marker printed after the interrupt is waited for, however long the shell is silent before it, so that nothing is left |
| Shell.CompletesOrTimesOut | packages/susa-communicators/src/susa/communicators/shell.py:125-160 | so on a stream that stays open and settles in time a command completes or raises its timeout |
| Shell.RunInTime | packages/susa-communicators/src/susa/communicators/shell.py:137-155 | a command with a time limit returns within it and the recovery's own limits |
| Shell.CompletedIsExact | packages/susa-communicators/src/susa/communicators/shell.py:156-160 | on a stream with nothing stale, a command that completes within its time limit returns its own output and code, and leaves nothing |
| Shell.SessionIsExact | packages/susa-communicators/src/susa/communicators/shell.py:125-160 | in any sequence of commands, timed out ones among them, every one that completes returns exactly its own output and code |
| Shell.SessionLasts | packages/susa-communicators/src/susa/communicators/shell.py:125-160 | a sequence of such commands runs to its last one, whichever of them time out |
| Printf.PrintsBack | packages/susa-communicators/src/susa/communicators/unix.py:132-135 | for all bytes, `printf` writes back exactly the bytes the text stands for: no escape swallows a character after it |
| Printf.EscapedIs | packages/susa-communicators/src/susa/communicators/unix.py:132-135 | letters and digits stand for themselves, and anything else is a backslash with three characters |
| Printf.EncodedIsVerbatim | packages/susa-communicators/src/susa/communicators/unix.py:132-135 | the text never has a single quote or a percent sign |
| Printf.CommandPrints | packages/susa-communicators/src/susa/communicators/unix.py:136-138 | the shell passes the quoted text on as it is, what `printf` makes of it is the piece, and the redirection appends it to the target |
| Printf.EncodedLength | packages/susa-communicators/src/susa/communicators/unix.py:132-135 | the text has at most four characters for each byte, and at least one |
| Printf.RemoteFile.Append | packages/susa-communicators/src/susa/communicators/unix.py:128-138 | the file, which each command appends to or replaces as its redirection says, grows by exactly the data, or, if a command raises, by a whole number of 512-byte pieces from its start |
| UnixCommands.NothingPrinted | packages/susa-communicators/src/susa/communicators/unix.py:245-254 | what is printed from an offset is a beginning of the rest, of just the size if there is more; it is nothing exactly if everything was delivered or no bytes were asked for |
| UnixCommands.NothingRead | packages/susa-communicators/src/susa/communicators/unix.py:250-254 | over a shell, nothing is read from an offset exactly if everything was delivered, no bytes were asked for, or what is printed starts with a marker |
| UnixCommands.ShellIsFraming | packages/susa-communicators/src/susa/communicators/shell.py:156-160 | cutting outputs at the first marker, or not at all, is what the background commands' theorems are about: a beginning of the output is returned, then nothing, all of each part of what is returned whole, and all of an exit status |
| UnixCommands.PieceIsNext | packages/susa-communicators/src/susa/communicators/unix.py:249-253 | a piece is what comes next in the file, at most the size; after one without a size there is no other; if the file isn't cut it is all that was printed |
| UnixCommands.EarlyEnd | packages/susa-communicators/src/susa/communicators/unix.py:245-254 | a read of size 0 of a command that wrote a byte and exited reports the end with the byte unread |
| UnixCommands.MarkedEnd | packages/susa-communicators/src/susa/communicators/unix.py:250-255 | over a shell, a read of a command that wrote just a marker and exited reports the end with all of it unread |
| UnixCommands.UnixCommand.Poll | packages/susa-communicators/src/susa/communicators/unix.py:183-193 | the exit code is the status file's, also over a shell, never changes once known, and closes the input |
| UnixCommands.UnixCommand.Wait | packages/susa-communicators/src/susa/communicators/unix.py:195-201 | returns the exit code, or times out no earlier than its limit, and overruns it by less than a poll interval and two remote commands |
| UnixCommands.UnixCommand.CloseStdin | packages/susa-communicators/src/susa/communicators/unix.py:226-231 | the input's holder is gone afterwards, also on a second call |
| UnixCommands.UnixOutputStream.Attempt | packages/susa-communicators/src/susa/communicators/unix.py:247-251 | one round: what is read is the piece that the communicator returns of what `tail` prints at that moment; getting nothing of a file that isn't cut means that all was delivered, unless no bytes were asked for; `finished` was so before the file was read |
| UnixCommands.UnixOutputStream.Read | packages/susa-communicators/src/susa/communicators/unix.py:242-257 | against any writer and framing, the reads' results together are the file's first bytes up to the offset, at most the size each; the end is reported only of a command that exited, with no piece left to get, which is with everything delivered but for size 0 or a file that is cut; of a command known to have exited a read gets exactly the piece, or the end if it is empty; bytes are left for later commands only if the file is cut; the limit is overrun by less than a poll interval and three remote commands |
| UnixCommands.UnixOutputStream.ReadAll | packages/susa-core/src/susa/core/stream.py:36-44 | over the tailing reader, ends only with no piece left: with the whole rest of the file if that isn't cut; of a command known to have exited it returns exactly what the communicator returns of the whole rest; it is late only once its limit passed |
| UnixCommands.Run | packages/susa-communicators/src/susa/communicators/unix.py:43-54 | closes the command's input, and returns the exit code and exactly what the communicator returns of all that was written to each output, though both are read after the command exited; it times out only once the limit passed, and hangs only without one on a command that never exits |
| UnixCommands.RunOverShell | packages/susa-communicators/src/susa/communicators/unix.py:43-54 | over a shell, each output is returned up to its first marker, which is the whole of it exactly if it has none |
| AsyncRun.Preserved | packages/susa-core/src/susa/core/communicator.py:103-119 | in every step, what was written to an output is what its reader got and what is in the pipe, in order, and readers end only once the writers are gone |
| AsyncRun.ReturnsWhatWasWritten | packages/susa-core/src/susa/core/communicator.py:114-119 | whatever the interleaving, what is returned is exactly what was written to each output |
| AsyncRun.OutputConserved | packages/susa-core/src/susa/core/communicator.py:103-119 | no step of a command that leaves nothing behind loses or reorders what it has written and has yet to write |
| AsyncRun.ReturnsTheProgram | packages/susa-core/src/susa/core/communicator.py:99-127 | for a command that leaves nothing behind, that is its whole output |
| AsyncRun.Decreases | packages/susa-core/src/susa/core/communicator.py:103-119 | a measure decreases with every step |
| AsyncRun.RunsAreFinite | packages/susa-core/src/susa/core/communicator.py:103-119 | so that no run is longer than the initial measure |
| AsyncRun.NeverStuck | packages/susa-core/src/susa/core/communicator.py:106-109 | with any positive pipe capacity, before the return some step can be taken in every state the invariant allows |
| AsyncRun.AlwaysReturns | packages/susa-core/src/susa/core/communicator.py:99-127 | every run that can't go on has returned, also with processes left behind that hold the pipes, whether they are killed with the command's process group or left it |
| AsyncRun.SequentialReadingHangs | packages/susa-core/src/susa/core/stream.py:46-51 | reading after waiting instead would hang on any output larger than a pipe, which is why the reading is in threads |
| TextOrder.Mixed | packages/susa-libvirt/src/susa/libvirt/model.py:23-31 | the order of strings by their characters is total and transitive |
| TextOrder.LessByFirst | packages/susa-libvirt/src/susa/libvirt/model.py:23-31 | it is decided by the first difference: the string that ends there or has the smaller character comes first |
| XmlModel.BisectSplits | packages/susa-libvirt/src/susa/libvirt/model.py:24-26 | in a sorted list, the index found is after all elements with a tag up to the given one and before all others |
| XmlModel.AddedByTag | packages/susa-libvirt/src/susa/libvirt/model.py:24-26 | adding keeps the list sorted, appends to its tag's list, and leaves the other tags' lists as they were |
| XmlModel.PutByTag | packages/susa-libvirt/src/susa/libvirt/model.py:40-43 | putting keeps the list sorted, replaces its tag's list, and leaves the others |
| XmlModel.SortedIsDetermined | packages/susa-libvirt/src/susa/libvirt/model.py:23 | two sorted lists with equal lists for each tag are equal |
| XmlModel.SortedIsGrouped | packages/susa-libvirt/src/susa/libvirt/model.py:23 | a sorted list is the concatenation of its tags' lists in tag order |
| XmlModel.BuiltByTag | packages/susa-libvirt/src/susa/libvirt/model.py:24-43 | after any operations, each tag's list is what the operations on that tag alone make of it |
| XmlModel.OrderDoesntMatter | packages/susa-libvirt/src/susa/libvirt/model.py:23 | two sequences of operations with the same ones on each tag build equal children |
| XmlModel.AttributeIsUpdate | packages/susa-libvirt/src/susa/libvirt/model.py:29-31 | setting an attribute updates the map from name to value, and leaves the list in strict name order |
| XmlModel.ByNameIsDetermined | packages/susa-libvirt/src/susa/libvirt/model.py:23 | the list of attributes is determined by that map |
| XmlModel.AddedAllKeeps | packages/susa-libvirt/src/susa/libvirt/model.py:18-19 | adding sorted trees leaves a tree that is sorted at every depth |
| XmlModel.AddedAllByTag | packages/susa-libvirt/src/susa/libvirt/model.py:18-19 | adding elements one by one appends, for each tag, those of the tag in their order |
| XmlModel.NewNode | packages/susa-libvirt/src/susa/libvirt/model.py:10-20 | a new element has exactly the given elements, sorted, with those of each tag in their order, and the given attributes by name; it is sorted at every depth if its elements are |
| XmlModel.Node.AddChild | packages/susa-libvirt/src/susa/libvirt/model.py:24-26 | in place, the children become those with the element added; sortedness at every depth is kept |
| XmlModel.Node.PutChild | packages/susa-libvirt/src/susa/libvirt/model.py:40-43 | removing the found elements one by one and adding is the same as replacing; sortedness at every depth is kept |
| XmlModel.Node.SetAttribute | packages/susa-libvirt/src/susa/libvirt/model.py:29-31 | in place, the attributes become those with the name set; sortedness at every depth is kept |
| MachineModel.NumberOfSuffix | packages/susa-libvirt/src/susa/libvirt/machine_model.py:257-264 | the number is recovered from the name |
| MachineModel.SuffixOfNumber | packages/susa-libvirt/src/susa/libvirt/machine_model.py:257-264 | every string of the letters a to z is the name of its number |
| MachineModel.OrderIsShortLex | packages/susa-libvirt/src/susa/libvirt/machine_model.py:257-264 | numbers are in the order of names, shorter ones first and then alphabetically |
| MachineModel.SuffixesInOrder | packages/susa-libvirt/src/susa/libvirt/machine_model.py:257-264 | and names in that of numbers |
| MachineModel.NamesAreDistinct | packages/susa-libvirt/src/susa/libvirt/machine_model.py:148-158 | all disks of a built model have different device names, whatever their buses |
| MachineModel.NameExamples | packages/susa-libvirt/src/susa/libvirt/machine_model.py:257-264 | the first disk on virtio is vda, the 27th on IDE hdaa, the second on a floppy's bus fdb, and the 703rd on any other sdaaa |
| MachineModel.TargetIsFirst | packages/susa-libvirt/src/susa/libvirt/machine_model.py:148-158 | the target looked at is the disk's first one |
| MachineModel.TargetedIsTheDisk | packages/susa-libvirt/src/susa/libvirt/machine_model.py:149-155 | the copy that is added has exactly one target, of just the bus and the device name, and everything else as the disk has it |
| MachineModel.LVMachineModel.NextDiskName | packages/susa-libvirt/src/susa/libvirt/machine_model.py:257-264 | the loop ends with the bus's prefix and the name of the next number |
| MachineModel.LVMachineModel.Disk | packages/susa-libvirt/src/susa/libvirt/machine_model.py:148-158 | the disk, with a target of its own bus or the default one and the next name, is added last among the disks; a target without a bus is an error without effect; nothing else changes, and all disks stay named in order |
| NetworkModel.RangesAreExact | packages/susa-libvirt/src/susa/libvirt/network_model.py:31-46 | the DHCP ranges are disjoint, and together exactly the addresses strictly between network and broadcast but its own |
| NetworkModel.NetworkIsOfOwn | packages/susa-libvirt/src/susa/libvirt/network_model.py:31 | the network is of the addresses with the leading bits of its own, of the netmask's length |
| NetworkModel.HostsAreExact | packages/susa-libvirt/src/susa/libvirt/network_model.py:75-78 | the hosts are all addresses of the network but its first and last one, or all if it has no more than two |
| NetworkModel.HostsAreInRanges | packages/susa-libvirt/src/susa/libvirt/network_model.py:31-46 | the DHCP ranges are exactly the hosts other than its own, unless the network is a /31, which has no ranges |
| NetworkModel.UsedAreTheVisible | packages/susa-libvirt/src/susa/libvirt/network_model.py:95-98 | an IP counts as used exactly if a reservation of it has no later one for its MAC |
| NetworkModel.FirstFree | packages/susa-libvirt/src/susa/libvirt/network_model.py:78-80 | the lowest host that isn't used, or none exactly if all are |
| NetworkModel.LVNetworkModel.SetIp | packages/susa-libvirt/src/susa/libvirt/network_model.py:23-50 | raises exactly with DHCP on the first or last of all addresses; otherwise replaces the address, the ranges, all reservations and the DNS entry |
| NetworkModel.LVNetworkModel.Interface | packages/susa-libvirt/src/susa/libvirt/network_model.py:65-83 | appends one reservation for the MAC, of the given IP or the lowest free host, keeping the others, as the theorems about runs have it; raises exactly if no host is free, or if an IP is given without DHCP |
| NetworkModel.AutomaticIsInRanges | packages/susa-libvirt/src/susa/libvirt/network_model.py:72-81 | a picked IP is in the DHCP ranges if and only if the network isn't a /31 |
| NetworkModel.OutsideExample | packages/susa-libvirt/src/susa/libvirt/network_model.py:72-81 | on 10.0.0.0/31 the first picked IP is outside |
| NetworkModel.StaysDistinct | packages/susa-libvirt/src/susa/libvirt/network_model.py:65-83 | one more reservation keeps all reserved IPs different from each other and from its own, if MACs are different and a given IP is fresh |
| NetworkModel.ReservationsAreInjective | packages/susa-libvirt/src/susa/libvirt/network_model.py:65-83 | so does any run of them |
| NetworkModel.ReissuedIfShadowed | packages/susa-libvirt/src/susa/libvirt/network_model.py:74-78 | in general the next picked IP is one already reserved exactly if, before, the lowest free address was that of a reservation hidden by a later one for its MAC |
| NetworkModel.ReissuedExample | packages/susa-libvirt/src/susa/libvirt/network_model.py:95-98 | which happens in a run on 10.0.0.1/24 from no reservations: a MAC gets an IP, then a given one, and another MAC gets the first |
| Recipes.MakesIf | packages/susa-recipes/src/susa/recipes/__init__.py:176-207 | a recipe is made exactly if all of its references, at any depth, are to objects there are, and no call in it raises for another reason |
| Recipes.MakesAsWritten | packages/susa-recipes/src/susa/recipes/__init__.py:176-207 | what is made is what the recipe says: its class called with each argument by its name, or with none and then each step's builder in order; a plain value is passed as it is, a reference as the object of its name with the attributes after it, and a recipe as its own object, at any depth |
| Recipes.IsOne | packages/susa-recipes/src/susa/recipes/__init__.py:176-207 | which leaves nothing about it open: one object is that |
| Recipes.MakesExactly | packages/susa-recipes/src/susa/recipes/__init__.py:71-75 | what is made uses exactly the objects its references name, at any depth |
| Recipes.MakesAlike | packages/susa-recipes/src/susa/recipes/__init__.py:176-207 | what is made, or that nothing is, depends on no other objects than those of the names referred to, at any depth |
| Sessions.UniqueIfAsMany | packages/susa-recipes/src/susa/recipes/session.py:26-30 | there are as many different names as objects exactly if no two have the same |
| Sessions.NewSession | packages/susa-recipes/src/susa/recipes/session.py:25-30 | a session is refused exactly if two objects have the same name |
| Sessions.ResolvesBackward | packages/susa-recipes/src/susa/recipes/session.py:47-49 | the names made, over all attempts, are those of a prefix of the objects, and references that resolve are to objects before |
| Sessions.MakesInTurn | packages/susa-recipes/src/susa/recipes/session.py:47-49 | whatever earlier attempts left, an entry's object can be made in its turn exactly if its references are to earlier entries and no call in it raises |
| Sessions.UsesCurrent | packages/susa-recipes/src/susa/recipes/session.py:47-49 | what a recipe makes in its turn uses only objects of the current attempt at earlier positions |
| Sessions.StaysCoherent | packages/susa-recipes/src/susa/recipes/session.py:47-49 | making the next object keeps that of every object, in every attempt: none is ever stale, later or another's |
| Sessions.WrittenOneMore | packages/susa-recipes/src/susa/recipes/session.py:47-49 | making the next object keeps those before it as their recipes make them of the objects there are |
| Sessions.WrittenIsOf | packages/susa-recipes/src/susa/recipes/session.py:49 | so an object is what its recipe says of the objects of the attempt, and uses exactly those that have the names it refers to |
| Sessions.StopsOrNot | packages/susa-recipes/src/susa/recipes/session.py:46-53 | an attempt that some entry is the first to stop isn't one that nothing stops, which are told apart by the recipes and by which creates raise |
| Sessions.StandingAfterUndo | packages/susa-recipes/src/susa/recipes/session.py:59-63 | creations followed by their destructions in reverse leave exactly the resources that stood before |
| Sessions.Session.Attempt | packages/susa-recipes/src/susa/recipes/session.py:46-53 | makes and creates everything in order, or stops at the first entry whose making or creating raises: all objects before it are made as their recipes say and none of their creates raised, and exactly their resources are created |
| Sessions.Session.MakeEntry | packages/susa-recipes/src/susa/recipes/session.py:48-49 | replaces exactly the entry's object, in this attempt |
| Sessions.Session.Create | packages/susa-recipes/src/susa/recipes/session.py:43-56 | succeeds if and only if every recipe refers only to earlier entries, no call in it raises, and no create of a resource does; then every object is what its recipe says of the objects of this attempt, call by call and argument by argument. Otherwise it stops at the first entry where that fails, and destroys exactly the resources whose creates didn't raise, once each and in reverse; it completes that if and only if none of these destroys raises, and else the first one that does leaves exactly the resources not yet popped |
| Sessions.Session.Destroy | packages/susa-recipes/src/susa/recipes/session.py:58-63 | destroys everything created, last first, if and only if no destroy raises; else it stops at the first one that does, with those before it left |
| Sessions.Session.Pop | packages/susa-recipes/src/susa/recipes/session.py:60-63 | takes the most recently created resource that still stands off the list and destroys it, which is logged as done if and only if the destroy didn't raise |
| StateSave.RunningAreRunning | packages/susa-libvirt/src/susa/libvirt/state.py:51-55 | the machines saved are exactly those that ran at the start |
| StateSave.StopAll | packages/susa-libvirt/src/susa/libvirt/state.py:56-57 | exactly those machines stop, in any order of writes by the ones that still run; each one's memory at its stop goes to its own index's file, and agrees with the volumes nobody used any more |
| StateSave.CopyAll | packages/susa-libvirt/src/susa/libvirt/state.py:58-60 | with no listed machine running, every volume's data goes to its own index's file; at every copy, each volume whose users are all listed holds what it held at the start |
| StateSave.RestartAll | packages/susa-libvirt/src/susa/libvirt/state.py:61-62 | exactly the machines that were stopped run again, each restored in order from its own index's file with the memory in it, and none started afresh |
| StateSave.Save | packages/susa-libvirt/src/susa/libvirt/state.py:46-63 | volumes are copied only while no listed machine runs; every volume whose users are all listed, whoever else's aren't, holds the same at every copy, so that their copies are of one moment; exactly the machines that ran run again, each restored last of all from its own file and none started afresh, and the files are the volumes' and theirs; it raises only if an operation does, the directory exists, a volume doesn't or a running machine is listed twice, and never leaves a machine running that was off |
| StateSave.MemoriesComeBack | packages/susa-libvirt/src/susa/libvirt/state.py:56-62 | so each machine that ran was restored, after all copies, with the memory it had when it was stopped |
| StateSave.CopiesAreTheCut | packages/susa-libvirt/src/susa/libvirt/state.py:58-60 | so that the file of each volume whose users are all listed is its data of the one moment |
| StateSave.MemoriesAgreeWithCopies | packages/susa-libvirt/src/susa/libvirt/state.py:56-60 | and each memory was saved when the volumes with such copies that nobody used any more held the data of these copies |
| Hosts.Host.RestoreVolume | packages/susa-libvirt/src/susa/libvirt/volume.py:42-44 | the new volume holds the file's data, and volumes not in use keep theirs; if just the upload raises, and only then, the call fails and leaves a new volume |
| Hosts.Host.SaveMachine | packages/susa-libvirt/src/susa/libvirt/machine.py:94-95 | the file is the machine's memory of the moment it is stopped, and volumes not in use keep their data |
| Hosts.Host.RestoreMachine | packages/susa-libvirt/src/susa/libvirt/machine.py:98-100 | the machine runs with the file's memory |
| StateSave.SaveEach | packages/susa-libvirt/src/susa/libvirt/state.py:56-62 | the three loops in this order: all copies lie between the last stop and the first restart, the last events are the restarts, and nothing is started afresh |
| SavedState.LVState.CreateAll | packages/susa-libvirt/src/susa/libvirt/state.py:30-36 | creates in order, each resource from its own index's file if it is a machine or volume that has one, stopping at the first that raises |
| SavedState.LVState.Create | packages/susa-libvirt/src/susa/libvirt/state.py:23-39 | creates all resources: then just the listed machines run besides those that did, each started with its file's memory when volumes created before held their files' data unless some other machine used them, and these still do unless some machine uses them; or, if one raises, destroys those before it in reverse, once each, so that just the machines run that did, and of volumes just those are there that were and the one at which it stopped if that was created, which is exactly if its creation didn't raise and its name was new. It succeeds exactly if no operation raises, something was saved, and the saved resources are gone and listed once; a raising destroy leaves exactly those before it |
| SavedState.LVState.RollBack | packages/susa-libvirt/src/susa/libvirt/state.py:37-39 | undoing what was created restores which machines run and which volumes exist, but for the one whose upload raised, which is left exactly if its creation succeeded |
| SavedState.LeavesVolume | packages/susa-libvirt/src/susa/libvirt/state.py:30-39 | creating a saved volume whose upload raises leaves it after the rollback |
| SavedState.LVState.Destroy | packages/susa-libvirt/src/susa/libvirt/state.py:41-44 | destroys in reverse order, once each, or stops at one that raises, leaving those before it; one does only if the operation itself does, or a volume is missing or listed twice |
| SavedState.ComesBack | packages/susa-libvirt/src/susa/libvirt/state.py:14-15 | after a save, creating gives each volume its copy's data, which is that of the one moment if all its users are listed, each machine that ran its own memory of its stop, and starts the rest afresh |
| SavedState.SaveAndCreate | packages/susa-libvirt/src/susa/libvirt/state.py:14-15 | saving, destroying and creating again on one host, whatever is written in between: every resource comes back so, all listed machines run, and volumes whose users are all listed still hold the one moment's data unless some machine that uses them runs; it fails only if an operation does, the directory exists, a volume doesn't, or a resource is listed twice |

## Left out

- Calls to `virsh`, `kubectl`, `virtctl`, `podman`, `qemu-img`, `subprocess` and `select`: only the effects the properties
  name (running, copied, locked, arrived) are modelled.
- Argument lists of clients, pinging, random names and MACs, logging, screenshots, the test plugin: no properties beyond
  their text.
- `ShellCommunicator.attach`, `create` and `destroy`: connecting and setting up depend on what shells do with the setup line,
  which the code leaves to them; the framing they rest on is modelled.
- Python exceptions from outside, such as an interrupt between two statements, in every part.
- Shell.ShellCommunicator.Execute: a write that fails because the connection is closed isn't modelled, and neither is
  what a caller may do after the recovery saw no quiet window: a sequence of commands ends there.
- `FileStream.write`, which goes on until a blocking pipe accepted everything.
- Streams.Stream.ReadToEnd: a timeout drops what was read, so that nothing is stated about reading on after one.
- UnixCommands.UnixOutputStream.Read: what happens once a remote command found bytes that an earlier, cut one left in the
  stream isn't modelled further (`Garbled`, and `Unknown`, `Undefined` and the like elsewhere): it depends on which bytes,
  up to an exit status that isn't a number.
- UnixCommands.Run: remote commands that fail themselves (`mktemp`, `kill`) aren't modelled, nor is killing the command.
- AsyncRun.AlwaysReturns: without a time limit only, and with a finite number of writes by what is left behind; the path
  that kills the command on a timeout isn't modelled, and that some step is possible in each state stands for the scheduler
  eventually taking one.
- `upload`, `download`, `write_file` and `read_file`: they rest on gzip and tar.
- XmlModel.Node.AddChild: children are inserted as values, so that changing an element after it was added to another isn't
  captured; `bisect_right` is the library's and is modelled as a function. A tag is taken as a path that finds just the
  children with that tag.
- `LVModel.parse` of XML from elsewhere, which needn't be sorted, and the other builders, whose operations are those of
  XmlModel; PCI slots, which are a first free number like IPs.
- MachineModel.LVMachineModel.Disk: the default bus is fixed, while changing the architecture between disks changes it.
- NetworkModel.LVNetworkModel.Interface: reservations are kept as the list that the XML's `host` elements are, in the order
  that XmlModel.AddedByTag gives them; given IPs are taken as they are, without parsing; the interface's own XML is not
  part of this model.
- NetworkModel.LVNetworkModel.SetIp: the netmask is given as a prefix length, without its text.
- Recipes.MakesExactly: objects are the calls that made them with their arguments, so that what builders do to objects they
  are given isn't captured; following attributes never fails by itself, and failing calls are a parameter.
- Schemas of recipes: they are built from the classes at run time by pydantic.
- StateSave.Save: creating the directory fails only if it exists, and saving a memory or copying a volume is one step; after
  a failure, machines that ran may be left off, as in the code.
- SavedState.LVState.Create: a machine's definition without it running isn't modelled, so that one whose restoring raises
  after it was defined leaves nothing here.
- `emulation.py`, KubeVirt, containers, snapshots, variables and the keyboard table: text for other programs, stacks and a
  finite table.
