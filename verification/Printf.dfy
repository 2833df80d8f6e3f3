/**
 Appending bytes to a remote file by shell commands of the form printf '...' >> file: the text for each piece, how the
 shell and `printf` read it back (sections 2.2.2 and "printf" of POSIX.1-2017 XCU), and the loop over the pieces.
 */
module Printf {
  import opened Common

  const PRINTF_CHUNK_SIZE := 512

  predicate IsAlphanumeric(b: Byte) {
    48 <= b <= 57 || 65 <= b <= 90 || 97 <= b <= 122
  }

  function OctalDigit(n: nat): char
    requires n < 8
  {
    '0' + n as char
  }

  // What stands for one byte: itself, or a backslash and three octal digits.
  function Escaped(b: Byte): string {
    if IsAlphanumeric(b) then [b as int as char]
    else
      var n := b as int;
      ['\\', OctalDigit(n / 64), OctalDigit(n / 8 % 8), OctalDigit(n % 8)]
  }

  // Letters and digits stand for themselves, and nothing else does.
  lemma EscapedIs(b: Byte)
    ensures var c := b as int as char;
      if '0' <= c <= '9' || 'A' <= c <= 'Z' || 'a' <= c <= 'z' then Escaped(b) == [c]
      else |Escaped(b)| == 4 && Escaped(b)[0] == '\\'
  {
  }

  function Encoded(data: Bytes): string {
    if data == [] then [] else Escaped(data[0]) + Encoded(data[1..])
  }

  // ---- How `printf` reads a format ----

  predicate IsOctal(c: char) {
    '0' <= c <= '7'
  }

  function OctalRun(s: string): (n: nat)
    ensures n <= |s| && n <= 3
    ensures forall i | 0 <= i < n :: IsOctal(s[i])
    ensures n < 3 && n < |s| ==> !IsOctal(s[n])
  {
    if |s| == 0 || !IsOctal(s[0]) then 0
    else if |s| == 1 || !IsOctal(s[1]) then 1
    else if |s| == 2 || !IsOctal(s[2]) then 2
    else 3
  }

  function OctalDigitValue(c: char): nat
    requires IsOctal(c)
  {
    c as int - 48
  }

  function OctalValue(s: string): (n: nat)
    requires forall c | c in s :: IsOctal(c)
  {
    if s == [] then 0
    else
      assert IsOctal(s[|s| - 1]);
      OctalValue(s[..|s| - 1]) * 8 + OctalDigitValue(s[|s| - 1])
  }

  // The byte of an octal escape sequence after its backslash, and the length of what stands for it. There are no others
  // in the text.
  function Escape(s: string): Option<(Byte, nat)> {
    var n := OctalRun(s);
    if n > 0 && OctalValue(s[..n]) < 256 then Some((OctalValue(s[..n]) as Byte, n)) else None
  }

  // What a format with no operands writes: undefined with conversions, other escapes or characters outside ASCII.
  function Printed(format: string): Option<Bytes>
    decreases |format|
  {
    if format == [] then Some([])
    else if format[0] == '\\' then
      match Escape(format[1..])
      case None => None
      case Some((b, n)) =>
        if n > |format| - 1 then None
        else Prepended(b, Printed(format[1 + n..]))
    else if format[0] == '%' || format[0] >= 128 as char then None
    else Prepended(format[0] as int as Byte, Printed(format[1..]))
  }

  function Prepended(b: Byte, rest: Option<Bytes>): Option<Bytes> {
    match rest
    case None => None
    case Some(bytes) => Some([b] + bytes)
  }

  lemma ThreeDigits(n: nat)
    requires n < 256
    ensures OctalValue([OctalDigit(n / 64), OctalDigit(n / 8 % 8), OctalDigit(n % 8)]) == n
  {
    var digits := [OctalDigit(n / 64), OctalDigit(n / 8 % 8), OctalDigit(n % 8)];
    assert digits[..2] == [digits[0], digits[1]] && digits[..2][..1] == [digits[0]] && digits[..2][..1][..0] == [];
    assert OctalValue(digits[..2][..1]) == n / 64;
    assert OctalValue(digits[..2]) == n / 64 * 8 + n / 8 % 8;
  }

  lemma EscapedReads(b: Byte, rest: string)
    ensures Printed(Escaped(b) + rest) == Prepended(b, Printed(rest))
  {
    var text := Escaped(b) + rest;
    if IsAlphanumeric(b) {
      assert text[1..] == rest;
    } else {
      var n := b as int;
      var digits := [OctalDigit(n / 64), OctalDigit(n / 8 % 8), OctalDigit(n % 8)];
      assert text[1..] == digits + rest;
      assert text[1..][..3] == digits;
      ThreeDigits(n);
      assert text[1 + 3..] == rest;
    }
  }

  /** Every sequence of bytes is printed back exactly, whatever follows an escape. */
  lemma {:induction false} PrintsBack(data: Bytes)
    ensures Printed(Encoded(data)) == Some(data)
  {
    if data != [] {
      EscapedReads(data[0], Encoded(data[1..]));
      PrintsBack(data[1..]);
      assert [data[0]] + data[1..] == data;
    }
  }

  // ---- How the shell reads the command ----

  predicate Verbatim(s: string) {
    forall c | c in s :: c != '\'' && c != '%'
  }

  lemma {:induction false} EncodedIsVerbatim(data: Bytes)
    ensures Verbatim(Encoded(data))
  {
    if data != [] {
      EncodedIsVerbatim(data[1..]);
    }
  }

  const PRINTF := "printf '"

  function AppendCommand(format: string, target: string): string {
    PRINTF + (format + "'" + (" >> " + target))
  }

  // The characters up to the quote that closes the current one.
  function Quoted(s: string): (quoted: string)
    ensures |quoted| <= |s|
  {
    if s == [] || s[0] == '\'' then [] else [s[0]] + Quoted(s[1..])
  }

  // What a `printf '...'` command prints and where: its operand, as the shell passes it, and the redirection after it.
  datatype Command = Command(format: string, appends: bool, path: string)

  const APPEND := " >> "
  const TRUNCATE := " > "

  function Parsed(command: string): Option<Command> {
    if PRINTF <= command then
      var operand := command[|PRINTF|..];
      var format := Quoted(operand);
      if |format| < |operand| then Redirected(format, operand[|format| + 1..]) else None
    else None
  }

  function Redirected(format: string, rest: string): Option<Command> {
    if APPEND <= rest then Some(Command(format, true, rest[|APPEND|..]))
    else if TRUNCATE <= rest then Some(Command(format, false, rest[|TRUNCATE|..]))
    else None
  }

  lemma {:induction false} QuotedWhole(s: string, rest: string)
    requires Verbatim(s)
    ensures Quoted(s + "'" + rest) == s
  {
    var all := s + "'" + rest;
    if s != [] {
      assert all[1..] == s[1..] + "'" + rest;
      assert all[0] == s[0] && s[0] in s;
      assert forall c | c in s[1..] :: c in s;
      QuotedWhole(s[1..], rest);
      assert s == [s[0]] + s[1..];
    }
  }

  /** The shell passes the text on as it is, `printf` writes the bytes it stands for, and they are appended. */
  lemma CommandPrints(data: Bytes, target: string)
    ensures Parsed(AppendCommand(Encoded(data), target)) == Some(Command(Encoded(data), true, target))
    ensures Printed(Encoded(data)) == Some(data)
  {
    EncodedIsVerbatim(data);
    ParsedAsWritten(Encoded(data), target);
    PrintsBack(data);
  }

  lemma ParsedAsWritten(format: string, target: string)
    requires Verbatim(format)
    ensures Parsed(AppendCommand(format, target)) == Some(Command(format, true, target))
  {
    var operand := format + "'" + (" >> " + target);
    assert (PRINTF + operand)[|PRINTF|..] == operand;
    QuotedWhole(format, " >> " + target);
    assert operand[|format| + 1..] == " >> " + target;
  }

  /** The text of a piece has at most four characters for each of its bytes, and is as long as what it stands for. */
  lemma {:induction false} EncodedLength(data: Bytes)
    ensures |data| <= |Encoded(data)| <= 4 * |data|
  {
    if data != [] {
      EncodedLength(data[1..]);
    }
  }

  // ---- The loop ----

  // How a command fares: it may raise, having run or not.
  datatype Fate = Succeeds | FailsBefore | FailsAfter

  predicate AnyFails(fates: seq<Fate>) {
    FailsBefore in fates || FailsAfter in fates
  }

  class RemoteFile {
    const target: string
    var contents: Bytes
    var fates: seq<Fate>

    constructor (target: string, fates: seq<Fate>)
      ensures this.target == target && contents == [] && this.fates == fates
    {
      this.target, this.contents, this.fates := target, [], fates;
    }

    // What the file holds after the command: the bytes printed are appended to it or replace it, if they go to it.
    function After(command: string, before: Bytes): Bytes
      requires Parsed(command).Some? && Printed(Parsed(command).value.format).Some?
    {
      var c := Parsed(command).value;
      if c.path != target then before
      else (if c.appends then before else []) + Printed(c.format).value
    }

    // Runs a `printf` command.
    method Check(command: string) returns (ok: bool)
      requires Parsed(command).Some? && Printed(Parsed(command).value.format).Some?
      modifies this
      ensures contents == After(command, old(contents)) || (!ok && contents == old(contents))
      ensures !ok || AnyFails(fates) ==> AnyFails(old(fates))
    {
      var fate := if fates == [] then Succeeds else fates[0];
      fates := if fates == [] then [] else fates[1..];
      if fate != FailsBefore {
        contents := After(command, contents);
      }
      ok := fate == Succeeds;
    }

    /** Appends all of the data, or raises having appended a whole number of pieces of it. */
    method Append(data: Bytes) returns (ok: bool)
      modifies this
      ensures ok ==> contents == old(contents) + data
      ensures !ok ==> exists k: nat :: contents == old(contents) + FirstPieces(data, k)
      ensures !ok ==> AnyFails(old(fates))
    {
      var i := 0;
      ghost var k := 0;
      assert old(contents) + [] == old(contents);
      while i < |data|
        invariant i == k * PRINTF_CHUNK_SIZE
        invariant contents == old(contents) + FirstPieces(data, k)
        invariant AnyFails(fates) ==> AnyFails(old(fates))
      {
        var end := if i + PRINTF_CHUNK_SIZE <= |data| then i + PRINTF_CHUNK_SIZE else |data|;
        var piece := data[i..end];
        CommandPrints(piece, target);
        NextPiece(old(contents), data, k);
        var sent := Check(AppendCommand(Encoded(piece), target));
        if !sent {
          return false;
        }
        i, k := i + PRINTF_CHUNK_SIZE, k + 1;
      }
      return true;
    }
  }

  // The first pieces of the data.
  function FirstPieces(data: Bytes, k: nat): Bytes {
    if k * PRINTF_CHUNK_SIZE <= |data| then data[..k * PRINTF_CHUNK_SIZE] else data
  }

  lemma NextPiece(before: Bytes, data: Bytes, k: nat)
    requires k * PRINTF_CHUNK_SIZE < |data|
    ensures var i := k * PRINTF_CHUNK_SIZE;
      var end := if i + PRINTF_CHUNK_SIZE <= |data| then i + PRINTF_CHUNK_SIZE else |data|;
      before + FirstPieces(data, k) + data[i..end] == before + FirstPieces(data, k + 1)
  {
  }
}
