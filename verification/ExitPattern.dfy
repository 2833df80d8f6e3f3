/** The exit marker: where the pattern SUSA-EXIT-(\d+)\r?\n first matches in a stream of bytes. */
module ExitPattern {
  import opened Common

  // "SUSA-EXIT-"
  const MARK: Bytes := [83, 85, 83, 65, 45, 69, 88, 73, 84, 45]
  const NEWLINE: Byte := 10
  const RETURN: Byte := 13

  predicate IsDigit(b: Byte) {
    48 <= b <= 57
  }

  predicate AllDigits(s: Bytes) {
    forall b | b in s :: IsDigit(b)
  }

  predicate MarkAt(s: Bytes, i: nat) {
    i + |MARK| <= |s| && s[i..i + |MARK|] == MARK
  }

  function DigitsEnd(s: Bytes, i: nat): (j: nat)
    requires i <= |s|
    ensures i <= j <= |s|
    ensures forall k | i <= k < j :: IsDigit(s[k])
    ensures j < |s| ==> !IsDigit(s[j])
    decreases |s| - i
  {
    if i < |s| && IsDigit(s[i]) then DigitsEnd(s, i + 1) else i
  }

  // The end of the match that starts at i.
  function MatchAt(s: Bytes, i: nat): Option<nat> {
    if !MarkAt(s, i) then None
    else
      var digits := i + |MARK|;
      var j := DigitsEnd(s, digits);
      if j == digits then None
      else if j < |s| && s[j] == NEWLINE then Some(j + 1)
      else if j + 1 < |s| && s[j] == RETURN && s[j + 1] == NEWLINE then Some(j + 2)
      else None
  }

  function SearchFrom(s: Bytes, i: nat): (r: Option<(nat, nat)>)
    requires i <= |s|
    ensures r.Some? ==>
      && i <= r.value.0 <= |s| && MatchAt(s, r.value.0) == Some(r.value.1)
      && forall k | i <= k < r.value.0 :: MatchAt(s, k).None?
    ensures r.None? ==> forall k | i <= k <= |s| :: MatchAt(s, k).None?
    decreases |s| - i
  {
    match MatchAt(s, i)
    case Some(e) => Some((i, e))
    case None => if i == |s| then None else SearchFrom(s, i + 1)
  }

  /** The leftmost match, as its start and end. */
  function Search(s: Bytes): Option<(nat, nat)> {
    SearchFrom(s, 0)
  }

  // The pattern as it reads: the mark, at least one digit, and a newline with or without a return before it.
  ghost predicate Matches(s: Bytes, i: nat, e: nat) {
    exists d: nat | i + |MARK| < d < e <= |s| :: MatchesWith(s, i, d, e)
  }

  ghost predicate MatchesWith(s: Bytes, i: nat, d: nat, e: nat)
    requires i + |MARK| < d < e <= |s|
  {
    MarkAt(s, i) && AllDigits(s[i + |MARK|..d]) && (s[d..e] == [NEWLINE] || s[d..e] == [RETURN, NEWLINE])
  }

  lemma EndIsWritten(s: Bytes, d: nat, e: nat)
    requires d < e <= |s|
    ensures s[d..e] == [NEWLINE] <==> e == d + 1 && s[d] == NEWLINE
    ensures s[d..e] == [RETURN, NEWLINE] <==> e == d + 2 && s[d] == RETURN && s[d + 1] == NEWLINE
  {
    assert |s[d..e]| == e - d && s[d..e][0] == s[d];
    if e == d + 2 {
      assert s[d..e][1] == s[d + 1];
    }
  }

  // Never giving digits back loses no match.
  lemma MatchAtIsMatch(s: Bytes, i: nat, e: nat)
    ensures MatchAt(s, i) == Some(e) <==> Matches(s, i, e)
  {
    if MatchAt(s, i) == Some(e) {
      EndIsWritten(s, DigitsEnd(s, i + |MARK|), e);
      assert MatchesWith(s, i, DigitsEnd(s, i + |MARK|), e);
    }
    if d: nat :| i + |MARK| < d < e <= |s| && MatchesWith(s, i, d, e) {
      EndIsWritten(s, d, e);
      assert forall k | i + |MARK| <= k < d :: s[k] == s[i + |MARK|..d][k - i - |MARK|];
      DigitsEndUnique(s, i + |MARK|, d);
    }
  }

  lemma MatchEnds(s: Bytes, i: nat)
    requires MatchAt(s, i).Some?
    ensures i + |MARK| + 1 < MatchAt(s, i).value <= |s|
    ensures forall k | i + |MARK| <= k < MatchAt(s, i).value :: IsDigit(s[k]) || s[k] == RETURN || s[k] == NEWLINE
  {
  }

  lemma DigitsEndUnique(s: Bytes, i: nat, j: nat)
    requires i <= j < |s| && !IsDigit(s[j]) && forall k | i <= k < j :: IsDigit(s[k])
    ensures DigitsEnd(s, i) == j
  {
  }

  // A match depends on no byte after its end.
  lemma MatchIsLocal(s: Bytes, t: Bytes, i: nat, e: nat)
    requires e <= |s|
    ensures MatchAt(s, i) == Some(e) <==> MatchAt(s + t, i) == Some(e)
  {
    MatchAtIsMatch(s, i, e);
    MatchAtIsMatch(s + t, i, e);
    if d: nat :| i + |MARK| < d < e <= |s| && MatchesWith(s, i, d, e) {
      Extends(s, t, i, d, e);
      assert MatchesWith(s + t, i, d, e);
    }
    if d: nat :| i + |MARK| < d < e <= |s + t| && MatchesWith(s + t, i, d, e) {
      Extends(s, t, i, d, e);
      assert MatchesWith(s, i, d, e);
    }
  }

  lemma Extends(s: Bytes, t: Bytes, i: nat, d: nat, e: nat)
    requires i + |MARK| < d < e <= |s|
    ensures MatchesWith(s, i, d, e) <==> MatchesWith(s + t, i, d, e)
  {
    assert (s + t)[i..i + |MARK|] == s[i..i + |MARK|];
    assert (s + t)[i + |MARK|..d] == s[i + |MARK|..d];
    assert (s + t)[d..e] == s[d..e];
  }

  lemma MarksDontOverlap(s: Bytes, i: nat, m: nat)
    requires i < m && MarkAt(s, i) && MarkAt(s, m)
    ensures i + |MARK| <= m
  {
    assert s[m] == MARK[0] && s[m + 1] == MARK[1];
    assert s[i + 1] == MARK[1] && s[i + 2] == MARK[2] && s[i + 3] == MARK[3];
    assert s[i + 4] == MARK[4] && s[i + 5] == MARK[5];
    assert s[i + 6] == MARK[6] && s[i + 7] == MARK[7] && s[i + 8] == MARK[8] && s[i + 9] == MARK[9];
  }

  // The mark occurs neither across itself nor in what follows it in a match: a match ends before the next mark starts.
  lemma NoMatchAcross(s: Bytes, i: nat, m: nat)
    requires i < m && MarkAt(s, m) && MatchAt(s, i).Some?
    ensures MatchAt(s, i).value <= m
  {
    MatchEnds(s, i);
    MarksDontOverlap(s, i, m);
    assert s[m] == s[m..m + |MARK|][0];
  }

  /** The leftmost match stays the same whatever arrives after it. */
  lemma SearchIsStable(s: Bytes, t: Bytes)
    requires Search(s).Some?
    ensures Search(s + t) == Search(s)
  {
    var (m, e) := Search(s).value;
    MatchEnds(s, m);
    MatchIsLocal(s, t, m, e);
    assert (s + t)[m..m + |MARK|] == s[m..m + |MARK|];
    forall i | 0 <= i < m
      ensures MatchAt(s + t, i).None?
    {
      if MatchAt(s + t, i).Some? {
        NoMatchAcross(s + t, i, m);
        MatchIsLocal(s, t, i, MatchAt(s + t, i).value);
      }
    }
    assert Search(s + t).Some?;
  }

  // ---- Numbers ----

  function Decimal(n: nat): (s: Bytes)
    ensures s != [] && AllDigits(s)
  {
    if n < 10 then [(48 + n) as Byte] else Decimal(n / 10) + [(48 + n % 10) as Byte]
  }

  function ParseDecimal(s: Bytes): nat
    requires AllDigits(s)
  {
    if s == [] then 0
    else
      assert s[|s| - 1] in s;
      ParseDecimal(s[..|s| - 1]) * 10 + (s[|s| - 1] as int - 48)
  }

  // The digits are those of numbers.
  lemma DigitsAreDecimal(b: Byte)
    ensures IsDigit(b) <==> exists n: nat | n < 10 :: Decimal(n) == [b]
  {
    forall n: nat | n < 10
      ensures Decimal(n) == [(48 + n) as Byte]
    {
    }
    if IsDigit(b) {
      var n := b as int - 48;
      assert Decimal(n) == [b];
    }
  }

  lemma {:induction false} DecimalParses(n: nat)
    ensures ParseDecimal(Decimal(n)) == n
  {
    if n < 10 {
      assert ParseDecimal([]) == 0;
    } else {
      var s := Decimal(n);
      assert s[..|s| - 1] == Decimal(n / 10);
      DecimalParses(n / 10);
    }
  }

  // ---- Framed commands ----

  // What the shell writes for the marker line.
  function Marker(code: nat): Bytes {
    MARK + Decimal(code) + [NEWLINE]
  }

  // What `run` cuts out of what it read at a match: the bytes before it, and its number.
  function Cut(s: Bytes, m: nat): (Bytes, nat)
    requires MatchAt(s, m).Some?
  {
    MatchEnds(s, m);
    (s[..m], ParseDecimal(s[m + |MARK|..DigitsEnd(s, m + |MARK|)]))
  }

  function Result(s: Bytes): Option<(Bytes, nat)> {
    match Search(s)
    case None => None
    case Some((m, _)) => Some(Cut(s, m))
  }

  lemma MarkerMatches(out: Bytes, code: nat, rest: Bytes)
    ensures MatchAt(out + Marker(code) + rest, |out|) == Some(|out| + |Marker(code)|)
    ensures DigitsEnd(out + Marker(code) + rest, |out| + |MARK|) == |out| + |MARK| + |Decimal(code)|
  {
    var s := out + Marker(code) + rest;
    var digits := |out| + |MARK|;
    var j := digits + |Decimal(code)|;
    assert s[|out|..digits] == MARK;
    assert s[digits..j] == Decimal(code);
    assert forall k | digits <= k < j :: s[k] == s[digits..j][k - digits];
    assert s[j] == NEWLINE;
    DigitsEndUnique(s, digits, j);
  }

  lemma FramedSearch(out: Bytes, code: nat, rest: Bytes)
    requires Search(out).None?
    ensures Search(out + Marker(code) + rest) == Some((|out|, |out| + |Marker(code)|))
  {
    var s := out + Marker(code) + rest;
    MarkerMatches(out, code, rest);
    assert s == out + (Marker(code) + rest);
    assert s[|out|..|out| + |MARK|] == MARK;
    forall i | 0 <= i < |out|
      ensures MatchAt(s, i).None?
    {
      if MatchAt(s, i).Some? {
        NoMatchAcross(s, i, |out|);
        MatchIsLocal(out, Marker(code) + rest, i, MatchAt(s, i).value);
      }
    }
  }

  lemma FramedCut(out: Bytes, code: nat, rest: Bytes)
    requires MatchAt(out + Marker(code) + rest, |out|).Some?
    ensures Cut(out + Marker(code) + rest, |out|) == (out, code)
  {
    var s := out + Marker(code) + rest;
    MarkerMatches(out, code, rest);
    assert s[..|out|] == out;
    assert s[|out| + |MARK|..|out| + |MARK| + |Decimal(code)|] == Decimal(code);
    DecimalParses(code);
  }

  /** Output and code come back exactly if, and only if, the output has no marker of its own. */
  lemma FramedResult(out: Bytes, code: nat, rest: Bytes)
    ensures Result(out + Marker(code) + rest) == Some((out, code)) <==> Search(out).None?
  {
    var s := out + Marker(code) + rest;
    if Search(out).Some? {
      assert s == out + (Marker(code) + rest);
      SearchIsStable(out, Marker(code) + rest);
      MatchEnds(out, Search(out).value.0);
      assert |Result(s).value.0| < |out|;
    } else {
      FramedSearch(out, code, rest);
      MarkerMatches(out, code, rest);
      FramedCut(out, code, rest);
    }
  }

  // No shorter part of what the shell writes has a match, so a reader that stops at the first one reads it all.
  lemma FramedIsMinimal(out: Bytes, code: nat, n: nat)
    requires Search(out).None? && n < |out + Marker(code)|
    ensures Search((out + Marker(code))[..n]).None?
  {
    var s := out + Marker(code);
    assert s == s[..n] + s[n..];
    if Search(s[..n]).Some? {
      SearchIsStable(s[..n], s[n..]);
      MatchEnds(s[..n], Search(s[..n]).value.0);
      assert s + [] == s;
      FramedSearch(out, code, []);
    }
  }

  lemma WholeFrames(all: Bytes, code: nat)
    ensures Search(all + Marker(code)).Some?
    ensures Result(all + Marker(code)) == Some((all, code)) <==> Search(all).None?
  {
    assert all + Marker(code) + [] == all + Marker(code);
    FramedResult(all, code, []);
    if Search(all).None? {
      FramedSearch(all, code, []);
    } else {
      SearchIsStable(all, Marker(code));
    }
  }
}
