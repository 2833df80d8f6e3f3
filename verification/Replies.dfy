/**
 What a shell returns of a remote command's output, which its framing cuts at the first marker, and what it leaves
 unread.
 */
module Replies {
  import opened Common
  import opened ExitPattern

  // What a command gets, and what is then still in the stream.
  datatype Reply = Reply(stdout: Bytes, exitCode: nat, left: Bytes)

  // One exchange over a stream with something pending, of whose end some bytes arrive only after the marker that ends
  // it.
  function Exchanged(pending: Bytes, output: Bytes, code: nat, unread: nat): Reply {
    var all := pending + output + Marker(code);
    WholeFrames(pending + output, code);
    var (m, e) := Search(all).value;
    var end := if e + unread <= |all| then |all| - unread else e;
    Reply(Cut(all, m).0, Cut(all, m).1, all[end..])
  }

  // The bytes before the first marker.
  function Cutoff(output: Bytes): Bytes {
    match Search(output)
    case None => output
    case Some((m, _)) => output[..m]
  }

  lemma CutoffIsWhole(output: Bytes)
    ensures Cutoff(output) == output <==> Search(output).None?
    ensures Cutoff(output) == [] <==> output == [] || MatchAt(output, 0).Some?
  {
    match Search(output)
    case None =>
    case Some((m, _)) => MatchEnds(output, m);
  }

  /** What is left after the first marker's bytes starts with it. */
  lemma CutoffOfRest(output: Bytes)
    ensures Cutoff(output[|Cutoff(output)|..]) == []
  {
    match Search(output)
    case None =>
    case Some((m, e)) =>
      MatchEnds(output, m);
      assert output == output[..m] + output[m..];
      RestMatches(output[..m], output[m..], e - m);
  }

  lemma RestMatches(before: Bytes, rest: Bytes, e: nat)
    requires MatchAt(before + rest, |before|) == Some(|before| + e)
    ensures Cutoff(rest) == []
  {
    MatchShifts(before, rest, 0, e);
    CutoffIsWhole(rest);
  }

  lemma MatchShifts(a: Bytes, b: Bytes, i: nat, e: nat)
    ensures MatchAt(b, i) == Some(e) <==> MatchAt(a + b, |a| + i) == Some(|a| + e)
  {
    MatchAtIsMatch(b, i, e);
    MatchAtIsMatch(a + b, |a| + i, |a| + e);
    if Matches(b, i, e) {
      ShiftsRight(a, b, i, e);
    }
    if Matches(a + b, |a| + i, |a| + e) {
      ShiftsLeft(a, b, i, e, a + b, |a| + i, |a| + e);
    }
  }

  lemma ShiftsRight(a: Bytes, b: Bytes, i: nat, e: nat)
    requires Matches(b, i, e)
    ensures Matches(a + b, |a| + i, |a| + e)
  {
    var d: nat :| i + |MARK| < d < e <= |b| && MatchesWith(b, i, d, e);
    WithShifts(a, b, i, d, e);
    assert MatchesWith(a + b, |a| + i, |a| + d, |a| + e);
  }

  lemma ShiftsLeft(a: Bytes, b: Bytes, i: nat, e: nat, all: Bytes, from: nat, to: nat)
    requires all == a + b && from == |a| + i && to == |a| + e && Matches(all, from, to)
    ensures Matches(b, i, e)
  {
    var d: nat :| from + |MARK| < d < to <= |all| && MatchesWith(all, from, d, to);
    WithShifts(a, b, i, d - |a|, e);
    assert MatchesWith(b, i, d - |a|, e);
  }

  lemma WithShifts(a: Bytes, b: Bytes, i: nat, d: nat, e: nat)
    requires i + |MARK| < d < e <= |b|
    ensures MatchesWith(b, i, d, e) <==> MatchesWith(a + b, |a| + i, |a| + d, |a| + e)
  {
    assert (a + b)[|a| + i..|a| + i + |MARK|] == b[i..i + |MARK|];
    assert (a + b)[|a| + i + |MARK|..|a| + d] == b[i + |MARK|..d];
    assert (a + b)[|a| + d..|a| + e] == b[d..e];
  }

  /** No part of an output without a marker has one. */
  lemma PartsHaveNone(a: Bytes, b: Bytes, c: Bytes)
    requires Search(a + b + c).None?
    ensures Search(b).None?
  {
    if Search(b).Some? {
      var (m, e) := Search(b).value;
      PartMatches(a, b, c, m, e);
    }
  }

  lemma PartMatches(a: Bytes, b: Bytes, c: Bytes, m: nat, e: nat)
    requires MatchAt(b, m) == Some(e)
    ensures |a| + m <= |a + b + c| && MatchAt(a + b + c, |a| + m).Some?
  {
    MatchEnds(b, m);
    MatchShifts(a, b, m, e);
    MatchIsLocal(a + b, c, |a| + m, |a| + e);
  }

  lemma CleanReply(output: Bytes, code: nat, unread: nat)
    requires Search(output).None?
    ensures Exchanged([], output, code, unread) == Reply(output, code, [])
  {
    var all := output + Marker(code);
    assert [] + output == output;
    assert all + [] == all;
    FramedSearch(output, code, []);
    FramedCut(output, code, []);
  }

  lemma MarkedReply(output: Bytes, code: nat, unread: nat)
    requires Search(output).Some?
    ensures var r := Exchanged([], output, code, unread);
      r.stdout == output[..Search(output).value.0] && (unread == 0 ==> r.left == [])
  {
    assert [] + output == output;
    SearchIsStable(output, Marker(code));
    var m := Search(output).value.0;
    MatchEnds(output, m);
    assert (output + Marker(code))[..m] == output[..m];
  }

  /**
   With nothing pending, a command gets what comes before the first marker: its whole output and its code, with
   nothing left, exactly if that has none.
   */
  lemma ExactReply(output: Bytes, code: nat, unread: nat)
    ensures Exchanged([], output, code, unread).stdout == Cutoff(output)
    ensures Exchanged([], output, code, unread).stdout == output <==> Search(output).None?
    ensures Search(output).None? ==> Exchanged([], output, code, unread) == Reply(output, code, [])
    ensures unread == 0 ==> Exchanged([], output, code, unread).left == []
  {
    CutoffIsWhole(output);
    if Search(output).None? {
      CleanReply(output, code, unread);
    } else {
      MarkedReply(output, code, unread);
    }
  }

  // Where the marker is also what ends it, the next command gets nothing of its own output, whatever that is.
  lemma StaleMarker(code: nat, output: Bytes, next: nat, unread: nat)
    ensures Exchanged([], Marker(code), 0, |Marker(0)|) == Reply([], code, Marker(0))
    ensures Exchanged(Marker(0), output, next, unread).stdout == []
  {
    var none: Bytes := [];
    assert Search(none).None?;
    assert none + Marker(code) + Marker(0) == Marker(code) + Marker(0);
    FramedSearch(none, code, Marker(0));
    FramedCut(none, code, Marker(0));
    assert none + Marker(0) + (output + Marker(next)) == Marker(0) + output + Marker(next);
    FramedSearch(none, 0, output + Marker(next));
  }

  // "SUSA-EX"
  const HALF: Bytes := [83, 85, 83, 65, 45, 69, 88]

  lemma ShortHasNone(s: Bytes)
    requires |s| <= |MARK| + 1 || (|s| <= |MARK| + 2 && s[0] != MARK[0])
    ensures Search(s).None?
  {
    if MarkAt(s, 0) {
      assert s[0..|MARK|][0] == MARK[0];
    }
    if Search(s).Some? {
      MatchEnds(s, Search(s).value.0);
    }
  }

  /**
   With bytes left unread, three reads in a row may by luck return an output that has a marker: the first stops at the
   marker, the second gets what was left of the first, and the third the rest.
   */
  lemma LuckyPieces(b: Byte)
    requires b != MARK[0]
    ensures var output := [b] + Marker(7) + HALF;
      var first := Exchanged([], output, 0, |HALF + Marker(0)|);
      var second := Exchanged(first.left, output[1..], 0, 0);
      var third := Exchanged(second.left, output[8..], 0, 0);
      Search(output).Some? && first.stdout + second.stdout + third.stdout == output
  {
    var output := [b] + Marker(7) + HALF;
    FirstPiece(b);
    SecondPiece(output[1..]);
    Parts(b);
    ThirdPiece();
  }

  // "IT-7" and a newline
  const OTHER_HALF: Bytes := [73, 84, 45, 55, 10]

  lemma Parts(b: Byte)
    ensures var output := [b] + Marker(7) + HALF;
      |output| >= 8 && output[8..] == OTHER_HALF + HALF && [b] + HALF + output[8..] == output
  {
    assert Decimal(7) == [55];
    assert Marker(7) == HALF + OTHER_HALF;
  }

  lemma ThirdPiece()
    ensures Exchanged([], OTHER_HALF + HALF, 0, 0).stdout == OTHER_HALF + HALF
  {
    ShortHasNone(OTHER_HALF + HALF);
    CleanReply(OTHER_HALF + HALF, 0, 0);
  }

  lemma FirstPiece(b: Byte)
    requires b != MARK[0]
    ensures var output := [b] + Marker(7) + HALF;
      var first := Exchanged([], output, 0, |HALF + Marker(0)|);
      Search(output).Some? && first.stdout == [b] && first.left == HALF + Marker(0)
  {
    var output := [b] + Marker(7) + HALF;
    ShortHasNone([b]);
    FramedSearch([b], 7, HALF);
    FramedSearch([b], 7, HALF + Marker(0));
    assert [] + output + Marker(0) == [b] + Marker(7) + (HALF + Marker(0));
    FramedCut([b], 7, HALF + Marker(0));
  }

  lemma SecondPiece(output: Bytes)
    ensures Exchanged(HALF + Marker(0), output, 0, 0).stdout == HALF
    ensures Exchanged(HALF + Marker(0), output, 0, 0).left == []
  {
    ShortHasNone(HALF);
    FramedSearch(HALF, 0, output + Marker(0));
    assert HALF + Marker(0) + output + Marker(0) == HALF + Marker(0) + (output + Marker(0));
    FramedCut(HALF, 0, output + Marker(0));
  }
}
