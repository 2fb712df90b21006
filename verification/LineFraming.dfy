/**
 LineBasedFrameDecoder: a stream cut at line ends, held against a splitter that
 sees the whole stream at once.
 */
module LineFraming {
  import opened Octets

  datatype Terminator = Both | Newline | CarriageNewline

  datatype LineDecoder = LineDecoder(maxLength: nat, strip: bool, terminator: Terminator)

  /** `discarding_` and `discardedBytes_`. */
  datatype LineState = LineState(discarding: bool, discardedBytes: nat)

  const CLEAN: LineState := LineState(false, 0)

  /** A line end starts at index i. */
  predicate EolAt(t: Terminator, s: Bytes, i: nat)
    requires i < |s|
  {
    || (s[i] == LF && t != CarriageNewline)
    || (t != Newline && s[i] == CR && i + 1 < |s| && s[i + 1] == LF)
  }

  /** The first line end before `limit`, or -1. */
  function FindEol(t: Terminator, s: Bytes, limit: nat): (e: int)
    ensures -1 <= e < |s| && e < limit
    ensures e >= 0 ==> EolAt(t, s, e)
    ensures forall i | 0 <= i < |s| && i < limit && (e < 0 || i < e) :: !EolAt(t, s, i)
  {
    FindEolFrom(t, s, limit, 0)
  }

  function FindEolFrom(t: Terminator, s: Bytes, limit: nat, from: nat): (e: int)
    ensures e == -1 || from <= e
    ensures -1 <= e < |s| && e < limit
    ensures e >= 0 ==> EolAt(t, s, e)
    ensures forall i | from <= i < |s| && i < limit && (e < 0 || i < e) :: !EolAt(t, s, i)
    decreases limit - from
  {
    if from >= limit || from >= |s| then -1
    else if EolAt(t, s, from) then from
    else FindEolFrom(t, s, limit, from + 1)
  }

  /** `findEndOfLine`, the scanning loop. */
  method FindEndOfLine(t: Terminator, s: Bytes, maxLength: nat) returns (e: int)
    ensures e == FindEol(t, s, maxLength)
  {
    var i := 0;
    while i < maxLength && i < |s|
      invariant 0 <= i
      invariant FindEolFrom(t, s, maxLength, i) == FindEol(t, s, maxLength)
      decreases maxLength - i
    {
      if s[i] == LF && t != CarriageNewline {
        return i;
      } else if t != Newline && s[i] == CR && i + 1 < |s| && s[i + 1] == LF {
        return i;
      }
      i := i + 1;
    }
    return -1;
  }

  function DelimiterLength(s: Bytes, e: nat): (n: nat)
    requires e < |s|
  {
    if s[e] == CR then 2 else 1
  }

  /** What follows the line that ends at e. */
  function AfterLine(t: Terminator, s: Bytes, e: nat): (r: Bytes)
    requires e < |s| && EolAt(t, s, e)
    ensures |r| < |s|
  {
    assert t == Newline ==> s[e] == LF;
    s[e + DelimiterLength(s, e)..]
  }

  function Line(strip: bool, t: Terminator, s: Bytes, e: nat): (r: Bytes)
    requires e < |s| && EolAt(t, s, e)
  {
    assert t == Newline ==> s[e] == LF;
    if strip then s[..e] else s[..e + DelimiterLength(s, e)]
  }

  datatype Decoded =
    | NeedMore(state: LineState, rest: Bytes)
    | TooLong(state: LineState, rest: Bytes)
    | Frame(frame: Bytes, state: LineState, rest: Bytes)

  /** `decode`. The scan stops before `maxLength`, so a line end is never found past it. */
  function Decode(c: LineDecoder, st: LineState, buf: Bytes): (r: Decoded)
    ensures r.Frame? ==> |r.rest| < |buf|
  {
    var e := FindEol(c.terminator, buf, c.maxLength);
    if !st.discarding then
      if e >= 0 then Frame(Line(c.strip, c.terminator, buf, e), st, AfterLine(c.terminator, buf, e))
      else if |buf| > c.maxLength then TooLong(LineState(true, |buf| % UINT32), [])
      else NeedMore(st, buf)
    else if e >= 0 then NeedMore(CLEAN, AfterLine(c.terminator, buf, e))
    else NeedMore(LineState(true, |buf| % UINT32), [])
  }

  // ---------------------------------------------------------------------------
  // The splitter
  // ---------------------------------------------------------------------------

  function FirstEol(t: Terminator, s: Bytes): (e: int)
    ensures -1 <= e < |s|
    ensures e >= 0 ==> EolAt(t, s, e)
    ensures forall i | 0 <= i < |s| && (e < 0 || i < e) :: !EolAt(t, s, i)
  {
    FindEol(t, s, |s|)
  }

  /** The complete lines of a stream and the unfinished rest. */
  datatype Split = Split(lines: seq<Bytes>, rest: Bytes)

  function SplitLines(strip: bool, t: Terminator, s: Bytes): (r: Split)
    decreases |s|
  {
    var e := FirstEol(t, s);
    if e < 0 then Split([], s)
    else
      var more := SplitLines(strip, t, AfterLine(t, s, e));
      Split([Line(strip, t, s, e)] + more.lines, more.rest)
  }

  /** Every line of the stream is shorter than the limit, the unfinished one included. */
  predicate Short(t: Terminator, max: nat, s: Bytes)
    decreases |s|
  {
    var e := FirstEol(t, s);
    if e < 0 then |s| <= max else e < max && Short(t, max, AfterLine(t, s, e))
  }

  /** The first line end, pinned down. */
  lemma FirstEolIs(t: Terminator, s: Bytes, e: nat)
    requires e < |s| && EolAt(t, s, e)
    requires forall i | 0 <= i < e :: !EolAt(t, s, i)
    ensures FirstEol(t, s) == e
  {
  }

  /** A line end once found is not moved by bytes that arrive later, even by a LF after a final CR. */
  lemma FirstEolIsStable(t: Terminator, a: Bytes, b: Bytes)
    requires FirstEol(t, a) >= 0
    ensures FirstEol(t, a + b) == FirstEol(t, a)
    ensures AfterLine(t, a + b, FirstEol(t, a)) == AfterLine(t, a, FirstEol(t, a)) + b
    ensures forall strip :: Line(strip, t, a + b, FirstEol(t, a)) == Line(strip, t, a, FirstEol(t, a))
  {
    var e, s := FirstEol(t, a), a + b;
    assert EolAt(t, s, e);
    forall i | 0 <= i < e ensures !EolAt(t, s, i) {
      assert !EolAt(t, a, i);
    }
    FirstEolIs(t, s, e);
  }

  /** Splitting in two steps: the lines of the first part, then those of its rest with the second part. */
  lemma {:induction false} SplitInTwoSteps(strip: bool, t: Terminator, a: Bytes, b: Bytes)
    ensures var first := SplitLines(strip, t, a);
            var second := SplitLines(strip, t, first.rest + b);
            SplitLines(strip, t, a + b) == Split(first.lines + second.lines, second.rest)
    decreases |a|
  {
    hide EolAt, FirstEol, AfterLine, Line;
    var e := FirstEol(t, a);
    if e >= 0 {
      FirstEolIsStable(t, a, b);
      SplitInTwoSteps(strip, t, AfterLine(t, a, e), b);
      var line, more := Line(strip, t, a, e), SplitLines(strip, t, AfterLine(t, a, e));
      var second := SplitLines(strip, t, more.rest + b);
      assert [line] + (more.lines + second.lines) == ([line] + more.lines) + second.lines;
    }
  }

  /** The rest of a split holds no complete line. */
  lemma {:induction false} RestIsUnfinished(strip: bool, t: Terminator, s: Bytes)
    ensures FirstEol(t, SplitLines(strip, t, s).rest) < 0
    decreases |s|
  {
    var e := FirstEol(t, s);
    if e >= 0 {
      RestIsUnfinished(strip, t, AfterLine(t, s, e));
    }
  }

  /** What has been received of a stream with short lines has short lines too. */
  lemma {:induction false} ShortPrefix(t: Terminator, max: nat, a: Bytes, b: Bytes)
    requires Short(t, max, a + b)
    ensures Short(t, max, a)
    decreases |a|
  {
    var s := a + b;
    var e := FirstEol(t, a);
    if e >= 0 {
      FirstEolIsStable(t, a, b);
      ShortPrefix(t, max, AfterLine(t, a, e), b);
    } else {
      var f := FirstEol(t, s);
      if 0 <= f < |a| - 1 {
        assert EolAt(t, a, f) by { assert s[f] == a[f] && s[f + 1] == a[f + 1]; }
      }
    }
  }

  /** On short lines the bounded scan finds what the unbounded one finds, and nothing is ever discarded. */
  lemma DecodeOnShort(c: LineDecoder, buf: Bytes)
    requires Short(c.terminator, c.maxLength, buf)
    ensures var e := FirstEol(c.terminator, buf);
            Decode(c, CLEAN, buf) ==
            if e < 0 then NeedMore(CLEAN, buf)
            else Frame(Line(c.strip, c.terminator, buf, e), CLEAN, AfterLine(c.terminator, buf, e))
  {
  }

  /**
   A complete line at the head of the buffer is emitted exactly if it is shorter
   than `maxLength`: one of exactly that length, which the later comparison
   `eol > maxLength_` would let pass, is already missed by the scan.
   */
  lemma HeadLineEmittedIff(c: LineDecoder, buf: Bytes)
    requires FirstEol(c.terminator, buf) >= 0
    ensures Decode(c, CLEAN, buf).Frame? <==> FirstEol(c.terminator, buf) < c.maxLength
    ensures FirstEol(c.terminator, buf) >= c.maxLength ==> Decode(c, CLEAN, buf).TooLong?
  {
    var e, f := FirstEol(c.terminator, buf), FindEol(c.terminator, buf, c.maxLength);
    assert f >= 0 ==> EolAt(c.terminator, buf, f);
  }

  /**
   After an overlong line: it is reported once, everything up to the next line
   end within the limit of a later chunk is dropped, and decoding resumes right
   behind it.
   */
  lemma ResumesAfterLongLine(c: LineDecoder, buf: Bytes, more: Bytes)
    requires FindEol(c.terminator, buf, c.maxLength) < 0 && |buf| > c.maxLength
    ensures var first := Decode(c, CLEAN, buf);
            && first.TooLong? && first.rest == [] && first.state == LineState(true, |buf| % UINT32)
            && var next, e := Decode(c, first.state, first.rest + more), FindEol(c.terminator, more, c.maxLength);
               && next.NeedMore?
               && (next.state.discarding <==> e < 0)
               && (e < 0 ==> next.rest == [] && next.state.discardedBytes == |more| % UINT32)
               && (e >= 0 ==> next.state == CLEAN && next.rest == AfterLine(c.terminator, more, e))
  {
    assert [] + more == more;
  }

  // ---------------------------------------------------------------------------
  // Joining and splitting
  // ---------------------------------------------------------------------------

  function Ending(crlf: bool): (s: Bytes) {
    if crlf then [CR, LF] else [LF]
  }

  function JoinLines(lines: seq<Bytes>, crlf: bool): (s: Bytes) {
    if lines == [] then [] else lines[0] + Ending(crlf) + JoinLines(lines[1..], crlf)
  }

  /** A line that the splitter hands back as it was when it is written with this ending. */
  predicate Survives(t: Terminator, crlf: bool, line: Bytes) {
    match t
    case Newline => !crlf && LF !in line
    case CarriageNewline => crlf && forall i | 0 <= i < |line| - 1 :: !(line[i] == CR && line[i + 1] == LF)
    case Both => LF !in line && (crlf || line == [] || line[|line| - 1] != CR)
  }

  /** The exact condition: a line survives if and only if its own ending is the first line end. */
  lemma SurvivesIff(t: Terminator, crlf: bool, line: Bytes)
    ensures Survives(t, crlf, line) <==> FirstEol(t, line + Ending(crlf)) == |line|
  {
    var s, n := line + Ending(crlf), |line|;
    assert forall i | 0 <= i < n :: s[i] == line[i];
    assert s[n] == if crlf then CR else LF;
    if Survives(t, crlf, line) {
      assert EolAt(t, s, n);
      forall i | 0 <= i < n ensures !EolAt(t, s, i) {
        assert line[i] in line;
      }
      FirstEolIs(t, s, n);
    }
    if FirstEol(t, s) == n {
      assert forall i | 0 <= i < n :: !EolAt(t, s, i);
      assert EolAt(t, s, n);
      if t != CarriageNewline {
        forall i | 0 <= i < n ensures line[i] != LF {
          assert !EolAt(t, s, i);
        }
      } else {
        forall i | 0 <= i < n - 1 ensures !(line[i] == CR && line[i + 1] == LF) {
          assert !EolAt(t, s, i);
        }
      }
      if t == Both && !crlf && n > 0 {
        assert !EolAt(t, s, n - 1);
      }
    }
  }

  lemma SplitOneLine(strip: bool, t: Terminator, line: Bytes, crlf: bool, tail: Bytes)
    requires Survives(t, crlf, line)
    ensures var more := SplitLines(strip, t, tail);
            SplitLines(strip, t, line + Ending(crlf) + tail)
            == Split([if strip then line else line + Ending(crlf)] + more.lines, more.rest)
  {
    var head, e := line + Ending(crlf), |line|;
    SurvivesIff(t, crlf, line);
    assert head[e] == if crlf then CR else LF;
    assert AfterLine(t, head, e) == [] && Line(strip, t, head, e) == if strip then line else head;
    FirstEolIsStable(t, head, tail);
    assert [] + tail == tail;
  }

  /** Joining lines and splitting the stream gives the lines back, with their endings if those are kept. */
  lemma {:induction false} SplitUndoesJoin(strip: bool, t: Terminator, lines: seq<Bytes>, crlf: bool)
    requires forall i | 0 <= i < |lines| :: Survives(t, crlf, lines[i])
    ensures var r := SplitLines(strip, t, JoinLines(lines, crlf));
            && r.rest == [] && |r.lines| == |lines|
            && forall i | 0 <= i < |lines| ::
                 r.lines[i] == if strip then lines[i] else lines[i] + Ending(crlf)
  {
    if lines != [] {
      SplitUndoesJoin(strip, t, lines[1..], crlf);
      SplitOneLine(strip, t, lines[0], crlf, JoinLines(lines[1..], crlf));
      assert JoinLines(lines, crlf) == lines[0] + Ending(crlf) + JoinLines(lines[1..], crlf);
      hide SplitLines, Survives, JoinLines, Ending;
      var r, more := SplitLines(strip, t, JoinLines(lines, crlf)), SplitLines(strip, t, JoinLines(lines[1..], crlf));
      forall i | 0 < i < |lines| ensures r.lines[i] == more.lines[i - 1] {
      }
    }
  }

  /** Joined short lines are a stream of short lines. */
  lemma {:induction false} JoinIsShort(t: Terminator, max: nat, lines: seq<Bytes>, crlf: bool)
    requires forall i | 0 <= i < |lines| :: Survives(t, crlf, lines[i]) && |lines[i]| < max
    ensures Short(t, max, JoinLines(lines, crlf))
  {
    if lines != [] {
      JoinIsShort(t, max, lines[1..], crlf);
      var head, tail := lines[0] + Ending(crlf), JoinLines(lines[1..], crlf);
      SurvivesIff(t, crlf, lines[0]);
      assert head[|lines[0]|] == if crlf then CR else LF;
      assert AfterLine(t, head, |lines[0]|) == [];
      FirstEolIsStable(t, head, tail);
      assert [] + tail == tail;
    }
  }

  /** A line that is not complete yet, its ending included, holds no line end. */
  lemma NoEolInPart(t: Terminator, line: Bytes, crlf: bool, got: Bytes)
    requires Survives(t, crlf, line) && got < line + Ending(crlf)
    ensures FirstEol(t, got) < 0
  {
    var head := line + Ending(crlf);
    SurvivesIff(t, crlf, line);
    assert head[|line|] == if crlf then CR else LF;
    forall i | 0 <= i < |got| ensures !EolAt(t, got, i) {
      assert got[i] == head[i];
      if i < |line| { assert !EolAt(t, head, i); }
    }
  }

  /** What has arrived of joined lines splits into the first of them and a part of the next. */
  lemma {:induction false} SplitPartOfJoin(strip: bool, t: Terminator, lines: seq<Bytes>, crlf: bool, got: Bytes)
    requires forall i | 0 <= i < |lines| :: Survives(t, crlf, lines[i])
    requires got <= JoinLines(lines, crlf)
    ensures var r := SplitLines(strip, t, got);
            var k := |r.lines|;
            && k <= |lines| && got == JoinLines(lines[..k], crlf) + r.rest
            && (forall i | 0 <= i < k :: r.lines[i] == if strip then lines[i] else lines[i] + Ending(crlf))
            && (k < |lines| ==> r.rest < lines[k] + Ending(crlf))
  {
    if lines == [] {
      assert got == [];
    } else {
      var head, tail := lines[0] + Ending(crlf), JoinLines(lines[1..], crlf);
      if |got| < |head| {
        assert got == (head + tail)[..|got|] == head[..|got|];
        NoEolInPart(t, lines[0], crlf, got);
        assert lines[..0] == [] && [] + got == got;
      } else {
        var rest := got[|head|..];
        assert got == head + rest && rest <= tail;
        SplitPartOfJoin(strip, t, lines[1..], crlf, rest);
        SplitOneLine(strip, t, lines[0], crlf, rest);
        hide SplitLines, Survives;
        PrependJoined(strip, t, lines, crlf, got, rest);
      }
    }
  }

  lemma PrependJoined(strip: bool, t: Terminator, lines: seq<Bytes>, crlf: bool, got: Bytes, rest: Bytes)
    requires lines != [] && got == lines[0] + Ending(crlf) + rest
    requires var more, r := SplitLines(strip, t, rest), SplitLines(strip, t, got);
             && |more.lines| < |lines| && rest == JoinLines(lines[1..][..|more.lines|], crlf) + more.rest
             && r == Split([if strip then lines[0] else lines[0] + Ending(crlf)] + more.lines, more.rest)
             && (forall i | 0 <= i < |more.lines| ::
                   more.lines[i] == if strip then lines[1..][i] else lines[1..][i] + Ending(crlf))
    ensures var r := SplitLines(strip, t, got);
            var k := |r.lines|;
            && k <= |lines| && got == JoinLines(lines[..k], crlf) + r.rest
            && (forall i | 0 <= i < k :: r.lines[i] == if strip then lines[i] else lines[i] + Ending(crlf))
  {
    hide SplitLines, Ending;
    var more, r := SplitLines(strip, t, rest), SplitLines(strip, t, got);
    var k := |r.lines|;
    assert lines[..k][1..] == lines[1..][..k - 1] && lines[..k][0] == lines[0];
    forall i | 0 <= i < k ensures r.lines[i] == if strip then lines[i] else lines[i] + Ending(crlf) {
      if i > 0 {
        assert r.lines[i] == more.lines[i - 1] && lines[1..][i - 1] == lines[i];
      }
    }
  }
}
