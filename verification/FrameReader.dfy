/**
 ByteToMessageDecoder: the read loop that drives a decoder over whatever chunks
 the transport delivers, and stops while the transport is inactive. The two
 framing codecs are proved correct under every chunking and every pause.

 The handler a frame is passed to may turn the transport inactive; `Pause` says
 after how many frames of one `read` call that happens.
 */
module FrameReader {
  import opened Octets
  import LengthField
  import LineFraming

  datatype Codec =
    | ByLength(decoder: LengthField.Decoder)
    | ByLine(line: LineFraming.LineDecoder)

  /** A decoder whose every frame consumes something, so that the loop cannot spin on an empty header. */
  predicate ValidCodec(c: Codec) {
    c.ByLength? ==> LengthField.EndOffset(c.decoder) > 0
  }

  datatype Reader = Reader(
    line: LineFraming.LineState, // the line decoder's own fields
    active: bool,                // transportActive_
    buffer: Bytes,
    emitted: seq<Bytes>,
    errors: nat,                 // exceptions reported through fireReadException
    thrown: nat)                 // exceptions that escaped from `read`

  const FRESH: Reader := Reader(LineFraming.CLEAN, true, [], [], 0, 0)

  datatype Pause = Never | After(frames: nat)

  /** One call of `decode`: the frame it produced, if any, and what it left behind. */
  datatype Step = Step(frame: seq<Bytes>, line: LineFraming.LineState, rest: Bytes, failed: bool, threw: bool)

  function Decode(c: Codec, r: Reader): (s: Step)
    requires ValidCodec(c)
    ensures |s.frame| <= 1
    ensures s.frame != [] ==> |s.rest| < |r.buffer|
  {
    match c
    case ByLength(d) =>
      (match LengthField.Decode(d, r.buffer)
       case NeedMore => Step([], r.line, r.buffer, false, false)
       case Failed(_, rest) => Step([], r.line, rest, true, false)
       case Throws => Step([], r.line, [], false, true) // split has taken everything off the queue
       case Frame(f, rest) => Step([f], r.line, rest, false, false))
    case ByLine(l) =>
      (match LineFraming.Decode(l, r.line, r.buffer)
       case NeedMore(st, rest) => Step([], st, rest, false, false)
       case TooLong(st, rest) => Step([], st, rest, true, false)
       case Frame(f, st, rest) => Step([f], st, rest, false, false))
  }

  function Absorb(r: Reader, s: Step): (r': Reader) {
    r.(line := s.line, buffer := s.rest, emitted := r.emitted + s.frame,
       errors := r.errors + (if s.failed then 1 else 0), thrown := r.thrown + if s.threw then 1 else 0)
  }

  /** The loop of `read`. */
  function ReadLoop(c: Codec, r: Reader, pause: Pause): (r': Reader)
    requires ValidCodec(c)
    decreases |r.buffer|
  {
    if !r.active then r
    else
      var s := Decode(c, r);
      var t := Absorb(r, s);
      if s.frame == [] then t
      else match pause
        case Never => ReadLoop(c, t, Never)
        case After(n) => if n <= 1 then t.(active := false) else ReadLoop(c, t, After(n - 1))
  }

  datatype Event = Chunk(bytes: Bytes, pause: Pause) | TransportInactive | TransportActive

  function Apply(c: Codec, r: Reader, e: Event): (r': Reader)
    requires ValidCodec(c)
  {
    match e
    case Chunk(bytes, pause) => ReadLoop(c, r.(buffer := r.buffer + bytes), pause)
    case TransportInactive => r.(active := false)
    case TransportActive => r.(active := true)
  }

  function AfterAll(c: Codec, r: Reader, events: seq<Event>): (r': Reader)
    requires ValidCodec(c)
    decreases |events|
  {
    if events == [] then r else AfterAll(c, Apply(c, r, events[0]), events[1..])
  }

  /** Everything the transport has delivered. */
  function Received(events: seq<Event>): (s: Bytes) {
    if events == [] then []
    else (if events[0].Chunk? then events[0].bytes else []) + Received(events[1..])
  }

  /** The last event was a chunk, and reading it was not cut short. */
  predicate CaughtUp(events: seq<Event>, r: Reader) {
    r.active && events != [] && events[|events| - 1].Chunk?
  }

  /**
   Turning the transport active does not read by itself: whatever arrived
   meanwhile, complete messages included, stays buffered until the next read.
   */
  lemma ResumeWaitsForTheNextRead(c: Codec, r: Reader, bytes: Bytes, pause: Pause)
    requires ValidCodec(c)
    ensures AfterAll(c, r, [TransportInactive, Chunk(bytes, pause), TransportActive])
         == r.(active := true, buffer := r.buffer + bytes)
  {
    var events := [TransportInactive, Chunk(bytes, pause), TransportActive];
    assert events[1..] == [Chunk(bytes, pause), TransportActive];
    assert events[1..][1..] == [TransportActive];
    var paused := r.(active := false, buffer := r.buffer + bytes);
    assert AfterAll(c, r, events) == AfterAll(c, paused, [TransportActive]);
    assert AfterAll(c, paused, [TransportActive]) == AfterAll(c, paused.(active := true), []);
  }

  // ---------------------------------------------------------------------------
  // Length-field framing
  // ---------------------------------------------------------------------------

  /** Both ends of a length-field stream, and the messages sent over it. */
  datatype Wire = Wire(p: LengthField.Prepender, d: LengthField.Decoder, msgs: seq<Bytes>)

  predicate ValidWire(w: Wire) {
    && LengthField.Matching(w.p, w.d) && LengthField.Constructed(w.d) && LengthField.AdjustmentReaches(w.d)
    && forall i | 0 <= i < |w.msgs| ::
         LengthField.Fits(w.p, w.d, w.msgs[i]) && LengthField.Encode(w.p, w.msgs[i]).Sent?
  }

  function Sent(w: Wire, i: nat): (s: Bytes)
    requires ValidWire(w) && i < |w.msgs|
    ensures s != []
  {
    LengthField.FittingEncodes(w.p, w.msgs[i]);
    LengthField.Encode(w.p, w.msgs[i]).bytes
  }

  /** The bytes of messages lo..hi. */
  function Stream(w: Wire, lo: nat, hi: nat): (s: Bytes)
    requires ValidWire(w) && lo <= hi <= |w.msgs|
    decreases hi - lo
  {
    if lo == hi then [] else Sent(w, lo) + Stream(w, lo + 1, hi)
  }

  function Bodies(w: Wire, n: nat): (fs: seq<Bytes>)
    requires ValidWire(w) && n <= |w.msgs|
    ensures |fs| == n
  {
    seq(n, i requires 0 <= i < n => LengthField.Body(w.p, w.d, w.msgs[i]))
  }

  /** Nothing is lost, invented or reordered: the emitted frames and the buffer account for every byte. */
  predicate Accounted(w: Wire, r: Reader, received: Bytes)
    requires ValidWire(w)
  {
    var k := |r.emitted|;
    && k <= |w.msgs| && r.emitted == Bodies(w, k) && r.errors == 0 && r.thrown == 0
    && r.buffer <= Stream(w, k, |w.msgs|)
    && Stream(w, 0, k) + r.buffer == received
  }

  /** The next message has not been received completely. */
  predicate Waiting(w: Wire, r: Reader)
    requires ValidWire(w)
  {
    var k := |r.emitted|;
    k <= |w.msgs| && (k == |w.msgs| ==> r.buffer == []) && (k < |w.msgs| ==> |r.buffer| < |Sent(w, k)|)
  }

  lemma {:induction false} StreamAppends(w: Wire, lo: nat, hi: nat)
    requires ValidWire(w) && lo <= hi < |w.msgs|
    ensures Stream(w, lo, hi + 1) == Stream(w, lo, hi) + Sent(w, hi)
    decreases hi - lo
  {
    hide ValidWire;
    if lo == hi {
      assert Stream(w, hi + 1, hi + 1) == [];
    } else {
      StreamAppends(w, lo + 1, hi);
      assert Sent(w, lo) + (Stream(w, lo + 1, hi) + Sent(w, hi))
          == (Sent(w, lo) + Stream(w, lo + 1, hi)) + Sent(w, hi);
    }
  }

  /** The next message is complete: it comes out and is taken off the buffer. */
  lemma MessageComesOut(w: Wire, r: Reader, tail: Bytes)
    requires ValidWire(w) && ValidCodec(ByLength(w.d))
    requires |r.emitted| < |w.msgs| && r.buffer == Sent(w, |r.emitted|) + tail
    ensures Decode(ByLength(w.d), r)
         == Step([LengthField.Body(w.p, w.d, w.msgs[|r.emitted|])], r.line, tail, false, false)
  {
    hide LengthField.Encode, LengthField.Decode;
    LengthField.DecodeUndoesEncode(w.p, w.d, w.msgs[|r.emitted|], r.buffer, tail);
  }

  lemma BodyMovesOut(w: Wire, r: Reader, received: Bytes, s: Step, tail: Bytes)
    requires ValidWire(w) && Accounted(w, r, received)
    requires |r.emitted| < |w.msgs| && r.buffer == Sent(w, |r.emitted|) + tail
    requires s == Step([LengthField.Body(w.p, w.d, w.msgs[|r.emitted|])], r.line, tail, false, false)
    ensures Accounted(w, Absorb(r, s), received)
  {
    hide ValidWire, Sent, LengthField.Body;
    var k := |r.emitted|;
    var code, later := Sent(w, k), Stream(w, k + 1, |w.msgs|);
    StreamAppends(w, 0, k);
    assert Stream(w, 0, k) + (code + tail) == (Stream(w, 0, k) + code) + tail;
    assert Bodies(w, k + 1) == Bodies(w, k) + s.frame;
    assert Stream(w, k, |w.msgs|) == code + later;
    assert tail == (code + tail)[|code|..] && later == (code + later)[|code|..];
  }

  /** The next message is incomplete: the decoder waits and changes nothing. */
  lemma DecoderWaits(w: Wire, r: Reader, received: Bytes)
    requires ValidWire(w) && ValidCodec(ByLength(w.d)) && Accounted(w, r, received) && Waiting(w, r)
    ensures var s := Decode(ByLength(w.d), r); s.frame == [] && Absorb(r, s) == r
  {
    var k := |r.emitted|;
    if k < |w.msgs| {
      var code := Sent(w, k);
      assert Stream(w, k, |w.msgs|) == code + Stream(w, k + 1, |w.msgs|);
      assert r.buffer <= code;
      LengthField.DecodeUndoesEncode(w.p, w.d, w.msgs[k], r.buffer, []);
    }
  }

  /** One turn of the loop: either the next message comes out, or the decoder waits for more of it. */
  lemma DecodeOneMessage(w: Wire, r: Reader, received: Bytes)
    requires ValidWire(w) && ValidCodec(ByLength(w.d)) && Accounted(w, r, received)
    ensures var s := Decode(ByLength(w.d), r);
            && Accounted(w, Absorb(r, s), received)
            && (s.frame == [] ==> Waiting(w, r) && Absorb(r, s) == r)
  {
    hide Decode, ValidWire, Sent;
    var k := |r.emitted|;
    if k == |w.msgs| {
      assert Stream(w, k, k) == [];
      DecoderWaits(w, r, received);
    } else if |r.buffer| < |Sent(w, k)| {
      DecoderWaits(w, r, received);
    } else {
      var code := Sent(w, k);
      assert Stream(w, k, |w.msgs|) == code + Stream(w, k + 1, |w.msgs|);
      var tail := r.buffer[|code|..];
      assert r.buffer == code + tail;
      MessageComesOut(w, r, tail);
      BodyMovesOut(w, r, received, Decode(ByLength(w.d), r), tail);
    }
  }

  lemma {:induction false} LengthLoopAccounts(w: Wire, r: Reader, pause: Pause, received: Bytes)
    requires ValidWire(w) && ValidCodec(ByLength(w.d)) && Accounted(w, r, received)
    ensures var r' := ReadLoop(ByLength(w.d), r, pause);
            && Accounted(w, r', received)
            && (r'.active ==> Waiting(w, r'))
    decreases |r.buffer|
  {
    hide Accounted, ValidWire, Waiting, Decode;
    if r.active {
      DecodeOneMessage(w, r, received);
      var s := Decode(ByLength(w.d), r);
      if s.frame != [] {
        var t := Absorb(r, s);
        match pause
        case Never => LengthLoopAccounts(w, t, Never, received);
        case After(n) =>
          if n <= 1 { ActivityDoesNotCount(w, t, received); }
          else { LengthLoopAccounts(w, t, After(n - 1), received); }
      }
    }
  }

  lemma ActivityDoesNotCount(w: Wire, r: Reader, received: Bytes)
    requires ValidWire(w) && Accounted(w, r, received)
    ensures Accounted(w, r.(active := false), received) && Accounted(w, r.(active := true), received)
  {
  }

  /** More of the stream arrives. */
  lemma MoreArrives(w: Wire, r: Reader, received: Bytes, bytes: Bytes)
    requires ValidWire(w) && Accounted(w, r, received) && received + bytes <= Stream(w, 0, |w.msgs|)
    ensures Accounted(w, r.(buffer := r.buffer + bytes), received + bytes)
  {
    var k := |r.emitted|;
    StreamSplits(w, k);
    var head, tail := Stream(w, 0, k), Stream(w, k, |w.msgs|);
    assert head + r.buffer + bytes == head + (r.buffer + bytes);
    assert head + (r.buffer + bytes) <= head + tail;
    assert r.buffer + bytes == (head + (r.buffer + bytes))[|head|..];
    assert tail == (head + tail)[|head|..];
  }

  lemma {:induction false} StreamSplits(w: Wire, k: nat)
    requires ValidWire(w) && k <= |w.msgs|
    ensures Stream(w, 0, |w.msgs|) == Stream(w, 0, k) + Stream(w, k, |w.msgs|)
  {
    hide ValidWire;
    if k > 0 {
      StreamSplits(w, k - 1);
      StreamAppends(w, 0, k - 1);
      assert Stream(w, 0, k - 1) + (Sent(w, k - 1) + Stream(w, k, |w.msgs|))
          == (Stream(w, 0, k - 1) + Sent(w, k - 1)) + Stream(w, k, |w.msgs|);
    }
  }

  lemma {:induction false} LengthRun(w: Wire, r: Reader, received: Bytes, events: seq<Event>)
    requires ValidWire(w) && ValidCodec(ByLength(w.d)) && Accounted(w, r, received)
    requires received + Received(events) <= Stream(w, 0, |w.msgs|)
    ensures var r' := AfterAll(ByLength(w.d), r, events);
            && Accounted(w, r', received + Received(events))
            && (CaughtUp(events, r') ==> Waiting(w, r'))
    decreases |events|
  {
    hide Accounted, ValidWire, Waiting, ReadLoop, Stream, ValidCodec;
    if events == [] {
      assert received + [] == received;
    } else {
      var e, c := events[0], ByLength(w.d);
      var arrived: Bytes := if e.Chunk? then e.bytes else [];
      var now := received + arrived;
      assert received + Received(events) == now + Received(events[1..]);
      assert now <= Stream(w, 0, |w.msgs|);
      match e {
        case Chunk(bytes, pause) =>
          MoreArrives(w, r, received, bytes);
          LengthLoopAccounts(w, r.(buffer := r.buffer + bytes), pause, now);
        case TransportInactive => ActivityDoesNotCount(w, r, received); assert now == received;
        case TransportActive => ActivityDoesNotCount(w, r, received); assert now == received;
      }
      LengthRun(w, Apply(c, r, e), now, events[1..]);
    }
  }

  /**
   The framing round trip, for every chunking and every pause: what has been
   emitted is exactly the first messages sent, their encodings and the buffered
   bytes are exactly the bytes received, no error was raised, and whenever a read
   ends with the transport active every completely received message is out.
   */
  lemma LengthFramingRoundTrip(w: Wire, events: seq<Event>)
    requires ValidWire(w) && Received(events) <= Stream(w, 0, |w.msgs|)
    ensures ValidCodec(ByLength(w.d))
    ensures var r := AfterAll(ByLength(w.d), FRESH, events);
            var k := |r.emitted|;
            && k <= |w.msgs| && r.errors == 0 && r.thrown == 0
            && (forall i | 0 <= i < k :: r.emitted[i] == LengthField.Body(w.p, w.d, w.msgs[i]))
            && (w.d.strip == w.p.width ==> r.emitted == w.msgs[..k])
            && Stream(w, 0, k) + r.buffer == Received(events)
            && (CaughtUp(events, r) ==>
                  if k == |w.msgs| then r.buffer == [] else |r.buffer| < |Sent(w, k)|)
  {
    assert [] + Received(events) == Received(events);
    assert Accounted(w, FRESH, []);
    LengthRun(w, FRESH, [], events);
    var r := AfterAll(ByLength(w.d), FRESH, events);
    var k := |r.emitted|;
    if w.d.strip == w.p.width {
      forall i | 0 <= i < k ensures r.emitted[i] == w.msgs[..k][i] {
        LengthField.DecodeUndoesEncode(w.p, w.d, w.msgs[i], [], []);
      }
    }
  }

  // ---------------------------------------------------------------------------
  // Line framing
  // ---------------------------------------------------------------------------

  function Lines(c: LineFraming.LineDecoder, s: Bytes): (r: LineFraming.Split) {
    LineFraming.SplitLines(c.strip, c.terminator, s)
  }

  /** The emitted lines and the lines still in the buffer are the lines of what was received. */
  predicate LinesAccounted(c: LineFraming.LineDecoder, r: Reader, received: Bytes) {
    && r.line == LineFraming.CLEAN && r.errors == 0 && r.thrown == 0
    && LineFraming.Short(c.terminator, c.maxLength, r.buffer)
    && r.emitted + Lines(c, r.buffer).lines == Lines(c, received).lines
    && Lines(c, r.buffer).rest == Lines(c, received).rest
  }

  lemma DecodeOneLine(c: LineFraming.LineDecoder, r: Reader, received: Bytes)
    requires LinesAccounted(c, r, received)
    ensures var s := Decode(ByLine(c), r);
            && LinesAccounted(c, Absorb(r, s), received)
            && (s.frame == [] ==> Absorb(r, s) == r && Lines(c, r.buffer) == LineFraming.Split([], r.buffer))
  {
    hide LineFraming.EolAt, LineFraming.AfterLine, LineFraming.Line, LineFraming.FirstEol, LineFraming.Decode;
    LineFraming.DecodeOnShort(c, r.buffer);
    var e := LineFraming.FirstEol(c.terminator, r.buffer);
    if e >= 0 {
      var line := LineFraming.Line(c.strip, c.terminator, r.buffer, e);
      var more := Lines(c, LineFraming.AfterLine(c.terminator, r.buffer, e));
      assert r.emitted + ([line] + more.lines) == (r.emitted + [line]) + more.lines;
    }
  }

  lemma {:induction false} LineLoopAccounts(c: LineFraming.LineDecoder, r: Reader, pause: Pause, received: Bytes)
    requires LinesAccounted(c, r, received)
    ensures var r' := ReadLoop(ByLine(c), r, pause);
            && LinesAccounted(c, r', received)
            && (r'.active ==> Lines(c, r'.buffer) == LineFraming.Split([], r'.buffer))
    decreases |r.buffer|
  {
    hide LinesAccounted, Decode, Lines;
    if r.active {
      DecodeOneLine(c, r, received);
      var s := Decode(ByLine(c), r);
      if s.frame != [] {
        var t := Absorb(r, s);
        match pause
        case Never => LineLoopAccounts(c, t, Never, received);
        case After(n) =>
          if n <= 1 { LineActivityDoesNotCount(c, t, received); }
          else { LineLoopAccounts(c, t, After(n - 1), received); }
      }
    }
  }

  lemma LineActivityDoesNotCount(c: LineFraming.LineDecoder, r: Reader, received: Bytes)
    requires LinesAccounted(c, r, received)
    ensures LinesAccounted(c, r.(active := false), received) && LinesAccounted(c, r.(active := true), received)
  {
  }

  /** More of the stream arrives, possibly a LF that completes a line end begun by a CR. */
  lemma MoreLinesArrive(c: LineFraming.LineDecoder, r: Reader, received: Bytes, bytes: Bytes)
    requires LinesAccounted(c, r, received)
    requires LineFraming.Short(c.terminator, c.maxLength, received + bytes)
    ensures LinesAccounted(c, r.(buffer := r.buffer + bytes), received + bytes)
  {
    hide LineFraming.SplitLines, LineFraming.Short;
    LineFraming.SplitInTwoSteps(c.strip, c.terminator, r.buffer, bytes);
    LineFraming.SplitInTwoSteps(c.strip, c.terminator, received, bytes);
    var inBuffer, sofar := Lines(c, r.buffer), Lines(c, received);
    var more := Lines(c, sofar.rest + bytes);
    assert r.emitted + (inBuffer.lines + more.lines) == (r.emitted + inBuffer.lines) + more.lines;
    ShortCarries(c, r.buffer, received, bytes);
  }

  /** Short lines of the whole mean short lines of any buffer with the same unfinished rest. */
  lemma ShortCarries(c: LineFraming.LineDecoder, buffer: Bytes, received: Bytes, bytes: Bytes)
    requires LineFraming.Short(c.terminator, c.maxLength, received + bytes)
    requires LineFraming.Short(c.terminator, c.maxLength, buffer)
    requires Lines(c, buffer).rest == Lines(c, received).rest
    ensures LineFraming.Short(c.terminator, c.maxLength, buffer + bytes)
  {
    ShortRest(c, received, bytes);
    ShortExtends(c, buffer, bytes);
  }

  lemma {:induction false} ShortRest(c: LineFraming.LineDecoder, s: Bytes, bytes: Bytes)
    requires LineFraming.Short(c.terminator, c.maxLength, s + bytes)
    ensures LineFraming.Short(c.terminator, c.maxLength, Lines(c, s).rest + bytes)
    decreases |s|
  {
    hide LineFraming.EolAt, LineFraming.AfterLine, LineFraming.Line, LineFraming.FirstEol;
    var e := LineFraming.FirstEol(c.terminator, s);
    if e >= 0 {
      LineFraming.FirstEolIsStable(c.terminator, s, bytes);
      ShortRest(c, LineFraming.AfterLine(c.terminator, s, e), bytes);
    }
  }

  lemma {:induction false} ShortExtends(c: LineFraming.LineDecoder, s: Bytes, bytes: Bytes)
    requires LineFraming.Short(c.terminator, c.maxLength, s)
    requires LineFraming.Short(c.terminator, c.maxLength, Lines(c, s).rest + bytes)
    ensures LineFraming.Short(c.terminator, c.maxLength, s + bytes)
    decreases |s|
  {
    hide LineFraming.EolAt, LineFraming.AfterLine, LineFraming.Line, LineFraming.FirstEol;
    var e := LineFraming.FirstEol(c.terminator, s);
    if e >= 0 {
      LineFraming.FirstEolIsStable(c.terminator, s, bytes);
      ShortExtends(c, LineFraming.AfterLine(c.terminator, s, e), bytes);
    }
  }

  lemma {:induction false} LineRun(c: LineFraming.LineDecoder, r: Reader, received: Bytes, events: seq<Event>)
    requires LinesAccounted(c, r, received)
    requires LineFraming.Short(c.terminator, c.maxLength, received + Received(events))
    ensures var r' := AfterAll(ByLine(c), r, events);
            && LinesAccounted(c, r', received + Received(events))
            && (CaughtUp(events, r') ==> Lines(c, r'.buffer) == LineFraming.Split([], r'.buffer))
    decreases |events|
  {
    hide LinesAccounted, ReadLoop, Lines, LineFraming.Short;
    if events == [] {
      assert received + [] == received;
    } else {
      var e := events[0];
      var arrived: Bytes := if e.Chunk? then e.bytes else [];
      var now := received + arrived;
      assert received + Received(events) == now + Received(events[1..]);
      match e {
        case Chunk(bytes, pause) =>
          LineFraming.ShortPrefix(c.terminator, c.maxLength, now, Received(events[1..]));
          MoreLinesArrive(c, r, received, bytes);
          LineLoopAccounts(c, r.(buffer := r.buffer + bytes), pause, now);
        case TransportInactive => LineActivityDoesNotCount(c, r, received); assert now == received;
        case TransportActive => LineActivityDoesNotCount(c, r, received); assert now == received;
      }
      LineRun(c, Apply(ByLine(c), r, e), now, events[1..]);
    }
  }

  lemma FreshHasNoLines(c: LineFraming.LineDecoder)
    ensures LinesAccounted(c, FRESH, [])
  {
  }

  /**
   Line framing equals the splitter, for every chunking (a cut between CR and LF
   included) and every pause: on a stream of short lines the decoder never starts
   discarding, what it has emitted is a prefix of the splitter's lines, and
   whenever a read ends with the transport active it is all of them, with the
   unfinished line, which holds no line end, in the buffer.
   */
  lemma LineFramingEqualsSplitter(c: LineFraming.LineDecoder, events: seq<Event>)
    requires LineFraming.Short(c.terminator, c.maxLength, Received(events))
    ensures var r := AfterAll(ByLine(c), FRESH, events);
            var s := Lines(c, Received(events));
            && r.errors == 0 && r.thrown == 0 && !r.line.discarding
            && r.emitted <= s.lines
            && (CaughtUp(events, r) ==>
                  r.emitted == s.lines && r.buffer == s.rest && LineFraming.FirstEol(c.terminator, r.buffer) < 0)
  {
    hide LineFraming.FirstEol, LineFraming.SplitLines, AfterAll, LineFraming.Short;
    LineFraming.RestIsUnfinished(c.strip, c.terminator, Received(events));
    assert [] + Received(events) == Received(events);
    FreshHasNoLines(c);
    LineRun(c, FRESH, [], events);
  }

  /**
   Lines shorter than the limit, joined at one end and read at the other: after
   any part of them has arrived, in any chunks, what has come out are the first
   lines as they were (with their endings if those are kept), and whenever a read
   ends with the transport active the buffer holds only a part of the next one.
   */
  lemma JoinedLinesComeBack(c: LineFraming.LineDecoder, lines: seq<Bytes>, crlf: bool, events: seq<Event>)
    requires forall i | 0 <= i < |lines| ::
               LineFraming.Survives(c.terminator, crlf, lines[i]) && |lines[i]| < c.maxLength
    requires Received(events) <= LineFraming.JoinLines(lines, crlf)
    ensures var r := AfterAll(ByLine(c), FRESH, events);
            var k := |r.emitted|;
            && k <= |lines|
            && (forall i | 0 <= i < k ::
                  r.emitted[i] == if c.strip then lines[i] else lines[i] + LineFraming.Ending(crlf))
            && (CaughtUp(events, r) ==>
                  && Received(events) == LineFraming.JoinLines(lines[..k], crlf) + r.buffer
                  && (k < |lines| ==> r.buffer < lines[k] + LineFraming.Ending(crlf)))
  {
    hide AfterAll, LineFraming.SplitLines, LineFraming.JoinLines, LineFraming.Short, LineFraming.Survives,
         LineFraming.Ending;
    var got, all := Received(events), LineFraming.JoinLines(lines, crlf);
    LineFraming.JoinIsShort(c.terminator, c.maxLength, lines, crlf);
    assert all == got + all[|got|..];
    LineFraming.ShortPrefix(c.terminator, c.maxLength, got, all[|got|..]);
    LineFramingEqualsSplitter(c, events);
    LineFraming.SplitPartOfJoin(c.strip, c.terminator, lines, crlf, got);
    var r, s := AfterAll(ByLine(c), FRESH, events), Lines(c, got);
    assert forall i | 0 <= i < |r.emitted| :: r.emitted[i] == s.lines[i];
  }

  /** An overlong line raises one error, and what follows it up to the next line end is dropped silently. */
  lemma LongLineIsReportedOnce(c: LineFraming.LineDecoder, buf: Bytes, more: Bytes)
    requires LineFraming.FindEol(c.terminator, buf, c.maxLength) < 0 && |buf| > c.maxLength
    requires LineFraming.FindEol(c.terminator, more, c.maxLength) >= 0
    ensures var r := AfterAll(ByLine(c), FRESH, [Chunk(buf, Never), Chunk(more, Never)]);
            && r.errors == 1 && r.thrown == 0 && r.emitted == [] && r.line == LineFraming.CLEAN
            && r.buffer == LineFraming.AfterLine(c.terminator, more, LineFraming.FindEol(c.terminator, more, c.maxLength))
  {
    LineFraming.ResumesAfterLongLine(c, buf, more);
    var events := [Chunk(buf, Never), Chunk(more, Never)];
    assert events[1..] == [Chunk(more, Never)] && events[1..][1..] == [];
    assert [] + buf == buf;
    hide LineFraming.Decode;
    var one := Apply(ByLine(c), FRESH, events[0]);
    var two := Apply(ByLine(c), one, events[1]);
    assert AfterAll(ByLine(c), two, []) == two;
    assert AfterAll(ByLine(c), one, events[1..]) == two;
  }

  /** A frame that makes the decoder throw ends the read: nothing is reported, and the queue is gone. */
  lemma ThrowEndsTheRead(d: LengthField.Decoder, r: Reader, pause: Pause)
    requires ValidCodec(ByLength(d)) && r.active && LengthField.Decode(d, r.buffer) == LengthField.Throws
    ensures ReadLoop(ByLength(d), r, pause) == r.(buffer := [], thrown := r.thrown + 1)
  {
    hide LengthField.Decode;
    assert r.emitted + [] == r.emitted;
  }
}
