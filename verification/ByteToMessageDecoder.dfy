/**
 ByteToMessageDecoder and its two codecs as objects: the queue is trimmed and
 split in place, the line decoder keeps its discarding state, and `Read` is the
 loop, proved against the specification of the module FrameReader.
 */
module ByteToMessageDecoderObject {
  import opened Octets
  import opened FrameReader
  import LengthField
  import LineFraming

  class ByteToMessageDecoder {
    const codec: Codec

    var transportActive: bool
    var queue: Bytes
    var discarding: bool
    var discardedBytes: nat
    var emitted: seq<Bytes>
    var errors: nat
    var thrown: nat

    function View(): (r: Reader)
      reads this
    {
      Reader(LineFraming.LineState(discarding, discardedBytes), transportActive, queue, emitted, errors, thrown)
    }

    constructor (c: Codec)
      ensures codec == c && View() == FRESH
    {
      codec := c;
      transportActive, queue, discarding, discardedBytes := true, [], false, 0;
      emitted, errors, thrown := [], 0, 0;
    }

    /** Takes n bytes off the front of the queue. */
    method Split(n: nat) returns (front: Bytes)
      requires n <= |queue|
      modifies `queue
      ensures front + queue == old(queue) && |front| == n
    {
      front, queue := queue[..n], queue[n..];
    }

    method FireReadException()
      modifies `errors
      ensures errors == old(errors) + 1
    {
      errors := errors + 1;
    }

    /** `threw` says that the exception of `split` leaves this call, and with it `read`. */
    method DecodeLengthField(d: LengthField.Decoder) returns (result: seq<Bytes>, threw: bool)
      modifies `queue, `errors
      ensures threw <==> LengthField.Decode(d, old(queue)) == LengthField.Throws
      ensures match LengthField.Decode(d, old(queue))
              case NeedMore => result == [] && queue == old(queue) && errors == old(errors)
              case Failed(_, rest) => result == [] && queue == rest && errors == old(errors) + 1
              case Throws => result == [] && queue == [] && errors == old(errors)
              case Frame(f, rest) => result == [f] && queue == rest && errors == old(errors)
    {
      var end := LengthField.EndOffset(d);
      if |queue| < end {
        return [], false;
      }
      var frameLength := LengthField.FrameLength(d, LengthField.FieldValue(d, queue));
      if frameLength < end {
        var _ := Split(end);
        FireReadException();
        return [], false;
      }
      if frameLength > d.maxFrame {
        var _ := Split(if frameLength <= |queue| then frameLength else |queue|);
        FireReadException();
        return [], false;
      }
      if |queue| < frameLength {
        return [], false;
      }
      if d.strip > frameLength {
        var _ := Split(frameLength);
        FireReadException();
        return [], false;
      }
      ghost var all := queue;
      var _ := Split(d.strip);
      if frameLength - d.strip > INT_MAX {
        var _ := Split(|queue|);
        return [], true;
      }
      var frame := Split(frameLength - d.strip);
      assert frame == all[d.strip..frameLength] && queue == all[frameLength..];
      return [frame], false;
    }

    method DecodeLine(c: LineFraming.LineDecoder) returns (result: seq<Bytes>)
      modifies `queue, `errors, `discarding, `discardedBytes
      ensures var before := LineFraming.LineState(old(discarding), old(discardedBytes));
              var after := LineFraming.LineState(discarding, discardedBytes);
              match LineFraming.Decode(c, before, old(queue))
              case NeedMore(st, rest) => result == [] && after == st && queue == rest && errors == old(errors)
              case TooLong(st, rest) => result == [] && after == st && queue == rest && errors == old(errors) + 1
              case Frame(f, st, rest) => result == [f] && after == st && queue == rest && errors == old(errors)
    {
      var eol := LineFraming.FindEndOfLine(c.terminator, queue, c.maxLength);
      result := [];
      ghost var all := queue;
      if !discarding {
        if eol >= 0 {
          var delimLength := LineFraming.DelimiterLength(queue, eol);
          if c.strip {
            var frame := Split(eol);
            var _ := Split(delimLength);
            assert frame == all[..eol] && queue == all[eol + delimLength..];
            result := [frame];
          } else {
            var frame := Split(eol + delimLength);
            result := [frame];
          }
        } else if |queue| > c.maxLength {
          discardedBytes := |queue| % UINT32;
          var _ := Split(|queue|);
          discarding := true;
          FireReadException();
        }
      } else if eol >= 0 {
        var _ := Split(eol + LineFraming.DelimiterLength(queue, eol));
        discardedBytes, discarding := 0, false;
      } else {
        discardedBytes := |queue| % UINT32;
        queue := [];
      }
    }

    method DecodeOnce() returns (result: seq<Bytes>)
      requires ValidCodec(codec)
      modifies `queue, `errors, `thrown, `discarding, `discardedBytes
      ensures var s := Decode(codec, old(View()));
              result == s.frame && View().(emitted := old(emitted) + result) == Absorb(old(View()), s)
    {
      hide LengthField.Decode, LineFraming.Decode;
      match codec
      case ByLength(d) =>
        var threw;
        result, threw := DecodeLengthField(d);
        if threw {
          thrown := thrown + 1;
        }
      case ByLine(c) => result := DecodeLine(c);
    }

    /**
     `read`: the chunk has been appended to the queue. The handler that receives
     a frame may turn the transport inactive; `pause` says after which frame.
     */
    method Read(chunk: Bytes, pause: Pause)
      requires ValidCodec(codec)
      modifies this
      ensures View() == Apply(codec, old(View()), Chunk(chunk, pause))
    {
      hide Decode;
      queue := queue + chunk;
      ghost var goal := ReadLoop(codec, View(), pause);
      var success, left := true, pause;
      while success && transportActive
        invariant success ==> ReadLoop(codec, View(), left) == goal
        invariant !success ==> View() == goal
        decreases success, |queue|
      {
        var result := DecodeOnce();
        success := result != [];
        emitted := emitted + result;
        if success && left.After? {
          if left.frames <= 1 {
            transportActive := false;
          } else {
            left := After(left.frames - 1);
          }
        }
      }
    }

    method OnTransportActive()
      requires ValidCodec(codec)
      modifies `transportActive
      ensures View() == Apply(codec, old(View()), TransportActive)
    {
      transportActive := true;
    }

    method OnTransportInactive()
      requires ValidCodec(codec)
      modifies `transportActive
      ensures View() == Apply(codec, old(View()), TransportInactive)
    {
      transportActive := false;
    }
  }
}
