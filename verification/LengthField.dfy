/**
 The length-field codec: LengthFieldPrepender writes the length of a message in
 front of it, LengthFieldBasedFrameDecoder reads such lengths and cuts the
 stream into frames. Buffers are byte sequences; the C++ integer widths are
 written out.
 */
module LengthField {
  import opened Arithmetic
  import opened Octets

  // ---------------------------------------------------------------------------
  // Fixed-width integers
  // ---------------------------------------------------------------------------

  function Pow256(width: nat): (p: nat)
    ensures p > 0
  {
    if width == 0 then 1 else 256 * Pow256(width - 1)
  }

  /** The low `width` bytes of n, most significant first. */
  function ToBE(n: nat, width: nat): (s: Bytes)
    ensures |s| == width
  {
    if width == 0 then [] else ToBE(n / 256, width - 1) + [n % 256]
  }

  function ToLE(n: nat, width: nat): (s: Bytes)
    ensures |s| == width
  {
    if width == 0 then [] else [n % 256] + ToLE(n / 256, width - 1)
  }

  function FromBE(s: Bytes): (n: nat) {
    if s == [] then 0 else 256 * FromBE(s[..|s| - 1]) + s[|s| - 1]
  }

  function FromLE(s: Bytes): (n: nat) {
    if s == [] then 0 else s[0] + 256 * FromLE(s[1..])
  }

  function WriteField(n: nat, width: nat, networkOrder: bool): (s: Bytes)
    ensures |s| == width
  {
    if networkOrder then ToBE(n, width) else ToLE(n, width)
  }

  function ReadField(s: Bytes, networkOrder: bool): (n: nat) {
    if networkOrder then FromBE(s) else FromLE(s)
  }

  lemma {:induction false} BigEndianRoundTrip(n: nat, width: nat)
    ensures FromBE(ToBE(n, width)) == n % Pow256(width)
  {
    if width > 0 {
      var s := ToBE(n, width);
      assert s[..|s| - 1] == ToBE(n / 256, width - 1);
      BigEndianRoundTrip(n / 256, width - 1);
      ModByte(n, Pow256(width - 1));
    }
  }

  lemma {:induction false} LittleEndianRoundTrip(n: nat, width: nat)
    ensures FromLE(ToLE(n, width)) == n % Pow256(width)
  {
    if width > 0 {
      var s := ToLE(n, width);
      assert s[1..] == ToLE(n / 256, width - 1);
      LittleEndianRoundTrip(n / 256, width - 1);
      ModByte(n, Pow256(width - 1));
    }
  }

  /** A length comes back from its field exactly if it fits; otherwise its high bytes are lost. */
  lemma FieldRoundTripIff(n: nat, width: nat, networkOrder: bool)
    ensures ReadField(WriteField(n, width, networkOrder), networkOrder) == n % Pow256(width)
    ensures ReadField(WriteField(n, width, networkOrder), networkOrder) == n <==> n < Pow256(width)
  {
    BigEndianRoundTrip(n, width);
    LittleEndianRoundTrip(n, width);
    ModSmall(n, Pow256(width));
  }

  lemma DivTwice(n: nat, p: nat)
    requires p > 0
    ensures n / 256 / p == n / (256 * p)
  {
    var q, r := n / 256 / p, n / 256 % p;
    assert n / 256 == q * p + r;
    ScaleProduct(q, p);
    DivUnique(n, 256 * p, q, 256 * r + n % 256);
  }

  lemma {:induction false} BigEndianByte(n: nat, width: nat, i: nat)
    requires i < width
    ensures ToBE(n, width)[i] == n / Pow256(width - 1 - i) % 256
  {
    if i < width - 1 {
      BigEndianByte(n / 256, width - 1, i);
      DivTwice(n, Pow256(width - 2 - i));
    }
  }

  lemma {:induction false} LittleEndianByte(n: nat, width: nat, i: nat)
    requires i < width
    ensures ToLE(n, width)[i] == n / Pow256(i) % 256
  {
    if i > 0 {
      LittleEndianByte(n / 256, width - 1, i - 1);
      DivTwice(n, Pow256(i - 1));
    }
  }

  /** In network order the most significant byte comes first, otherwise the least significant one. */
  lemma FieldBytes(n: nat, width: nat, networkOrder: bool, i: nat)
    requires i < width
    ensures WriteField(n, width, networkOrder)[i] == n / Pow256(if networkOrder then width - 1 - i else i) % 256
  {
    BigEndianByte(n, width, i);
    LittleEndianByte(n, width, i);
  }

  // ---------------------------------------------------------------------------
  // LengthFieldPrepender
  // ---------------------------------------------------------------------------

  datatype Prepender = Prepender(width: nat, adjustment: int, includesField: bool, networkOrder: bool)

  predicate HasCase(width: nat) {
    width == 1 || width == 2 || width == 4 || width == 8
  }

  /** The length before it is stored in a size_t. */
  function PlainLength(p: Prepender, n: nat): (len: int) {
    p.adjustment + n + if p.includesField then p.width else 0
  }

  datatype Written = Sent(bytes: Bytes) | Thrown

  /** `LengthFieldPrepender::write`: only the one- and two-byte fields are checked for overflow. */
  function Encode(p: Prepender, msg: Bytes): (r: Written)
    requires HasCase(p.width)
  {
    var length := PlainLength(p, |msg|) % UINT64;
    if (p.width == 1 && length >= 256) || (p.width == 2 && length >= 65536) then Thrown
    else Sent(WriteField(length, p.width, p.networkOrder) + msg)
  }

  /** `write`: the length is wrapped to a size_t twice, the header filled in the byte order asked for. */
  method Write(p: Prepender, msg: Bytes) returns (r: Written)
    requires HasCase(p.width)
    ensures r == Encode(p, msg)
  {
    var length := (p.adjustment + |msg|) % UINT64;
    if p.includesField {
      WrapTwice(p.adjustment + |msg|, p.width);
      length := (length + p.width) % UINT64;
    }
    if p.width == 1 && length >= 256 {
      return Thrown;
    }
    if p.width == 2 && length >= 65536 {
      return Thrown;
    }
    var header := WriteField(length, p.width, p.networkOrder);
    return Sent(header + msg);
  }

  lemma WrapTwice(x: int, w: nat)
    ensures (x % UINT64 + w) % UINT64 == (x + w) % UINT64
  {
    var q, r := x / UINT64, x % UINT64;
    var q', r' := (r + w) / UINT64, (r + w) % UINT64;
    assert x + w == (q + q') * UINT64 + r';
  }

  // ---------------------------------------------------------------------------
  // LengthFieldBasedFrameDecoder
  // ---------------------------------------------------------------------------

  datatype Decoder = Decoder(
    width: nat, maxFrame: nat, offset: nat, adjustment: int, strip: nat, networkOrder: bool)

  /** lengthFieldEndOffset_ */
  function EndOffset(d: Decoder): (e: nat) {
    d.offset + d.width
  }

  /** The constructor's CHECKs, with every parameter in its type and the end of the field addressable. */
  predicate Constructed(d: Decoder) {
    && d.maxFrame < UINT32 && d.strip < UINT32 && EndOffset(d) < UINT32
    && -0x8000_0000 <= d.adjustment <= INT_MAX
    && d.maxFrame > 0 && d.offset <= (d.maxFrame - d.width) % UINT32
  }

  /** `getUnadjustedFrameLength`: a width without a case reads as zero. */
  function FieldValue(d: Decoder, buf: Bytes): (n: nat)
    requires EndOffset(d) <= |buf|
  {
    if HasCase(d.width) then ReadField(buf[d.offset..EndOffset(d)], d.networkOrder) else 0
  }

  /** The adjustment is added to the end offset in 32 unsigned bits, the sum to the field in 64. */
  function FrameLength(d: Decoder, field: nat): (n: nat) {
    (field + (d.adjustment + EndOffset(d)) % UINT32) % UINT64
  }

  datatype DecodeError = TooSmall | TooLarge | StripTooLarge

  /** `Failed` is reported through fireReadException; `Throws` escapes from `decode`. */
  datatype Decoded =
    | NeedMore
    | Failed(error: DecodeError, rest: Bytes)
    | Throws
    | Frame(frame: Bytes, rest: Bytes)

  /** `decode`. A frame body over INT_MAX becomes a negative `int`, a size that `split` throws at. */
  function Decode(d: Decoder, buf: Bytes): (r: Decoded)
    ensures r.Frame? ==> |r.rest| + EndOffset(d) <= |buf| && r.rest == buf[|buf| - |r.rest|..]
  {
    if |buf| < EndOffset(d) then NeedMore
    else
      var length := FrameLength(d, FieldValue(d, buf));
      if length < EndOffset(d) then Failed(TooSmall, buf[EndOffset(d)..])
      else if length > d.maxFrame then Failed(TooLarge, if length <= |buf| then buf[length..] else [])
      else if |buf| < length then NeedMore
      else if d.strip > length then Failed(StripTooLarge, buf[length..])
      else if length - d.strip > INT_MAX then Throws
      else Frame(buf[d.strip..length], buf[length..])
  }

  /** A frame is a slice of the buffer within the limit, and nothing around it is kept or lost twice. */
  lemma FrameIsASlice(d: Decoder, buf: Bytes)
    requires Decode(d, buf).Frame?
    ensures var r := Decode(d, buf);
            && d.strip + |r.frame| <= d.maxFrame && EndOffset(d) <= d.strip + |r.frame|
            && d.strip <= |buf| && buf == buf[..d.strip] + r.frame + r.rest
  {
    var length := FrameLength(d, FieldValue(d, buf));
    assert buf == buf[..length] + buf[length..];
    assert buf[..length] == buf[..d.strip] + buf[d.strip..length];
  }

  /** How long the frame at the head of the buffer claims to be. */
  function Claimed(d: Decoder, buf: Bytes): (n: nat)
    requires EndOffset(d) <= |buf|
  {
    FrameLength(d, FieldValue(d, buf))
  }

  /**
   A reported failure skips the frame it is about and nothing else: a frame that
   claims less than its own header loses the header, any other one all of it that
   has arrived.
   */
  lemma FailureSkipsTheFrame(d: Decoder, buf: Bytes)
    requires Decode(d, buf).Failed?
    ensures EndOffset(d) <= |buf|
    ensures var r, length := Decode(d, buf), Claimed(d, buf);
            && (r.error == TooSmall <==> length < EndOffset(d))
            && (r.error == TooLarge <==> EndOffset(d) <= length && d.maxFrame < length)
            && (r.error == StripTooLarge ==> length <= |buf| && length < d.strip)
            && |r.rest| <= |buf| && r.rest == buf[|buf| - |r.rest|..] && (EndOffset(d) > 0 ==> |r.rest| < |buf|)
            && |buf| - |r.rest| == if r.error == TooSmall then EndOffset(d) else if length <= |buf| then length else |buf|
  {
  }

  /** The decoder waits exactly for the rest of a header, or of a frame within the limit. */
  lemma DecodeWaitsIff(d: Decoder, buf: Bytes)
    ensures Decode(d, buf) == NeedMore <==>
            |buf| < EndOffset(d) || EndOffset(d) <= |buf| < Claimed(d, buf) <= d.maxFrame
  {
  }

  /**
   When `decode` throws instead of reporting: exactly if a complete frame within
   the limit has a body over INT_MAX once the bytes to strip are taken off.
   */
  lemma DecodeThrowsIff(d: Decoder, buf: Bytes)
    ensures Decode(d, buf) == Throws <==>
            && EndOffset(d) <= |buf|
            && var length := FrameLength(d, FieldValue(d, buf));
               EndOffset(d) <= length <= |buf| && INT_MAX + d.strip < length <= d.maxFrame
  {
  }

  /** The bytes of the largest frame a decoder accepts. */
  function LargestFrame(d: Decoder): (buf: Bytes)
    requires EndOffset(d) <= d.maxFrame && (d.adjustment + EndOffset(d)) % UINT32 <= d.maxFrame
  {
    seq(d.offset, _ => 0)
    + WriteField(d.maxFrame - (d.adjustment + EndOffset(d)) % UINT32, d.width, d.networkOrder)
    + seq(d.maxFrame - EndOffset(d), _ => 0)
  }

  /**
   What that asks of the settings: with a field of four or eight bytes, some
   buffer makes `decode` throw exactly if the limit exceeds the bytes to strip by
   more than INT_MAX. The default limit does.
   */
  lemma SettingsCanThrowIff(d: Decoder)
    requires Constructed(d) && (d.width == 4 || d.width == 8)
    requires EndOffset(d) <= d.maxFrame && (d.adjustment + EndOffset(d)) % UINT32 <= d.maxFrame
    ensures (exists buf :: Decode(d, buf) == Throws) <==> d.maxFrame - d.strip > INT_MAX
    ensures d.maxFrame - d.strip > INT_MAX ==> Decode(d, LargestFrame(d)) == Throws
  {
    forall buf | Decode(d, buf) == Throws ensures d.maxFrame - d.strip > INT_MAX {
      DecodeThrowsIff(d, buf);
    }
    var buf := LargestFrame(d);
    LargestFrameIsRead(d);
    DecodeThrowsIff(d, buf);
  }

  lemma LargestFrameIsRead(d: Decoder)
    requires Constructed(d) && (d.width == 4 || d.width == 8)
    requires EndOffset(d) <= d.maxFrame && (d.adjustment + EndOffset(d)) % UINT32 <= d.maxFrame
    ensures |LargestFrame(d)| == d.maxFrame
    ensures FrameLength(d, FieldValue(d, LargestFrame(d))) == d.maxFrame
  {
    hide Pow256, WriteField, ReadField;
    var sum := (d.adjustment + EndOffset(d)) % UINT32;
    var field := WriteField(d.maxFrame - sum, d.width, d.networkOrder);
    assert LargestFrame(d)[d.offset..EndOffset(d)] == field;
    Pow256Values();
    FieldRoundTripIff(d.maxFrame - sum, d.width, d.networkOrder);
    LengthOf(d, d.maxFrame - sum, d.maxFrame);
  }

  lemma LengthOf(d: Decoder, field: nat, length: nat)
    requires field + (d.adjustment + EndOffset(d)) % UINT32 == length < UINT64
    ensures FrameLength(d, field) == length
  {
  }

  // ---------------------------------------------------------------------------
  // Encoder and decoder undo each other
  // ---------------------------------------------------------------------------

  /** The settings of the two ends agree on where the length is and what it counts. */
  predicate Matching(p: Prepender, d: Decoder) {
    && HasCase(p.width) && d.width == p.width && d.offset == 0 && d.networkOrder == p.networkOrder
    && d.adjustment == -p.adjustment - (if p.includesField then p.width else 0)
    && d.strip <= p.width
  }

  /** The 32-bit sum of adjustment and end offset does not wrap. */
  predicate AdjustmentReaches(d: Decoder) {
    0 <= d.adjustment + EndOffset(d) < UINT32
  }

  /** The message's length fits its field and its frame fits the decoder. */
  predicate Fits(p: Prepender, d: Decoder, msg: Bytes) {
    && 0 <= PlainLength(p, |msg|) < Pow256(p.width)
    && p.width + |msg| <= d.maxFrame && p.width + |msg| - d.strip <= INT_MAX
  }

  /** What arrives for a message: its encoding without the stripped bytes. */
  function Body(p: Prepender, d: Decoder, msg: Bytes): (s: Bytes)
    requires HasCase(p.width) && Encode(p, msg).Sent? && d.strip <= p.width
  {
    Encode(p, msg).bytes[d.strip..]
  }

  lemma Pow256Values()
    ensures Pow256(1) == 256 && Pow256(2) == 65536 && Pow256(4) == UINT32 && Pow256(8) == UINT64
  {
    assert Pow256(3) == 256 * 65536;
    assert Pow256(5) == 256 * UINT32;
    assert Pow256(6) == 65536 * UINT32;
    assert Pow256(7) == 65536 * 256 * UINT32;
  }

  lemma FittingEncodes(p: Prepender, msg: Bytes)
    requires HasCase(p.width) && 0 <= PlainLength(p, |msg|) < Pow256(p.width)
    ensures Encode(p, msg) == Sent(WriteField(PlainLength(p, |msg|), p.width, p.networkOrder) + msg)
  {
    Pow256Values();
  }

  /** A message is refused exactly if its wrapped length does not fit a field of one or two bytes. */
  lemma EncodeThrowsIff(p: Prepender, msg: Bytes)
    requires HasCase(p.width)
    ensures Encode(p, msg) == Thrown <==>
            p.width <= 2 && PlainLength(p, |msg|) % UINT64 >= Pow256(p.width)
    ensures Encode(p, msg).Sent? ==> |Encode(p, msg).bytes| == p.width + |msg| && Encode(p, msg).bytes[p.width..] == msg
  {
    Pow256Values();
  }

  /** The decoder computes the size of the encoded message exactly if the 32-bit sum does not wrap. */
  lemma FrameLengthIff(p: Prepender, d: Decoder, msg: Bytes)
    requires Matching(p, d) && Constructed(d) && Fits(p, d, msg)
    ensures FrameLength(d, PlainLength(p, |msg|)) == p.width + |msg| <==> AdjustmentReaches(d)
  {
    hide Pow256;
    Pow256Values();
    var sum := d.adjustment + EndOffset(d);
    assert sum % UINT32 == if sum < 0 then sum + UINT32 else sum;
    assert PlainLength(p, |msg|) + sum == p.width + |msg|;
  }

  /**
   One message at the head of the buffer, whatever follows it: it comes out
   whole and nothing else is consumed. While it is incomplete the decoder waits
   and touches nothing.
   */
  lemma DecodeUndoesEncode(p: Prepender, d: Decoder, msg: Bytes, buf: Bytes, tail: Bytes)
    requires Matching(p, d) && Constructed(d) && AdjustmentReaches(d) && Fits(p, d, msg)
    requires Encode(p, msg).Sent?
    ensures buf == Encode(p, msg).bytes + tail ==> Decode(d, buf) == Frame(Body(p, d, msg), tail)
    ensures buf <= Encode(p, msg).bytes && buf != Encode(p, msg).bytes ==> Decode(d, buf) == NeedMore
    ensures d.strip == p.width ==> Body(p, d, msg) == msg
  {
    FittingEncodes(p, msg);
    var field := WriteField(PlainLength(p, |msg|), p.width, p.networkOrder);
    var code := field + msg;
    FieldRoundTripIff(PlainLength(p, |msg|), p.width, p.networkOrder);
    FrameLengthIff(p, d, msg);
    if buf == code + tail {
      assert buf[0..p.width] == field;
      assert buf[..p.width + |msg|] == code;
      assert buf[d.strip..p.width + |msg|] == code[d.strip..];
      assert buf[p.width + |msg|..] == tail;
    }
    if buf <= code && buf != code && |buf| >= p.width {
      assert buf[0..p.width] == field;
    }
    if d.strip == p.width {
      assert code[p.width..] == msg;
    }
  }

  // ---------------------------------------------------------------------------
  // Where the code and its documentation part
  // ---------------------------------------------------------------------------

  lemma OnesAreNotZero(s: Bytes, networkOrder: bool)
    requires s != [] && forall i | 0 <= i < |s| :: s[i] == 1
    ensures ReadField(s, networkOrder) > 0
  {
  }

  /**
   The length field is what is read, for all buffers, exactly if its width is one
   that has a case, or it is empty. The documentation's three-byte fields are not.
   */
  lemma FieldIsReadIff(d: Decoder)
    ensures (forall buf: Bytes | EndOffset(d) <= |buf| ::
               FieldValue(d, buf) == ReadField(buf[d.offset..EndOffset(d)], d.networkOrder))
            <==> HasCase(d.width) || d.width == 0
  {
    if !HasCase(d.width) && d.width > 0 {
      var buf: Bytes := seq(EndOffset(d), _ => 1);
      OnesAreNotZero(buf[d.offset..EndOffset(d)], d.networkOrder);
      assert FieldValue(d, buf) != ReadField(buf[d.offset..EndOffset(d)], d.networkOrder);
    }
  }

  /** Any other width cuts the stream into frames of one size, whatever the buffer says. */
  lemma UnreadFieldFixesFrames(d: Decoder, buf: Bytes)
    requires Constructed(d) && !HasCase(d.width) && EndOffset(d) <= |buf|
    ensures var length := (d.adjustment + EndOffset(d)) % UINT32;
            && FrameLength(d, FieldValue(d, buf)) == length
            && (EndOffset(d) <= length <= d.maxFrame && d.strip <= length <= |buf| && length - d.strip <= INT_MAX ==>
                  Decode(d, buf) == Frame(buf[d.strip..length], buf[length..]))
  {
    hide ReadField;
    LengthOf(d, 0, (d.adjustment + EndOffset(d)) % UINT32);
    hide FrameLength;
  }

  /** A four-byte field silently drops the high half of a longer length, so the receiver reads another one. */
  lemma FourByteFieldTruncates(p: Prepender, msg: Bytes)
    requires p.width == 4 && UINT32 <= PlainLength(p, |msg|) < UINT64
    ensures Encode(p, msg).Sent?
    ensures ReadField(Encode(p, msg).bytes[..4], p.networkOrder) == PlainLength(p, |msg|) % UINT32
    ensures ReadField(Encode(p, msg).bytes[..4], p.networkOrder) != PlainLength(p, |msg|)
  {
    Pow256Values();
    var field := WriteField(PlainLength(p, |msg|), 4, p.networkOrder);
    assert (field + msg)[..4] == field;
    FieldRoundTripIff(PlainLength(p, |msg|), 4, p.networkOrder);
  }
}
