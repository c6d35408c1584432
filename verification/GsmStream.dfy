/** Streams of GSM 06.10 frames as bytes, in the three packings (`gsm0610_encode` and
    `gsm0610_decode` of jni/spandsp/gsm0610_encode.c and jni/spandsp/gsm0610_decode.c). */
module GsmStream {
  import opened FixedPoint
  import opened GsmCodec
  import opened GsmFrame
  import Voip = GsmVoip
  import Wav = GsmWav49

  datatype Packing = OneByteEach | Wav49 | Voip33

  /** The bytes of one packed unit, and the frames in it. */
  function UnitBytes(p: Packing): (n: nat)
    ensures n > 0
  {
    match p
    case OneByteEach => 76
    case Wav49 => 65
    case Voip33 => 33
  }

  function UnitFrames(p: Packing): (n: nat)
    ensures n > 0
  {
    if p == Wav49 then 2 else 1
  }

  predicate WholeUnits(p: Packing, fs: seq<Frame>) {
    |fs| % UnitFrames(p) == 0
  }

  function PackUnit(p: Packing, fs: seq<Frame>): (c: seq<byte>)
    requires |fs| == UnitFrames(p) && AllInRange(fs)
    ensures |c| == UnitBytes(p)
  {
    hide PackNone, Wav.Packed, Voip.PackVoip;
    RangeIsShape(fs[0]);
    match p
    case OneByteEach => PackNone(fs[0])
    case Wav49 => Wav.Packed(fs[0], fs[1])
    case Voip33 => Voip.PackVoip(fs[0])
  }

  lemma RangeIsShape(f: Frame)
    ensures InRange(f) ==> Shaped(f)
  {
  }

  function UnpackUnit(p: Packing, c: seq<byte>): (fs: seq<Frame>)
    requires |c| == UnitBytes(p)
    ensures |fs| == UnitFrames(p)
  {
    hide UnpackNone, Wav.Unpacked, Voip.UnpackVoip;
    match p
    case OneByteEach => [UnpackNone(c)]
    case Wav49 => [Wav.Unpacked(c).0, Wav.Unpacked(c).1]
    case Voip33 => [Voip.UnpackVoip(c)]
  }

  /** In all three packings frames in range survive. */
  lemma UnitRoundTrip(p: Packing, fs: seq<Frame>)
    requires |fs| == UnitFrames(p) && AllInRange(fs)
    ensures UnpackUnit(p, PackUnit(p, fs)) == fs
  {
    hide PackNone, Wav.Packed, Voip.PackVoip, UnpackNone, Wav.Unpacked, Voip.UnpackVoip, InRange;
    match p
    case OneByteEach => NoneRoundTrip(fs[0]);
    case Wav49 => Wav.UnpackAfterPack(fs[0], fs[1]);
    case Voip33 => Voip.UnpackAfterPack(fs[0]);
  }

  /** Whatever bytes arrive in the two dense packings, their frames are in range. */
  lemma DenseUnitInRange(p: Packing, c: seq<byte>)
    requires |c| == UnitBytes(p) && p != OneByteEach
    ensures AllInRange(UnpackUnit(p, c))
  {
    hide Wav.Unpacked, Voip.UnpackVoip, InRange;
    match p
    case OneByteEach =>
    case Wav49 => Wav.PackAfterUnpack(c);
    case Voip33 => Voip.PackAfterUnpack(c);
  }

  // ----- streams

  predicate WholeBytes(p: Packing, c: seq<byte>) {
    |c| % UnitBytes(p) == 0
  }

  /** All frames but the last unit, and the last unit. */
  function LastFrames(p: Packing, fs: seq<Frame>): (r: (seq<Frame>, seq<Frame>))
    requires WholeUnits(p, fs) && fs != []
    ensures WholeUnits(p, r.0) && |r.1| == UnitFrames(p) && |r.0| < |fs|
    ensures fs == r.0 + r.1
  {
    var n := |fs| - UnitFrames(p);
    (fs[..n], fs[n..])
  }

  function LastBytes(p: Packing, c: seq<byte>): (r: (seq<byte>, seq<byte>))
    requires WholeBytes(p, c) && c != []
    ensures WholeBytes(p, r.0) && |r.1| == UnitBytes(p) && |r.0| < |c|
    ensures c == r.0 + r.1
  {
    hide UnitBytes;
    Multiples(|c|, 0, UnitBytes(p));
    Multiples(|c|, UnitBytes(p), UnitBytes(p));
    var n := |c| - UnitBytes(p);
    (c[..n], c[n..])
  }

  lemma NoUnits(p: Packing)
    ensures WholeBytes(p, []) && WholeUnits(p, []) && AllInRange([])
  {
  }

  lemma OneMoreUnit(p: Packing, c: seq<byte>, last: seq<byte>)
    requires WholeBytes(p, c) && |last| == UnitBytes(p)
    ensures c + last != [] && WholeBytes(p, c + last) && LastBytes(p, c + last) == (c, last)
  {
    hide UnitBytes;
    Multiples(|c|, 0, UnitBytes(p));
    assert (c + last)[..|c|] == c && (c + last)[|c|..] == last;
  }

  lemma OneMoreUnitOfFrames(p: Packing, fs: seq<Frame>, last: seq<Frame>)
    requires WholeUnits(p, fs) && |last| == UnitFrames(p)
    ensures WholeUnits(p, fs + last)
  {
  }

  lemma InRangeParts(fs: seq<Frame>, gs: seq<Frame>)
    ensures AllInRange(fs + gs) <==> AllInRange(fs) && AllInRange(gs)
  {
    hide InRange;
    if AllInRange(fs + gs) {
      assert forall i :: 0 <= i < |fs| ==> fs[i] == (fs + gs)[i];
      assert forall i :: 0 <= i < |gs| ==> gs[i] == (fs + gs)[|fs| + i];
    }
  }

  lemma PlayableParts(fs: seq<Frame>, gs: seq<Frame>)
    ensures AllPlayable(fs + gs) <==> AllPlayable(fs) && AllPlayable(gs)
  {
    hide Playable;
    if AllPlayable(fs + gs) {
      assert forall i :: 0 <= i < |fs| ==> fs[i] == (fs + gs)[i];
      assert forall i :: 0 <= i < |gs| ==> gs[i] == (fs + gs)[|fs| + i];
    }
  }

  function Pack(p: Packing, fs: seq<Frame>): (c: seq<byte>)
    requires WholeUnits(p, fs) && AllInRange(fs)
    ensures WholeBytes(p, c)
    decreases |fs|
  {
    hide *;
    NoUnits(p);
    if fs == [] then []
    else
      var (before, last) := LastFrames(p, fs);
      InRangeParts(before, last);
      OneMoreUnit(p, Pack(p, before), PackUnit(p, last));
      Pack(p, before) + PackUnit(p, last)
  }

  function Unpack(p: Packing, c: seq<byte>): (fs: seq<Frame>)
    requires WholeBytes(p, c)
    ensures WholeUnits(p, fs)
    decreases |c|
  {
    hide *;
    NoUnits(p);
    if c == [] then []
    else
      var (before, last) := LastBytes(p, c);
      OneMoreUnitOfFrames(p, Unpack(p, before), UnpackUnit(p, last));
      Unpack(p, before) + UnpackUnit(p, last)
  }

  lemma {:induction false} StreamRoundTrip(p: Packing, fs: seq<Frame>)
    requires WholeUnits(p, fs) && AllInRange(fs)
    ensures Unpack(p, Pack(p, fs)) == fs
    decreases |fs|
  {
    hide PackUnit, UnpackUnit, AllInRange, WholeUnits, WholeBytes, LastBytes, LastFrames, UnitFrames, UnitBytes;
    NoUnits(p);
    if fs != [] {
      var (before, last) := LastFrames(p, fs);
      InRangeParts(before, last);
      StreamRoundTrip(p, before);
      UnitRoundTrip(p, last);
      OneMoreUnit(p, Pack(p, before), PackUnit(p, last));
    }
  }

  /** In the two dense packings any bytes decode to frames in range. */
  lemma {:induction false} DenseBytesInRange(p: Packing, c: seq<byte>)
    requires WholeBytes(p, c) && p != OneByteEach
    ensures AllInRange(Unpack(p, c))
    decreases |c|
  {
    hide PackUnit, UnpackUnit, AllInRange, WholeUnits, WholeBytes, LastBytes, UnitFrames, UnitBytes;
    NoUnits(p);
    if c != [] {
      var (before, last) := LastBytes(p, c);
      DenseBytesInRange(p, before);
      DenseUnitInRange(p, last);
      InRangeParts(Unpack(p, before), UnpackUnit(p, last));
    }
  }

  // ----- the codec over bytes

  /** Whole frames, in pairs for the 65-byte packing: what the encoder asks of its caller. */
  predicate Packable(p: Packing, amp: seq<int16>) {
    WholeFrames(amp) && |amp| / 160 % UnitFrames(p) == 0
  }

  lemma PackableIsWhole(p: Packing, amp: seq<int16>, fs: seq<Frame>)
    requires Packable(p, amp) && 160 * |fs| == |amp|
    ensures WholeUnits(p, fs)
  {
  }

  /** `gsm0610_encode`. */
  function Encode(p: Packing, st: Encoder, amp: seq<int16>): (r: (Encoder, seq<byte>))
    requires EncoderOk(st) && Packable(p, amp)
    ensures EncoderOk(r.0)
  {
    hide EncodeFrames, EncoderOk, AllInRange, Pack, WholeUnits;
    var (st1, fs) := EncodeFrames(st, amp);
    PackableIsWhole(p, amp, fs);
    (st1, Pack(p, fs))
  }

  /** Bytes the decoder can be given: whole units, whose gains, grids, maxima and pulses index its
      tables. In the two dense packings that is every string of whole units. */
  predicate Decodable(p: Packing, c: seq<byte>) {
    WholeBytes(p, c) && AllPlayable(Unpack(p, c))
  }

  lemma DenseIsDecodable(p: Packing, c: seq<byte>)
    requires WholeBytes(p, c) && p != OneByteEach
    ensures Decodable(p, c)
  {
    hide Unpack, AllInRange, AllPlayable, WholeBytes;
    DenseBytesInRange(p, c);
    AllRangesArePlayable(Unpack(p, c));
  }

  lemma DecodableParts(p: Packing, c: seq<byte>)
    requires Decodable(p, c)
    ensures WholeBytes(p, c) && AllPlayable(Unpack(p, c))
  {
  }

  /** `gsm0610_decode`. */
  function Decode(p: Packing, st: Decoder, c: seq<byte>): (r: (Decoder, seq<int16>))
    requires DecoderOk(st) && Decodable(p, c)
    ensures DecoderOk(r.0) && |r.1| == 160 * |Unpack(p, c)|
  {
    hide *;
    DecodableParts(p, c);
    DecodeFrames(st, Unpack(p, c))
  }

  /** In every packing and over every stream, the decoder gets exactly the frames the encoder built,
      gives back as many samples as went in, and ends in step with the encoder. */
  lemma Transmission(p: Packing, e: Encoder, d: Decoder, amp: seq<int16>)
    requires EncoderOk(e) && DecoderOk(d) && InStep(e, d) && Packable(p, amp)
    ensures Received(p, e, d, amp)
  {
    hide EncodeFrames, DecodeFrames, EncoderOk, DecoderOk, AllInRange, AllPlayable, Pack, Unpack, InStep, WholeUnits;
    var (e1, fs) := EncodeFrames(e, amp);
    PackableIsWhole(p, amp, fs);
    StreamRoundTrip(p, fs);
    AllRangesArePlayable(fs);
    Lockstep(e, d, amp);
  }

  predicate Received(p: Packing, e: Encoder, d: Decoder, amp: seq<int16>)
    requires EncoderOk(e) && DecoderOk(d) && Packable(p, amp)
  {
    hide EncodeFrames, DecodeFrames, EncoderOk, DecoderOk, AllInRange, AllPlayable, Pack, Unpack, InStep;
    var (e1, c) := Encode(p, e, amp);
    && Decodable(p, c)
    && Unpack(p, c) == EncodeFrames(e, amp).1
    && InStep(e1, Decode(p, d, c).0)
    && |Decode(p, d, c).1| == |amp|
  }

  // ----- unit by unit, as the loops of the source go

  /** The state after the frames of `amp`, and what has been written for them. */
  ghost predicate EncodedUpTo(p: Packing, st: Encoder, amp: seq<int16>, now: Encoder, code: seq<byte>) {
    EncoderOk(st) && Packable(p, amp) && Encode(p, st, amp) == (now, code)
  }

  lemma NothingEncoded(p: Packing, st: Encoder)
    requires EncoderOk(st)
    ensures EncodedUpTo(p, st, [], st, [])
  {
    hide EncoderOk;
  }

  /** Encoding one frame from the state `st` gives `after` and `f`. */
  ghost predicate FrameStep(st: Encoder, x: seq<int16>, after: Encoder, f: Frame) {
    hide *;
    EncoderOk(st) && |x| == 160 && (after, f) == EncodeFrame(st, x)
  }

  /** The stream `amp` gives the frames `fs` and ends in `now`. */
  ghost predicate FramesAre(st: Encoder, amp: seq<int16>, now: Encoder, fs: seq<Frame>) {
    hide *;
    EncoderOk(st) && WholeFrames(amp) && (now, fs) == EncodeFrames(st, amp)
  }

  /** The bytes of one packed unit. */
  ghost predicate UnitIs(p: Packing, fs: seq<Frame>, c: seq<byte>) {
    hide *;
    |fs| == UnitFrames(p) && AllInRange(fs) && c == PackUnit(p, fs)
  }

  lemma OneMoreEncoded(st: Encoder, a: seq<int16>, now: Encoder, fs: seq<Frame>, x: seq<int16>, after: Encoder,
                       f: Frame)
    requires FramesAre(st, a, now, fs) && FrameStep(now, x, after, f)
    ensures FramesAre(st, a + x, after, fs + [f])
  {
    hide EncoderOk, EncodeFrame, AllInRange;
    assert Last160(a + x) == (a, x);
  }

  /** What has been written so far, as frames and their bytes. */
  lemma SoFar(p: Packing, st: Encoder, a: seq<int16>, now: Encoder, code: seq<byte>) returns (fs: seq<Frame>)
    requires EncodedUpTo(p, st, a, now, code)
    ensures FramesAre(st, a, now, fs) && WholeUnits(p, fs) && AllInRange(fs) && code == Pack(p, fs)
    ensures 160 * |fs| == |a|
  {
    hide EncoderOk, EncodeFrames, AllInRange, Pack, WholeUnits;
    fs := EncodeFrames(st, a).1;
    PackableIsWhole(p, a, fs);
  }

  lemma FromFrames(p: Packing, st: Encoder, a: seq<int16>, now: Encoder, fs: seq<Frame>)
    requires FramesAre(st, a, now, fs) && WholeUnits(p, fs)
    ensures AllInRange(fs) && EncodedUpTo(p, st, a, now, Pack(p, fs))
  {
    hide EncoderOk, EncodeFrames, AllInRange, Pack;
    assert |a| / 160 == |fs|;
  }

  /** One round of the loop in a packing of single frames. */
  lemma OneUnitEncoded(p: Packing, st: Encoder, a: seq<int16>, now: Encoder, code: seq<byte>,
                       x: seq<int16>, after: Encoder, f: Frame, c: seq<byte>)
    requires EncodedUpTo(p, st, a, now, code) && FrameStep(now, x, after, f) && UnitIs(p, [f], c)
    ensures EncodedUpTo(p, st, a + x, after, code + c)
  {
    hide EncodedUpTo, AllInRange, Pack, WholeUnits, PackUnit, FrameStep, FramesAre;
    var fs := SoFar(p, st, a, now, code);
    OneMoreEncoded(st, a, now, fs, x, after, f);
    PackNext(p, fs, [f]);
    FromFrames(p, st, a + x, after, fs + [f]);
  }

  /** One round of the loop in the packing of pairs. */
  lemma OnePairEncoded(p: Packing, st: Encoder, a: seq<int16>, now: Encoder, code: seq<byte>,
                       x: seq<int16>, middle: Encoder, f: Frame, y: seq<int16>, after: Encoder, g: Frame, c: seq<byte>)
    requires EncodedUpTo(p, st, a, now, code)
    requires FrameStep(now, x, middle, f) && FrameStep(middle, y, after, g) && UnitIs(p, [f, g], c)
    ensures EncodedUpTo(p, st, a + x + y, after, code + c)
  {
    hide EncodedUpTo, AllInRange, Pack, WholeUnits, PackUnit, FrameStep, FramesAre;
    var fs := SoFar(p, st, a, now, code);
    OneMoreEncoded(st, a, now, fs, x, middle, f);
    OneMoreEncoded(st, a + x, middle, fs + [f], y, after, g);
    assert fs + [f] + [g] == fs + [f, g];
    PackNext(p, fs, [f, g]);
    FromFrames(p, st, a + x + y, after, fs + [f, g]);
  }

  lemma UnitsAre(f: Frame, g: Frame)
    requires InRange(f) && InRange(g)
    ensures Shaped(f) && UnitIs(OneByteEach, [f], PackNone(f))
    ensures UnitIs(Wav49, [f, g], Wav.Packed(f, g)) && UnitIs(Voip33, [f], Voip.PackVoip(f))
  {
    hide InRange, PackNone, Wav.Packed, Voip.PackVoip;
    RangeIsShape(f);
  }

  /** At a unit boundary before the end there is room for a whole unit. */
  predicate Aligned(p: Packing, n: nat) {
    n % 160 == 0 && n / 160 % UnitFrames(p) == 0
  }

  lemma RoomForUnit(p: Packing, i: nat, n: nat)
    requires Aligned(p, i) && Aligned(p, n) && i < n
    ensures UnitFrames(p) == if p == Wav49 then 2 else 1
    ensures i + 160 * UnitFrames(p) <= n && Aligned(p, i + 160 * UnitFrames(p))
  {
  }

  lemma PackableIsAligned(p: Packing, amp: seq<int16>)
    requires Packable(p, amp)
    ensures Aligned(p, |amp|) && Aligned(p, 0)
  {
  }

  lemma PackNext(p: Packing, fs: seq<Frame>, last: seq<Frame>)
    requires WholeUnits(p, fs) && AllInRange(fs) && |last| == UnitFrames(p) && AllInRange(last)
    ensures WholeUnits(p, fs + last) && AllInRange(fs + last)
    ensures Pack(p, fs + last) == Pack(p, fs) + PackUnit(p, last)
  {
    hide PackUnit, InRange;
    InRangeParts(fs, last);
    assert LastFrames(p, fs + last) == (fs, last);
  }

  /** Decoding goes unit by unit as well. */
  lemma {:induction false} UnpackAppend(p: Packing, a: seq<byte>, b: seq<byte>)
    requires WholeBytes(p, a) && WholeBytes(p, b)
    ensures WholeBytes(p, a + b) && Unpack(p, a + b) == Unpack(p, a) + Unpack(p, b)
    decreases |b|
  {
    hide UnpackUnit, WholeBytes, LastBytes, UnitBytes, UnitFrames, WholeUnits;
    NoUnits(p);
    if b == [] {
      assert a + b == a;
      assert Unpack(p, a) + [] == Unpack(p, a);
    } else {
      var (before, last) := LastBytes(p, b);
      UnpackAppend(p, a, before);
      OneMoreUnit(p, a + before, last);
      assert a + b == (a + before) + last;
      assert (Unpack(p, a) + Unpack(p, before)) + UnpackUnit(p, last) == Unpack(p, a) + Unpack(p, b);
    }
  }

  lemma UnpackOne(p: Packing, c: seq<byte>)
    requires |c| == UnitBytes(p)
    ensures WholeBytes(p, c) && Unpack(p, c) == UnpackUnit(p, c)
  {
    hide UnpackUnit, WholeBytes, LastBytes, UnitBytes, UnitFrames, WholeUnits;
    NoUnits(p);
    OneMoreUnit(p, [], c);
    assert [] + c == c;
    assert [] + UnpackUnit(p, c) == UnpackUnit(p, c);
  }

  /** The state after the units of `c`, and the samples they gave. */
  ghost predicate DecodedUpTo(p: Packing, st: Decoder, c: seq<byte>, now: Decoder, samples: seq<int16>) {
    DecoderOk(st) && Decodable(p, c) && Decode(p, st, c) == (now, samples)
  }

  ghost predicate UnitDecoded(st: Decoder, fs: seq<Frame>, after: Decoder, samples: seq<int16>) {
    hide *;
    DecoderOk(st) && AllPlayable(fs) && (after, samples) == DecodeFrames(st, fs)
  }

  lemma NothingDecoded(p: Packing, st: Decoder)
    requires DecoderOk(st)
    ensures DecodedUpTo(p, st, [], st, [])
  {
    hide DecoderOk;
    NoUnits(p);
  }

  /** The next unit of a decodable stream: its frames are in range. */
  lemma UnitAhead(p: Packing, c: seq<byte>, i: nat)
    requires Decodable(p, c) && i < |c| && WholeBytes(p, c[..i])
    ensures i + UnitBytes(p) <= |c| && WholeBytes(p, c[..i + UnitBytes(p)])
    ensures AllPlayable(UnpackUnit(p, c[i..i + UnitBytes(p)]))
  {
    hide UnpackUnit, UnitBytes, AllPlayable, Unpack;
    var n := UnitBytes(p);
    Multiples(|c|, i, n);
    var unit, rest := c[i..i + n], c[i + n..];
    assert c[..i + n] == c[..i] + unit;
    OneMoreUnit(p, c[..i], unit);
    Multiples(i, 0, n);
    Multiples(|c|, i + n, n);
    UnpackAppend(p, c[..i], unit);
    UnpackOne(p, unit);
    assert c == c[..i + n] + rest;
    UnpackAppend(p, c[..i + n], rest);
    PlayableParts(Unpack(p, c[..i + n]), Unpack(p, rest));
    PlayableParts(Unpack(p, c[..i]), Unpack(p, unit));
  }

  lemma OneUnitDecoded(p: Packing, st: Decoder, c: seq<byte>, now: Decoder, samples: seq<int16>,
                       unit: seq<byte>, after: Decoder, more: seq<int16>)
    requires DecodedUpTo(p, st, c, now, samples) && |unit| == UnitBytes(p)
    requires UnitDecoded(now, UnpackUnit(p, unit), after, more)
    ensures DecodedUpTo(p, st, c + unit, after, samples + more)
  {
    hide UnpackUnit, UnitBytes, AllPlayable, Unpack, DecodeFrames, DecoderOk, WholeBytes;
    OneMoreUnit(p, c, unit);
    UnpackOne(p, unit);
    UnpackAppend(p, c, unit);
    PlayableParts(Unpack(p, c), Unpack(p, unit));
    DecodeAppend(st, Unpack(p, c), Unpack(p, unit));
  }

  ghost predicate FrameDecoded(st: Decoder, f: Frame, after: Decoder, out: seq<int16>) {
    hide *;
    DecoderOk(st) && Playable(f) && (after, out) == DecodeFrame(st, f)
  }

  lemma OneFrameUnit(st: Decoder, f: Frame, after: Decoder, out: seq<int16>)
    requires FrameDecoded(st, f, after, out)
    ensures UnitDecoded(st, [f], after, out)
  {
    hide DecodeFrame, Playable, DecoderOk;
    var fs := [f];
    assert AllPlayable(fs);
    assert fs[..|fs| - 1] == [];
    assert DecodeFrames(st, []) == (st, []);
    assert DecodeFrames(st, fs) == (after, [] + out);
    assert [] + out == out;
  }

  lemma TwoFrameUnit(st: Decoder, f: Frame, middle: Decoder, out: seq<int16>, g: Frame, after: Decoder,
                     more: seq<int16>)
    requires FrameDecoded(st, f, middle, out) && FrameDecoded(middle, g, after, more)
    ensures UnitDecoded(st, [f, g], after, out + more)
  {
    hide DecodeFrame, Playable, DecoderOk;
    OneFrameUnit(st, f, middle, out);
    assert [f, g][..1] == [f];
  }
}
