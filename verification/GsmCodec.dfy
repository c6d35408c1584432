/** The GSM 06.10 encoder and decoder on whole frames and streams (jni/spandsp/gsm0610_encode.c and
    jni/spandsp/gsm0610_decode.c): what they compute, what every frame keeps, and that the two sides
    stay in step through the transmitted parameters alone. */
module GsmCodec {
  import opened FixedPoint
  import opened GsmExcitation
  import opened GsmFrame
  import opened GsmLongTerm
  import opened GsmLpc
  import opened GsmShortTerm
  import Pre = GsmPreprocess

  /** What the encoder carries from frame to frame. */
  datatype Encoder = Encoder(offset: Pre.Offset, lars: LarMemory, u: seq<int16>, h: History)

  /** What the decoder carries from frame to frame. */
  datatype Decoder = Decoder(h: History, nrp: int, lars: LarMemory, v: seq<int16>, msr: int16)

  predicate EncoderOk(st: Encoder) {
    LarOk(st.lars) && |st.u| == 8 && Pre.Bounded(st.offset)
  }

  predicate DecoderOk(st: Decoder) {
    LarOk(st.lars) && |st.v| == 9 && Lag(st.nrp)
  }

  /** `gsm0610_init`. */
  function FirstEncoder(): (st: Encoder)
    ensures EncoderOk(st)
  {
    hide Pre.Bounded, Silence, NoLars, LarOk;
    Pre.ResetIsBounded();
    Encoder(Pre.RESET, NoLars(), [0, 0, 0, 0, 0, 0, 0, 0], Silence())
  }

  function FirstDecoder(): (st: Decoder)
    ensures DecoderOk(st)
  {
    hide Silence, NoLars, LarOk;
    Decoder(Silence(), 40, NoLars(), [0, 0, 0, 0, 0, 0, 0, 0, 0], 0)
  }

  // ----- the log area ratio transform and its inverse

  /** The decoder's conversion undoes the encoder's transform: exactly above 22118, to within one
      below it. */
  lemma LarTransformInverts(r: int16)
    requires r != INT16_MIN
    ensures Distance(ToReflection(Lar(r)), r) <= 1
    ensures Abs(r) >= 22118 ==> ToReflection(Lar(r)) == r
  {
  }

  // ----- one sub-segment

  /** What the encoder sends for a sub-segment: parameters in range, and a real lag. */
  predicate Sendable(s: Sub) {
    SubInRange(s) && Lag(s.nc)
  }

  /** The coded sub-segment, and the sub-segment as the decoder will rebuild it. */
  function EncodeSub(d: seq<int16>, h: History): (r: (Sub, seq<int16>))
    requires |d| == 40
    ensures Sendable(r.0) && |r.1| == 40
  {
    hide Parameters, Predicted, Residual, Rebuilt, Coded, Excitation;
    var (nc, bc) := Parameters(d, h);
    var p := Predicted(h, nc, bc);
    var (mc, xmaxc, xMc) := Coded(Residual(d, p));
    (Sub(nc, bc, mc, xmaxc, xMc), Rebuilt(Excitation(mc, xmaxc, xMc), p))
  }

  /** The sub-segment that a coded one stands for. */
  function DecodeSub(s: Sub, h: History, nrp: int): (r: seq<int16>)
    requires SubPlayable(s) && Lag(nrp)
    ensures |r| == 40
  {
    hide Predicted, Rebuilt, Excitation;
    Rebuilt(Excitation(s.mc, s.xmaxc, s.xMc), Predicted(h, UsedLag(s.nc, nrp), s.bc))
  }

  /** From the same history the decoder rebuilds what the encoder kept, whatever lag it used before. */
  lemma SubInStep(d: seq<int16>, h: History, nrp: int)
    requires |d| == 40 && Lag(nrp)
    ensures DecodeSub(EncodeSub(d, h).0, h, nrp) == EncodeSub(d, h).1
  {
    hide Parameters, Predicted, Residual, Rebuilt, Coded, Excitation;
  }

  // ----- the four sub-segments of a frame

  predicate AllSendable(subs: seq<Sub>) {
    forall j :: 0 <= j < |subs| ==> Sendable(subs[j])
  }

  predicate AllSubsPlayable(subs: seq<Sub>) {
    forall j :: 0 <= j < |subs| ==> SubPlayable(subs[j])
  }

  lemma SendableIsPlayable(subs: seq<Sub>)
    requires AllSendable(subs)
    ensures AllSubsPlayable(subs)
  {
  }

  datatype Segments = Segments(subs: seq<Sub>, rebuilt: seq<int16>, h: History)

  /** The first `n` sub-segments of the short-term residual `d`. */
  function EncodeSubs(d: seq<int16>, h: History, n: nat): (r: Segments)
    requires |d| == 160 && n <= 4
    ensures |r.subs| == n && |r.rebuilt| == 40 * n
    ensures AllSendable(r.subs) && AllSubsPlayable(r.subs)
  {
    hide EncodeSub, Sendable, SubPlayable, Shifted;
    if n == 0 then Segments([], [], h)
    else
      var before := EncodeSubs(d, h, n - 1);
      var (s, back) := EncodeSub(d[40 * (n - 1)..40 * n], before.h);
      SendableIsPlayable(before.subs + [s]);
      Segments(before.subs + [s], before.rebuilt + back, Shifted(before.h, back))
  }

  datatype Rebuilding = Rebuilding(rebuilt: seq<int16>, h: History, nrp: int)

  function DecodeSubs(subs: seq<Sub>, h: History, nrp: int): (r: Rebuilding)
    requires Lag(nrp) && AllSubsPlayable(subs)
    ensures |r.rebuilt| == 40 * |subs| && Lag(r.nrp)
  {
    hide DecodeSub, SubPlayable;
    if subs == [] then Rebuilding([], h, nrp)
    else
      var before := DecodeSubs(subs[..|subs| - 1], h, nrp);
      var s := subs[|subs| - 1];
      var back := DecodeSub(s, before.h, before.nrp);
      Rebuilding(before.rebuilt + back, Shifted(before.h, back), UsedLag(s.nc, before.nrp))
  }

  lemma {:induction false} SubsInStep(d: seq<int16>, h: History, nrp: int, n: nat)
    requires |d| == 160 && n <= 4 && Lag(nrp)
    ensures var sent := EncodeSubs(d, h, n);
            var got := DecodeSubs(sent.subs, h, nrp);
            got.rebuilt == sent.rebuilt && got.h == sent.h && (n > 0 ==> got.nrp == sent.subs[n - 1].nc)
  {
    hide EncodeSub, DecodeSub, Shifted;
    if n > 0 {
      SubsInStep(d, h, nrp, n - 1);
      var before := EncodeSubs(d, h, n - 1);
      var sent := EncodeSubs(d, h, n);
      assert sent.subs[..n - 1] == before.subs;
      var last := d[40 * (n - 1)..40 * n];
      assert sent.subs[n - 1] == EncodeSub(last, before.h).0;
      SubInStep(last, before.h, DecodeSubs(before.subs, h, nrp).nrp);
    }
  }

  // ----- one frame

  /** The short-term residual of a frame and its coded log area ratios. */
  function ShortTerm(st: Encoder, amp: seq<int16>): (r: (seq<int16>, seq<int16>, seq<int16>))
    requires EncoderOk(st) && |amp| == 160
    ensures |r.0| == 8 && |r.1| == 8 && |r.2| == 160
    ensures forall i :: 0 <= i < 8 ==> 0 <= r.0[i] <= LarLimit(i)
  {
    hide Pre.Run, Analysed, AnalyseFrame;
    var (larc, s) := Analysed(Pre.Run(st.offset, amp).1);
    var (u, d) := AnalyseFrame(st.lars, st.u, larc, s);
    (larc, u, d)
  }

  /** `encode_a_frame`. */
  function EncodeFrame(st: Encoder, amp: seq<int16>): (r: (Encoder, Frame))
    requires EncoderOk(st) && |amp| == 160
    ensures EncoderOk(r.0) && Shaped(r.1)
  {
    hide Pre.Run, Pre.Bounded, ShortTerm, EncodeSubs, Updated, SubInRange, AllSendable, Lag;
    FrameStaysBounded(st.offset, amp);
    var (larc, u, d) := ShortTerm(st, amp);
    var sent := EncodeSubs(d, st.h, 4);
    AreShaped(sent.subs);
    (Encoder(Pre.Run(st.offset, amp).0, Updated(st.lars, larc), u, sent.h), Frame(larc, sent.subs))
  }

  lemma AreShaped(subs: seq<Sub>)
    requires AllSendable(subs)
    ensures forall j :: 0 <= j < |subs| ==> SubInRange(subs[j]) && |subs[j].xMc| == 13 && Lag(subs[j].nc)
  {
  }

  lemma FrameStaysBounded(st: Pre.Offset, amp: seq<int16>)
    requires Pre.Bounded(st)
    ensures Pre.Bounded(Pre.Run(st, amp).0)
  {
    hide Pre.Run, Pre.Bounded;
    Pre.NeverSaturates(st, amp, |amp|);
    assert amp[..|amp|] == amp;
  }

  /** De-emphasis and upscaling of one sample: the filter state and the output. */
  function PostStep(msr: int16, x: int16): (int16, int16) {
    var next := SatAdd(x, MultR(msr, 28180));
    (next, ClearLowBits(SatAdd(next, next)))
  }

  /** `& 0xFFF8`, back in sixteen bits. */
  function ClearLowBits(x: int16): (r: int16)
    ensures r % 8 == 0 && r <= x < r + 8
  {
    x / 8 * 8
  }

  function Post(msr: int16, xs: seq<int16>): (r: (int16, seq<int16>))
    ensures |r.1| == |xs|
  {
    hide PostStep;
    if xs == [] then (msr, [])
    else
      var (m, ys) := Post(msr, xs[..|xs| - 1]);
      var (m1, y) := PostStep(m, xs[|xs| - 1]);
      (m1, ys + [y])
  }

  // ----- emphasis and de-emphasis

  /** The offset-filtered samples that the pre-emphasis starts from. */
  function OffsetFiltered(amp: seq<int16>): int16 {
    Pre.Run(Pre.RESET, amp).0.mp
  }

  /** No emphasised sample is at a limit. */
  predicate WithinLimits(xs: seq<int16>) {
    forall i :: 0 <= i < |xs| ==> INT16_MIN < xs[i] < INT16_MAX
  }

  /** De-emphasis undoes pre-emphasis. For every input whose emphasised samples stay off the limits, a decoder
      that receives them unchanged follows the offset-filtered signal to within 7, and puts out twice that
      signal to within 21. */
  lemma {:induction false} EmphasisComesBack(amp: seq<int16>)
    requires WithinLimits(Pre.Run(Pre.RESET, amp).1)
    ensures var (msr, out) := Post(0, Pre.Run(Pre.RESET, amp).1);
            && Distance(msr, OffsetFiltered(amp)) <= 7
            && (amp != [] ==> Distance(out[|amp| - 1], Clamp(-0x8000, 2 * OffsetFiltered(amp), 0x7FFF)) <= 21)
  {
    hide Pre.Step, PostStep, Pre.ExactFilter, Pre.Bounded;
    if amp != [] {
      var n := |amp| - 1;
      var (st, xs) := Pre.Run(Pre.RESET, amp[..n]);
      var all := Pre.Run(Pre.RESET, amp).1;
      assert all[..n] == xs && xs == Pre.Run(Pre.RESET, amp[..n]).1;
      EmphasisComesBack(amp[..n]);
      Pre.ResetIsBounded();
      Pre.NeverSaturates(Pre.RESET, amp, n);
      assert all[n] == Pre.Step(st, amp[n]).1;
      EmphasisStep(st, amp[n], Post(0, xs).0);
    }
  }

  lemma EmphasisStep(st: Pre.Offset, a: int16, msr: int16)
    requires Pre.Bounded(st) && INT16_MIN < Pre.Step(st, a).1 < INT16_MAX && Distance(msr, st.mp) <= 7
    ensures var (after, x) := Pre.Step(st, a);
            var (next, y) := PostStep(msr, x);
            && Distance(next, after.mp) <= 7
            && Distance(y, Clamp(-0x8000, 2 * after.mp, 0x7FFF)) <= 21
  {
    hide Pre.Step, MultR, Pre.Bounded, Pre.ExactFilter, ClearLowBits;
    var (after, x) := Pre.Step(st, a);
    EmphasisedIs(st, a);
    MultRExact(msr, 28180);
    OppositeRounding(msr, st.mp);
    UpscaledIsNear(SatAdd(x, MultR(msr, 28180)), after.mp);
  }

  /** The emphasised sample off the limits. */
  lemma EmphasisedIs(st: Pre.Offset, a: int16)
    requires Pre.Bounded(st) && INT16_MIN < Pre.Step(st, a).1 < INT16_MAX
    ensures var (after, x) := Pre.Step(st, a); x == after.mp + (0x4000 - 28180 * st.mp) / 0x8000
  {
    hide Pre.Step, Pre.Bounded;
    Pre.StepIsExact(st, a);
  }

  lemma UpscaledIsNear(next: int16, mp: int16)
    requires Distance(next, mp) <= 7
    ensures Distance(ClearLowBits(SatAdd(next, next)), Clamp(-0x8000, 2 * mp, 0x7FFF)) <= 21
  {
  }

  /** Two roundings of opposite signs differ by less than the scaled difference and one. */
  lemma OppositeRounding(y: int, z: int)
    requires Abs(y - z) <= 7
    ensures Abs((28180 * y + 0x4000) / 0x8000 + (0x4000 - 28180 * z) / 0x8000) <= 7
  {
  }

  /** `decode_a_frame`. */
  function DecodeFrame(st: Decoder, f: Frame): (r: (Decoder, seq<int16>))
    requires DecoderOk(st) && Playable(f)
    ensures DecoderOk(r.0) && |r.1| == 160
  {
    hide DecodeSubs, SynthesiseFrame, Post, Updated, SubPlayable;
    var got := DecodeSubs(f.subs, st.h, st.nrp);
    var (v, s) := SynthesiseFrame(st.lars, st.v, f.larc, got.rebuilt);
    var (msr, out) := Post(st.msr, s);
    (Decoder(got.h, got.nrp, Updated(st.lars, f.larc), v, msr), out)
  }

  // ----- what every frame keeps

  /** Every frame the encoder builds fits the transmitted widths, its lags are lags, and its log
      area ratio codes are codes. */
  lemma FrameIsTransmittable(st: Encoder, amp: seq<int16>)
    requires EncoderOk(st) && |amp| == 160
    ensures var f := EncodeFrame(st, amp).1;
            && InRange(f)
            && (forall i :: 0 <= i < 8 ==> f.larc[i] <= LarLimit(i))
            && (forall j :: 0 <= j < 4 ==> Lag(f.subs[j].nc))
  {
    hide Pre.Run, Pre.Bounded, ShortTerm, EncodeSubs, Updated, SubInRange, Pow2, AllSendable, Lag;
    Pow2Values();
    var d := ShortTerm(st, amp).2;
    AreShaped(EncodeSubs(d, st.h, 4).subs);
  }

  lemma FrameFits(st: Encoder, amp: seq<int16>)
    requires EncoderOk(st) && |amp| == 160
    ensures InRange(EncodeFrame(st, amp).1)
  {
    hide EncodeFrame, EncoderOk, InRange;
    FrameIsTransmittable(st, amp);
  }

  /** The two sides agree on everything the decoder predicts from. */
  predicate InStep(e: Encoder, d: Decoder) {
    e.h == d.h && e.lars == d.lars
  }

  lemma FirstInStep()
    ensures InStep(FirstEncoder(), FirstDecoder())
  {
    hide NoLars, Silence, LarOk, EncoderOk, DecoderOk, Lag, Pre.Bounded;
  }

  /** One frame: the decoder follows the encoder, and the short-term residual it rebuilds is the
      one the encoder kept. */
  lemma FrameInStep(e: Encoder, d: Decoder, amp: seq<int16>)
    requires EncoderOk(e) && DecoderOk(d) && InStep(e, d) && |amp| == 160
    ensures var (e1, f) := EncodeFrame(e, amp);
            && InRange(f) && Playable(f)
            && InStep(e1, DecodeFrame(d, f).0)
            && DecodeFrame(d, f).0.nrp == f.subs[3].nc
            && DecodeSubs(f.subs, d.h, d.nrp).rebuilt == EncodeSubs(ShortTerm(e, amp).2, e.h, 4).rebuilt
  {
    hide ShortTerm, EncodeSubs, DecodeSubs, SynthesiseFrame, Post, Updated, SubPlayable, AllSendable, Pre.Run,
         Pre.Bounded, InRange;
    FrameIsTransmittable(e, amp);
    RangeIsPlayable(EncodeFrame(e, amp).1);
    SubsInStep(ShortTerm(e, amp).2, e.h, d.nrp, 4);
  }

  // ----- streams of frames

  predicate AllInRange(fs: seq<Frame>) {
    forall i :: 0 <= i < |fs| ==> InRange(fs[i])
  }

  /** Frames the decoder can be given. */
  predicate AllPlayable(fs: seq<Frame>) {
    forall i :: 0 <= i < |fs| ==> Playable(fs[i])
  }

  lemma AllRangesArePlayable(fs: seq<Frame>)
    requires AllInRange(fs)
    ensures AllPlayable(fs)
  {
    hide InRange, Playable;
    forall i | 0 <= i < |fs|
      ensures Playable(fs[i])
    {
      RangeIsPlayable(fs[i]);
    }
  }

  lemma NoFrames()
    ensures AllInRange([])
  {
  }

  lemma OneMoreFrame(fs: seq<Frame>, f: Frame)
    requires AllInRange(fs) && InRange(f)
    ensures AllInRange(fs + [f])
  {
    hide InRange;
  }

  /** A whole number of frames. */
  predicate WholeFrames(amp: seq<int16>) {
    |amp| % 160 == 0
  }

  function Last160(amp: seq<int16>): (r: (seq<int16>, seq<int16>))
    requires WholeFrames(amp) && amp != []
    ensures WholeFrames(r.0) && |r.1| == 160 && |r.0| == |amp| - 160
    ensures amp == r.0 + r.1
  {
    (amp[..|amp| - 160], amp[|amp| - 160..])
  }

  /** The frames of a stream of whole frames. */
  function EncodeFrames(st: Encoder, amp: seq<int16>): (r: (Encoder, seq<Frame>))
    requires EncoderOk(st) && WholeFrames(amp)
    ensures EncoderOk(r.0) && 160 * |r.1| == |amp|
    ensures AllInRange(r.1)
    decreases |amp|
  {
    hide *;
    if amp == [] then
      NoFrames();
      (st, [])
    else
      var (before, last) := Last160(amp);
      var (st1, fs) := EncodeFrames(st, before);
      FrameFits(st1, last);
      var (st2, f) := EncodeFrame(st1, last);
      OneMoreFrame(fs, f);
      (st2, fs + [f])
  }

  function DecodeFrames(st: Decoder, fs: seq<Frame>): (r: (Decoder, seq<int16>))
    requires DecoderOk(st) && AllPlayable(fs)
    ensures DecoderOk(r.0) && |r.1| == 160 * |fs|
  {
    hide DecodeFrame, Playable, DecoderOk;
    if fs == [] then (st, [])
    else
      var (st1, out) := DecodeFrames(st, fs[..|fs| - 1]);
      var (st2, more) := DecodeFrame(st1, fs[|fs| - 1]);
      (st2, out + more)
  }

  /** Over any number of frames the decoder's history and log area ratios are the encoder's. */
  lemma {:induction false} Lockstep(e: Encoder, d: Decoder, amp: seq<int16>)
    requires EncoderOk(e) && DecoderOk(d) && InStep(e, d) && WholeFrames(amp)
    ensures var (e1, fs) := EncodeFrames(e, amp);
            AllPlayable(fs) && InStep(e1, DecodeFrames(d, fs).0)
    decreases |amp|
  {
    hide EncodeFrame, DecodeFrame, InRange, Playable, InStep, EncoderOk, DecoderOk, DecodeSubs, EncodeSubs, ShortTerm;
    AllRangesArePlayable(EncodeFrames(e, amp).1);
    if amp != [] {
      var (before, last) := Last160(amp);
      Lockstep(e, d, before);
      var (e1, fs) := EncodeFrames(e, before);
      FrameInStep(e1, DecodeFrames(d, fs).0, last);
      var all := EncodeFrames(e, amp).1;
      assert all[..|all| - 1] == fs;
    }
  }

  /** Encoding `a` and then, from where that ended, `b`. */
  function EncodeTwice(st: Encoder, a: seq<int16>, b: seq<int16>): (Encoder, seq<Frame>)
    requires EncoderOk(st) && WholeFrames(a) && WholeFrames(b) && WholeFrames(a + b)
  {
    hide *;
    var (st1, fs) := EncodeFrames(st, a);
    var (st2, gs) := EncodeFrames(st1, b);
    (st2, fs + gs)
  }

  function DecodeTwice(st: Decoder, a: seq<Frame>, b: seq<Frame>): (Decoder, seq<int16>)
    requires DecoderOk(st) && AllPlayable(a) && AllPlayable(b)
  {
    hide *;
    var (st1, x) := DecodeFrames(st, a);
    var (st2, y) := DecodeFrames(st1, b);
    (st2, x + y)
  }

  /** Frame-wise calls compose: encoding two stretches one after the other is encoding both. */
  lemma {:induction false} EncodeAppend(st: Encoder, a: seq<int16>, b: seq<int16>)
    requires EncoderOk(st) && WholeFrames(a) && WholeFrames(b) && WholeFrames(a + b)
    ensures EncodeFrames(st, a + b) == EncodeTwice(st, a, b)
    decreases |b|
  {
    hide EncodeFrame, InRange, EncoderOk, AllInRange;
    if b == [] {
      assert a + b == a;
      assert EncodeFrames(st, a).1 + [] == EncodeFrames(st, a).1;
    } else {
      var n := |b| - 160;
      EncodeAppend(st, a, b[..n]);
      assert (a + b)[..|a| + n] == a + b[..n];
      assert (a + b)[|a| + n..] == b[n..];
      var (st1, fs) := EncodeFrames(st, a);
      var (st2, gs) := EncodeFrames(st1, b[..n]);
      var g := EncodeFrame(st2, b[n..]).1;
      assert (fs + gs) + [g] == fs + (gs + [g]);
    }
  }

  lemma {:induction false} DecodeAppend(st: Decoder, a: seq<Frame>, b: seq<Frame>)
    requires DecoderOk(st) && AllPlayable(a) && AllPlayable(b) && AllPlayable(a + b)
    ensures DecodeFrames(st, a + b) == DecodeTwice(st, a, b)
  {
    hide DecodeFrame, Playable, DecoderOk;
    if b == [] {
      assert a + b == a;
      assert DecodeFrames(st, a).1 + [] == DecodeFrames(st, a).1;
    } else {
      var n := |b| - 1;
      DecodeAppend(st, a, b[..n]);
      assert (a + b)[..|a| + n] == a + b[..n];
      var (st1, x) := DecodeFrames(st, a);
      var (st2, y) := DecodeFrames(st1, b[..n]);
      var z := DecodeFrame(st2, b[n]).1;
      assert (x + y) + z == x + (y + z);
    }
  }
}
