/** The stages of the GSM 06.10 coder over whole streams (jni/spandsp/gsm0610_encode.c and
    jni/spandsp/gsm0610_decode.c): although the coder works frame by frame, each stage sees one continuous
    signal, and between the two ends only the residual is approximated. */
module GsmPipeline {
  import opened FixedPoint
  import opened GsmCodec
  import opened GsmFrame
  import opened GsmLongTerm
  import opened GsmLpc
  import opened GsmShortTerm
  import Pre = GsmPreprocess

  // ----- what one frame hands on

  /** The frame that the short-term filter analyses: offset-filtered, emphasised, and scaled down and back. */
  function Analysand(e: Encoder, amp: seq<int16>): (s: seq<int16>)
    requires EncoderOk(e) && |amp| == 160
    ensures |s| == 160
  {
    hide Analysed, Pre.Run;
    Analysed(Pre.Run(e.offset, amp).1).1
  }

  /** The residual of a frame as both sides rebuild it. */
  function Rebuilding(e: Encoder, amp: seq<int16>): (r: seq<int16>)
    requires EncoderOk(e) && |amp| == 160
    ensures |r| == 160
  {
    hide ShortTerm, EncodeSubs;
    EncodeSubs(ShortTerm(e, amp).2, e.h, 4).rebuilt
  }

  /** The encoder's state after a frame, stage by stage. */
  lemma FrameHandsOn(e: Encoder, amp: seq<int16>)
    requires EncoderOk(e) && |amp| == 160
    ensures var e1 := EncodeFrame(e, amp).0;
            var larc := ShortTerm(e, amp).0;
            && e1.offset == Pre.Run(e.offset, amp).0
            && e1.lars == Updated(e.lars, larc)
            && (e1.u, ShortTerm(e, amp).2) == AnalyseFrame(e.lars, e.u, larc, Analysand(e, amp))
            && e1.h == (e.h + Rebuilding(e, amp))[160..]
            && EncodeFrame(e, amp).1.larc == larc
  {
    hide EncodeSubs, AnalyseFrame, Updated, Pre.Run, Pre.Bounded, Analysed, LarOk, SubInRange, AllSendable, Lag;
    HistoryIsRebuilt(ShortTerm(e, amp).2, e.h, 4);
  }

  /** The history is the end of what was rebuilt, newest last. */
  lemma {:induction false} HistoryIsRebuilt(d: seq<int16>, h: History, n: nat)
    requires |d| == 160 && n <= 4
    ensures EncodeSubs(d, h, n).h == (h + EncodeSubs(d, h, n).rebuilt)[40 * n..]
  {
    hide EncodeSub, Sendable, SubPlayable;
    if n > 0 {
      HistoryIsRebuilt(d, h, n - 1);
    }
  }

  /** The decoder's state and output after a frame, stage by stage. */
  lemma FrameComesOut(d: Decoder, f: Frame)
    requires DecoderOk(d) && Playable(f)
    ensures var (d1, out) := DecodeFrame(d, f);
            var got := DecodeSubs(f.subs, d.h, d.nrp);
            && |got.rebuilt| == 160 && |f.larc| == 8
            && (d1.v, d1.msr, out)
               == (SynthesiseFrame(d.lars, d.v, f.larc, got.rebuilt).0,
                   Post(d.msr, SynthesiseFrame(d.lars, d.v, f.larc, got.rebuilt).1).0,
                   Post(d.msr, SynthesiseFrame(d.lars, d.v, f.larc, got.rebuilt).1).1)
            && d1.lars == Updated(d.lars, f.larc)
  {
    hide DecodeSubs, SynthesiseFrame, Post, Updated, SubPlayable, LarOk, Lag;
  }

  // ----- the encoder over a stream

  /** The analysed frames of a stream with their ratio codes. */
  function Analysands(e: Encoder, amp: seq<int16>): (bs: seq<Block>)
    requires EncoderOk(e) && WholeFrames(amp)
    ensures 160 * |bs| == |amp| && BlocksOk(bs)
    decreases |amp|
  {
    hide EncodeFrames, ShortTerm, EncoderOk;
    if amp == [] then []
    else
      var (before, last) := Last160(amp);
      var e1 := EncodeFrames(e, before).0;
      Analysands(e, before) + [Block(ShortTerm(e1, last).0, Analysand(e1, last))]
  }

  /** The residuals of a stream as both sides rebuild them. */
  function Rebuildings(e: Encoder, amp: seq<int16>): (bs: seq<Block>)
    requires EncoderOk(e) && WholeFrames(amp)
    ensures 160 * |bs| == |amp| && BlocksOk(bs)
    decreases |amp|
  {
    hide EncodeFrames, ShortTerm, EncoderOk, Rebuilding;
    if amp == [] then []
    else
      var (before, last) := Last160(amp);
      var e1 := EncodeFrames(e, before).0;
      Rebuildings(e, before) + [Block(ShortTerm(e1, last).0, Rebuilding(e1, last))]
  }

  /** Over a whole stream the offset filter and the emphasis see one signal, and so does the lattice, with the
      ratios of each frame interpolated from those of the frame before. */
  predicate Continuous(e: Encoder, amp: seq<int16>, e1: Encoder)
    requires EncoderOk(e) && WholeFrames(amp)
  {
    hide EncoderOk, AnalyseBlocks, Pre.Run, Analysands, LarOk;
    EncoderParts(e);
    var lattice := AnalyseBlocks(e.lars, e.u, Analysands(e, amp));
    e1.offset == Pre.Run(e.offset, amp).0 && e1.lars == lattice.m && e1.u == lattice.memory
  }

  lemma EncoderParts(e: Encoder)
    requires EncoderOk(e)
    ensures LarOk(e.lars) && |e.u| == 8
  {
  }

  lemma {:induction false} EncoderIsContinuous(e: Encoder, amp: seq<int16>)
    requires EncoderOk(e) && WholeFrames(amp)
    ensures Continuous(e, amp, EncodeFrames(e, amp).0)
    decreases |amp|
  {
    hide EncodeFrame, ShortTerm, EncoderOk, AnalyseFrame, Updated, Pre.Run, LarOk;
    EncoderParts(e);
    if amp == [] {
      Pre.RunNothing(e.offset);
      assert amp[..0] == amp;
    } else {
      var (before, last) := Last160(amp);
      EncoderIsContinuous(e, before);
      var e1 := EncodeFrames(e, before).0;
      FrameHandsOn(e1, last);
      Pre.RunAppend(e.offset, before, last);
      var bs := Analysands(e, amp);
      assert bs[..|bs| - 1] == Analysands(e, before);
    }
  }

  // ----- the decoder over a stream

  /** The samples of a list of blocks on end. */
  function Samples(bs: seq<Block>): seq<int16> {
    if bs == [] then [] else Samples(bs[..|bs| - 1]) + bs[|bs| - 1].samples
  }

  /** The residuals that the decoder rebuilds from a stream of frames. */
  function Received(d: Decoder, fs: seq<Frame>): (bs: seq<Block>)
    requires DecoderOk(d) && AllPlayable(fs)
    ensures |bs| == |fs| && BlocksOk(bs)
  {
    hide DecodeFrames, DecodeSubs, DecoderOk;
    if fs == [] then []
    else
      var n := |fs| - 1;
      var d1 := DecodeFrames(d, fs[..n]).0;
      LastIsPlayable(d1, fs);
      Received(d, fs[..n]) + [Block(fs[n].larc, DecodeSubs(fs[n].subs, d1.h, d1.nrp).rebuilt)]
  }

  lemma LastIsPlayable(d: Decoder, fs: seq<Frame>)
    requires DecoderOk(d) && AllPlayable(fs) && fs != []
    ensures var f := fs[|fs| - 1]; Lag(d.nrp) && AllSubsPlayable(f.subs) && |f.larc| == 8 && |f.subs| == 4
  {
  }

  /** Over a whole stream the synthesis lattice sees one signal, and so does the de-emphasis. */
  predicate ComesOut(d: Decoder, fs: seq<Frame>, d1: Decoder, out: seq<int16>)
    requires DecoderOk(d) && AllPlayable(fs)
  {
    hide DecoderOk, SynthesiseBlocks, Received, LarOk, Post;
    DecoderParts(d);
    var lattice := SynthesiseBlocks(d.lars, d.v, Received(d, fs));
    d1.lars == lattice.m && d1.v == lattice.memory && (d1.msr, out) == Post(d.msr, Samples(lattice.blocks))
  }

  lemma DecoderParts(d: Decoder)
    requires DecoderOk(d)
    ensures LarOk(d.lars) && |d.v| == 9
  {
  }

  lemma {:induction false} PostAppend(msr: int16, a: seq<int16>, b: seq<int16>)
    ensures var (m, x) := Post(msr, a);
            var (m1, y) := Post(m, b);
            Post(msr, a + b) == (m1, x + y)
  {
    hide PostStep;
    if b == [] {
      assert a + b == a;
      assert Post(msr, a).1 + [] == Post(msr, a).1;
    } else {
      var n := |b| - 1;
      PostAppend(msr, a, b[..n]);
      assert (a + b)[..|a| + n] == a + b[..n];
      var (m, x) := Post(msr, a);
      var (m1, y) := Post(m, b[..n]);
      assert (x + y) + [PostStep(m1, b[n]).1] == x + (y + [PostStep(m1, b[n]).1]);
    }
  }

  lemma {:induction false} DecoderIsContinuous(d: Decoder, fs: seq<Frame>)
    requires DecoderOk(d) && AllPlayable(fs)
    ensures ComesOut(d, fs, DecodeFrames(d, fs).0, DecodeFrames(d, fs).1)
  {
    hide DecodeFrame, DecodeSubs, SynthesiseFrame, DecoderOk, Updated, LarOk, Post, Playable;
    DecoderParts(d);
    if fs == [] {
      NothingPosted(d.msr);
    } else {
      var n := |fs| - 1;
      DecoderIsContinuous(d, fs[..n]);
      var d1 := DecodeFrames(d, fs[..n]).0;
      FrameComesOut(d1, fs[n]);
      var bs := Received(d, fs);
      assert bs[..n] == Received(d, fs[..n]);
      var before := SynthesiseBlocks(d.lars, d.v, bs[..n]);
      var all := SynthesiseBlocks(d.lars, d.v, bs);
      assert all.blocks[..n] == before.blocks;
      PostAppend(d.msr, Samples(before.blocks), all.blocks[n].samples);
    }
  }

  lemma NothingPosted(msr: int16)
    ensures Post(msr, []) == (msr, [])
  {
  }

  // ----- both together

  /** What the decoder rebuilds is what the encoder did, over any number of frames. */
  lemma {:induction false} SameResiduals(e: Encoder, d: Decoder, amp: seq<int16>)
    requires EncoderOk(e) && DecoderOk(d) && InStep(e, d) && WholeFrames(amp)
    ensures AllPlayable(EncodeFrames(e, amp).1)
    ensures Received(d, EncodeFrames(e, amp).1) == Rebuildings(e, amp)
    decreases |amp|
  {
    hide EncodeFrame, DecodeFrame, InRange, Playable, InStep, EncoderOk, DecoderOk, DecodeSubs, EncodeSubs, ShortTerm;
    AllRangesArePlayable(EncodeFrames(e, amp).1);
    if amp != [] {
      var (before, last) := Last160(amp);
      SameResiduals(e, d, before);
      Lockstep(e, d, before);
      var (e1, fs) := EncodeFrames(e, before);
      FrameInStep(e1, DecodeFrames(d, fs).0, last);
      FrameHandsOn(e1, last);
      var all := EncodeFrames(e, amp).1;
      assert all[..|all| - 1] == fs;
    }
  }

  /** No stage of the lattice saturates, and the predictor and the excitation coder give back every residual. */
  predicate ResidualsAreKept(e: Encoder, amp: seq<int16>)
    requires EncoderOk(e) && WholeFrames(amp)
  {
    hide EncoderOk, CleanBlocks, AnalyseBlocks, Analysands, Rebuildings, LarOk;
    EncoderParts(e);
    && CleanBlocks(e.lars, e.u, Analysands(e, amp))
    && Rebuildings(e, amp) == AnalyseBlocks(e.lars, e.u, Analysands(e, amp)).blocks
  }

  /** Between the two ends of the codec only the residual is approximated. For every stream from a reset whose
      residuals come back unchanged, the decoder de-emphasises the very frames that the encoder analysed, bit for
      bit and over all of its frames. */
  lemma OnlyResidualIsLost(amp: seq<int16>)
    requires WholeFrames(amp) && ResidualsAreKept(FirstEncoder(), amp)
    ensures AllPlayable(EncodeFrames(FirstEncoder(), amp).1)
    ensures DecodeFrames(FirstDecoder(), EncodeFrames(FirstEncoder(), amp).1).1
         == Post(0, Samples(Analysands(FirstEncoder(), amp))).1
  {
    hide EncoderOk, DecoderOk, CleanBlocks, AnalyseBlocks, SynthesiseBlocks, Analysands, Rebuildings, Received, LarOk,
         EncodeFrames, DecodeFrames, InStep, Post, Samples, NoLars, Silence, AllPlayable;
    var e, d := FirstEncoder(), FirstDecoder();
    FirstInStep();
    SameResiduals(e, d, amp);
    DecoderIsContinuous(d, EncodeFrames(e, amp).1);
    EncoderParts(e);
    FirstMemories();
    SignalInverts(e.lars, e.u, d.v, Analysands(e, amp));
  }

  lemma FirstMemories()
    ensures FirstDecoder().v[..8] == FirstEncoder().u && FirstDecoder().lars == FirstEncoder().lars
    ensures FirstDecoder().msr == 0
  {
    hide EncoderOk, DecoderOk, Silence, LarOk, NoLars, Lag, Pre.Bounded;
  }
}
