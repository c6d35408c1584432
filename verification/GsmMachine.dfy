/** The GSM 06.10 routines that work on the state of a coder in place
    (jni/spandsp/gsm0610_encode.c and jni/spandsp/gsm0610_decode.c). */
module GsmMachine {
  import opened FixedPoint
  import opened GsmCodec
  import opened GsmExcitation
  import opened GsmFrame
  import opened GsmLongTerm
  import opened GsmLpc
  import opened GsmShortTerm
  import opened GsmStream
  import Pre = GsmPreprocess
  import Voip = GsmVoip
  import Wav = GsmWav49

  /** The rebuilt sub-segment replaces the prediction. */
  method Rebuild(e: array<int16>, dp: array<int16>, base: nat)
    requires e.Length == 50 && base + 40 <= dp.Length && e != dp
    modifies dp
    ensures dp[base..base + 40] == Rebuilt(e[5..45], old(dp[base..base + 40]))
    ensures dp[..base] == old(dp[..base])
  {
    hide SatAdd;
    ghost var p := dp[base..base + 40];
    var i := 0;
    while i < 40
      invariant 0 <= i <= 40
      invariant dp[..base] == old(dp[..base])
      invariant forall j :: 0 <= j < i ==> dp[base + j] == SatAdd(e[5 + j], p[j])
      invariant forall j :: i <= j < 40 ==> dp[base + j] == p[j]
    {
      dp[base + i] := SatAdd(e[5 + i], dp[base + i]);
      i := i + 1;
    }
  }

  /** One round of the loop of `encode_a_frame`, at the position `base` of the sliding pointer: the
      prediction and then the rebuilt sub-segment are written where the next history will be read. */
  method EncodeSegment(d: array<int16>, dp: array<int16>, base: nat, e: array<int16>) returns (s: Sub)
    requires d.Length == 40 && e.Length == 50 && 120 <= base && base + 40 <= dp.Length
    requires d != dp && d != e && e != dp && e[..5] == Margin() && e[45..] == Margin()
    modifies dp, e
    ensures (s, dp[base..base + 40]) == EncodeSub(d[..], old(dp[base - 120..base]))
    ensures dp[..base] == old(dp[..base])
    ensures e[..5] == Margin() && e[45..] == Margin()
  {
    hide Parameters, Predicted, Residual, Coded, Excitation, Margin, SatAdd, SubInRange, Sendable;
    ghost var h: History := dp[base - 120..base];
    var nc, bc := EvaluateLtpParameters(d, dp, base);
    LongTermAnalysisFiltering(bc, nc, dp, base, d, dp, base, e);
    ghost var p := Predicted(h, nc, bc);
    var xmaxc, mc, xMc := RpeEncoding(e);
    Rebuild(e, dp, base);
    s := Sub(nc, bc, mc, xmaxc, xMc);
  }

  /** The four rounds: the pointer slides through the buffer, so every history lies just below it. */
  method EncodeSegments(so: array<int16>, dp: array<int16>, e: array<int16>) returns (subs: seq<Sub>)
    requires so.Length == 160 && dp.Length == 280 && e.Length == 50
    requires so != dp && so != e && e != dp && e[..5] == Margin() && e[45..] == Margin()
    modifies dp, e
    ensures var sent := EncodeSubs(so[..], old(dp[..120]), 4);
            subs == sent.subs && dp[160..] == sent.h
    ensures e[..5] == Margin() && e[45..] == Margin()
  {
    hide EncodeSubs, EncodeSub, Shifted, Margin;
    ghost var d: seq<int16>, h: History := so[..], dp[..120];
    NoSegments(d, h);
    assert dp[0..120] == dp[..120];
    subs := [];
    var k := 0;
    while k < 4
      invariant 0 <= k <= 4 && so[..] == d
      invariant subs == EncodeSubs(d, h, k).subs
      invariant dp[40 * k..40 * k + 120] == EncodeSubs(d, h, k).h
      invariant e[..5] == Margin() && e[45..] == Margin()
    {
      var segment := new int16[40];
      CopySegment(so, 40 * k, segment);
      ghost var before := dp[40 * k..40 * k + 120];
      var s := EncodeSegment(segment, dp, 40 * k + 120, e);
      NextSegment(d, h, k);
      subs := subs + [s];
      SlidesOver(dp[..], 40 * k, before, dp[40 * k + 120..40 * k + 160]);
      k := k + 1;
    }
    assert dp[160..280] == dp[160..];
  }

  lemma NoSegments(d: seq<int16>, h: History)
    requires |d| == 160
    ensures EncodeSubs(d, h, 0) == Segments([], [], h)
  {
  }

  /** Round `k` of the loop takes the sub-segments from `before` to `after`. */
  ghost predicate OneRound(d: seq<int16>, k: nat, before: Segments, after: Segments)
    requires |d| == 160 && k < 4
  {
    hide *;
    var (s, back) := EncodeSub(d[40 * k..40 * k + 40], before.h);
    after.subs == before.subs + [s] && after.h == Shifted(before.h, back)
  }

  lemma NextSegment(d: seq<int16>, h: History, k: nat)
    requires |d| == 160 && k < 4
    ensures OneRound(d, k, EncodeSubs(d, h, k), EncodeSubs(d, h, k + 1))
  {
    hide EncodeSub, Shifted;
    assert d[40 * k..40 * k + 40] == d[40 * k..40 * (k + 1)];
  }

  /** Below the advanced pointer lies the shifted history. */
  lemma SlidesOver(dp: seq<int16>, at: nat, h: History, back: seq<int16>)
    requires at + 160 <= |dp| && dp[at..at + 120] == h && dp[at + 120..at + 160] == back
    ensures dp[at + 40..at + 160] == Shifted(h, back)
  {
    assert dp[at + 40..at + 160] == dp[at..at + 120][40..] + dp[at + 120..at + 160];
  }

  /** The forty samples that the C code points at. */
  method CopySegment(so: array<int16>, at: nat, segment: array<int16>)
    requires at + 40 <= so.Length && segment.Length == 40 && segment != so
    modifies segment
    ensures segment[..] == so[at..at + 40]
  {
    var i := 0;
    while i < 40
      invariant 0 <= i <= 40
      invariant forall j :: 0 <= j < i ==> segment[j] == so[at + j]
    {
      segment[i] := so[at + i];
      i := i + 1;
    }
  }

  /** The copy that ends `encode_a_frame`. */
  method KeepHistory(dp: array<int16>)
    requires dp.Length == 280
    modifies dp
    ensures dp[..120] == old(dp[160..])
  {
    var i := 0;
    while i < 120
      invariant 0 <= i <= 120
      invariant forall j :: 0 <= j < i ==> dp[j] == old(dp[160 + j])
      invariant forall j :: 120 <= j < 280 ==> dp[j] == old(dp[j])
    {
      dp[i] := dp[160 + i];
      i := i + 1;
    }
  }

  // ----- the decoder

  /** The loop of `decode_a_frame`: excitation, long-term synthesis, and the copy of the rebuilt
      sub-segment. The history shifts in place inside the buffer. */
  method DecodeSegments(subs: seq<Sub>, nrp: int, dp: array<int16>, wt: array<int16>) returns (nr: int)
    requires |subs| == 4 && AllSubsPlayable(subs) && Lag(nrp)
    requires dp.Length == 280 && wt.Length == 160 && dp != wt
    modifies dp, wt
    ensures Rebuilding(wt[..], dp[..120], nr) == DecodeSubs(subs, old(dp[..120]), nrp)
  {
    hide DecodeSubs, DecodeSub, Shifted, SubPlayable;
    ghost var h: History := dp[..120];
    NothingRebuilt(subs, h, nrp);
    assert wt[..0] == [];
    nr := nrp;
    var j := 0;
    while j < 4
      invariant 0 <= j <= 4 && Lag(nr)
      invariant Rebuilding(wt[..40 * j], dp[..120], nr) == DecodeSubs(subs[..j], h, nrp)
    {
      ghost var done := wt[..40 * j];
      ghost var before := Rebuilding(done, dp[..120], nr);
      nr := DecodeSegment(subs[j], nr, dp);
      CopyRebuilt(dp, wt, 40 * j);
      NextRebuilt(subs, h, nrp, j);
      assert NextIs(subs[j], before, Rebuilding(wt[..40 * (j + 1)], dp[..120], nr));
      j := j + 1;
    }
    assert subs[..4] == subs && wt[..160] == wt[..];
  }

  /** The rebuilt sub-segment, appended to the frame. */
  method CopyRebuilt(dp: array<int16>, wt: array<int16>, at: nat)
    requires dp.Length == 280 && at + 40 <= wt.Length && dp != wt
    modifies wt
    ensures wt[..at + 40] == old(wt[..at]) + dp[120..160]
  {
    ghost var done := wt[..at];
    var k := 0;
    while k < 40
      invariant 0 <= k <= 40
      invariant wt[..at + k] == done + dp[120..120 + k]
    {
      ghost var sofar := wt[..at + k];
      wt[at + k] := dp[120 + k];
      assert wt[..at + k + 1] == sofar + [dp[120 + k]];
      assert dp[120..120 + k + 1] == dp[120..120 + k] + [dp[120 + k]];
      k := k + 1;
    }
  }

  /** One coded sub-segment through the decoder. */
  method DecodeSegment(s: Sub, nrp: int, dp: array<int16>) returns (nr: int)
    requires SubPlayable(s) && Lag(nrp) && dp.Length == 280
    modifies dp
    ensures nr == UsedLag(s.nc, nrp) && Lag(nr)
    ensures dp[120..160] == DecodeSub(s, old(dp[..120]), nrp)
    ensures dp[..120] == Shifted(old(dp[..120]), dp[120..160])
  {
    hide Excitation, Predicted, Rebuilt, Shifted, UsedLag;
    var erp := new int16[40];
    RpeDecoding(s.xmaxc, s.mc, s.xMc, erp);
    nr := LongTermSynthesisFiltering(nrp, s.nc, s.bc, erp, dp);
  }

  /** What one more coded sub-segment does to a decoder's history and output. */
  ghost predicate NextIs(s: Sub, before: Rebuilding, after: Rebuilding)
    requires SubPlayable(s) && Lag(before.nrp)
  {
    hide *;
    var back := DecodeSub(s, before.h, before.nrp);
    after == Rebuilding(before.rebuilt + back, Shifted(before.h, back), UsedLag(s.nc, before.nrp))
  }

  lemma NothingRebuilt(subs: seq<Sub>, h: History, nrp: int)
    requires Lag(nrp)
    ensures DecodeSubs(subs[..0], h, nrp) == Rebuilding([], h, nrp)
  {
  }

  lemma NextRebuilt(subs: seq<Sub>, h: History, nrp: int, j: nat)
    requires |subs| == 4 && AllSubsPlayable(subs) && Lag(nrp) && j < 4
    ensures NextIs(subs[j], DecodeSubs(subs[..j], h, nrp), DecodeSubs(subs[..j + 1], h, nrp))
  {
    hide DecodeSub, Shifted, SubPlayable;
    assert subs[..j + 1][..j] == subs[..j];
  }

  /** `postprocessing`, in place. */
  method Postprocessing(msr: int16, amp: array<int16>) returns (after: int16)
    modifies amp
    ensures (after, amp[..]) == Post(msr, old(amp[..]))
  {
    hide MultR, SatAdd, ClearLowBits, Post;
    ghost var xs := amp[..];
    NothingPosted(msr, xs);
    assert amp[..0] == [];
    after := msr;
    var k := 0;
    while k < amp.Length
      invariant 0 <= k <= amp.Length
      invariant (after, amp[..k]) == Post(msr, xs[..k])
      invariant amp[k..] == xs[k..]
    {
      ghost var done := amp[..k];
      assert amp[k] == xs[k];
      NextPosted(msr, xs, k);
      var tmp := MultR(after, 28180);
      after := SatAdd(amp[k], tmp);
      amp[k] := ClearLowBits(SatAdd(after, after));
      assert amp[..k + 1] == done + [amp[k]];
      k := k + 1;
    }
    assert xs[..k] == xs && amp[..k] == amp[..];
  }

  lemma NothingPosted(msr: int16, xs: seq<int16>)
    ensures Post(msr, xs[..0]) == (msr, [])
  {
  }

  lemma NextPosted(msr: int16, xs: seq<int16>, k: nat)
    requires k < |xs|
    ensures var (m, ys) := Post(msr, xs[..k]);
            var (m1, y) := PostStep(m, xs[k]);
            Post(msr, xs[..k + 1]) == (m1, ys + [y])
  {
    hide PostStep;
    assert xs[..k + 1][..k] == xs[..k];
  }

  lemma StepIs(st: Encoder, x: seq<int16>, after: Encoder, f: Frame)
    requires EncoderOk(st) && |x| == 160 && (after, f) == EncodeFrame(st, x)
    ensures FrameStep(st, x, after, f)
  {
    hide EncoderOk, EncodeFrame;
  }

  lemma DecodedIs(st: Decoder, f: Frame, after: Decoder, out: seq<int16>)
    requires DecoderOk(st) && Playable(f) && (after, out) == DecodeFrame(st, f)
    ensures FrameDecoded(st, f, after, out)
  {
    hide DecoderOk, Playable, DecodeFrame;
  }

  lemma UnpackNothing(p: Packing)
    ensures WholeBytes(p, [])
  {
  }

  lemma UnitSize(p: Packing)
    ensures UnitBytes(p) == if p == OneByteEach then 76 else if p == Wav49 then 65 else 33
  {
  }

  /** The frames of one unit that the decoder can be given. */
  lemma UnitParts(p: Packing, c: seq<byte>)
    requires |c| == UnitBytes(p) && AllPlayable(UnpackUnit(p, c))
    ensures p == OneByteEach ==> |c| == 76 && UnpackUnit(p, c) == [UnpackNone(c)] && Playable(UnpackNone(c))
    ensures p == Voip33 ==> |c| == 33 && UnpackUnit(p, c) == [Voip.UnpackVoip(c)] && Playable(Voip.UnpackVoip(c))
    ensures p == Wav49 ==> |c| == 65 && UnpackUnit(p, c) == [Wav.Unpacked(c).0, Wav.Unpacked(c).1]
    ensures p == Wav49 ==> Playable(Wav.Unpacked(c).0) && Playable(Wav.Unpacked(c).1)
  {
    hide Playable, UnpackNone, Voip.UnpackVoip, Wav.Unpacked;
    var fs := UnpackUnit(p, c);
    assert Playable(fs[0]);
    if p == Wav49 {
      assert Playable(fs[1]);
    }
  }

  // ----- the state structure

  /** `gsm0610_state_t`: one structure serves an encoder or a decoder. */
  class Coder {
    const packing: Packing
    const dp0: array<int16>
    const e: array<int16>
    const u: array<int16>
    const v: array<int16>
    var offset: Pre.Offset
    var lars: LarMemory
    var nrp: int
    var msr: int16

    ghost predicate Valid()
      reads this, dp0, e, u, v
    {
      && dp0.Length == 280 && e.Length == 50 && u.Length == 8 && v.Length == 9
      && dp0 != e && dp0 != u && dp0 != v && e != u && e != v && u != v
      && e[..5] == Margin() && e[45..] == Margin()
      && EncoderOk(Encoder(offset, lars, u[..], dp0[..120]))
      && DecoderOk(Decoder(dp0[..120], nrp, lars, v[..], msr))
    }

    /** The state as an encoder sees it. */
    ghost function EncoderState(): (st: Encoder)
      requires Valid()
      reads this, dp0, e, u, v
      ensures EncoderOk(st)
    {
      Encoder(offset, lars, u[..], dp0[..120])
    }

    /** The state as a decoder sees it. */
    ghost function DecoderState(): (st: Decoder)
      requires Valid()
      reads this, dp0, e, u, v
      ensures DecoderOk(st)
    {
      Decoder(dp0[..120], nrp, lars, v[..], msr)
    }

    /** `gsm0610_init`. */
    constructor (packing: Packing)
      ensures Valid() && this.packing == packing
      ensures EncoderState() == FirstEncoder() && DecoderState() == FirstDecoder()
      ensures fresh(dp0) && fresh(e) && fresh(u) && fresh(v)
    {
      hide Pre.Bounded;
      this.packing := packing;
      dp0 := new int16[280](_ => 0);
      e := new int16[50](_ => 0);
      u := new int16[8](_ => 0);
      v := new int16[9](_ => 0);
      offset := Pre.RESET;
      lars := NoLars();
      nrp := 40;
      msr := 0;
      new;
      Pre.ResetIsBounded();
      assert dp0[..120] == Silence();
      assert e[..5] == Margin() && e[45..] == Margin();
      assert u[..] == [0, 0, 0, 0, 0, 0, 0, 0];
      assert v[..] == [0, 0, 0, 0, 0, 0, 0, 0, 0];
    }

    /** `encode_a_frame`. */
    method EncodeAFrame(amp: seq<int16>) returns (f: Frame)
      requires Valid() && |amp| == 160
      modifies this`offset, this`lars, dp0, e, u
      ensures Valid()
      ensures (EncoderState(), f) == EncodeFrame(old(EncoderState()), amp)
      ensures InRange(f)
    {
      hide Pre.Run, Pre.Bounded, Analysed, AnalyseFrame, EncodeSubs, Updated, Margin, InRange, SubInRange, LarOk;
      ghost var st := EncoderState();
      FrameFits(st, amp);
      FrameStaysBounded(st.offset, amp);
      var so := new int16[160];
      offset := Pre.Preprocess(offset, amp, so);
      var larc := LpcAnalysis(so);
      lars := ShortTermAnalysisFilter(lars, u, larc[..], so);
      var subs := EncodeSegments(so, dp0, e);
      KeepHistory(dp0);
      f := Frame(larc[..], subs);
    }
  
    /** `decode_a_frame`. */
    method DecodeAFrame(f: Frame) returns (amp: array<int16>)
      requires Valid() && Playable(f)
      modifies this`nrp, this`lars, this`msr, dp0, v
      ensures Valid() && fresh(amp)
      ensures (DecoderState(), amp[..]) == DecodeFrame(old(DecoderState()), f)
    {
      hide Pre.Bounded, DecodeSubs, SynthesiseFrame, Post, Updated, Margin, SubPlayable, LarOk;
      var wt := new int16[160];
      nrp := DecodeSegments(f.subs, nrp, dp0, wt);
      amp := new int16[160];
      lars := ShortTermSynthesisFilter(lars, v, f.larc, wt, amp);
      msr := Postprocessing(msr, amp);
    }
  
    /** `gsm0610_encode`. */
    method Encode(amp: seq<int16>) returns (code: seq<byte>)
      requires Valid() && Packable(packing, amp)
      modifies this`offset, this`lars, dp0, e, u
      ensures Valid()
      ensures EncodedUpTo(packing, old(EncoderState()), amp, EncoderState(), code)
    {
      hide *;
      ghost var st := EncoderState();
      NothingEncoded(packing, st);
      PackableIsAligned(packing, amp);
      assert amp[..0] == [];
      code := [];
      var i := 0;
      while i < |amp|
        invariant 0 <= i <= |amp| && Aligned(packing, i) && Valid()
        invariant EncodedUpTo(packing, st, amp[..i], EncoderState(), code)
        decreases |amp| - i
      {
        RoomForUnit(packing, i, |amp|);
        ghost var a, now, x := amp[..i], EncoderState(), amp[i..i + 160];
        var f := EncodeAFrame(amp[i..i + 160]);
        ghost var middle := EncoderState();
        assert FrameStep(now, x, middle, f) by { StepIs(now, x, middle, f); }
        assert amp[..i + 160] == a + x;
        match packing {
          case Wav49 =>
            i := i + 160;
            ghost var y := amp[i..i + 160];
            var g := EncodeAFrame(amp[i..i + 160]);
            UnitsAre(f, g);
            StepIs(middle, y, EncoderState(), g);
            MaskedInRange(f);
            MaskedInRange(g);
            var c := Wav.PackWav49(f, g);
            OnePairEncoded(packing, st, a, now, code, x, middle, f, y, EncoderState(), g, c);
            assert amp[..i + 160] == a + x + y;
            code := code + c;
          case Voip33 =>
            UnitsAre(f, f);
            var c := Voip.PackVoipInto(f);
            OneUnitEncoded(packing, st, a, now, code, x, middle, f, c);
            code := code + c;
          case OneByteEach =>
            UnitsAre(f, f);
            var c := PackNoneInto(f);
            OneUnitEncoded(packing, st, a, now, code, x, middle, f, c);
            code := code + c;
        }
        i := i + 160;
      }
      assert amp[..i] == amp;
    }
  
    /** `gsm0610_decode`. */
    method Decode(code: seq<byte>) returns (amp: seq<int16>)
      requires Valid() && Decodable(packing, code)
      modifies this`nrp, this`lars, this`msr, dp0, v
      ensures Valid()
      ensures DecodedUpTo(packing, old(DecoderState()), code, DecoderState(), amp)
    {
      hide *;
      ghost var st := DecoderState();
      NothingDecoded(packing, st);
      UnpackNothing(packing);
      assert code[..0] == [];
      amp := [];
      var i := 0;
      while i < |code|
        invariant 0 <= i <= |code| && WholeBytes(packing, code[..i]) && Valid()
        invariant DecodedUpTo(packing, st, code[..i], DecoderState(), amp)
        decreases |code| - i
      {
        UnitAhead(packing, code, i);
        var bytes := UnitBytes(packing);
        UnitSize(packing);
        var unit := code[i..i + bytes];
        UnitParts(packing, unit);
        ghost var now := DecoderState();
        var samples: seq<int16>;
        match packing {
          case OneByteEach =>
            var f := UnpackNoneFrom(unit);
            var out := DecodeAFrame(f);
            samples := out[..];
            DecodedIs(now, f, DecoderState(), samples);
            OneFrameUnit(now, f, DecoderState(), samples);
          case Wav49 =>
            var f, g := Wav.UnpackWav49(unit);
            var out := DecodeAFrame(f);
            samples := out[..];
            ghost var middle := DecoderState();
            DecodedIs(now, f, middle, samples);
            out := DecodeAFrame(g);
            DecodedIs(middle, g, DecoderState(), out[..]);
            TwoFrameUnit(now, f, middle, samples, g, DecoderState(), out[..]);
            samples := samples + out[..];
          case Voip33 =>
            var f := Voip.UnpackVoipFrom(unit);
            var out := DecodeAFrame(f);
            samples := out[..];
            DecodedIs(now, f, DecoderState(), samples);
            OneFrameUnit(now, f, DecoderState(), samples);
        }
        OneUnitDecoded(packing, st, code[..i], now, amp, unit, DecoderState(), samples);
        assert code[..i + bytes] == code[..i] + unit;
        amp := amp + samples;
        i := i + bytes;
      }
      assert code[..i] == code;
    }
  }
}
