/** `g722_encode` and `g722_decode` (jni/spandsp/g722.c) as calls on a state that lives across calls:
    filter bank, sub-band coder and optional bit packing together. */
module G722Stream {
  import opened FixedPoint
  import opened G722Band
  import opened G722Quantiser
  import opened G722Codec
  import opened G722Qmf
  import opened G722Packing
  import Bits
  import Response = G722Response

  datatype Mode = Mode(rate: Rate, eightK: bool, packed: bool)

  /** Bit packing is only ever used below eight bits. */
  predicate Proper(mode: Mode) {
    mode.packed ==> mode.rate < 8
  }

  datatype State = State(bands: Bands, qmf: Qmf, buffer: BitBuffer)

  const FRESH := State(RESET, SILENCE, EMPTY)

  /** `g722_encode_init` and `g722_decode_init`: the mode for a bit rate and two option flags. */
  function ModeFor(bitRate: int, sampleRate8000: bool, packedOption: bool): (mode: Mode)
    ensures Proper(mode) && mode.eightK == sampleRate8000
    ensures bitRate in {48000, 56000, 64000} ==> bitRate == 8000 * mode.rate
    ensures bitRate !in {48000, 56000} ==> mode.rate == 8 && !mode.packed
    ensures mode.rate < 8 ==> mode.packed == packedOption
  {
    var rate := if bitRate == 48000 then 6 else if bitRate == 56000 then 7 else 8;
    Mode(rate, sampleRate8000, packedOption && rate != 8)
  }

  // ----- whole calls

  function PackAll(mode: Mode, buffer: BitBuffer, codes: seq<byte>): (BitBuffer, seq<byte>)
    requires Proper(mode)
  {
    if mode.packed then Pack(mode.rate, buffer, codes) else (buffer, codes)
  }

  function UnpackAll(mode: Mode, buffer: BitBuffer, bytes: seq<byte>): (seq<byte>, BitBuffer)
    requires Proper(mode)
  {
    if mode.packed then Unpack(mode.rate, buffer, bytes) else (bytes, buffer)
  }

  predicate WholeGroups(mode: Mode, amp: seq<int16>) {
    Grouped(mode.eightK, |amp|)
  }

  function Encode(mode: Mode, st: State, amp: seq<int16>): (State, seq<byte>)
    requires Proper(mode) && WholeGroups(mode, amp)
  {
    var (qmf, xs) := Analyse(mode.eightK, st.qmf, amp);
    var (bands, codes) := EncodeBands(mode.rate, mode.eightK, st.bands, xs);
    var (buffer, bytes) := PackAll(mode, st.buffer, codes);
    (State(bands, qmf, buffer), bytes)
  }

  function Decode(mode: Mode, st: State, bytes: seq<byte>): (State, seq<int16>)
    requires Proper(mode)
  {
    var (codes, buffer) := UnpackAll(mode, st.buffer, bytes);
    var (bands, rs) := DecodeBands(mode.rate, mode.eightK, st.bands, codes);
    var (qmf, amp) := Synthesise(mode.eightK, st.qmf, rs);
    (State(bands, qmf, buffer), amp)
  }

  // ----- calls compose

  lemma {:induction false} EncodeBandsAppend(rate: Rate, eightK: bool, bands: Bands, a: seq<(int16, int16)>,
                                             b: seq<(int16, int16)>)
    ensures var (bands1, xs) := EncodeBands(rate, eightK, bands, a);
            var (bands2, ys) := EncodeBands(rate, eightK, bands1, b);
            EncodeBands(rate, eightK, bands, a + b) == (bands2, xs + ys)
  {
    hide EncodeStep;
    if b == [] {
      assert a + b == a;
      assert EncodeBands(rate, eightK, bands, a).1 + [] == EncodeBands(rate, eightK, bands, a).1;
    } else {
      var cut := |b| - 1;
      EncodeBandsAppend(rate, eightK, bands, a, b[..cut]);
      assert (a + b)[..|a| + cut] == a + b[..cut];
      var (bands1, xs) := EncodeBands(rate, eightK, bands, a);
      var (bands2, ys) := EncodeBands(rate, eightK, bands1, b[..cut]);
      Bits.ConcatAssoc(xs, ys, [EncodeStep(rate, eightK, bands2, b[cut]).1]);
    }
  }

  lemma {:induction false} DecodeBandsAppend(rate: Rate, eightK: bool, bands: Bands, a: seq<byte>, b: seq<byte>)
    ensures var (bands1, xs) := DecodeBands(rate, eightK, bands, a);
            var (bands2, ys) := DecodeBands(rate, eightK, bands1, b);
            DecodeBands(rate, eightK, bands, a + b) == (bands2, xs + ys)
  {
    hide DecodeStep;
    if b == [] {
      assert a + b == a;
      assert DecodeBands(rate, eightK, bands, a).1 + [] == DecodeBands(rate, eightK, bands, a).1;
    } else {
      var cut := |b| - 1;
      DecodeBandsAppend(rate, eightK, bands, a, b[..cut]);
      assert (a + b)[..|a| + cut] == a + b[..cut];
      var (bands1, xs) := DecodeBands(rate, eightK, bands, a);
      var (bands2, ys) := DecodeBands(rate, eightK, bands1, b[..cut]);
      Bits.ConcatAssoc(xs, ys, [DecodeStep(rate, eightK, bands2, b[cut]).1]);
    }
  }

  /** Encoding a signal in several calls gives the bytes and the state of one call. */
  lemma EncodeInPieces(mode: Mode, st: State, a: seq<int16>, b: seq<int16>)
    requires Proper(mode) && WholeGroups(mode, a) && WholeGroups(mode, b)
    ensures WholeGroups(mode, a + b)
    ensures var (st1, bytes1) := Encode(mode, st, a);
            var (st2, bytes2) := Encode(mode, st1, b);
            Encode(mode, st, a + b) == (st2, bytes1 + bytes2)
  {
    hide Analyse, EncodeBands, Pack;
    AnalyseAppend(mode.eightK, st.qmf, a, b);
    var (q1, xs) := Analyse(mode.eightK, st.qmf, a);
    var ys := Analyse(mode.eightK, q1, b).1;
    EncodeBandsAppend(mode.rate, mode.eightK, st.bands, xs, ys);
    var (bands1, codes1) := EncodeBands(mode.rate, mode.eightK, st.bands, xs);
    if mode.packed {
      PackAppend(mode.rate, st.buffer, codes1, EncodeBands(mode.rate, mode.eightK, bands1, ys).1);
    }
  }

  /** Decoding a byte stream in arbitrary pieces gives the samples and the state of one call. */
  lemma DecodeInPieces(mode: Mode, st: State, a: seq<byte>, b: seq<byte>)
    requires Proper(mode)
    ensures var (st1, amp1) := Decode(mode, st, a);
            var (st2, amp2) := Decode(mode, st1, b);
            Decode(mode, st, a + b) == (st2, amp1 + amp2)
  {
    hide Synthesise, DecodeBands, Unpack;
    if mode.packed {
      UnpackAppend(mode.rate, st.buffer, a, b);
    }
    var (codes1, buffer1) := UnpackAll(mode, st.buffer, a);
    var codes2 := UnpackAll(mode, buffer1, b).0;
    DecodeBandsAppend(mode.rate, mode.eightK, st.bands, codes1, codes2);
    var (bands1, rs1) := DecodeBands(mode.rate, mode.eightK, st.bands, codes1);
    SynthesiseAppend(mode.eightK, st.qmf, rs1, DecodeBands(mode.rate, mode.eightK, bands1, codes2).1);
  }

  // ----- what every call keeps

  /** Bands inside their ranges and stability limits, and at most seven buffered bits. */
  predicate Sound(st: State) {
    Reachable(st.bands) && Settled(st.buffer)
  }

  lemma FreshIsSound()
    ensures Sound(FRESH) && Clipped(FRESH.qmf)
  {
    hide Reachable;
    ResetIsReachable();
  }

  lemma EncodeKeepsSound(mode: Mode, st: State, amp: seq<int16>)
    requires Proper(mode) && WholeGroups(mode, amp) && Sound(st) && Clipped(st.qmf)
    ensures Sound(Encode(mode, st, amp).0) && Clipped(Encode(mode, st, amp).0.qmf)
  {
    hide Analyse, EncodeBands, Pack, Reachable, Clipped, Settled;
    var xs := Analyse(mode.eightK, st.qmf, amp).1;
    AnalyseFits(mode.eightK, st.qmf, amp);
    EncoderInvariant(mode.rate, mode.eightK, st.bands, xs);
    if mode.packed {
      forall k | 0 <= k < |xs|
        ensures EncodeBands(mode.rate, mode.eightK, st.bands, xs).1[k] < Pow2(mode.rate)
      {
        CodesFitRate(mode.rate, mode.eightK, st.bands, xs, k);
      }
      PackBits(mode.rate, st.buffer, EncodeBands(mode.rate, mode.eightK, st.bands, xs).1);
    }
  }

  /** Whatever bytes a decoder is given, in whatever pieces: the next call starts from a sound state. */
  lemma DecodeKeepsSound(mode: Mode, st: State, bytes: seq<byte>)
    requires Proper(mode) && Sound(st)
    ensures Sound(Decode(mode, st, bytes).0)
  {
    hide DecodeBands, Unpack, Synthesise, Reachable, Settled;
    DecoderInvariant(mode.rate, mode.eightK, st.bands, UnpackAll(mode, st.buffer, bytes).0);
    if mode.packed {
      UnpackBits(mode.rate, st.buffer, bytes);
    }
  }

  // ----- both directions together

  /** The band signals of an input, and the codes the decoder gets out of the encoder's bytes. */
  function BandSignals(mode: Mode, amp: seq<int16>): seq<(int16, int16)>
    requires WholeGroups(mode, amp)
  {
    Analyse(mode.eightK, SILENCE, amp).1
  }

  function CodesSent(mode: Mode, amp: seq<int16>): seq<byte>
    requires WholeGroups(mode, amp)
  {
    EncodeBands(mode.rate, mode.eightK, RESET, BandSignals(mode, amp)).1
  }

  function CodesReceived(mode: Mode, amp: seq<int16>): seq<byte>
    requires Proper(mode) && WholeGroups(mode, amp)
  {
    UnpackAll(mode, EMPTY, Encode(mode, FRESH, amp).1).0
  }

  /** From a reset, for every input: the decoder receives a prefix of the codes that were sent, at
      most two short, and after its `n` codes both of its bands equal the encoder's after `n`. */
  lemma StreamLockstep(mode: Mode, amp: seq<int16>)
    requires Proper(mode) && WholeGroups(mode, amp)
    ensures CodesReceived(mode, amp) <= CodesSent(mode, amp)
    ensures var n := |CodesReceived(mode, amp)|;
            && |BandSignals(mode, amp)| - (if mode.packed then 2 else 0) <= n <= |BandSignals(mode, amp)|
            && Decode(mode, FRESH, Encode(mode, FRESH, amp).1).0.bands
               == EncodeBands(mode.rate, mode.eightK, RESET, BandSignals(mode, amp)[..n]).0
  {
    hide Analyse, EncodeBands, DecodeBands, Pack, Unpack, Synthesise, Reachable;
    var xs := BandSignals(mode, amp);
    var codes := CodesSent(mode, amp);
    var got := CodesReceived(mode, amp);
    if mode.packed {
      PackedCodes(mode, amp);
    }
    EncodePrefix(mode.rate, mode.eightK, RESET, xs, |got|);
    assert got == codes[..|got|] == EncodeBands(mode.rate, mode.eightK, RESET, xs[..|got|]).1;
    ResetIsReachable();
    Lockstep(mode.rate, mode.eightK, RESET, xs[..|got|]);
  }

  lemma PackedCodes(mode: Mode, amp: seq<int16>)
    requires Proper(mode) && WholeGroups(mode, amp) && mode.packed
    ensures CodesReceived(mode, amp) <= CodesSent(mode, amp)
    ensures |CodesSent(mode, amp)| - |CodesReceived(mode, amp)| <= 2
  {
    hide Analyse, EncodeBands, Pack, Unpack;
    forall k | 0 <= k < |CodesSent(mode, amp)|
      ensures CodesSent(mode, amp)[k] < Pow2(mode.rate)
    {
      CodesFitRate(mode.rate, mode.eightK, RESET, BandSignals(mode, amp), k);
    }
    UnpackedIsPrefix(mode.rate, CodesSent(mode, amp));
    HeldBack(mode.rate, CodesSent(mode, amp));
  }

  /** What the decoder makes of the bands of an input, in the unpacked modes. */
  lemma DecodedBands(mode: Mode, amp: seq<int16>)
    requires !mode.packed && WholeGroups(mode, amp)
    ensures Decode(mode, FRESH, Encode(mode, FRESH, amp).1).1
         == Synthesise(mode.eightK, SILENCE, Received(mode.rate, mode.eightK, RESET, BandSignals(mode, amp))).1
  {
    hide Analyse, EncodeBands, DecodeBands, Synthesise;
  }

  /** The band signals that the filter bank feeds to the coder are fifteen-bit numbers. */
  lemma BandSignalsFit(mode: Mode, amp: seq<int16>, n: nat)
    requires WholeGroups(mode, amp) && n < |BandSignals(mode, amp)|
    ensures -0x4000 <= BandSignals(mode, amp)[n].0 <= 0x3FFF
    ensures -0x4000 <= BandSignals(mode, amp)[n].1 <= 0x3FFF
  {
    hide Analyse;
    AnalyseFits(mode.eightK, SILENCE, amp);
  }

  /** For every input from a reset, at every rate: outside overload the decoded low band is within
      one quantiser cell of the encoder's low band. */
  lemma LowBandError(mode: Mode, amp: seq<int16>, n: nat)
    requires WholeGroups(mode, amp) && n < |BandSignals(mode, amp)|
    requires CleanSample(mode.rate, mode.eightK, RESET, BandSignals(mode, amp), n)
    ensures var xs := BandSignals(mode, amp);
            Distance(Received(mode.rate, mode.eightK, RESET, xs)[n].0, xs[n].0)
            <= ErrorBound(mode.rate, mode.eightK, RESET, xs, n)
  {
    hide BandSignals, Received, CleanSample, ErrorBound, Reachable;
    ResetIsReachable();
    BandSignalsFit(mode, amp, n);
    StreamError(mode.rate, mode.eightK, RESET, BandSignals(mode, amp), n);
  }

  /** The same for the high band, inside the inner interval of its quantiser. */
  lemma HighBandError(mode: Mode, amp: seq<int16>, n: nat)
    requires !mode.eightK && WholeGroups(mode, amp) && n < |BandSignals(mode, amp)|
    requires CleanHighSample(mode.rate, RESET, BandSignals(mode, amp), n)
    ensures var xs := BandSignals(mode, amp);
            Distance(Received(mode.rate, false, RESET, xs)[n].1, xs[n].1)
            <= HighThreshold(HighBefore(mode.rate, RESET, xs, n).det)
  {
    hide BandSignals, Received, CleanHighSample, HighThreshold, HighBefore, Reachable;
    ResetIsReachable();
    BandSignalsFit(mode, amp, n);
    StreamHighError(mode.rate, RESET, BandSignals(mode, amp), n);
  }

  /** The band samples that the decoder makes of any bytes. */
  function DecodedSignals(mode: Mode, st: State, bytes: seq<byte>): seq<(int16, int16)>
    requires Proper(mode)
  {
    DecodeBands(mode.rate, mode.eightK, st.bands, UnpackAll(mode, st.buffer, bytes).0).1
  }

  /** For every byte stream, from any state, and at every sample: the output side of the decoder loses
      nothing either. At 8 kHz the doubled sample fits sixteen bits; otherwise both filter inputs fit
      sixteen bits and both filter sums fit 32. */
  lemma DecoderOutputFits(mode: Mode, st: State, bytes: seq<byte>, n: nat)
    requires Proper(mode) && n < |DecodedSignals(mode, st, bytes)|
    ensures var rs := DecodedSignals(mode, st, bytes);
            && Limited(rs[n])
            && (mode.eightK ==> IsInt16(Sum(rs[n].0, rs[n].0)))
            && (!mode.eightK ==>
                  SynthesisFits(Synthesise(false, st.qmf, rs[..n]).0, rs[n], Synthesise(false, st.qmf, rs[..n + 1]).0))
  {
    hide Synthesise, DecodeBands, UnpackAll, SynthesisFits;
    var codes := UnpackAll(mode, st.buffer, bytes).0;
    DecodedAreLimited(mode.rate, mode.eightK, st.bands, codes, n);
    if !mode.eightK {
      SynthesiseFits(st.qmf, DecodedSignals(mode, st, bytes), n);
    }
  }

  /** The error of the whole path in the unpacked 8 kHz mode: outside overload a decoded sample
      differs from the input by at most twice the width of its quantiser cell, plus the bit that
      the fifteen-bit conversion drops. */
  lemma EightKError(mode: Mode, amp: seq<int16>, n: nat)
    requires mode.eightK && !mode.packed && n < |amp|
    requires CleanSample(mode.rate, true, RESET, BandSignals(mode, amp), n)
    ensures |Decode(mode, FRESH, Encode(mode, FRESH, amp).1).1| == |amp|
    ensures Distance(Decode(mode, FRESH, Encode(mode, FRESH, amp).1).1[n], amp[n])
         <= 2 * ErrorBound(mode.rate, true, RESET, BandSignals(mode, amp), n) + 1
  {
    hide Analyse, EncodeBands, DecodeBands, Synthesise, Reachable, CleanSample, ErrorBound;
    var xs := BandSignals(mode, amp);
    LowBandError(mode, amp, n);
    DecodedBands(mode, amp);
    AnalyseEightK(SILENCE, amp, n);
    SynthesiseEightK(SILENCE, Received(mode.rate, true, RESET, xs), n);
    ReceivedIsLimited(mode.rate, true, RESET, xs, n);
  }

  /** The bands of pair `k` are inside their quantisers, and both errors together within `e`. */
  predicate CleanPair(mode: Mode, amp: seq<int16>, e: int, k: nat)
    requires !mode.eightK && WholeGroups(mode, amp) && k < |BandSignals(mode, amp)|
  {
    hide BandSignals, CleanSample, CleanHighSample, ErrorBound, HighThreshold, HighBefore;
    var xs := BandSignals(mode, amp);
    && CleanSample(mode.rate, false, RESET, xs, k) && CleanHighSample(mode.rate, RESET, xs, k)
    && ErrorBound(mode.rate, false, RESET, xs, k) + HighThreshold(HighBefore(mode.rate, RESET, xs, k).det) <= e
  }

  /** The error of the whole path with both filter banks, unpacked: if the twelve pairs that an output sample
      depends on are outside overload, it is the input 22 samples earlier to within 3.2 times the errors of the
      bands, seven, and a quarter of a percent of the peak. */
  lemma SixteenKError(mode: Mode, amp: seq<int16>, top: int, e: int, i: nat)
    requires !mode.eightK && !mode.packed && WholeGroups(mode, amp) && i < |amp| && 0 <= e
    requires 0 <= top <= 16350 && forall k :: 0 <= k < |amp| ==> -top <= amp[k] as int <= top
    requires forall k :: 0 <= k <= i / 2 && i / 2 - 11 <= k ==> CleanPair(mode, amp, e, k)
    ensures |Decode(mode, FRESH, Encode(mode, FRESH, amp).1).1| == |amp|
    ensures Response.Returned(amp, Decode(mode, FRESH, Encode(mode, FRESH, amp).1).1, top, e, i)
  {
    hide BandSignals, Received, Encode, Decode, Synthesise, Response.BandsOf, CleanPair, Response.BandsNear,
         Response.Returned, Response.AllLimited;
    var xs := BandSignals(mode, amp);
    var rs := Received(mode.rate, false, RESET, xs);
    BandsAreSignals(mode, amp);
    DecodedBands(mode, amp);
    PairsComeBack(mode, amp, e, i / 2);
    ReceivedLimited(mode.rate, xs);
    Response.BackToBack(amp, rs, top, e, i);
  }

  lemma BandsAreSignals(mode: Mode, amp: seq<int16>)
    requires !mode.eightK && WholeGroups(mode, amp)
    ensures |amp| % 2 == 0 && Response.BandsOf(amp) == BandSignals(mode, amp)
  {
    hide Analyse;
  }

  lemma PairsComeBack(mode: Mode, amp: seq<int16>, e: int, n: nat)
    requires !mode.eightK && WholeGroups(mode, amp) && n < |BandSignals(mode, amp)|
    requires forall k :: 0 <= k <= n && n - 11 <= k ==> CleanPair(mode, amp, e, k)
    ensures Response.BandsNear(BandSignals(mode, amp), Received(mode.rate, false, RESET, BandSignals(mode, amp)), n, e)
  {
    hide BandSignals, Received;
    var xs := BandSignals(mode, amp);
    var rs := Received(mode.rate, false, RESET, xs);
    forall k | 0 <= k <= n && n - 11 <= k
      ensures Distance(rs[k].0, xs[k].0) + Distance(rs[k].1, xs[k].1) <= e
    {
      PairComesBack(mode, amp, e, k);
    }
  }

  lemma PairComesBack(mode: Mode, amp: seq<int16>, e: int, k: nat)
    requires !mode.eightK && WholeGroups(mode, amp) && k < |BandSignals(mode, amp)| && CleanPair(mode, amp, e, k)
    ensures var xs := BandSignals(mode, amp);
            var rs := Received(mode.rate, false, RESET, xs);
            Distance(rs[k].0, xs[k].0) + Distance(rs[k].1, xs[k].1) <= e
  {
    hide BandSignals, Received, CleanSample, CleanHighSample, ErrorBound, HighThreshold, HighBefore;
    LowBandError(mode, amp, k);
    HighBandError(mode, amp, k);
  }

  lemma ReceivedLimited(rate: Rate, xs: seq<(int16, int16)>)
    ensures Response.AllLimited(Received(rate, false, RESET, xs))
  {
    hide DecodeBands, EncodeBands;
    var codes := EncodeBands(rate, false, RESET, xs).1;
    forall n | 0 <= n < |codes|
      ensures Limited(DecodeBands(rate, false, RESET, codes).1[n])
    {
      DecodedAreLimited(rate, false, RESET, codes, n);
    }
  }

  lemma {:induction false} AnalyseEightK(q: Qmf, amp: seq<int16>, n: nat)
    requires n < |amp|
    ensures |Analyse(true, q, amp).1| == |amp| && Analyse(true, q, amp).1[n] == (amp[n] / 2, 0)
  {
    if n < |amp| - 1 {
      AnalyseEightK(q, amp[..|amp| - 1], n);
    }
  }

  lemma {:induction false} SynthesiseEightK(q: Qmf, rs: seq<(int16, int16)>, n: nat)
    requires n < |rs|
    ensures Synthesise(true, q, rs).1[n] == ToInt16(Sum(rs[n].0, rs[n].0))
  {
    if n < |rs| - 1 {
      SynthesiseEightK(q, rs[..|rs| - 1], n);
    }
  }

  /** The decoded low band is a fifteen-bit number. */
  lemma ReceivedIsLimited(rate: Rate, eightK: bool, bands: Bands, xs: seq<(int16, int16)>, n: nat)
    requires n < |xs|
    ensures -0x4000 <= Received(rate, eightK, bands, xs)[n].0 <= 0x3FFF
  {
    hide EncodeStep, DecodeHigh, Q15, Block4, TableValue, Rescaled, EncodeBands, DecodeBands, Received;
    ReceivedAt(rate, eightK, bands, xs, n);
  }
}
