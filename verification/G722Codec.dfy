/** The G.722 encoder and decoder (jni/spandsp/g722.c) as streams: band splitting, sub-band coding
    at the three rates, and their inverses. The encoder's and the decoder's band states are shown to
    move in lockstep, and the decoded low band to stay within one quantiser cell. */
module G722Codec {
  import opened FixedPoint
  import opened G722Band
  import opened G722Quantiser
  import Bits

  datatype Bands = Bands(low: Band, high: Band)

  const RESET := Bands(InitialBand(32), InitialBand(8))

  /** What holds of a band pair in every reachable state of either direction. */
  predicate Reachable(bands: Bands) {
    && Adapted(bands.low, LOW_LIMIT, LOW_BASE) && Stable(bands.low)
    && Adapted(bands.high, HIGH_LIMIT, HIGH_BASE) && Stable(bands.high)
  }

  lemma ResetIsReachable()
    ensures Reachable(RESET)
  {
    hide Scale;
    InitialScales();
  }

  // ----- adaptation from a code word

  function LowWeight(ril: int): (w: int)
    requires 0 <= ril < 16
    ensures -60 <= w <= 3042
  {
    WL[RL42[ril]]
  }

  function HighWeight(ihigh: int): (w: int)
    requires 0 <= ihigh < 4
    ensures -214 <= w <= 798
  {
    WH[RH2[ihigh]]
  }

  /** The weight of every quantiser level, on either side of zero. */
  lemma LowWeightByLevel(el: int16, level: nat)
    requires 1 <= level <= 30
    ensures LowWeight(LowCode(el, level) / 4)
         == if level <= 2 then -60 else if level <= 6 then -30 else if level <= 10 then 58
            else if level <= 14 then 172 else if level <= 18 then 334 else if level <= 22 then 538
            else if level <= 26 then 1198 else 3042
  {
    hide LowCode;
    var ril := LowCode(el, level) / 4;
    assert ril == if level <= 2 then 15 else if el >= 0 then (62 - level) / 4 else (34 - level) / 4;
  }

  /** The step size is raised the more, the larger the difference is. */
  lemma LowWeightGrows(el1: int16, el2: int16, det: int16)
    requires Magnitude(el1) <= Magnitude(el2)
    ensures LowWeight(LowCode(el1, Level(Magnitude(el1), det)) / 4)
         <= LowWeight(LowCode(el2, Level(Magnitude(el2), det)) / 4)
  {
    hide LowCode, LowWeight, LevelFrom;
    LevelGrows(Magnitude(el1), Magnitude(el2), det, 1);
    LowWeightByLevel(el1, Level(Magnitude(el1), det));
    LowWeightByLevel(el2, Level(Magnitude(el2), det));
  }

  /** In the high band a difference inside the decision level lowers the step size, any other raises it. */
  lemma HighWeightByLevel(eh: int16, det: int16)
    ensures HighWeight(HighCode(eh, det)) == if Magnitude(eh) < HighThreshold(det) then -214 else 798
  {
    hide HighThreshold;
  }

  /** The difference value that both directions feed to the low band's predictor: four bits of the
      code, at every rate. */
  function LowDifference(det: int16, ril: int): int16
    requires 0 <= ril < 16
  {
    ToInt16(Q15(det, Qm4(ril)))
  }

  function HighDifference(det: int16, ihigh: int): int16
    requires 0 <= ihigh < 4
  {
    ToInt16(Q15(det, Qm2(ihigh)))
  }

  function Rescaled(band: Band, nb: int16, base: nat): Band
    requires base <= 10 && 0 <= nb
  {
    band.(nb := nb, det := Scale(nb, base))
  }

  // ----- the encoder's sub-bands

  /** Blocks 1L, 2L, 3L and the predictor: the new low band and the six-bit code. */
  function EncodeLow(low: Band, xlow: int16): (r: (Band, int))
    ensures 4 <= r.1 <= 63
  {
    hide Scale, Block4, Level, Q15;
    var el := SatSub(xlow, low.s);
    var ilow := LowCode(el, Level(Magnitude(el), low.det));
    var ril := ilow / 4;
    var nb := EncodedLog(low.nb, LowWeight(ril), LOW_LIMIT);
    (Block4(Rescaled(low, nb, LOW_BASE), LowDifference(low.det, ril)), ilow)
  }

  function EncodeHigh(high: Band, xhigh: int16): (r: (Band, int))
    ensures 0 <= r.1 < 4
  {
    hide Scale, Block4, Q15;
    var ihigh := HighCode(SatSub(xhigh, high.s), high.det);
    var nb := EncodedLog(high.nb, HighWeight(ihigh), HIGH_LIMIT);
    (Block4(Rescaled(high, nb, HIGH_BASE), HighDifference(high.det, ihigh)), ihigh)
  }

  /** The transmitted code: two high-band bits above six low-band bits, cut to the rate. */
  function Compose(rate: Rate, ihigh: int, ilow: int): (code: byte)
    requires 0 <= ihigh < 4 && 0 <= ilow < 64
    ensures code < Pow2(rate)
    ensures code == (64 * ihigh + ilow) / (if rate == 8 then 1 else if rate == 7 then 2 else 4)
  {
    assert Pow2(6) == 64 && Pow2(7) == 128 && Pow2(8) == 256;
    FieldsAreDisjoint(ihigh, ilow);
    var fields := Bits.BitOr(ihigh * 64, ilow);
    if rate == 8 then fields else if rate == 7 then fields / 2 else fields / 4
  }

  lemma FieldsAreDisjoint(ihigh: nat, ilow: nat)
    requires ilow < 64
    ensures Bits.BitOr(ihigh * 64, ilow) == 64 * ihigh + ilow
  {
    hide Bits.BitOr;
    assert Pow2(6) == 64;
    Bits.OrIsSum(ilow, 6, ihigh);
    Bits.OrCommutes(ihigh * 64, ilow);
  }

  /** One code word. In the 8 kHz mode the two high bits are set and the high band rests. */
  function EncodeStep(rate: Rate, eightK: bool, bands: Bands, x: (int16, int16)): (r: (Bands, byte))
    ensures r.1 < Pow2(rate)
  {
    hide EncodeLow, EncodeHigh, Compose;
    var (low, ilow) := EncodeLow(bands.low, x.0);
    if eightK then (Bands(low, bands.high), Compose(rate, 3, ilow))
    else
      var (high, ihigh) := EncodeHigh(bands.high, x.1);
      (Bands(low, high), Compose(rate, ihigh, ilow))
  }

  /** Where the bits of a code word are: the high band's two on top, the upper bits of the low band's six below
      them, and both high bits set in the 8 kHz mode. */
  lemma CodeLayout(rate: Rate, eightK: bool, bands: Bands, x: (int16, int16))
    ensures FieldsAre(rate, EncodeStep(rate, eightK, bands, x).1,
                      if eightK then 3 else EncodeHigh(bands.high, x.1).1, EncodeLow(bands.low, x.0).1)
  {
    hide EncodeLow, EncodeHigh, Compose, FieldsAre;
    ComposeLayout(rate, if eightK then 3 else EncodeHigh(bands.high, x.1).1, EncodeLow(bands.low, x.0).1);
  }

  /** The bits of `high` on top of those bits of `low` that the rate leaves room for. */
  predicate FieldsAre(rate: Rate, code: byte, high: int, low: int) {
    if rate == 8 then code / 64 == high && code % 64 == low
    else if rate == 7 then code / 32 == high && code % 32 == low / 2
    else code / 16 == high && code % 16 == low / 4
  }

  lemma ComposeLayout(rate: Rate, high: int, low: int)
    requires 0 <= high < 4 && 0 <= low < 64
    ensures FieldsAre(rate, Compose(rate, high, low), high, low)
  {
    hide Compose, Pow2;
    LayoutOfFields(high, low);
  }

  lemma LayoutOfFields(high: nat, low: nat)
    requires high < 4 && low < 64
    ensures var fields := 64 * high + low;
            && fields / 64 == high && fields % 64 == low
            && fields / 2 / 32 == high && fields / 2 % 32 == low / 2
            && fields / 4 / 16 == high && fields / 4 % 16 == low / 4
  {
  }

  function EncodeBands(rate: Rate, eightK: bool, bands: Bands, xs: seq<(int16, int16)>): (r: (Bands, seq<byte>))
    ensures |r.1| == |xs|
  {
    hide EncodeStep;
    if xs == [] then (bands, [])
    else
      var (bands1, codes) := EncodeBands(rate, eightK, bands, xs[..|xs| - 1]);
      var (bands2, code) := EncodeStep(rate, eightK, bands1, xs[|xs| - 1]);
      (bands2, codes + [code])
  }

  // ----- the decoder's sub-bands

  /** The low-band bits of a code word, as an index of the rate's own table and of `QM4`. */
  function LowIndex(rate: Rate, code: byte): (r: int)
    ensures 0 <= r < 64
  {
    if rate == 8 then code % 64 else if rate == 7 then code % 32 else code % 16
  }

  function LowFour(rate: Rate, code: byte): (r: int)
    ensures 0 <= r < 16
  {
    if rate == 8 then LowIndex(rate, code) / 4
    else if rate == 7 then LowIndex(rate, code) / 2
    else LowIndex(rate, code)
  }

  function HighTwo(rate: Rate, code: byte): (r: int)
    ensures 0 <= r < 4
  {
    if rate == 8 then code / 64 % 4 else if rate == 7 then code / 32 % 4 else code / 16 % 4
  }

  function TableValue(rate: Rate, code: byte): int {
    var i := LowIndex(rate, code);
    if rate == 8 then Qm6(i) else if rate == 7 then Qm5(i) else Qm4(i)
  }

  function DecodeLow(low: Band, rate: Rate, code: byte): (Band, int16) {
    hide Scale, Block4, Q15;
    var rlow := Saturate15(low.s + Q15(low.det, TableValue(rate, code)));
    var ril := LowFour(rate, code);
    var nb := DecodedLog(low.nb, LowWeight(ril), LOW_LIMIT);
    (Block4(Rescaled(low, nb, LOW_BASE), LowDifference(low.det, ril)), rlow)
  }

  function DecodeHigh(high: Band, rate: Rate, code: byte): (Band, int16) {
    hide Scale, Block4, Q15;
    var ihigh := HighTwo(rate, code);
    var dhigh := HighDifference(high.det, ihigh);
    var rhigh := Saturate15(dhigh + high.s);
    var nb := DecodedLog(high.nb, HighWeight(ihigh), HIGH_LIMIT);
    (Block4(Rescaled(high, nb, HIGH_BASE), dhigh), rhigh)
  }

  function DecodeStep(rate: Rate, eightK: bool, bands: Bands, code: byte): (Bands, (int16, int16)) {
    hide DecodeLow, DecodeHigh;
    var (low, rlow) := DecodeLow(bands.low, rate, code);
    if eightK then (Bands(low, bands.high), (rlow, 0))
    else
      var (high, rhigh) := DecodeHigh(bands.high, rate, code);
      (Bands(low, high), (rlow, rhigh))
  }

  function DecodeBands(rate: Rate, eightK: bool, bands: Bands, codes: seq<byte>): (r: (Bands, seq<(int16, int16)>))
    ensures |r.1| == |codes|
  {
    hide DecodeStep;
    if codes == [] then (bands, [])
    else
      var (bands1, rs) := DecodeBands(rate, eightK, bands, codes[..|codes| - 1]);
      var (bands2, r) := DecodeStep(rate, eightK, bands1, codes[|codes| - 1]);
      (bands2, rs + [r])
  }

  // ----- every reachable state is adapted and stable

  lemma EncodeLowReachable(low: Band, xlow: int16)
    ensures Adapted(EncodeLow(low, xlow).0, LOW_LIMIT, LOW_BASE) && Stable(EncodeLow(low, xlow).0)
  {
    hide Scale, Block4, Level, Q15, Stable, LowCode, LowDifference, LowWeight, SatSub, ToInt16;
    var el := SatSub(xlow, low.s);
    var ril := LowCode(el, Level(Magnitude(el), low.det)) / 4;
    var nb := EncodedLog(low.nb, LowWeight(ril), LOW_LIMIT);
    Block4IsStable(Rescaled(low, nb, LOW_BASE), LowDifference(low.det, ril));
  }

  lemma EncodeHighReachable(high: Band, xhigh: int16)
    ensures Adapted(EncodeHigh(high, xhigh).0, HIGH_LIMIT, HIGH_BASE) && Stable(EncodeHigh(high, xhigh).0)
  {
    hide Scale, Block4, Q15, Stable, HighCode, HighDifference, HighWeight, SatSub, ToInt16;
    var ihigh := HighCode(SatSub(xhigh, high.s), high.det);
    var nb := EncodedLog(high.nb, HighWeight(ihigh), HIGH_LIMIT);
    Block4IsStable(Rescaled(high, nb, HIGH_BASE), HighDifference(high.det, ihigh));
  }

  /** Over every run of the encoder the predictors stay inside their stability region, the
      logarithms inside their ranges and the step sizes equal to their table values. */
  lemma {:induction false} EncoderInvariant(rate: Rate, eightK: bool, bands: Bands, xs: seq<(int16, int16)>)
    requires Reachable(bands)
    ensures Reachable(EncodeBands(rate, eightK, bands, xs).0)
  {
    hide EncodeLow, EncodeHigh, Compose, Adapted, Stable;
    if xs != [] {
      EncoderInvariant(rate, eightK, bands, xs[..|xs| - 1]);
      var mid := EncodeBands(rate, eightK, bands, xs[..|xs| - 1]).0;
      EncodeLowReachable(mid.low, xs[|xs| - 1].0);
      EncodeHighReachable(mid.high, xs[|xs| - 1].1);
    }
  }

  lemma DecodeLowReachable(low: Band, rate: Rate, code: byte)
    ensures Adapted(DecodeLow(low, rate, code).0, LOW_LIMIT, LOW_BASE) && Stable(DecodeLow(low, rate, code).0)
  {
    hide Scale, Block4, Q15, Stable, TableValue, LowFour, LowDifference, LowWeight, ToInt16, Saturate15;
    var ril := LowFour(rate, code);
    var nb := DecodedLog(low.nb, LowWeight(ril), LOW_LIMIT);
    ClampedLog(low.nb, LowWeight(ril), LOW_LIMIT);
    Block4IsStable(Rescaled(low, nb, LOW_BASE), LowDifference(low.det, ril));
  }

  lemma DecodeHighReachable(high: Band, rate: Rate, code: byte)
    ensures Adapted(DecodeHigh(high, rate, code).0, HIGH_LIMIT, HIGH_BASE) && Stable(DecodeHigh(high, rate, code).0)
  {
    hide Scale, Block4, Q15, Stable, HighTwo, HighDifference, HighWeight, ToInt16, Saturate15;
    var ihigh := HighTwo(rate, code);
    var nb := DecodedLog(high.nb, HighWeight(ihigh), HIGH_LIMIT);
    ClampedLog(high.nb, HighWeight(ihigh), HIGH_LIMIT);
    Block4IsStable(Rescaled(high, nb, HIGH_BASE), HighDifference(high.det, ihigh));
  }

  lemma ClampedLog(nb: int16, w: int, limit: int16)
    requires 0 <= limit
    ensures 0 <= DecodedLog(nb, w, limit) <= limit
  {
  }

  /** The same over every run of the decoder, whatever bytes it is given: also lost, corrupted or
      invented ones. */
  lemma {:induction false} DecoderInvariant(rate: Rate, eightK: bool, bands: Bands, codes: seq<byte>)
    requires Reachable(bands)
    ensures Reachable(DecodeBands(rate, eightK, bands, codes).0)
  {
    hide DecodeLow, DecodeHigh, Adapted, Stable;
    if codes != [] {
      DecoderInvariant(rate, eightK, bands, codes[..|codes| - 1]);
      var mid := DecodeBands(rate, eightK, bands, codes[..|codes| - 1]).0;
      DecodeLowReachable(mid.low, rate, codes[|codes| - 1]);
      DecodeHighReachable(mid.high, rate, codes[|codes| - 1]);
    }
  }

  /** In every reachable state the step sizes lie in [32, 16384] and [8, 16384]. */
  lemma ReachableScales(bands: Bands)
    requires Reachable(bands)
    ensures 32 <= bands.low.det <= 16384 && 8 <= bands.high.det <= 16384
  {
    hide Scale;
    ScaleRange(bands.low.nb);
    ScaleRange(bands.high.nb);
  }

  // ----- every update of a run is exact

  /** One low-band step over unbounded integers: the difference and the logarithm fit sixteen bits, the
      step size is its table value without wrap, and the predictor update loses nothing. */
  predicate LowExact(before: Band, ril: int, after: Band)
    requires 0 <= ril < 16
  {
    var dx := Q15(before.det, Qm4(ril));
    && IsInt16(dx)
    && after.nb == Clamp(0, before.nb * 127 / 128 + LowWeight(ril), LOW_LIMIT)
    && after.det == Step(after.nb / 2048, after.nb / 64 % 32, LOW_BASE)
    && Lossless(before.(nb := after.nb, det := after.det), dx, after)
  }

  predicate HighExact(before: Band, ihigh: int, after: Band)
    requires 0 <= ihigh < 4
  {
    var dx := Q15(before.det, Qm2(ihigh));
    && IsInt16(dx)
    && after.nb == Clamp(0, before.nb * 127 / 128 + HighWeight(ihigh), HIGH_LIMIT)
    && after.det == Step(after.nb / 2048, after.nb / 64 % 32, HIGH_BASE)
    && Lossless(before.(nb := after.nb, det := after.det), dx, after)
  }

  lemma Qm4Fits(ril: nat)
    requires ril < 16
    ensures Abs(Qm4(ril)) <= 20456
  {
  }

  lemma Qm2Fits(ihigh: nat)
    requires ihigh < 4
    ensures Abs(Qm2(ihigh)) <= 7408
  {
  }

  lemma LowStepIsExact(low: Band, ril: int, nb: int16)
    requires 0 <= ril < 16 && 0 <= low.nb <= LOW_LIMIT && Stable(low)
    requires nb == EncodedLog(low.nb, LowWeight(ril), LOW_LIMIT) || nb == DecodedLog(low.nb, LowWeight(ril), LOW_LIMIT)
    ensures 0 <= nb
    ensures LowExact(low, ril, Block4(Rescaled(low, nb, LOW_BASE), LowDifference(low.det, ril)))
  {
    hide Scale, Block4, Lossless, Qm4, LowWeight, EncodedLog, DecodedLog, Step;
    LogsAgree(low.nb, LowWeight(ril), LOW_LIMIT);
    Qm4Fits(ril);
    Q15Bound(Qm4(ril), low.det, 20456, 0x8000);
    Q15Commutes(low.det, Qm4(ril));
    ScaleIsStep(nb, LOW_BASE);
    Block4IsExact(Rescaled(low, nb, LOW_BASE), LowDifference(low.det, ril));
  }

  lemma HighStepIsExact(high: Band, ihigh: int, nb: int16)
    requires 0 <= ihigh < 4 && 0 <= high.nb <= HIGH_LIMIT && Stable(high)
    requires nb == EncodedLog(high.nb, HighWeight(ihigh), HIGH_LIMIT)
          || nb == DecodedLog(high.nb, HighWeight(ihigh), HIGH_LIMIT)
    ensures 0 <= nb
    ensures HighExact(high, ihigh, Block4(Rescaled(high, nb, HIGH_BASE), HighDifference(high.det, ihigh)))
  {
    hide Scale, Block4, Lossless, Qm2, HighWeight, EncodedLog, DecodedLog, Step;
    LogsAgree(high.nb, HighWeight(ihigh), HIGH_LIMIT);
    Qm2Fits(ihigh);
    Q15Bound(Qm2(ihigh), high.det, 7408, 0x8000);
    Q15Commutes(high.det, Qm2(ihigh));
    ScaleIsStep(nb, HIGH_BASE);
    Block4IsExact(Rescaled(high, nb, HIGH_BASE), HighDifference(high.det, ihigh));
  }

  lemma Q15Commutes(a: int, b: int)
    ensures Q15(a, b) == Q15(b, a)
  {
    assert a * b == b * a;
  }

  /** The step that a code word takes both bands through. */
  predicate BandsExact(rate: Rate, eightK: bool, before: Bands, code: byte, after: Bands) {
    && LowExact(before.low, LowFour(rate, code), after.low)
    && (if eightK then after.high == before.high else HighExact(before.high, HighTwo(rate, code), after.high))
  }

  lemma DecodeStepIsExact(rate: Rate, eightK: bool, bands: Bands, code: byte)
    requires Reachable(bands)
    ensures BandsExact(rate, eightK, bands, code, DecodeStep(rate, eightK, bands, code).0)
  {
    hide Scale, Block4, LowExact, HighExact, Q15, TableValue, LowFour, HighTwo, LowDifference, HighDifference,
         LowWeight, HighWeight, DecodedLog, EncodedLog, Rescaled, Stable, Saturate15;
    ClampedLog(bands.low.nb, LowWeight(LowFour(rate, code)), LOW_LIMIT);
    ClampedLog(bands.high.nb, HighWeight(HighTwo(rate, code)), HIGH_LIMIT);
    LowStepIsExact(bands.low, LowFour(rate, code),
                   DecodedLog(bands.low.nb, LowWeight(LowFour(rate, code)), LOW_LIMIT));
    HighStepIsExact(bands.high, HighTwo(rate, code),
                    DecodedLog(bands.high.nb, HighWeight(HighTwo(rate, code)), HIGH_LIMIT));
  }

  /** On every byte stream, at every rate and at every code, the decoder's updates are exact. */
  lemma DecoderIsExact(rate: Rate, eightK: bool, bands: Bands, codes: seq<byte>, n: nat)
    requires Reachable(bands) && n < |codes|
    ensures BandsExact(rate, eightK, DecodeBands(rate, eightK, bands, codes[..n]).0, codes[n],
                       DecodeBands(rate, eightK, bands, codes[..n + 1]).0)
  {
    hide DecodeStep, Reachable, BandsExact;
    DecoderInvariant(rate, eightK, bands, codes[..n]);
    DecodeStepIsExact(rate, eightK, DecodeBands(rate, eightK, bands, codes[..n]).0, codes[n]);
    assert codes[..n + 1][..n] == codes[..n];
  }

  // ----- the predictors work on the latest differences

  function BandOf(bands: Bands, high: bool): Band {
    if high then bands.high else bands.low
  }

  /** The difference that a code feeds to the low or the high band. */
  function Difference(rate: Rate, bands: Bands, code: byte, high: bool): int16 {
    if high then HighDifference(bands.high.det, HighTwo(rate, code))
    else LowDifference(bands.low.det, LowFour(rate, code))
  }

  /** The band that an update starts from: only its scale has changed. */
  function Updating(rate: Rate, bands: Bands, code: byte, high: bool): (band: Band)
    ensures band == BandOf(bands, high).(nb := band.nb, det := band.det)
  {
    hide LowFour, HighTwo, LowWeight, HighWeight, DecodedLog, Scale;
    ClampedLog(bands.low.nb, LowWeight(LowFour(rate, code)), LOW_LIMIT);
    ClampedLog(bands.high.nb, HighWeight(HighTwo(rate, code)), HIGH_LIMIT);
    if high then Rescaled(bands.high, DecodedLog(bands.high.nb, HighWeight(HighTwo(rate, code)), HIGH_LIMIT), HIGH_BASE)
    else Rescaled(bands.low, DecodedLog(bands.low.nb, LowWeight(LowFour(rate, code)), LOW_LIMIT), LOW_BASE)
  }

  lemma StepIsUpdate(rate: Rate, eightK: bool, bands: Bands, code: byte, high: bool)
    requires !(eightK && high)
    ensures BandOf(DecodeStep(rate, eightK, bands, code).0, high)
         == Block4(Updating(rate, bands, code, high), Difference(rate, bands, code, high))
  {
    hide Block4, Rescaled, Q15, DecodedLog, LowWeight, HighWeight, LowFour, HighTwo, LowDifference, HighDifference,
         TableValue, Saturate15;
    ClampedLog(bands.low.nb, LowWeight(LowFour(rate, code)), LOW_LIMIT);
    ClampedLog(bands.high.nb, HighWeight(HighTwo(rate, code)), HIGH_LIMIT);
  }

  /** The difference `i` codes back from the end of a run from reset, or silence. */
  function Latest(rate: Rate, eightK: bool, codes: seq<byte>, high: bool, i: nat): int16 {
    if i < |codes| then
      var n := |codes| - 1 - i;
      Difference(rate, DecodeBands(rate, eightK, RESET, codes[..n]).0, codes[n], high)
    else 0
  }

  /** In every run of a fresh decoder each delay line holds the latest differences, newest first. */
  lemma {:induction false} DelayLineIsHistory(rate: Rate, eightK: bool, codes: seq<byte>, high: bool, i: nat)
    requires 1 <= i < 7 && !(eightK && high)
    ensures BandOf(DecodeBands(rate, eightK, RESET, codes).0, high).d[i] == Latest(rate, eightK, codes, high, i - 1)
  {
    hide DecodeStep, Difference, Updating, Block4;
    if codes != [] {
      var n := |codes| - 1;
      var bands := DecodeBands(rate, eightK, RESET, codes[..n]).0;
      StepIsUpdate(rate, eightK, bands, codes[n], high);
      Block4Delays(Updating(rate, bands, codes[n], high), Difference(rate, bands, codes[n], high));
      if i > 1 {
        DelayLineIsHistory(rate, eightK, codes[..n], high, i - 1);
        if i <= |codes| {
          assert codes[..n][..|codes| - i] == codes[..|codes| - i];
        }
      }
    }
  }

  /** No difference reaches half scale. */
  lemma LatestIsSmall(rate: Rate, eightK: bool, codes: seq<byte>, high: bool, i: nat)
    ensures -0x4000 <= Latest(rate, eightK, codes, high, i) < 0x4000
  {
    hide Reachable, DecodeBands, LowFour, HighTwo, LowDifference, HighDifference;
    if i < |codes| {
      var n := |codes| - 1 - i;
      var bands := DecodeBands(rate, eightK, RESET, codes[..n]).0;
      ResetIsReachable();
      DecoderInvariant(rate, eightK, RESET, codes[..n]);
      ReachableScales(bands);
      DifferencesAreSmall(bands.low.det, LowFour(rate, codes[n]), bands.high.det, HighTwo(rate, codes[n]));
    }
  }

  lemma DifferencesAreSmall(lowDet: int16, ril: int, highDet: int16, ihigh: int)
    requires 0 <= lowDet <= 16384 && 0 <= highDet <= 16384 && 0 <= ril < 16 && 0 <= ihigh < 4
    ensures -0x4000 <= LowDifference(lowDet, ril) < 0x4000
    ensures -0x4000 <= HighDifference(highDet, ihigh) < 0x4000
  {
    hide Qm4, Qm2;
    Qm4Fits(ril);
    Qm2Fits(ihigh);
    MulBound(lowDet, Qm4(ril), 16384, 20456);
    MulBound(highDet, Qm2(ihigh), 16384, 7408);
  }

  /** Over every run of a fresh decoder, of any bytes, after every code and in either band: the zero
      section predicts from the six latest differences, and the pole section from the two latest
      reconstructed samples, each the sum of a prediction and its difference. */
  lemma DecoderPredicts(rate: Rate, eightK: bool, codes: seq<byte>, high: bool)
    requires codes != [] && !(eightK && high)
    ensures var before := BandOf(DecodeBands(rate, eightK, RESET, codes[..|codes| - 1]).0, high);
            var after := BandOf(DecodeBands(rate, eightK, RESET, codes).0, high);
            && after.sz == Clamp(-0x8000,
                                 Q14(after.b[0], Latest(rate, eightK, codes, high, 0))
                                 + Q14(after.b[1], Latest(rate, eightK, codes, high, 1))
                                 + Q14(after.b[2], Latest(rate, eightK, codes, high, 2))
                                 + Q14(after.b[3], Latest(rate, eightK, codes, high, 3))
                                 + Q14(after.b[4], Latest(rate, eightK, codes, high, 4))
                                 + Q14(after.b[5], Latest(rate, eightK, codes, high, 5)),
                                 0x7FFF)
            && after.r == Clamp(-0x8000, before.s + Latest(rate, eightK, codes, high, 0), 0x7FFF)
            && after.s == Clamp(-0x8000,
                                Clamp(-0x8000, DoubledTap(after.a0, after.r) + DoubledTap(after.a1, before.r), 0x7FFF)
                                + after.sz,
                                0x7FFF)
  {
    hide DecodeStep, Difference, Updating, Block4, Latest, Q14, DoubledTap, Reachable;
    var n := |codes| - 1;
    var bands := DecodeBands(rate, eightK, RESET, codes[..n]).0;
    var start, dx := Updating(rate, bands, codes[n], high), Difference(rate, bands, codes[n], high);
    StepIsUpdate(rate, eightK, bands, codes[n], high);
    NewestIs(rate, eightK, codes, high);
    Block4AddsPoles(start, dx);
    LatestIsSmall(rate, eightK, codes, high, 0);
    forall i | 1 <= i < 6
      ensures start.d[i] == Latest(rate, eightK, codes, high, i) && -0x4000 <= start.d[i] < 0x4000
    {
      DelayLineIsHistory(rate, eightK, codes[..n], high, i);
      LatestIsSmall(rate, eightK, codes, high, i);
      OneEarlier(rate, eightK, codes, high, i);
    }
    Block4AddsZeros(start, dx);
  }

  lemma NewestIs(rate: Rate, eightK: bool, codes: seq<byte>, high: bool)
    requires codes != []
    ensures var n := |codes| - 1;
            Latest(rate, eightK, codes, high, 0)
            == Difference(rate, DecodeBands(rate, eightK, RESET, codes[..n]).0, codes[n], high)
  {
  }

  lemma OneEarlier(rate: Rate, eightK: bool, codes: seq<byte>, high: bool, i: nat)
    requires codes != [] && i > 0
    ensures Latest(rate, eightK, codes[..|codes| - 1], high, i - 1) == Latest(rate, eightK, codes, high, i)
  {
    hide DecodeBands, Difference;
    if i < |codes| {
      assert codes[..|codes| - 1][..|codes| - 1 - i] == codes[..|codes| - 1 - i];
    }
  }

  // ----- lockstep

  lemma {:induction false} CodesFitRate(rate: Rate, eightK: bool, bands: Bands, xs: seq<(int16, int16)>, k: nat)
    requires k < |xs|
    ensures EncodeBands(rate, eightK, bands, xs).1[k] < Pow2(rate)
  {
    hide EncodeStep, Pow2;
    if k < |xs| - 1 {
      CodesFitRate(rate, eightK, bands, xs[..|xs| - 1], k);
    }
  }

  lemma SplitFields(h: nat, l: nat)
    requires h < 4 && l < 64
    ensures (64 * h + l) % 64 == l && (64 * h + l) / 64 % 4 == h
    ensures (64 * h + l) / 2 % 32 == l / 2 && (64 * h + l) / 2 / 32 % 4 == h
    ensures (64 * h + l) / 4 % 16 == l / 4 && (64 * h + l) / 4 / 16 % 4 == h
    ensures l / 2 / 2 == l / 4
  {
    assert (64 * h + l) / 2 == 32 * h + l / 2;
    assert (64 * h + l) / 4 == 16 * h + l / 4;
  }

  /** The decoder reads back the bits that the encoder adapted from, at every rate. */
  lemma FieldsSurvive(rate: Rate, ihigh: int, ilow: int)
    requires 0 <= ihigh < 4 && 0 <= ilow < 64
    ensures LowFour(rate, Compose(rate, ihigh, ilow)) == ilow / 4
    ensures HighTwo(rate, Compose(rate, ihigh, ilow)) == ihigh
    ensures TableValue(rate, Compose(rate, ihigh, ilow)) == LowValue(rate, ilow)
  {
    hide Compose, Qm4, Qm5, Qm6;
    SplitFields(ihigh, ilow);
  }

  lemma LowLockstep(low: Band, xlow: int16, rate: Rate, ihigh: int)
    requires 0 <= ihigh < 4 && 0 <= low.nb <= LOW_LIMIT
    ensures var (low1, ilow) := EncodeLow(low, xlow);
            DecodeLow(low, rate, Compose(rate, ihigh, ilow)).0 == low1
  {
    hide Scale, Block4, Level, Q15, LowCode, LowDifference, LowWeight, SatSub, ToInt16, Compose, LowFour, TableValue,
         EncodedLog, DecodedLog, Saturate15;
    var ilow := EncodeLow(low, xlow).1;
    FieldsSurvive(rate, ihigh, ilow);
    LogsAgree(low.nb, LowWeight(ilow / 4), LOW_LIMIT);
  }

  lemma HighLockstep(high: Band, xhigh: int16, rate: Rate, ilow: int)
    requires 0 <= ilow < 64 && 0 <= high.nb <= HIGH_LIMIT
    ensures var (high1, ihigh) := EncodeHigh(high, xhigh);
            DecodeHigh(high, rate, Compose(rate, ihigh, ilow)).0 == high1
  {
    hide Scale, Block4, Q15, HighCode, HighDifference, HighWeight, SatSub, ToInt16, Compose, HighTwo,
         EncodedLog, DecodedLog, Saturate15;
    var ihigh := EncodeHigh(high, xhigh).1;
    FieldsSurvive(rate, ihigh, ilow);
    LogsAgree(high.nb, HighWeight(ihigh), HIGH_LIMIT);
  }

  lemma StepLockstep(rate: Rate, eightK: bool, bands: Bands, x: (int16, int16))
    requires Reachable(bands)
    ensures var (bands1, code) := EncodeStep(rate, eightK, bands, x);
            DecodeStep(rate, eightK, bands, code).0 == bands1
  {
    hide EncodeLow, EncodeHigh, DecodeLow, DecodeHigh, Compose, Scale, Stable;
    var ilow := EncodeLow(bands.low, x.0).1;
    var ihigh := EncodeHigh(bands.high, x.1).1;
    LowLockstep(bands.low, x.0, rate, if eightK then 3 else ihigh);
    HighLockstep(bands.high, x.1, rate, ilow);
  }

  /** On every input, at every rate and at every sample, the encoder's updates are exact. */
  lemma EncoderIsExact(rate: Rate, eightK: bool, bands: Bands, xs: seq<(int16, int16)>, n: nat)
    requires Reachable(bands) && n < |xs|
    ensures BandsExact(rate, eightK, EncodeBands(rate, eightK, bands, xs[..n]).0,
                       EncodeBands(rate, eightK, bands, xs).1[n], EncodeBands(rate, eightK, bands, xs[..n + 1]).0)
  {
    hide EncodeStep, DecodeStep, Reachable, BandsExact;
    EncoderInvariant(rate, eightK, bands, xs[..n]);
    var mid := EncodeBands(rate, eightK, bands, xs[..n]).0;
    var (next, code) := EncodeStep(rate, eightK, mid, xs[n]);
    StepLockstep(rate, eightK, mid, xs[n]);
    DecodeStepIsExact(rate, eightK, mid, code);
    assert xs[..n + 1][..n] == xs[..n];
    EncodePrefix(rate, eightK, bands, xs, n + 1);
    assert EncodeBands(rate, eightK, bands, xs[..n + 1]).1[n] == code;
  }

  /** After any number of codes the decoder's two bands equal the encoder's, at all three rates. */
  lemma {:induction false} Lockstep(rate: Rate, eightK: bool, bands: Bands, xs: seq<(int16, int16)>)
    requires Reachable(bands)
    ensures var (bands1, codes) := EncodeBands(rate, eightK, bands, xs);
            DecodeBands(rate, eightK, bands, codes).0 == bands1
  {
    hide EncodeStep, DecodeStep, Reachable;
    if xs != [] {
      var init := xs[..|xs| - 1];
      Lockstep(rate, eightK, bands, init);
      EncoderInvariant(rate, eightK, bands, init);
      var (mid, codes) := EncodeBands(rate, eightK, bands, init);
      StepLockstep(rate, eightK, mid, xs[|xs| - 1]);
      var code := EncodeStep(rate, eightK, mid, xs[|xs| - 1]).1;
      assert (codes + [code])[..|codes + [code]| - 1] == codes;
    }
  }

  /** The low band stays in step even when only one side runs in its 8 kHz mode. */
  lemma {:induction false} MixedModeLockstep(rate: Rate, encoder8K: bool, decoder8K: bool, bands: Bands,
                                             xs: seq<(int16, int16)>)
    requires Reachable(bands)
    ensures var (bands1, codes) := EncodeBands(rate, encoder8K, bands, xs);
            DecodeBands(rate, decoder8K, bands, codes).0.low == bands1.low
  {
    hide EncodeLow, EncodeHigh, DecodeLow, DecodeHigh, Compose, Scale, Stable;
    if xs != [] {
      var init, x := xs[..|xs| - 1], xs[|xs| - 1];
      MixedModeLockstep(rate, encoder8K, decoder8K, bands, init);
      EncoderInvariant(rate, encoder8K, bands, init);
      var (mid, codes) := EncodeBands(rate, encoder8K, bands, init);
      LowLockstep(mid.low, x.0, rate, if encoder8K then 3 else EncodeHigh(mid.high, x.1).1);
      var code := EncodeStep(rate, encoder8K, mid, x).1;
      assert (codes + [code])[..|codes + [code]| - 1] == codes;
    }
  }

  // ----- a prefix of the codes comes from a prefix of the input

  lemma {:induction false} EncodePrefix(rate: Rate, eightK: bool, bands: Bands, xs: seq<(int16, int16)>, n: nat)
    requires n <= |xs|
    ensures EncodeBands(rate, eightK, bands, xs[..n]).1 == EncodeBands(rate, eightK, bands, xs).1[..n]
  {
    hide EncodeStep;
    if n == |xs| {
      assert xs[..n] == xs;
    } else {
      var init := xs[..|xs| - 1];
      EncodePrefix(rate, eightK, bands, init, n);
      assert init[..n] == xs[..n];
    }
  }

  lemma {:induction false} DecodePrefix(rate: Rate, eightK: bool, bands: Bands, codes: seq<byte>, n: nat)
    requires n <= |codes|
    ensures DecodeBands(rate, eightK, bands, codes[..n]).1 == DecodeBands(rate, eightK, bands, codes).1[..n]
  {
    hide DecodeStep;
    if n == |codes| {
      assert codes[..n] == codes;
    } else {
      var init := codes[..|codes| - 1];
      DecodePrefix(rate, eightK, bands, init, n);
      assert init[..n] == codes[..n];
    }
  }

  // ----- end-to-end error of the low band

  lemma StepError(rate: Rate, eightK: bool, bands: Bands, x: (int16, int16))
    requires Reachable(bands) && -0x4000 <= x.0 <= 0x3FFF
    requires NotOverloaded(rate, Level(Magnitude(SatSub(x.0, bands.low.s)), bands.low.det))
    ensures var level := Level(Magnitude(SatSub(x.0, bands.low.s)), bands.low.det);
            var code := EncodeStep(rate, eightK, bands, x).1;
            Distance(DecodeStep(rate, eightK, bands, code).1.0, x.0) <= CellWidth(rate, level, bands.low.det)
  {
    hide Scale, Block4, Level, Q15, LowCode, LowDifference, LowWeight, SatSub, ToInt16, Compose, LowFour, TableValue,
         EncodedLog, DecodedLog, Saturate15, EncodeHigh, DecodeHigh, CellWidth, LowValue, NotOverloaded, Stable,
         Rescaled;
    var ilow := EncodeLow(bands.low, x.0).1;
    FieldsSurvive(rate, if eightK then 3 else EncodeHigh(bands.high, x.1).1, ilow);
    ReachableScales(bands);
    SampleError(rate, x.0, bands.low.s, bands.low.det);
  }

  /** The low band just before sample `n` is coded. */
  function BandBefore(rate: Rate, eightK: bool, bands: Bands, xs: seq<(int16, int16)>, n: nat): Band
    requires n < |xs|
  {
    EncodeBands(rate, eightK, bands, xs[..n]).0.low
  }

  function LevelOf(low: Band, xlow: int16): (level: nat)
    ensures 1 <= level <= 30
  {
    hide Level;
    Level(Magnitude(SatSub(xlow, low.s)), low.det)
  }

  /** The quantiser of the rate does not overload on sample `n`. */
  predicate CleanSample(rate: Rate, eightK: bool, bands: Bands, xs: seq<(int16, int16)>, n: nat)
    requires n < |xs|
  {
    NotOverloaded(rate, LevelOf(BandBefore(rate, eightK, bands, xs, n), xs[n].0))
  }

  /** The width of the quantiser cell that sample `n` falls into. */
  function ErrorBound(rate: Rate, eightK: bool, bands: Bands, xs: seq<(int16, int16)>, n: nat): int
    requires n < |xs|
  {
    var low := BandBefore(rate, eightK, bands, xs, n);
    CellWidth(rate, LevelOf(low, xs[n].0), low.det)
  }

  function Received(rate: Rate, eightK: bool, bands: Bands, xs: seq<(int16, int16)>): (r: seq<(int16, int16)>)
    ensures |r| == |xs|
  {
    DecodeBands(rate, eightK, bands, EncodeBands(rate, eightK, bands, xs).1).1
  }

  lemma {:induction false} ReceivedAt(rate: Rate, eightK: bool, bands: Bands, xs: seq<(int16, int16)>, n: nat)
    requires n < |xs|
    ensures var (mid, before) := EncodeBands(rate, eightK, bands, xs[..n]);
            var mid' := DecodeBands(rate, eightK, bands, before).0;
            Received(rate, eightK, bands, xs)[n]
              == DecodeStep(rate, eightK, mid', EncodeStep(rate, eightK, mid, xs[n]).1).1
  {
    hide EncodeStep, DecodeStep;
    var codes := EncodeBands(rate, eightK, bands, xs).1;
    var (mid, before) := EncodeBands(rate, eightK, bands, xs[..n]);
    EncodePrefix(rate, eightK, bands, xs, n);
    EncodePrefix(rate, eightK, bands, xs, n + 1);
    DecodePrefix(rate, eightK, bands, codes, n + 1);
    assert xs[..n + 1][..n] == xs[..n];
    assert codes[..n + 1] == before + [EncodeStep(rate, eightK, mid, xs[n]).1];
    assert codes[..n + 1][..n] == before;
  }

  /** In any stream, whenever the quantiser is not overloaded, the decoder's low-band sample is
      within the width of the chosen cell of the encoder's. */
  lemma StreamError(rate: Rate, eightK: bool, bands: Bands, xs: seq<(int16, int16)>, n: nat)
    requires n < |xs| && -0x4000 <= xs[n].0 <= 0x3FFF && CleanSample(rate, eightK, bands, xs, n)
    requires Reachable(bands)
    ensures Distance(Received(rate, eightK, bands, xs)[n].0, xs[n].0) <= ErrorBound(rate, eightK, bands, xs, n)
  {
    hide EncodeStep, DecodeStep, Reachable, Level, CellWidth, NotOverloaded, SatSub, Received;
    ReceivedAt(rate, eightK, bands, xs, n);
    Lockstep(rate, eightK, bands, xs[..n]);
    EncoderInvariant(rate, eightK, bands, xs[..n]);
    StepError(rate, eightK, EncodeBands(rate, eightK, bands, xs[..n]).0, xs[n]);
  }

  // ----- end-to-end error of the high band

  lemma HighStepError(rate: Rate, bands: Bands, x: (int16, int16))
    requires Reachable(bands) && -0x4000 <= x.1 <= 0x3FFF
    requires HighMode(SatSub(x.1, bands.high.s), bands.high.det) == 1
    ensures var code := EncodeStep(rate, false, bands, x).1;
            Distance(DecodeStep(rate, false, bands, code).1.1, x.1) <= HighThreshold(bands.high.det)
  {
    hide Scale, Block4, Level, Q15, HighCode, HighDifference, HighWeight, SatSub, Compose, HighTwo, TableValue,
         EncodedLog, DecodedLog, Saturate15, EncodeLow, DecodeLow, HighThreshold, HighMode, Stable, Rescaled, Qm2;
    var ihigh := EncodeHigh(bands.high, x.1).1;
    FieldsSurvive(rate, ihigh, EncodeLow(bands.low, x.0).1);
    ReachableScales(bands);
    HighSampleError(x.1, bands.high.s, bands.high.det);
    HighDifferenceIs(bands.high.det, ihigh);
  }

  /** The cast of the high band's difference loses nothing. */
  lemma HighDifferenceIs(det: int16, ihigh: int)
    requires 0 <= ihigh < 4
    ensures HighDifference(det, ihigh) as int == Q15(det, Qm2(ihigh))
  {
    hide Qm2;
    Qm2Fits(ihigh);
    Q15Bound(Qm2(ihigh), det, 7408, 0x8000);
    Q15Commutes(det, Qm2(ihigh));
  }

  function HighBefore(rate: Rate, bands: Bands, xs: seq<(int16, int16)>, n: nat): Band
    requires n < |xs|
  {
    EncodeBands(rate, false, bands, xs[..n]).0.high
  }

  /** Sample `n` of the high band falls into the inner interval of its two-level quantiser. */
  predicate CleanHighSample(rate: Rate, bands: Bands, xs: seq<(int16, int16)>, n: nat)
    requires n < |xs|
  {
    var high := HighBefore(rate, bands, xs, n);
    HighMode(SatSub(xs[n].1, high.s), high.det) == 1
  }

  /** In any stream, whenever the high band's quantiser is not overloaded, the decoder's high-band
      sample is within its decision level of the encoder's. */
  lemma StreamHighError(rate: Rate, bands: Bands, xs: seq<(int16, int16)>, n: nat)
    requires n < |xs| && -0x4000 <= xs[n].1 <= 0x3FFF && CleanHighSample(rate, bands, xs, n)
    requires Reachable(bands)
    ensures Distance(Received(rate, false, bands, xs)[n].1, xs[n].1)
         <= HighThreshold(HighBefore(rate, bands, xs, n).det)
  {
    hide EncodeStep, DecodeStep, Reachable, HighMode, HighThreshold, SatSub, Received;
    ReceivedAt(rate, false, bands, xs, n);
    Lockstep(rate, false, bands, xs[..n]);
    EncoderInvariant(rate, false, bands, xs[..n]);
    HighStepError(rate, EncodeBands(rate, false, bands, xs[..n]).0, xs[n]);
  }

  // ----- the decoder's band samples

  /** On every byte stream both decoded band samples are fifteen-bit numbers. */
  lemma {:induction false} DecodedAreLimited(rate: Rate, eightK: bool, bands: Bands, codes: seq<byte>, n: nat)
    requires n < |codes|
    ensures var r := DecodeBands(rate, eightK, bands, codes).1[n];
            -0x4000 <= r.0 <= 0x3FFF && -0x4000 <= r.1 <= 0x3FFF
  {
    hide Q15, Block4, TableValue, Rescaled, Scale, HighDifference, LowDifference;
    if n < |codes| - 1 {
      DecodedAreLimited(rate, eightK, bands, codes[..|codes| - 1], n);
    }
  }
}
