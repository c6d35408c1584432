/** One band of the G.722 coder (jni/spandsp/g722.c): the adaptive pole/zero predictor
    (`block4`) and the logarithmic scale factor that both directions adapt from the transmitted
    code words. */
module G722Band {
  import opened FixedPoint

  const LOW_LIMIT := 18432
  const HIGH_LIMIT := 22528
  const LOW_BASE := 8
  const HIGH_BASE := 10

  const ILB: seq<int16> := [
    2048, 2093, 2139, 2186, 2233, 2282, 2332, 2383,
    2435, 2489, 2543, 2599, 2656, 2714, 2774, 2834,
    2896, 2960, 3025, 3091, 3158, 3228, 3298, 3371,
    3444, 3520, 3597, 3676, 3756, 3838, 3922, 4008]

  function Ilb(i: nat): int16
    requires i < 32
  {
    ILB[i]
  }

  datatype BandFields = Band(
    s: int16, sz: int16, r: int16, a0: int16, a1: int16, p0: int16, p1: int16,
    b: seq<int16>, d: seq<int16>, nb: int16, det: int16)

  predicate Shaped(band: BandFields) {
    |band.b| == 6 && |band.d| == 7
  }

  type Band = band: BandFields | Shaped(band)
    witness Band(0, 0, 0, 0, 0, 0, 0, [0, 0, 0, 0, 0, 0], [0, 0, 0, 0, 0, 0, 0], 0, 0)

  function InitialBand(det: int16): Band {
    Band(0, 0, 0, 0, 0, 0, 0, [0, 0, 0, 0, 0, 0], [0, 0, 0, 0, 0, 0, 0], 0, det)
  }

  // ----- the predictor

  /** The sign test `(x ^ y) & 0x8000`. */
  predicate SignsDiffer(x: int, y: int) {
    (x < 0) != (y < 0)
  }

  /** UPPOL2: the second pole coefficient. */
  function SecondPole(a0: int16, a1: int16, p: int16, p0: int16, p1: int16): (r: int16)
    ensures -12288 <= r <= 12288
  {
    var wd1: int := Saturate(4 * a0);
    var wd32 := if SignsDiffer(p, p0) then wd1 else Negate(wd1);
    var wd3 := ToInt16((if SignsDiffer(p, p1) then -128 else 128)
                       + (if wd32 > INT16_MAX then INT16_MAX else wd32) / 128
                       + Q15(a1, 32512));
    Clamp(-12288, wd3, 12288)
  }

  function Negate(x: int): int {
    -x
  }

  /** UPPOL1: the first pole coefficient, limited by the second. */
  function FirstPole(a0: int16, ap1: int16, p: int16, p0: int16): (r: int16)
    requires -12288 <= ap1 <= 12288
    ensures Abs(r) <= 15360 - ap1
  {
    var wd1 := if SignsDiffer(p, p0) then -192 else 192;
    var ap0 := SatAdd(wd1, ToInt16(Q15(a0, 32640)));
    var limit: int := SatSub(15360, ap1);
    if Abs(ap0) > limit then (if ap0 < 0 then Negate(limit) else limit) else ap0
  }

  function ScaledTap(c: int16, x: int16): int {
    Q15(c, SatAdd(x, x))
  }

  /** FILTEP: the pole section's prediction. */
  function PolePrediction(ap0: int16, r: int16, ap1: int16, r1: int16): int16 {
    SatAdd(ToInt16(ScaledTap(ap0, r)), ToInt16(ScaledTap(ap1, r1)))
  }

  /** UPZERO for one coefficient. */
  function ZeroCoefficient(b: int16, d: int16, dx: int16): int16 {
    var wd1 := if dx == 0 then 0 else 128;
    var wd2 := if SignsDiffer(d, dx) then -wd1 else wd1;
    SatAdd(wd2, ToInt16(Q15(b, 32640)))
  }

  function ZeroCoefficients(b: seq<int16>, d: seq<int16>, dx: int16): (r: seq<int16>)
    requires |b| == 6 && |d| == 7
    ensures |r| == 6
    ensures forall i :: 0 <= i < 6 ==> r[i] == ZeroCoefficient(b[i], d[i + 1], dx)
  {
    hide ZeroCoefficient;
    seq(6, i requires 0 <= i < 6 => ZeroCoefficient(b[i], d[i + 1], dx))
  }

  /** FILTEZ: the taps from position `i` on. */
  function ZeroSum(b: seq<int16>, d: seq<int16>, i: nat): int
    requires |b| == 6 && |d| == 7 && i <= 6
    decreases 6 - i
  {
    hide ScaledTap;
    if i == 6 then 0 else ScaledTap(b[i], d[i]) + ZeroSum(b, d, i + 1)
  }

  /** DELAYA: the delay line with `dx` pushed in front. */
  function Delayed(d: seq<int16>, dx: int16): (r: seq<int16>)
    requires |d| == 7
    ensures |r| == 7
  {
    [dx] + d[0 := dx][..6]
  }

  /** The whole of `block4`. */
  function Block4(band: Band, dx: int16): (out: Band)
    ensures out.nb == band.nb && out.det == band.det
  {
    hide SecondPole, FirstPole, PolePrediction, ZeroCoefficients, ZeroSum, Delayed, SatAdd, Saturate;
    var r := SatAdd(band.s, dx);
    var p := SatAdd(band.sz, dx);
    var ap1 := SecondPole(band.a0, band.a1, p, band.p0, band.p1);
    var ap0 := FirstPole(band.a0, ap1, p, band.p0);
    var sp := PolePrediction(ap0, r, ap1, band.r);
    var b := ZeroCoefficients(band.b, band.d, dx);
    var sz := Saturate(ZeroSum(b, band.d[0 := dx], 0));
    Band(SatAdd(sp, sz), sz, r, ap0, ap1, p, band.p0, b, Delayed(band.d, dx), band.nb, band.det)
  }

  /** The stability region of section 3.6 of ITU-T G.722. */
  predicate Stable(band: Band) {
    Abs(band.a1) <= 12288 && Abs(band.a0) <= 15360 - band.a1
  }

  /** Every update lands in the stability region, from whatever state. */
  lemma Block4IsStable(band: Band, dx: int16)
    ensures Stable(Block4(band, dx))
  {
    hide SecondPole, FirstPole, PolePrediction, ZeroCoefficients, ZeroSum, Delayed, SatAdd, Saturate;
  }

  // The same coefficient updates over unbounded integers: no cast to sixteen bits, and no
  // saturation of the sums.

  function ExactSecondPole(a0: int16, a1: int16, p: int16, p0: int16, p1: int16): int {
    var wd1: int := Saturate(4 * a0);
    var wd32 := if SignsDiffer(p, p0) then wd1 else if wd1 == INT16_MIN then INT16_MAX else -wd1;
    Clamp(-12288,
          (if SignsDiffer(p, p1) then -128 else 128) + wd32 / 128 + Q15(a1, 32512),
          12288)
  }

  function ExactFirstPole(a0: int16, ap1: int, p: int16, p0: int16): int
    requires -12288 <= ap1 <= 12288
  {
    Clamp(ap1 - 15360, (if SignsDiffer(p, p0) then -192 else 192) + Q15(a0, 32640), 15360 - ap1)
  }

  function ExactZeroCoefficient(b: int, d: int, dx: int): int {
    (if dx == 0 then 0 else if SignsDiffer(d, dx) then -128 else 128) + Q15(b, 32640)
  }

  lemma SecondPoleIsExact(a0: int16, a1: int16, p: int16, p0: int16, p1: int16)
    requires Abs(a1) <= 12288
    ensures SecondPole(a0, a1, p, p0, p1) == ExactSecondPole(a0, a1, p, p0, p1)
  {
  }

  lemma FirstPoleIsExact(a0: int16, ap1: int16, p: int16, p0: int16)
    requires Abs(ap1) <= 12288 && Abs(a0) <= 27648
    ensures FirstPole(a0, ap1, p, p0) == ExactFirstPole(a0, ap1, p, p0)
  {
  }

  lemma ZeroUpdateIsExact(b: int16, d: int16, dx: int16)
    ensures ZeroCoefficient(b, d, dx) == ExactZeroCoefficient(b, d, dx)
  {
  }

  lemma PredictionIsExact(ap0: int16, r: int16, ap1: int16, r1: int16)
    requires Abs(ap0) <= 27648 && Abs(ap1) <= 12288
    ensures PolePrediction(ap0, r, ap1, r1) == Saturate(ScaledTap(ap0, r) + ScaledTap(ap1, r1))
    ensures Abs(ScaledTap(ap0, r)) <= 27648 && Abs(ScaledTap(ap1, r1)) <= 12288
  {
    hide Q15;
    Q15Bound(ap0, SatAdd(r, r), 27648, 0x8000);
    Q15Bound(ap1, SatAdd(r1, r1), 12288, 0x8000);
  }

  lemma {:induction false} ZeroSumBound(b: seq<int16>, d: seq<int16>, i: nat)
    requires |b| == 6 && |d| == 7 && i <= 6
    ensures Abs(ZeroSum(b, d, i)) <= 0x8000 * (6 - i)
    decreases 6 - i
  {
    hide Q15;
    if i < 6 {
      ZeroSumBound(b, d, i + 1);
      Q15Bound(b[i], SatAdd(d[i], d[i]), 0x8000, 0x8000);
    }
  }

  /** The update from `band` to `out` loses nothing: no cast and no coefficient sum makes a difference. */
  predicate Lossless(band: Band, dx: int16, out: Band) {
    && Abs(out.a1) <= 12288
    && out.a1 == ExactSecondPole(band.a0, band.a1, out.p0, band.p0, band.p1)
    && out.a0 == ExactFirstPole(band.a0, out.a1, out.p0, band.p0)
    && out.s == SatAdd(Saturate(ScaledTap(out.a0, out.r) + ScaledTap(out.a1, band.r)), out.sz)
    && (forall i :: 0 <= i < 6 ==> out.b[i] == ExactZeroCoefficient(band.b[i], band.d[i + 1], dx))
    && IsInt32(ZeroSum(out.b, band.d[0 := dx], 0))
  }

  /** In the stability region every sixteen-bit cast of `block4` is lossless, no coefficient
      update saturates its sum and the zero section's sum fits 32 bits. */
  lemma Block4IsExact(band: Band, dx: int16)
    requires Stable(band)
    ensures Lossless(band, dx, Block4(band, dx))
  {
    hide SecondPole, FirstPole, PolePrediction, ZeroCoefficient, ZeroCoefficients, ZeroSum, Delayed, SatAdd, Saturate,
         ExactFirstPole, ExactSecondPole, ExactZeroCoefficient, ScaledTap;
    var out := Block4(band, dx);
    Block4IsStable(band, dx);
    SecondPoleIsExact(band.a0, band.a1, out.p0, band.p0, band.p1);
    FirstPoleIsExact(band.a0, out.a1, out.p0, band.p0);
    PredictionIsExact(out.a0, out.r, out.a1, band.r);
    forall i | 0 <= i < 6
      ensures out.b[i] == ExactZeroCoefficient(band.b[i], band.d[i + 1], dx)
    {
      ZeroUpdateIsExact(band.b[i], band.d[i + 1], dx);
    }
    ZeroSumBound(out.b, band.d[0 := dx], 0);
  }

  // ----- the predictions, in plain arithmetic

  /** The product of a coefficient in Q14 with a sample. */
  function Q14(c: int, x: int): int {
    c * x / 0x4000
  }

  /** The same of a sample that is doubled inside the limiter. */
  function DoubledTap(c: int, x: int): int {
    c * Clamp(-0x8000, 2 * x, 0x7FFF) / 0x8000
  }

  /** Doubling inside the limiter and dropping fifteen bits: for a sample below half scale, its product
      with the coefficient in Q14. */
  lemma ScaledTapIs(c: int16, x: int16)
    ensures ScaledTap(c, x) == DoubledTap(c, x)
    ensures -0x4000 <= x < 0x4000 ==> ScaledTap(c, x) == Q14(c, x)
  {
    if -0x4000 <= x < 0x4000 {
      assert c * (2 * x) == 2 * (c * x);
    }
  }

  /** FILTEP and the sum of both sections: each pole coefficient meets its own reconstructed sample, doubled
      inside the limiter. */
  lemma Block4AddsPoles(band: Band, dx: int16)
    ensures var out := Block4(band, dx);
            && out.r == Clamp(-0x8000, band.s + dx, 0x7FFF)
            && out.s == Clamp(-0x8000,
                              Clamp(-0x8000, DoubledTap(out.a0, out.r) + DoubledTap(out.a1, band.r), 0x7FFF) + out.sz,
                              0x7FFF)
  {
    hide SecondPole, FirstPole, ZeroCoefficients, ZeroSum, Delayed, ScaledTap, DoubledTap;
    var out := Block4(band, dx);
    Block4IsStable(band, dx);
    PredictionIsExact(out.a0, out.r, out.a1, band.r);
    ScaledTapIs(out.a0, out.r);
    ScaledTapIs(out.a1, band.r);
  }

  /** Below half scale nothing of that is limited. */
  lemma Block4AddsHalfScalePoles(band: Band, dx: int16)
    requires -0x4000 <= Block4(band, dx).r < 0x4000 && -0x4000 <= band.r < 0x4000
    ensures var out := Block4(band, dx);
            out.s == Clamp(-0x8000,
                           Clamp(-0x8000, Q14(out.a0, out.r) + Q14(out.a1, band.r), 0x7FFF) + out.sz,
                           0x7FFF)
  {
    hide SecondPole, FirstPole, ZeroCoefficients, ZeroSum, Delayed, ScaledTap, Q14;
    var out := Block4(band, dx);
    Block4IsStable(band, dx);
    PredictionIsExact(out.a0, out.r, out.a1, band.r);
    ScaledTapIs(out.a0, out.r);
    ScaledTapIs(out.a1, band.r);
  }

  /** FILTEZ, for every update whose differences are below half scale: six taps, of which the first meets
      the new difference. */
  lemma Block4AddsZeros(band: Band, dx: int16)
    requires -0x4000 <= dx < 0x4000 && forall i :: 1 <= i < 6 ==> -0x4000 <= band.d[i] < 0x4000
    ensures var (b, d) := (Block4(band, dx).b, band.d);
            Block4(band, dx).sz
            == Clamp(-0x8000,
                     Q14(b[0], dx) + Q14(b[1], d[1]) + Q14(b[2], d[2])
                     + Q14(b[3], d[3]) + Q14(b[4], d[4]) + Q14(b[5], d[5]),
                     0x7FFF)
  {
    hide SecondPole, FirstPole, PolePrediction, ZeroCoefficients, Delayed, ScaledTap, Q14;
    var b, line := Block4(band, dx).b, band.d[0 := dx];
    forall i | 0 <= i < 6
      ensures ScaledTap(b[i], line[i]) == Q14(b[i], line[i])
    {
      ScaledTapIs(b[i], line[i]);
    }
    SixTaps(b, line);
  }

  lemma SixTaps(b: seq<int16>, d: seq<int16>)
    requires |b| == 6 && |d| == 7
    ensures ZeroSum(b, d, 0) == ScaledTap(b[0], d[0]) + ScaledTap(b[1], d[1]) + ScaledTap(b[2], d[2])
                              + ScaledTap(b[3], d[3]) + ScaledTap(b[4], d[4]) + ScaledTap(b[5], d[5])
  {
    hide ScaledTap;
    assert ZeroSum(b, d, 3) == ScaledTap(b[3], d[3]) + ScaledTap(b[4], d[4]) + ScaledTap(b[5], d[5]);
  }

  /** DELAYA, and the sums that the signs are taken from. */
  lemma Block4Delays(band: Band, dx: int16)
    ensures var out := Block4(band, dx);
            && out.d[0] == out.d[1] == dx && (forall i :: 2 <= i < 7 ==> out.d[i] == band.d[i - 1])
            && out.p0 == Clamp(-0x8000, band.sz + dx, 0x7FFF) && out.p1 == band.p0
  {
    hide SecondPole, FirstPole, PolePrediction, ZeroCoefficients, ZeroSum;
  }

  // ----- the scale factor

  /** LOGSCL and LOGSCH as the decoder computes them: clamp, then cast. */
  function DecodedLog(nb: int16, w: int, limit: int16): int16
    requires 0 <= limit
  {
    ToInt16(Clamp(0, nb * 127 / 128 + w, limit))
  }

  /** The encoder's order: cast, then clamp. */
  function EncodedLog(nb: int16, w: int, limit: int16): int16
    requires 0 <= limit
  {
    Clamp(0, ToInt16(nb * 127 / 128 + w), limit)
  }

  /** SCALEL and SCALEH: the linear step size for a logarithmic one. */
  function Scale(nb: int16, base: nat): int16
    requires 0 <= nb && base <= 10
  {
    var wd2 := base - nb / 2048;
    var wd3 := if wd2 < 0 then Ilb((nb / 64) % 32) * Pow2(-wd2) else Ilb((nb / 64) % 32) / Pow2(wd2);
    ToInt16(wd3 * 4)
  }

  /** What every reachable state of a band satisfies. */
  predicate Adapted(band: Band, limit: int16, base: nat)
    requires base <= 10
  {
    0 <= band.nb <= limit && band.det == Scale(band.nb, base)
  }

  /** Both orders of clamp and cast give the same step. */
  lemma LogsAgree(nb: int16, w: int, limit: int16)
    requires 0 <= nb <= limit <= HIGH_LIMIT && -300 <= w <= 3042
    ensures EncodedLog(nb, w, limit) == DecodedLog(nb, w, limit) == Clamp(0, nb * 127 / 128 + w, limit)
  {
  }

  /** A step size by octave and position in the table, without wrap-around. */
  function Step(octave: nat, i: nat, base: nat): int
    requires i < 32
  {
    if octave > base then Ilb(i) * 8 else 4 * (Ilb(i) / Pow2(base - octave))
  }

  lemma IlbNext(i: nat)
    requires i < 31
    ensures 2048 <= Ilb(i) <= Ilb(i + 1) <= 4008
  {
  }

  lemma IlbRange(i: nat)
    requires i < 32
    ensures 2048 <= Ilb(i) <= 4008
  {
    if i < 31 { IlbNext(i); } else { IlbNext(30); }
  }

  lemma QuotientFits(x: nat, k: nat)
    requires k > 0
    ensures 0 <= x / k <= x
  {
    if k > 1 {
      MulMono(1, x / k, k, x / k);
    }
  }

  function Square(x: nat): nat {
    x * x
  }

  /** The thirty-second power. */
  function Power32(x: nat): nat {
    Square(Square(Square(Square(Square(x)))))
  }

  /** `v` is the nearest integer to the 32nd root of `p`, scaled by 2048: compared in the thirty-second power,
      both sides doubled. */
  predicate NearestRoot(v: nat, p: nat) {
    v > 0 && Power32(2 * v - 1) < Power32(4096) * p < Power32(2 * v + 1)
  }

  lemma FirstRoots()
    ensures NearestRoot(2048, 1) && NearestRoot(2093, 2) && NearestRoot(2139, 4)
    ensures NearestRoot(2186, 8) && NearestRoot(2233, 16) && NearestRoot(2282, 32)
    ensures NearestRoot(2332, 64) && NearestRoot(2383, 128)
  {
  }

  lemma SecondRoots()
    ensures NearestRoot(2435, 256) && NearestRoot(2489, 512) && NearestRoot(2543, 1024)
    ensures NearestRoot(2599, 2048) && NearestRoot(2656, 4096) && NearestRoot(2714, 8192)
    ensures NearestRoot(2774, 16384) && NearestRoot(2834, 32768)
  {
  }

  lemma ThirdRoots()
    ensures NearestRoot(2896, 0x10000) && NearestRoot(2960, 0x20000) && NearestRoot(3025, 0x40000)
    ensures NearestRoot(3091, 0x80000) && NearestRoot(3158, 0x100000) && NearestRoot(3228, 0x200000)
    ensures NearestRoot(3298, 0x400000) && NearestRoot(3371, 0x800000)
  {
  }

  lemma FourthRoots()
    ensures NearestRoot(3444, 0x1000000) && NearestRoot(3520, 0x2000000) && NearestRoot(3597, 0x4000000)
    ensures NearestRoot(3676, 0x8000000) && NearestRoot(3756, 0x10000000) && NearestRoot(3838, 0x20000000)
    ensures NearestRoot(3922, 0x40000000) && NearestRoot(4008, 0x80000000)
  {
  }

  /** The table is exponential: entry `i` is two to the power of 11 + i/32, rounded to the nearest integer. */
  lemma IlbIsExponential(i: nat)
    requires i < 32
    ensures NearestRoot(Ilb(i), Pow2(i))
  {
    hide NearestRoot, Pow2, Ilb;
    if i < 16 {
      LowerRoots(i);
    } else {
      UpperRoots(i);
    }
  }

  lemma LowerRoots(i: nat)
    requires i < 16
    ensures NearestRoot(Ilb(i), Pow2(i))
  {
    hide NearestRoot, Pow2;
    Pow2Values();
    if i < 8 {
      FirstRoots();
    } else {
      SecondRoots();
    }
  }

  lemma UpperRoots(i: nat)
    requires 16 <= i < 32
    ensures NearestRoot(Ilb(i), Pow2(i))
  {
    hide NearestRoot, Pow2;
    Pow2Values();
    Pow2Add(16, i - 16);
    if i < 24 {
      ThirdRoots();
    } else {
      FourthRoots();
    }
  }

  /** No step size wraps, as long as the logarithm stays below `base + 1` octaves. */
  lemma ScaleIsStep(nb: int16, base: nat)
    requires base <= 10 && 0 <= nb <= 2048 * (base + 1)
    ensures Scale(nb, base) == Step(nb / 2048, (nb / 64) % 32, base)
    ensures 0 <= Scale(nb, base) <= 16384
  {
    hide Ilb, Pow2, ToInt16;
    var i := (nb / 64) % 32;
    IlbRange(i);
    if nb / 2048 > base {
      assert nb == 2048 * (base + 1);
      assert i == 0 && base - nb / 2048 == -1;
      Pow2Values();
      assert Ilb(0) == 2048 by { IlbFirst(); }
    } else {
      QuotientFits(Ilb(i), Pow2(base - nb / 2048));
    }
  }

  lemma IlbFirst()
    ensures Ilb(0) == 2048 && Ilb(31) == 4008
  {
  }

  lemma StepNext(octave: nat, i: nat, base: nat)
    requires i < 31
    ensures Step(octave, i, base) <= Step(octave, i + 1, base)
  {
    hide Ilb, Pow2;
    IlbNext(i);
    if octave <= base {
      DivMono(Ilb(i), Ilb(i + 1), Pow2(base - octave));
    }
  }

  lemma DivMono(x: nat, y: nat, k: nat)
    requires x <= y && k > 0
    ensures x / k <= y / k
  {
    var dx := x / k - y / k;
    assert dx > 0 ==> dx * k >= k;
    assert x / k * k == y / k * k + dx * k;
  }

  /** Twice the first table entry is above the last one: steps still grow across octaves. */
  lemma StepNextOctave(octave: nat, base: nat)
    requires octave <= base && base <= 10
    ensures Step(octave, 31, base) <= Step(octave + 1, 0, base)
  {
    hide Ilb;
    IlbFirst();
    if octave < base {
      var k := Pow2(base - octave - 1);
      assert Pow2(base - octave) == 2 * k;
      HalveThenDivide(4008, 2048, k);
    }
  }

  lemma HalveThenDivide(x: nat, y: nat, k: nat)
    requires x <= 2 * y && k > 0
    ensures x / (2 * k) <= y / k
  {
    var q, t := x / (2 * k), y / k;
    assert q * (2 * k) <= x;
    assert y < (t + 1) * k;
    assert q > t ==> (t + 1) * k <= q * k;
    assert q * (2 * k) == 2 * (q * k);
  }

  lemma {:induction false} StepsIncrease(k: nat, n: nat, base: nat)
    requires base <= 10 && k <= n <= 32 * (base + 1)
    ensures Step(k / 32, k % 32, base) <= Step(n / 32, n % 32, base)
    decreases n - k
  {
    hide Step;
    if k < n {
      StepsIncrease(k, n - 1, base);
      if n % 32 == 0 {
        assert (n - 1) % 32 == 31 && (n - 1) / 32 + 1 == n / 32;
        StepNextOctave((n - 1) / 32, base);
      } else {
        assert (n - 1) / 32 == n / 32 && (n - 1) % 32 + 1 == n % 32;
        StepNext(n / 32, n % 32 - 1, base);
      }
    }
  }

  /** The step size grows with its logarithm, through every wrap of the table. */
  lemma ScaleIsMonotone(nb1: int16, nb2: int16, base: nat)
    requires base <= 10 && 0 <= nb1 <= nb2 <= 2048 * (base + 1)
    ensures Scale(nb1, base) <= Scale(nb2, base)
  {
    hide Step, Scale;
    ScaleIsStep(nb1, base);
    ScaleIsStep(nb2, base);
    StepsIncrease(nb1 / 64, nb2 / 64, base);
    assert nb1 / 64 / 32 == nb1 / 2048 && nb2 / 64 / 32 == nb2 / 2048;
  }

  /** The step sizes after a reset. */
  lemma InitialScales()
    ensures Scale(0, LOW_BASE) == 32 && Scale(0, HIGH_BASE) == 8
  {
    hide Scale, Ilb;
    ScaleIsStep(0, LOW_BASE);
    ScaleIsStep(0, HIGH_BASE);
    IlbFirst();
    assert Pow2(8) == 256 && Pow2(10) == 1024;
  }

  /** The step sizes of an adapted low band span 32 to 16384, those of a high band 8 to 16384. */
  lemma ScaleRange(nb: int16)
    ensures 0 <= nb <= LOW_LIMIT ==> 32 <= Scale(nb, LOW_BASE) <= 16384
    ensures 0 <= nb <= HIGH_LIMIT ==> 8 <= Scale(nb, HIGH_BASE) <= 16384
  {
    hide Scale, Ilb;
    IlbFirst();
    assert Pow2(8) == 256 && Pow2(10) == 1024;
    if 0 <= nb <= LOW_LIMIT {
      ScaleIsMonotone(0, nb, LOW_BASE);
      ScaleIsStep(nb, LOW_BASE);
      ScaleIsStep(0, LOW_BASE);
    }
    if 0 <= nb <= HIGH_LIMIT {
      ScaleIsMonotone(0, nb, HIGH_BASE);
      ScaleIsStep(nb, HIGH_BASE);
      ScaleIsStep(0, HIGH_BASE);
    }
  }

  // ----- the band as the source keeps it

  class BandState {
    var s: int16
    var sz: int16
    var r: int16
    var a: (int16, int16)
    var p: (int16, int16)
    const b: array<int16>
    const d: array<int16>
    var nb: int16
    var det: int16

    ghost predicate Valid() {
      b.Length == 6 && d.Length == 7 && b != d
    }

    ghost function Value(): Band
      requires Valid()
      reads this, b, d
    {
      Band(s, sz, r, a.0, a.1, p.0, p.1, b[..], d[..], nb, det)
    }

    constructor (initialDet: int16)
      ensures Valid() && Value() == InitialBand(initialDet)
      ensures fresh(b) && fresh(d)
    {
      s, sz, r, a, p, nb, det := 0, 0, 0, (0, 0), (0, 0), 0, initialDet;
      b := new int16[6](_ => 0);
      d := new int16[7](_ => 0);
      new;
      assert b[..] == [0, 0, 0, 0, 0, 0] && d[..] == [0, 0, 0, 0, 0, 0, 0];
    }

    /** UPPOL2, UPPOL1 and FILTEP: the pole half of `block4`. */
    method UpdatePoles(dx: int16) returns (sp: int16)
      requires Valid()
      modifies this`r, this`a, this`p
      ensures Valid()
      ensures r == SatAdd(s, dx) && p == (SatAdd(sz, dx), old(p.0))
      ensures a.1 == SecondPole(old(a.0), old(a.1), p.0, old(p.0), old(p.1))
      ensures a.0 == FirstPole(old(a.0), a.1, p.0, old(p.0))
      ensures sp == PolePrediction(a.0, r, a.1, old(r))
    {
      hide Q15, ToInt16, SatAdd, SatSub, Saturate, SignsDiffer;
      var rNew: int16 := SatAdd(s, dx);
      var pNew: int16 := SatAdd(sz, dx);

      var wd1: int := Saturate(4 * a.0);
      var wd32 := if SignsDiffer(pNew, p.0) then wd1 else -wd1;
      if wd32 > INT16_MAX {
        wd32 := INT16_MAX;
      }
      var wd3: int := ToInt16((if SignsDiffer(pNew, p.1) then -128 else 128)
                              + wd32 / 128 + Q15(a.1, 32512));
      if Abs(wd3) > 12288 {
        wd3 := if wd3 < 0 then -12288 else 12288;
      }
      var ap1: int16 := wd3;
      assert ap1 == SecondPole(a.0, a.1, pNew, p.0, p.1);

      wd1 := if SignsDiffer(pNew, p.0) then -192 else 192;
      var wd2: int16 := ToInt16(Q15(a.0, 32640));
      var ap0: int := SatAdd(wd1, wd2);
      wd3 := SatSub(15360, ap1);
      if Abs(ap0) > wd3 {
        ap0 := if ap0 < 0 then -wd3 else wd3;
      }
      assert ap0 == FirstPole(a.0, ap1, pNew, p.0);

      wd1 := SatAdd(rNew, rNew);
      wd1 := ToInt16(Q15(ap0, wd1));
      wd2 := SatAdd(r, r);
      wd2 := ToInt16(Q15(ap1, wd2));
      sp := SatAdd(wd1, wd2);
      r := rNew;
      a := (ap0, ap1);
      p := (pNew, p.0);
    }

    /** UPZERO, DELAYA and FILTEZ: the zero half of `block4`, which updates the coefficients and
        shifts the delay line in one downward loop. */
    method UpdateZeros(dx: int16) returns (sum: int)
      requires Valid()
      modifies b, d
      ensures b[..] == ZeroCoefficients(old(b[..]), old(d[..]), dx)
      ensures d[..] == Delayed(old(d[..]), dx)
      ensures sum == ZeroSum(b[..], old(d[..])[0 := dx], 0)
    {
      hide ZeroCoefficients, Q15, ToInt16, SatAdd;
      ghost var b0, d0 := b[..], d[..];
      ghost var line := d0[0 := dx];
      ghost var target := ZeroCoefficients(b0, d0, dx);
      var wd1 := if dx == 0 then 0 else 128;
      d[0] := dx;
      sum := 0;
      var i := 5;
      while i >= 0
        invariant -1 <= i <= 5
        invariant forall j :: 0 <= j <= i ==> b[j] == b0[j]
        invariant forall j :: i < j < 6 ==> b[j] == target[j]
        invariant forall j :: 0 <= j <= i + 1 ==> d[j] == line[j]
        invariant forall j :: i + 1 < j < 7 ==> d[j] == line[j - 1]
        invariant sum == ZeroSum(target, line, i + 1)
      {
        var wd2: int16 := if SignsDiffer(d[i + 1], dx) then -wd1 else wd1;
        var wd3: int16 := ToInt16(Q15(b[i], 32640));
        b[i] := SatAdd(wd2, wd3);
        assert b[i] == target[i];
        wd3 := SatAdd(d[i], d[i]);
        sum := sum + Q15(b[i], wd3);
        d[i + 1] := d[i];
        i := i - 1;
      }
      assert b[..] == target;
      assert d[..] == Delayed(d0, dx);
    }

    /** `block4`. */
    method Update(dx: int16)
      requires Valid()
      modifies this, b, d
      ensures Valid() && Value() == Block4(old(Value()), dx)
    {
      hide SecondPole, FirstPole, PolePrediction, ZeroCoefficients, ZeroSum, Delayed, SatAdd, Saturate;
      var sp := UpdatePoles(dx);
      var sum := UpdateZeros(dx);
      sz := Saturate(sum);
      s := SatAdd(sp, sz);
    }
  }
}
