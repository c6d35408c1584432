/** Linear prediction analysis of the GSM 06.10 coder (jni/spandsp/gsm0610_lpc.c, sections 4.2.4 to
    4.2.7 of GSM 06.10): autocorrelation, the Schur recursion for the reflection coefficients and
    the coding of the log area ratios. */
module GsmLpc {
  import opened FixedPoint
  import opened GsmArith

  // ----- gsm_div

  /** The fifteen-bit quotient of `num` by `denom`. */
  function Div(num: nat, denom: nat): int
    requires num <= denom
  {
    if num == 0 then 0 else if num == denom then INT16_MAX else num * 0x8000 / denom
  }

  lemma DivFitsWord(num: nat, denom: nat)
    requires num <= denom
    ensures 0 <= Div(num, denom) <= INT16_MAX
  {
    if 0 < num < denom {
      QuotientIs(num * 0x8000, denom, num * 0x8000 / denom);
      assert num * 0x8000 < denom * 0x8000;
    }
  }

  lemma QuotientIs(x: nat, d: nat, q: int)
    requires d > 0
    ensures q * d <= x < q * d + d <==> q == x / d
    ensures x < d * 0x8000 ==> x / d < 0x8000
    ensures x / d >= 0
  {
    var t := x / d;
    assert t * d <= x < t * d + d;
    if q < t { MulLess(q, t, d); } else if q > t { MulLess(t, q, d); }
    if t >= 0x8000 { MulLess(0x7FFF, t, d); }
    if t < 0 { MulLess(t, 0, d); }
  }

  lemma MulLess(a: int, b: int, d: nat)
    requires a < b
    ensures a * d + d <= b * d
  {
    assert (b - a - 1) * d >= 0;
    assert (b - a - 1) * d == b * d - a * d - d;
  }

  /** `gsm_div`: fifteen steps of restoring division. */
  method Divide(num: int16, denom: int16) returns (div: int16)
    requires 0 <= num <= denom
    ensures div == Div(num, denom)
  {
    hide Pow2;
    if num == 0 {
      return 0;
    }
    Pow2Values();
    var num32: int, denom32: int, d: int := num, denom, 0;
    var k := 15;
    while k > 0
      invariant 0 <= k <= 15
      invariant 0 <= d < Pow2(15 - k)
      invariant num < denom ==> 0 <= num32 < denom32 && num * Pow2(15 - k) == d * denom32 + num32
      invariant num == denom ==> num32 == denom32 && d == Pow2(15 - k) - 1
    {
      NextBit(num, denom, d, num32, Pow2(15 - k));
      PowerStep(15 - k);
      d := d * 2;
      num32 := num32 * 2;
      if num32 >= denom32 {
        num32 := num32 - denom32;
        d := d + 1;
      }
      k := k - 1;
    }
    div := d;
    if num < denom {
      QuotientIs(num * 0x8000, denom, div);
    }
  }

  lemma PowerStep(n: nat)
    ensures Pow2(n + 1) == 2 * Pow2(n)
  {
  }

  lemma NextBit(num: nat, denom: nat, d: int, rest: int, p: nat)
    ensures num * p == d * denom + rest ==> num * (2 * p) == (2 * d) * denom + 2 * rest
    ensures (2 * d + 1) * denom == (2 * d) * denom + denom
  {
    assert num * (2 * p) == 2 * (num * p);
    assert (2 * d) * denom == 2 * (d * denom);
  }

  // ----- 4.2.4: autocorrelation

  function ScaleShift(smax: int16): int
    requires 0 <= smax
  {
    if smax == 0 then 0 else 4 - Norm(smax * 0x10000)
  }

  /** One sample of the scaled frame. */
  function ScaledSample(a: int16, shift: int): int16
    requires shift <= 4
  {
    if shift <= 0 then a else
      Pow2Values();
      MultR(a, 16384 / Pow2(shift - 1))
  }

  /** The scaled frame, and the same frame shifted back. */
  function ScaledFrame(s: seq<int16>, shift: int): (r: seq<int16>)
    requires shift <= 4
    ensures |r| == |s|
    ensures forall i :: 0 <= i < |s| ==> r[i] == ScaledSample(s[i], shift)
  {
    hide ScaledSample;
    seq(|s|, i requires 0 <= i < |s| => ScaledSample(s[i], shift))
  }

  function RescaledFrame(s: seq<int16>, shift: int): (r: seq<int16>)
    ensures |r| == |s|
    ensures forall i :: 0 <= i < |s| ==> r[i] == if shift <= 0 then s[i] else Shl16(s[i], shift)
  {
    hide Shl16;
    seq(|s|, i requires 0 <= i < |s| => if shift <= 0 then s[i] else Shl16(s[i], shift))
  }

  /** The lag-`k` products of the first `n` samples. */
  function Corr(s: seq<int16>, k: nat, n: nat): int
    requires k <= n <= |s|
    decreases n
  {
    if n == k then 0 else Corr(s, k, n - 1) + Product(s[n - 1], s[n - 1 - k])
  }

  /** A signal of two samples correlates at the distance between them, with their product, and nowhere else
      but at lag zero. */
  lemma CorrOfPair(s: seq<int16>, i: nat, j: nat, k: nat)
    requires i < j < |s| && 0 < k <= |s| && forall x :: 0 <= x < |s| && x != i && x != j ==> s[x] == 0
    ensures Corr(s, k, |s|) == if k == j - i then Product(s[i], s[j]) else 0
  {
    CorrOfPairTo(s, i, j, k, |s|);
  }

  lemma {:induction false} CorrOfPairTo(s: seq<int16>, i: nat, j: nat, k: nat, n: nat)
    requires i < j < |s| && 0 < k <= n <= |s| && forall x :: 0 <= x < |s| && x != i && x != j ==> s[x] == 0
    ensures Corr(s, k, n) == if k == j - i && j < n then Product(s[i], s[j]) else 0
    decreases n
  {
    if n > k {
      CorrOfPairTo(s, i, j, k, n - 1);
    }
  }

  function Product(a: int, b: int): int {
    a * b
  }

  /** The sum of the squares from `lo` to `hi`. */
  function Squares(s: seq<int16>, lo: nat, hi: nat): int
    requires lo <= hi <= |s|
    decreases hi
  {
    if hi == lo then 0 else Squares(s, lo, hi - 1) + Product(s[hi - 1], s[hi - 1])
  }

  lemma ProductOfTwo(a: int, b: int)
    ensures 2 * Abs(Product(a, b)) <= Product(a, a) + Product(b, b)
    ensures Product(a, a) >= 0
  {
    assert (a - b) * (a - b) >= 0 && (a + b) * (a + b) >= 0;
    assert (a - b) * (a - b) == a * a - 2 * (a * b) + b * b;
    assert (a + b) * (a + b) == a * a + 2 * (a * b) + b * b;
  }

  lemma {:induction false} CorrBelowSquares(s: seq<int16>, k: nat, n: nat)
    requires k <= n <= |s|
    ensures 2 * Abs(Corr(s, k, n)) <= Squares(s, k, n) + Squares(s, 0, n - k)
    decreases n
  {
    hide Product;
    if n > k {
      CorrBelowSquares(s, k, n - 1);
      ProductOfTwo(s[n - 1], s[n - 1 - k]);
    }
  }

  lemma {:induction false} SquaresGrow(s: seq<int16>, lo: nat, hi: nat, n: nat)
    requires lo <= hi <= n <= |s|
    ensures 0 <= Squares(s, lo, hi) <= Squares(s, 0, n)
    decreases n, hi
  {
    hide Product;
    if hi < n {
      SquaresGrow(s, lo, hi, n - 1);
      ProductOfTwo(s[n - 1], s[n - 1]);
    } else if lo < hi {
      SquaresGrow(s, lo, hi - 1, hi - 1);
      ProductOfTwo(s[hi - 1], s[hi - 1]);
    } else if hi > 0 {
      SquaresGrow(s, hi - 1, hi - 1, n - 1);
      ProductOfTwo(s[n - 1], s[n - 1]);
    }
  }

  /** No lag correlates more than lag zero. */
  lemma LagZeroDominates(s: seq<int16>, k: nat, n: nat)
    requires k <= n <= |s|
    ensures Abs(Corr(s, k, n)) <= Corr(s, 0, n)
  {
    CorrBelowSquares(s, k, n);
    SquaresGrow(s, k, n, n);
    SquaresGrow(s, 0, n - k, n);
    CorrZeroIsSquares(s, n);
  }

  lemma {:induction false} CorrZeroIsSquares(s: seq<int16>, n: nat)
    requires n <= |s|
    ensures Corr(s, 0, n) == Squares(s, 0, n)
  {
    hide Product;
    if n > 0 {
      CorrZeroIsSquares(s, n - 1);
    }
  }

  lemma {:induction false} EnergyBound(s: seq<int16>, n: nat, bound: nat)
    requires n <= |s| && forall i :: 0 <= i < n ==> Abs(s[i]) <= bound
    ensures 0 <= Corr(s, 0, n) <= n * (bound * bound)
  {
    hide Product;
    if n > 0 {
      EnergyBound(s, n - 1, bound);
      SquareBound(s[n - 1], bound);
      assert n * (bound * bound) == (n - 1) * (bound * bound) + bound * bound;
    }
  }

  lemma SquareBound(a: int, bound: nat)
    requires Abs(a) <= bound
    ensures 0 <= Product(a, a) <= bound * bound
  {
    MulBound(a, a, bound, bound);
  }

  /** The scaled sample in closed form: rounded to a multiple of the scale. */
  lemma ScaledSampleIs(a: int16, shift: int)
    requires 1 <= shift <= 4
    ensures ScaledSample(a, shift) == (a + Pow2(shift - 1)) / Pow2(shift)
  {
    hide Pow2;
    Pow2Values();
    MultRExact(a, 16384 / Pow2(shift - 1));
    if shift == 1 {} else if shift == 2 {} else if shift == 3 {} else {}
  }

  /** Scaling a sample back returns it to within half the scale, if and only if it did not round up
      to 32768: for the largest scale, below 32760. */
  lemma RescalingIsNear(a: int16, shift: int)
    requires 1 <= shift <= 4
    ensures Distance(Shl16(ScaledSample(a, shift), shift), a) <= Pow2(shift - 1)
       <==> a < 0x8000 - Pow2(shift - 1)
  {
    hide Pow2, ScaledSample;
    Pow2Values();
    ScaledSampleIs(a, shift);
    RoundedUp(a, Pow2(shift - 1));
    HalfScale(shift);
  }

  lemma HalfScale(shift: int)
    requires 1 <= shift <= 4
    ensures Pow2(shift) == 2 * Pow2(shift - 1)
  {
  }

  /** Rounding to a multiple of `2h` moves a sample by at most `h`, and up to 32768 only from close
      below it. */
  lemma RoundedUp(a: int16, h: nat)
    requires h == 1 || h == 2 || h == 4 || h == 8
    ensures var y := (a + h) / (2 * h) * (2 * h);
            && Distance(y, a) <= h && -0x8000 <= y <= 0x8000
            && (y == 0x8000 <==> a >= 0x8000 - h)
  {
    if h == 1 {} else if h == 2 {} else if h == 4 {} else {}
  }

  /** The scaled samples fit twelve bits, rounding included. */
  lemma ScaledSampleFits(a: int16, smax: int16)
    requires 0 <= smax && SatAbs(a) <= smax
    ensures ScaleShift(smax) <= 4
    ensures Abs(ScaledSample(a, ScaleShift(smax))) <= 2048
  {
    hide TopBit, Pow2, Norm;
    if smax > 0 {
      NormOfUpperHalf(smax);
      var t := TopBit(smax);
      assert smax < Pow2(t + 1);
      Pow2Values();
      var shift := ScaleShift(smax);
      if shift <= 0 {
        Pow2Mono(t + 1, 11);
      } else {
        MultRExact(a, 16384 / Pow2(shift - 1));
        if shift == 1 {} else if shift == 2 {} else if shift == 3 {} else {}
      }
    }
  }

  function FrameShift(s: seq<int16>): (r: int)
    ensures r <= 4
  {
    ShiftAtMostFour(MaxAbs(s));
    ScaleShift(MaxAbs(s))
  }

  lemma ShiftAtMostFour(smax: int16)
    requires 0 <= smax
    ensures ScaleShift(smax) <= 4
  {
    ScaledSampleFits(smax, smax);
  }

  /** A frame is shifted by its highest bit; it is shifted by less than four only if it stays below
      16384. */
  lemma ShiftOfFrame(s: seq<int16>, i: nat)
    requires i < |s|
    ensures FrameShift(s) < 4 ==> s[i] < 16384
  {
    hide TopBit, Pow2, MaxAbs, Norm;
    var smax := MaxAbs(s);
    assert SatAbs(s[i]) <= smax;
    if smax > 0 && FrameShift(s) < 4 {
      NormOfUpperHalf(smax);
      Pow2Mono(TopBit(smax) + 1, 14);
      Pow2Values();
    }
  }

  /** What a frame is after the analysis has scaled it down and back. */
  function Returned(s: seq<int16>): (r: seq<int16>)
    ensures |r| == |s|
  {
    RescaledFrame(ScaledFrame(s, FrameShift(s)), FrameShift(s))
  }

  /** In every frame that is scaled at all, a sample comes back to within half the frame's own scale if
      and only if it is below 32760. */
  lemma ReturnedIsNear(s: seq<int16>, i: nat)
    requires i < |s| && FrameShift(s) >= 1
    ensures Distance(Returned(s)[i], s[i]) <= Pow2(FrameShift(s) - 1) <==> s[i] < 32760
  {
    hide Pow2, ScaledSample, FrameShift, Shl16, Distance;
    Pow2Values();
    var k := FrameShift(s);
    RescalingIsNear(s[i], k);
    ShiftOfFrame(s, i);
    Pow2Mono(k - 1, 3);
  }

  /** A sample from 32760 on comes back as -32768. */
  lemma ReturnedWraps(s: seq<int16>, i: nat)
    requires i < |s| && s[i] >= 32760
    ensures FrameShift(s) == 4 && Returned(s)[i] == -0x8000
  {
    hide Pow2, ScaledSample, FrameShift;
    Pow2Values();
    ShiftOfFrame(s, i);
    ScaledSampleIs(s[i], 4);
  }

  /** Such a frame: full scale throughout. */
  lemma LoudFrameWraps()
    ensures var s := seq(160, _ => 32767); Returned(s)[0] == -0x8000
  {
    hide Returned, FrameShift;
    var s: seq<int16> := seq(160, _ => 32767);
    ReturnedWraps(s, 0);
  }

  /** `L_ACF[k]`: the doubled sums over the scaled frame. */
  function Acf(s: seq<int16>): (acf: seq<int>)
    requires |s| == 160
    ensures |acf| == 9
    ensures forall k :: 0 <= k < 9 ==> acf[k] == 2 * Corr(ScaledFrame(s, FrameShift(s)), k, 160)
  {
    hide Corr, FrameShift, ScaledFrame;
    seq(9, k requires 0 <= k < 9 => 2 * Corr(ScaledFrame(s, FrameShift(s)), k, 160))
  }

  /** What the Schur recursion is entitled to. */
  predicate Dominated(acf: seq<int>) {
    && |acf| == 9
    && 0 <= acf[0] <= INT32_MAX
    && forall k :: 0 <= k < 9 ==> Abs(acf[k]) <= acf[0]
  }

  /** For every frame the sums fit 32 bits and no lag exceeds lag zero. */
  lemma AcfIsDominated(s: seq<int16>)
    requires |s| == 160
    ensures Dominated(Acf(s))
  {
    hide Corr, ScaledSample, ScaleShift, MaxAbs;
    var scaled := ScaledFrame(s, FrameShift(s));
    forall i | 0 <= i < 160
      ensures Abs(scaled[i]) <= 2048
    {
      ScaledSampleFits(s[i], MaxAbs(s));
    }
    EnergyBound(scaled, 160, 2048);
    forall k | 0 <= k < 9
      ensures Abs(Acf(s)[k]) <= Acf(s)[0]
    {
      LagZeroDominates(scaled, k, 160);
    }
  }

  /** `autocorrelation`: the frame is scaled down in place, correlated in a single pass, and shifted
      back up in place. */
  method Autocorrelation(amp: array<int16>) returns (acf: array<int>)
    requires amp.Length == 160
    modifies amp
    ensures fresh(acf) && acf.Length == 9 && acf[..] == Acf(old(amp[..]))
    ensures amp[..] == RescaledFrame(ScaledFrame(old(amp[..]), FrameShift(old(amp[..]))), FrameShift(old(amp[..])))
  {
    hide Corr, ScaledSample, MaxAbs, Norm, Shl16;
    ghost var s := amp[..];
    var smax := FindMaximum(amp);
    var scalauto := if smax == 0 then 0 else 4 - Norm(smax as int * 0x10000);
    assert scalauto == FrameShift(s);
    ShiftAtMostFour(smax);
    ghost var scaled := ScaledFrame(s, scalauto);
    ScaleInPlace(amp, scalauto);
    acf := new int[9](_ => 0);
    CorrelateAll(amp, acf);
    var k := 0;
    while k < 9
      invariant 0 <= k <= 9 && amp[..] == scaled
      invariant forall j :: 0 <= j < k ==> acf[j] == 2 * Corr(scaled, j, 160)
      invariant forall j :: k <= j < 9 ==> acf[j] == Corr(scaled, j, 160)
    {
      acf[k] := acf[k] * 2;
      k := k + 1;
    }
    RescaleInPlace(amp, scalauto);
    assert acf[..] == Acf(s);
  }

  method ScaleInPlace(amp: array<int16>, scalauto: int)
    requires scalauto <= 4
    modifies amp
    ensures amp[..] == ScaledFrame(old(amp[..]), scalauto)
  {
    hide MultR, Pow2;
    if scalauto > 0 {
      Pow2Values();
      var k := 0;
      while k < amp.Length
        invariant 0 <= k <= amp.Length
        invariant forall j :: 0 <= j < k ==> amp[j] == ScaledSample(old(amp[..])[j], scalauto)
        invariant forall j :: k <= j < amp.Length ==> amp[j] == old(amp[..])[j]
      {
        amp[k] := MultR(amp[k], 16384 / Pow2(scalauto - 1));
        k := k + 1;
      }
    }
  }

  method RescaleInPlace(amp: array<int16>, scalauto: int)
    modifies amp
    ensures amp[..] == RescaledFrame(old(amp[..]), scalauto)
  {
    hide Shl16;
    if scalauto > 0 {
      var k := 0;
      while k < amp.Length
        invariant 0 <= k <= amp.Length
        invariant forall j :: 0 <= j < k ==> amp[j] == Shl16(old(amp[..])[j], scalauto)
        invariant forall j :: k <= j < amp.Length ==> amp[j] == old(amp[..])[j]
      {
        amp[k] := Shl16(amp[k], scalauto);
        k := k + 1;
      }
    }
  }

  /** One pass over the samples updates all nine sums; the first samples feed fewer of them. */
  method CorrelateAll(amp: array<int16>, acf: array<int>)
    requires amp.Length == 160 && acf.Length == 9
    requires forall k :: 0 <= k < 9 ==> acf[k] == 0
    modifies acf
    ensures forall k :: 0 <= k < 9 ==> acf[k] == Corr(amp[..], k, 160)
  {
    ghost var s := amp[..];
    var i := 0;
    while i < 160
      invariant 0 <= i <= 160 && amp[..] == s
      invariant forall k :: 0 <= k < 9 ==> acf[k] == if k <= i then Corr(s, k, i) else 0
    {
      var sl := amp[i];
      var k := 0;
      while k < 9 && k <= i
        invariant 0 <= k <= 9 && k <= i + 1 && amp[..] == s
        invariant forall j :: 0 <= j < k ==> acf[j] == Corr(s, j, i + 1)
        invariant forall j :: k <= j < 9 ==> acf[j] == if j <= i then Corr(s, j, i) else 0
      {
        acf[k] := acf[k] + Product(sl, amp[i - k]);
        k := k + 1;
      }
      i := i + 1;
    }
  }

  // ----- 4.2.5: reflection coefficients

  function Normalised(acf: seq<int>): (r: seq<int16>)
    requires |acf| == 9 && IsInt32(acf[0]) && acf[0] > 0
    ensures |r| == 9
    ensures forall i :: 0 <= i < 9 ==> r[i] == ToInt16(Shr(acf[i] * Pow2(NormShift(acf[0])), 16))
  {
    hide Pow2, Shr, NormShift;
    seq(9, i requires 0 <= i < 9 => ToInt16(Shr(acf[i] * Pow2(NormShift(acf[0])), 16)))
  }

  function NormShift(x: int): nat
    requires x > 0 && IsInt32(x)
  {
    NormNormalises(x);
    Norm(x)
  }

  /** The normalising shift of any lag stays inside 32 bits and its upper half is kept whole. */
  lemma NormalisingNeverOverflows(acf: seq<int>, i: nat)
    requires Dominated(acf) && acf[0] > 0 && i < 9
    ensures IsInt32(acf[i] * Pow2(NormShift(acf[0])))
    ensures Normalised(acf)[i] == Shr(acf[i] * Pow2(NormShift(acf[0])), 16)
    ensures 0x4000 <= Normalised(acf)[0]
  {
    hide Pow2, TopBit, Norm;
    var p := Pow2(NormShift(acf[0]));
    NormNormalises(acf[0]);
    MulBound(acf[i], p, acf[0], p);
    Pow2Values();
  }

  /** One coefficient. */
  function Reflection(p0: int16, p1: int16): int16
    requires SatAbs(p1) <= p0
  {
    DivFitsWord(SatAbs(p1), p0);
    var r := Div(SatAbs(p1), p0);
    if p1 > 0 then -r else r
  }

  /** One round of the recursion, `n` counting from 1. */
  function NextP(p: seq<int16>, k: seq<int16>, n: nat, r: int16): (q: seq<int16>)
    requires |p| == 9 && |k| == 9 && 1 <= n < 8
    ensures |q| == 9
    ensures forall m :: 0 <= m < 9 ==> q[m] == NextPAt(p, k, n, r, m)
  {
    hide NextPAt;
    seq<int16>(9, m requires 0 <= m < 9 => NextPAt(p, k, n, r, m))
  }

  function NextPAt(p: seq<int16>, k: seq<int16>, n: nat, r: int16, m: nat): int16
    requires |p| == 9 && |k| == 9 && 1 <= n < 8 && m < 9
  {
    hide MultR, SatAdd;
    if m == 0 then SatAdd(p[0], MultR(p[1], r))
    else if m <= 8 - n then SatAdd(p[m + 1], MultR(k[m], r)) else p[m]
  }

  function NextK(p: seq<int16>, k: seq<int16>, n: nat, r: int16): (q: seq<int16>)
    requires |p| == 9 && |k| == 9 && 1 <= n < 8
    ensures |q| == 9
    ensures forall m :: 0 <= m < 9 ==> q[m] == NextKAt(p, k, n, r, m)
  {
    hide NextKAt;
    seq<int16>(9, m requires 0 <= m < 9 => NextKAt(p, k, n, r, m))
  }

  function NextKAt(p: seq<int16>, k: seq<int16>, n: nat, r: int16, m: nat): int16
    requires |p| == 9 && |k| == 9 && 1 <= n < 8 && m < 9
  {
    hide MultR, SatAdd;
    if 1 <= m <= 8 - n then SatAdd(k[m], MultR(p[m + 1], r)) else k[m]
  }

  function Zeros(n: nat): (z: seq<int16>)
    ensures |z| == n && forall i :: 0 <= i < n ==> z[i] == 0
  {
    seq(n, i => 0)
  }

  /** The coefficients from round `n` on. */
  function Schur(p: seq<int16>, k: seq<int16>, n: nat): (r: seq<int16>)
    requires |p| == 9 && |k| == 9 && 1 <= n <= 8
    ensures |r| == 9 - n
    decreases 8 - n
  {
    hide Reflection, NextP, NextK;
    if p[0] < SatAbs(p[1]) then Zeros(9 - n)
    else
      var c := Reflection(p[0], p[1]);
      if n == 8 then [c] else [c] + Schur(NextP(p, k, n, c), NextK(p, k, n, c), n + 1)
  }

  /** The start of K: its two ends are never read. */
  function Inner(p: seq<int16>): (k: seq<int16>)
    requires |p| == 9
    ensures |k| == 9
  {
    p[0 := 0][8 := 0]
  }

  function ReflectionCoefficients(acf: seq<int>): (r: seq<int16>)
    requires |acf| == 9 && 0 <= acf[0] <= INT32_MAX
    ensures |r| == 8
  {
    hide Schur, Normalised;
    if acf[0] == 0 then Zeros(8) else Schur(Normalised(acf), Inner(Normalised(acf)), 1)
  }

  lemma ReflectionIsNotMinimal(p0: int16, p1: int16)
    requires SatAbs(p1) <= p0
    ensures Reflection(p0, p1) != INT16_MIN
  {
    hide Div;
    DivFitsWord(SatAbs(p1), p0);
  }

  /** No coefficient is -32768. */
  lemma {:induction false} CoefficientsInRange(p: seq<int16>, k: seq<int16>, n: nat, i: nat)
    requires |p| == 9 && |k| == 9 && 1 <= n <= 8 && i < 9 - n
    ensures Schur(p, k, n)[i] != INT16_MIN
    decreases 8 - n
  {
    hide NextP, NextK, Reflection;
    if SatAbs(p[1]) <= p[0] {
      ReflectionIsNotMinimal(p[0], p[1]);
      var c := Reflection(p[0], p[1]);
      if i > 0 {
        CoefficientsInRange(NextP(p, k, n, c), NextK(p, k, n, c), n + 1, i - 1);
      }
    }
  }

  /** The prediction error never grows and never turns negative: a round takes from `p[0]` at most
      the magnitude of `p[1]`. */
  lemma ErrorShrinks(p0: int16, p1: int16)
    requires SatAbs(p1) <= p0
    ensures 0 <= SatAdd(p0, MultR(p1, Reflection(p0, p1))) <= p0
  {
    hide Div;
    DivFitsWord(SatAbs(p1), p0);
    var r: int := Reflection(p0, p1);
    MultRExact(p1, r);
    MulBound(p1, r, Abs(p1), INT16_MAX);
    if p1 > 0 {
      MulBound(p1, -r, Abs(p1), INT16_MAX);
      assert p1 * (-r) == -(p1 * r);
    }
  }

  /** P and K after up to `m` more rounds, the first of them round `n`; a round whose guard fails is the
      last. */
  function Rounds(p: seq<int16>, k: seq<int16>, n: nat, m: nat): (r: (seq<int16>, seq<int16>))
    requires |p| == 9 && |k| == 9 && 1 <= n && n + m <= 8
    ensures |r.0| == 9 && |r.1| == 9
    decreases m
  {
    hide Reflection, NextP, NextK;
    if m == 0 || p[0] < SatAbs(p[1]) then (p, k)
    else
      var c := Reflection(p[0], p[1]);
      Rounds(NextP(p, k, n, c), NextK(p, k, n, c), n + 1, m - 1)
  }

  /** Every coefficient is the quotient of its own round, formed where the division's precondition holds,
      or zero from the first failed guard on. */
  lemma {:induction false} SchurByRounds(p: seq<int16>, k: seq<int16>, n: nat, m: nat)
    requires |p| == 9 && |k| == 9 && 1 <= n && n + m <= 8
    ensures var q := Rounds(p, k, n, m).0;
            if SatAbs(q[1]) <= q[0] then Schur(p, k, n)[m] == Reflection(q[0], q[1]) else Schur(p, k, n)[m] == 0
    decreases m
  {
    hide Schur, Reflection, NextP, NextK, SatAbs;
    SchurUnfold(p, k, n);
    if m > 0 && SatAbs(p[1]) <= p[0] {
      var c := Reflection(p[0], p[1]);
      SchurByRounds(NextP(p, k, n, c), NextK(p, k, n, c), n + 1, m - 1);
      assert Schur(p, k, n)[m] == Schur(p, k, n)[1..][m - 1];
    }
  }

  /** Along the whole recursion the prediction error never grows and never becomes negative. */
  lemma {:induction false} ErrorNeverGrows(p: seq<int16>, k: seq<int16>, n: nat, m: nat)
    requires |p| == 9 && |k| == 9 && 1 <= n && n + m <= 8 && 0 <= p[0]
    ensures 0 <= Rounds(p, k, n, m).0[0] <= p[0]
    decreases m
  {
    hide Reflection, NextP, NextK, SatAbs;
    if m > 0 && SatAbs(p[1]) <= p[0] {
      var c := Reflection(p[0], p[1]);
      RoundShrinks(p, k, n);
      ErrorNeverGrows(NextP(p, k, n, c), NextK(p, k, n, c), n + 1, m - 1);
    }
  }

  lemma RoundShrinks(p: seq<int16>, k: seq<int16>, n: nat)
    requires |p| == 9 && |k| == 9 && 1 <= n < 8 && SatAbs(p[1]) <= p[0]
    ensures 0 <= NextP(p, k, n, Reflection(p[0], p[1]))[0] <= p[0]
  {
    hide SatAbs, Reflection, SatAdd, MultR;
    ErrorShrinks(p[0], p[1]);
  }

  /** `reflection_coefficients`: exactly eight values are written, in order, and every division has
      a numerator that its denominator covers. */
  method ReflectionInto(acf: array<int>, out: array<int16>)
    requires acf.Length == 9 && out.Length == 8 && Dominated(acf[..])
    modifies out
    ensures out[..] == ReflectionCoefficients(acf[..])
    ensures forall i :: 0 <= i < 8 ==> out[i] != INT16_MIN
  {
    hide Normalised, Schur, Dominated, Inner;
    if acf[0] == 0 {
      var idx := 0;
      while idx < 8
        invariant 0 <= idx <= 8
        invariant forall j :: 0 <= j < idx ==> out[j] == 0
      {
        out[idx] := 0;
        idx := idx + 1;
      }
      assert out[..] == Zeros(8);
      return;
    }
    LagZeroIsPositive(acf[..]);
    var p := Normalise(acf);
    var k := InnerOf(p);
    NoneIsMinimal(p[..], k[..]);
    SchurInto(p, k, out);
  }

  lemma LagZeroIsPositive(acf: seq<int>)
    requires Dominated(acf) && acf[0] != 0
    ensures 0 < acf[0] <= INT32_MAX
  {
  }

  /** The start of P: the shifted autocorrelation. */
  method Normalise(acf: array<int>) returns (p: array<int16>)
    requires acf.Length == 9 && Dominated(acf[..]) && 0 < acf[0] <= INT32_MAX
    ensures fresh(p) && p.Length == 9 && p[..] == Normalised(acf[..])
  {
    hide Pow2, Norm, Shr, ToInt16, Dominated;
    NormNormalises(acf[0]);
    var temp := Norm(acf[0]);
    p := new int16[9](_ => 0);
    ghost var all := Normalised(acf[..]);
    var i := 0;
    while i <= 8
      invariant 0 <= i <= 9
      invariant forall j :: 0 <= j < i ==> p[j] == all[j]
    {
      NormalisingNeverOverflows(acf[..], i);
      assert IsInt32(acf[i] * Pow2(temp));
      p[i] := ToInt16(Shr(acf[i] * Pow2(temp), 16));
      i := i + 1;
    }
  }

  /** The start of K. */
  method InnerOf(p: array<int16>) returns (k: array<int16>)
    requires p.Length == 9
    ensures fresh(k) && k.Length == 9 && k[..] == Inner(p[..])
  {
    k := new int16[9](_ => 0);
    var i := 1;
    while i <= 7
      invariant 1 <= i <= 8
      invariant forall j :: 1 <= j < i ==> k[j] == p[j]
      invariant k[0] == 0 && k[8] == 0
    {
      k[i] := p[i];
      i := i + 1;
    }
  }

  /** The recursion, with its early exit. */
  method SchurInto(p: array<int16>, k: array<int16>, out: array<int16>)
    requires p.Length == 9 && k.Length == 9 && out.Length == 8 && p != k && p != out && k != out
    modifies p, k, out
    ensures out[..] == Schur(old(p[..]), old(k[..]), 1)
  {
    hide Schur, Reflection, NextP, NextK;
    ghost var all := Schur(p[..], k[..], 1);
    var idx := 0;
    var n := 1;
    while n <= 8
      invariant 1 <= n <= 9 && idx == n - 1
      invariant out[..idx] == all[..idx]
      invariant n <= 8 ==> all[idx..] == Schur(p[..], k[..], n)
    {
      SchurUnfold(p[..], k[..], n);
      ghost var pn, kn := p[..], k[..];
      var t := SatAbs(p[1]);
      if p[0] < t {
        var i := n;
        while i <= 8
          invariant n <= i <= 9 && idx == i - 1
          invariant out[..idx] == all[..idx]
        {
          assert all[n - 1..][idx - (n - 1)] == 0;
          out[idx] := 0;
          idx := idx + 1;
          i := i + 1;
        }
        assert out[..] == all;
        return;
      }
      var r := Divide(t, p[0]);
      if p[1] > 0 {
        r := -r;
      }
      ReflectionIs(p[0], p[1]);
      assert all[idx..][0] == r;
      out[idx] := r;
      if n == 8 {
        assert out[..] == all;
        return;
      }
      assert all[idx + 1..] == all[idx..][1..] == Schur(NextP(pn, kn, n, r), NextK(pn, kn, n, r), n + 1);
      SchurRound(p, k, n, r);
      idx := idx + 1;
      n := n + 1;
    }
  }

  lemma NoneIsMinimal(p: seq<int16>, k: seq<int16>)
    requires |p| == 9 && |k| == 9
    ensures forall i :: 0 <= i < 8 ==> Schur(p, k, 1)[i] != INT16_MIN
  {
    hide Schur;
    forall i | 0 <= i < 8
      ensures Schur(p, k, 1)[i] != INT16_MIN
    {
      CoefficientsInRange(p, k, 1, i);
    }
  }

  lemma SchurUnfold(p: seq<int16>, k: seq<int16>, n: nat)
    requires |p| == 9 && |k| == 9 && 1 <= n <= 8
    ensures p[0] < SatAbs(p[1]) ==> Schur(p, k, n) == Zeros(9 - n)
    ensures SatAbs(p[1]) <= p[0] ==> Schur(p, k, n)[0] == Reflection(p[0], p[1])
    ensures SatAbs(p[1]) <= p[0] && n < 8 ==>
              var c := Reflection(p[0], p[1]);
              Schur(p, k, n)[1..] == Schur(NextP(p, k, n, c), NextK(p, k, n, c), n + 1)
  {
    hide Reflection, NextP, NextK;
  }

  lemma ReflectionIs(p0: int16, p1: int16)
    requires SatAbs(p1) <= p0
    ensures Reflection(p0, p1) as int == if p1 > 0 then -Div(SatAbs(p1), p0) else Div(SatAbs(p1), p0)
  {
  }

  /** One round in place: `p[m]` is overwritten before `k[m]` is, but only `p[m + 1]` is still
      needed. */
  method SchurRound(p: array<int16>, k: array<int16>, n: nat, r: int16)
    requires p.Length == 9 && k.Length == 9 && p != k && 1 <= n < 8
    modifies p, k
    ensures p[..] == NextP(old(p[..]), old(k[..]), n, r)
    ensures k[..] == NextK(old(p[..]), old(k[..]), n, r)
  {
    hide MultR, SatAdd, NextP, NextK;
    ghost var p0, k0 := p[..], k[..];
    var temp := MultR(p[1], r);
    p[0] := SatAdd(p[0], temp);
    var m := 1;
    while m <= 8 - n
      invariant 1 <= m <= 9 - n
      invariant forall j :: 0 <= j < m ==> p[j] == NextPAt(p0, k0, n, r, j)
      invariant forall j :: m <= j < 9 ==> p[j] == p0[j]
      invariant forall j :: 0 <= j < m ==> k[j] == NextKAt(p0, k0, n, r, j)
      invariant forall j :: m <= j < 9 ==> k[j] == k0[j]
    {
      temp := MultR(k[m], r);
      p[m] := SatAdd(p[m + 1], temp);
      temp := MultR(p[m + 1], r);
      k[m] := SatAdd(k[m], temp);
      m := m + 1;
    }
    assert forall j :: m <= j < 9 ==> NextPAt(p0, k0, n, r, j) == p0[j];
    assert forall j :: m <= j < 9 ==> NextKAt(p0, k0, n, r, j) == k0[j];
    assert p[..] == NextP(p0, k0, n, r);
    assert k[..] == NextK(p0, k0, n, r);
  }

  // ----- 4.2.6: log area ratios

  function LarMagnitude(t: int16): (r: int16)
    requires 0 <= t
    ensures 0 <= r <= 26620
  {
    if t < 22118 then t / 2 else if t < 31130 then t - 11059 else (t - 26112) * 4
  }

  function Lar(r: int16): int16 {
    var t := LarMagnitude(SatAbs(r));
    if r < 0 then -t else t
  }

  function Lars(r: seq<int16>): (l: seq<int16>)
    ensures |l| == |r| && forall i :: 0 <= i < |r| ==> l[i] == Lar(r[i])
  {
    hide Lar;
    seq(|r|, i requires 0 <= i < |r| => Lar(r[i]))
  }

  /** The ratio approximates the logarithm piecewise, in units of 2^14: `r` up to 0.675, `2r - 0.675` up to 0.950
      and `8r - 6.375` above, and the same with the opposite sign below zero. */
  lemma LarIsPiecewise(r: int16)
    requires 0 <= r
    ensures r < 22118 ==> 0 <= r - 2 * Lar(r) <= 1
    ensures 22118 <= r < 31130 ==> Abs(1000 * (r - Lar(r)) - 675 * 0x4000) <= 1000
    ensures 31130 <= r ==> Abs(1000 * (4 * r - Lar(r)) - 6375 * 0x4000) <= 1000
    ensures Lar(Opposite(r)) as int == Opposite(Lar(r))
  {
  }

  function Opposite(x: int): int {
    -x
  }

  /** Larger coefficients have larger ratios, across both joints. */
  lemma LarGrows(r1: int16, r2: int16)
    requires r1 <= r2
    ensures Lar(r1) <= Lar(r2)
  {
    hide SatAbs;
    if r1 < 0 {
      AbsOfNegative(r1);
    }
    if r2 < 0 {
      AbsOfNegative(r2);
    }
  }

  lemma AbsOfNegative(r: int16)
    requires r < 0
    ensures SatAbs(r) as int == if r == INT16_MIN then 0x7FFF else Opposite(r)
  {
  }

  // ----- 4.2.7: quantisation and coding

  datatype Coding = Coding(a: int16, b: int16, mac: int, mic: int)

  /** The constants of the eight coefficients. */
  function CodingOf(i: nat): (c: Coding)
    requires i < 8
    ensures c.mac - c.mic == LarLimit(i)
  {
    if i == 0 then Coding(20480, 0, 31, -32)
    else if i == 1 then Coding(20480, 0, 31, -32)
    else if i == 2 then Coding(20480, 2048, 15, -16)
    else if i == 3 then Coding(20480, -2560, 15, -16)
    else if i == 4 then Coding(13964, 94, 7, -8)
    else if i == 5 then Coding(15360, -1792, 7, -8)
    else if i == 6 then Coding(8534, -341, 3, -4)
    else Coding(9036, -1144, 3, -4)
  }

  /** The largest code of coefficient `i`: six, six, five, five, four, four, three, three bits. */
  function LarLimit(i: nat): nat
    requires i < 8
  {
    if i < 2 then 63 else if i < 4 then 31 else if i < 6 then 15 else 7
  }

  function LarCode(lar: int16, c: Coding): int
  {
    var temp := SatAdd(SatAdd(SatMul(c.a, lar), c.b), 256) / 512;
    if temp > c.mac then c.mac - c.mic else if temp < c.mic then 0 else temp - c.mic
  }

  /** Every coded coefficient fits its bits. */
  lemma LarCodeFits(lar: int16, i: nat)
    requires i < 8
    ensures 0 <= LarCode(lar, CodingOf(i)) <= LarLimit(i)
  {
    hide SatMul, SatAdd;
  }

  /** The codes of the eight ratios of one frame. */
  function LarCodes(lars: seq<int16>): (c: seq<int16>)
    requires |lars| == 8
    ensures |c| == 8
    ensures forall i :: 0 <= i < 8 ==> c[i] as int == LarCode(lars[i], CodingOf(i))
    ensures forall i :: 0 <= i < 8 ==> 0 <= c[i] <= LarLimit(i)
  {
    hide LarCode, CodingOf;
    seq(8, i requires 0 <= i < 8 =>
      LarCodeFits(lars[i], i);
      LarCode(lars[i], CodingOf(i)))
  }

  /** `transform_to_log_area_ratios`, with its asserts. */
  method TransformToLars(r: array<int16>)
    requires r.Length == 8
    modifies r
    ensures r[..] == Lars(old(r[..]))
    ensures forall i :: 0 <= i < 8 ==> r[i] != INT16_MIN
  {
    var i := 0;
    while i < 8
      invariant 0 <= i <= 8
      invariant forall j :: 0 <= j < i ==> r[j] == Lar(old(r[j])) && r[j] != INT16_MIN
      invariant forall j :: i <= j < 8 ==> r[j] == old(r[j])
    {
      var temp: int := SatAbs(r[i]);
      assert temp >= 0;
      if temp < 22118 {
        temp := temp / 2;
      } else if temp < 31130 {
        assert temp >= 11059;
        temp := temp - 11059;
      } else {
        assert temp >= 26112;
        temp := temp - 26112;
        temp := temp * 4;
      }
      r[i] := if r[i] < 0 then -temp else temp;
      i := i + 1;
    }
  }

  /** `quantization_and_coding`: the STEP macro on each of the eight ratios. */
  method QuantiseLars(lar: array<int16>)
    requires lar.Length == 8
    modifies lar
    ensures lar[..] == LarCodes(old(lar[..]))
  {
    hide SatMul, SatAdd, CodingOf;
    var i := 0;
    while i < 8
      invariant 0 <= i <= 8
      invariant forall j :: 0 <= j < i ==> lar[j] as int == LarCode(old(lar[j]), CodingOf(j))
      invariant forall j :: i <= j < 8 ==> lar[j] == old(lar[j])
    {
      var c := CodingOf(i);
      LarCodeFits(lar[i], i);
      var temp: int := SatMul(c.a, lar[i]);
      temp := SatAdd(temp, c.b);
      temp := SatAdd(temp, 256);
      temp := temp / 512;
      lar[i] := if temp > c.mac then c.mac - c.mic else if temp < c.mic then 0 else temp - c.mic;
      i := i + 1;
    }
  }

  /** What the analysis of a frame yields: eight codes, and the frame as the scaling left it. */
  function Analysed(s: seq<int16>): (r: (seq<int16>, seq<int16>))
    requires |s| == 160
    ensures |r.0| == 8 && |r.1| == 160
    ensures forall i :: 0 <= i < 8 ==> 0 <= r.0[i] <= LarLimit(i)
  {
    hide ReflectionCoefficients, FrameShift, LarLimit;
    AcfIsDominated(s);
    (LarCodes(Lars(ReflectionCoefficients(Acf(s)))),
     RescaledFrame(ScaledFrame(s, FrameShift(s)), FrameShift(s)))
  }

  /** `gsm0610_lpc_analysis`. */
  method LpcAnalysis(amp: array<int16>) returns (larc: array<int16>)
    requires amp.Length == 160
    modifies amp
    ensures fresh(larc) && larc.Length == 8
    ensures (larc[..], amp[..]) == Analysed(old(amp[..]))
  {
    hide ReflectionCoefficients, FrameShift, Dominated, Lar, LarCode, CodingOf, Lars, LarCodes, Acf, ScaledFrame,
         RescaledFrame, LarLimit;
    AcfIsDominated(amp[..]);
    var acf := Autocorrelation(amp);
    larc := new int16[8](_ => 0);
    ReflectionInto(acf, larc);
    TransformToLars(larc);
    QuantiseLars(larc);
  }
}
