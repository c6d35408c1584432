/** The long-term predictor of the GSM 06.10 coder (jni/spandsp/gsm0610_long_term.c, sections 4.2.11,
    4.2.12 and 4.3.2 of GSM 06.10): the lag search, the gain quantiser, and the filters of both
    directions over the reconstructed residual. */
module GsmLongTerm {
  import opened FixedPoint
  import opened GsmArith

  const DLB: seq<int> := [6554, 16384, 26214, 32767]
  const QLB: seq<int> := [3277, 11469, 21299, 32767]

  /** The gain for a two-bit code. */
  function Gain(bc: nat): (g: int16)
    requires bc < 4
    ensures 3277 <= g
  {
    QLB[bc]
  }

  function Decision(bc: nat): (d: int16)
    requires bc < 4
    ensures 6554 <= d
  {
    DLB[bc]
  }

  /** The 120 latest samples of the reconstructed residual, oldest first. */
  type History = h: seq<int16> | |h| == 120 witness Silence()

  function Silence(): (h: seq<int16>)
    ensures |h| == 120 && forall i :: 0 <= i < 120 ==> h[i] == 0
  {
    seq(120, i => 0)
  }

  predicate Lag(n: int) {
    40 <= n <= 120
  }

  function Times(a: int, b: int): int {
    a * b
  }

  // ----- the lag search

  /** The correlation of the sub-segment with the history at a lag, over its first `n` samples. */
  function CrossCorr(wt: seq<int16>, h: History, lag: int, n: nat): int
    requires |wt| == 40 && Lag(lag) && n <= 40
  {
    if n == 0 then 0
    else CrossCorr(wt, h, lag, n - 1) + Times(wt[n - 1], h[120 + n - 1 - lag])
  }

  function CorrAt(wt: seq<int16>, h: History, lag: int): int
    requires |wt| == 40 && Lag(lag)
  {
    CrossCorr(wt, h, lag, 40)
  }

  /** The scan over the lags below `n`: the largest positive correlation and the first lag that has
      it, or zero and lag 40 when there is none. */
  function Scan(wt: seq<int16>, h: History, n: int): (r: (int, int))
    requires |wt| == 40 && 40 <= n <= 121
    ensures Lag(r.1) && 0 <= r.0
    ensures forall lag :: 40 <= lag < n ==> CorrAt(wt, h, lag) <= r.0
    ensures r.0 == 0 ==> r.1 == 40
    ensures r.0 > 0 ==> CorrAt(wt, h, r.1) == r.0 && forall lag :: 40 <= lag < r.1 ==> CorrAt(wt, h, lag) < r.0
    decreases n
  {
    hide CorrAt;
    if n == 40 then (0, 40)
    else
      var (max, index) := Scan(wt, h, n - 1);
      if CorrAt(wt, h, n - 1) > max then (CorrAt(wt, h, n - 1), n - 1) else (max, index)
  }

  lemma {:induction false} CrossCorrBound(wt: seq<int16>, h: History, lag: int, n: nat)
    requires |wt| == 40 && Lag(lag) && n <= 40
    requires forall i :: 0 <= i < 40 ==> Abs(wt[i]) <= 512
    ensures Abs(CrossCorr(wt, h, lag, n)) <= n * 0x100_0000
  {
    if n > 0 {
      CrossCorrBound(wt, h, lag, n - 1);
      MulBound(wt[n - 1], h[120 + n - 1 - lag], 512, 0x8000);
    }
  }

  // ----- scaling and gain

  /** The right shift that keeps the correlation in range. */
  function ScaleOf(dmax: int16): (r: nat)
    requires 0 <= dmax
    ensures r <= 6
  {
    if dmax == 0 then 6
    else
      UpperNorm(dmax);
      var temp := Norm(dmax * 0x10000);
      if temp > 6 then 0 else 6 - temp
  }

  /** Nothing is shifted out of a quiet sub-segment, and no more than necessary out of a loud one. */
  lemma ScaleIs(dmax: int16)
    requires 0 < dmax
    ensures ScaleOf(dmax) == 0 <==> dmax < 512
    ensures dmax >= 512 ==> Pow2(ScaleOf(dmax) + 8) <= dmax < Pow2(ScaleOf(dmax) + 9)
  {
    hide Pow2, TopBit, Norm;
    UpperNorm(dmax);
    Pow2Values();
    var t := TopBit(dmax);
    if t <= 8 {
      Pow2Mono(t + 1, 9);
    } else {
      Pow2Mono(9, t);
    }
  }

  lemma UpperNorm(x: int16)
    requires 0 < x
    ensures 0 <= Norm(x as int * 0x10000) == 14 - TopBit(x)
  {
    hide TopBit, Norm;
    NormOfUpperHalf(x);
  }

  function ShiftedRight(x: int16, n: nat): int16 {
    ShrFits(x, n);
    Shr(x, n)
  }

  /** The scaled sub-segment. */
  function Scaled(d: seq<int16>): (wt: seq<int16>)
    ensures |wt| == |d|
    ensures forall i :: 0 <= i < |d| ==> wt[i] == ShiftedRight(d[i], ScaleOf(MaxAbs(d)))
  {
    hide ShiftedRight, MaxAbs, ScaleOf;
    seq(|d|, i requires 0 <= i < |d| => ShiftedRight(d[i], ScaleOf(MaxAbs(d))))
  }

  /** Ten bits are left of every sample. */
  lemma ScaledFits(d: seq<int16>, i: nat)
    requires i < |d|
    ensures Abs(Scaled(d)[i]) <= 512
  {
    hide Pow2, TopBit, MaxAbs, Norm;
    var dmax := MaxAbs(d);
    Pow2Values();
    if dmax > 0 {
      UpperNorm(dmax);
      var t := TopBit(dmax);
      assert dmax < Pow2(t + 1);
      NormOfUpperHalf(dmax);
      ShiftedSample(d[i], dmax, t);
    }
  }

  lemma ShiftedSample(x: int16, dmax: int16, t: nat)
    requires SatAbs(x) <= dmax < Pow2(t + 1) && t <= 14
    ensures Abs(Shr(x, if t < 8 then 0 else t - 8)) <= 512
  {
    hide Pow2;
    Pow2Values();
    if t < 8 {
      Pow2Mono(t + 1, 8);
    } else if t == 8 {} else if t == 9 {} else if t == 10 {} else if t == 11 {}
    else if t == 12 {} else if t == 13 {} else {}
  }

  /** The power of the predicting samples, over the first `n`. */
  function Power(h: History, lag: int, n: nat): (r: int)
    requires Lag(lag) && n <= 40
    ensures 0 <= r <= n * 0x100_0000
  {
    if n == 0 then 0
    else
      SquareFits(h[120 + n - 1 - lag]);
      Power(h, lag, n - 1) + Times(h[120 + n - 1 - lag] / 8, h[120 + n - 1 - lag] / 8)
  }

  lemma SquareFits(x: int16)
    ensures 0 <= Times(x / 8, x / 8) <= 0x100_0000
  {
    MulBound(x / 8, x / 8, 4096, 4096);
  }

  /** The gain decision on the normalised correlation and power. */
  function GainFrom(r: int16, s: int16, bc: nat): (b: nat)
    requires bc <= 3
    ensures bc <= b <= 3
    ensures b < 3 ==> r <= SatMul(s, Decision(b))
    ensures forall k :: bc <= k < b ==> r > SatMul(s, Decision(k))
    decreases 3 - bc
  {
    hide SatMul, Decision;
    if bc == 3 || r <= SatMul(s, Decision(bc)) then bc else GainFrom(r, s, bc + 1)
  }

  /** The upper half of a normalised word. */
  function UpperWord(x: int, shift: nat): int16 {
    ToInt16(Shr(x * Pow2(shift), 16))
  }

  function GainCode(lmax: int, lpower: int): (bc: nat)
    requires IsInt32(lmax) && IsInt32(lpower)
    ensures bc <= 3
  {
    if lmax <= 0 then 0
    else if lmax >= lpower then 3
    else
      NormNormalises(lpower);
      GainFrom(UpperWord(lmax, Norm(lpower)), UpperWord(lpower, Norm(lpower)), 0)
  }

  /** Between the two early exits both numbers stay inside 32 bits when normalised, no upper half is
      cut, and the correlation stays below the power. */
  lemma GainIsExact(lmax: int, lpower: int)
    requires 0 < lmax < lpower <= INT32_MAX
    ensures 0 <= Norm(lpower)
    ensures IsInt32(lmax * Pow2(Norm(lpower))) && IsInt32(lpower * Pow2(Norm(lpower)))
    ensures UpperWord(lmax, Norm(lpower)) as int == Shr(lmax * Pow2(Norm(lpower)), 16)
    ensures UpperWord(lpower, Norm(lpower)) as int == Shr(lpower * Pow2(Norm(lpower)), 16)
    ensures 0 <= UpperWord(lmax, Norm(lpower)) <= UpperWord(lpower, Norm(lpower))
    ensures 0x4000 <= UpperWord(lpower, Norm(lpower))
  {
    hide Pow2, Norm;
    NormNormalises(lpower);
    Pow2Values();
    MulMono(lmax, Pow2(Norm(lpower)), lpower, Pow2(Norm(lpower)));
  }

  /** The four gains are 10, 35, 65 and 100 percent. */
  lemma GainValues(bc: nat)
    requires bc < 4
    ensures Abs(100 * Gain(bc) - 0x8000 * (if bc == 0 then 10 else if bc == 1 then 35 else if bc == 2 then 65 else 100))
         <= 100
  {
  }

  /** Each gain stands for an interval of the ratio of correlation and power, bounded by 20, 50 and 80 percent:
      the chosen gain is the one whose interval holds the ratio, up to two units in the fifteenth bit. */
  lemma GainFollowsRatio(lmax: int, lpower: int)
    requires 0 < lmax <= INT32_MAX && 0 <= lpower <= INT32_MAX
    ensures var bc := GainCode(lmax, lpower);
            && (bc < 3 ==> 0x8000 * lmax < ((if bc == 0 then 6554 else if bc == 1 then 16384 else 26214) + 2) * lpower)
            && (bc > 0 ==> 0x8000 * lmax > ((if bc == 1 then 6554 else if bc == 2 then 16384 else 26214) - 2) * lpower
                           || lmax >= lpower)
  {
    if 0 < lmax < lpower {
      hide SatMul, UpperWord, Norm, Decision, Pow2;
      UpperWordsAre(lmax, lpower);
      var p, r, s := Pow2(Norm(lpower)), UpperWord(lmax, Norm(lpower)), UpperWord(lpower, Norm(lpower));
      var bc := GainFrom(r, s, 0);
      DecisionValues();
      if bc < 3 {
        ComparisonIs(r, s, Decision(bc));
        BelowDecision(lmax, lpower, p, r, s, Decision(bc));
      }
      if bc > 0 {
        ComparisonIs(r, s, Decision(bc - 1));
        AboveDecision(lmax, lpower, p, r, s, Decision(bc - 1));
      }
    }
  }

  /** The gain is near the ratio itself: within 10 percent of the power for the lowest code, 15 for the next two,
      and 20 for the highest. */
  lemma GainIsNear(lmax: int, lpower: int)
    requires 0 < lmax <= lpower <= INT32_MAX
    ensures var bc := GainCode(lmax, lpower);
            Abs(0x8000 * lmax - Gain(bc) * lpower)
            <= (if bc == 0 then 3280 else if bc < 3 then 4918 else 6556) * lpower
  {
    hide GainCode;
    GainFollowsRatio(lmax, lpower);
    var bc := GainCode(lmax, lpower);
    if bc == 0 {} else if bc == 1 {} else if bc == 2 {} else {}
  }

  lemma DecisionValues()
    ensures Decision(0) == 6554 && Decision(1) == 16384 && Decision(2) == 26214
  {
  }

  /** Upper halves of two normalised numbers compare like the numbers, up to two units of the decision. */
  lemma BelowDecision(lmax: nat, lpower: nat, p: nat, r: int, s: nat, d: nat)
    requires 0x4000_0000 <= lpower * p && lmax * p < 0x1_0000 * r + 0x1_0000 && 0x1_0000 * s <= lpower * p
    requires 0x8000 * r <= s * d
    ensures 0x8000 * lmax < (d + 2) * lpower
  {
    MulMono(0x1_0000 * s, d, lpower * p, d);
    assert 0x1_0000 * s * d == 0x1_0000 * (s * d);
    SumTimes(d, 2, lpower, p);
    ScaledLess(0x8000, lmax, d + 2, lpower, p);
  }

  lemma AboveDecision(lmax: nat, lpower: nat, p: nat, r: int, s: nat, d: nat)
    requires 0x4000_0000 <= lpower * p && 0x1_0000 * r <= lmax * p && lpower * p < 0x1_0000 * s + 0x1_0000
    requires 0x8000 * r > s * d && 2 <= d <= 0x8000
    ensures 0x8000 * lmax > (d - 2) * lpower
  {
    MulMono(lpower * p, d, 0x1_0000 * s + 0x1_0000, d);
    assert (0x1_0000 * s + 0x1_0000) * d == 0x1_0000 * (s * d) + 0x1_0000 * d;
    SumTimes(d, -2, lpower, p);
    ScaledLess(d - 2, lpower, 0x8000, lmax, p);
  }

  /** A common factor cancels. */
  lemma ScaledLess(a: nat, x: nat, b: nat, y: nat, p: nat)
    requires a * (x * p) < b * (y * p)
    ensures a * x < b * y
  {
    assert a * x * p == a * (x * p) && b * y * p == b * (y * p);
    if a * x >= b * y {
      MulMono(b * y, p, a * x, p);
    }
  }

  lemma SumTimes(a: int, b: int, x: int, p: int)
    ensures (a + b) * (x * p) == (x * p) * a + b * (x * p)
  {
  }

  /** The comparison of the gain search, without its rounding. */
  lemma ComparisonIs(r: int16, s: int16, d: int16)
    requires 0 <= s && 0 < d
    ensures r <= SatMul(s, d) <==> 0x8000 * r <= Times(s, d)
  {
  }

  lemma UpperWordsAre(lmax: int, lpower: int)
    requires 0 < lmax < lpower <= INT32_MAX
    ensures Norm(lpower) >= 0
    ensures var (p, r, s) := (Pow2(Norm(lpower)), UpperWord(lmax, Norm(lpower)), UpperWord(lpower, Norm(lpower)));
            && 0x4000_0000 <= Times(lpower, p) && 0 <= r && 0 <= s
            && 0x1_0000 * r <= Times(lmax, p) < 0x1_0000 * r + 0x1_0000
            && 0x1_0000 * s <= Times(lpower, p) < 0x1_0000 * s + 0x1_0000
  {
    hide Norm;
    NormNormalises(lpower);
    GainIsExact(lmax, lpower);
    Pow2Values();
  }

  /** Lag and gain code of one sub-segment. */
  function Parameters(d: seq<int16>, h: History): (r: (int, nat))
    requires |d| == 40
    ensures Lag(r.0) && r.1 <= 3
  {
    hide Scan, Power, GainCode, Scaled, ScaleOf;
    var (max, lag) := Scan(Scaled(d), h, 121);
    var lmax := Shr(2 * max, 6 - ScaleOf(MaxAbs(d)));
    CorrelationFits(d, h);
    (lag, GainCode(lmax, 2 * Power(h, lag, 40)))
  }

  /** For every sub-segment and history the largest doubled correlation fits 32 bits, before and
      after it is scaled back. */
  lemma CorrelationFits(d: seq<int16>, h: History)
    requires |d| == 40
    ensures var max := Scan(Scaled(d), h, 121).0;
            && 0 <= 2 * max <= INT32_MAX
            && 0 <= Shr(2 * max, 6 - ScaleOf(MaxAbs(d))) <= INT32_MAX
  {
    hide CorrAt, CrossCorr, ScaleOf, Shr, MaxAbs, Scaled, Scan;
    var (max, lag) := Scan(Scaled(d), h, 121);
    CorrAtBound(d, h, lag);
    assert max <= 40 * 0x100_0000;
    ShrFits(2 * max, 6 - ScaleOf(MaxAbs(d)));
  }

  /** No correlation leaves 32 bits at any lag, doubled or not. */
  lemma CorrAtBound(d: seq<int16>, h: History, lag: int)
    requires |d| == 40 && Lag(lag)
    ensures Abs(CorrAt(Scaled(d), h, lag)) <= 40 * 0x100_0000
  {
    hide CrossCorr, ScaleOf, MaxAbs, ShiftedRight;
    forall i | 0 <= i < 40
      ensures Abs(Scaled(d)[i]) <= 512
    {
      ScaledFits(d, i);
    }
    CrossCorrBound(Scaled(d), h, lag, 40);
  }

  // ----- what correlation and power stand for

  /** Scaling the sub-segment down loses less than one unit of the scale for every sample: scaled back, every
      correlation of the search is that of the sub-segment itself to within that. */
  lemma {:induction false} ScaledCorrelation(d: seq<int16>, h: History, lag: int, n: nat)
    requires |d| == 40 && Lag(lag) && n <= 40
    ensures var p := Pow2(ScaleOf(MaxAbs(d)));
            Abs(Times(p, CrossCorr(Scaled(d), h, lag, n)) - CrossCorr(d, h, lag, n)) <= Times(p, n * 0x8000)
  {
    hide ScaleOf, MaxAbs, ShiftedRight, Times, Pow2;
    var p := Pow2(ScaleOf(MaxAbs(d)));
    if n == 0 {
      NoCorrelation(p);
    } else {
      ScaledCorrelation(d, h, lag, n - 1);
      LostBits(d[n - 1], h[120 + n - 1 - lag], ScaleOf(MaxAbs(d)));
      TimesAdds(p, CrossCorr(Scaled(d), h, lag, n - 1), Times(Scaled(d)[n - 1], h[120 + n - 1 - lag]));
      TimesAdds(p, (n - 1) * 0x8000, 0x8000);
    }
  }

  lemma NoCorrelation(p: nat)
    ensures Times(p, 0) == 0
  {
  }

  lemma TimesAdds(p: int, a: int, b: int)
    ensures Times(p, a + b) == Times(p, a) + Times(p, b)
  {
  }

  lemma LostBits(x: int16, y: int16, n: nat)
    ensures Abs(Times(Pow2(n), Times(ShiftedRight(x, n), y)) - Times(x, y)) <= Times(Pow2(n), 0x8000)
  {
    hide Pow2;
    var p := Pow2(n);
    var q, rest := x / p, x % p;
    assert x == q * p + rest;
    MulBound(rest, y, p, 0x8000);
    assert (q * p + rest) * y == p * (q * y) + rest * y;
  }

  /** The power of the predicting samples without their three low bits. */
  function FullPower(h: History, lag: int, n: nat): int
    requires Lag(lag) && n <= 40
  {
    if n == 0 then 0 else FullPower(h, lag, n - 1) + Times(h[120 + n - 1 - lag], h[120 + n - 1 - lag])
  }

  lemma {:induction false} PowerIsScaled(h: History, lag: int, n: nat)
    requires Lag(lag) && n <= 40
    ensures Abs(64 * Power(h, lag, n) - FullPower(h, lag, n)) <= n * 0x7_0000
  {
    hide Times;
    if n > 0 {
      PowerIsScaled(h, lag, n - 1);
      SquareOfEighth(h[120 + n - 1 - lag]);
    }
  }

  lemma SquareOfEighth(x: int16)
    ensures Abs(64 * Times(x / 8, x / 8) - Times(x, x)) <= 0x7_0000
  {
    var q, rest := x / 8, x % 8;
    assert x == 8 * q + rest;
    assert (8 * q + rest) * (8 * q + rest) == 64 * (q * q) + rest * (16 * q + rest);
    MulBound(rest, 16 * q + rest, 7, 0x1_0000);
  }

  /** The margins of the gain decision: what scaling the sub-segment and cutting the history may lose. */
  function CorrelationMargin(d: seq<int16>): int {
    Times(Pow2(ScaleOf(MaxAbs(d))), 40 * 0x8000) + 32
  }

  const POWER_MARGIN := 40 * 0x7_0000

  /** The gain code against the sub-segment itself: up to the margins, the plain correlation at the chosen lag is at
      most 20, 50 or 80 percent of the plain power there, and more than the percentage below. */
  predicate GainFits(c: int, e: int, bc: nat, margin: int) {
    && (bc < 3 ==> 0x8000 * (c - margin) <= ((if bc == 0 then 6554 else if bc == 1 then 16384 else 26214) + 2)
                                            * (e + POWER_MARGIN))
    && (bc > 0 ==> 0x8000 * (c + margin) >= ((if bc == 1 then 6554 else if bc == 2 then 16384 else 26214) - 2)
                                            * (e - POWER_MARGIN))
  }

  lemma GainFitsSegment(d: seq<int16>, h: History)
    requires |d| == 40
    ensures var (lag, bc) := Parameters(d, h);
            GainFits(CorrAt(d, h, lag), FullPower(h, lag, 40), bc, CorrelationMargin(d))
  {
    hide CrossCorr, ScaleOf, MaxAbs, Scaled, Times, Pow2, Scan, Shr, GainCode, Power, FullPower;
    var (max, lag) := Scan(Scaled(d), h, 121);
    var s := ScaleOf(MaxAbs(d));
    var lmax := Shr(2 * max, 6 - s);
    CorrelationFits(d, h);
    ScaledCorrelation(d, h, lag, 40);
    PowerIsScaled(h, lag, 40);
    SearchedIsPositive(d, h);
    RescaledCorrelation(max, s, CorrAt(Scaled(d), h, lag), CorrAt(d, h, lag));
    if lmax > 0 {
      GainFollowsRatio(lmax, 2 * Power(h, lag, 40));
    } else {
      NoGain(lmax, 2 * Power(h, lag, 40));
    }
  }

  lemma NoGain(lmax: int, lpower: int)
    requires IsInt32(lmax) && IsInt32(lpower) && lmax <= 0
    ensures GainCode(lmax, lpower) == 0
  {
  }

  /** The largest positive correlation, or zero when there is none. */
  lemma SearchedIsPositive(d: seq<int16>, h: History)
    requires |d| == 40
    ensures var (max, lag) := Scan(Scaled(d), h, 121);
            max >= CorrAt(Scaled(d), h, lag) && (max > 0 ==> max == CorrAt(Scaled(d), h, lag))
  {
    hide CorrAt, Scaled;
  }

  lemma RescaledCorrelation(max: nat, s: nat, scaled: int, c: int)
    requires s <= 6 && Abs(Times(Pow2(s), scaled) - c) <= Times(Pow2(s), 40 * 0x8000)
    requires max >= scaled && (max > 0 ==> max == scaled)
    ensures var margin := Times(Pow2(s), 40 * 0x8000) + 32;
            && c - margin <= 32 * Shr(2 * max, 6 - s)
            && (max > 0 ==> 32 * Shr(2 * max, 6 - s) <= c + margin)
            && (max == 0 ==> Shr(2 * max, 6 - s) == 0)
  {
    hide Times, Pow2;
    Pow2Add(s, 6 - s);
    Pow2Values();
    ShiftedBack(max, Pow2(s), Pow2(6 - s));
    TimesGrows(Pow2(s), scaled, max);
  }

  lemma TimesGrows(p: nat, a: int, b: int)
    requires a <= b
    ensures Times(p, a) <= Times(p, b)
  {
    MulMono(p, b - a, p, b - a);
    assert p * (b - a) == p * b - p * a;
  }

  lemma ShiftedBack(max: nat, p: nat, q: nat)
    requires p * q == 64 && q > 0
    ensures Times(p, 2 * max) == 2 * Times(p, max)
    ensures Abs(64 * (2 * max / q) - 2 * Times(p, max)) <= 64
  {
    var z, rest := 2 * max / q, 2 * max % q;
    assert 2 * max == z * q + rest;
    MulMono(p, rest, p, q);
    assert p * (z * q + rest) == (p * q) * z + p * rest;
  }

  // ----- the filters

  function PredictedSample(bc: nat, x: int16): int16
    requires bc < 4
  {
    MultR(Gain(bc), x)
  }

  /** The prediction of a sub-segment from the history. */
  function Predicted(h: History, lag: int, bc: nat): (p: seq<int16>)
    requires Lag(lag) && bc < 4
    ensures |p| == 40
    ensures forall k :: 0 <= k < 40 ==> p[k] == PredictedSample(bc, h[120 + k - lag])
  {
    hide PredictedSample;
    seq<int16>(40, k requires 0 <= k < 40 => PredictedSample(bc, h[120 + k - lag]))
  }

  /** Section 4.2.12: what is left for the excitation coder. */
  function Residual(d: seq<int16>, p: seq<int16>): (e: seq<int16>)
    requires |d| == 40 && |p| == 40
    ensures |e| == 40
    ensures forall k :: 0 <= k < 40 ==> e[k] == SatSub(d[k], p[k])
  {
    hide SatSub;
    seq(40, k requires 0 <= k < 40 => SatSub(d[k], p[k]))
  }

  /** A sub-segment that repeats the history after the lag is predicted to within one by the highest gain. */
  lemma PeriodIsPredicted(d: seq<int16>, h: History, lag: int, k: nat)
    requires |d| == 40 && Lag(lag) && k < 40 && d[k] == h[120 + k - lag]
    ensures Abs(Residual(d, Predicted(h, lag, 3))[k]) <= 1
  {
    MultRExact(Gain(3), d[k]);
  }

  /** The reconstructed sub-segment: decoded excitation on top of the prediction. */
  function Rebuilt(ep: seq<int16>, p: seq<int16>): (r: seq<int16>)
    requires |ep| == 40 && |p| == 40
    ensures |r| == 40
    ensures forall k :: 0 <= k < 40 ==> r[k] == SatAdd(ep[k], p[k])
  {
    hide SatAdd;
    seq(40, k requires 0 <= k < 40 => SatAdd(ep[k], p[k]))
  }

  /** The history after one more sub-segment. */
  function Shifted(h: History, sub: seq<int16>): History
    requires |sub| == 40
  {
    h[40..] + sub
  }

  // ----- the C routines

  /** One correlation, over the history that ends at `base`. */
  method Correlate(wt: array<int16>, dp: array<int16>, base: nat, lag: int) returns (res: int)
    requires wt.Length == 40 && 120 <= base <= dp.Length && Lag(lag)
    ensures res == CorrAt(wt[..], dp[base - 120..base], lag)
  {
    hide Times;
    ghost var h := dp[base - 120..base];
    res := 0;
    var k := 0;
    while k < 40
      invariant 0 <= k <= 40
      invariant res == CrossCorr(wt[..], h, lag, k)
    {
      assert h[120 + k - lag] == dp[base + k - lag];
      res := res + Times(wt[k], dp[base + k - lag]);
      k := k + 1;
    }
  }

  /** `gsm0610_max_cross_corr`. */
  method MaxCrossCorr(wt: array<int16>, dp: array<int16>, base: nat) returns (max: int, index: int)
    requires wt.Length == 40 && 120 <= base <= dp.Length
    ensures (max, index) == Scan(wt[..], dp[base - 120..base], 121)
  {
    hide CorrAt;
    max := 0;
    index := 40;
    var i := 40;
    while i <= 120
      invariant 40 <= i <= 121
      invariant (max, index) == Scan(wt[..], dp[base - 120..base], i)
    {
      var res := Correlate(wt, dp, base, i);
      if res > max {
        max := res;
        index := i;
      }
      i := i + 1;
    }
  }

  /** The search for the scaling shift. */
  method ScaleFor(dmax: int16) returns (scale: nat)
    requires 0 <= dmax
    ensures scale == ScaleOf(dmax) <= 6
  {
    hide Norm, TopBit;
    var temp: int;
    if dmax == 0 {
      temp := 0;
    } else {
      temp := Norm(dmax as int * 0x10000);
      UpperNorm(dmax);
    }
    scale := if temp > 6 then 0 else 6 - temp;
  }

  /** The scaling of the sub-segment, with the shift that was used. */
  method ScaleSegment(d: array<int16>) returns (wt: array<int16>, scale: nat)
    requires d.Length == 40
    ensures fresh(wt) && wt.Length == 40 && wt[..] == Scaled(d[..])
    ensures scale == ScaleOf(MaxAbs(d[..])) <= 6
  {
    hide MaxAbs, Shr, ScaleOf;
    var dmax := FindMaximum(d);
    scale := ScaleFor(dmax);
    wt := new int16[40](_ => 0);
    var k := 0;
    while k < 40
      invariant 0 <= k <= 40
      invariant forall j :: 0 <= j < k ==> wt[j] == ShiftedRight(d[j], scale)
    {
      ShrFits(d[k], scale);
      wt[k] := Shr(d[k], scale);
      k := k + 1;
    }
  }

  /** The doubled power of the samples at the chosen lag. */
  method PowerAt(dp: array<int16>, base: nat, nc: int) returns (lpower: int)
    requires 120 <= base <= dp.Length && Lag(nc)
    ensures lpower == 2 * Power(dp[base - 120..base], nc, 40)
  {
    hide Power, Times;
    ghost var h: History := dp[base - 120..base];
    lpower := 0;
    PowerOfNone(h, nc);
    var k := 0;
    while k < 40
      invariant 0 <= k <= 40
      invariant lpower == Power(h, nc, k)
    {
      PowerNext(h, nc, k);
      assert h[120 + k - nc] == dp[base + k - nc];
      var ltemp := dp[base + k - nc] / 8;
      lpower := lpower + Times(ltemp, ltemp);
      k := k + 1;
    }
    lpower := lpower * 2;
  }

  lemma PowerOfNone(h: History, lag: int)
    requires Lag(lag)
    ensures Power(h, lag, 0) == 0
  {
  }

  /** The coding of the gain. */
  method CodeGain(lmax: int, lpower: int) returns (bc: nat)
    requires IsInt32(lmax) && IsInt32(lpower)
    ensures bc == GainCode(lmax, lpower)
  {
    hide Norm, SatMul, UpperWord;
    if lmax <= 0 {
      return 0;
    }
    if lmax >= lpower {
      return 3;
    }
    NormNormalises(lpower);
    var temp := Norm(lpower);
    var r := UpperWord(lmax, temp);
    var s := UpperWord(lpower, temp);
    bc := 0;
    while bc <= 2
      invariant 0 <= bc <= 3
      invariant GainFrom(r, s, bc) == GainFrom(r, s, 0)
    {
      if r <= SatMul(s, Decision(bc)) {
        break;
      }
      bc := bc + 1;
    }
  }

  /** `evaluate_ltp_parameters`, with its asserts. */
  method EvaluateLtpParameters(d: array<int16>, dp: array<int16>, base: nat) returns (nc: int, bc: nat)
    requires d.Length == 40 && 120 <= base <= dp.Length
    ensures (nc, bc) == Parameters(d[..], dp[base - 120..base])
  {
    hide MaxAbs, Scan, Power, Shr, Scaled, GainCode, ScaleOf, CorrAt;
    ghost var h: History := dp[base - 120..base];
    var wt, scale := ScaleSegment(d);
    assert 0 <= scale <= 100;
    var max;
    max, nc := MaxCrossCorr(wt, dp, base);
    CorrelationFits(d[..], h);
    var lmax := Shr(2 * max, 6 - scale);
    assert 40 <= nc <= 120;
    var lpower := PowerAt(dp, base, nc);
    bc := CodeGain(lmax, lpower);
  }

  lemma PowerNext(h: History, lag: int, k: nat)
    requires Lag(lag) && k < 40
    ensures Power(h, lag, k + 1) == Power(h, lag, k) + Times(h[120 + k - lag] / 8, h[120 + k - lag] / 8)
  {
  }

  /** `long_term_analysis_filtering`. The prediction may be written where the residual is read from:
      at `base`, just behind the 120 samples that are read. */
  method LongTermAnalysisFiltering(bc: nat, nc: int, dp: array<int16>, base: nat, d: array<int16>,
                                   dpp: array<int16>, dbase: nat, e: array<int16>)
    requires bc < 4 && Lag(nc) && 120 <= base <= dp.Length && d.Length == 40
    requires dbase + 40 <= dpp.Length && (dpp == dp ==> dbase == base)
    requires e.Length == 50 && e != dp && e != dpp && e != d && d != dpp
    modifies dpp, e
    ensures var p := Predicted(old(dp[base - 120..base]), nc, bc);
            dpp[dbase..dbase + 40] == p && e[5..45] == Residual(d[..], p)
    ensures dpp[..dbase] == old(dpp[..dbase]) && dpp[dbase + 40..] == old(dpp[dbase + 40..])
    ensures e[..5] == old(e[..5]) && e[45..] == old(e[45..])
  {
    hide MultR, Gain, SatSub;
    ghost var h: History := dp[base - 120..base];
    ghost var p := Predicted(h, nc, bc);
    var k := 0;
    while k < 40
      invariant 0 <= k <= 40
      invariant dp[base - 120..base] == h
      invariant forall j :: 0 <= j < k ==> dpp[dbase + j] == p[j] && e[5 + j] == SatSub(d[j], p[j])
      invariant dpp[..dbase] == old(dpp[..dbase]) && dpp[dbase + 40..] == old(dpp[dbase + 40..])
      invariant e[..5] == old(e[..5]) && e[45..] == old(e[45..])
    {
      assert h[120 + k - nc] == dp[base + k - nc];
      dpp[dbase + k] := MultR(Gain(bc), dp[base + k - nc]);
      e[5 + k] := SatSub(d[k], dpp[dbase + k]);
      if dpp == dp {
        assert dp[base - 120..base] == dpp[..dbase][base - 120..];
      }
      k := k + 1;
    }
  }

  /** The lag that the decoder uses: one out of range repeats the previous one. */
  function UsedLag(ncr: int, nrp: int): int {
    if ncr < 40 || ncr > 120 then nrp else ncr
  }

  /** A lag out of range repeats the one before, any other is used. */
  lemma UsedLagIs(ncr: int, nrp: int)
    requires Lag(nrp)
    ensures Lag(UsedLag(ncr, nrp)) && UsedLag(ncr, nrp) == if Lag(ncr) then ncr else nrp
  {
  }

  /** `gsm0610_long_term_synthesis_filtering`: the sub-segment is rebuilt behind the history, and
      the history shifts over it in place. */
  method LongTermSynthesisFiltering(nrp: int, ncr: int, bcr: nat, erp: array<int16>, drp: array<int16>)
    returns (nr: int)
    requires Lag(nrp) && bcr < 4 && erp.Length == 40 && drp.Length >= 160 && erp != drp
    modifies drp
    ensures nr == UsedLag(ncr, nrp) && Lag(nr)
    ensures var sub := Rebuilt(erp[..], Predicted(old(drp[..120]), nr, bcr));
            && drp[120..160] == sub
            && drp[..120] == Shifted(old(drp[..120]), sub)
  {
    hide MultR, Gain, SatAdd;
    ghost var h: History := drp[..120];
    nr := if ncr < 40 || ncr > 120 then nrp else ncr;
    ghost var sub := Rebuilt(erp[..], Predicted(h, nr, bcr));
    var brp := Gain(bcr);
    assert brp != INT16_MIN;
    var k := 0;
    while k < 40
      invariant 0 <= k <= 40
      invariant drp[..120] == h
      invariant forall j :: 0 <= j < k ==> drp[120 + j] == sub[j]
    {
      assert drp[..120][120 + k - nr] == drp[120 + k - nr];
      var drpp := MultR(brp, drp[120 + k - nr]);
      drp[120 + k] := SatAdd(erp[k], drpp);
      k := k + 1;
    }
    assert drp[120..160] == sub;
    ShiftHistory(drp, h, sub);
  }

  /** The 120 samples move down by forty, in ascending order over overlapping memory. */
  method ShiftHistory(drp: array<int16>, ghost h: History, ghost sub: seq<int16>)
    requires drp.Length >= 160 && |sub| == 40 && drp[..120] == h && drp[120..160] == sub
    modifies drp
    ensures drp[..120] == Shifted(h, sub) && drp[120..160] == sub
  {
    ghost var all := h + sub;
    assert drp[..160] == all;
    var k := 0;
    while k < 120
      invariant 0 <= k <= 120
      invariant forall j :: 0 <= j < k ==> drp[j] == all[j + 40]
      invariant forall j :: k <= j < 160 ==> drp[j] == all[j]
    {
      drp[k] := drp[k + 40];
      k := k + 1;
    }
    assert Shifted(h, sub) == all[40..];
  }
}
