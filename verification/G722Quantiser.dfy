/** The quantisers of the G.722 coder (jni/spandsp/g722.c): the search of the encoder, the inverse
    quantisers of the decoder, and how far apart their values can be. */
module G722Quantiser {
  import opened FixedPoint

  const QM2: seq<int> := [-7408, -1616, 7408, 1616]

  const QM4: seq<int> := [
    0, -20456, -12896, -8968, -6288, -4240, -2584, -1200,
    20456, 12896, 8968, 6288, 4240, 2584, 1200, 0]

  const QM5: seq<int> := [
    -280, -280, -23352, -17560, -14120, -11664, -9752, -8184,
    -6864, -5712, -4696, -3784, -2960, -2208, -1520, -880,
    23352, 17560, 14120, 11664, 9752, 8184, 6864, 5712,
    4696, 3784, 2960, 2208, 1520, 880, 280, -280]

  // The six-bit table in two halves: codes below 32 and codes from 32 on.
  const QM6_FIRST: seq<int> := [
    -136, -136, -136, -136, -24808, -21904, -19008, -16704,
    -14984, -13512, -12280, -11192, -10232, -9360, -8576, -7856,
    -7192, -6576, -6000, -5456, -4944, -4464, -4008, -3576,
    -3168, -2776, -2400, -2032, -1688, -1360, -1040, -728]

  const QM6_SECOND: seq<int> := [
    24808, 21904, 19008, 16704, 14984, 13512, 12280, 11192,
    10232, 9360, 8576, 7856, 7192, 6576, 6000, 5456,
    4944, 4464, 4008, 3576, 3168, 2776, 2400, 2032,
    1688, 1360, 1040, 728, 432, 136, -432, -136]

  const Q6: seq<int> := [
    0, 35, 72, 110, 150, 190, 233, 276,
    323, 370, 422, 473, 530, 587, 650, 714,
    786, 858, 940, 1023, 1121, 1219, 1339, 1458,
    1612, 1765, 1980, 2195, 2557, 2919, 0, 0]

  const ILN: seq<int> := [
    0, 63, 62, 31, 30, 29, 28, 27, 26, 25, 24, 23, 22, 21, 20, 19,
    18, 17, 16, 15, 14, 13, 12, 11, 10, 9, 8, 7, 6, 5, 4, 0]

  const ILP: seq<int> := [
    0, 61, 60, 59, 58, 57, 56, 55, 54, 53, 52, 51, 50, 49, 48, 47,
    46, 45, 44, 43, 42, 41, 40, 39, 38, 37, 36, 35, 34, 33, 32, 0]

  const IHN: seq<int> := [0, 1, 0]
  const IHP: seq<int> := [0, 3, 2]
  const WL: seq<int> := [-60, -30, 58, 172, 334, 538, 1198, 3042]
  const RL42: seq<int> := [0, 7, 6, 5, 4, 3, 2, 1, 7, 6, 5, 4, 3, 2, 1, 0]
  const WH: seq<int> := [0, -214, 798]
  const RH2: seq<int> := [2, 1, 2, 1]

  function Q6At(i: nat): int
    requires i < 32
  {
    Q6[i]
  }

  function Qm2(code: nat): int
    requires code < 4
  {
    QM2[code]
  }

  function Qm4(code: nat): int
    requires code < 16
  {
    QM4[code]
  }

  function Qm5(code: nat): int
    requires code < 32
  {
    QM5[code]
  }

  function Qm6(code: nat): int
    requires code < 64
  {
    if code < 32 then QM6_FIRST[code] else QM6_SECOND[code - 32]
  }

  type Rate = b: int | 6 <= b <= 8 witness 8

  // ----- the low band's quantiser

  /** Decision level `i` for step size `det`. */
  function Threshold(i: nat, det: int16): int
    requires i < 32
  {
    (Q6At(i) * det) / 4096
  }

  /** `el >= 0 ? el : ~el`. */
  function Magnitude(el: int16): nat {
    if el >= 0 then el else -1 - (el as int)
  }

  function LevelFrom(wd: nat, det: int16, i: nat): (r: nat)
    requires 1 <= i <= 30
    ensures i <= r <= 30
    ensures r < 30 ==> wd < Threshold(r, det)
    ensures r > i ==> wd >= Threshold(r - 1, det)
    decreases 30 - i
  {
    hide Threshold;
    if i == 30 then 30
    else if wd < Threshold(i, det) then i
    else LevelFrom(wd, det, i + 1)
  }

  /** The quantiser level, 30 being overload. */
  function Level(wd: nat, det: int16): (r: nat)
    ensures 1 <= r <= 30
  {
    LevelFrom(wd, det, 1)
  }

  /** No low-band code below 4 is ever sent: those codes are not used by the inverse quantisers. */
  function LowCode(el: int16, level: nat): (code: int)
    requires 1 <= level <= 30
    ensures 4 <= code <= 63
    ensures code == if el >= 0 then 62 - level else if level <= 2 then 64 - level else 34 - level
  {
    if el < 0 then ILN[level] else ILP[level]
  }

  /** The decoder's low-band value for a six-bit code, of which only the bits of the rate are
      transmitted. */
  function LowValue(rate: Rate, code: int): int
    requires 0 <= code < 64
  {
    if rate == 8 then Qm6(code) else if rate == 7 then Qm5(code / 2) else Qm4(code / 4)
  }

  /** The levels that share the transmitted bits of `level` lie between the decision levels
      `CellLow` and `CellHigh`. */
  function CellLow(rate: Rate, level: nat): nat
    requires 1 <= level <= 30
  {
    if rate == 8 then level - 1
    else if rate == 7 then (level - 1) / 2 * 2
    else if level <= 2 then 0
    else (level - 3) / 4 * 4 + 2
  }

  function CellHigh(rate: Rate, level: nat): nat
    requires 1 <= level <= 30
  {
    if rate == 8 then level
    else if rate == 7 then (level - 1) / 2 * 2 + 2
    else if level <= 2 then 2
    else (level - 3) / 4 * 4 + 6
  }

  /** The level's cell is closed above: it does not reach into overload. */
  predicate NotOverloaded(rate: Rate, level: nat)
    requires 1 <= level <= 30
  {
    CellHigh(rate, level) < 30
  }

  lemma Q6Increases(i: nat, j: nat)
    requires i <= j < 30
    ensures 0 <= Q6At(i) <= Q6At(j) <= 2919
  {
    hide Q6At;
    if i < j {
      Q6Increases(i, j - 1);
      Q6Next(j - 1);
      Q6Range(j);
    } else {
      Q6Range(i);
    }
  }

  lemma Q6Next(i: nat)
    requires i < 29
    ensures Q6At(i) <= Q6At(i + 1)
  {
  }

  lemma Q6Range(i: nat)
    requires i < 30
    ensures 0 <= Q6At(i) <= 2919
  {
  }

  /** Every reconstruction value lies in its own cell, in units of an eighth of the threshold
      table. */
  lemma ValueInCell8(level: nat)
    requires 1 <= level < 30
    ensures 8 * Q6At(level - 1) <= Qm6(62 - level) <= 8 * Q6At(level)
    ensures Qm6(if level <= 2 then 64 - level else 34 - level) == -Qm6(62 - level)
  {
    AboveLowerLevel(level);
    BelowUpperLevel(level);
    if level > 2 {
      Mirrored8(62 - level);
    } else {
      LastCodes();
    }
  }

  lemma AboveLowerLevel(level: nat)
    requires 1 <= level < 30
    ensures 8 * Q6At(level - 1) <= QM6_SECOND[30 - level]
  {
  }

  lemma BelowUpperLevel(level: nat)
    requires 1 <= level < 30
    ensures QM6_SECOND[30 - level] <= 8 * Q6At(level)
  {
  }

  lemma LastCodes()
    ensures Qm6(63) == -Qm6(61) && Qm6(62) == -Qm6(60)
  {
  }

  /** The first half of the six-bit table mirrors the second. */
  lemma Mirrored8(code: nat)
    requires 32 <= code < 60
    ensures QM6_FIRST[code - 28] == -QM6_SECOND[code - 32]
  {
    if code < 46 {
      assert QM6_FIRST[code - 28] == -QM6_SECOND[code - 32];
    } else {
      assert QM6_FIRST[code - 28] == -QM6_SECOND[code - 32];
    }
  }

  lemma ValueInCell7(k: nat)
    requires k < 14
    ensures 8 * Q6At(2 * k) <= Qm5(30 - k) <= 8 * Q6At(2 * k + 2)
    ensures Qm5(if k == 0 then 31 else 16 - k) == -Qm5(30 - k)
  {
    assert Qm5(30 - k) <= 8 * Q6At(2 * k + 2);
    Mirrored7(k);
  }

  lemma Mirrored7(k: nat)
    requires k < 14
    ensures Qm5(if k == 0 then 31 else 16 - k) == -Qm5(30 - k)
  {
  }

  lemma ValueInCell6(k: nat)
    requires k < 6
    ensures 8 * Q6At(4 * k + 2) <= Qm4(14 - k) <= 8 * Q6At(4 * k + 6)
    ensures 8 * Q6At(4 * k + 2) <= -Qm4(7 - k) <= 8 * Q6At(4 * k + 6)
    ensures Qm4(15) == 0 && Q6At(0) == 0 <= Q6At(2)
  {
  }

  /** The value sent for an input lies in the cell of its level, on the input's side of zero. */
  lemma ValueInCell(rate: Rate, el: int16, level: nat)
    requires 1 <= level <= 30 && NotOverloaded(rate, level)
    ensures var v := LowValue(rate, LowCode(el, level));
            8 * Q6At(CellLow(rate, level)) <= (if el < 0 then -v else v) <= 8 * Q6At(CellHigh(rate, level))
    ensures CellLow(rate, level) < CellHigh(rate, level)
  {
    hide LowCode, Q6At, Qm4, Qm5, Qm6;
    if rate == 8 {
      ValueInCell8(level);
    } else if rate == 7 {
      ValueInCell7((level - 1) / 2);
    } else if level <= 2 {
      ValueInCell6(0);
    } else {
      ValueInCell6((level - 3) / 4);
    }
  }

  /** Within its cell the value is in the middle. At eight bits it is the mean of both decision levels, to
      the nearest eighth; at seven and six bits it is exactly the decision level that the dropped bits
      would have told apart, and zero for the cell around zero. */
  lemma ValueIsCentral(rate: Rate, el: int16, level: nat)
    requires 1 <= level <= 30 && NotOverloaded(rate, level)
    ensures var v := LowValue(rate, LowCode(el, level));
            var size := if el < 0 then -v else v;
            && (rate == 8 ==> Distance(size, 4 * (Q6At(level - 1) + Q6At(level))) <= 4)
            && (rate == 7 ==> size == 8 * Q6At(CellLow(rate, level) + 1))
            && (rate == 6 ==> size == if level <= 2 then 0 else 8 * Q6At(CellLow(rate, level) + 2))
  {
    hide LowCode, Q6At, Qm4, Qm5, Qm6;
    if rate == 8 {
      ValueInCell8(level);
      CentreOfCell8(level);
    } else if rate == 7 {
      CentreOfCell7((level - 1) / 2);
    } else if level <= 2 {
      ValueInCell6(0);
    } else {
      CentreOfCell6((level - 3) / 4);
    }
  }

  lemma CentreOfCell8(level: nat)
    requires 1 <= level < 30
    ensures Distance(Qm6(62 - level), 4 * (Q6At(level - 1) + Q6At(level))) <= 4
  {
    hide Q6At;
    assert Qm6(62 - level) == QM6_SECOND[30 - level];
    if level < 10 {
      CentreOfFirst(level);
    } else if level < 20 {
      CentreOfSecond(level);
    } else {
      CentreOfThird(level);
    }
  }

  lemma CentreOfFirst(level: nat)
    requires 1 <= level < 10
    ensures Distance(QM6_SECOND[30 - level], 4 * (Q6At(level - 1) + Q6At(level))) <= 4
  {
  }

  lemma CentreOfSecond(level: nat)
    requires 10 <= level < 20
    ensures Distance(QM6_SECOND[30 - level], 4 * (Q6At(level - 1) + Q6At(level))) <= 4
  {
  }

  lemma CentreOfThird(level: nat)
    requires 20 <= level < 30
    ensures Distance(QM6_SECOND[30 - level], 4 * (Q6At(level - 1) + Q6At(level))) <= 4
  {
  }

  lemma CentreOfCell7(k: nat)
    requires k < 14
    ensures Qm5(30 - k) == 8 * Q6At(2 * k + 1)
    ensures Qm5(if k == 0 then 31 else 16 - k) == -(8 * Q6At(2 * k + 1))
  {
    assert Qm5(30 - k) == 8 * Q6At(2 * k + 1);
    Mirrored7(k);
  }

  lemma CentreOfCell6(k: nat)
    requires k < 6
    ensures Qm4(14 - k) == 8 * Q6At(4 * k + 4) == -Qm4(7 - k)
  {
  }

  /** Scaling by the step size keeps a value between the scaled decision levels, up to the
      rounding of negative numbers. */
  lemma ScaledIntoCell(lo: nat, v: int, hi: nat, det: int)
    requires 0 <= det && 8 * lo <= v <= 8 * hi
    ensures (lo * det) / 4096 <= Q15(det, v) <= (hi * det) / 4096
    ensures -((hi * det) / 4096) - 1 <= Q15(det, -v) <= -((lo * det) / 4096)
  {
    ProductBetween(lo, v, hi, det);
    NegatedProduct(det, v);
  }

  lemma NegatedProduct(det: int, v: int)
    ensures det * (-v) == -(det * v)
  {
  }

  lemma ProductBetween(lo: nat, v: nat, hi: nat, det: nat)
    requires 8 * lo <= v <= 8 * hi
    ensures 8 * (lo * det) <= det * v <= 8 * (hi * det)
  {
    MulMono(8 * lo, det, v, det);
    MulMono(v, det, 8 * hi, det);
    assert 8 * lo * det == 8 * (lo * det) && 8 * hi * det == 8 * (hi * det) && v * det == det * v;
  }

  lemma ThresholdsIncrease(i: nat, j: nat, det: int16)
    requires i <= j < 30 && 0 <= det <= 16384
    ensures 0 <= Threshold(i, det) <= Threshold(j, det) <= 11676
  {
    hide Q6At;
    Q6Increases(i, j);
    MulMono(Q6At(i), det, Q6At(j), det);
    MulMono(Q6At(j), det, 2919, 16384);
  }

  lemma LevelInCell(rate: Rate, wd: nat, det: int16)
    requires 0 <= det <= 16384 && NotOverloaded(rate, Level(wd, det))
    ensures var level := Level(wd, det);
            Threshold(CellLow(rate, level), det) <= wd < Threshold(CellHigh(rate, level), det)
  {
    hide Threshold, LevelFrom;
    var level := Level(wd, det);
    ThresholdsIncrease(level, CellHigh(rate, level), det);
    ThresholdsIncrease(CellLow(rate, level), level - 1, det);
    if level == 1 {
      ZeroThreshold(det);
    }
  }

  lemma ZeroThreshold(det: int16)
    ensures Threshold(0, det) == 0
  {
  }

  /** A larger magnitude never falls into a lower level. */
  lemma {:induction false} LevelGrows(wd1: nat, wd2: nat, det: int16, i: nat)
    requires wd1 <= wd2 && 1 <= i <= 30
    ensures LevelFrom(wd1, det, i) <= LevelFrom(wd2, det, i)
    decreases 30 - i
  {
    hide Threshold;
    if i < 30 {
      LevelGrows(wd1, wd2, det, i + 1);
    }
  }

  function CellWidth(rate: Rate, level: nat, det: int16): int
    requires 1 <= level <= 30
  {
    Threshold(CellHigh(rate, level), det) - Threshold(CellLow(rate, level), det)
  }

  /** The decoder's difference value is within one cell of the encoder's difference. */
  lemma DifferenceError(rate: Rate, el: int16, det: int16)
    requires 0 <= det <= 16384
    requires NotOverloaded(rate, Level(Magnitude(el), det))
    ensures var level := Level(Magnitude(el), det);
            Distance(el, Q15(det, LowValue(rate, LowCode(el, level)))) <= CellWidth(rate, level, det)
  {
    hide Level, LowCode, LowValue, Q15, CellLow, CellHigh, Q6At;
    var level := Level(Magnitude(el), det);
    var lo, hi := CellLow(rate, level), CellHigh(rate, level);
    var v := LowValue(rate, LowCode(el, level));
    LevelInCell(rate, Magnitude(el), det);
    ValueInCell(rate, el, level);
    Q6Increases(lo, hi);
    ScaledIntoCell(Q6At(lo), if el < 0 then -v else v, Q6At(hi), det);
  }

  /** Outside overload the decoded low-band sample is within one cell of the encoded one, although
      both the prediction difference and the decoded sample pass through a limiter. */
  lemma SampleError(rate: Rate, xlow: int16, s: int16, det: int16)
    requires 0 <= det <= 16384 && -0x4000 <= xlow <= 0x3FFF
    requires NotOverloaded(rate, Level(Magnitude(SatSub(xlow, s)), det))
    ensures var level := Level(Magnitude(SatSub(xlow, s)), det);
            Distance(Saturate15(s + Q15(det, LowValue(rate, LowCode(SatSub(xlow, s), level)))), xlow)
            <= CellWidth(rate, level, det)
  {
    hide Level, LowCode, LowValue, Q15, CellLow, CellHigh, Threshold, Q6At;
    var el := SatSub(xlow, s);
    var level := Level(Magnitude(el), det);
    LevelInCell(rate, Magnitude(el), det);
    ThresholdsIncrease(CellHigh(rate, level), CellHigh(rate, level), det);
    DifferenceError(rate, el, det);
    assert el == xlow - s;
  }

  // ----- the high band's quantiser

  function HighThreshold(det: int16): int {
    (564 * det) / 4096
  }

  function HighMode(eh: int16, det: int16): nat {
    if Magnitude(eh) >= HighThreshold(det) then 2 else 1
  }

  function HighCode(eh: int16, det: int16): (code: int)
    ensures 0 <= code < 4
    ensures code == if eh < 0 then 2 - HighMode(eh, det) else 4 - HighMode(eh, det)
  {
    if eh < 0 then IHN[HighMode(eh, det)] else IHP[HighMode(eh, det)]
  }

  lemma Qm2Values()
    ensures Qm2(0) == -7408 && Qm2(1) == -1616 && Qm2(2) == 7408 && Qm2(3) == 1616
  {
  }

  /** The decision level of the high band is half way between its two values. */
  lemma HighLevelIsMean(det: int16)
    ensures HighThreshold(det) == Q15(det, (Qm2(2) + Qm2(3)) / 2)
  {
    Qm2Values();
  }

  /** Below its one decision level the high band is decoded within that level. */
  lemma HighSampleError(xhigh: int16, s: int16, det: int16)
    requires 0 <= det <= 16384 && -0x4000 <= xhigh <= 0x3FFF
    requires HighMode(SatSub(xhigh, s), det) == 1
    ensures Distance(Saturate15(Q15(det, Qm2(HighCode(SatSub(xhigh, s), det))) + s), xhigh)
         <= HighThreshold(det)
  {
    hide Q15, Qm2;
    Qm2Values();
    ScaledIntoCell(0, 1616, 564, det);
  }
}
