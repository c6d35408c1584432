/** The block-adaptive quantiser of the excitation pulses (jni/spandsp/gsm0610_rpe.c, sections 4.2.15
    and 4.2.16 of GSM 06.10): thirteen pulses share a six-bit block maximum and get three bits each. */
module GsmApcm {
  import opened FixedPoint
  import opened GsmArith

  const NRFAC: seq<int> := [29128, 26215, 23832, 21846, 20165, 18725, 17476, 16384]
  const FAC: seq<int> := [18431, 20479, 22527, 24575, 26623, 28671, 30719, 32767]

  /** Inverse mantissa, table 4.5. */
  function NrFac(mant: nat): int
    requires mant < 8
  {
    NRFAC[mant]
  }

  /** Direct mantissa, table 4.6. */
  function Fac(mant: nat): int
    requires mant < 8
  {
    FAC[mant]
  }

  lemma Tables()
    ensures NrFac(0) == 29128 && NrFac(1) == 26215 && NrFac(2) == 23832 && NrFac(3) == 21846
    ensures NrFac(4) == 20165 && NrFac(5) == 18725 && NrFac(6) == 17476 && NrFac(7) == 16384
    ensures forall m :: 0 <= m < 8 ==> Fac(m) == 2048 * (9 + m) - 1
  {
  }

  // ----- the block maximum

  /** How many of the six halvings of `xmax >> 9` start from a positive number. */
  function Exponent(xmax: nat): (e: nat)
    ensures e <= 6
  {
    if xmax < 512 then 0 else if xmax < 1024 then 1 else if xmax < 2048 then 2
    else if xmax < 4096 then 3 else if xmax < 8192 then 4 else if xmax < 16384 then 5 else 6
  }

  /** The coded block maximum. */
  function MaxCode(xmax: int16): (c: int16)
    requires 0 <= xmax
    ensures 0 <= c <= 63
  {
    var e := Exponent(xmax);
    Pow2Values();
    xmax / Pow2(e + 5) + 8 * e
  }

  /** The normalising loop of the mantissa. */
  function Normalise(exp: int, mant: nat): (r: (int, nat))
    requires 1 <= mant <= 15
    ensures r.1 <= 7
    decreases 16 - mant
  {
    if mant <= 7 then Normalise(exp - 1, 2 * mant + 1) else (exp, mant - 8)
  }

  /** Exponent and mantissa of a coded block maximum. */
  function ExpMant(xmaxc: nat): (r: (int, nat))
    requires xmaxc <= 63
    ensures -4 <= r.0 <= 6 && r.1 <= 7
  {
    var exp := if xmaxc > 15 then xmaxc / 8 - 1 else 0;
    var mant := xmaxc - 8 * exp;
    if mant == 0 then (-4, 7)
    else
      assert mant <= 7 ==> exp == 0 && 1 <= mant;
      NormaliseSmall(mant);
      Normalise(exp, mant)
  }

  lemma NormaliseSmall(mant: nat)
    requires 1 <= mant <= 15
    ensures mant >= 8 ==> forall exp :: Normalise(exp, mant) == (exp, mant - 8)
    ensures 4 <= mant <= 7 ==> Normalise(0, mant) == (-1, 2 * mant - 7)
    ensures 2 <= mant <= 3 ==> Normalise(0, mant) == (-2, 4 * mant - 5)
    ensures mant == 1 ==> Normalise(0, mant) == (-3, 7)
  {
    if 2 <= mant <= 3 {
      assert Normalise(0, mant) == Normalise(-1, 2 * mant + 1) == Normalise(-2, 4 * mant + 3);
    } else if mant == 1 {
      assert Normalise(0, 1) == Normalise(-1, 3) == Normalise(-2, 7) == Normalise(-3, 15);
    }
  }

  /** What the coded maximum means: shifted left by `6 - exp`, no pulse of the block reaches
      `(9 + mant) * 2048`; the one exception is -32768, which exactly reaches it. */
  lemma ShiftedBelowMaximum(xmax: int16, x: int16)
    requires 0 <= xmax && SatAbs(x) <= xmax
    ensures var (exp, mant) := ExpMant(MaxCode(xmax));
            && 0 <= 6 - exp <= 10
            && (Abs(x * Pow2(6 - exp)) < (9 + mant) * 2048
                || (mant == 7 && x * Pow2(6 - exp) == -0x8000))
  {
    hide Normalise, Pow2, ExpMant;
    var c := MaxCode(xmax);
    var e := Exponent(xmax);
    MaxCodeBrackets(xmax);
    Pow2Values();
    if c <= 15 {
      assert e == 0;
      SmallMaximum(xmax, x, c);
    } else {
      LargeExpMant(c, e);
      UpperHalf(xmax, x, e, c - 8 * e);
    }
  }

  lemma LargeExpMant(c: nat, e: nat)
    requires 16 <= c <= 63 && 8 <= c - 8 * e <= 15
    ensures ExpMant(c) == (e as int, c - 8 * e - 8) && 1 <= e <= 6
  {
    hide Normalise;
    NormaliseSmall(c - 8 * e);
  }

  lemma SmallMaximum(xmax: int16, x: int16, c: nat)
    requires c <= 15 && 32 * c <= xmax < 32 * (c + 1) && SatAbs(x) <= xmax
    ensures var (exp, mant) := ExpMant(c);
            0 <= 6 - exp <= 10 && Abs(x * Pow2(6 - exp)) < (9 + mant) * 2048
  {
    hide Normalise, Pow2;
    Pow2Values();
    if c > 0 {
      NormaliseSmall(c);
    }
    if c == 0 {} else if c == 1 {} else if c <= 3 {} else if c <= 7 {} else {}
  }

  lemma MaxCodeBrackets(xmax: int16)
    requires 0 <= xmax
    ensures var e := Exponent(xmax);
            && Pow2(e + 5) * (MaxCode(xmax) - 8 * e) <= xmax < Pow2(e + 5) * (MaxCode(xmax) - 8 * e + 1)
            && 0 <= MaxCode(xmax) - 8 * e <= 15
            && (e > 0 ==> 8 <= MaxCode(xmax) - 8 * e)
  {
    hide Pow2;
    Pow2Values();
    var e := Exponent(xmax);
    if e == 0 {} else if e == 1 {} else if e == 2 {} else if e == 3 {} else if e == 4 {} else if e == 5 {} else {}
  }

  lemma UpperHalf(xmax: int16, x: int16, e: nat, first: nat)
    requires 1 <= e <= 6 && 8 <= first <= 15
    requires SatAbs(x) <= xmax < Pow2(e + 5) * (first + 1)
    ensures Abs(x * Pow2(6 - e)) < (first + 1) * 2048 || (first == 15 && e == 6 && x * Pow2(6 - e) == -0x8000)
  {
    Pow2Values();
  }

  // ----- the pulses

  /** One pulse, already shifted by the exponent, as three bits. */
  function PulseCode(shifted: int16, mant: nat): int
    requires mant < 8
  {
    ShrunkFactor(mant);
    SatMul(shifted, NrFac(mant)) / 4096 + 4
  }

  lemma ShrunkFactor(mant: nat)
    requires mant < 8
    ensures 16384 <= NrFac(mant) <= 29128
  {
    Tables();
  }

  /** The coded pulses: `xM[i] << (6 - exp)`, scaled by the inverse mantissa. */
  function PulseCodes(xM: seq<int16>, exp: int, mant: nat): (r: seq<int>)
    requires exp <= 6 && mant < 8
    ensures |r| == |xM|
    ensures forall i :: 0 <= i < |xM| ==> r[i] == PulseCode(Shl16(xM[i], 6 - exp), mant)
  {
    hide PulseCode;
    seq(|xM|, i requires 0 <= i < |xM| => PulseCode(Shl16(xM[i], 6 - exp), mant))
  }

  /** The coded block: its maximum and its pulses. */
  function Quantised(xM: seq<int16>): (int, seq<int>) {
    var xmaxc := MaxCode(MaxAbs(xM));
    var (exp, mant) := ExpMant(xmaxc);
    (xmaxc, PulseCodes(xM, exp, mant))
  }

  /** The inverse mantissa times a block's range stays just below one half. */
  lemma FactorBelowHalf(mant: nat)
    requires mant < 8
    ensures ((9 + mant) * 2048 - 1) * NrFac(mant) < 0x2000_0000
  {
    Tables();
  }

  /** Below the block maximum the product fits fourteen bits and the code fits three. */
  lemma PulseCodeFits(shifted: int16, mant: nat)
    requires mant < 8
    requires Abs(shifted) < (9 + mant) * 2048 || (mant == 7 && shifted == -0x8000)
    ensures SatMul(shifted, NrFac(mant)) == (shifted * NrFac(mant)) / 0x8000
    ensures -0x2000_0000 <= shifted * NrFac(mant) < 0x2000_0000
    ensures 0 <= PulseCode(shifted, mant) <= 7
  {
    ShrunkFactor(mant);
    FactorBelowHalf(mant);
    if mant == 7 && shifted == -0x8000 {
      Tables();
    } else {
      MulBound(shifted, NrFac(mant), (9 + mant) * 2048 - 1, NrFac(mant));
    }
  }

  /** For every block: the shift loses nothing, every code fits its three bits, and so does the
      maximum its six. */
  lemma BlockIsCodable(xM: seq<int16>, i: nat)
    requires i < |xM|
    ensures var (xmaxc, codes) := Quantised(xM);
            && 0 <= xmaxc <= 63 && 0 <= codes[i] <= 7
            && Shl16(xM[i], 6 - ExpMant(xmaxc).0) == xM[i] * Pow2(6 - ExpMant(xmaxc).0)
  {
    hide ExpMant, MaxCode, PulseCode, Pow2, MaxAbs;
    var xmax := MaxAbs(xM);
    ShiftedBelowMaximum(xmax, xM[i]);
    var (exp, mant) := ExpMant(MaxCode(xmax));
    PulseCodeFits(Shl16(xM[i], 6 - exp), mant);
  }

  // ----- the inverse quantiser

  /** One decoded pulse before its final shift. */
  function Restored(code: int, mant: nat): int16
    requires 0 <= code <= 7 && mant < 8
  {
    FacFits(mant);
    MultR(Fac(mant), ToInt16((2 * code - 7) * 4096))
  }

  lemma FacFits(mant: nat)
    requires mant < 8
    ensures 18431 <= Fac(mant) <= 32767
  {
    Tables();
  }

  /** One decoded pulse: rounded shift right by `6 - exp`. */
  function DecodedPulse(code: int, exp: int16, mant: nat): int16
    requires 0 <= code <= 7 && mant < 8
  {
    var temp2 := SatSub(6, exp);
    var temp3 := Asl(1, SatSub(temp2, 1));
    Asr(SatAdd(Restored(code, mant), temp3), temp2)
  }

  predicate ThreeBit(codes: seq<int>) {
    forall i :: 0 <= i < |codes| ==> 0 <= codes[i] <= 7
  }

  function Decoded(codes: seq<int>, exp: int16, mant: nat): (r: seq<int16>)
    requires ThreeBit(codes) && mant < 8
    ensures |r| == |codes|
    ensures forall i :: 0 <= i < |codes| ==> r[i] == DecodedPulse(codes[i], exp, mant)
  {
    hide DecodedPulse;
    seq(|codes|, i requires 0 <= i < |codes| => DecodedPulse(codes[i], exp, mant))
  }

  /** The restored value in closed form: an odd multiple of an eighth of the mantissa. */
  lemma RestoredValue(code: int, mant: nat)
    requires 0 <= code <= 7 && mant < 8
    ensures Restored(code, mant) == ((2 * code - 7) * Fac(mant) + 4) / 8
    ensures Abs(Restored(code, mant)) <= 28672
  {
    FacFits(mant);
    var f, q := Fac(mant), 2 * code - 7;
    MultRExact(f, q * 4096);
    MulBound(q, f, 7, 32767);
    ScaledProduct(f, q);
  }

  lemma ScaledProduct(f: int, q: int)
    ensures Round15(f * (q * 4096)) == (q * f + 4) / 8
  {
    assert f * (q * 4096) == (q * f) * 4096;
  }

  /** The final shift in closed form. */
  lemma DecodedValue(code: int, exp: int16, mant: nat)
    requires 0 <= code <= 7 && mant < 8 && -4 <= exp <= 6
    ensures DecodedPulse(code, exp, mant)
         == (Restored(code, mant) + (if exp == 6 then 0 else Pow2(5 - exp))) / Pow2(6 - exp)
  {
    hide Restored, Pow2;
    RestoredValue(code, mant);
    Pow2Values();
    ShrFits(SatAdd(Restored(code, mant), Asl(1, 5 - exp)), 6 - exp);
  }

  // ----- how close the decoded pulse is

  lemma CellErrorAt(x: int, c: int, mant: nat)
    requires mant < 8 && -4 <= c <= 3 && c * 0x800_0000 <= x * NrFac(mant) < (c + 1) * 0x800_0000
    ensures 8 * Distance(((2 * c + 1) * Fac(mant) + 4) / 8, x) <= Fac(mant) + 9
  {
    hide NrFac, Fac, Distance;
    Tables();
    if mant == 0 { CellError(x, c, 29128, 18431); }
    else if mant == 1 { CellError(x, c, 26215, 20479); }
    else if mant == 2 { CellError(x, c, 23832, 22527); }
    else if mant == 3 { CellError(x, c, 21846, 24575); }
    else if mant == 4 { CellError(x, c, 20165, 26623); }
    else if mant == 5 { CellError(x, c, 18725, 28671); }
    else if mant == 6 { CellError(x, c, 17476, 30719); }
    else { CellError(x, c, 16384, 32767); }
  }

  /** In the shifted domain the restored value is within an eighth of the mantissa, plus at most
      nine eighths. */
  lemma RestoredError(shifted: int16, mant: nat)
    requires mant < 8
    requires Abs(shifted) < (9 + mant) * 2048 || (mant == 7 && shifted == -0x8000)
    ensures 0 <= PulseCode(shifted, mant) <= 7
    ensures 8 * Distance(Restored(PulseCode(shifted, mant), mant), shifted) <= Fac(mant) + 9
  {
    hide NrFac, Fac, PulseCode, Restored;
    PulseCodeFits(shifted, mant);
    var c := PulseCode(shifted, mant) - 4;
    CodeCell(shifted, mant);
    RestoredValue(c + 4, mant);
    CellErrorAt(shifted, c, mant);
  }

  /** The code is the cell of width 2^27 that the product falls into. */
  lemma CodeCell(shifted: int16, mant: nat)
    requires mant < 8 && SatMul(shifted, NrFac(mant)) == (shifted * NrFac(mant)) / 0x8000
    ensures var c := PulseCode(shifted, mant) - 4;
            c * 0x800_0000 <= shifted * NrFac(mant) < (c + 1) * 0x800_0000
  {
    hide SatMul, NrFac;
    var p := shifted * NrFac(mant);
  }

  lemma CellError(x: int, c: int, n: int, f: int)
    requires (n, f) == (29128, 18431) || (n, f) == (26215, 20479) || (n, f) == (23832, 22527)
          || (n, f) == (21846, 24575) || (n, f) == (20165, 26623) || (n, f) == (18725, 28671)
          || (n, f) == (17476, 30719) || (n, f) == (16384, 32767)
    requires -4 <= c <= 3 && c * 0x800_0000 <= x * n < (c + 1) * 0x800_0000
    ensures 8 * Distance(((2 * c + 1) * f + 4) / 8, x) <= f + 9
  {
    if c == -4 {} else if c == -3 {} else if c == -2 {} else if c == -1 {}
    else if c == 0 {} else if c == 1 {} else if c == 2 {} else {}
  }

  /** The decoded block maximum, in the domain of the pulses. */
  function DecodedMaximum(xmaxc: nat): int
    requires xmaxc <= 63
  {
    var (exp, mant) := ExpMant(xmaxc);
    Fac(mant) / Pow2(6 - exp)
  }

  lemma FinalShift(restored: int, half: nat, p: nat, x: int, f: nat)
    requires p > 0 && (if p == 1 then half == 0 else p == 2 * half)
    requires 8 * Distance(restored, x * p) <= f + 9
    ensures 8 * (p * Distance((restored + half) / p, x)) <= f + 4 * p + 9
  {
    var q := (restored + half) / p;
    assert q * p <= restored + half < q * p + p by { DivFits(restored + half, p); }
    if q >= x {
      assert p * (q - x) == q * p - x * p;
    } else {
      assert p * (x - q) == x * p - q * p;
    }
  }

  /** An eighth of the maximum, once the common shift is divided out. */
  lemma DivideOut(d: nat, f: nat, p: nat)
    requires p > 0 && 8 * (p * d) <= f + 4 * p + 9
    ensures d <= f / p / 8 + 2
  {
    var m := f / p;
    assert f < m * p + p by { DivFits(f, p); }
    assert 8 * (p * d) == (8 * d) * p;
    assert (m + 14) * p == m * p + 14 * p;
    CancelFactor(8 * d, m + 14, p);
  }

  lemma CancelFactor(x: nat, y: nat, p: nat)
    requires p > 0 && x * p < y * p
    ensures x < y
  {
    assert x >= y ==> x * p >= y * p;
  }

  /** For every block, a decoded pulse is within an eighth of the decoded block maximum of the
      original, plus two. */
  lemma PulseError(xM: seq<int16>, i: nat)
    requires i < |xM|
    ensures var (xmaxc, codes) := Quantised(xM);
            var (exp, mant) := ExpMant(xmaxc);
            && 0 <= codes[i] <= 7
            && Distance(DecodedPulse(codes[i], exp, mant), xM[i]) <= DecodedMaximum(xmaxc) / 8 + 2
  {
    hide ExpMant, MaxCode, PulseCode, Pow2, MaxAbs, Fac, Restored, DecodedPulse;
    var xmaxc := MaxCode(MaxAbs(xM));
    var (exp, mant) := ExpMant(xmaxc);
    BlockIsCodable(xM, i);
    ShiftedBelowMaximum(MaxAbs(xM), xM[i]);
    var shifted := Shl16(xM[i], 6 - exp);
    RestoredError(shifted, mant);
    var code := PulseCode(shifted, mant);
    DecodedValue(code, exp, mant);
    HalfPower(exp);
    FacFits(mant);
    FinalShift(Restored(code, mant), if exp == 6 then 0 else Pow2(5 - exp), Pow2(6 - exp), xM[i], Fac(mant));
    DivideOut(Distance(DecodedPulse(code, exp, mant), xM[i]), Fac(mant), Pow2(6 - exp));
  }

  /** The decoded maximum of a block is its maximum, raised by at most an eighth and 31. */
  lemma MaximumIsNear(xmax: int16)
    requires 0 <= xmax
    ensures 0 <= MaxCode(xmax) <= 63
    ensures xmax <= DecodedMaximum(MaxCode(xmax)) <= xmax + xmax / 8 + 31
  {
    hide MaxCode, ExpMant, DecodedMaximum, Pow2;
    Pow2Values();
    MaxCodeBrackets(xmax);
    var e := Exponent(xmax);
    if e == 0 {
      SmallDecodedMaximum(MaxCode(xmax));
    } else {
      LargeDecodedMaximum(MaxCode(xmax), e);
      if e == 1 {} else if e == 2 {} else if e == 3 {} else if e == 4 {} else if e == 5 {} else {}
    }
  }

  lemma SmallDecodedMaximum(c: nat)
    requires c <= 15
    ensures DecodedMaximum(c) == 32 * (c + 1) - 1
  {
    hide Normalise, Pow2;
    Pow2Values();
    FacIs();
    if c > 0 {
      NormaliseSmall(c);
    }
    if c == 0 {} else if c == 1 {} else if c <= 3 {} else if c <= 7 {} else {}
  }

  lemma LargeDecodedMaximum(c: nat, e: nat)
    requires 16 <= c <= 63 && 1 <= e <= 6 && 8 <= c - 8 * e <= 15
    ensures DecodedMaximum(c) == Pow2(e + 5) * (c - 8 * e + 1) - 1
  {
    hide ExpMant, Pow2, Fac;
    Pow2Values();
    FacIs();
    LargeExpMant(c, e);
    if e == 1 {} else if e == 2 {} else if e == 3 {} else if e == 4 {} else if e == 5 {} else {}
  }

  lemma FacIs()
    ensures forall mant :: 0 <= mant < 8 ==> Fac(mant) == (9 + mant) * 2048 - 1
  {
  }

  /** Every pulse of every block comes back to within nine sixty-fourths of the block's own maximum and six. */
  lemma PulseComesBack(xM: seq<int16>, i: nat)
    requires i < |xM|
    ensures var (xmaxc, codes) := Quantised(xM);
            var (exp, mant) := ExpMant(xmaxc);
            0 <= codes[i] <= 7
            && Distance(DecodedPulse(codes[i], exp, mant), xM[i]) <= 9 * MaxAbs(xM) / 64 + 6
  {
    hide MaxCode, ExpMant, DecodedMaximum, DecodedPulse, PulseCodes, MaxAbs;
    MaximumIsNear(MaxAbs(xM));
    PulseError(xM, i);
  }

  lemma HalfPower(exp: int)
    requires -4 <= exp <= 6
    ensures exp == 6 ==> Pow2(6 - exp) == 1
    ensures exp < 6 ==> Pow2(6 - exp) == 2 * Pow2(5 - exp)
  {
  }

  // ----- the C routines

  /** `apcm_quantization_xmaxc_to_exp_mant`, whose asserts are the ranges of `ExpMant`. */
  method MaxCodeToExpMant(xmaxc: int16) returns (exp: int16, mant: int16)
    requires 0 <= xmaxc <= 63
    ensures (exp as int, mant as int) == ExpMant(xmaxc)
  {
    hide Normalise;
    exp := 0;
    if xmaxc > 15 {
      exp := xmaxc / 8 - 1;
    }
    mant := xmaxc - exp * 8;
    if mant == 0 {
      exp := -4;
      mant := 7;
    } else {
      NormaliseSmall(mant);
      ghost var whole := Normalise(exp, mant);
      while mant <= 7
        invariant 1 <= mant <= 15 && -3 <= exp <= 6
        invariant mant <= 2 ==> exp == 0
        invariant mant == 3 ==> -1 <= exp
        invariant 4 <= mant <= 7 ==> -2 <= exp
        invariant Normalise(exp, mant) == whole
        decreases 16 - mant
      {
        NormaliseNext(exp, mant);
        mant := mant * 2 + 1;
        exp := exp - 1;
      }
      NormaliseNext(exp, mant);
      mant := mant - 8;
    }
  }

  lemma NormaliseNext(exp: int, mant: nat)
    requires 1 <= mant <= 15
    ensures mant <= 7 ==> Normalise(exp, mant) == Normalise(exp - 1, 2 * mant + 1)
    ensures mant > 7 ==> Normalise(exp, mant) == (exp, mant - 8)
  {
  }

  /** `apcm_quantization`. */
  method Quantise(xM: array<int16>) returns (xmaxc: int16, exp: int16, mant: int16, xMc: seq<int>)
    requires xM.Length == 13
    ensures (xmaxc as int, xMc) == Quantised(xM[..])
    ensures 0 <= xmaxc <= 63 && (exp as int, mant as int) == ExpMant(xmaxc)
    ensures |xMc| == 13 && ThreeBit(xMc)
  {
    hide ExpMant, Pow2, MaxAbs, MaxCode, NrFac, SatMul, Shl16;
    var xmax := FindMaximum(xM);
    xmaxc := CodeMaximum(xmax);
    exp, mant := MaxCodeToExpMant(xmaxc);
    var temp1 := 6 - exp as int;
    assert 0 <= temp1 < 16;
    ShrunkFactor(mant);
    var temp2: int16 := NrFac(mant);
    xMc := [];
    ghost var all := PulseCodes(xM[..], exp, mant);
    var i := 0;
    while i < 13
      invariant 0 <= i <= 13 && |xMc| == i
      invariant xMc == all[..i]
      invariant forall j :: 0 <= j < i ==> 0 <= all[j] <= 7
    {
      BlockIsCodable(xM[..], i);
      var temp: int := Shl16(xM[i], temp1);
      temp := SatMul(temp, temp2);
      temp := temp / 4096;
      xMc := xMc + [temp + 4];
      i := i + 1;
    }
    assert all[..13] == all;
  }

  /** The halvings of `xmax >> 9` that are still positive, counted by a loop of fixed length. */
  method CodeMaximum(xmax: int16) returns (xmaxc: int16)
    requires 0 <= xmax
    ensures xmaxc == MaxCode(xmax)
  {
    hide Pow2;
    Pow2Values();
    var exp := 0;
    var temp: int := xmax / 512;
    var itest := false;
    var i := 0;
    while i <= 5
      invariant 0 <= i <= 6 && 0 <= exp <= i
      invariant itest <==> Exponent(xmax) < i
      invariant exp == if itest then Exponent(xmax) else i
      invariant temp == xmax / Pow2(9 + i)
    {
      itest := itest || temp <= 0;
      HalveAgain(xmax, i);
      temp := temp / 2;
      assert exp <= 5;
      if !itest {
        exp := exp + 1;
      }
      i := i + 1;
    }
    MaxCodeBrackets(xmax);
    xmaxc := SatAdd(xmax / Pow2(exp + 5), exp * 8);
  }

  lemma HalveAgain(x: int16, i: nat)
    requires 0 <= x && i <= 5
    ensures x / Pow2(9 + i) / 2 == x / Pow2(10 + i)
    ensures x / Pow2(9 + i) <= 0 <==> Exponent(x) <= i
  {
    Pow2Values();
    if i == 0 {} else if i == 1 {} else if i == 2 {} else if i == 3 {} else if i == 4 {} else {}
  }

  /** `apcm_inverse_quantization`, with its asserts. */
  method InverseQuantise(xMc: seq<int>, mant: int16, exp: int16) returns (xMp: seq<int16>)
    requires |xMc| == 13 && ThreeBit(xMc) && 0 <= mant < 8
    ensures xMp == Decoded(xMc, exp, mant)
  {
    hide Fac, MultR, SatAdd, SatSub, Asl, Asr, ToInt16;
    var temp1 := Fac(mant);
    FacFits(mant);
    var temp2 := SatSub(6, exp);
    var temp3 := Asl(1, SatSub(temp2, 1));
    xMp := [];
    var i := 0;
    while i < 13
      invariant 0 <= i <= 13 && xMp == Decoded(xMc, exp, mant)[..i]
    {
      var temp: int := xMc[i] * 2 - 7;
      assert -7 <= temp <= 7;
      temp := ToInt16(temp * 4096);
      temp := MultR(temp1, temp);
      temp := SatAdd(temp, temp3);
      xMp := xMp + [Asr(temp, temp2)];
      i := i + 1;
    }
  }
}
