/** Helpers shared by the stages of the GSM 06.10 coder: the search for the largest magnitude of a
    signal and the normalising shift of jni/spandsp/gsm0610_lpc.c. */
module GsmArith {
  import opened FixedPoint

  function MaxAbs(s: seq<int16>): (r: int16)
    ensures 0 <= r
    ensures forall i :: 0 <= i < |s| ==> SatAbs(s[i]) <= r
  {
    if s == [] then 0
    else Max(MaxAbs(s[..|s| - 1]), SatAbs(s[|s| - 1]))
  }

  /** The maximum is the magnitude of some sample, or zero for no samples. */
  lemma {:induction false} MaxAbsIsAttained(s: seq<int16>)
    ensures s == [] ==> MaxAbs(s) == 0
    ensures s != [] ==> exists i :: 0 <= i < |s| && SatAbs(s[i]) == MaxAbs(s)
  {
    hide SatAbs;
    if s != [] {
      var n := |s| - 1;
      MaxAbsIsAttained(s[..n]);
      if SatAbs(s[n]) != MaxAbs(s) {
        assert n > 0;
        var i :| 0 <= i < n && SatAbs(s[..n][i]) == MaxAbs(s[..n]);
        assert s[..n][i] == s[i];
      }
    }
  }

  /** The search for the largest absolute value: an upper bound that some sample attains. */
  method FindMaximum(s: array<int16>) returns (smax: int16)
    ensures smax == MaxAbs(s[..]) && 0 <= smax
    ensures forall i :: 0 <= i < s.Length ==> SatAbs(s[i]) <= smax
    ensures s.Length == 0 ==> smax == 0
    ensures s.Length > 0 ==> exists i :: 0 <= i < s.Length && SatAbs(s[i]) == smax
  {
    hide SatAbs;
    smax := 0;
    for i := 0 to s.Length
      invariant smax == MaxAbs(s[..i]) && 0 <= smax
    {
      var temp := SatAbs(s[i]);
      assert s[..i + 1][..i] == s[..i];
      if temp > smax {
        smax := temp;
      }
    }
    assert s[..s.Length] == s[..];
    MaxAbsIsAttained(s[..]);
    assert forall i :: 0 <= i < s.Length ==> s[i] == s[..][i];
  }

  // ----- gsm0610_norm

  /** `top_bit`, which gives -1 for zero. */
  function TopBitOf(x: nat): int {
    if x == 0 then -1 else TopBit(x)
  }

  /** `gsm0610_norm`: the left shifts that normalise a 32-bit number. */
  function Norm(x: int): int
    requires x != 0
  {
    if x < 0 then
      if x <= -0x4000_0000 then 0 else 30 - TopBitOf(-x - 1)
    else 30 - TopBitOf(x)
  }

  lemma TopBitBelow(x: nat, k: nat)
    requires 0 < x < Pow2(k)
    ensures TopBit(x) < k
  {
    if TopBit(x) >= k {
      Pow2Mono(k, TopBit(x));
    }
  }

  lemma BigPowers()
    ensures Pow2(30) == 0x4000_0000 && Pow2(31) == 0x8000_0000
  {
    Pow2Values();
    Pow2Add(16, 14);
    Pow2Add(16, 15);
  }

  /** The shift is between 0 and 31 and brings every nonzero 32-bit number into the normalised
      range of its sign. */
  lemma NormNormalises(x: int)
    requires IsInt32(x) && x != 0
    ensures 0 <= Norm(x) <= 31
    ensures x > 0 ==> 0x4000_0000 <= x * Pow2(Norm(x)) <= INT32_MAX
    ensures x < 0 ==> INT32_MIN <= x * Pow2(Norm(x)) <= -0x4000_0000
  {
    hide Pow2, TopBit;
    BigPowers();
    Pow2Values();
    if x > 0 {
      Shifted(x);
    } else if x > -0x4000_0000 {
      if x == -1 {
        assert x * Pow2(31) == -0x8000_0000;
      } else {
        NegativeShifted(-x - 1);
        assert x * Pow2(Norm(x)) == -((-x) * Pow2(Norm(x)));
      }
    }
  }

  lemma Shifted(x: nat)
    requires 0 < x <= INT32_MAX
    ensures 0 <= 30 - TopBit(x)
    ensures 0x4000_0000 <= x * Pow2(30 - TopBit(x)) <= INT32_MAX
  {
    hide Pow2, TopBit;
    BigPowers();
    TopBitBelow(x, 31);
    var t := TopBit(x);
    var p := Pow2(30 - t);
    Pow2Add(t, 30 - t);
    Pow2Add(t + 1, 30 - t);
    MulMono(Pow2(t), p, x, p);
    MulMono(x, p, Pow2(t + 1) - 1, p);
    assert (Pow2(t + 1) - 1) * p == Pow2(t + 1) * p - p;
  }

  lemma NegativeShifted(y: nat)
    requires 0 < y < 0x4000_0000 - 1
    ensures 1 <= 30 - TopBit(y)
    ensures 0x4000_0000 <= (y + 1) * Pow2(30 - TopBit(y)) <= 0x8000_0000
  {
    hide Pow2, TopBit;
    BigPowers();
    TopBitBelow(y, 30);
    var t := TopBit(y);
    var p := Pow2(30 - t);
    Pow2Add(t, 30 - t);
    Pow2Add(t + 1, 30 - t);
    MulMono(Pow2(t), p, y + 1, p);
    MulMono(y + 1, p, Pow2(t + 1), p);
  }

  /** Normalising a sixteen-bit number in the upper half of a word. */
  lemma NormOfUpperHalf(x: nat)
    requires 0 < x <= INT16_MAX
    ensures Norm(x * 0x10000) == 14 - TopBit(x)
    ensures TopBit(x) <= 14
  {
    hide Pow2, TopBit;
    Pow2Values();
    TopBitBelow(x, 15);
    var t := TopBit(x);
    Pow2Add(t, 16);
    Pow2Add(t + 1, 16);
    TopBitIs(x * 0x10000, t + 16);
  }
}
