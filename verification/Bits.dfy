/** Numbers as sequences of bits, least or most significant bit first. The packers of the codecs
    are specified through these sequences. */
module Bits {
  import opened FixedPoint

  /** The low `n` bits of `x`, least significant first. */
  function LsbBits(x: nat, n: nat): (r: seq<bool>)
    ensures |r| == n
  {
    if n == 0 then [] else [x % 2 == 1] + LsbBits(x / 2, n - 1)
  }

  /** The low `n` bits of `x`, most significant first. */
  function MsbBits(x: nat, n: nat): (r: seq<bool>)
    ensures |r| == n
  {
    if n == 0 then [] else MsbBits(x / 2, n - 1) + [x % 2 == 1]
  }

  function Bit(b: bool): nat {
    if b then 1 else 0
  }

  function FromLsb(bits: seq<bool>): (x: nat)
    ensures x < Pow2(|bits|)
  {
    if bits == [] then 0 else Bit(bits[0]) + 2 * FromLsb(bits[1..])
  }

  function FromMsb(bits: seq<bool>): (x: nat)
    ensures x < Pow2(|bits|)
  {
    if bits == [] then 0 else Bit(bits[|bits| - 1]) + 2 * FromMsb(bits[..|bits| - 1])
  }

  /** Bitwise or. */
  function BitOr(x: nat, y: nat): nat {
    if x == 0 && y == 0 then 0
    else Max(x % 2, y % 2) + 2 * BitOr(x / 2, y / 2)
  }

  lemma ConcatAssoc<T>(a: seq<T>, b: seq<T>, c: seq<T>)
    ensures (a + b) + c == a + (b + c)
  {
  }

  lemma {:induction false} LsbRoundTrip(x: nat, n: nat)
    requires x < Pow2(n)
    ensures FromLsb(LsbBits(x, n)) == x
  {
    if n > 0 {
      LsbRoundTrip(x / 2, n - 1);
      assert LsbBits(x, n)[1..] == LsbBits(x / 2, n - 1);
    }
  }

  lemma {:induction false} LsbOfBits(bits: seq<bool>)
    ensures LsbBits(FromLsb(bits), |bits|) == bits
  {
    if bits != [] {
      LsbOfBits(bits[1..]);
    }
  }

  lemma {:induction false} MsbRoundTrip(x: nat, n: nat)
    requires x < Pow2(n)
    ensures FromMsb(MsbBits(x, n)) == x
  {
    if n > 0 {
      MsbRoundTrip(x / 2, n - 1);
      assert MsbBits(x, n)[..n - 1] == MsbBits(x / 2, n - 1);
    }
  }

  lemma {:induction false} MsbOfBits(bits: seq<bool>)
    ensures MsbBits(FromMsb(bits), |bits|) == bits
  {
    if bits != [] {
      MsbOfBits(bits[..|bits| - 1]);
    }
  }

  lemma HalveShifted(x: nat, y: nat, k: nat)
    ensures (x + y * (2 * k)) % 2 == x % 2
    ensures (x + y * (2 * k)) / 2 == x / 2 + y * k
  {
    assert y * (2 * k) == 2 * (y * k);
  }

  /** A number stacked on top of `m` low bits has the bits of both, one after the other. */
  lemma {:induction false} LsbConcat(x: nat, m: nat, y: nat, n: nat)
    requires x < Pow2(m)
    ensures LsbBits(x + y * Pow2(m), m + n) == LsbBits(x, m) + LsbBits(y, n)
  {
    if m > 0 {
      HalveShifted(x, y, Pow2(m - 1));
      LsbConcat(x / 2, m - 1, y, n);
    }
  }

  lemma {:induction false} MsbConcat(x: nat, m: nat, y: nat, n: nat)
    requires y < Pow2(n)
    ensures MsbBits(x * Pow2(n) + y, m + n) == MsbBits(x, m) + MsbBits(y, n)
  {
    if n > 0 {
      HalveShifted(y, x, Pow2(n - 1));
      MsbConcat(x, m, y / 2, n - 1);
    }
  }

  /** Or-ing disjoint bit fields adds them. */
  lemma {:induction false} OrIsSum(x: nat, m: nat, y: nat)
    requires x < Pow2(m)
    ensures BitOr(x, y * Pow2(m)) == x + y * Pow2(m)
  {
    if m == 0 {
      OrWithZero(y);
    } else {
      HalveShifted(0, y, Pow2(m - 1));
      OrIsSum(x / 2, m - 1, y);
    }
  }

  lemma {:induction false} OrWithZero(y: nat)
    ensures BitOr(0, y) == y
  {
    if y > 0 {
      OrWithZero(y / 2);
    }
  }

  lemma {:induction false} OrCommutes(x: nat, y: nat)
    ensures BitOr(x, y) == BitOr(y, x)
  {
    if x > 0 || y > 0 {
      OrCommutes(x / 2, y / 2);
    }
  }
}
