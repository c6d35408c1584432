/** Fixed-point arithmetic shared by the codecs: 16- and 32-bit ranges, wrapping casts,
    saturating operations and the shifts of a two's complement machine.

    A right shift is floor division by a power of two; a left shift is a multiplication.
    The saturating helpers are those of jni/spandsp/spandsp/saturated.h. */
module FixedPoint {

  const INT16_MIN := -0x8000
  const INT16_MAX := 0x7FFF
  const INT32_MIN := -0x8000_0000
  const INT32_MAX := 0x7FFF_FFFF

  type int16 = x: int | INT16_MIN <= x <= INT16_MAX
  type byte = x: int | 0 <= x <= 255

  predicate IsInt16(x: int) {
    INT16_MIN <= x <= INT16_MAX
  }

  predicate IsInt32(x: int) {
    INT32_MIN <= x <= INT32_MAX
  }

  /** A C cast to `int16_t`: it keeps the low sixteen bits. */
  function ToInt16(x: int): (r: int16)
    ensures IsInt16(x) ==> r == x
  {
    if IsInt16(x) then x else (x + 0x8000) % 0x10000 - 0x8000
  }

  /** A C cast to `uint8_t`. */
  function ToByte(x: int): (r: byte)
    ensures 0 <= x < 256 ==> r == x
  {
    x % 256
  }

  function Abs(x: int): nat {
    if x < 0 then -x else x
  }

  function Distance(x: int, y: int): nat {
    Abs(x - y)
  }

  function Max(x: int, y: int): int {
    if x < y then y else x
  }

  function Clamp(lo: int, x: int, hi: int): (r: int)
    requires lo <= hi
    ensures lo <= r <= hi
    ensures lo <= x <= hi ==> r == x
  {
    if x < lo then lo else if x > hi then hi else x
  }

  function Saturate(x: int): (r: int16) {
    Clamp(INT16_MIN, x, INT16_MAX)
  }

  function Saturate15(x: int): (r: int16) {
    Clamp(-0x4000, x, 0x3FFF)
  }

  function SatAdd(a: int16, b: int16): int16 {
    Saturate(a + b)
  }

  function SatSub(a: int16, b: int16): int16 {
    Saturate(a - b)
  }

  /** `saturated_abs16`: the absolute value, with 32767 for -32768. */
  function SatAbs(a: int16): (r: int16)
    ensures 0 <= r
    ensures r == Abs(a) || (a == INT16_MIN && r == INT16_MAX)
  {
    if a == INT16_MIN then INT16_MAX else Abs(a)
  }

  function SatAdd32(a: int, b: int): (r: int)
    ensures IsInt32(r)
  {
    Clamp(INT32_MIN, a + b, INT32_MAX)
  }

  /** The product of two sixteen-bit numbers in 32 bits, shifted right by 15. */
  function Q15(a: int, b: int): int {
    (a * b) / 0x8000
  }

  lemma Q15Bound(a: int, b: int, boundA: nat, boundB: nat)
    requires Abs(a) <= boundA && Abs(b) <= boundB && boundB <= 0x8000
    ensures Abs(Q15(a, b)) <= boundA
  {
    MulBound(a, b, boundA, boundB);
    MulBound(boundA, boundB, boundA, 0x8000);
  }

  /** Rounded Q15 scaling, without any special case or cast. */
  function Round15(x: int): int {
    (x + 0x4000) / 0x8000
  }

  /** `saturated_mul16`: truncating Q15 product. */
  function SatMul(a: int16, b: int16): (r: int16) {
    if a == INT16_MIN && b == INT16_MIN then INT16_MAX
    else
      MulBound(a, b, 0x8000, 0x8000);
      assert a * b < 0x4000_0000 by { MulBelowSquare(a, b); }
      (a * b) / 0x8000
  }

  /** `gsm_mult_r`: rounded Q15 product, with a cast that keeps the low sixteen bits. */
  function MultR(a: int16, b: int16): (r: int16) {
    if a == INT16_MIN && b == INT16_MIN then INT16_MAX
    else ToInt16(Round15(a * b))
  }

  lemma MulMono(x: nat, y: nat, boundX: nat, boundY: nat)
    requires x <= boundX && y <= boundY
    ensures 0 <= x * y <= boundX * boundY
  {
    var dx, dy := boundX - x, boundY - y;
    assert boundX * boundY == x * y + x * dy + dx * y + dx * dy;
  }

  /** A number below `n` stacked on one below `m`. */
  lemma StackedBelow(x: nat, m: nat, y: nat, n: nat)
    requires x < m && y < n
    ensures x + y * m < m * n
  {
    MulMono(y + 1, m, n, m);
  }

  /** Quotient and remainder are unique. */
  lemma Quotient(x: nat, p: nat, a: nat, b: nat)
    requires x == a * p + b && b < p
    ensures x / p == a && x % p == b
  {
    var q, r := x / p, x % p;
    assert x == q * p + r;
    assert (a + 1) * p == a * p + p && (q + 1) * p == q * p + p;
    if q > a {
      MulMono(a + 1, p, q, p);
    } else if q < a {
      MulMono(q + 1, p, a, p);
    }
  }

  lemma MulDistributes(a: int, b: int, k: int)
    ensures (a - b) * k == a * k - b * k
    ensures (a + 1) * k == a * k + k
  {
  }

  lemma OrderOfMultiples(a: nat, b: nat, k: nat)
    requires k > 0
    ensures b * k <= a * k ==> b <= a
    ensures b * k < a * k ==> b * k + k <= a * k
  {
    MulDistributes(a, b, k);
    MulDistributes(b, a, k);
    if b > a {
      MulMono(a + 1, k, b, k);
    } else if b < a {
      MulMono(b + 1, k, a, k);
    }
  }

  lemma MultipleDivides(a: nat, k: nat)
    requires k > 0
    ensures (a * k) % k == 0
  {
    Quotient(a * k, k, a, 0);
  }

  /** Multiples of `k` are a whole number of `k` apart. */
  lemma Multiples(n: nat, i: nat, k: nat)
    requires k > 0 && n % k == 0 && i % k == 0 && i <= n
    ensures (n - i) % k == 0 && (n + k) % k == 0
    ensures i < n ==> i + k <= n
  {
    var a, b := n / k, i / k;
    assert n == a * k && i == b * k;
    OrderOfMultiples(a, b, k);
    MulDistributes(a, b, k);
    MultipleDivides(a - b, k);
    MultipleDivides(a + 1, k);
  }

  lemma MulBound(a: int, b: int, boundA: nat, boundB: nat)
    requires Abs(a) <= boundA && Abs(b) <= boundB
    ensures Abs(a * b) <= boundA * boundB
    ensures (0 <= a && 0 <= b) || (a <= 0 && b <= 0) ==> 0 <= a * b
    ensures a <= 0 <= b || b <= 0 <= a ==> a * b <= 0
  {
    MulMono(Abs(a), Abs(b), boundA, boundB);
    var (x, y) := (Abs(a) as int, Abs(b) as int);
    if a < 0 {
      assert a == -x;
      if b < 0 { assert b == -y; assert (-x) * (-y) == x * y; }
      else { assert (-x) * b == -(x * b); }
    } else {
      if b < 0 { assert b == -y; assert a * (-y) == -(a * y); }
    }
  }

  lemma MulBelowSquare(a: int16, b: int16)
    requires !(a == INT16_MIN && b == INT16_MIN)
    ensures Abs(a * b) <= 0x8000 * 0x8000
    ensures a * b <= 0x8000 * 0x7FFF
  {
    MulBound(a, b, 0x8000, 0x8000);
    if a != INT16_MIN {
      MulBound(a, b, 0x7FFF, 0x8000);
    } else {
      MulBound(a, b, 0x8000, 0x7FFF);
    }
  }

  /** Outside its one special case the rounded product loses no bits to its cast. */
  lemma MultRExact(a: int16, b: int16)
    requires !(a == INT16_MIN && b == INT16_MIN)
    ensures MultR(a, b) == Round15(a * b)
  {
    MulBelowSquare(a, b);
  }

  /** A left shift that the source stores back into an `int16_t`. */
  function Shl16(x: int, n: nat): int16 {
    ToInt16(x * Pow2(n))
  }

  function Pow2(n: nat): (r: nat)
    ensures r >= 1
  {
    if n == 0 then 1 else 2 * Pow2(n - 1)
  }

  function Shr(x: int, n: nat): int {
    x / Pow2(n)
  }

  lemma {:induction false} Pow2Add(m: nat, n: nat)
    ensures Pow2(m + n) == Pow2(m) * Pow2(n)
  {
    if m > 0 {
      Pow2Add(m - 1, n);
      assert Pow2(m + n) == 2 * Pow2((m - 1) + n);
    }
  }

  /** The powers of two the sixteen-bit code uses, by value. */
  lemma Pow2Values()
    ensures Pow2(0) == 1 && Pow2(1) == 2 && Pow2(2) == 4 && Pow2(3) == 8 && Pow2(4) == 16
    ensures Pow2(5) == 32 && Pow2(6) == 64 && Pow2(7) == 128 && Pow2(8) == 256 && Pow2(9) == 512
    ensures Pow2(10) == 1024 && Pow2(11) == 2048 && Pow2(12) == 4096 && Pow2(13) == 8192
    ensures Pow2(14) == 16384 && Pow2(15) == 32768 && Pow2(16) == 65536
  {
  }

  /** `top_bit`: the position of the highest set bit of a positive number. */
  function TopBit(x: nat): (r: nat)
    requires x > 0
    ensures Pow2(r) <= x < Pow2(r + 1)
  {
    if x == 1 then 0 else 1 + TopBit(x / 2)
  }

  lemma {:induction false} Pow2Mono(m: nat, n: nat)
    requires m <= n
    ensures Pow2(m) <= Pow2(n)
  {
    if m < n {
      Pow2Mono(m, n - 1);
    }
  }

  /** The highest set bit is the only position that brackets the number. */
  lemma TopBitIs(x: nat, k: nat)
    requires x > 0 && Pow2(k) <= x < Pow2(k + 1)
    ensures TopBit(x) == k
  {
    if TopBit(x) < k {
      Pow2Mono(TopBit(x) + 1, k);
    } else if TopBit(x) > k {
      Pow2Mono(k + 1, TopBit(x));
    }
  }

  /** `gsm_asr`: arithmetic shift right by any amount, a negative one shifting left. */
  function Asr(a: int16, n: int): int16 {
    if n >= 16 then (if a < 0 then -1 else 0)
    else if n <= -16 then 0
    else if n < 0 then ToInt16(a * Pow2(-n))
    else
      ShrFits(a, n);
      Shr(a, n)
  }

  /** `gsm_asl`: arithmetic shift left by any amount, a negative one shifting right. */
  function Asl(a: int16, n: int): int16 {
    if n >= 16 then 0
    else if n <= -16 then (if a < 0 then -1 else 0)
    else if n < 0 then Asr(a, -n)
    else ToInt16(a * Pow2(n))
  }

  lemma ShrFits(a: int, n: nat)
    ensures Abs(Shr(a, n)) <= Abs(a)
    ensures a >= 0 <==> Shr(a, n) >= 0
  {
    DivFits(a, Pow2(n));
  }

  lemma DivFits(a: int, p: nat)
    requires p > 0
    ensures Abs(a / p) <= Abs(a)
    ensures a / p * p <= a < a / p * p + p
    ensures a >= 0 <==> a / p >= 0
  {
    var q := a / p;
    assert a == q * p + a % p;
    if q > 0 {
      MulMono(1, q, p, q);
    } else if q < 0 {
      MulMono(1, -q - 1, p, -q - 1);
      assert (-q - 1) * p == -(q * p) - p;
    }
  }
}
