/** The 33-byte packing of one GSM 06.10 frame of section 4.5.8 of RFC 3551
    (jni/spandsp/gsm0610_encode.c and jni/spandsp/gsm0610_decode.c): a four-bit signature, then all
    parameters most significant bit first. */
module GsmVoip {
  import opened FixedPoint
  import opened Bits
  import opened GsmFrame

  const MAGIC := 0xD

  /** `(k << w) | y` where `y` lies below bit `w`. */
  lemma OrDisjoint(k: nat, w: nat, y: nat)
    requires y < Pow2(w)
    ensures BitOr(k * Pow2(w), y) == k * Pow2(w) + y
  {
    hide BitOr, Pow2;
    OrIsSum(y, w, k);
    OrCommutes(k * Pow2(w), y);
  }

  // ----- bytes made of two, three or four bit fields

  /** `(a << s) | b`. */
  function Or2(a: nat, s: nat, b: nat): nat {
    BitOr(a * Pow2(s), b)
  }

  /** `(a << s) | (b << t) | c`. */
  function Or3(a: nat, s: nat, b: nat, t: nat, c: nat): nat {
    BitOr(BitOr(a * Pow2(s), b * Pow2(t)), c)
  }

  /** `(a << s) | (b << t) | (c << u) | d`. */
  function Or4(a: nat, s: nat, b: nat, t: nat, c: nat, u: nat, d: nat): nat {
    BitOr(BitOr(BitOr(a * Pow2(s), b * Pow2(t)), c * Pow2(u)), d)
  }

  lemma Or2Is(a: nat, s: nat, b: nat)
    requires b < Pow2(s)
    ensures Or2(a, s, b) == a * Pow2(s) + b
  {
    OrDisjoint(a, s, b);
  }

  lemma TopTwo(a: nat, b: nat, p: nat, q: nat)
    ensures (a * p + b) * q == a * (p * q) + b * q
    ensures b < p ==> b * q <= p * q - q
  {
    if b < p {
      MulMono(b, q, p - 1, q);
      assert (p - 1) * q == p * q - q;
    }
  }

  lemma Or3Is(a: nat, s: nat, b: nat, t: nat, c: nat)
    requires t <= s && b < Pow2(s - t) && c < Pow2(t)
    ensures Or3(a, s, b, t, c) == a * Pow2(s) + b * Pow2(t) + c
  {
    hide BitOr, Pow2;
    Pow2Add(s - t, t);
    TopTwo(a, b, Pow2(s - t), Pow2(t));
    OrDisjoint(a, s, b * Pow2(t));
    OrDisjoint(a * Pow2(s - t) + b, t, c);
  }

  lemma Or4Is(a: nat, b: nat, c: nat, d: nat)
    requires b < 8 && c < 8 && d < 2
    ensures Or4(a, 7, b, 4, c, 1, d) == a * 128 + b * 16 + c * 2 + d
  {
    hide BitOr, Pow2;
    Pow2Values();
    OrDisjoint(a, 7, b * 16);
    OrDisjoint(a * 8 + b, 4, c * 2);
    OrDisjoint((a * 8 + b) * 8 + c, 1, d);
  }

  // ----- fields cut out of a number, and bytes and parameters put together

  /** `(x >> s) & mask`, with a mask of `w` ones. */
  function Part(x: int, s: nat, w: nat): (r: nat)
    ensures r < Pow2(w)
  {
    Shr(x, s) % Pow2(w)
  }

  function Byte2(a: nat, s: nat, b: nat): byte {
    ToByte(Or2(a, s, b))
  }

  function Byte3(a: nat, s: nat, b: nat, t: nat, c: nat): byte {
    ToByte(Or3(a, s, b, t, c))
  }

  function Byte4(a: nat, b: nat, c: nat, d: nat): byte {
    ToByte(Or4(a, 7, b, 4, c, 1, d))
  }

  /** A parameter that straddles two bytes. */
  function Join(a: nat, s: nat, b: nat): int16 {
    ToInt16(Or2(a, s, b))
  }

  /** Putting two fields together and cutting them out again. */
  lemma CutStack(a: nat, s: nat, b: nat, w: nat)
    requires a < Pow2(w) && b < Pow2(s)
    ensures Or2(a, s, b) == a * Pow2(s) + b < Pow2(s + w)
    ensures Part(Or2(a, s, b), s, w) == a && Part(Or2(a, s, b), 0, s) == b
  {
    hide Or2, Pow2;
    Pow2Values();
    Or2Is(a, s, b);
    var x := Or2(a, s, b);
    Quotient(x, Pow2(s), a, b);
    Quotient(a, Pow2(w), 0, a);
    Pow2Add(w, s);
    MulMono(a, Pow2(s), Pow2(w) - 1, Pow2(s));
    assert (Pow2(w) - 1) * Pow2(s) == Pow2(w) * Pow2(s) - Pow2(s);
  }

  /** Cutting a number in two and putting it together again. */
  lemma StackCut(x: nat, s: nat, w: nat)
    requires x < Pow2(s + w)
    ensures Or2(Part(x, s, w), s, Part(x, 0, s)) == x
    ensures x == Part(x, s, w) * Pow2(s) + Part(x, 0, s)
  {
    hide Or2, Pow2;
    Pow2Values();
    Pow2Add(w, s);
    var p, q := Pow2(s), Pow2(w);
    var a, b := x / p, x % p;
    assert x == a * p + b;
    if a >= q {
      MulMono(q, p, a, p);
    }
    Quotient(a, q, 0, a);
    Or2Is(a, s, b);
  }

  lemma Whole(x: nat, w: nat)
    requires x < Pow2(w)
    ensures Part(x, 0, w) == x
  {
    hide Pow2;
    Pow2Values();
    Quotient(x, Pow2(w), 0, x);
  }

  lemma Byte2RoundTrip(a: nat, s: nat, b: nat)
    requires 0 < s < 8 && a < Pow2(8 - s) && b < Pow2(s)
    ensures var y := Byte2(a, s, b); Part(y, s, 8 - s) == a && Part(y, 0, s) == b
  {
    hide Or2, Part, Pow2;
    CutStack(a, s, b, 8 - s);
    Pow2Values();
  }

  lemma Byte2OfParts(y: byte, s: nat)
    requires 0 < s < 8
    ensures Byte2(Part(y, s, 8 - s), s, Part(y, 0, s)) == y
  {
    hide Or2, Part, Pow2;
    Pow2Values();
    StackCut(y, s, 8 - s);
  }

  predicate Shape3(s: nat, t: nat) {
    (s, t) == (6, 2) || (s, t) == (6, 3) || (s, t) == (7, 5) || (s, t) == (5, 2)
  }

  /** Three digits of a number, in the mixed base `p`, `q`. */
  lemma Digits(y: nat, a: nat, b: nat, c: nat, p: nat, q: nat)
    requires y == (a * p + b) * q + c && b < p && c < q
    ensures p * q > 0 && y / (p * q) == a && (y / q) % p == b && y % q == c
  {
    Quotient(y, q, a * p + b, c);
    Quotient(a * p + b, p, a, b);
    assert (a * p + b) * q == a * (p * q) + b * q;
    MulMono(b, q, p - 1, q);
    assert (p - 1) * q == p * q - q;
    Quotient(y, p * q, a, b * q + c);
  }

  lemma DigitsOf(y: nat, p: nat, q: nat)
    requires p > 0 && q > 0
    ensures p * q > 0 && y == y / (p * q) * (p * q) + (y / q) % p * q + y % q
  {
    MulMono(1, 1, p, q);
    var z := y / q;
    var a, b := z / p, z % p;
    assert y == z * q + y % q;
    assert z == a * p + b;
    Digits(y, a, b, y % q, p, q);
    assert (a * p + b) * q == a * (p * q) + b * q;
  }

  lemma Byte3RoundTrip(a: nat, s: nat, b: nat, t: nat, c: nat)
    requires Shape3(s, t) && a < Pow2(8 - s) && b < Pow2(s - t) && c < Pow2(t)
    ensures var y := Byte3(a, s, b, t, c);
            Part(y, s, 8 - s) == a && Part(y, t, s - t) == b && Part(y, 0, t) == c
  {
    hide Or3, Pow2;
    Pow2Values();
    Pow2Add(s - t, t);
    Or3Is(a, s, b, t, c);
    var y := Or3(a, s, b, t, c);
    assert a * Pow2(s) == a * Pow2(s - t) * Pow2(t);
    Digits(y, a, b, c, Pow2(s - t), Pow2(t));
    assert y < 256 by { PartsBelow(a, s, b, t, c); }
    Quotient(a, Pow2(8 - s), 0, a);
    Quotient(c, Pow2(t), 0, c);
  }

  lemma PartsBelow(a: nat, s: nat, b: nat, t: nat, c: nat)
    requires Shape3(s, t) && a < Pow2(8 - s) && b < Pow2(s - t) && c < Pow2(t)
    ensures a * Pow2(s) + b * Pow2(t) + c < 256
  {
    hide Pow2;
    Pow2Values();
    if s == 7 {} else if s == 5 {} else if t == 2 {} else {}
  }

  lemma Byte3OfParts(y: byte, s: nat, t: nat)
    requires Shape3(s, t)
    ensures Byte3(Part(y, s, 8 - s), s, Part(y, t, s - t), t, Part(y, 0, t)) == y
  {
    hide Or3, Pow2;
    Pow2Values();
    Pow2Add(s - t, t);
    DigitsOf(y, Pow2(s - t), Pow2(t));
    var a, b, c := y / Pow2(s), (y / Pow2(t)) % Pow2(s - t), y % Pow2(t);
    TopField(y, s);
    Quotient(a, Pow2(8 - s), 0, a);
    Or3Is(a, s, b, t, c);
    assert Or3(a, s, b, t, c) == y;
    assert Part(y, s, 8 - s) == a && Part(y, t, s - t) == b && Part(y, 0, t) == c;
  }

  lemma TopField(y: byte, s: nat)
    requires 5 <= s <= 7
    ensures y / Pow2(s) < Pow2(8 - s)
  {
    hide Pow2;
    Pow2Values();
    if s == 5 {} else if s == 6 {} else {}
  }

  lemma FourDigits(y: nat, a: nat, b: nat, c: nat, d: nat)
    requires y == a * 128 + b * 16 + c * 2 + d && a < 2 && b < 8 && c < 8 && d < 2
    ensures y / 128 == a && (y / 16) % 8 == b && (y / 2) % 8 == c && y % 2 == d
    ensures y / 128 % 2 == a && y / 1 % 2 == d
  {
    Quotient(y, 128, a, b * 16 + c * 2 + d);
    Quotient(y, 16, a * 8 + b, c * 2 + d);
    Quotient(a * 8 + b, 8, a, b);
    Quotient(y, 2, a * 64 + b * 8 + c, d);
    Quotient(a * 64 + b * 8 + c, 8, a * 8 + b, c);
    Quotient(a, 2, 0, a);
  }

  lemma Byte4RoundTrip(a: nat, b: nat, c: nat, d: nat)
    requires a < 2 && b < 8 && c < 8 && d < 2
    ensures var y := Byte4(a, b, c, d);
            Part(y, 7, 1) == a && Part(y, 4, 3) == b && Part(y, 1, 3) == c && Part(y, 0, 1) == d
  {
    hide Or4, Pow2;
    Pow2Values();
    Or4Is(a, b, c, d);
    FourDigits(Or4(a, 7, b, 4, c, 1, d), a, b, c, d);
  }

  lemma FourDigitsOf(y: byte)
    ensures y as int == y / 128 * 128 + y / 16 % 8 * 16 + y / 2 % 8 * 2 + y % 2
    ensures y / 128 < 2
  {
    var z := y / 2;
    var w := z / 8;
    assert y / 16 == w;
    assert y / 128 == w / 8;
  }

  lemma Byte4OfParts(y: byte)
    ensures Byte4(Part(y, 7, 1), Part(y, 4, 3), Part(y, 1, 3), Part(y, 0, 1)) == y
  {
    hide Or4, Pow2;
    Pow2Values();
    FourDigitsOf(y);
    Quotient(y / 128, 2, 0, y / 128);
    Or4Is(y / 128, y / 16 % 8, y / 2 % 8, y % 2);
  }

  /** A straddling parameter keeps its two parts, and two parts keep their parameter. */
  lemma JoinRoundTrip(a: nat, s: nat, b: nat, w: nat)
    requires s + w <= 6 && a < Pow2(w) && b < Pow2(s)
    ensures 0 <= Join(a, s, b) < Pow2(s + w)
    ensures Part(Join(a, s, b), s, w) == a && Part(Join(a, s, b), 0, s) == b
  {
    hide Or2, Part, Pow2;
    CutStack(a, s, b, w);
    Pow2Mono(s + w, 6);
    Pow2Values();
  }

  lemma JoinOfParts(x: int16, s: nat, w: nat)
    requires 0 <= x < Pow2(s + w)
    ensures Join(Part(x, s, w), s, Part(x, 0, s)) == x
  {
    hide Or2, Part, Pow2;
    StackCut(x, s, w);
  }

  // ----- the format

  /** The signature and the eight log area ratios. */
  function LarBytes(larc: seq<int16>): (c: seq<byte>)
    requires |larc| == 8
    ensures |c| == 5
  {
    [Byte2(MAGIC, 4, Part(larc[0], 2, 4)),
     Byte2(Part(larc[0], 0, 2), 6, Part(larc[1], 0, 6)),
     Byte2(Part(larc[2], 0, 5), 3, Part(larc[3], 2, 3)),
     Byte3(Part(larc[3], 0, 2), 6, Part(larc[4], 0, 4), 2, Part(larc[5], 2, 2)),
     Byte3(Part(larc[5], 0, 2), 6, Part(larc[6], 0, 3), 3, Part(larc[7], 0, 3))]
  }

  function SubBytes(s: Sub): (c: seq<byte>)
    requires |s.xMc| == 13
    ensures |c| == 7
  {
    [Byte2(Part(s.nc, 0, 7), 1, Part(s.bc, 1, 1)),
     Byte3(Part(s.bc, 0, 1), 7, Part(s.mc, 0, 2), 5, Part(s.xmaxc, 1, 5)),
     Byte4(Part(s.xmaxc, 0, 1), Part(s.xMc[0], 0, 3), Part(s.xMc[1], 0, 3), Part(s.xMc[2], 2, 1)),
     Byte3(Part(s.xMc[2], 0, 2), 6, Part(s.xMc[3], 0, 3), 3, Part(s.xMc[4], 0, 3)),
     Byte3(Part(s.xMc[5], 0, 3), 5, Part(s.xMc[6], 0, 3), 2, Part(s.xMc[7], 1, 2)),
     Byte4(Part(s.xMc[7], 0, 1), Part(s.xMc[8], 0, 3), Part(s.xMc[9], 0, 3), Part(s.xMc[10], 2, 1)),
     Byte3(Part(s.xMc[10], 0, 2), 6, Part(s.xMc[11], 0, 3), 3, Part(s.xMc[12], 0, 3))]
  }

  function PackVoip(f: Frame): (c: seq<byte>)
    requires Shaped(f)
    ensures |c| == 33
  {
    hide LarBytes, SubBytes;
    LarBytes(f.larc) + SubBytes(f.subs[0]) + SubBytes(f.subs[1]) + SubBytes(f.subs[2]) + SubBytes(f.subs[3])
  }

  function LarsFromBytes(c: seq<byte>): (larc: seq<int16>)
    requires |c| == 5
    ensures |larc| == 8
  {
    hide Pow2;
    Pow2Values();
    [Join(Part(c[0], 0, 4), 2, Part(c[1], 6, 2)), Part(c[1], 0, 6), Part(c[2], 3, 5),
     Join(Part(c[2], 0, 3), 2, Part(c[3], 6, 2)), Part(c[3], 2, 4),
     Join(Part(c[3], 0, 2), 2, Part(c[4], 6, 2)), Part(c[4], 3, 3), Part(c[4], 0, 3)]
  }

  function SubFromBytes(c: seq<byte>): (s: Sub)
    requires |c| == 7
    ensures |s.xMc| == 13
  {
    hide Pow2;
    Pow2Values();
    Sub(Part(c[0], 1, 7), Join(Part(c[0], 0, 1), 1, Part(c[1], 7, 1)), Part(c[1], 5, 2),
        Join(Part(c[1], 0, 5), 1, Part(c[2], 7, 1)),
        [Part(c[2], 4, 3), Part(c[2], 1, 3), Join(Part(c[2], 0, 1), 2, Part(c[3], 6, 2)),
         Part(c[3], 3, 3), Part(c[3], 0, 3), Part(c[4], 5, 3), Part(c[4], 2, 3),
         Join(Part(c[4], 0, 2), 1, Part(c[5], 7, 1)), Part(c[5], 4, 3), Part(c[5], 1, 3),
         Join(Part(c[5], 0, 1), 2, Part(c[6], 6, 2)), Part(c[6], 3, 3), Part(c[6], 0, 3)])
  }

  function UnpackVoip(c: seq<byte>): (f: Frame)
    requires |c| == 33
    ensures Shaped(f)
  {
    hide LarsFromBytes, SubFromBytes;
    Frame(LarsFromBytes(c[..5]),
          [SubFromBytes(c[5..12]), SubFromBytes(c[12..19]), SubFromBytes(c[19..26]), SubFromBytes(c[26..33])])
  }

  // ----- the round trips

  predicate LarsInRange(larc: seq<int16>) {
    |larc| == 8 && forall i :: 0 <= i < 8 ==> 0 <= larc[i] < Pow2(LarWidth(i))
  }

  lemma LarsSurvive(larc: seq<int16>)
    requires LarsInRange(larc)
    ensures LarsFromBytes(LarBytes(larc)) == larc
  {
    hide Byte2, Byte3, Join, Part, Pow2;
    Pow2Values();
    Byte2RoundTrip(MAGIC, 4, Part(larc[0], 2, 4));
    Byte2RoundTrip(Part(larc[0], 0, 2), 6, Part(larc[1], 0, 6));
    Byte2RoundTrip(Part(larc[2], 0, 5), 3, Part(larc[3], 2, 3));
    Byte3RoundTrip(Part(larc[3], 0, 2), 6, Part(larc[4], 0, 4), 2, Part(larc[5], 2, 2));
    Byte3RoundTrip(Part(larc[5], 0, 2), 6, Part(larc[6], 0, 3), 3, Part(larc[7], 0, 3));
    JoinOfParts(larc[0], 2, 4);
    JoinOfParts(larc[3], 2, 3);
    JoinOfParts(larc[5], 2, 2);
    Whole(larc[1], 6);
    Whole(larc[2], 5);
    Whole(larc[4], 4);
    Whole(larc[6], 3);
    Whole(larc[7], 3);
  }

  lemma SubSurvives(s: Sub)
    requires SubInRange(s)
    ensures SubFromBytes(SubBytes(s)) == s
  {
    hide Byte2, Byte3, Byte4, Join, Part, Pow2;
    Pow2Values();
    var c := SubBytes(s);
    Byte2RoundTrip(Part(s.nc, 0, 7), 1, Part(s.bc, 1, 1));
    Byte3RoundTrip(Part(s.bc, 0, 1), 7, Part(s.mc, 0, 2), 5, Part(s.xmaxc, 1, 5));
    Byte4RoundTrip(Part(s.xmaxc, 0, 1), Part(s.xMc[0], 0, 3), Part(s.xMc[1], 0, 3), Part(s.xMc[2], 2, 1));
    Byte3RoundTrip(Part(s.xMc[2], 0, 2), 6, Part(s.xMc[3], 0, 3), 3, Part(s.xMc[4], 0, 3));
    Byte3RoundTrip(Part(s.xMc[5], 0, 3), 5, Part(s.xMc[6], 0, 3), 2, Part(s.xMc[7], 1, 2));
    Byte4RoundTrip(Part(s.xMc[7], 0, 1), Part(s.xMc[8], 0, 3), Part(s.xMc[9], 0, 3), Part(s.xMc[10], 2, 1));
    Byte3RoundTrip(Part(s.xMc[10], 0, 2), 6, Part(s.xMc[11], 0, 3), 3, Part(s.xMc[12], 0, 3));
    Whole(s.nc, 7);
    JoinOfParts(s.bc, 1, 1);
    Whole(s.mc, 2);
    JoinOfParts(s.xmaxc, 1, 5);
    JoinOfParts(s.xMc[2], 2, 1);
    JoinOfParts(s.xMc[7], 1, 2);
    JoinOfParts(s.xMc[10], 2, 1);
    forall i | 0 <= i < 13
      ensures Part(s.xMc[i], 0, 3) == s.xMc[i]
    {
      Whole(s.xMc[i], 3);
    }
    assert SubFromBytes(c).xMc == s.xMc;
  }

  lemma LarBytesSurvive(c: seq<byte>)
    requires |c| == 5
    ensures LarsInRange(LarsFromBytes(c))
    ensures LarBytes(LarsFromBytes(c)) == c[0 := 0xD0 + c[0] % 16]
  {
    hide Byte2, Byte3, Join, Part, Pow2;
    Pow2Values();
    var l := LarsFromBytes(c);
    JoinRoundTrip(Part(c[0], 0, 4), 2, Part(c[1], 6, 2), 4);
    JoinRoundTrip(Part(c[2], 0, 3), 2, Part(c[3], 6, 2), 3);
    JoinRoundTrip(Part(c[3], 0, 2), 2, Part(c[4], 6, 2), 2);
    Whole(l[1], 6);
    Whole(l[2], 5);
    Whole(l[4], 4);
    Whole(l[6], 3);
    Whole(l[7], 3);
    Signature(c[0]);
    Byte2OfParts(c[1], 6);
    Byte2OfParts(c[2], 3);
    Byte3OfParts(c[3], 6, 2);
    Byte3OfParts(c[4], 6, 3);
  }

  lemma Signature(y: byte)
    ensures Byte2(MAGIC, 4, Part(y, 0, 4)) == 0xD0 + y % 16
  {
    hide Or2, Pow2;
    Pow2Values();
    Or2Is(MAGIC, 4, y % 16);
  }

  lemma SubBytesSurvive(c: seq<byte>)
    requires |c| == 7
    ensures SubInRange(SubFromBytes(c))
    ensures SubBytes(SubFromBytes(c)) == c
  {
    hide Byte2, Byte3, Byte4, Join, Part, Pow2;
    Pow2Values();
    var s := SubFromBytes(c);
    JoinRoundTrip(Part(c[0], 0, 1), 1, Part(c[1], 7, 1), 1);
    JoinRoundTrip(Part(c[1], 0, 5), 1, Part(c[2], 7, 1), 5);
    JoinRoundTrip(Part(c[2], 0, 1), 2, Part(c[3], 6, 2), 1);
    JoinRoundTrip(Part(c[4], 0, 2), 1, Part(c[5], 7, 1), 2);
    JoinRoundTrip(Part(c[5], 0, 1), 2, Part(c[6], 6, 2), 1);
    Whole(s.nc, 7);
    Whole(s.mc, 2);
    forall i | 0 <= i < 13
      ensures 0 <= s.xMc[i] <= 7 && Part(s.xMc[i], 0, 3) == s.xMc[i]
    {
      Whole(s.xMc[i], 3);
    }
    Byte2OfParts(c[0], 1);
    Byte3OfParts(c[1], 7, 5);
    Byte4OfParts(c[2]);
    Byte3OfParts(c[3], 6, 3);
    Byte3OfParts(c[4], 5, 2);
    Byte4OfParts(c[5]);
    Byte3OfParts(c[6], 6, 3);
  }

  /** Every frame the coder can send survives the 33 bytes. */
  lemma UnpackAfterPack(f: Frame)
    requires InRange(f)
    ensures UnpackVoip(PackVoip(f)) == f
  {
    hide LarBytes, SubBytes, LarsFromBytes, SubFromBytes, SubInRange, Pow2;
    var c := PackVoip(f);
    LarsSurvive(f.larc);
    assert c[..5] == LarBytes(f.larc);
    assert c[5..12] == SubBytes(f.subs[0]);
    assert c[12..19] == SubBytes(f.subs[1]);
    assert c[19..26] == SubBytes(f.subs[2]);
    assert c[26..33] == SubBytes(f.subs[3]);
    forall j | 0 <= j < 4
      ensures SubFromBytes(SubBytes(f.subs[j])) == f.subs[j]
    {
      SubSurvives(f.subs[j]);
    }
    assert UnpackVoip(c).subs == f.subs;
  }

  /** Any 33 bytes come back, except for the signature nibble. */
  lemma PackAfterUnpack(c: seq<byte>)
    requires |c| == 33
    ensures InRange(UnpackVoip(c))
    ensures PackVoip(UnpackVoip(c)) == c[0 := 0xD0 + c[0] % 16]
  {
    hide LarBytes, SubBytes, LarsFromBytes, SubFromBytes, SubInRange, Pow2;
    LarBytesSurvive(c[..5]);
    SubBytesSurvive(c[5..12]);
    SubBytesSurvive(c[12..19]);
    SubBytesSurvive(c[19..26]);
    SubBytesSurvive(c[26..33]);
    var d := c[0 := 0xD0 + c[0] % 16];
    assert c[..5][0 := 0xD0 + c[0] % 16] == d[..5];
    assert d == d[..5] + c[5..12] + c[12..19] + c[19..26] + c[26..33];
  }

  // ----- the format as a stream of bits

  function FieldBits(f: Field): seq<bool> {
    if f.0 < 0 then [] else MsbBits(f.0, f.1)
  }

  /** The bits of a list of parameters, each most significant bit first. */
  function FieldsBits(fs: seq<Field>): seq<bool> {
    if fs == [] then [] else FieldsBits(fs[..|fs| - 1]) + FieldBits(fs[|fs| - 1])
  }

  /** The bits of a list of bytes, each most significant bit first. */
  function BytesBits(c: seq<byte>): seq<bool> {
    if c == [] then [] else BytesBits(c[..|c| - 1]) + MsbBits(c[|c| - 1], 8)
  }

  lemma FieldsNext(fs: seq<Field>, n: nat)
    requires n < |fs|
    ensures FieldsBits(fs[..n + 1]) == FieldsBits(fs[..n]) + FieldBits(fs[n])
  {
    assert fs[..n + 1][..n] == fs[..n];
  }

  lemma BytesNext(c: seq<byte>, n: nat)
    requires n < |c|
    ensures BytesBits(c[..n + 1]) == BytesBits(c[..n]) + MsbBits(c[n], 8)
  {
    assert c[..n + 1][..n] == c[..n];
  }

  lemma {:induction false} FieldsAppend(a: seq<Field>, b: seq<Field>)
    ensures FieldsBits(a + b) == FieldsBits(a) + FieldsBits(b)
  {
    hide FieldBits;
    if b == [] {
      assert a + b == a;
    } else {
      FieldsAppend(a, b[..|b| - 1]);
      assert (a + b)[..|a + b| - 1] == a + b[..|b| - 1];
    }
  }

  lemma {:induction false} BytesAppend(a: seq<byte>, b: seq<byte>)
    ensures BytesBits(a + b) == BytesBits(a) + BytesBits(b)
  {
    hide MsbBits;
    if b == [] {
      assert a + b == a;
    } else {
      BytesAppend(a, b[..|b| - 1]);
      assert (a + b)[..|a + b| - 1] == a + b[..|b| - 1];
    }
  }

  lemma Byte2Bits(a: nat, s: nat, b: nat)
    requires 0 < s < 8 && a < Pow2(8 - s) && b < Pow2(s)
    ensures MsbBits(Byte2(a, s, b), 8) == MsbBits(a, 8 - s) + MsbBits(b, s)
  {
    hide Or2, Pow2, MsbBits;
    CutStack(a, s, b, 8 - s);
    Pow2Values();
    MsbConcat(a, 8 - s, b, s);
  }

  lemma Or3Nested(a: nat, s: nat, b: nat, t: nat, c: nat)
    requires Shape3(s, t) && a < Pow2(8 - s) && b < Pow2(s - t) && c < Pow2(t)
    ensures Or3(a, s, b, t, c) == (a * Pow2(s - t) + b) * Pow2(t) + c < 256
  {
    hide Or3, Pow2;
    Or3Is(a, s, b, t, c);
    PartsBelow(a, s, b, t, c);
    Pow2Add(s - t, t);
    TopTwo(a, b, Pow2(s - t), Pow2(t));
  }

  lemma Byte3Bits(a: nat, s: nat, b: nat, t: nat, c: nat)
    requires Shape3(s, t) && a < Pow2(8 - s) && b < Pow2(s - t) && c < Pow2(t)
    ensures MsbBits(Byte3(a, s, b, t, c), 8) == MsbBits(a, 8 - s) + MsbBits(b, s - t) + MsbBits(c, t)
  {
    hide Or3, Pow2, MsbBits;
    Or3Nested(a, s, b, t, c);
    var ab := a * Pow2(s - t) + b;
    MsbConcat(a, 8 - s, b, s - t);
    assert MsbBits(ab, 8 - t) == MsbBits(a, 8 - s) + MsbBits(b, s - t);
    MsbConcat(ab, 8 - t, c, t);
  }

  lemma Byte4Bits(a: nat, b: nat, c: nat, d: nat)
    requires a < 2 && b < 8 && c < 8 && d < 2
    ensures MsbBits(Byte4(a, b, c, d), 8) == MsbBits(a, 1) + MsbBits(b, 3) + MsbBits(c, 3) + MsbBits(d, 1)
  {
    hide Or4, Pow2, MsbBits;
    Pow2Values();
    Or4Is(a, b, c, d);
    MsbConcat(a, 1, b, 3);
    MsbConcat(a * 8 + b, 4, c, 3);
    MsbConcat((a * 8 + b) * 8 + c, 7, d, 1);
  }

  /** A parameter that straddles two bytes leaves its upper bits in one and its lower bits in the other. */
  lemma StraddlingBits(x: int16, s: nat, w: nat)
    requires 0 <= x < Pow2(s + w)
    ensures MsbBits(Part(x, s, w), w) + MsbBits(Part(x, 0, s), s) == FieldBits((x as int, s + w))
  {
    hide Or2, Pow2, MsbBits, Part;
    StackCut(x, s, w);
    MsbConcat(Part(x, s, w), w, Part(x, 0, s), s);
    assert s + w == w + s;
  }

  lemma WholeBits(x: int16, w: nat)
    requires 0 <= x < Pow2(w)
    ensures MsbBits(Part(x, 0, w), w) == FieldBits((x as int, w))
  {
    Whole(x, w);
  }

  /** A straddling parameter followed by whole ones and the start of another. */
  lemma Glue(p: seq<bool>, hi: seq<bool>, lo: seq<bool>, b: seq<bool>, c: seq<bool>, d: seq<bool>)
    ensures (p + hi) + (lo + b) == (p + (hi + lo)) + b
    ensures (p + hi) + (lo + b + c) == (p + (hi + lo)) + b + c
    ensures (p + hi) + (lo + b + c + d) == (p + (hi + lo)) + b + c + d
  {
  }

  /** What has been sent before parameter `n`. */
  function Before(signature: seq<bool>, fs: seq<Field>, n: nat): seq<bool>
    requires n <= |fs|
  {
    signature + FieldsBits(fs[..n])
  }

  lemma BeforeNext(signature: seq<bool>, fs: seq<Field>, n: nat)
    requires n < |fs|
    ensures Before(signature, fs, n + 1) == Before(signature, fs, n) + FieldBits(fs[n])
  {
    FieldsNext(fs, n);
  }

  lemma Append3(p: seq<bool>, a: seq<bool>, b: seq<bool>, c: seq<bool>)
    ensures p + (a + b + c) == p + a + b + c
  {
  }

  lemma LarBits(larc: seq<int16>)
    requires LarsInRange(larc)
    ensures BytesBits(LarBytes(larc)) == MsbBits(MAGIC, 4) + FieldsBits(LarFields(larc))
  {
    hide Byte2, Byte3, Part, Pow2, MsbBits, FieldBits, FieldsBits, BytesBits, Before;
    Pow2Values();
    var c, fs, sig := LarBytes(larc), LarFields(larc), MsbBits(MAGIC, 4);
    FirstLarBits(larc);
    BeforeNext(sig, fs, 3);
    BeforeNext(sig, fs, 4);
    BeforeNext(sig, fs, 5);
    BeforeNext(sig, fs, 6);
    BeforeNext(sig, fs, 7);
    StraddlingBits(larc[3], 2, 3);
    StraddlingBits(larc[5], 2, 2);
    WholeBits(larc[4], 4);
    WholeBits(larc[6], 3);
    WholeBits(larc[7], 3);
    BytesNext(c, 3);
    Byte3Bits(Part(larc[3], 0, 2), 6, Part(larc[4], 0, 4), 2, Part(larc[5], 2, 2));
    Glue(Before(sig, fs, 3), MsbBits(Part(larc[3], 2, 3), 3), MsbBits(Part(larc[3], 0, 2), 2),
         MsbBits(Part(larc[4], 0, 4), 4), MsbBits(Part(larc[5], 2, 2), 2), []);
    BytesNext(c, 4);
    Byte3Bits(Part(larc[5], 0, 2), 6, Part(larc[6], 0, 3), 3, Part(larc[7], 0, 3));
    Glue(Before(sig, fs, 5), MsbBits(Part(larc[5], 2, 2), 2), MsbBits(Part(larc[5], 0, 2), 2),
         MsbBits(Part(larc[6], 0, 3), 3), MsbBits(Part(larc[7], 0, 3), 3), []);
    assert c[..5] == c && fs[..8] == fs;
    assert Before(sig, fs, 8) == sig + FieldsBits(fs) by { BeforeAll(sig, fs); }
  }

  lemma BeforeAll(signature: seq<bool>, fs: seq<Field>)
    ensures Before(signature, fs, |fs|) == signature + FieldsBits(fs)
    ensures signature == [] ==> Before(signature, fs, |fs|) == FieldsBits(fs)
  {
    assert fs[..|fs|] == fs;
  }

  lemma BeforeFirst(fs: seq<Field>)
    ensures forall signature: seq<bool> :: Before(signature, fs, 0) == signature
    ensures forall c: seq<byte> :: BytesBits(c[..0]) == []
  {
  }

  /** The signature, the first three log area ratios and the start of the fourth. */
  lemma FirstLarBits(larc: seq<int16>)
    requires LarsInRange(larc)
    ensures BytesBits(LarBytes(larc)[..3])
         == Before(MsbBits(MAGIC, 4), LarFields(larc), 3) + MsbBits(Part(larc[3], 2, 3), 3)
  {
    hide Byte2, Byte3, Part, Pow2, MsbBits, FieldBits, FieldsBits, BytesBits, Before;
    Pow2Values();
    var c, fs, sig := LarBytes(larc), LarFields(larc), MsbBits(MAGIC, 4);
    BeforeFirst(fs);
    BeforeNext(sig, fs, 0);
    BeforeNext(sig, fs, 1);
    BeforeNext(sig, fs, 2);
    StraddlingBits(larc[0], 2, 4);
    WholeBits(larc[1], 6);
    WholeBits(larc[2], 5);
    BytesNext(c, 0);
    Byte2Bits(MAGIC, 4, Part(larc[0], 2, 4));
    BytesNext(c, 1);
    Byte2Bits(Part(larc[0], 0, 2), 6, Part(larc[1], 0, 6));
    Glue(sig, MsbBits(Part(larc[0], 2, 4), 4), MsbBits(Part(larc[0], 0, 2), 2),
         MsbBits(Part(larc[1], 0, 6), 6), [], []);
    BytesNext(c, 2);
    Byte2Bits(Part(larc[2], 0, 5), 3, Part(larc[3], 2, 3));
    ConcatAssoc(Before(sig, fs, 2), FieldBits(fs[2]), MsbBits(Part(larc[3], 2, 3), 3));
  }

  /** The lag, gain, grid and block maximum, and the first pulses, up to the start of the third. */
  lemma HeadBits(s: Sub)
    requires SubInRange(s)
    ensures BytesBits(SubBytes(s)[..3])
         == Before([], SubFields(s), 6) + MsbBits(Part(s.xMc[2], 2, 1), 1)
  {
    hide Byte2, Byte3, Byte4, Part, Pow2, MsbBits, FieldBits, FieldsBits, BytesBits, Before;
    Pow2Values();
    var c, fs := SubBytes(s), SubFields(s);
    BeforeFirst(fs);
    BeforeNext([], fs, 0);
    BeforeNext([], fs, 1);
    BeforeNext([], fs, 2);
    BeforeNext([], fs, 3);
    BeforeNext([], fs, 4);
    BeforeNext([], fs, 5);
    WholeBits(s.nc, 7);
    StraddlingBits(s.bc, 1, 1);
    WholeBits(s.mc, 2);
    StraddlingBits(s.xmaxc, 1, 5);
    WholeBits(s.xMc[0], 3);
    WholeBits(s.xMc[1], 3);
    BytesNext(c, 0);
    Byte2Bits(Part(s.nc, 0, 7), 1, Part(s.bc, 1, 1));
    ConcatAssoc([], FieldBits(fs[0]), MsbBits(Part(s.bc, 1, 1), 1));
    BytesNext(c, 1);
    Byte3Bits(Part(s.bc, 0, 1), 7, Part(s.mc, 0, 2), 5, Part(s.xmaxc, 1, 5));
    Glue(Before([], fs, 1), MsbBits(Part(s.bc, 1, 1), 1), MsbBits(Part(s.bc, 0, 1), 1),
         MsbBits(Part(s.mc, 0, 2), 2), MsbBits(Part(s.xmaxc, 1, 5), 5), []);
    BytesNext(c, 2);
    Byte4Bits(Part(s.xmaxc, 0, 1), Part(s.xMc[0], 0, 3), Part(s.xMc[1], 0, 3), Part(s.xMc[2], 2, 1));
    Glue(Before([], fs, 3), MsbBits(Part(s.xmaxc, 1, 5), 5), MsbBits(Part(s.xmaxc, 0, 1), 1),
         MsbBits(Part(s.xMc[0], 0, 3), 3), MsbBits(Part(s.xMc[1], 0, 3), 3), MsbBits(Part(s.xMc[2], 2, 1), 1));
  }

  /** The pulses up to the start of the eighth. */
  lemma MiddleBits(s: Sub)
    requires SubInRange(s)
    ensures BytesBits(SubBytes(s)[..5])
         == Before([], SubFields(s), 11) + MsbBits(Part(s.xMc[7], 1, 2), 2)
  {
    hide Byte2, Byte3, Byte4, Part, Pow2, MsbBits, FieldBits, FieldsBits, BytesBits, Before;
    Pow2Values();
    var c, fs := SubBytes(s), SubFields(s);
    HeadBits(s);
    BeforeNext([], fs, 6);
    BeforeNext([], fs, 7);
    BeforeNext([], fs, 8);
    BeforeNext([], fs, 9);
    BeforeNext([], fs, 10);
    StraddlingBits(s.xMc[2], 2, 1);
    WholeBits(s.xMc[3], 3);
    WholeBits(s.xMc[4], 3);
    WholeBits(s.xMc[5], 3);
    WholeBits(s.xMc[6], 3);
    BytesNext(c, 3);
    Byte3Bits(Part(s.xMc[2], 0, 2), 6, Part(s.xMc[3], 0, 3), 3, Part(s.xMc[4], 0, 3));
    Glue(Before([], fs, 6), MsbBits(Part(s.xMc[2], 2, 1), 1), MsbBits(Part(s.xMc[2], 0, 2), 2),
         MsbBits(Part(s.xMc[3], 0, 3), 3), MsbBits(Part(s.xMc[4], 0, 3), 3), []);
    BytesNext(c, 4);
    Byte3Bits(Part(s.xMc[5], 0, 3), 5, Part(s.xMc[6], 0, 3), 2, Part(s.xMc[7], 1, 2));
    Append3(Before([], fs, 9), FieldBits(fs[9]), FieldBits(fs[10]), MsbBits(Part(s.xMc[7], 1, 2), 2));
  }

  lemma SubBits(s: Sub)
    requires SubInRange(s)
    ensures BytesBits(SubBytes(s)) == FieldsBits(SubFields(s))
  {
    hide Byte2, Byte3, Byte4, Part, Pow2, MsbBits, FieldBits, FieldsBits, BytesBits, Before;
    Pow2Values();
    var c, fs := SubBytes(s), SubFields(s);
    MiddleBits(s);
    BeforeNext([], fs, 11);
    BeforeNext([], fs, 12);
    BeforeNext([], fs, 13);
    BeforeNext([], fs, 14);
    BeforeNext([], fs, 15);
    BeforeNext([], fs, 16);
    StraddlingBits(s.xMc[7], 1, 2);
    WholeBits(s.xMc[8], 3);
    WholeBits(s.xMc[9], 3);
    StraddlingBits(s.xMc[10], 2, 1);
    WholeBits(s.xMc[11], 3);
    WholeBits(s.xMc[12], 3);
    BytesNext(c, 5);
    Byte4Bits(Part(s.xMc[7], 0, 1), Part(s.xMc[8], 0, 3), Part(s.xMc[9], 0, 3), Part(s.xMc[10], 2, 1));
    Glue(Before([], fs, 11), MsbBits(Part(s.xMc[7], 1, 2), 2), MsbBits(Part(s.xMc[7], 0, 1), 1),
         MsbBits(Part(s.xMc[8], 0, 3), 3), MsbBits(Part(s.xMc[9], 0, 3), 3), MsbBits(Part(s.xMc[10], 2, 1), 1));
    BytesNext(c, 6);
    Byte3Bits(Part(s.xMc[10], 0, 2), 6, Part(s.xMc[11], 0, 3), 3, Part(s.xMc[12], 0, 3));
    Glue(Before([], fs, 14), MsbBits(Part(s.xMc[10], 2, 1), 1), MsbBits(Part(s.xMc[10], 0, 2), 2),
         MsbBits(Part(s.xMc[11], 0, 3), 3), MsbBits(Part(s.xMc[12], 0, 3), 3), []);
    assert c[..7] == c && fs[..17] == fs;
    BeforeAll([], fs);
  }

  /** The 33 bytes are the signature and then every parameter in order, each at its width, most
      significant bit first. */
  lemma PackIsBitStream(f: Frame)
    requires InRange(f)
    ensures BytesBits(PackVoip(f)) == MsbBits(MAGIC, 4) + FieldsBits(FrameFields(f))
  {
    hide LarBytes, SubBytes, LarFields, SubFields, FieldsBits, BytesBits, MsbBits, SubInRange, Pow2;
    LarBits(f.larc);
    var c := LarBytes(f.larc);
    var fs := LarFields(f.larc);
    SubsFieldsUpTo(f.subs);
    forall j | 0 <= j < 4
      ensures BytesBits(SubBytes(f.subs[j])) == FieldsBits(SubFields(f.subs[j]))
    {
      SubBits(f.subs[j]);
    }
    BytesAppend5(c, SubBytes(f.subs[0]), SubBytes(f.subs[1]), SubBytes(f.subs[2]), SubBytes(f.subs[3]));
    FieldsAppend5(fs, SubFields(f.subs[0]), SubFields(f.subs[1]), SubFields(f.subs[2]), SubFields(f.subs[3]));
    SignatureFirst(MsbBits(MAGIC, 4), FieldsBits(fs), FieldsBits(SubFields(f.subs[0])),
                   FieldsBits(SubFields(f.subs[1])), FieldsBits(SubFields(f.subs[2])),
                   FieldsBits(SubFields(f.subs[3])));
  }

  lemma SubsFieldsUpTo(subs: seq<Sub>)
    requires |subs| == 4 && forall j :: 0 <= j < 4 ==> |subs[j].xMc| == 13
    ensures SubsFields(subs, 4)
         == SubFields(subs[0]) + SubFields(subs[1]) + SubFields(subs[2]) + SubFields(subs[3])
  {
    hide SubFields;
    assert SubsFields(subs, 1) == SubFields(subs[0]);
    assert SubsFields(subs, 2) == SubsFields(subs, 1) + SubFields(subs[1]);
    assert SubsFields(subs, 3) == SubsFields(subs, 2) + SubFields(subs[2]);
  }

  lemma BytesAppend5(a: seq<byte>, b: seq<byte>, c: seq<byte>, d: seq<byte>, e: seq<byte>)
    ensures BytesBits(a + b + c + d + e)
         == BytesBits(a) + BytesBits(b) + BytesBits(c) + BytesBits(d) + BytesBits(e)
  {
    hide BytesBits;
    BytesAppend(a, b);
    BytesAppend(a + b, c);
    BytesAppend(a + b + c, d);
    BytesAppend(a + b + c + d, e);
  }

  lemma FieldsAppend5(a: seq<Field>, b: seq<Field>, c: seq<Field>, d: seq<Field>, e: seq<Field>)
    ensures FieldsBits(a + (b + c + d + e))
         == FieldsBits(a) + (FieldsBits(b) + FieldsBits(c) + FieldsBits(d) + FieldsBits(e))
  {
    hide FieldsBits;
    FieldsAppend(b, c);
    FieldsAppend(b + c, d);
    FieldsAppend(b + c + d, e);
    FieldsAppend(a, b + c + d + e);
  }

  lemma SignatureFirst(s: seq<bool>, a: seq<bool>, b: seq<bool>, c: seq<bool>, d: seq<bool>, e: seq<bool>)
    ensures s + a + b + c + d + e == s + (a + (b + c + d + e))
  {
  }

  // ----- the C routines

  /** One sub-segment of `gsm0610_pack_voip`, written behind the bytes that are there. */
  method PackSub(written: seq<byte>, s: Sub) returns (c: seq<byte>)
    requires |s.xMc| == 13
    ensures c == written + SubBytes(s)
  {
    hide Byte2, Byte3, Byte4, Part;
    c := written + [Byte2(Part(s.nc, 0, 7), 1, Part(s.bc, 1, 1))];
    c := c + [Byte3(Part(s.bc, 0, 1), 7, Part(s.mc, 0, 2), 5, Part(s.xmaxc, 1, 5))];
    c := c + [Byte4(Part(s.xmaxc, 0, 1), Part(s.xMc[0], 0, 3), Part(s.xMc[1], 0, 3), Part(s.xMc[2], 2, 1))];
    c := c + [Byte3(Part(s.xMc[2], 0, 2), 6, Part(s.xMc[3], 0, 3), 3, Part(s.xMc[4], 0, 3))];
    c := c + [Byte3(Part(s.xMc[5], 0, 3), 5, Part(s.xMc[6], 0, 3), 2, Part(s.xMc[7], 1, 2))];
    c := c + [Byte4(Part(s.xMc[7], 0, 1), Part(s.xMc[8], 0, 3), Part(s.xMc[9], 0, 3), Part(s.xMc[10], 2, 1))];
    c := c + [Byte3(Part(s.xMc[10], 0, 2), 6, Part(s.xMc[11], 0, 3), 3, Part(s.xMc[12], 0, 3))];
  }

  /** `gsm0610_pack_voip`. */
  method PackVoipInto(f: Frame) returns (c: seq<byte>)
    requires Shaped(f)
    ensures c == PackVoip(f)
  {
    hide Byte2, Byte3, Part, SubBytes;
    var larc := f.larc;
    c := [Byte2(MAGIC, 4, Part(larc[0], 2, 4))];
    c := c + [Byte2(Part(larc[0], 0, 2), 6, Part(larc[1], 0, 6))];
    c := c + [Byte2(Part(larc[2], 0, 5), 3, Part(larc[3], 2, 3))];
    c := c + [Byte3(Part(larc[3], 0, 2), 6, Part(larc[4], 0, 4), 2, Part(larc[5], 2, 2))];
    c := c + [Byte3(Part(larc[5], 0, 2), 6, Part(larc[6], 0, 3), 3, Part(larc[7], 0, 3))];
    assert c == LarBytes(larc);
    var i := 0;
    while i < 4
      invariant 0 <= i <= 4
      invariant c == LarBytes(larc) + AllSubBytes(f.subs, i)
    {
      c := PackSub(c, f.subs[i]);
      i := i + 1;
    }
    AllSubBytesAre(f.subs);
    assert c == PackVoip(f);
  }

  function AllSubBytes(subs: seq<Sub>, n: nat): seq<byte>
    requires n <= |subs| && forall j :: 0 <= j < |subs| ==> |subs[j].xMc| == 13
  {
    hide SubBytes;
    if n == 0 then [] else AllSubBytes(subs, n - 1) + SubBytes(subs[n - 1])
  }

  lemma AllSubBytesAre(subs: seq<Sub>)
    requires |subs| == 4 && forall j :: 0 <= j < 4 ==> |subs[j].xMc| == 13
    ensures AllSubBytes(subs, 4) == SubBytes(subs[0]) + SubBytes(subs[1]) + SubBytes(subs[2]) + SubBytes(subs[3])
  {
    hide SubBytes;
    assert AllSubBytes(subs, 1) == SubBytes(subs[0]);
    assert AllSubBytes(subs, 2) == AllSubBytes(subs, 1) + SubBytes(subs[1]);
    assert AllSubBytes(subs, 3) == AllSubBytes(subs, 2) + SubBytes(subs[2]);
  }

  /** One sub-segment of `gsm0610_unpack_voip`, from the bytes at `i`. */
  method UnpackSub(c: seq<byte>, i: nat) returns (s: Sub)
    requires i + 7 <= |c|
    ensures s == SubFromBytes(c[i..i + 7])
  {
    hide Part, Join, Pow2;
    Pow2Values();
    var nc := Part(c[i], 1, 7);
    var bc := Join(Part(c[i], 0, 1), 1, Part(c[i + 1], 7, 1));
    var mc := Part(c[i + 1], 5, 2);
    var xmaxc := Join(Part(c[i + 1], 0, 5), 1, Part(c[i + 2], 7, 1));
    var xMc: seq<int16> := [Part(c[i + 2], 4, 3), Part(c[i + 2], 1, 3)];
    xMc := xMc + [Join(Part(c[i + 2], 0, 1), 2, Part(c[i + 3], 6, 2))];
    xMc := xMc + [Part(c[i + 3], 3, 3), Part(c[i + 3], 0, 3), Part(c[i + 4], 5, 3), Part(c[i + 4], 2, 3)];
    xMc := xMc + [Join(Part(c[i + 4], 0, 2), 1, Part(c[i + 5], 7, 1))];
    xMc := xMc + [Part(c[i + 5], 4, 3), Part(c[i + 5], 1, 3)];
    xMc := xMc + [Join(Part(c[i + 5], 0, 1), 2, Part(c[i + 6], 6, 2))];
    xMc := xMc + [Part(c[i + 6], 3, 3), Part(c[i + 6], 0, 3)];
    s := Sub(nc, bc, mc, xmaxc, xMc);
    assert xMc == SubFromBytes(c[i..i + 7]).xMc;
  }

  /** `gsm0610_unpack_voip`. */
  method UnpackVoipFrom(c: seq<byte>) returns (f: Frame)
    requires |c| == 33
    ensures f == UnpackVoip(c)
  {
    hide Part, Join, Pow2, SubFromBytes;
    Pow2Values();
    var larc: seq<int16> :=
      [Join(Part(c[0], 0, 4), 2, Part(c[1], 6, 2)), Part(c[1], 0, 6), Part(c[2], 3, 5),
       Join(Part(c[2], 0, 3), 2, Part(c[3], 6, 2)), Part(c[3], 2, 4),
       Join(Part(c[3], 0, 2), 2, Part(c[4], 6, 2)), Part(c[4], 3, 3), Part(c[4], 0, 3)];
    assert larc == LarsFromBytes(c[..5]);
    var subs: seq<Sub> := [];
    var i := 0;
    while i < 4
      invariant 0 <= i <= 4 && |subs| == i
      invariant forall j :: 0 <= j < i ==> subs[j] == SubFromBytes(c[5 + 7 * j..12 + 7 * j])
    {
      var s := UnpackSub(c, 5 + 7 * i);
      subs := subs + [s];
      i := i + 1;
    }
    f := Frame(larc, subs);
    assert subs == UnpackVoip(c).subs;
  }
}
