/** The transversal filters of the echo canceller: the 16-bit FIR filter over a ring buffer
    (jni/oslec-jni/spandsp/fir.h) and the adaption of the background taps (jni/oslec-jni/echo.c).
    Both read the ring in two straight loops; they are specified over the plain delay line, newest
    sample first. Sums that leave 32 bits wrap in the source, which the final cast makes invisible. */
module EchoFilter {
  import opened FixedPoint

  function Times(a: int, b: int): int {
    a * b
  }

  // ----- the delay line and its ring

  /** The delay line with one more sample in front and the oldest dropped. */
  function Pushed(line: seq<int16>, x: int16): (r: seq<int16>)
    requires line != []
    ensures |r| == |line|
  {
    [x] + line[..|line| - 1]
  }

  /** The ring read from position `p` on, and around. */
  function From(ring: seq<int16>, p: nat): (line: seq<int16>)
    requires p <= |ring|
    ensures |line| == |ring|
  {
    ring[p..] + ring[..p]
  }

  /** The delay line of a ring whose next write goes to `pos`: the newest sample lies behind it. */
  function LineOf(ring: seq<int16>, pos: nat): (line: seq<int16>)
    requires pos < |ring|
    ensures |line| == |ring|
  {
    From(ring, pos + 1)
  }

  /** The write position before `pos`. */
  function StepBack(pos: nat, n: nat): (r: nat)
    requires pos < n
    ensures r < n
  {
    if pos == 0 then n - 1 else pos - 1
  }

  /** Writing into the ring and stepping back pushes onto the delay line; the line starts at the
      position just written. */
  lemma WriteIsPush(ring: seq<int16>, pos: nat, x: int16)
    requires pos < |ring|
    ensures LineOf(ring[pos := x], StepBack(pos, |ring|)) == Pushed(LineOf(ring, pos), x)
    ensures From(ring[pos := x], pos) == Pushed(LineOf(ring, pos), x)
  {
    assert From(ring[pos := x], pos) == Pushed(LineOf(ring, pos), x);
    if pos == 0 {
      assert From(ring[0 := x], |ring|) == From(ring[0 := x], 0);
    }
  }

  /** Entry `i` of the line is where the two loops read: behind the start up to the end of the ring,
      then from its beginning. */
  lemma LineAt(ring: seq<int16>, p: nat, i: nat)
    requires p < |ring| && i < |ring|
    ensures i + p < |ring| ==> From(ring, p)[i] == ring[i + p]
    ensures i + p >= |ring| ==> From(ring, p)[i] == ring[i - (|ring| - p)]
  {
  }

  function Zeros(n: nat): (z: seq<int16>)
    ensures |z| == n && forall i :: 0 <= i < n ==> z[i] == 0
  {
    seq(n, i => 0)
  }

  lemma LineOfZeros(n: nat, pos: nat)
    requires pos < n
    ensures LineOf(Zeros(n), pos) == Zeros(n)
  {
  }

  // ----- the filter

  /** The convolution sum of the taps from `i` on. */
  function Convolution(taps: seq<int16>, line: seq<int16>, i: nat): int
    requires |taps| == |line| && i <= |taps|
    decreases |taps| - i
  {
    if i == |taps| then 0 else Times(taps[i], line[i]) + Convolution(taps, line, i + 1)
  }

  /** `(int16_t) (y >> 15)`. */
  function Answer(taps: seq<int16>, line: seq<int16>): int16
    requires |taps| == |line|
  {
    ToInt16(Convolution(taps, line, 0) / 0x8000)
  }

  /** The response to one sample is its tap, wherever in the line the sample is. */
  lemma ImpulseResponse(taps: seq<int16>, line: seq<int16>, k: nat)
    requires |taps| == |line| && k < |taps| && forall i :: 0 <= i < |line| && i != k ==> line[i] == 0
    ensures Convolution(taps, line, 0) == taps[k] as int * line[k] as int
    ensures !(taps[k] == line[k] == INT16_MIN) ==> Answer(taps, line) as int == taps[k] as int * line[k] as int / 0x8000
  {
    hide Convolution, ToInt16;
    ImpulseFrom(taps, line, k, 0);
    MulBound(taps[k], line[k], 0x8000, 0x8000);
    if !(taps[k] == line[k] == INT16_MIN) {
      MulBelowSquare(taps[k], line[k]);
    }
  }

  lemma {:induction false} ImpulseFrom(taps: seq<int16>, line: seq<int16>, k: nat, i: nat)
    requires |taps| == |line| && k < |taps| && i <= |taps|
    requires forall j :: 0 <= j < |line| && j != k ==> line[j] == 0
    ensures Convolution(taps, line, i) == if i <= k then Times(taps[k], line[k]) else 0
    decreases |taps| - i
  {
    if i < |taps| {
      ImpulseFrom(taps, line, k, i + 1);
    }
  }

  /** The answer is not touched by a sum that wraps in 32 bits. */
  lemma WrapIsInvisible(y: int, k: int)
    ensures ToInt16((y + k * 0x1_0000_0000) / 0x8000) == ToInt16(y / 0x8000)
  {
    assert (y + k * 0x1_0000_0000) / 0x8000 == y / 0x8000 + k * 0x2_0000;
    CastIsModulo(y / 0x8000);
    CastIsModulo(y / 0x8000 + k * 0x2_0000);
    ShiftModulo(y / 0x8000 + 0x8000, 2 * k);
  }

  lemma CastIsModulo(x: int)
    ensures ToInt16(x) == (x + 0x8000) % 0x1_0000 - 0x8000
  {
  }

  lemma ShiftModulo(x: int, k: int)
    ensures (x + k * 0x1_0000) % 0x1_0000 == x % 0x1_0000
  {
  }

  // ----- the adaption

  /** One tap after the update: rounded, and cast to sixteen bits twice. */
  function AdaptedTap(tap: int16, x: int16, factor: int): int16 {
    ToInt16(Sum(tap, ToInt16((Times(x, factor) + 0x4000) / 0x8000)))
  }

  function Sum(a: int, b: int): int {
    a + b
  }

  function Adapted(taps: seq<int16>, line: seq<int16>, factor: int): (r: seq<int16>)
    requires |taps| == |line|
    ensures |r| == |taps|
    ensures forall i :: 0 <= i < |taps| ==> r[i] == AdaptedTap(taps[i], line[i], factor)
  {
    hide AdaptedTap;
    seq<int16>(|taps|, i requires 0 <= i < |taps| => AdaptedTap(taps[i], line[i], factor))
  }

  /** The residual shifted by the step size exponent. */
  function Factor(clean: int, shift: int): int {
    if shift > 0 then clean * Pow2(shift) else clean / Pow2(-shift)
  }

  /** The scale of the adaption for a total power of about two to the `l`: a tap moves by the product of sample
      and residual over two to the `l - 13`, here as a fraction of two whole numbers. */
  function Raised(l: nat): (r: nat)
    ensures r > 0
  {
    if l < 13 then Pow2(13 - l) else 1
  }

  function Lowered(l: nat): (r: nat)
    ensures r > 0
  {
    if l < 13 then 1 else Pow2(l - 13)
  }

  /** As long as it stays inside sixteen bits, a tap moves by that fraction to within one, for quiet and for loud
      signals alike. */
  lemma TapMoves(tap: int16, x: int16, e: int, l: nat)
    requires -0x4000 <= x <= 0x4000
    requires Abs(Times(Raised(l), Times(x, e))) <= Times(Lowered(l), 0x7FFE - Abs(tap))
    ensures var after := AdaptedTap(tap, x, Factor(e, 28 - l));
            Abs(Times(Lowered(l), Distanced(after, tap)) - Times(Raised(l), Times(x, e))) <= Lowered(l)
  {
    var move := (Times(x, Factor(e, 28 - l)) + 0x4000) / 0x8000;
    MoveIsNear(x, e, l);
    MoveFits(move, Times(Raised(l), Times(x, e)), Lowered(l), 0x7FFE - Abs(tap));
  }

  function Distanced(a: int, b: int): int {
    a - b
  }

  lemma MoveFits(move: int, y: int, d: nat, room: int)
    requires d > 0 && Abs(Times(d, move) - y) <= d && Abs(y) <= Times(d, room)
    ensures Abs(move) <= room + 1
  {
    hide Times;
    if Abs(move) > room + 1 {
      TimesGrows(d, room + 2, Abs(move));
      TimesOfAbs(d, move);
      TwoMore(d, room);
    }
  }

  lemma TimesGrows(d: nat, a: int, b: int)
    requires a <= b
    ensures Times(d, a) <= Times(d, b)
  {
    MulMono(d, b - a, d, b - a);
    assert d * (b - a) == d * b - d * a;
  }

  lemma TimesOfAbs(d: nat, a: int)
    ensures Times(d, Abs(a)) == Abs(Times(d, a))
  {
    MulBound(d, a, d, Abs(a));
    if a < 0 {
      assert d * (-a) == -(d * a);
      MulMono(d, -a, d, -a);
    }
  }

  lemma TwoMore(d: nat, a: int)
    ensures Times(d, a + 2) == Times(d, a) + 2 * d
  {
  }

  lemma MoveIsNear(x: int16, e: int, l: nat)
    requires -0x4000 <= x <= 0x4000
    ensures var move := (Times(x, Factor(e, 28 - l)) + 0x4000) / 0x8000;
            Abs(Times(Lowered(l), move) - Times(Raised(l), Times(x, e))) <= Lowered(l)
  {
    hide Pow2, Times;
    Pow2Values();
    if l < 13 {
      Pow2Add(13 - l, 15);
      WholeMove(x, e, Pow2(13 - l));
    } else if l < 28 {
      Pow2Add(28 - l, l - 13);
      LargeFactor(x, e, Pow2(28 - l), Pow2(l - 13));
    } else {
      Pow2Add(l - 28, 15);
      SmallFactor(x, e, Pow2(l - 28));
    }
  }

  /** Far to the left the product is a whole number of units. */
  lemma WholeMove(x: int, e: int, u: nat)
    ensures (Times(x, e * (u * 0x8000)) + 0x4000) / 0x8000 == Times(u, Times(x, e))
    ensures Times(1, Times(u, Times(x, e))) == Times(u, Times(x, e))
  {
    assert x * (e * (u * 0x8000)) == u * (x * e) * 0x8000;
  }

  /** A factor that is a multiple of the residual. */
  lemma LargeFactor(x: int, e: int, p: nat, d: nat)
    requires p * d == 0x8000
    ensures var move := (Times(x, e * p) + 0x4000) / 0x8000;
            Abs(Times(d, move) - Times(1, Times(x, e))) <= d
  {
    var y := x * (e * p);
    var move := (y + 0x4000) / 0x8000;
    ScaledRounding(0x8000 * move - y, d, 0x4000);
    assert d * (0x8000 * move - y) == 0x8000 * (d * move) - d * y;
    assert d * y == x * e * (p * d);
  }

  /** A factor that has lost the low bits of the residual. */
  lemma SmallFactor(x: int, e: int, q: nat)
    requires -0x4000 <= x <= 0x4000 && q > 0
    ensures var move := (Times(x, e / q) + 0x4000) / 0x8000;
            Abs(Times(q * 0x8000, move) - Times(1, Times(x, e))) <= q * 0x8000
  {
    hide Times;
    var f, lost := e / q, e % q;
    var move := (Times(x, f) + 0x4000) / 0x8000;
    ScaledRounding(0x8000 * move - Times(x, f), q, 0x4000);
    MulBound(x, lost, 0x4000, q);
    SplitProduct(x, e, f, lost, q);
    TimesOne(Times(x, e));
    ScaledDifference(q, move, Times(x, f));
  }

  lemma SplitProduct(x: int, e: int, f: int, lost: int, q: int)
    requires e == f * q + lost
    ensures Times(x, e) == Times(q, Times(x, f)) + x * lost
  {
    assert x * (f * q) == q * (x * f);
    assert x * (f * q + lost) == x * (f * q) + x * lost;
  }

  lemma TimesOne(y: int)
    ensures Times(1, y) == y
  {
  }

  lemma ScaledDifference(q: int, move: int, y: int)
    ensures q * (0x8000 * move - y) == Times(q * 0x8000, move) - Times(q, y)
  {
    assert q * (0x8000 * move) == q * 0x8000 * move;
  }

  lemma ScaledRounding(z: int, d: nat, bound: nat)
    requires Abs(z) <= bound
    ensures Abs(d * z) <= d * bound
  {
    MulBound(d, z, d, bound);
  }

  /** Nor is an adapted tap by a factor that wraps. */
  lemma FactorWrapIsInvisible(tap: int16, x: int16, factor: int, k: int)
    ensures AdaptedTap(tap, x, factor + k * 0x1_0000_0000) == AdaptedTap(tap, x, factor)
  {
    hide ToInt16;
    TimesWrapped(x, factor, k);
    WrapIsInvisible(Times(x, factor) + 0x4000, x * k);
  }

  lemma TimesWrapped(x: int, factor: int, k: int)
    ensures Times(x, factor + k * 0x1_0000_0000) == Times(x, factor) + (x * k) * 0x1_0000_0000
  {
  }

  // ----- the C routines

  /** The two loops of `fir16`, over a ring whose newest sample is at `offset2`. */
  method Convolve(coeffs: array<int16>, history: array<int16>, offset2: nat) returns (y: int)
    requires coeffs.Length == history.Length && offset2 < history.Length
    ensures y == Convolution(coeffs[..], From(history[..], offset2), 0)
  {
    hide Times, From;
    ghost var line := From(history[..], offset2);
    ghost var c := coeffs[..];
    var taps := history.Length;
    var offset1 := taps - offset2;
    y := 0;
    var i := taps - 1;
    while i >= offset1
      invariant offset1 - 1 <= i <= taps - 1
      invariant y == Convolution(c, line, i + 1)
    {
      LineAt(history[..], offset2, i);
      y := y + Times(coeffs[i], history[i - offset1]);
      i := i - 1;
    }
    while i >= 0
      invariant -1 <= i <= offset1 - 1 && i <= taps - 1
      invariant y == Convolution(c, line, i + 1)
    {
      LineAt(history[..], offset2, i);
      y := y + Times(coeffs[i], history[i + offset2]);
      i := i - 1;
    }
  }

  /** `fir16_state_t`. */
  class Fir {
    const history: array<int16>
    var currPos: nat

    ghost predicate Valid()
      reads this
    {
      currPos < history.Length
    }

    ghost function Line(): seq<int16>
      requires Valid()
      reads this, history
    {
      LineOf(history[..], currPos)
    }

    /** `fir16_create`. */
    constructor (taps: nat)
      requires taps > 0
      ensures Valid() && fresh(history) && history.Length == taps
      ensures currPos == taps - 1 && Line() == Zeros(taps)
    {
      history := new int16[taps](_ => 0);
      currPos := taps - 1;
      new;
      assert history[..] == Zeros(taps);
      LineOfZeros(taps, currPos);
    }

    /** `fir16_flush`, with the position that its caller resets. */
    method Flush()
      requires Valid()
      modifies this, history
      ensures Valid() && currPos == history.Length - 1 && Line() == Zeros(history.Length)
    {
      var i := 0;
      while i < history.Length
        invariant 0 <= i <= history.Length && forall j :: 0 <= j < i ==> history[j] == 0
      {
        history[i] := 0;
        i := i + 1;
      }
      currPos := history.Length - 1;
      assert history[..] == Zeros(history.Length);
      LineOfZeros(history.Length, currPos);
    }

    /** `fir16`: two loops over the ring compute one convolution over the delay line. */
    method Filter(coeffs: array<int16>, sample: int16) returns (r: int16)
      requires Valid() && coeffs.Length == history.Length && coeffs != history
      modifies this`currPos, history
      ensures Valid() && currPos == StepBack(old(currPos), history.Length)
      ensures Line() == Pushed(old(Line()), sample) == From(history[..], old(currPos))
      ensures r == Answer(coeffs[..], Line())
    {
      hide ToInt16, Convolution, LineOf, From, Pushed;
      ghost var ring := history[..];
      WriteIsPush(ring, currPos, sample);
      history[currPos] := sample;
      assert history[..] == ring[currPos := sample];
      var y := Convolve(coeffs, history, currPos);
      var taps := history.Length;
      if currPos == 0 {
        currPos := taps;
      }
      currPos := currPos - 1;
      r := ToInt16(y / 0x8000);
    }
  }

  /** `lms_adapt_bg`, on the ring and the position of its newest sample. */
  method LmsAdapt(taps: array<int16>, history: array<int16>, currPos: nat, clean: int, shift: int)
    requires taps.Length == history.Length && taps != history && currPos < history.Length
    modifies taps
    ensures taps[..] == Adapted(old(taps[..]), From(history[..], currPos), Factor(clean, shift))
  {
    hide Times, ToInt16, Pow2, AdaptedTap;
    ghost var taps0, line := taps[..], From(history[..], currPos);
    var factor := if shift > 0 then clean * Pow2(shift) else clean / Pow2(-shift);
    var offset2 := currPos;
    var offset1 := taps.Length - offset2;
    var i := taps.Length - 1;
    while i >= offset1
      invariant offset1 - 1 <= i <= taps.Length - 1
      invariant forall j :: 0 <= j <= i ==> taps[j] == taps0[j]
      invariant forall j :: i < j < taps.Length ==> taps[j] == AdaptedTap(taps0[j], line[j], factor)
    {
      LineAt(history[..], offset2, i);
      AdaptTap(taps, i, history[i - offset1], factor);
      i := i - 1;
    }
    while i >= 0
      invariant -1 <= i <= offset1 - 1 && i <= taps.Length - 1
      invariant forall j :: 0 <= j <= i ==> taps[j] == taps0[j]
      invariant forall j :: i < j < taps.Length ==> taps[j] == AdaptedTap(taps0[j], line[j], factor)
    {
      LineAt(history[..], offset2, i);
      AdaptTap(taps, i, history[i + offset2], factor);
      i := i - 1;
    }
  }

  /** The common body of both loops. */
  method AdaptTap(taps: array<int16>, i: nat, x: int16, factor: int)
    requires i < taps.Length
    modifies taps
    ensures taps[i] == AdaptedTap(old(taps[i]), x, factor)
    ensures forall j :: 0 <= j < taps.Length && j != i ==> taps[j] == old(taps[j])
  {
    var exp := Times(x, factor);
    taps[i] := ToInt16(Sum(taps[i], ToInt16((exp + 0x4000) / 0x8000)));
  }
}
