/** The quadrature mirror filters around the G.722 sub-bands (jni/spandsp/g722.c), with the circular
    dot product of jni/spandsp/vector_int.c that they are built on. */
module G722Qmf {
  import opened FixedPoint
  import Bits

  const FWD: seq<int> := [3, -11, 12, 32, -210, 951, 3876, -805, 362, -156, 53, -11]
  const REV: seq<int> := [-11, 53, -156, 362, -805, 3876, 951, -210, 32, 12, -11, 3]

  function Dot(x: seq<int16>, c: seq<int>): int
    requires |x| == |c|
  {
    if x == [] then 0 else Dot(x[..|x| - 1], c[..|x| - 1]) + x[|x| - 1] as int * c[|x| - 1]
  }

  /** `vec_circular_dot_prodi16`: the ring is read from `pos` on and wraps around. */
  function CircularDot(x: seq<int16>, c: seq<int>, pos: nat): int
    requires |x| == |c| && pos <= |x|
  {
    Dot(x[pos..], c[..|x| - pos]) + Dot(x[..pos], c[|x| - pos..])
  }

  /** `vec_dot_prodi16`, portable branch. */
  method DotProduct(x: seq<int16>, c: seq<int>) returns (z: int)
    requires |x| == |c|
    ensures z == Dot(x, c)
  {
    z := 0;
    for i := 0 to |x|
      invariant z == Dot(x[..i], c[..i])
    {
      assert x[..i + 1][..i] == x[..i] && c[..i + 1][..i] == c[..i];
      z := z + x[i] as int * c[i];
    }
    assert x[..|x|] == x && c[..|x|] == c;
  }

  method CircularDotProduct(x: seq<int16>, c: seq<int>, pos: nat) returns (z: int)
    requires |x| == |c| && pos <= |x|
    ensures z == CircularDot(x, c, pos)
  {
    z := DotProduct(x[pos..], c[..|x| - pos]);
    var z2 := DotProduct(x[..pos], c[|x| - pos..]);
    z := z + z2;
  }

  lemma {:induction false} DotAppend(x1: seq<int16>, c1: seq<int>, x2: seq<int16>, c2: seq<int>)
    requires |x1| == |c1| && |x2| == |c2|
    ensures Dot(x1 + x2, c1 + c2) == Dot(x1, c1) + Dot(x2, c2)
  {
    if x2 == [] {
      assert x1 + x2 == x1 && c1 + c2 == c1;
    } else {
      var n := |x2| - 1;
      DotAppend(x1, c1, x2[..n], c2[..n]);
      assert (x1 + x2)[..|x1| + n] == x1 + x2[..n];
      assert (c1 + c2)[..|x1| + n] == c1 + c2[..n];
    }
  }

  /** The circular product is the plain product with the ring unrolled from its oldest sample. */
  lemma CircularIsUnrolled(x: seq<int16>, c: seq<int>, pos: nat)
    requires |x| == |c| && pos <= |x|
    ensures CircularDot(x, c, pos) == Dot(x[pos..] + x[..pos], c)
  {
    DotAppend(x[pos..], c[..|x| - pos], x[..pos], c[|x| - pos..]);
    assert c[..|x| - pos] + c[|x| - pos..] == c;
  }

  function SumAbs(c: seq<int>): nat {
    if c == [] then 0 else SumAbs(c[..|c| - 1]) + Abs(c[|c| - 1])
  }

  predicate Below(x: seq<int16>, bound: nat) {
    forall i :: 0 <= i < |x| ==> Abs(x[i]) <= bound
  }

  lemma {:induction false} DotBound(x: seq<int16>, c: seq<int>, bound: nat)
    requires |x| == |c| && Below(x, bound)
    ensures Abs(Dot(x, c)) <= bound * SumAbs(c)
  {
    if x != [] {
      var n := |x| - 1;
      DotBound(x[..n], c[..n], bound);
      AccumulatedBound(Dot(x[..n], c[..n]), x[n], c[n], bound, SumAbs(c[..n]));
    }
  }

  lemma AccumulatedBound(z: int, x: int, c: int, bound: nat, sum: nat)
    requires Abs(z) <= bound * sum && Abs(x) <= bound
    ensures Abs(z + x * c) <= bound * (sum + Abs(c))
  {
    MulBound(x, c, bound, Abs(c));
    Distribute(bound, sum, Abs(c));
  }

  lemma Distribute(a: int, b: int, c: int)
    ensures a * (b + c) == a * b + a * c
  {
  }

  /** The gain of both filters. */
  lemma GainOfTables()
    ensures SumAbs(FWD) == 6482 && SumAbs(REV) == 6482
  {
    SumAbsFrom(FWD);
    SumAbsFrom(REV);
  }

  lemma SumAbsNext(c: seq<int>, k: nat)
    requires k < |c|
    ensures SumAbs(c[..k + 1]) == SumAbs(c[..k]) + Abs(c[k])
  {
    assert c[..k + 1][..k] == c[..k];
  }

  lemma SumAbsFrom(c: seq<int>)
    requires |c| == 12
    ensures SumAbs(c) == Abs(c[0]) + Abs(c[1]) + Abs(c[2]) + Abs(c[3]) + Abs(c[4]) + Abs(c[5])
                       + Abs(c[6]) + Abs(c[7]) + Abs(c[8]) + Abs(c[9]) + Abs(c[10]) + Abs(c[11])
  {
    SumAbsOfNothing(c);
    hide SumAbs, Abs;
    SumAbsNext(c, 0); SumAbsNext(c, 1); SumAbsNext(c, 2); SumAbsNext(c, 3);
    SumAbsNext(c, 4); SumAbsNext(c, 5); SumAbsNext(c, 6); SumAbsNext(c, 7);
    SumAbsNext(c, 8); SumAbsNext(c, 9); SumAbsNext(c, 10); SumAbsNext(c, 11);
    assert c[..12] == c;
  }

  lemma SumAbsOfNothing(c: seq<int>)
    ensures SumAbs(c[..0]) == 0
  {
  }

  lemma CircularBound(x: seq<int16>, c: seq<int>, pos: nat, bound: nat)
    requires |x| == |c| && pos <= |x| && Below(x, bound)
    ensures Abs(CircularDot(x, c, pos)) <= bound * SumAbs(c)
  {
    hide Dot, SumAbs;
    CircularIsUnrolled(x, c, pos);
    DotBound(x[pos..] + x[..pos], c, bound);
  }

  // ----- the two filter banks

  datatype QmfFields = Qmf(x: seq<int16>, y: seq<int16>, ptr: nat)

  type Qmf = q: QmfFields | |q.x| == 12 && |q.y| == 12 && q.ptr < 12
    witness Qmf([0, 0, 0, 0, 0, 0, 0, 0, 0, 0, 0, 0], [0, 0, 0, 0, 0, 0, 0, 0, 0, 0, 0, 0], 0)

  const SILENCE: Qmf := Qmf([0, 0, 0, 0, 0, 0, 0, 0, 0, 0, 0, 0], [0, 0, 0, 0, 0, 0, 0, 0, 0, 0, 0, 0], 0)

  function Push(q: Qmf, a: int16, b: int16): Qmf {
    Qmf(q.x[q.ptr := a], q.y[q.ptr := b], if q.ptr + 1 >= 12 then 0 else q.ptr + 1)
  }

  function Clip(a: int16): (r: int16)
    ensures Abs(r) <= 16350
  {
    Clamp(-16350, a, 16350)
  }

  function GroupSize(eightK: bool): nat {
    if eightK then 1 else 2
  }

  /** A number of samples that makes whole groups. */
  predicate Grouped(eightK: bool, n: nat) {
    eightK || n % 2 == 0
  }

  function Odd(q: Qmf): int {
    CircularDot(q.x, FWD, q.ptr)
  }

  function Even(q: Qmf): int {
    CircularDot(q.y, REV, q.ptr)
  }

  /** One sample of each band from one or two input samples. */
  function AnalyseStep(eightK: bool, q: Qmf, group: seq<int16>): (Qmf, (int16, int16))
    requires |group| == GroupSize(eightK)
  {
    hide Odd, Even;
    if eightK then (q, (group[0] / 2, 0))
    else
      var q1 := Push(q, Clip(group[0]), Clip(group[1]));
      (q1, (ToInt16((Even(q1) + Odd(q1)) / 0x4000), ToInt16((Even(q1) - Odd(q1)) / 0x4000)))
  }

  function Analyse(eightK: bool, q: Qmf, amp: seq<int16>): (r: (Qmf, seq<(int16, int16)>))
    requires Grouped(eightK, |amp|)
    ensures |amp| == if eightK then |r.1| else 2 * |r.1|
  {
    hide AnalyseStep;
    if amp == [] then (q, [])
    else
      var cut := |amp| - GroupSize(eightK);
      var (q1, xs) := Analyse(eightK, q, amp[..cut]);
      var (q2, x) := AnalyseStep(eightK, q1, amp[cut..]);
      (q2, xs + [x])
  }

  function SynthesiseStep(eightK: bool, q: Qmf, r: (int16, int16)): (s: (Qmf, seq<int16>))
    ensures |s.1| == GroupSize(eightK)
  {
    hide Odd, Even;
    if eightK then (q, [ToInt16(Sum(r.0, r.0))])
    else
      var q1 := Push(q, ToInt16(Sum(r.0, r.1)), ToInt16(Sum(r.0, -(r.1 as int))));
      (q1, [Saturate(Even(q1) / 2048), Saturate(Odd(q1) / 2048)])
  }

  function Sum(a: int, b: int): int {
    a + b
  }

  function Synthesise(eightK: bool, q: Qmf, rs: seq<(int16, int16)>): (s: (Qmf, seq<int16>))
    ensures |s.1| == if eightK then |rs| else 2 * |rs|
  {
    hide SynthesiseStep;
    if rs == [] then (q, [])
    else
      var (q1, pcm) := Synthesise(eightK, q, rs[..|rs| - 1]);
      var (q2, more) := SynthesiseStep(eightK, q1, rs[|rs| - 1]);
      (q2, pcm + more)
  }

  // ----- ranges

  predicate Clipped(q: Qmf) {
    Below(q.x, 16350) && Below(q.y, 16350)
  }

  lemma OddEvenBound(q: Qmf, bound: nat)
    requires Below(q.x, bound) && Below(q.y, bound)
    ensures Abs(Odd(q)) <= bound * 6482 && Abs(Even(q)) <= bound * 6482
  {
    hide CircularDot, Below, SumAbs;
    GainOfTables();
    CircularBound(q.x, FWD, q.ptr, bound);
    CircularBound(q.y, REV, q.ptr, bound);
  }

  /** The band signals are fifteen-bit numbers, neither cast to sixteen bits loses anything and the
      filter sums fit 32 bits. */
  lemma AnalyseStepFits(eightK: bool, q: Qmf, group: seq<int16>)
    requires |group| == GroupSize(eightK) && Clipped(q)
    ensures var (q1, x) := AnalyseStep(eightK, q, group);
            && Clipped(q1) && -0x4000 <= x.0 <= 0x3FFF && -0x4000 <= x.1 <= 0x3FFF
            && IsInt32(Even(q1)) && IsInt32(Odd(q1))
            && (!eightK ==> x == ((Even(q1) + Odd(q1)) / 0x4000, (Even(q1) - Odd(q1)) / 0x4000))
  {
    hide Odd, Even, Clip;
    OddEvenBound(q, 16350);
    if !eightK {
      OddEvenBound(Push(q, Clip(group[0]), Clip(group[1])), 16350);
    }
  }

  lemma {:induction false} AnalyseFits(eightK: bool, q: Qmf, amp: seq<int16>)
    requires Grouped(eightK, |amp|) && Clipped(q)
    ensures Clipped(Analyse(eightK, q, amp).0)
    ensures forall n :: 0 <= n < |Analyse(eightK, q, amp).1| ==>
              var x := Analyse(eightK, q, amp).1[n]; -0x4000 <= x.0 <= 0x3FFF && -0x4000 <= x.1 <= 0x3FFF
  {
    hide AnalyseStep, Clipped;
    if amp != [] {
      var cut := |amp| - GroupSize(eightK);
      AnalyseFits(eightK, q, amp[..cut]);
      AnalyseStepFits(eightK, Analyse(eightK, q, amp[..cut]).0, amp[cut..]);
    }
  }

  predicate Limited(r: (int16, int16)) {
    -0x4000 <= r.0 <= 0x3FFF && -0x4000 <= r.1 <= 0x3FFF
  }

  /** What the receive filters hold just before sample `n`, and just after it. */
  predicate SynthesisFits(before: Qmf, r: (int16, int16), after: Qmf) {
    && after.x[before.ptr] as int == Sum(r.0, r.1) && after.y[before.ptr] as int == Sum(r.0, -(r.1 as int))
    && IsInt32(Even(after)) && IsInt32(Odd(after))
  }

  /** In the decoder the sums of two limited band samples fit sixteen bits, and the filter sums fit
      32 bits. */
  lemma SynthesiseStepFits(q: Qmf, r: (int16, int16))
    requires Limited(r)
    ensures SynthesisFits(q, r, SynthesiseStep(false, q, r).0)
  {
    hide Odd, Even;
    OddEvenBound(SynthesiseStep(false, q, r).0, 0x8000);
  }

  /** For every stream of limited band samples, and at every one of them. */
  lemma SynthesiseFits(q: Qmf, rs: seq<(int16, int16)>, n: nat)
    requires n < |rs| && Limited(rs[n])
    ensures SynthesisFits(Synthesise(false, q, rs[..n]).0, rs[n], Synthesise(false, q, rs[..n + 1]).0)
  {
    hide SynthesiseStep, Odd, Even;
    SynthesiseStepFits(Synthesise(false, q, rs[..n]).0, rs[n]);
    assert rs[..n + 1][..n] == rs[..n];
  }

  // ----- calls compose

  lemma {:induction false} AnalyseAppend(eightK: bool, q: Qmf, a: seq<int16>, b: seq<int16>)
    requires Grouped(eightK, |a|) && Grouped(eightK, |b|)
    ensures Grouped(eightK, |a + b|)
    ensures var (q1, xs) := Analyse(eightK, q, a);
            var (q2, ys) := Analyse(eightK, q1, b);
            Analyse(eightK, q, a + b) == (q2, xs + ys)
  {
    hide AnalyseStep;
    if b == [] {
      assert a + b == a;
      assert Analyse(eightK, q, a).1 + [] == Analyse(eightK, q, a).1;
    } else {
      var cut := |b| - GroupSize(eightK);
      AnalyseAppend(eightK, q, a, b[..cut]);
      var ab := a + b;
      assert ab[..|a| + cut] == a + b[..cut];
      assert ab[|a| + cut..] == b[cut..];
      assert |ab| - GroupSize(eightK) == |a| + cut;
      var (q1, xs) := Analyse(eightK, q, a);
      var (q2, ys) := Analyse(eightK, q1, b[..cut]);
      Bits.ConcatAssoc(xs, ys, [AnalyseStep(eightK, q2, b[cut..]).1]);
    }
  }

  lemma {:induction false} SynthesiseAppend(eightK: bool, q: Qmf, a: seq<(int16, int16)>, b: seq<(int16, int16)>)
    ensures var (q1, xs) := Synthesise(eightK, q, a);
            var (q2, ys) := Synthesise(eightK, q1, b);
            Synthesise(eightK, q, a + b) == (q2, xs + ys)
  {
    hide SynthesiseStep;
    if b == [] {
      assert a + b == a;
      assert Synthesise(eightK, q, a).1 + [] == Synthesise(eightK, q, a).1;
    } else {
      var cut := |b| - 1;
      SynthesiseAppend(eightK, q, a, b[..cut]);
      assert (a + b)[..|a| + cut] == a + b[..cut];
      var (q1, xs) := Synthesise(eightK, q, a);
      var (q2, ys) := Synthesise(eightK, q1, b[..cut]);
      Bits.ConcatAssoc(xs, ys, SynthesiseStep(eightK, q2, b[cut]).1);
    }
  }
}
