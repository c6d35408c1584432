/** What the two filter banks of the G.722 coder do to a signal (jni/spandsp/g722.c): the response of
    each, and both back to back. */
module G722Response {
  import opened FixedPoint
  import opened G722Qmf

  // ----- signals and their past

  /** Sample `i` of a signal that is silent before its start. */
  function At(s: seq<int>, i: int): int {
    if 0 <= i < |s| then s[i] else 0
  }

  /** The twelve samples `i`, `i - step`, ... , oldest first. */
  function Past(s: seq<int>, i: int, step: nat): (u: seq<int>)
    ensures |u| == 12 && forall k :: 0 <= k < 12 ==> u[k] == At(s, i - step * (11 - k))
  {
    seq(12, k requires 0 <= k < 12 => At(s, i - step * (11 - k)))
  }

  /** Every other tap of the 24-tap prototype 3, -11, -11, 53, 12, -156, 32, 362, -210, -805, 951, 3876 and
      its mirror image: the first, third and so on, counted from the newest of twelve samples. */
  function FirstTaps(u: seq<int>, k: nat): int
    requires k + 12 <= |u|
  {
    3 * u[k + 11] - 11 * u[k + 10] + 12 * u[k + 9] + 32 * u[k + 8] - 210 * u[k + 7] + 951 * u[k + 6]
    + 3876 * u[k + 5] - 805 * u[k + 4] + 362 * u[k + 3] - 156 * u[k + 2] + 53 * u[k + 1] - 11 * u[k]
  }

  /** The second, fourth and so on. */
  function SecondTaps(u: seq<int>, k: nat): int
    requires k + 12 <= |u|
  {
    -11 * u[k + 11] + 53 * u[k + 10] - 156 * u[k + 9] + 362 * u[k + 8] - 805 * u[k + 7] + 3876 * u[k + 6]
    + 951 * u[k + 5] - 210 * u[k + 4] + 32 * u[k + 3] + 12 * u[k + 2] - 11 * u[k + 1] + 3 * u[k]
  }

  // ----- the rings

  /** A ring from its oldest sample on. */
  function Unrolled(ring: seq<int16>, ptr: nat): (u: seq<int>)
    requires |ring| == 12 && ptr <= 12
    ensures |u| == 12
    ensures forall k :: 0 <= k < 12 ==> u[k] == (ring[ptr..] + ring[..ptr])[k]
  {
    seq<int>(12, k requires 0 <= k < 12 => (ring[ptr..] + ring[..ptr])[k])
  }

  lemma PushDropsOldest(ring: seq<int16>, ptr: nat, a: int16)
    requires |ring| == 12 && ptr < 12
    ensures Unrolled(ring[ptr := a], if ptr + 1 >= 12 then 0 else ptr + 1) == Unrolled(ring, ptr)[1..] + [a]
  {
  }

  lemma PushOnBoth(q: Qmf, a: int16, b: int16)
    ensures var q1 := Push(q, a, b);
            && Unrolled(q1.x, q1.ptr) == Unrolled(q.x, q.ptr)[1..] + [a]
            && Unrolled(q1.y, q1.ptr) == Unrolled(q.y, q.ptr)[1..] + [b]
  {
    hide Unrolled;
    PushDropsOldest(q.x, q.ptr, a);
    PushDropsOldest(q.y, q.ptr, b);
  }

  /** The past of a longer signal. */
  lemma PastSlides(s: seq<int>, more: seq<int>, i: int, step: nat)
    requires 1 <= step && i < |s| && i + step < |s + more|
    ensures Past(s + more, i + step, step) == Past(s, i, step)[1..] + [At(s + more, i + step)]
  {
    var longer, past := Past(s + more, i + step, step), Past(s, i, step);
    forall k | 0 <= k < 11
      ensures longer[k] == past[k + 1]
    {
      assert i + step - step * (11 - k) == i - step * (11 - (k + 1));
      assert step * (10 - k) >= 0;
    }
  }

  lemma PastOfSilence(i: int, step: nat)
    ensures Past([], i, step) == Unrolled(SILENCE.x, 0) == Unrolled(SILENCE.y, 0)
  {
  }

  lemma DotNext(x: seq<int16>, c: seq<int>, k: nat)
    requires |x| == |c| && k < |c|
    ensures Dot(x[..k + 1], c[..k + 1]) == Dot(x[..k], c[..k]) + Times(x[k], c[k])
  {
    assert x[..k + 1][..k] == x[..k] && c[..k + 1][..k] == c[..k];
  }

  lemma DotOfTwelve(x: seq<int16>, c: seq<int>)
    requires |x| == |c| == 12
    ensures Dot(x, c) == Times(x[0], c[0]) + Times(x[1], c[1]) + Times(x[2], c[2]) + Times(x[3], c[3])
                         + Times(x[4], c[4]) + Times(x[5], c[5]) + Times(x[6], c[6]) + Times(x[7], c[7])
                         + Times(x[8], c[8]) + Times(x[9], c[9]) + Times(x[10], c[10]) + Times(x[11], c[11])
  {
    hide Dot, Times;
    NoDot(x, c);
    FourTerms(x, c, 0);
    FourTerms(x, c, 4);
    FourTerms(x, c, 8);
    WholeDot(x, c);
  }

  lemma FourTerms(x: seq<int16>, c: seq<int>, k: nat)
    requires |x| == |c| && k + 4 <= |c|
    ensures Dot(x[..k + 4], c[..k + 4])
         == Dot(x[..k], c[..k]) + Times(x[k], c[k]) + Times(x[k + 1], c[k + 1]) + Times(x[k + 2], c[k + 2])
            + Times(x[k + 3], c[k + 3])
  {
    hide Dot, Times;
    DotNext(x, c, k);
    DotNext(x, c, k + 1);
    DotNext(x, c, k + 2);
    DotNext(x, c, k + 3);
  }

  lemma NoDot(x: seq<int16>, c: seq<int>)
    requires |x| == |c|
    ensures Dot(x[..0], c[..0]) == 0
  {
  }

  lemma WholeDot(x: seq<int16>, c: seq<int>)
    requires |x| == |c| == 12
    ensures Dot(x[..12], c[..12]) == Dot(x, c)
  {
    assert x[..12] == x && c[..12] == c;
  }

  function Times(a: int, b: int): int {
    a * b
  }

  /** The two filter sums, with the tables written out. */
  lemma SumsAreTaps(q: Qmf)
    ensures Odd(q) == SecondTaps(Unrolled(q.x, q.ptr), 0) && Even(q) == FirstTaps(Unrolled(q.y, q.ptr), 0)
  {
    hide Dot;
    var x, y := q.x[q.ptr..] + q.x[..q.ptr], q.y[q.ptr..] + q.y[..q.ptr];
    CircularIsUnrolled(q.x, FWD, q.ptr);
    CircularIsUnrolled(q.y, REV, q.ptr);
    DotOfTwelve(x, FWD);
    DotOfTwelve(y, REV);
  }

  // ----- the transmit side

  /** The input as the transmit filters see it. */
  function AllClipped(amp: seq<int16>): (r: seq<int>)
    ensures |r| == |amp| && forall i :: 0 <= i < |amp| ==> r[i] == Clip(amp[i]) as int
  {
    seq<int>(|amp|, i requires 0 <= i < |amp| => Clip(amp[i]) as int)
  }

  function RingsAfter(amp: seq<int16>): Qmf
    requires |amp| % 2 == 0
  {
    hide Analyse;
    Analyse(false, SILENCE, amp).0
  }

  /** The rings after a stream: its first and second samples of the last twelve pairs. */
  lemma {:induction false} AnalysisRings(amp: seq<int16>)
    requires |amp| % 2 == 0
    ensures var q := RingsAfter(amp);
            && Unrolled(q.x, q.ptr) == Past(AllClipped(amp), |amp| - 2, 2)
            && Unrolled(q.y, q.ptr) == Past(AllClipped(amp), |amp| - 1, 2)
  {
    hide Odd, Even, Unrolled, Past, Clip, Push;
    if amp == [] {
      assert AllClipped(amp) == [];
      PastOfSilence(-2, 2);
      PastOfSilence(-1, 2);
    } else {
      var cut := |amp| - 2;
      var before, more := AllClipped(amp[..cut]), [Clip(amp[cut]) as int, Clip(amp[cut + 1]) as int];
      assert AllClipped(amp) == before + more;
      AnalysisRings(amp[..cut]);
      var q := RingsAfter(amp[..cut]);
      assert RingsAfter(amp) == Push(q, Clip(amp[cut]), Clip(amp[cut + 1]));
      PushOnBoth(q, Clip(amp[cut]), Clip(amp[cut + 1]));
      PastSlides(before, more, cut - 2, 2);
      PastSlides(before, more, cut - 1, 2);
    }
  }

  /** The band signals of a stream of whole pairs. */
  function BandsOf(amp: seq<int16>): (xs: seq<(int16, int16)>)
    requires |amp| % 2 == 0
    ensures 2 * |xs| == |amp|
  {
    Analyse(false, SILENCE, amp).1
  }

  lemma {:induction false} AnalysePrefix(amp: seq<int16>, n: nat)
    requires |amp| % 2 == 0 && 2 * n < |amp|
    ensures BandsOf(amp)[n] == BandsOf(amp[..2 * n + 2])[n]
    decreases |amp|
  {
    hide AnalyseStep;
    if |amp| == 2 * n + 2 {
      assert amp[..2 * n + 2] == amp;
    } else {
      AnalysePrefix(amp[..|amp| - 2], n);
      assert amp[..|amp| - 2][..2 * n + 2] == amp[..2 * n + 2];
    }
  }

  /** Both halves of the prototype on the input up to pair `n`. */
  function FirstSum(amp: seq<int16>, n: nat): int {
    FirstTaps(Past(AllClipped(amp), 2 * n + 1, 2), 0)
  }

  function SecondSum(amp: seq<int16>, n: nat): int {
    SecondTaps(Past(AllClipped(amp), 2 * n, 2), 0)
  }

  /** Of every stream the low band is the prototype applied to the input, and the high band the prototype
      with every second tap negated, both at every second sample. */
  lemma AnalysisIsFilter(amp: seq<int16>, n: nat)
    requires |amp| % 2 == 0 && 2 * n < |amp|
    ensures BandsOf(amp)[n]
         == ((FirstSum(amp, n) + SecondSum(amp, n)) / 0x4000, (FirstSum(amp, n) - SecondSum(amp, n)) / 0x4000)
  {
    hide BandsOf, FirstSum, SecondSum;
    var head := amp[..2 * n + 2];
    AnalysePrefix(amp, n);
    FilterAtEnd(head, n);
    SumsOfPrefix(amp, n);
  }

  lemma SumsOfPrefix(amp: seq<int16>, n: nat)
    requires 2 * n + 2 <= |amp|
    ensures FirstSum(amp[..2 * n + 2], n) == FirstSum(amp, n) && SecondSum(amp[..2 * n + 2], n) == SecondSum(amp, n)
  {
    hide Past, FirstTaps, SecondTaps, AllClipped;
    PastOfPrefix(amp, 2 * n + 2, 2 * n + 1);
    PastOfPrefix(amp, 2 * n + 2, 2 * n);
  }

  lemma FilterAtEnd(amp: seq<int16>, n: nat)
    requires |amp| == 2 * n + 2
    ensures BandsOf(amp)[n]
         == ((FirstSum(amp, n) + SecondSum(amp, n)) / 0x4000, (FirstSum(amp, n) - SecondSum(amp, n)) / 0x4000)
  {
    hide BandsOf, RingsAfter, Unrolled, Past, FirstTaps, SecondTaps, AllClipped, Odd, Even;
    AnalysisRings(amp);
    LastPair(amp, n);
    SumsAreTaps(RingsAfter(amp));
  }

  /** The last group of a stream, on the state that the others leave. */
  function LastStep(amp: seq<int16>, n: nat): (Qmf, (int16, int16))
    requires |amp| == 2 * n + 2
  {
    hide AnalyseStep, RingsAfter;
    AnalyseStep(false, RingsAfter(amp[..2 * n]), amp[2 * n..])
  }

  lemma LastStepIs(amp: seq<int16>, n: nat)
    requires |amp| == 2 * n + 2
    ensures RingsAfter(amp) == LastStep(amp, n).0
    ensures BandsOf(amp)[n] == LastStep(amp, n).1
  {
    hide AnalyseStep;
  }

  /** The last band samples, from the rings that they leave behind. */
  lemma LastPair(amp: seq<int16>, n: nat)
    requires |amp| == 2 * n + 2
    ensures var q := RingsAfter(amp);
            BandsOf(amp)[n] == ((Even(q) + Odd(q)) / 0x4000, (Even(q) - Odd(q)) / 0x4000)
  {
    hide BandsOf, LastStep, RingsAfter, Even, Odd;
    LastStepIs(amp, n);
    LastStepPair(amp, n);
  }

  lemma LastStepPair(amp: seq<int16>, n: nat)
    requires |amp| == 2 * n + 2
    ensures var (q, x) := LastStep(amp, n); x == ((Even(q) + Odd(q)) / 0x4000, (Even(q) - Odd(q)) / 0x4000)
  {
    hide AnalyseStep, BandsOf, RingsAfter, Even, Odd, Clipped;
    StaysClipped(amp[..2 * n]);
    StepPair(RingsAfter(amp[..2 * n]), amp[2 * n..]);
  }

  lemma StepPair(q: Qmf, group: seq<int16>)
    requires |group| == 2 && Clipped(q)
    ensures var (q1, x) := AnalyseStep(false, q, group);
            x == ((Even(q1) + Odd(q1)) / 0x4000, (Even(q1) - Odd(q1)) / 0x4000)
  {
    hide AnalyseStep, Even, Odd, Clipped;
    AnalyseStepFits(false, q, group);
  }

  lemma SilenceIsClipped()
    ensures Clipped(SILENCE)
  {
  }

  predicate AllLimited(rs: seq<(int16, int16)>) {
    forall i :: 0 <= i < |rs| ==> Limited(rs[i])
  }

  /** The rings stay clipped and the band signals are fifteen-bit numbers. */
  lemma StaysClipped(amp: seq<int16>)
    requires |amp| % 2 == 0
    ensures Clipped(RingsAfter(amp))
    ensures AllLimited(BandsOf(amp))
  {
    hide Analyse, Clipped;
    SilenceIsClipped();
    AnalyseFits(false, SILENCE, amp);
  }

  lemma PastOfPrefix(amp: seq<int16>, n: nat, i: int)
    requires i < n <= |amp|
    ensures Past(AllClipped(amp[..n]), i, 2) == Past(AllClipped(amp), i, 2)
  {
    hide Clip;
  }

  lemma TapsOfConstant(u: seq<int>, a: int)
    requires |u| == 12 && forall k :: 0 <= k < 12 ==> u[k] == a
    ensures FirstTaps(u, 0) == SecondTaps(u, 0) == 4096 * a
  {
  }

  /** A constant input goes to the low band alone, once the filter is full. */
  lemma ConstantIsLow(amp: seq<int16>, a: int, n: nat)
    requires |amp| % 2 == 0 && 11 <= n && 2 * n < |amp|
    requires -16350 <= a <= 16350 && forall i :: 0 <= i < |amp| ==> amp[i] as int == a
    ensures BandsOf(amp)[n] == (a / 2, 0)
  {
    hide BandsOf, FirstTaps, SecondTaps;
    AnalysisIsFilter(amp, n);
    TapsOfConstant(Past(AllClipped(amp), 2 * n + 1, 2), a);
    TapsOfConstant(Past(AllClipped(amp), 2 * n, 2), a);
  }

  /** An input that changes its sign at every sample goes to the high band alone. */
  lemma AlternationIsHigh(amp: seq<int16>, a: int, n: nat)
    requires |amp| % 2 == 0 && 11 <= n && 2 * n < |amp|
    requires -16350 <= a <= 16350 && forall i :: 0 <= i < |amp| ==> amp[i] as int == if i % 2 == 1 then a else -a
    ensures BandsOf(amp)[n] == (0, a / 2)
  {
    hide BandsOf, FirstTaps, SecondTaps;
    AnalysisIsFilter(amp, n);
    TapsOfConstant(Past(AllClipped(amp), 2 * n + 1, 2), a);
    TapsOfConstant(Past(AllClipped(amp), 2 * n, 2), -a);
  }

  // ----- the receive side

  function Sums(rs: seq<(int16, int16)>): (r: seq<int>)
    ensures |r| == |rs| && forall i :: 0 <= i < |rs| ==> r[i] == rs[i].0 as int + rs[i].1 as int
  {
    seq<int>(|rs|, i requires 0 <= i < |rs| => rs[i].0 as int + rs[i].1 as int)
  }

  function Differences(rs: seq<(int16, int16)>): (r: seq<int>)
    ensures |r| == |rs| && forall i :: 0 <= i < |rs| ==> r[i] == rs[i].0 as int - rs[i].1 as int
  {
    seq<int>(|rs|, i requires 0 <= i < |rs| => rs[i].0 as int - rs[i].1 as int)
  }

  lemma {:induction false} SynthesisRings(rs: seq<(int16, int16)>)
    requires AllLimited(rs)
    ensures var q := Synthesise(false, SILENCE, rs).0;
            && Unrolled(q.x, q.ptr) == Past(Sums(rs), |rs| - 1, 1)
            && Unrolled(q.y, q.ptr) == Past(Differences(rs), |rs| - 1, 1)
  {
    hide Odd, Even, Unrolled, Past, Push, Sums, Differences;
    if rs == [] {
      assert Sums(rs) == [] && Differences(rs) == [];
      PastOfSilence(-1, 1);
    } else {
      var n := |rs| - 1;
      var r := rs[n];
      SynthesisRings(rs[..n]);
      assert Limited(r);
      assert Sums(rs) == Sums(rs[..n]) + [Sum(r.0, r.1)];
      assert Differences(rs) == Differences(rs[..n]) + [Sum(r.0, -(r.1 as int))];
      var q := Synthesise(false, SILENCE, rs[..n]).0;
      assert Synthesise(false, SILENCE, rs).0 == Push(q, Sum(r.0, r.1), Sum(r.0, -(r.1 as int)));
      PushOnBoth(q, Sum(r.0, r.1), Sum(r.0, -(r.1 as int)));
      PastSlides(Sums(rs[..n]), [Sum(r.0, r.1)], n - 1, 1);
      PastSlides(Differences(rs[..n]), [Sum(r.0, -(r.1 as int))], n - 1, 1);
    }
  }

  lemma {:induction false} SynthesisePrefix(rs: seq<(int16, int16)>, n: nat)
    requires n < |rs|
    ensures |Synthesise(false, SILENCE, rs).1| == 2 * |rs|
    ensures Synthesise(false, SILENCE, rs).1[2 * n..2 * n + 2]
         == SynthesiseStep(false, Synthesise(false, SILENCE, rs[..n]).0, rs[n]).1
    decreases |rs|
  {
    hide SynthesiseStep;
    var last := |rs| - 1;
    var head := Synthesise(false, SILENCE, rs[..last]).1;
    if n < last {
      SynthesisePrefix(rs[..last], n);
      assert rs[..last][..n] == rs[..n];
      assert Synthesise(false, SILENCE, rs).1[2 * n..2 * n + 2] == head[2 * n..2 * n + 2];
    }
  }

  /** The two output samples of every pair of band samples, in their order: the first and third and further
      taps of the prototype on the differences of the bands, and the others on their sums. */
  lemma SynthesisIsFilter(rs: seq<(int16, int16)>, n: nat)
    requires AllLimited(rs) && n < |rs|
    ensures var out := Synthesise(false, SILENCE, rs).1;
            && |out| == 2 * |rs|
            && out[2 * n] == Saturate(FirstTaps(Past(Differences(rs), n, 1), 0) / 2048)
            && out[2 * n + 1] == Saturate(SecondTaps(Past(Sums(rs), n, 1), 0) / 2048)
  {
    hide Synthesise, SynthesiseStep, Odd, Even, Unrolled, Past, FirstTaps, SecondTaps, Sums, Differences, Saturate;
    SynthesisePrefix(rs, n);
    SynthesisRings(rs[..n + 1]);
    SumsAreTaps(Synthesise(false, SILENCE, rs[..n + 1]).0);
    StepOutput(rs, n);
    BandsOfPrefix(rs, n);
    var out := Synthesise(false, SILENCE, rs).1;
    assert out[2 * n] == out[2 * n..2 * n + 2][0] && out[2 * n + 1] == out[2 * n..2 * n + 2][1];
  }

  /** The two samples that a pair puts out, from the rings that it leaves behind. */
  lemma StepOutput(rs: seq<(int16, int16)>, n: nat)
    requires n < |rs|
    ensures var q := Synthesise(false, SILENCE, rs[..n + 1]).0;
            SynthesiseStep(false, Synthesise(false, SILENCE, rs[..n]).0, rs[n]).1
            == [Saturate(Even(q) / 2048), Saturate(Odd(q) / 2048)]
  {
    hide Odd, Even, Saturate, Push;
    assert rs[..n + 1][..n] == rs[..n];
  }

  lemma BandsOfPrefix(rs: seq<(int16, int16)>, n: nat)
    requires n < |rs|
    ensures Past(Sums(rs[..n + 1]), n, 1) == Past(Sums(rs), n, 1)
    ensures Past(Differences(rs[..n + 1]), n, 1) == Past(Differences(rs), n, 1)
  {
  }

  // ----- both back to back

  /** The taps of the cascade: `v` holds 23 samples, oldest first. */
  function Cascade(v: seq<int>): int
    requires |v| == 23
  {
    -33 * v[0] + 280 * v[1] - 1183 * v[2] + 3086 * v[3] - 4263 * v[4] - 1756 * v[5]
    + 2668 * v[6] - 432 * v[7] - 141 * v[8] - 2325 * v[9] + 2952 * v[10] + 16779510 * v[11]
    + 2952 * v[12] - 2325 * v[13] - 141 * v[14] - 432 * v[15] + 2668 * v[16] - 1756 * v[17]
    - 4263 * v[18] + 3086 * v[19] - 1183 * v[20] + 280 * v[21] - 33 * v[22]
  }

  /** The first taps on twelve results of the second taps, or the other way round. */
  lemma FirstOfSecond(v: seq<int>, o: seq<int>)
    requires |v| == 23 && |o| == 12 && forall k :: 0 <= k < 12 ==> o[k] == SecondTaps(v, k)
    ensures FirstTaps(o, 0) == Cascade(v)
  {
  }

  lemma SecondOfFirst(v: seq<int>, o: seq<int>)
    requires |v| == 23 && |o| == 12 && forall k :: 0 <= k < 12 ==> o[k] == FirstTaps(v, k)
    ensures SecondTaps(o, 0) == Cascade(v)
  {
  }

  /** The cascade is a delay by eleven pairs, scaled by 2 to the 24th, up to a quarter of a percent. */
  lemma CascadeIsDelay(v: seq<int>, top: int)
    requires 0 <= top && |v| == 23 && forall k :: 0 <= k < 23 ==> -top <= v[k] <= top
    ensures -40532 * top <= Cascade(v) - 0x100_0000 * v[11] <= 40532 * top
  {
  }

  /** The rounding of both bands, through the second filter. */
  lemma RoundingThroughTaps(u: seq<int>)
    requires |u| == 12 && forall k :: 0 <= k < 12 ==> -0x4000 <= u[k] <= 0x4000
    ensures -6482 * 0x4000 <= FirstTaps(u, 0) <= 6482 * 0x4000
    ensures -6482 * 0x4000 <= SecondTaps(u, 0) <= 6482 * 0x4000
  {
  }

  /** Past the end of silence, the differences of the bands are the second taps of the input and their sums
      the first, to within the rounding of both bands. */
  lemma BandsNearTaps(amp: seq<int16>, i: int)
    requires |amp| % 2 == 0 && 2 * i < |amp|
    ensures var (s, d) := (At(Sums(BandsOf(amp)), i), At(Differences(BandsOf(amp)), i));
            && -0x8000 <= 0x4000 * s - 2 * FirstTaps(Past(AllClipped(amp), 2 * i + 1, 2), 0) <= 0
            && -0x4000 <= 0x4000 * d - 2 * SecondTaps(Past(AllClipped(amp), 2 * i, 2), 0) <= 0x4000
  {
    hide BandsOf, AllClipped;
    if i >= 0 {
      hide FirstTaps, SecondTaps, Past;
      AnalysisIsFilter(amp, i);
    } else {
      TapsOfConstant(Past(AllClipped(amp), 2 * i + 1, 2), 0);
      TapsOfConstant(Past(AllClipped(amp), 2 * i, 2), 0);
    }
  }

  /** The 23 samples that output sample `i` of the cascade depends on. */
  function Window(s: seq<int>, i: int): (v: seq<int>)
    ensures |v| == 23 && forall m :: 0 <= m < 23 ==> v[m] == At(s, i - 2 * (22 - m))
  {
    seq(23, m requires 0 <= m < 23 => At(s, i - 2 * (22 - m)))
  }

  lemma PastInWindow(s: seq<int>, i: int, k: nat)
    requires k < 12
    ensures FirstTaps(Past(s, i - 2 * (11 - k), 2), 0) == FirstTaps(Window(s, i), k)
    ensures SecondTaps(Past(s, i - 2 * (11 - k), 2), 0) == SecondTaps(Window(s, i), k)
  {
    hide At, FirstTaps, SecondTaps;
    var u, v := Past(s, i - 2 * (11 - k), 2), Window(s, i);
    forall j | 0 <= j < 12
      ensures u[j] == v[k + j]
    {
      assert i - 2 * (11 - k) - 2 * (11 - j) == i - 2 * (22 - (k + j));
    }
    TapsOfPart(u, v, k);
  }

  lemma TapsOfPart(u: seq<int>, v: seq<int>, k: nat)
    requires |u| == 12 && k + 12 <= |v| && forall j :: 0 <= j < 12 ==> u[j] == v[k + j]
    ensures FirstTaps(u, 0) == FirstTaps(v, k) && SecondTaps(u, 0) == SecondTaps(v, k)
  {
  }

  lemma TapsAreLinear(u: seq<int>, o: seq<int>, e: seq<int>)
    requires |u| == |o| == |e| == 12 && forall k :: 0 <= k < 12 ==> e[k] == 0x4000 * u[k] - 2 * o[k]
    ensures FirstTaps(e, 0) == 0x4000 * FirstTaps(u, 0) - 2 * FirstTaps(o, 0)
    ensures SecondTaps(e, 0) == 0x4000 * SecondTaps(u, 0) - 2 * SecondTaps(o, 0)
  {
  }

  /** A filter output that stays within the rounding of the cascade. */
  predicate NearCascade(z: int, v: seq<int>)
    requires |v| == 23
  {
    -10578 * 0x4000 <= 0x4000 * z - 2 * Cascade(v) <= 10578 * 0x4000
  }

  lemma FirstNearCascade(u: seq<int>, v: seq<int>)
    requires |u| == 12 && |v| == 23
    requires forall k :: 0 <= k < 12 ==> -0x4000 <= 0x4000 * u[k] - 2 * SecondTaps(v, k) <= 0x4000
    ensures NearCascade(FirstTaps(u, 0), v)
  {
    hide FirstTaps, SecondTaps, Cascade;
    var o := seq(12, k requires 0 <= k < 12 => SecondTaps(v, k));
    var e := seq(12, k requires 0 <= k < 12 => 0x4000 * u[k] - 2 * o[k]);
    FirstOfSecond(v, o);
    RoundingThroughTaps(e);
    TapsAreLinear(u, o, e);
  }

  lemma SecondNearCascade(u: seq<int>, v: seq<int>)
    requires |u| == 12 && |v| == 23
    requires forall k :: 0 <= k < 12 ==> -0x8000 <= 0x4000 * u[k] - 2 * FirstTaps(v, k) <= 0
    ensures NearCascade(SecondTaps(u, 0), v)
  {
    hide FirstTaps, SecondTaps, Cascade;
    var o := seq(12, k requires 0 <= k < 12 => FirstTaps(v, k));
    var e := seq(12, k requires 0 <= k < 12 => 0x4000 * u[k] - 2 * o[k]);
    SecondOfFirst(v, o);
    OneSidedRounding(e);
    TapsAreLinear(u, o, e);
  }

  lemma FirstOutput(amp: seq<int16>, n: nat)
    requires |amp| % 2 == 0 && 2 * n < |amp|
    ensures NearCascade(FirstTaps(Past(Differences(BandsOf(amp)), n, 1), 0), Window(AllClipped(amp), 2 * n))
  {
    hide FirstTaps, SecondTaps, NearCascade, At, BandsOf, Differences, AllClipped;
    var u, v := Past(Differences(BandsOf(amp)), n, 1), Window(AllClipped(amp), 2 * n);
    forall k | 0 <= k < 12
      ensures -0x4000 <= 0x4000 * u[k] - 2 * SecondTaps(v, k) <= 0x4000
    {
      BandsNearTaps(amp, n - (11 - k));
      PastInWindow(AllClipped(amp), 2 * n, k);
      assert 2 * (n - (11 - k)) == 2 * n - 2 * (11 - k);
    }
    FirstNearCascade(u, v);
  }

  lemma SecondOutput(amp: seq<int16>, n: nat)
    requires |amp| % 2 == 0 && 2 * n < |amp|
    ensures NearCascade(SecondTaps(Past(Sums(BandsOf(amp)), n, 1), 0), Window(AllClipped(amp), 2 * n + 1))
  {
    hide FirstTaps, SecondTaps, NearCascade, At, BandsOf, Sums, AllClipped;
    var u, v := Past(Sums(BandsOf(amp)), n, 1), Window(AllClipped(amp), 2 * n + 1);
    forall k | 0 <= k < 12
      ensures -0x8000 <= 0x4000 * u[k] - 2 * FirstTaps(v, k) <= 0
    {
      BandsNearTaps(amp, n - (11 - k));
      PastInWindow(AllClipped(amp), 2 * n + 1, k);
      assert 2 * (n - (11 - k)) + 1 == 2 * n + 1 - 2 * (11 - k);
    }
    SecondNearCascade(u, v);
  }

  lemma OneSidedRounding(e: seq<int>)
    requires |e| == 12 && forall k :: 0 <= k < 12 ==> -0x8000 <= e[k] <= 0
    ensures -10578 * 0x4000 <= SecondTaps(e, 0) <= 10578 * 0x4000
  {
  }

  /** Equal to within a quarter of a percent of the peak, seven, and 3.2 times the error `e` of the bands. */
  predicate CloseTo(x: int, y: int, top: int, e: int) {
    0x100_0000 * Distance(x, y) <= 40532 * top + 7 * 0x100_0000 + 3241 * 0x4000 * e
  }

  /** Dropping the last eleven bits of an output near the cascade leaves the delayed sample. */
  lemma OutputNearDelay(z: int, w: int, v: seq<int>, top: int, e: int)
    requires |v| == 23 && NearCascade(z, v) && 0 <= e && -6482 * e <= w - z <= 6482 * e
    requires 0 <= top <= 16350 && forall k :: 0 <= k < 23 ==> -top <= v[k] <= top
    ensures CloseTo(Saturate(w / 2048), v[11], top, e)
  {
    hide Cascade;
    CascadeIsDelay(v, top);
  }

  lemma TapsNear(u: seq<int>, w: seq<int>, e: int)
    requires |u| == |w| == 12 && 0 <= e && forall k :: 0 <= k < 12 ==> -e <= w[k] - u[k] <= e
    ensures -6482 * e <= FirstTaps(w, 0) - FirstTaps(u, 0) <= 6482 * e
    ensures -6482 * e <= SecondTaps(w, 0) - SecondTaps(u, 0) <= 6482 * e
  {
    hide FirstTaps, SecondTaps;
    FirstTapsNear(u, w, e);
    SecondTapsNear(u, w, e);
  }

  lemma FirstTapsNear(u: seq<int>, w: seq<int>, e: int)
    requires |u| == |w| == 12 && 0 <= e && forall k :: 0 <= k < 12 ==> -e <= w[k] - u[k] <= e
    ensures -6482 * e <= FirstTaps(w, 0) - FirstTaps(u, 0) <= 6482 * e
  {
  }

  lemma SecondTapsNear(u: seq<int>, w: seq<int>, e: int)
    requires |u| == |w| == 12 && 0 <= e && forall k :: 0 <= k < 12 ==> -e <= w[k] - u[k] <= e
    ensures -6482 * e <= SecondTaps(w, 0) - SecondTaps(u, 0) <= 6482 * e
  {
  }

  /** The twelve pairs of band samples that pair `n` of the output depends on are received to within `e`, both
      bands together. */
  predicate BandsNear(xs: seq<(int16, int16)>, rs: seq<(int16, int16)>, n: nat, e: int)
    requires |xs| == |rs| && n < |xs|
  {
    forall k :: 0 <= k <= n && n - 11 <= k ==> Distance(rs[k].0, xs[k].0) + Distance(rs[k].1, xs[k].1) <= e
  }

  lemma PastBandsNear(xs: seq<(int16, int16)>, rs: seq<(int16, int16)>, n: nat, e: int)
    requires |xs| == |rs| && n < |xs| && 0 <= e && BandsNear(xs, rs, n, e)
    ensures forall k :: 0 <= k < 12 ==> -e <= Past(Sums(rs), n, 1)[k] - Past(Sums(xs), n, 1)[k] <= e
    ensures forall k :: 0 <= k < 12 ==> -e <= Past(Differences(rs), n, 1)[k] - Past(Differences(xs), n, 1)[k] <= e
  {
  }

  /** Output sample `i` of the cascade is close to the input 22 samples earlier. */
  predicate Returned(amp: seq<int16>, out: seq<int16>, top: int, e: int, i: nat)
    requires |out| == |amp| && i < |amp|
  {
    hide CloseTo;
    CloseTo(out[i], if i < 22 then 0 else amp[i - 22], top, e)
  }

  /** Both banks back to back return every stream below the clipping limit, from its first sample on, delayed by
      22 samples, also when each band comes back with an error of its own. */
  lemma BackToBack(amp: seq<int16>, rs: seq<(int16, int16)>, top: int, e: int, i: nat)
    requires |amp| % 2 == 0 && i < |amp| && 0 <= e
    requires 0 <= top <= 16350 && forall k :: 0 <= k < |amp| ==> -top <= amp[k] as int <= top
    requires |rs| == |BandsOf(amp)| && AllLimited(rs) && BandsNear(BandsOf(amp), rs, i / 2, e)
    ensures |Synthesise(false, SILENCE, rs).1| == |amp|
    ensures Returned(amp, Synthesise(false, SILENCE, rs).1, top, e, i)
  {
    hide BandsOf, Synthesise, Returned, BandsNear, AllLimited;
    var n := i / 2;
    if i == 2 * n {
      FirstReturns(amp, rs, top, e, n);
    } else {
      SecondReturns(amp, rs, top, e, n);
    }
  }

  /** Uncoded, to within a quarter of a percent of the peak and seven. */
  lemma UncodedBackToBack(amp: seq<int16>, top: int, i: nat)
    requires |amp| % 2 == 0 && i < |amp|
    requires 0 <= top <= 16350 && forall k :: 0 <= k < |amp| ==> -top <= amp[k] as int <= top
    ensures |Synthesise(false, SILENCE, BandsOf(amp)).1| == |amp|
    ensures Returned(amp, Synthesise(false, SILENCE, BandsOf(amp)).1, top, 0, i)
  {
    hide BandsOf, Synthesise, Returned, AllLimited;
    StaysClipped(amp);
    BackToBack(amp, BandsOf(amp), top, 0, i);
  }

  lemma FirstReturns(amp: seq<int16>, rs: seq<(int16, int16)>, top: int, e: int, n: nat)
    requires |amp| % 2 == 0 && 2 * n < |amp| && 0 <= e
    requires 0 <= top <= 16350 && forall k :: 0 <= k < |amp| ==> -top <= amp[k] as int <= top
    requires |rs| == |BandsOf(amp)| && AllLimited(rs) && BandsNear(BandsOf(amp), rs, n, e)
    ensures Returned(amp, Synthesise(false, SILENCE, rs).1, top, e, 2 * n)
  {
    hide BandsOf, Synthesise, FirstTaps, SecondTaps, Past, Window, CloseTo, Saturate, NearCascade, Sums, Differences,
         AllClipped, BandsNear, AllLimited;
    SynthesisIsFilter(rs, n);
    WindowOfInput(amp, top, 2 * n);
    FirstOutput(amp, n);
    PastBandsNear(BandsOf(amp), rs, n, e);
    var u, w := Past(Differences(BandsOf(amp)), n, 1), Past(Differences(rs), n, 1);
    TapsNear(u, w, e);
    OutputNearDelay(FirstTaps(u, 0), FirstTaps(w, 0), Window(AllClipped(amp), 2 * n), top, e);
  }

  lemma SecondReturns(amp: seq<int16>, rs: seq<(int16, int16)>, top: int, e: int, n: nat)
    requires |amp| % 2 == 0 && 2 * n + 1 < |amp| && 0 <= e
    requires 0 <= top <= 16350 && forall k :: 0 <= k < |amp| ==> -top <= amp[k] as int <= top
    requires |rs| == |BandsOf(amp)| && AllLimited(rs) && BandsNear(BandsOf(amp), rs, n, e)
    ensures Returned(amp, Synthesise(false, SILENCE, rs).1, top, e, 2 * n + 1)
  {
    hide BandsOf, Synthesise, FirstTaps, SecondTaps, Past, Window, CloseTo, Saturate, NearCascade, Sums, Differences,
         AllClipped, BandsNear, AllLimited;
    SynthesisIsFilter(rs, n);
    WindowOfInput(amp, top, 2 * n + 1);
    SecondOutput(amp, n);
    PastBandsNear(BandsOf(amp), rs, n, e);
    var u, w := Past(Sums(BandsOf(amp)), n, 1), Past(Sums(rs), n, 1);
    TapsNear(u, w, e);
    OutputNearDelay(SecondTaps(u, 0), SecondTaps(w, 0), Window(AllClipped(amp), 2 * n + 1), top, e);
  }

  lemma WindowOfInput(amp: seq<int16>, top: int, i: nat)
    requires i < |amp|
    requires 0 <= top <= 16350 && forall k :: 0 <= k < |amp| ==> -top <= amp[k] as int <= top
    ensures var v := Window(AllClipped(amp), i);
            v[11] == (if i < 22 then 0 else amp[i - 22] as int) && forall m :: 0 <= m < 23 ==> -top <= v[m] <= top
  {
  }
}
