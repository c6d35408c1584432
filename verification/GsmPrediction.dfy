/** What the short-term predictor of the GSM 06.10 coder computes (jni/spandsp/gsm0610_lpc.c and
    gsm0610_short_term.c): how near the log area ratios come back, what the reflection coefficients solve,
    and which filter the lattice is. */
module GsmPrediction {
  import opened FixedPoint
  import opened GsmLpc
  import opened GsmShortTerm
  import opened GsmCodec

  // ----- the ratios across the channel

  /** The level of a ratio before it is cut to its range. */
  function LarLevel(lar: int, c: Coding): int {
    (c.a * lar / 0x8000 + c.b + 256) / 512
  }

  lemma CodeOfLevel(lar: int16, i: nat)
    requires i < 8
    ensures var (t, c) := (LarLevel(lar, CodingOf(i)), CodingOf(i));
            LarCode(lar, c) == Clamp(c.mic, t, c.mac) - c.mic
  {
  }

  /** The decoder's ratio for a level inside its range. */
  function LarOfLevel(t: int, d: Decoding): int {
    2 * ((d.inva * (1024 * t - 2 * d.b) + 0x4000) / 0x8000)
  }

  lemma DecodedOfLevel(t: int, i: nat)
    requires i < 8 && CodingOf(i).mic <= t <= CodingOf(i).mac
    ensures DecodedLar(t - CodingOf(i).mic, DecodingOf(i)) as int == LarOfLevel(t, DecodingOf(i))
  {
    hide Pow2, MultR;
    Pow2Values();
    var d := DecodingOf(i);
    DecodingsFit(t, i);
    var z: int16 := 1024 * t - 2 * d.b;
    MultRExact(d.inva, z);
    ProductFits(d.inva, z, i);
  }

  lemma DecodingsFit(t: int, i: nat)
    requires i < 8 && CodingOf(i).mic <= t <= CodingOf(i).mac
    ensures var d := DecodingOf(i);
            d.mic == CodingOf(i).mic && d.inva > 0 && IsInt16(1024 * t) && IsInt16(2 * d.b)
            && IsInt16(1024 * t - 2 * d.b)
  {
  }

  lemma ProductFits(inva: int, z: int, i: nat)
    requires i < 8 && inva == DecodingOf(i).inva && IsInt16(z)
    requires 1024 * CodingOf(i).mic - 2 * DecodingOf(i).b <= z <= 1024 * CodingOf(i).mac - 2 * DecodingOf(i).b
    ensures IsInt16(2 * ((inva * z + 0x4000) / 0x8000))
  {
  }

  datatype LarRange = LarRange(lowest: int, highest: int, near: int)

  /** The ratios that the coder of coefficient `i` can represent, and half its step, rounded up. */
  function RangeOf(i: nat): LarRange
    requires i < 8
  {
    if i == 0 then LarRange(-26624, 25804, 410)
    else if i == 1 then LarRange(-26624, 25804, 410)
    else if i == 2 then LarRange(-16794, 9422, 410)
    else if i == 3 then LarRange(-9422, 16794, 410)
    else if i == 4 then LarRange(-10433, 8791, 601)
    else if i == 5 then LarRange(-5463, 12015, 547)
    else if i == 6 then LarRange(-7538, 8190, 984)
    else LarRange(-4207, 10647, 929)
  }

  /** A ratio comes back from the channel to within half a step if and only if it lies in the range of its
      coefficient. */
  lemma RatioComesBack(lar: int16, i: nat)
    requires i < 8
    ensures Distance(DecodedLar(LarCode(lar, CodingOf(i)), DecodingOf(i)), lar) <= RangeOf(i).near
       <==> RangeOf(i).lowest <= lar <= RangeOf(i).highest
  {
    hide LarCode, DecodedLar;
    CodeOfLevel(lar, i);
    var c := CodingOf(i);
    DecodedOfLevel(Clamp(c.mic, LarLevel(lar, c), c.mac), i);
    LevelIsNear(lar, i);
  }

  lemma LevelIsNear(lar: int16, i: nat)
    requires i < 8
    ensures var c := CodingOf(i);
            Distance(LarOfLevel(Clamp(c.mic, LarLevel(lar, c), c.mac), DecodingOf(i)), lar) <= RangeOf(i).near
            <==> RangeOf(i).lowest <= lar <= RangeOf(i).highest
  {
    hide LarLevel, LarOfLevel;
    var c, d := CodingOf(i), DecodingOf(i);
    LevelBrackets(lar, c);
    ValueBrackets(LarLevel(lar, c), d);
    ExtremeRatios(i);
    if i < 2 {} else if i == 2 {} else if i == 3 {} else if i == 4 {} else if i == 5 {} else if i == 6 {} else {}
  }

  lemma LevelBrackets(lar: int, c: Coding)
    ensures var t := LarLevel(lar, c);
            0x100_0000 * t <= c.a * lar + 0x8000 * (c.b + 256) < 0x100_0000 * (t + 1)
  {
  }

  lemma ValueBrackets(t: int, d: Decoding)
    ensures var y := d.inva * (1024 * t - 2 * d.b);
            2 * y - 0x8000 < 0x8000 * LarOfLevel(t, d) <= 2 * y + 0x8000
  {
  }

  /** What the lowest and the highest code of each coefficient stand for. */
  lemma ExtremeRatios(i: nat)
    requires i < 8
    ensures LarOfLevel(CodingOf(i).mic, DecodingOf(i))
         == if i < 2 then -26214 else if i == 2 then -16384 else if i == 3 then -9012 else if i == 4 then -9832
            else if i == 5 then -4916 else if i == 6 then -6554 else -3278
    ensures LarOfLevel(CodingOf(i).mac, DecodingOf(i))
         == if i < 2 then 25394 else if i == 2 then 9012 else if i == 3 then 16384 else if i == 4 then 8190
            else if i == 5 then 11468 else if i == 6 then 7206 else 9718
  {
  }

  /** The conversion to coefficients at most doubles a difference. */
  lemma ConversionIsGentle(x: int16, y: int16)
    ensures Distance(ToReflection(x), ToReflection(y)) <= 2 * Distance(x, y)
  {
    hide RpMagnitude;
    var a: int16, b: int16 := SatAbs(x), SatAbs(y);
    MagnitudeIsGentle(a, b);
    MagnitudeIsGentle(b, a);
  }

  lemma MagnitudeIsGentle(a: int16, b: int16)
    requires 0 <= a && 0 <= b
    ensures RpMagnitude(a) <= 2 * a
    ensures a <= b ==> 0 <= RpMagnitude(b) - RpMagnitude(a) <= 2 * (b - a)
  {
  }

  /** From the frame to the decoder's filter: a coefficient of the analysis comes back within twice half a step of
      its ratio and one, as long as its ratio lies in the range of the code. */
  lemma CoefficientComesBack(s: seq<int16>, i: nat)
    requires |s| == 160 && i < 8
    ensures Dominated(Acf(s))
    ensures var r := ReflectionCoefficients(Acf(s))[i];
            RangeOf(i).lowest <= Lar(r) <= RangeOf(i).highest ==>
              Distance(ToReflection(DecodedLars(Analysed(s).0)[i]), r) <= 2 * RangeOf(i).near + 1
  {
    hide ReflectionCoefficients, ToReflection, Lar, LarCode, DecodedLar, CodingOf, DecodingOf, RangeOf, Acf;
    AcfIsDominated(s);
    var r := ReflectionCoefficients(Acf(s))[i];
    CoefficientIsNotMinimal(Acf(s), i);
    LarCodeFits(Lar(r), i);
    RatioComesBack(Lar(r), i);
    LarTransformInverts(r);
    ConversionIsGentle(DecodedLar(LarCode(Lar(r), CodingOf(i)), DecodingOf(i)), Lar(r));
  }

  lemma CoefficientIsNotMinimal(acf: seq<int>, i: nat)
    requires Dominated(acf) && i < 8
    ensures ReflectionCoefficients(acf)[i] != INT16_MIN
  {
    hide Schur, Normalised;
    if acf[0] != 0 {
      NoneIsMinimal(Normalised(acf), Inner(Normalised(acf)));
    }
  }

  // ----- polynomials

  /** `x` is `y` to within `e`. */
  predicate Within(x: real, y: real, e: real) {
    -e <= x - y <= e
  }

  function Scaled(k: real, x: real): real {
    k * x
  }

  function Dot(a: seq<real>, g: seq<real>): real
    requires |a| == |g|
  {
    if a == [] then 0.0 else a[0] * g[0] + Dot(a[1..], g[1..])
  }

  function Reversed(a: seq<real>): (r: seq<real>)
    ensures |r| == |a| && forall j :: 0 <= j < |a| ==> r[j] == a[|a| - 1 - j]
  {
    seq(|a|, j requires 0 <= j < |a| => a[|a| - 1 - j])
  }

  /** Entry `j` of a polynomial, and of the same polynomial reversed and moved up by one. */
  function Entry(a: seq<real>, j: nat): real {
    if j < |a| then a[j] else 0.0
  }

  function Mirrored(a: seq<real>, j: nat): real
    requires j <= |a|
  {
    if j > 0 then a[|a| - j] else 0.0
  }

  /** The step-up rule: the polynomial with one more reflection coefficient. */
  function StepUp(a: seq<real>, k: real): (r: seq<real>)
    ensures |r| == |a| + 1
    ensures forall j :: 0 <= j <= |a| ==> r[j] == Entry(a, j) + Scaled(k, Mirrored(a, j))
  {
    hide Entry, Mirrored, Scaled;
    seq(|a| + 1, j requires 0 <= j <= |a| => Entry(a, j) + Scaled(k, Mirrored(a, j)))
  }

  function InQ15(c: int16): real {
    c as real / 32768.0
  }

  /** The polynomial `a` stepped up by further coefficients. */
  function SteppedUp(a: seq<real>, c: seq<int16>): (r: seq<real>)
    ensures |r| == |a| + |c|
    decreases |c|
  {
    if c == [] then a else SteppedUp(StepUp(a, InQ15(c[0])), c[1..])
  }

  /** The predictor polynomial of a list of reflection coefficients: its first entry is one. */
  function Polynomial(c: seq<int16>): (r: seq<real>)
    ensures |r| == |c| + 1
  {
    SteppedUp([1.0], c)
  }

  lemma {:induction false} DotSnoc(a: seq<real>, g: seq<real>, x: real, y: real)
    requires |a| == |g|
    ensures Dot(a + [x], g + [y]) == Dot(a, g) + x * y
  {
    if a == [] {
      assert [x][1..] == [] && [y][1..] == [];
    } else {
      DotSnoc(a[1..], g[1..], x, y);
      assert (a + [x])[1..] == a[1..] + [x] && (g + [y])[1..] == g[1..] + [y];
    }
  }

  lemma {:induction false} DotReversed(a: seq<real>, g: seq<real>)
    requires |a| == |g|
    ensures Dot(Reversed(a), g) == Dot(a, Reversed(g))
  {
    if a != [] {
      var n := |a| - 1;
      DotReversed(a[1..], g[..n]);
      assert Reversed(a) == Reversed(a[1..]) + [a[0]] && g == g[..n] + [g[n]];
      DotSnoc(Reversed(a[1..]), g[..n], a[0], g[n]);
      assert Reversed(g)[1..] == Reversed(g[..n]);
    }
  }

  /** A combination of vectors is combined entry by entry. */
  lemma {:induction false} DotLinear(a: seq<real>, b: seq<real>, k: real, c: seq<real>, g: seq<real>)
    requires |a| == |b| == |c| == |g|
    requires forall j :: 0 <= j < |a| ==> c[j] == a[j] + Scaled(k, b[j])
    ensures Dot(c, g) == Dot(a, g) + k * Dot(b, g)
  {
    if a != [] {
      DotLinear(a[1..], b[1..], k, c[1..], g[1..]);
      Distributes(a[0], b[0], k, g[0], Dot(b[1..], g[1..]));
    }
  }

  lemma Distributes(a: real, b: real, k: real, g: real, rest: real)
    ensures (a + k * b) * g == a * g + k * (b * g)
    ensures k * (b * g + rest) == k * (b * g) + k * rest
  {
  }

  /** Stepping up adds `k` times the polynomial on the reversed vector. */
  lemma StepUpOnVector(a: seq<real>, k: real, g: seq<real>)
    requires |g| == |a| + 1
    ensures Dot(StepUp(a, k), g) == Dot(a, g[..|a|]) + k * Dot(a, Reversed(g[1..]))
  {
    hide StepUp, Dot, Reversed;
    StepUpDots(a, k, g);
    DotOfPadded(a, g);
    DotOfShifted(Reversed(a), g);
    DotReversed(a, g[1..]);
  }

  lemma StepUpDots(a: seq<real>, k: real, g: seq<real>)
    requires |g| == |a| + 1
    ensures Dot(StepUp(a, k), g) == Dot(a + [0.0], g) + k * Dot([0.0] + Reversed(a), g)
  {
    hide StepUp, Dot, Scaled;
    StepUpIsSum(a, k);
    DotLinear(a + [0.0], [0.0] + Reversed(a), k, StepUp(a, k), g);
  }

  lemma DotOfPadded(a: seq<real>, g: seq<real>)
    requires |g| == |a| + 1
    ensures Dot(a + [0.0], g) == Dot(a, g[..|a|])
  {
    hide Dot;
    assert g == g[..|a|] + [g[|a|]];
    DotSnoc(a, g[..|a|], 0.0, g[|a|]);
  }

  lemma StepUpIsSum(a: seq<real>, k: real)
    ensures forall j :: 0 <= j <= |a| ==> StepUp(a, k)[j] == (a + [0.0])[j] + Scaled(k, ([0.0] + Reversed(a))[j])
  {
    hide StepUp, Scaled;
  }

  lemma DotOfShifted(b: seq<real>, g: seq<real>)
    requires |g| == |b| + 1
    ensures Dot([0.0] + b, g) == Dot(b, g[1..])
  {
    assert ([0.0] + b)[1..] == b;
  }

  // ----- rounding along the recursion

  /** What `n` roundings can add up to, each doubled by every later round. */
  function Slack(n: nat): real {
    (Pow2(n) as real - 1.0) / 2.0
  }

  lemma SlackNext(n: nat)
    ensures Slack(n + 1) == 2.0 * Slack(n) + 0.5 && Slack(n) >= 0.0
  {
  }

  lemma ProductIsReal(a: int, b: int)
    ensures (a * b) as real == a as real * b as real
  {
  }

  /** The rounded product in Q15 is the real one to within a half. */
  lemma RoundedIsNear(a: int, c: int16)
    ensures Within(Round15(Product(a, c)) as real, Scaled(InQ15(c), a as real), 0.5)
  {
    ProductIsReal(a, c);
    var z, q := Product(a, c), Round15(Product(a, c));
    assert 32768 * q <= z + 0x4000 < 32768 * q + 32768;
  }

  /** A factor below one does not increase a difference. */
  lemma ScaledDifference(k: real, x: real, y: real, e: real)
    requires -1.0 <= k <= 1.0 && Within(x, y, e)
    ensures Within(k * x, k * y, e)
  {
    FactorOfDifference(k, x, y);
    BelowOne(k, x - y, e);
  }

  lemma FactorOfDifference(k: real, x: real, y: real)
    ensures k * x - k * y == k * (x - y)
  {
  }

  lemma BelowOne(k: real, d: real, e: real)
    requires -1.0 <= k <= 1.0 && -e <= d <= e
    ensures -e <= k * d <= e
  {
    BetweenBoth(k, d);
    Enclosed(k * d, d, e);
  }

  lemma BetweenBoth(k: real, d: real)
    requires -1.0 <= k <= 1.0
    ensures -d <= k * d <= d || d <= k * d <= -d
  {
    if d >= 0.0 {} else {}
  }

  lemma Enclosed(p: real, d: real, e: real)
    requires -e <= d <= e && (-d <= p <= d || d <= p <= -d)
    ensures -e <= p <= e
  {
  }

  function Product(a: int, b: int): int {
    a * b
  }

  /** One addition of the recursion: the error doubles and a half is added. */
  lemma OneAddition(x: int, y: int, c: int16, exactX: real, exactY: real, e: real)
    requires Within(x as real, exactX, e) && Within(y as real, exactY, e)
    ensures Within((x + Round15(Product(y, c))) as real, exactX + Scaled(InQ15(c), exactY), 2.0 * e + 0.5)
  {
    hide Round15, Product, Scaled, InQ15;
    CoefficientBelowOne(c);
    RoundedIsNear(y, c);
    ScaledIsNear(InQ15(c), y as real, exactY, e);
  }

  // ----- what the Schur recursion computes

  /** The autocorrelation at any lag: it is symmetric. */
  function Lag(r: seq<int16>, x: int): real {
    if Abs(x) < |r| then r[Abs(x)] as real else 0.0
  }

  /** Lags `x`, `x - 1`, ... , `n` of them. */
  function Lags(r: seq<int16>, x: int, n: nat): (g: seq<real>)
    ensures |g| == n && forall j :: 0 <= j < n ==> g[j] == Lag(r, x - j)
  {
    seq(n, j requires 0 <= j < n => Lag(r, x - j))
  }

  /** The autocorrelation filtered by a polynomial, at lag `x`. */
  function Filtered(a: seq<real>, r: seq<int16>, x: int): real {
    Dot(a, Lags(r, x, |a|))
  }

  lemma FilteredStepUp(a: seq<real>, k: real, r: seq<int16>, x: int)
    ensures Filtered(StepUp(a, k), r, x) == Filtered(a, r, x) + Scaled(k, Filtered(a, r, |a| - x))
  {
    hide StepUp, Dot, Lag;
    var n := |a|;
    var g := Lags(r, x, n + 1);
    StepUpOnVector(a, k, g);
    assert g[..n] == Lags(r, x, n);
    forall j | 0 <= j < n
      ensures Reversed(g[1..])[j] == Lags(r, n - x, n)[j]
    {
      LagIsSymmetric(r, x - (n - j));
    }
    assert Reversed(g[1..]) == Lags(r, n - x, n);
  }

  lemma LagIsSymmetric(r: seq<int16>, x: int)
    ensures Lag(r, x) == Lag(r, -x)
  {
  }

  /** Place `m` of P and K: P there is the filtered autocorrelation at lag `m` and as many lags on as there
      were rounds, K is the one at lag `-m`, and place 0 of P is the one at lag 0. */
  predicate NearAt(p: seq<int16>, k: seq<int16>, a: seq<real>, r: seq<int16>, m: int)
    requires |p| == 9 && |k| == 9 && 1 <= |a| <= 8 && 0 <= m < 9
  {
    hide Filtered, Slack, Within;
    var e := Slack(|a| - 1);
    if m == 0 then Within(p[0] as real, Filtered(a, r, 0), e)
    else
      && Within(p[m] as real, Filtered(a, r, m + |a| - 1), e)
      && (m <= 7 ==> Within(k[m] as real, Filtered(a, r, 0 - m), e))
  }

  /** After `|a| - 1` rounds this holds, up to rounding, at every place that is still needed. */
  predicate NearSums(p: seq<int16>, k: seq<int16>, a: seq<real>, r: seq<int16>)
    requires |p| == 9 && |k| == 9 && 1 <= |a| <= 8
  {
    hide NearAt;
    forall m :: 0 <= m <= 9 - |a| ==> NearAt(p, k, a, r, m)
  }

  /** No addition of round `n` saturates. */
  predicate CleanRound(p: seq<int16>, k: seq<int16>, n: nat, c: int16)
    requires |p| == 9 && |k| == 9 && 1 <= n < 8
  {
    hide MultR;
    && IsInt16(p[0] + MultR(p[1], c))
    && (forall m :: 1 <= m <= 8 - n ==> IsInt16(p[m + 1] + MultR(k[m], c)) && IsInt16(k[m] + MultR(p[m + 1], c)))
  }

  /** The plain sums of a round that does not saturate. */
  lemma CleanRoundIs(p: seq<int16>, k: seq<int16>, n: nat, c: int16, m: nat)
    requires |p| == 9 && |k| == 9 && 1 <= n < 8 && CleanRound(p, k, n, c) && c != INT16_MIN && m <= 8 - n
    ensures m == 0 ==> NextP(p, k, n, c)[0] as int == p[0] + Round15(Product(p[1], c))
    ensures m > 0 ==> NextP(p, k, n, c)[m] as int == p[m + 1] + Round15(Product(k[m], c))
    ensures m > 0 ==> NextK(p, k, n, c)[m] as int == k[m] + Round15(Product(p[m + 1], c))
  {
    hide MultR, Round15;
    MultRExact(p[1], c);
    if m > 0 {
      MultRExact(k[m], c);
      MultRExact(p[m + 1], c);
    }
  }

  lemma FirstKeepsSum(p: seq<int16>, k: seq<int16>, n: nat, c: int16, a: seq<real>, r: seq<int16>)
    requires |p| == 9 && |k| == 9 && 1 <= n < 8 && |a| == n && NearAt(p, k, a, r, 0) && NearAt(p, k, a, r, 1)
    requires CleanRound(p, k, n, c) && c != INT16_MIN
    ensures NearAt(NextP(p, k, n, c), NextK(p, k, n, c), StepUp(a, InQ15(c)), r, 0)
  {
    hide Filtered, Slack, StepUp, NextP, NextK, Round15, Within, CleanRound, Scaled, Product, InQ15;
    SlackNext(n - 1);
    CleanRoundIs(p, k, n, c, 0);
    FilteredStepUp(a, InQ15(c), r, 0);
    OneAddition(p[0], p[1], c, Filtered(a, r, 0), Filtered(a, r, n), Slack(n - 1));
  }

  lemma RestKeepsSums(p: seq<int16>, k: seq<int16>, n: nat, c: int16, a: seq<real>, r: seq<int16>, m: nat)
    requires |p| == 9 && |k| == 9 && 1 <= n < 8 && |a| == n && 1 <= m <= 8 - n
    requires NearAt(p, k, a, r, m) && NearAt(p, k, a, r, m + 1)
    requires CleanRound(p, k, n, c) && c != INT16_MIN
    ensures NearAt(NextP(p, k, n, c), NextK(p, k, n, c), StepUp(a, InQ15(c)), r, m)
  {
    hide Filtered, Slack, StepUp, NextP, NextK, Round15, Within, CleanRound, Scaled, Product, InQ15;
    SlackNext(n - 1);
    CleanRoundIs(p, k, n, c, m);
    FilteredStepUp(a, InQ15(c), r, m + n);
    FilteredStepUp(a, InQ15(c), r, 0 - m);
    OneAddition(p[m + 1], k[m], c, Filtered(a, r, m + n), Filtered(a, r, 0 - m), Slack(n - 1));
    OneAddition(k[m], p[m + 1], c, Filtered(a, r, 0 - m), Filtered(a, r, m + n), Slack(n - 1));
  }

  lemma RoundKeepsSums(p: seq<int16>, k: seq<int16>, n: nat, c: int16, a: seq<real>, r: seq<int16>)
    requires |p| == 9 && |k| == 9 && 1 <= n < 8 && |a| == n && NearSums(p, k, a, r)
    requires CleanRound(p, k, n, c) && c != INT16_MIN
    ensures NearSums(NextP(p, k, n, c), NextK(p, k, n, c), StepUp(a, InQ15(c)), r)
  {
    hide NearAt, StepUp, NextP, NextK, CleanRound, InQ15;
    FirstKeepsSum(p, k, n, c, a, r);
    forall m: nat | 1 <= m <= 8 - n
      ensures NearAt(NextP(p, k, n, c), NextK(p, k, n, c), StepUp(a, InQ15(c)), r, m)
    {
      RestKeepsSums(p, k, n, c, a, r, m);
    }
  }

  // ----- the normal equations

  /** The predictor of order `|a| - 1` leaves nothing of the autocorrelation at its own lags, up to the
      rounding of the recursion. */
  predicate NormalEquations(a: seq<real>, r: seq<int16>)
    requires a != []
  {
    hide Filtered, Within, Pow2;
    forall x :: 1 <= x < |a| ==> Within(Filtered(a, r, x), 0.0, Pow2(|a| - 1) as real)
  }

  /** A coefficient cancels the first entry of P against the zeroth, to within two. */
  lemma ReflectionCancels(p0: int16, p1: int16)
    requires SatAbs(p1) <= p0
    ensures Within(p1 as real + Scaled(InQ15(Reflection(p0, p1)), p0 as real), 0.0, 2.0)
  {
    hide Reflection, Div;
    ReflectionIs(p0, p1);
    QuotientIsNear(SatAbs(p1), p0);
    var c := Reflection(p0, p1);
    assert -0x1_0000 <= 0x8000 * p1 + Product(c, p0) <= 0x1_0000 by {
      NegatedProduct(Div(SatAbs(p1), p0), p0);
    }
    ProductIsReal(c, p0);
  }

  lemma NegatedProduct(a: int, b: int)
    ensures Product(-a, b) == -Product(a, b)
  {
  }

  lemma QuotientIsNear(num: nat, denom: nat)
    requires num <= denom <= INT16_MAX
    ensures 0 <= 0x8000 * num - Product(Div(num, denom), denom) <= 0x8000
  {
    if 0 < num < denom {
      QuotientIs(num * 0x8000, denom, num * 0x8000 / denom);
    }
  }

  /** An equation of the new order, from two of the old one. */
  lemma OldEquation(a: seq<real>, k: real, r: seq<int16>, x: int)
    requires a != [] && NormalEquations(a, r) && -1.0 <= k <= 1.0 && 1 <= x < |a|
    ensures Within(Filtered(StepUp(a, k), r, x), 0.0, Pow2(|a|) as real)
  {
    hide Filtered, StepUp;
    FilteredStepUp(a, k, r, x);
    BelowOne(k, Filtered(a, r, |a| - x), Pow2(|a| - 1) as real);
  }

  /** The one equation that is new. */
  lemma NewEquation(p: seq<int16>, k: seq<int16>, a: seq<real>, r: seq<int16>)
    requires |p| == 9 && |k| == 9 && 1 <= |a| <= 8 && NearAt(p, k, a, r, 0) && NearAt(p, k, a, r, 1)
    requires SatAbs(p[1]) <= p[0]
    ensures Within(Filtered(StepUp(a, InQ15(Reflection(p[0], p[1]))), r, |a|), 0.0, Pow2(|a|) as real)
  {
    hide Filtered, StepUp, Reflection, InQ15, Scaled;
    var c := InQ15(Reflection(p[0], p[1]));
    CoefficientBelowOne(Reflection(p[0], p[1]));
    FilteredStepUp(a, c, r, |a|);
    ReflectionCancels(p[0], p[1]);
    ScaledIsNear(c, p[0] as real, Filtered(a, r, 0), Slack(|a| - 1));
    SlackDoubles(|a|);
  }

  lemma CoefficientBelowOne(c: int16)
    ensures -1.0 <= InQ15(c) <= 1.0
  {
  }

  lemma ScaledIsNear(k: real, x: real, y: real, e: real)
    requires -1.0 <= k <= 1.0 && Within(x, y, e)
    ensures Within(Scaled(k, x), Scaled(k, y), e)
  {
    ScaledDifference(k, x, y, e);
  }

  lemma SlackDoubles(n: nat)
    requires n >= 1
    ensures 2.0 * Slack(n - 1) + 2.0 <= Pow2(n) as real
  {
  }

  /** In the `m` rounds from round `n` on every guard holds and no addition saturates. */
  predicate CleanRounds(p: seq<int16>, k: seq<int16>, n: nat, m: nat)
    requires |p| == 9 && |k| == 9 && 1 <= n && n + m <= 8
    decreases m
  {
    hide CleanRound, NextP, NextK, Reflection, SatAbs;
    m == 0 ||
    (SatAbs(p[1]) <= p[0]
     && var c := Reflection(p[0], p[1]);
        CleanRound(p, k, n, c) && CleanRounds(NextP(p, k, n, c), NextK(p, k, n, c), n + 1, m - 1))
  }

  lemma RoundKeepsEquations(p: seq<int16>, k: seq<int16>, a: seq<real>, r: seq<int16>)
    requires |p| == 9 && |k| == 9 && 1 <= |a| <= 8 && NearSums(p, k, a, r) && NormalEquations(a, r)
    requires SatAbs(p[1]) <= p[0]
    ensures NormalEquations(StepUp(a, InQ15(Reflection(p[0], p[1]))), r)
  {
    hide NearAt, StepUp, Reflection, InQ15, Filtered, Within, Pow2, SatAbs;
    var c := InQ15(Reflection(p[0], p[1]));
    CoefficientBelowOne(Reflection(p[0], p[1]));
    NewEquation(p, k, a, r);
    forall x | 1 <= x < |a|
      ensures Within(Filtered(StepUp(a, c), r, x), 0.0, Pow2(|a|) as real)
    {
      OldEquation(a, c, r, x);
    }
  }

  /** Along the recursion P and K stay the filtered autocorrelation, and the polynomial of the coefficients
      keeps solving its normal equations. */
  lemma {:induction false} RoundsAreNear(p: seq<int16>, k: seq<int16>, n: nat, m: nat, a: seq<real>, r: seq<int16>)
    requires |p| == 9 && |k| == 9 && 1 <= n && n + m <= 8 && |a| == n
    requires NearSums(p, k, a, r) && NormalEquations(a, r) && CleanRounds(p, k, n, m)
    ensures var (q, b) := (Rounds(p, k, n, m), SteppedUp(a, Schur(p, k, n)[..m]));
            NearSums(q.0, q.1, b, r) && NormalEquations(b, r)
    decreases m
  {
    hide NearSums, NormalEquations, CleanRound, StepUp, NextP, NextK, Reflection, InQ15, SatAbs;
    if m > 0 {
      var c := Reflection(p[0], p[1]);
      ReflectionIsNotMinimal(p[0], p[1]);
      RoundKeepsSums(p, k, n, c, a, r);
      RoundKeepsEquations(p, k, a, r);
      RoundsAreNear(NextP(p, k, n, c), NextK(p, k, n, c), n + 1, m - 1, StepUp(a, InQ15(c)), r);
      SchurPrefix(p, k, n, m);
    } else {
      assert Schur(p, k, n)[..0] == [];
    }
  }

  lemma SchurPrefix(p: seq<int16>, k: seq<int16>, n: nat, m: nat)
    requires |p| == 9 && |k| == 9 && 1 <= n && 1 <= m && n + m <= 8 && SatAbs(p[1]) <= p[0]
    ensures var c := Reflection(p[0], p[1]);
            var head := Schur(p, k, n)[..m];
            head != [] && head[0] == c && head[1..] == Schur(NextP(p, k, n, c), NextK(p, k, n, c), n + 1)[..m - 1]
  {
    hide NextP, NextK, Reflection, SatAbs;
  }

  /** Before the first round. */
  lemma StartIsNear(r: seq<int16>)
    requires |r| == 9
    ensures NearSums(r, Inner(r), [1.0], r) && NormalEquations([1.0], r)
  {
    hide Filtered;
    forall m | 0 <= m <= 8
      ensures NearAt(r, Inner(r), [1.0], r, m)
    {
      FilteredByOne(r, m);
      FilteredByOne(r, 0 - m);
    }
  }

  lemma FilteredByOne(r: seq<int16>, x: int)
    ensures Filtered([1.0], r, x) == Lag(r, x)
  {
    var g := Lags(r, x, 1);
    assert [1.0][1..] == [] && g[1..] == [];
    assert Dot([1.0], g) == 1.0 * g[0] + Dot([], []);
  }

  /** The meaning of the reflection coefficients. For every autocorrelation and every order `n` below eight up
      to which the recursion neither stops nor saturates, P and K are the start of P filtered by the polynomial
      of the coefficients, to within (2^n - 1) / 2, and the polynomial solves the normal equations of its order
      to within 2^n, where lag zero is at least 2^14. */
  lemma CoefficientsPredict(acf: seq<int>, n: nat)
    requires |acf| == 9 && 0 < acf[0] <= INT32_MAX && n <= 7
    requires CleanRounds(Normalised(acf), Inner(Normalised(acf)), 1, n)
    ensures var (r, a) := (Normalised(acf), Polynomial(ReflectionCoefficients(acf)[..n]));
            var q := Rounds(r, Inner(r), 1, n);
            NearSums(q.0, q.1, a, r) && NormalEquations(a, r)
  {
    hide NearSums, NormalEquations, Normalised, CleanRounds, Schur, Rounds, SteppedUp;
    var r := Normalised(acf);
    StartIsNear(r);
    RoundsAreNear(r, Inner(r), 1, n, [1.0], r);
  }

  /** The full order: the eighth coefficient solves the last equation. */
  lemma AllCoefficientsPredict(acf: seq<int>)
    requires |acf| == 9 && 0 < acf[0] <= INT32_MAX
    requires CleanRounds(Normalised(acf), Inner(Normalised(acf)), 1, 7)
    requires var q := Rounds(Normalised(acf), Inner(Normalised(acf)), 1, 7).0; SatAbs(q[1]) <= q[0]
    ensures NormalEquations(Polynomial(ReflectionCoefficients(acf)), Normalised(acf))
  {
    hide NearSums, NormalEquations, Normalised, CleanRounds, Schur, Rounds, SteppedUp, StepUp, Reflection, InQ15,
         SatAbs;
    var r := Normalised(acf);
    var c := ReflectionCoefficients(acf);
    CoefficientsPredict(acf, 7);
    var q := Rounds(r, Inner(r), 1, 7);
    SchurByRounds(r, Inner(r), 1, 7);
    assert c == c[..7] + [Reflection(q.0[0], q.0[1])];
    SteppedUpSnoc([1.0], c[..7], c[7]);
    RoundKeepsEquations(q.0, q.1, Polynomial(c[..7]), r);
  }

  lemma {:induction false} SteppedUpSnoc(a: seq<real>, c: seq<int16>, x: int16)
    ensures SteppedUp(a, c + [x]) == StepUp(SteppedUp(a, c), InQ15(x))
    decreases |c|
  {
    hide StepUp, InQ15;
    if c == [] {
      assert [x][1..] == [];
    } else {
      SteppedUpSnoc(StepUp(a, InQ15(c[0])), c[1..], x);
      assert (c + [x])[1..] == c[1..] + [x];
    }
  }

  // ----- what the lattice computes

  /** Sample `t` of a signal that starts from silence. */
  function SampleAt(s: seq<int16>, t: int): real {
    if 0 <= t < |s| then s[t] as real else 0.0
  }

  /** Samples `t`, `t - 1`, ... , `n` of them. */
  function Recent(s: seq<int16>, t: int, n: nat): (g: seq<real>)
    ensures |g| == n && forall j :: 0 <= j < n ==> g[j] == SampleAt(s, t - j)
  {
    seq(n, j requires 0 <= j < n => SampleAt(s, t - j))
  }

  /** The polynomial of the first `i` coefficients on the latest samples: the forward prediction error. */
  function ForwardError(rp: seq<int16>, i: nat, s: seq<int16>, t: int): real
    requires i <= |rp|
  {
    Dot(Polynomial(rp[..i]), Recent(s, t, i + 1))
  }

  /** The same with the samples in reverse: the backward prediction error. */
  function BackwardError(rp: seq<int16>, i: nat, s: seq<int16>, t: int): real
    requires i <= |rp|
  {
    Dot(Polynomial(rp[..i]), Reversed(Recent(s, t, i + 1)))
  }

  lemma NextPolynomial(rp: seq<int16>, i: nat)
    requires i < |rp|
    ensures Polynomial(rp[..i + 1]) == StepUp(Polynomial(rp[..i]), InQ15(rp[i]))
  {
    hide StepUp, InQ15;
    assert rp[..i + 1] == rp[..i] + [rp[i]];
    SteppedUpSnoc([1.0], rp[..i], rp[i]);
  }

  /** One order more: the lattice equations. */
  lemma LatticeEquations(rp: seq<int16>, i: nat, s: seq<int16>, t: int)
    requires i < |rp|
    ensures ForwardError(rp, i + 1, s, t)
         == ForwardError(rp, i, s, t) + Scaled(InQ15(rp[i]), BackwardError(rp, i, s, t - 1))
    ensures BackwardError(rp, i + 1, s, t)
         == BackwardError(rp, i, s, t - 1) + Scaled(InQ15(rp[i]), ForwardError(rp, i, s, t))
  {
    hide Polynomial, StepUp, Dot, InQ15;
    var a, g := Polynomial(rp[..i]), Recent(s, t, i + 2);
    NextPolynomial(rp, i);
    StepUpOnVector(a, InQ15(rp[i]), g);
    StepUpOnVector(a, InQ15(rp[i]), Reversed(g));
    assert g[..i + 1] == Recent(s, t, i + 1);
    assert g[1..] == Recent(s, t - 1, i + 1);
    assert Reversed(g)[..i + 1] == Reversed(Recent(s, t - 1, i + 1));
    assert Reversed(Reversed(g)[1..]) == Recent(s, t, i + 1);
  }

  /** What the memory of the analysis holds just after sample `t`, in the places below `i`, and just before
      it in the others: the backward errors, up to rounding. */
  predicate MemoryNear(rp: seq<int16>, u: seq<int16>, i: nat, s: seq<int16>, t: int)
    requires |rp| == 8 && |u| == 8
  {
    hide BackwardError, Slack, Within;
    && (forall j :: 0 <= j < 8 && j < i ==> Within(u[j] as real, BackwardError(rp, j, s, t), Slack(j)))
    && (forall j :: i <= j < 8 ==> Within(u[j] as real, BackwardError(rp, j, s, t - 1), Slack(j)))
  }

  lemma {:induction false} StagesAreNear(rp: seq<int16>, u: seq<int16>, i: nat, d: int16, uOut: int16,
                                         s: seq<int16>, t: int)
    requires |rp| == 8 && |u| == 8 && i <= 8 && CleanFrom(rp, u, i, d) && MemoryNear(rp, u, i, s, t)
    requires Within(d as real, ForwardError(rp, i, s, t), Slack(i))
    requires Within(uOut as real, BackwardError(rp, i, s, t), Slack(i))
    ensures var (u1, d1) := AnalyseFrom(rp, u, i, d, uOut);
            MemoryNear(rp, u1, 8, s, t) && Within(d1 as real, ForwardError(rp, 8, s, t), Slack(8))
    decreases 8 - i
  {
    hide ForwardD, ForwardU, ForwardError, BackwardError, Slack, Within, Usable;
    if i < 8 {
      StageIsNear(rp, u[i], i, d, s, t);
      SkippedStage(rp, u, i, uOut, Saturate(ForwardD(rp[i], u[i], d)));
      StagesAreNear(rp, u[i := uOut], i + 1,
                    Saturate(ForwardD(rp[i], u[i], d)), Saturate(ForwardU(rp[i], u[i], d)), s, t);
    }
  }

  lemma StageIsNear(rp: seq<int16>, u: int16, i: nat, d: int16, s: seq<int16>, t: int)
    requires |rp| == 8 && i < 8 && StageClean(rp[i], u, d)
    requires Within(d as real, ForwardError(rp, i, s, t), Slack(i))
    requires Within(u as real, BackwardError(rp, i, s, t - 1), Slack(i))
    ensures Within(Saturate(ForwardD(rp[i], u, d)) as real, ForwardError(rp, i + 1, s, t), Slack(i + 1))
    ensures Within(Saturate(ForwardU(rp[i], u, d)) as real, BackwardError(rp, i + 1, s, t), Slack(i + 1))
  {
    hide ForwardError, BackwardError, Slack, Within, Round15, InQ15, Scaled;
    SlackNext(i);
    LatticeEquations(rp, i, s, t);
    OneAddition(d, u, rp[i], ForwardError(rp, i, s, t), BackwardError(rp, i, s, t - 1), Slack(i));
    OneAddition(u, d, rp[i], BackwardError(rp, i, s, t - 1), ForwardError(rp, i, s, t), Slack(i));
  }

  const EMPTY: seq<int16> := [0, 0, 0, 0, 0, 0, 0, 0]

  /** For every signal on which no stage saturates, from an empty memory: sample by sample the analysis is the
      predictor polynomial of its coefficients, eight samples deep, to within 127.5. */
  lemma {:induction false} AnalysisIsPredictor(rp: seq<int16>, xs: seq<int16>)
    requires |rp| == 8 && CleanRun(rp, EMPTY, xs)
    ensures MemoryNear(rp, AnalyseRun(rp, EMPTY, xs).0, 0, xs, |xs|)
    ensures forall t :: 0 <= t < |xs| ==>
              Within(AnalyseRun(rp, EMPTY, xs).1[t] as real, Dot(Polynomial(rp), Recent(xs, t, 9)), 127.5)
  {
    hide CleanFrom, AnalyseSample, Within, Dot, Polynomial;
    if xs == [] {
      EmptyIsNear(rp);
    } else {
      var n := |xs| - 1;
      AnalysisIsPredictor(rp, xs[..n]);
      SampleIsNear(rp, AnalyseRun(rp, EMPTY, xs[..n]).0, xs);
      forall t | 0 <= t < n
        ensures Recent(xs, t, 9) == Recent(xs[..n], t, 9)
      {
      }
    }
  }

  lemma EmptyIsNear(rp: seq<int16>)
    requires |rp| == 8
    ensures MemoryNear(rp, EMPTY, 0, [], 0)
  {
    hide Polynomial, Slack;
    forall j | 0 <= j < 8
      ensures BackwardError(rp, j, [], -1) == 0.0 && Slack(j) >= 0.0
    {
      SlackNext(j);
      DotOfZeros(Polynomial(rp[..j]), Reversed(Recent([], -1, j + 1)));
    }
  }

  lemma {:induction false} DotOfZeros(a: seq<real>, g: seq<real>)
    requires |a| == |g| && forall j :: 0 <= j < |g| ==> g[j] == 0.0
    ensures Dot(a, g) == 0.0
  {
    if a != [] {
      DotOfZeros(a[1..], g[1..]);
    }
  }

  lemma SampleIsNear(rp: seq<int16>, u: seq<int16>, xs: seq<int16>)
    requires |rp| == 8 && |u| == 8 && xs != [] && MemoryNear(rp, u, 0, xs[..|xs| - 1], |xs| - 1)
    requires CleanFrom(rp, u, 0, xs[|xs| - 1])
    ensures var (u1, d) := AnalyseSample(rp, u, xs[|xs| - 1]);
            && MemoryNear(rp, u1, 0, xs, |xs|)
            && Within(d as real, Dot(Polynomial(rp), Recent(xs, |xs| - 1, 9)), 127.5)
  {
    hide CleanFrom, AnalyseFrom, Slack;
    var n := |xs| - 1;
    var last := n - 1;
    forall j | 0 <= j < 8
      ensures BackwardError(rp, j, xs, last) == BackwardError(rp, j, xs[..n], last)
    {
      assert Recent(xs, last, j + 1) == Recent(xs[..n], last, j + 1);
    }
    ZerothErrors(rp, xs, n);
    StagesAreNear(rp, u, 0, xs[n], xs[n], xs, n);
    assert rp[..8] == rp;
    LastSlack();
  }

  lemma ZerothErrors(rp: seq<int16>, s: seq<int16>, t: nat)
    requires t < |s|
    ensures ForwardError(rp, 0, s, t) == BackwardError(rp, 0, s, t) == s[t] as real && Slack(0) == 0.0
  {
    assert rp[..0] == [];
    var g := Recent(s, t, 1);
    assert Reversed(g) == g && g[1..] == [] && [1.0][1..] == [];
    assert Dot([1.0], g) == 1.0 * g[0] + Dot([], []);
  }

  lemma LastSlack()
    ensures Slack(8) == 127.5
  {
    assert Pow2(8) == 256;
  }
}
