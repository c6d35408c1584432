/** Short-term filtering of the GSM 06.10 coder (jni/spandsp/gsm0610_short_term.c, sections 4.2.8 to
    4.2.10 and 4.3.4 of GSM 06.10): decoding and interpolation of the log area ratios, and the
    lattice filters of the encoder and the decoder, which are shown to undo each other exactly. */
module GsmShortTerm {
  import opened FixedPoint
  import Bits

  // ----- 4.2.8: decoding of the log area ratios

  datatype Decoding = Decoding(b: int16, mic: int16, inva: int16)

  function DecodingOf(i: nat): Decoding
    requires i < 8
  {
    if i == 0 then Decoding(0, -32, 13107)
    else if i == 1 then Decoding(0, -32, 13107)
    else if i == 2 then Decoding(2048, -16, 13107)
    else if i == 3 then Decoding(-2560, -16, 13107)
    else if i == 4 then Decoding(94, -8, 19223)
    else if i == 5 then Decoding(-1792, -8, 17476)
    else if i == 6 then Decoding(-341, -4, 31454)
    else Decoding(-1144, -4, 29708)
  }

  /** The STEP macro. */
  function DecodedLar(larc: int16, c: Decoding): int16 {
    var temp1 := Shl16(SatAdd(larc, c.mic), 10);
    var temp2 := SatSub(temp1, ToInt16(Double(c.b)));
    var temp3 := MultR(c.inva, temp2);
    SatAdd(temp3, temp3)
  }

  function Double(x: int): int {
    2 * x
  }

  function DecodedLars(larc: seq<int16>): (r: seq<int16>)
    requires |larc| == 8
    ensures |r| == 8
    ensures forall i :: 0 <= i < 8 ==> r[i] == DecodedLar(larc[i], DecodingOf(i))
  {
    hide DecodedLar, DecodingOf;
    seq(8, i requires 0 <= i < 8 => DecodedLar(larc[i], DecodingOf(i)))
  }

  // ----- 4.2.9: interpolation and conversion to reflection coefficients

  function ToReflection(larp: int16): (r: int16)
    ensures r != INT16_MIN
  {
    if larp < 0 then Negated(RpMagnitude(if larp == INT16_MIN then INT16_MAX else Negated(larp)))
    else RpMagnitude(larp)
  }

  function Negated(x: int): int {
    -x
  }

  function RpMagnitude(t: int16): (r: int16)
    requires 0 <= t
    ensures 0 <= r
  {
    if t < 11059 then 2 * t else if t < 20070 then t + 11059 else SatAdd(t / 4, 26112)
  }

  /** The four interpolation rules, by the sample at which they start. */
  datatype Segment = From0 | From13 | From27 | From40

  function Interpolated(seg: Segment, before: int16, now: int16): int16 {
    match seg
    case From0 => SatAdd(SatAdd(before / 4, now / 4), before / 2)
    case From13 => SatAdd(before / 2, now / 2)
    case From27 => SatAdd(SatAdd(before / 4, now / 4), now / 2)
    case From40 => now
  }

  /** The four rules mix the older and the newer ratio three to one, one to one, one to three and none to
      one, up to the bits that the shifts drop. */
  lemma InterpolatedIsMix(before: int16, now: int16)
    ensures 0 <= 3 * before + now - 4 * Interpolated(From0, before, now) <= 8
    ensures 0 <= before + now - 2 * Interpolated(From13, before, now) <= 2
    ensures 0 <= before + 3 * now - 4 * Interpolated(From27, before, now) <= 8
    ensures Interpolated(From40, before, now) == now
  {
  }

  function Coefficients(seg: Segment, before: seq<int16>, now: seq<int16>): (rp: seq<int16>)
    requires |before| == 8 && |now| == 8
    ensures |rp| == 8 && Usable(rp)
    ensures forall i :: 0 <= i < 8 ==> rp[i] == ToReflection(Interpolated(seg, before[i], now[i]))
  {
    hide Interpolated;
    seq(8, i requires 0 <= i < 8 => ToReflection(Interpolated(seg, before[i], now[i])))
  }

  /** No coefficient is -32768. */
  predicate Usable(rp: seq<int16>) {
    forall i :: 0 <= i < |rp| ==> rp[i] != INT16_MIN
  }

  // ----- 4.2.10: one stage of the lattice

  function ForwardD(rp: int16, u: int16, d: int16): int {
    d + Round15(Times(rp, u))
  }

  function ForwardU(rp: int16, u: int16, d: int16): int {
    u + Round15(Times(rp, d))
  }

  function Times(a: int, b: int): int {
    a * b
  }

  predicate StageClean(rp: int16, u: int16, d: int16) {
    IsInt16(ForwardD(rp, u, d)) && IsInt16(ForwardU(rp, u, d))
  }

  function BackwardD(rp: int16, u: int16, d: int16): int16 {
    SatSub(d, MultR(rp, u))
  }

  function BackwardU(rp: int16, u: int16, d: int16): int16 {
    SatAdd(u, MultR(rp, d))
  }

  /** The synthesis stage gives back both inputs of an analysis stage that did not saturate, except
      when a coefficient of -32768 meets a sample of -32768: there the analysis forms a product of
      32768 that the synthesis limits to 32767. */
  lemma StageInverts(rp: int16, u: int16, d: int16)
    requires StageClean(rp, u, d)
    ensures (var back := BackwardD(rp, u, ForwardD(rp, u, d));
             back == d && BackwardU(rp, u, back) as int == ForwardU(rp, u, d))
            <==> !(rp == INT16_MIN && (u == INT16_MIN || d == INT16_MIN))
  {
    hide Round15, MultR;
    RoundedTimes(rp, u);
    RoundedTimes(rp, d);
  }

  /** An input on which the stages do not invert: nothing saturates in the analysis, and the
      synthesis comes back one too high. */
  lemma MinimalCoefficientFails()
    ensures StageClean(INT16_MIN, INT16_MIN, -1)
    ensures BackwardD(INT16_MIN, INT16_MIN, ForwardD(INT16_MIN, INT16_MIN, -1)) == 0
  {
  }

  lemma RoundedTimes(a: int16, b: int16)
    ensures a == INT16_MIN && b == INT16_MIN ==> Round15(Times(a, b)) == 0x8000 && MultR(a, b) == INT16_MAX
    ensures !(a == INT16_MIN && b == INT16_MIN) ==> MultR(a, b) as int == Round15(Times(a, b))
  {
    if !(a == INT16_MIN && b == INT16_MIN) {
      MultRExact(a, b);
    }
  }

  // ----- one sample through the lattice

  /** Stages `i` to 7 of the analysis: the new filter memory and the residual. */
  function AnalyseFrom(rp: seq<int16>, u: seq<int16>, i: nat, d: int16, uOut: int16): (r: (seq<int16>, int16))
    requires |rp| == 8 && |u| == 8 && i <= 8
    ensures |r.0| == 8
    decreases 8 - i
  {
    hide ForwardD, ForwardU;
    if i == 8 then (u, d)
    else AnalyseFrom(rp, u[i := uOut], i + 1,
                     Saturate(ForwardD(rp[i], u[i], d)), Saturate(ForwardU(rp[i], u[i], d)))
  }

  function AnalyseSample(rp: seq<int16>, u: seq<int16>, s: int16): (r: (seq<int16>, int16))
    requires |rp| == 8 && |u| == 8
    ensures |r.0| == 8
  {
    AnalyseFrom(rp, u, 0, s, s)
  }

  /** No stage from `i` on saturates. */
  predicate CleanFrom(rp: seq<int16>, u: seq<int16>, i: nat, d: int16)
    requires |rp| == 8 && |u| == 8 && i <= 8
    decreases 8 - i
  {
    hide StageClean, ForwardD;
    i == 8 ||
    (StageClean(rp[i], u[i], d) && CleanFrom(rp, u, i + 1, Saturate(ForwardD(rp[i], u[i], d))))
  }

  /** Stages 7 down to `i` of the synthesis, on nine memory cells. */
  function SynthesiseDown(rp: seq<int16>, v: seq<int16>, i: nat, d: int16): (r: (seq<int16>, int16))
    requires |rp| == 8 && |v| == 9 && i <= 8
    ensures |r.0| == 9
    ensures forall j :: 0 <= j <= i ==> r.0[j] == v[j]
    decreases 8 - i
  {
    hide BackwardD, BackwardU;
    if i == 8 then (v, d)
    else
      var (v1, d1) := SynthesiseDown(rp, v, i + 1, d);
      var sri := BackwardD(rp[i], v1[i], d1);
      (v1[i + 1 := BackwardU(rp[i], v1[i], sri)], sri)
  }

  function SynthesiseSample(rp: seq<int16>, v: seq<int16>, d: int16): (r: (seq<int16>, int16))
    requires |rp| == 8 && |v| == 9
    ensures |r.0| == 9
  {
    var (v1, sri) := SynthesiseDown(rp, v, 0, d);
    (v1[0 := sri], sri)
  }

  lemma {:induction false} MemoryBelow(rp: seq<int16>, u: seq<int16>, i: nat, d: int16, uOut: int16)
    requires |rp| == 8 && |u| == 8 && i <= 8
    ensures forall j :: 0 <= j < i ==> AnalyseFrom(rp, u, i, d, uOut).0[j] == u[j]
    ensures i < 8 ==> AnalyseFrom(rp, u, i, d, uOut).0[i] == uOut
    decreases 8 - i
  {
    hide ForwardD, ForwardU;
    if i < 8 {
      MemoryBelow(rp, u[i := uOut], i + 1,
                  Saturate(ForwardD(rp[i], u[i], d)), Saturate(ForwardU(rp[i], u[i], d)));
    }
  }

  /** Running the synthesis stages down to `i` recovers the analysis signals that entered stage `i`,
      and leaves the analysis memory above it. */
  lemma {:induction false} StagesInvert(rp: seq<int16>, u: seq<int16>, v: seq<int16>, i: nat, d: int16, uOut: int16)
    requires |rp| == 8 && |u| == 8 && |v| == 9 && i <= 8 && Usable(rp)
    requires forall j :: i <= j < 8 ==> v[j] == u[j]
    requires CleanFrom(rp, u, i, d)
    ensures var (u1, r) := AnalyseFrom(rp, u, i, d, uOut);
            var (v1, back) := SynthesiseDown(rp, v, i, r);
            back == d && forall j :: i < j < 8 ==> v1[j] == u1[j]
    decreases 8 - i
  {
    hide ForwardD, ForwardU, BackwardD, BackwardU;
    if i < 8 {
      var dNext, uNext := Saturate(ForwardD(rp[i], u[i], d)), Saturate(ForwardU(rp[i], u[i], d));
      SkippedStage(rp, u, i, uOut, dNext);
      StagesInvert(rp, u[i := uOut], v, i + 1, dNext, uNext);
      StageInverts(rp[i], u[i], d);
      MemoryBelow(rp, u[i := uOut], i + 1, dNext, uNext);
    }
  }

  /** Stages from `i + 1` on do not look at memory cell `i`. */
  lemma SkippedStage(rp: seq<int16>, u: seq<int16>, i: nat, x: int16, d: int16)
    requires |rp| == 8 && |u| == 8 && i < 8
    ensures CleanFrom(rp, u[i := x], i + 1, d) == CleanFrom(rp, u, i + 1, d)
  {
    CleanLooksAhead(rp, u, u[i := x], i + 1, d);
  }

  lemma {:induction false} CleanLooksAhead(rp: seq<int16>, u: seq<int16>, w: seq<int16>, i: nat, d: int16)
    requires |rp| == 8 && |u| == 8 && |w| == 8 && i <= 8
    requires forall j :: i <= j < 8 ==> u[j] == w[j]
    ensures CleanFrom(rp, u, i, d) == CleanFrom(rp, w, i, d)
    decreases 8 - i
  {
    hide StageClean, ForwardD;
    if i < 8 {
      CleanLooksAhead(rp, u, w, i + 1, Saturate(ForwardD(rp[i], u[i], d)));
    }
  }

  /** One sample: the synthesis filter fed the residual returns the sample bit for bit, and its
      first eight memory cells are the analysis memory again. */
  lemma SampleInverts(rp: seq<int16>, u: seq<int16>, v: seq<int16>, s: int16)
    requires |rp| == 8 && |u| == 8 && |v| == 9 && Usable(rp) && v[..8] == u
    requires CleanFrom(rp, u, 0, s)
    ensures var (u1, r) := AnalyseSample(rp, u, s);
            var (v1, back) := SynthesiseSample(rp, v, r);
            back == s && v1[..8] == u1
  {
    hide AnalyseFrom, SynthesiseDown, CleanFrom;
    assert forall j :: 0 <= j < 8 ==> v[j] == v[..8][j];
    StagesInvert(rp, u, v, 0, s, s);
    MemoryBelow(rp, u, 0, s, s);
  }

  // ----- whole signals

  function AnalyseRun(rp: seq<int16>, u: seq<int16>, xs: seq<int16>): (r: (seq<int16>, seq<int16>))
    requires |rp| == 8 && |u| == 8
    ensures |r.0| == 8 && |r.1| == |xs|
  {
    hide AnalyseSample;
    if xs == [] then (u, [])
    else
      var (u1, ds) := AnalyseRun(rp, u, xs[..|xs| - 1]);
      var (u2, d) := AnalyseSample(rp, u1, xs[|xs| - 1]);
      (u2, ds + [d])
  }

  function SynthesiseRun(rp: seq<int16>, v: seq<int16>, ds: seq<int16>): (r: (seq<int16>, seq<int16>))
    requires |rp| == 8 && |v| == 9
    ensures |r.0| == 9 && |r.1| == |ds|
  {
    hide SynthesiseSample;
    if ds == [] then (v, [])
    else
      var (v1, xs) := SynthesiseRun(rp, v, ds[..|ds| - 1]);
      var (v2, x) := SynthesiseSample(rp, v1, ds[|ds| - 1]);
      (v2, xs + [x])
  }

  /** No stage saturates on any sample of the signal. */
  predicate CleanRun(rp: seq<int16>, u: seq<int16>, xs: seq<int16>)
    requires |rp| == 8 && |u| == 8
  {
    hide CleanFrom;
    xs == [] ||
    (CleanRun(rp, u, xs[..|xs| - 1])
     && CleanFrom(rp, AnalyseRun(rp, u, xs[..|xs| - 1]).0, 0, xs[|xs| - 1]))
  }

  /** For every signal on which the analysis does not saturate, synthesis inverts analysis. */
  lemma {:induction false} RunInverts(rp: seq<int16>, u: seq<int16>, v: seq<int16>, xs: seq<int16>)
    requires |rp| == 8 && |u| == 8 && |v| == 9 && Usable(rp) && v[..8] == u
    requires CleanRun(rp, u, xs)
    ensures var (u1, ds) := AnalyseRun(rp, u, xs);
            var (v1, back) := SynthesiseRun(rp, v, ds);
            back == xs && v1[..8] == u1
  {
    hide AnalyseSample, SynthesiseSample, CleanFrom;
    if xs != [] {
      var n := |xs| - 1;
      RunInverts(rp, u, v, xs[..n]);
      var (u1, ds) := AnalyseRun(rp, u, xs[..n]);
      var v1 := SynthesiseRun(rp, v, ds).0;
      SampleInverts(rp, u1, v1, xs[n]);
      var d := AnalyseSample(rp, u1, xs[n]).1;
      assert (ds + [d])[..|ds + [d]| - 1] == ds;
    }
  }

  // ----- a frame: four segments with their own coefficients

  /** The two sets of decoded ratios and the toggle that says which one is the older. */
  datatype LarMemory = LarMemory(larpp: seq<seq<int16>>, j: nat)

  predicate LarOk(m: LarMemory) {
    |m.larpp| == 2 && |m.larpp[0]| == 8 && |m.larpp[1]| == 8 && m.j <= 1
  }

  /** The memory after a reset. */
  function NoLars(): (m: LarMemory)
    ensures LarOk(m)
  {
    LarMemory([[0, 0, 0, 0, 0, 0, 0, 0], [0, 0, 0, 0, 0, 0, 0, 0]], 0)
  }

  function Before(m: LarMemory): (r: seq<int16>)
    requires LarOk(m)
    ensures |r| == 8
  {
    m.larpp[1 - m.j]
  }

  /** The new ratios replace the older set and the toggle flips. */
  function Updated(m: LarMemory, larc: seq<int16>): (r: LarMemory)
    requires LarOk(m) && |larc| == 8
    ensures LarOk(r)
  {
    LarMemory(m.larpp[m.j := DecodedLars(larc)], 1 - m.j)
  }

  function SegmentCoefficients(seg: Segment, m: LarMemory, larc: seq<int16>): (rp: seq<int16>)
    requires LarOk(m) && |larc| == 8
    ensures |rp| == 8 && Usable(rp)
  {
    Coefficients(seg, Before(m), DecodedLars(larc))
  }

  /** `gsm0610_short_term_analysis_filter` on one frame. */
  function AnalyseFrame(m: LarMemory, u: seq<int16>, larc: seq<int16>, s: seq<int16>): (r: (seq<int16>, seq<int16>))
    requires LarOk(m) && |u| == 8 && |larc| == 8 && |s| == 160
    ensures |r.0| == 8 && |r.1| == 160
  {
    hide SegmentCoefficients, AnalyseRun;
    var (u1, d1) := AnalyseRun(SegmentCoefficients(From0, m, larc), u, s[..13]);
    var (u2, d2) := AnalyseRun(SegmentCoefficients(From13, m, larc), u1, s[13..27]);
    var (u3, d3) := AnalyseRun(SegmentCoefficients(From27, m, larc), u2, s[27..40]);
    var (u4, d4) := AnalyseRun(SegmentCoefficients(From40, m, larc), u3, s[40..]);
    (u4, d1 + d2 + d3 + d4)
  }

  /** `gsm0610_short_term_synthesis_filter` on one frame. */
  function SynthesiseFrame(m: LarMemory, v: seq<int16>, larc: seq<int16>, d: seq<int16>): (r: (seq<int16>, seq<int16>))
    requires LarOk(m) && |v| == 9 && |larc| == 8 && |d| == 160
    ensures |r.0| == 9 && |r.1| == 160
  {
    hide SegmentCoefficients, SynthesiseRun;
    var (v1, s1) := SynthesiseRun(SegmentCoefficients(From0, m, larc), v, d[..13]);
    var (v2, s2) := SynthesiseRun(SegmentCoefficients(From13, m, larc), v1, d[13..27]);
    var (v3, s3) := SynthesiseRun(SegmentCoefficients(From27, m, larc), v2, d[27..40]);
    var (v4, s4) := SynthesiseRun(SegmentCoefficients(From40, m, larc), v3, d[40..]);
    (v4, s1 + s2 + s3 + s4)
  }

  predicate CleanFrame(m: LarMemory, u: seq<int16>, larc: seq<int16>, s: seq<int16>)
    requires LarOk(m) && |u| == 8 && |larc| == 8 && |s| == 160
  {
    hide SegmentCoefficients, AnalyseRun, CleanRun;
    var u1 := AnalyseRun(SegmentCoefficients(From0, m, larc), u, s[..13]).0;
    var u2 := AnalyseRun(SegmentCoefficients(From13, m, larc), u1, s[13..27]).0;
    var u3 := AnalyseRun(SegmentCoefficients(From27, m, larc), u2, s[27..40]).0;
    && CleanRun(SegmentCoefficients(From0, m, larc), u, s[..13])
    && CleanRun(SegmentCoefficients(From13, m, larc), u1, s[13..27])
    && CleanRun(SegmentCoefficients(From27, m, larc), u2, s[27..40])
    && CleanRun(SegmentCoefficients(From40, m, larc), u3, s[40..])
  }

  /** Across all coefficient switches of a frame, with whatever codes: if the analysis does not
      saturate, the decoder's short-term filter fed its residual returns the frame bit for bit. */
  lemma FrameInverts(m: LarMemory, u: seq<int16>, v: seq<int16>, larc: seq<int16>, s: seq<int16>)
    requires LarOk(m) && |u| == 8 && |v| == 9 && |larc| == 8 && |s| == 160 && v[..8] == u
    requires CleanFrame(m, u, larc, s)
    ensures var (u1, d) := AnalyseFrame(m, u, larc, s);
            var (v1, back) := SynthesiseFrame(m, v, larc, d);
            back == s && v1[..8] == u1
  {
    hide SegmentCoefficients, AnalyseRun, SynthesiseRun, CleanRun, Usable;
    var (u1, d1) := AnalyseRun(SegmentCoefficients(From0, m, larc), u, s[..13]);
    RunInverts(SegmentCoefficients(From0, m, larc), u, v, s[..13]);
    var v1 := SynthesiseRun(SegmentCoefficients(From0, m, larc), v, d1).0;
    var (u2, d2) := AnalyseRun(SegmentCoefficients(From13, m, larc), u1, s[13..27]);
    RunInverts(SegmentCoefficients(From13, m, larc), u1, v1, s[13..27]);
    var v2 := SynthesiseRun(SegmentCoefficients(From13, m, larc), v1, d2).0;
    var (u3, d3) := AnalyseRun(SegmentCoefficients(From27, m, larc), u2, s[27..40]);
    RunInverts(SegmentCoefficients(From27, m, larc), u2, v2, s[27..40]);
    var v3 := SynthesiseRun(SegmentCoefficients(From27, m, larc), v2, d3).0;
    RunInverts(SegmentCoefficients(From40, m, larc), u3, v3, s[40..]);
    var d4 := AnalyseRun(SegmentCoefficients(From40, m, larc), u3, s[40..]).1;
    FourParts(d1, d2, d3, d4);
    assert s[..13] + s[13..27] + s[27..40] + s[40..] == s;
  }

  lemma FourParts(a: seq<int16>, b: seq<int16>, c: seq<int16>, d: seq<int16>)
    requires |a| == 13 && |b| == 14 && |c| == 13 && |d| == 120
    ensures var s := a + b + c + d;
            s[..13] == a && s[13..27] == b && s[27..40] == c && s[40..] == d
  {
  }

  // ----- a frame, sample by sample

  /** Which rule holds for sample `k` of a frame. */
  function SegmentAt(k: nat): Segment {
    if k <= 12 then From0 else if k <= 26 then From13 else if k <= 39 then From27 else From40
  }

  /** The first `k` samples of a frame through the analysis, each with the coefficients of its own place. */
  function AnalyseUpTo(m: LarMemory, u: seq<int16>, larc: seq<int16>, s: seq<int16>, k: nat)
    : (r: (seq<int16>, seq<int16>))
    requires LarOk(m) && |u| == 8 && |larc| == 8 && k <= |s|
    ensures |r.0| == 8 && |r.1| == k
  {
    hide AnalyseSample, SegmentCoefficients, LarOk;
    if k == 0 then (u, [])
    else
      var (u1, ds) := AnalyseUpTo(m, u, larc, s, k - 1);
      var (u2, d) := AnalyseSample(SegmentCoefficients(SegmentAt(k - 1), m, larc), u1, s[k - 1]);
      (u2, ds + [d])
  }

  function SynthesiseUpTo(m: LarMemory, v: seq<int16>, larc: seq<int16>, d: seq<int16>, k: nat)
    : (r: (seq<int16>, seq<int16>))
    requires LarOk(m) && |v| == 9 && |larc| == 8 && k <= |d|
    ensures |r.0| == 9 && |r.1| == k
  {
    hide SynthesiseSample, SegmentCoefficients, LarOk;
    if k == 0 then (v, [])
    else
      var (v1, xs) := SynthesiseUpTo(m, v, larc, d, k - 1);
      var (v2, x) := SynthesiseSample(SegmentCoefficients(SegmentAt(k - 1), m, larc), v1, d[k - 1]);
      (v2, xs + [x])
  }

  lemma {:induction false} AnalyseStretch(m: LarMemory, u: seq<int16>, larc: seq<int16>, s: seq<int16>, seg: Segment,
                                          lo: nat, k: nat)
    requires LarOk(m) && |u| == 8 && |larc| == 8 && lo <= k <= |s|
    requires forall i :: lo <= i < k ==> SegmentAt(i) == seg
    ensures var (u1, ds) := AnalyseUpTo(m, u, larc, s, lo);
            var (u2, more) := AnalyseRun(SegmentCoefficients(seg, m, larc), u1, s[lo..k]);
            AnalyseUpTo(m, u, larc, s, k) == (u2, ds + more)
  {
    hide AnalyseSample, SegmentCoefficients, LarOk, SegmentAt;
    if k == lo {
      assert AnalyseUpTo(m, u, larc, s, lo).1 + [] == AnalyseUpTo(m, u, larc, s, lo).1;
    } else {
      AnalyseStretch(m, u, larc, s, seg, lo, k - 1);
      assert s[lo..k][..k - 1 - lo] == s[lo..k - 1];
      assert SegmentAt(k - 1) == seg;
      var (u1, ds) := AnalyseUpTo(m, u, larc, s, lo);
      var (u2, more) := AnalyseRun(SegmentCoefficients(seg, m, larc), u1, s[lo..k - 1]);
      Bits.ConcatAssoc(ds, more, [AnalyseSample(SegmentCoefficients(seg, m, larc), u2, s[k - 1]).1]);
    }
  }

  lemma {:induction false} SynthesiseStretch(m: LarMemory, v: seq<int16>, larc: seq<int16>, d: seq<int16>, seg: Segment,
                                             lo: nat, k: nat)
    requires LarOk(m) && |v| == 9 && |larc| == 8 && lo <= k <= |d|
    requires forall i :: lo <= i < k ==> SegmentAt(i) == seg
    ensures var (v1, xs) := SynthesiseUpTo(m, v, larc, d, lo);
            var (v2, more) := SynthesiseRun(SegmentCoefficients(seg, m, larc), v1, d[lo..k]);
            SynthesiseUpTo(m, v, larc, d, k) == (v2, xs + more)
  {
    hide SynthesiseSample, SegmentCoefficients, LarOk, SegmentAt;
    if k == lo {
      assert SynthesiseUpTo(m, v, larc, d, lo).1 + [] == SynthesiseUpTo(m, v, larc, d, lo).1;
    } else {
      SynthesiseStretch(m, v, larc, d, seg, lo, k - 1);
      assert d[lo..k][..k - 1 - lo] == d[lo..k - 1];
      assert SegmentAt(k - 1) == seg;
      var (v1, xs) := SynthesiseUpTo(m, v, larc, d, lo);
      var (v2, more) := SynthesiseRun(SegmentCoefficients(seg, m, larc), v1, d[lo..k - 1]);
      Bits.ConcatAssoc(xs, more, [SynthesiseSample(SegmentCoefficients(seg, m, larc), v2, d[k - 1]).1]);
    }
  }

  /** A frame is filtered sample by sample with one of four coefficient sets, chosen by the place of the
      sample: both filters switch at samples 13, 27 and 40. */
  lemma FrameBySample(m: LarMemory, u: seq<int16>, larc: seq<int16>, s: seq<int16>)
    requires LarOk(m) && |u| == 8 && |larc| == 8 && |s| == 160
    ensures AnalyseFrame(m, u, larc, s) == AnalyseUpTo(m, u, larc, s, 160)
  {
    hide AnalyseRun, SegmentCoefficients, LarOk, AnalyseUpTo;
    assert s[0..13] == s[..13] && s[40..160] == s[40..];
    NothingAnalysed(m, u, larc, s);
    AnalyseStretch(m, u, larc, s, From0, 0, 13);
    var a := AnalyseRun(SegmentCoefficients(From0, m, larc), u, s[..13]);
    assert [] + a.1 == a.1;
    AnalyseStretch(m, u, larc, s, From13, 13, 27);
    var b := AnalyseRun(SegmentCoefficients(From13, m, larc), a.0, s[13..27]);
    AnalyseStretch(m, u, larc, s, From27, 27, 40);
    var c := AnalyseRun(SegmentCoefficients(From27, m, larc), b.0, s[27..40]);
    assert AnalyseUpTo(m, u, larc, s, 40) == (c.0, a.1 + b.1 + c.1);
    AnalyseStretch(m, u, larc, s, From40, 40, 160);
  }

  lemma NothingAnalysed(m: LarMemory, u: seq<int16>, larc: seq<int16>, s: seq<int16>)
    requires LarOk(m) && |u| == 8 && |larc| == 8
    ensures AnalyseUpTo(m, u, larc, s, 0) == (u, [])
  {
  }

  lemma SynthesisedBySample(m: LarMemory, v: seq<int16>, larc: seq<int16>, d: seq<int16>)
    requires LarOk(m) && |v| == 9 && |larc| == 8 && |d| == 160
    ensures SynthesiseFrame(m, v, larc, d) == SynthesiseUpTo(m, v, larc, d, 160)
  {
    hide SynthesiseRun, SegmentCoefficients, LarOk, SynthesiseUpTo;
    assert d[0..13] == d[..13] && d[40..160] == d[40..];
    NothingSynthesised(m, v, larc, d);
    SynthesiseStretch(m, v, larc, d, From0, 0, 13);
    var a := SynthesiseRun(SegmentCoefficients(From0, m, larc), v, d[..13]);
    assert [] + a.1 == a.1;
    SynthesiseStretch(m, v, larc, d, From13, 13, 27);
    var b := SynthesiseRun(SegmentCoefficients(From13, m, larc), a.0, d[13..27]);
    SynthesiseStretch(m, v, larc, d, From27, 27, 40);
    var c := SynthesiseRun(SegmentCoefficients(From27, m, larc), b.0, d[27..40]);
    assert SynthesiseUpTo(m, v, larc, d, 40) == (c.0, a.1 + b.1 + c.1);
    SynthesiseStretch(m, v, larc, d, From40, 40, 160);
  }

  lemma NothingSynthesised(m: LarMemory, v: seq<int16>, larc: seq<int16>, d: seq<int16>)
    requires LarOk(m) && |v| == 9 && |larc| == 8
    ensures SynthesiseUpTo(m, v, larc, d, 0) == (v, [])
  {
  }

  /** The ratios of a frame are the older ones of the next frame, and of that frame only. */
  lemma RatiosAreRemembered(m: LarMemory, larc: seq<int16>, next: seq<int16>)
    requires LarOk(m) && |larc| == 8 && |next| == 8
    ensures Before(Updated(m, larc)) == DecodedLars(larc)
    ensures Before(Updated(Updated(m, larc), next)) == DecodedLars(next)
  {
  }

  // ----- any number of frames

  /** A frame of samples with the codes it is filtered by. */
  datatype Block = Block(larc: seq<int16>, samples: seq<int16>)

  predicate BlockOk(b: Block) {
    |b.larc| == 8 && |b.samples| == 160
  }

  predicate BlocksOk(bs: seq<Block>) {
    forall i :: 0 <= i < |bs| ==> BlockOk(bs[i])
  }

  datatype Lattice = Lattice(m: LarMemory, memory: seq<int16>, blocks: seq<Block>)

  function AnalyseBlocks(m: LarMemory, u: seq<int16>, bs: seq<Block>): (r: Lattice)
    requires LarOk(m) && |u| == 8 && BlocksOk(bs)
    ensures LarOk(r.m) && |r.memory| == 8 && |r.blocks| == |bs| && BlocksOk(r.blocks)
  {
    hide AnalyseFrame, Updated, LarOk;
    if bs == [] then Lattice(m, u, [])
    else
      var before := AnalyseBlocks(m, u, bs[..|bs| - 1]);
      var b := bs[|bs| - 1];
      var (u1, d) := AnalyseFrame(before.m, before.memory, b.larc, b.samples);
      Lattice(Updated(before.m, b.larc), u1, before.blocks + [Block(b.larc, d)])
  }

  function SynthesiseBlocks(m: LarMemory, v: seq<int16>, bs: seq<Block>): (r: Lattice)
    requires LarOk(m) && |v| == 9 && BlocksOk(bs)
    ensures LarOk(r.m) && |r.memory| == 9 && |r.blocks| == |bs| && BlocksOk(r.blocks)
  {
    hide SynthesiseFrame, Updated, LarOk;
    if bs == [] then Lattice(m, v, [])
    else
      var before := SynthesiseBlocks(m, v, bs[..|bs| - 1]);
      var b := bs[|bs| - 1];
      var (v1, s) := SynthesiseFrame(before.m, before.memory, b.larc, b.samples);
      Lattice(Updated(before.m, b.larc), v1, before.blocks + [Block(b.larc, s)])
  }

  /** No stage saturates on any sample of any frame. */
  predicate CleanBlocks(m: LarMemory, u: seq<int16>, bs: seq<Block>)
    requires LarOk(m) && |u| == 8 && BlocksOk(bs)
  {
    hide AnalyseBlocks, CleanFrame, LarOk;
    bs == [] ||
    (var n := |bs| - 1;
     var before := AnalyseBlocks(m, u, bs[..n]);
     CleanBlocks(m, u, bs[..n]) && CleanFrame(before.m, before.memory, bs[n].larc, bs[n].samples))
  }

  /** For a signal of any number of frames with any codes: if the analysis does not saturate, the
      synthesis fed its residuals returns every frame bit for bit, through all the switches of
      coefficients inside and between frames. */
  lemma {:induction false} SignalInverts(m: LarMemory, u: seq<int16>, v: seq<int16>, bs: seq<Block>)
    requires LarOk(m) && |u| == 8 && |v| == 9 && v[..8] == u && BlocksOk(bs)
    requires CleanBlocks(m, u, bs)
    ensures var sent := AnalyseBlocks(m, u, bs);
            var back := SynthesiseBlocks(m, v, sent.blocks);
            back.blocks == bs && back.m == sent.m && back.memory[..8] == sent.memory
  {
    hide AnalyseFrame, SynthesiseFrame, CleanFrame, Updated, LarOk, BlockOk;
    if bs != [] {
      var n := |bs| - 1;
      SignalInverts(m, u, v, bs[..n]);
      var before := AnalyseBlocks(m, u, bs[..n]);
      var back := SynthesiseBlocks(m, v, before.blocks);
      assert BlockOk(bs[n]);
      SizesAre(bs[n]);
      FrameInverts(before.m, before.memory, back.memory, bs[n].larc, bs[n].samples);
      var all := AnalyseBlocks(m, u, bs).blocks;
      assert all[..n] == before.blocks;
    }
  }

  lemma SizesAre(b: Block)
    requires BlockOk(b)
    ensures |b.larc| == 8 && |b.samples| == 160
  {
  }

  // ----- the C routines

  /** `decode_log_area_ratios`: the STEP macro on each of the eight codes. */
  method DecodeLogAreaRatios(larc: seq<int16>) returns (larpp: seq<int16>)
    requires |larc| == 8
    ensures larpp == DecodedLars(larc)
  {
    hide Shl16, SatAdd, SatSub, MultR, DecodingOf, ToInt16;
    larpp := [];
    var i := 0;
    while i < 8
      invariant 0 <= i <= 8 && larpp == DecodedLars(larc)[..i]
    {
      var c := DecodingOf(i);
      var temp1: int := Shl16(SatAdd(larc[i], c.mic), 10);
      temp1 := SatSub(temp1, ToInt16(Double(c.b)));
      temp1 := MultR(c.inva, temp1);
      larpp := larpp + [SatAdd(temp1, temp1)];
      i := i + 1;
    }
  }

  /** `coefficients_0_12` and its three siblings. */
  method Interpolate(seg: Segment, before: seq<int16>, now: seq<int16>, larp: array<int16>)
    requires |before| == 8 && |now| == 8 && larp.Length == 8
    modifies larp
    ensures forall i :: 0 <= i < 8 ==> larp[i] == Interpolated(seg, before[i], now[i])
  {
    hide SatAdd;
    var i := 0;
    while i < 8
      invariant 0 <= i <= 8
      invariant forall j :: 0 <= j < i ==> larp[j] == Interpolated(seg, before[j], now[j])
    {
      match seg {
        case From0 =>
          larp[i] := SatAdd(before[i] / 4, now[i] / 4);
          larp[i] := SatAdd(larp[i], before[i] / 2);
        case From13 =>
          larp[i] := SatAdd(before[i] / 2, now[i] / 2);
        case From27 =>
          larp[i] := SatAdd(before[i] / 4, now[i] / 4);
          larp[i] := SatAdd(larp[i], now[i] / 2);
        case From40 =>
          larp[i] := now[i];
      }
      i := i + 1;
    }
  }

  /** `larp_to_rp`, in place. */
  method LarpToRp(larp: array<int16>)
    requires larp.Length == 8
    modifies larp
    ensures forall i :: 0 <= i < 8 ==> larp[i] == ToReflection(old(larp[i]))
  {
    var i := 0;
    while i < 8
      invariant 0 <= i <= 8
      invariant forall j :: 0 <= j < i ==> larp[j] == ToReflection(old(larp[j]))
      invariant forall j :: i <= j < 8 ==> larp[j] == old(larp[j])
    {
      var temp: int := larp[i];
      if temp < 0 {
        if temp == INT16_MIN {
          temp := INT16_MAX;
        } else {
          temp := -temp;
        }
        if temp < 11059 {
          temp := temp * 2;
        } else if temp < 20070 {
          temp := temp + 11059;
        } else {
          temp := SatAdd(temp / 4, 26112);
        }
        larp[i] := -temp;
      } else {
        if temp < 11059 {
          temp := temp * 2;
        } else if temp < 20070 {
          temp := temp + 11059;
        } else {
          temp := SatAdd(temp / 4, 26112);
        }
        larp[i] := temp;
      }
      i := i + 1;
    }
  }

  /** Interpolation and conversion together, as every segment of a frame needs them. */
  method PrepareSegment(seg: Segment, before: seq<int16>, now: seq<int16>) returns (rp: seq<int16>)
    requires |before| == 8 && |now| == 8
    ensures rp == Coefficients(seg, before, now)
  {
    hide Interpolated, ToReflection;
    var larp := new int16[8](_ => 0);
    Interpolate(seg, before, now, larp);
    LarpToRp(larp);
    rp := larp[..];
  }

  /** The eight stages on one sample, over the filter memory in place. */
  method AnalyseOne(u: array<int16>, rp: seq<int16>, s: int16) returns (d: int16)
    requires u.Length == 8 && |rp| == 8
    modifies u
    ensures (u[..], d) == AnalyseSample(rp, old(u[..]), s)
  {
    hide Saturate, Round15, Times;
    var di: int, uOut: int := s, s;
    ghost var whole := AnalyseSample(rp, u[..], s);
    var i := 0;
    while i < 8
      invariant 0 <= i <= 8 && IsInt16(di) && IsInt16(uOut)
      invariant AnalyseFrom(rp, u[..], i, di, uOut) == whole
    {
      var ui: int := u[i];
      ghost var before := u[..];
      u[i] := uOut;
      assert u[..] == before[i := u[i]];
      var rpi := rp[i];
      uOut := ui + Round15(Times(rpi, di));
      di := di + Round15(Times(rpi, ui));
      uOut := Saturate(uOut);
      di := Saturate(di);
      i := i + 1;
    }
    d := di;
  }

  /** `short_term_analysis_filtering`: samples `lo` to `hi` of the frame, in place. */
  method ShortTermAnalysisFiltering(u: array<int16>, rp: seq<int16>, amp: array<int16>, lo: nat, hi: nat)
    requires u.Length == 8 && |rp| == 8 && lo <= hi <= amp.Length && u != amp
    modifies u, amp
    ensures (u[..], amp[lo..hi]) == AnalyseRun(rp, old(u[..]), old(amp[lo..hi]))
    ensures amp[..lo] == old(amp[..lo]) && amp[hi..] == old(amp[hi..])
  {
    hide AnalyseSample, AnalyseRun;
    ghost var u0, xs := u[..], amp[lo..hi];
    RunStarts(rp, u0, xs);
    assert amp[lo..lo] == [];
    var i := lo;
    while i < hi
      invariant lo <= i <= hi
      invariant (u[..], amp[lo..i]) == AnalyseRun(rp, u0, xs[..i - lo])
      invariant amp[i..hi] == xs[i - lo..]
      invariant amp[..lo] == old(amp[..lo]) && amp[hi..] == old(amp[hi..])
    {
      AnalyseNext(rp, u0, xs, i - lo);
      assert amp[i] == xs[i - lo];
      ghost var done := amp[lo..i];
      var d := AnalyseOne(u, rp, amp[i]);
      amp[i] := d;
      assert amp[lo..i + 1] == done + [d];
      i := i + 1;
    }
    assert xs[..hi - lo] == xs;
  }

  lemma RunStarts(rp: seq<int16>, u: seq<int16>, xs: seq<int16>)
    requires |rp| == 8 && |u| == 8
    ensures AnalyseRun(rp, u, xs[..0]) == (u, [])
  {
  }

  lemma AnalyseNext(rp: seq<int16>, u: seq<int16>, xs: seq<int16>, k: nat)
    requires |rp| == 8 && |u| == 8 && k < |xs|
    ensures var (u1, ds) := AnalyseRun(rp, u, xs[..k]);
            var (u2, d) := AnalyseSample(rp, u1, xs[k]);
            AnalyseRun(rp, u, xs[..k + 1]) == (u2, ds + [d])
  {
    hide AnalyseSample;
    assert xs[..k + 1][..k] == xs[..k];
  }

  /** The eight stages of the synthesis on one sample, from the last stage down. */
  method SynthesiseOne(v: array<int16>, rrp: seq<int16>, d: int16) returns (sri: int16)
    requires v.Length == 9 && |rrp| == 8
    modifies v
    ensures (v[..], sri) == SynthesiseSample(rrp, old(v[..]), d)
  {
    hide SatSub, SatAdd, MultR;
    ghost var v0 := v[..];
    sri := d;
    var i := 8;
    while i > 0
      invariant 0 <= i <= 8
      invariant (v[..], sri) == SynthesiseDown(rrp, v0, i, d)
    {
      i := i - 1;
      ghost var before := v[..];
      var tmp1 := rrp[i];
      var tmp2 := v[i];
      tmp2 := MultR(tmp1, tmp2);
      sri := SatSub(sri, tmp2);
      tmp1 := MultR(tmp1, sri);
      v[i + 1] := SatAdd(v[i], tmp1);
      assert v[..] == before[i + 1 := v[i + 1]];
    }
    ghost var below := v[..];
    v[0] := sri;
    assert v[..] == below[0 := sri];
  }

  /** `short_term_synthesis_filtering`: samples `lo` to `hi`, from the residual to the signal. */
  method ShortTermSynthesisFiltering(v: array<int16>, rrp: seq<int16>, wt: array<int16>, sr: array<int16>, lo: nat,
                                     hi: nat)
    requires v.Length == 9 && |rrp| == 8 && lo <= hi <= wt.Length && hi <= sr.Length
    requires v != sr && v != wt && wt != sr
    modifies v, sr
    ensures (v[..], sr[lo..hi]) == SynthesiseRun(rrp, old(v[..]), wt[lo..hi])
    ensures sr[..lo] == old(sr[..lo]) && sr[hi..] == old(sr[hi..])
  {
    hide SynthesiseSample, SynthesiseRun;
    ghost var v0, ds := v[..], wt[lo..hi];
    SynthesisStarts(rrp, v0, ds);
    assert sr[lo..lo] == [];
    var i := lo;
    while i < hi
      invariant lo <= i <= hi && wt[lo..hi] == ds
      invariant (v[..], sr[lo..i]) == SynthesiseRun(rrp, v0, ds[..i - lo])
      invariant sr[..lo] == old(sr[..lo]) && sr[hi..] == old(sr[hi..])
    {
      SynthesiseNext(rrp, v0, ds, i - lo);
      assert wt[i] == ds[i - lo];
      ghost var done := sr[lo..i];
      sr[i] := SynthesiseOne(v, rrp, wt[i]);
      assert sr[lo..i + 1] == done + [sr[i]];
      i := i + 1;
    }
    assert ds[..hi - lo] == ds;
  }

  lemma SynthesisStarts(rp: seq<int16>, v: seq<int16>, ds: seq<int16>)
    requires |rp| == 8 && |v| == 9
    ensures SynthesiseRun(rp, v, ds[..0]) == (v, [])
  {
  }

  lemma SynthesiseNext(rp: seq<int16>, v: seq<int16>, ds: seq<int16>, k: nat)
    requires |rp| == 8 && |v| == 9 && k < |ds|
    ensures var (v1, xs) := SynthesiseRun(rp, v, ds[..k]);
            var (v2, x) := SynthesiseSample(rp, v1, ds[k]);
            SynthesiseRun(rp, v, ds[..k + 1]) == (v2, xs + [x])
  {
    hide SynthesiseSample;
    assert ds[..k + 1][..k] == ds[..k];
  }

  /** `gsm0610_short_term_analysis_filter`: one frame, in place. */
  method ShortTermAnalysisFilter(m: LarMemory, u: array<int16>, larc: seq<int16>, amp: array<int16>)
    returns (after: LarMemory)
    requires LarOk(m) && u.Length == 8 && |larc| == 8 && amp.Length == 160 && u != amp
    modifies u, amp
    ensures after == Updated(m, larc)
    ensures (u[..], amp[..]) == AnalyseFrame(m, old(u[..]), larc, old(amp[..]))
  {
    hide AnalyseRun, Coefficients, DecodedLars;
    ghost var s := amp[..];
    var now := DecodeLogAreaRatios(larc);
    var before := m.larpp[1 - m.j];
    after := LarMemory(m.larpp[m.j := now], 1 - m.j);

    var rp := PrepareSegment(From0, before, now);
    ShortTermAnalysisFiltering(u, rp, amp, 0, 13);
    ghost var d1 := amp[0..13];
    assert amp[13..] == s[13..];
    assert amp[13..27] == s[13..27] && amp[27..] == s[27..];
    rp := PrepareSegment(From13, before, now);
    ShortTermAnalysisFiltering(u, rp, amp, 13, 27);
    ghost var d2 := amp[13..27];
    assert amp[0..13] == amp[..13] == d1;
    assert amp[27..40] == s[27..40] && amp[40..] == s[40..];
    rp := PrepareSegment(From27, before, now);
    ShortTermAnalysisFiltering(u, rp, amp, 27, 40);
    ghost var d3 := amp[27..40];
    assert amp[..27] == d1 + d2;
    rp := PrepareSegment(From40, before, now);
    assert amp[40..160] == s[40..];
    ShortTermAnalysisFiltering(u, rp, amp, 40, 160);
    assert amp[..40] == d1 + d2 + d3;
    assert amp[..] == d1 + d2 + d3 + amp[40..160];
  }

  /** `gsm0610_short_term_synthesis_filter`: one frame. */
  method ShortTermSynthesisFilter(m: LarMemory, v: array<int16>, larc: seq<int16>,
                                  wt: array<int16>, amp: array<int16>)
    returns (after: LarMemory)
    requires LarOk(m) && v.Length == 9 && |larc| == 8 && wt.Length == 160 && amp.Length == 160
    requires v != wt && v != amp && wt != amp
    modifies v, amp
    ensures after == Updated(m, larc)
    ensures (v[..], amp[..]) == SynthesiseFrame(m, old(v[..]), larc, wt[..])
  {
    hide SynthesiseRun, Coefficients, DecodedLars;
    ghost var d := wt[..];
    var now := DecodeLogAreaRatios(larc);
    var before := m.larpp[1 - m.j];
    after := LarMemory(m.larpp[m.j := now], 1 - m.j);

    var rrp := PrepareSegment(From0, before, now);
    ShortTermSynthesisFiltering(v, rrp, wt, amp, 0, 13);
    ghost var s1 := amp[0..13];
    assert wt[0..13] == d[..13];
    rrp := PrepareSegment(From13, before, now);
    ShortTermSynthesisFiltering(v, rrp, wt, amp, 13, 27);
    ghost var s2 := amp[13..27];
    assert amp[..13] == s1;
    assert wt[13..27] == d[13..27];
    rrp := PrepareSegment(From27, before, now);
    ShortTermSynthesisFiltering(v, rrp, wt, amp, 27, 40);
    ghost var s3 := amp[27..40];
    assert amp[..27] == s1 + s2;
    assert wt[27..40] == d[27..40];
    rrp := PrepareSegment(From40, before, now);
    ShortTermSynthesisFiltering(v, rrp, wt, amp, 40, 160);
    assert wt[40..160] == d[40..];
    assert amp[..40] == s1 + s2 + s3;
    assert amp[..] == s1 + s2 + s3 + amp[40..160];
  }
}
