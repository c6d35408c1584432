/** Offset compensation and pre-emphasis of the GSM 06.10 coder (jni/spandsp/gsm0610_preprocess.c,
    sections 4.2.1 to 4.2.3 of GSM 06.10): a recursive high-pass filter kept in 32 bits. */
module GsmPreprocess {
  import opened FixedPoint

  datatype Offset = Offset(z1: int16, lz2: int, mp: int16)

  const RESET := Offset(0, 0, 0)

  /** Section 4.2.1: halve and clear the two low bits. */
  function Downscale(a: int16): (r: int16)
    ensures -0x4000 <= r <= 0x3FFC
  {
    a / 2 / 4 * 4
  }

  /** The recursive multiplication by 32735/32768, rounded. */
  function Decay(lz2: int): int {
    Round15(lz2 * 32735)
  }

  /** One sample as the source computes it, with every cast and saturation. */
  function Step(st: Offset, a: int16): (Offset, int16) {
    var so: int := Downscale(a);
    var s1 := ToInt16(so - st.z1);
    var lz2 := SatAdd32(Decay(st.lz2), s1 * 0x8000);
    var lTemp := SatAdd32(lz2, 16384);
    var mp := ToInt16(lTemp / 0x8000);
    (Offset(so, lz2, mp), SatAdd(mp, MultR(st.mp, -28180)))
  }

  function Run(st: Offset, amp: seq<int16>): (r: (Offset, seq<int16>))
    ensures |r.1| == |amp|
  {
    hide Step;
    if amp == [] then (st, [])
    else
      var (st1, out) := Run(st, amp[..|amp| - 1]);
      var (st2, so) := Step(st1, amp[|amp| - 1]);
      (st2, out + [so])
  }

  /** The filter's own memory, without the direct path of the last input sample. */
  function Memory(st: Offset): int {
    st.lz2 - st.z1 * 0x8000
  }

  /** The inductive interval: it needs no slack for rounding at either end. */
  predicate Bounded(st: Offset) {
    && -0x4000 <= st.z1 <= 0x3FFC
    && -0x3FFC * 0x8000 <= Memory(st) <= 0x4000 * 0x8000
  }

  /** The same filter over unbounded integers, without a cast or a saturation in its loop: the input halved
      and cut to a multiple of four, the decaying memory, the rounded sample, and the emphasised one, which
      alone is limited. */
  function ExactFilter(st: Offset, a: int16): (int, int, int, int) {
    var so := a / 2 / 4 * 4;
    var lz2 := (st.lz2 * 32735 + 0x4000) / 0x8000 + (so - st.z1) * 0x8000;
    var mp := (lz2 + 16384) / 0x8000;
    (so, lz2, mp, Clamp(-0x8000, mp + (0x4000 - 28180 * st.mp) / 0x8000, 0x7FFF))
  }

  /** One step maps the interval into itself. */
  lemma StepStaysBounded(st: Offset, a: int16)
    requires Bounded(st)
    ensures var (z1, lz2, mp, _) := ExactFilter(st, a);
            && -0x3FFC * 0x8000 <= lz2 - z1 * 0x8000 <= 0x4000 * 0x8000
            && -0x4000_0000 < lz2 < 0x4000_0000 && IsInt16(mp)
  {
    hide Clamp;
    DecayIs(st.lz2);
    var w := Memory(st);
    assert st.lz2 * 32735 + 0x4000 == (w * 32735 + 0x4000) + st.z1 * 32735 * 0x8000;
    assert Decay(st.lz2) == (w * 32735 + 0x4000) / 0x8000 + st.z1 * 32735;
    var (z1, lz2, mp, _) := ExactFilter(st, a);
    assert lz2 - z1 * 0x8000 == (w * 32735 + 0x4000) / 0x8000 - 33 * st.z1;
  }

  /** In the interval no cast of the filter loses a bit and neither 32-bit addition saturates. */
  lemma StepIsExact(st: Offset, a: int16)
    requires Bounded(st)
    ensures Bounded(Step(st, a).0)
    ensures var (after, out) := Step(st, a); (after.z1, after.lz2, after.mp, out as int) == ExactFilter(st, a)
    ensures a / 2 / 4 * 4 - st.z1 != INT16_MIN
  {
    hide Decay, MultR;
    StepStaysBounded(st, a);
    DecayIs(st.lz2);
    EmphasisIs(st.mp);
  }

  lemma DecayIs(x: int)
    ensures Decay(x) == (x * 32735 + 0x4000) / 0x8000
  {
  }

  lemma EmphasisIs(mp: int16)
    ensures MultR(mp, -28180) == (0x4000 - 28180 * mp) / 0x8000
  {
    MultRExact(mp, -28180);
  }

  /** Sample `k` of a stream was filtered exactly, from a bounded state. */
  ghost predicate ExactAt(st: Offset, amp: seq<int16>, k: nat)
    requires k < |amp|
  {
    var (before, _) := Run(st, amp[..k]);
    var (after, out) := Run(st, amp[..k + 1]);
    Bounded(before) && (after.z1, after.lz2, after.mp, out[k] as int) == ExactFilter(before, amp[k])
  }

  /** On every input stream from a bounded state, such as a reset, the filter stays in the interval,
      so it never saturates: at every sample it computes the exact filter. */
  lemma {:induction false} NeverSaturates(st: Offset, amp: seq<int16>, k: nat)
    requires Bounded(st) && k <= |amp|
    ensures Bounded(Run(st, amp[..k]).0)
    ensures k < |amp| ==> ExactAt(st, amp, k)
  {
    hide Step, ExactFilter, Bounded;
    if k > 0 {
      NeverSaturates(st, amp, k - 1);
      RunNext(st, amp, k - 1);
      StepIsExact(Run(st, amp[..k - 1]).0, amp[k - 1]);
    }
    if k < |amp| {
      RunNext(st, amp, k);
      StepIsExact(Run(st, amp[..k]).0, amp[k]);
    }
  }

  lemma ResetIsBounded()
    ensures Bounded(RESET)
  {
  }

  /** Calls compose: filtering frame by frame is filtering the whole stream. */
  lemma {:induction false} RunAppend(st: Offset, a: seq<int16>, b: seq<int16>)
    ensures var (st1, x) := Run(st, a);
            var (st2, y) := Run(st1, b);
            Run(st, a + b) == (st2, x + y)
  {
    hide Step;
    if b == [] {
      assert a + b == a;
      assert Run(st, a).1 + [] == Run(st, a).1;
    } else {
      var n := |b| - 1;
      RunAppend(st, a, b[..n]);
      assert (a + b)[..|a| + n] == a + b[..n];
      var (st1, x) := Run(st, a);
      var (st2, y) := Run(st1, b[..n]);
      assert (x + y) + [Step(st2, b[n]).1] == x + (y + [Step(st2, b[n]).1]);
    }
  }

  /** `gsm0610_preprocess`: the loop over one frame, with the state in local variables. */
  method Preprocess(st: Offset, amp: seq<int16>, so: array<int16>) returns (after: Offset)
    requires so.Length == |amp|
    modifies so
    ensures (after, so[..]) == Run(st, amp)
  {
    hide Decay, MultR, Run, ToInt16, SatAdd, SatAdd32;
    var z1: int16, lz2: int, mp: int16 := st.z1, st.lz2, st.mp;
    RunNothing(st);
    var k := 0;
    while k < |amp|
      invariant 0 <= k <= |amp|
      invariant (Offset(z1, lz2, mp), so[..k]) == Run(st, amp[..k])
    {
      RunNext(st, amp, k);
      ghost var before, out := Offset(z1, lz2, mp), so[..k];
      var so1: int := Downscale(amp[k]);
      var s1: int := ToInt16(so1 - z1);
      z1 := so1;
      var ls2 := s1 * 0x8000;
      lz2 := SatAdd32(Decay(lz2), ls2);
      var lTemp := SatAdd32(lz2, 16384);
      var msp := MultR(mp, -28180);
      mp := ToInt16(lTemp / 0x8000);
      so[k] := SatAdd(mp, msp);
      assert (Offset(z1, lz2, mp), so[k]) == Step(before, amp[k]);
      assert so[..k + 1] == out + [so[k]];
      k := k + 1;
    }
    assert amp[..k] == amp && so[..k] == so[..];
    after := Offset(z1, lz2, mp);
  }

  lemma RunNothing(st: Offset)
    ensures forall amp: seq<int16> :: Run(st, amp[..0]) == (st, [])
  {
  }

  lemma RunNext(st: Offset, amp: seq<int16>, k: nat)
    requires k < |amp|
    ensures var (st1, out) := Run(st, amp[..k]);
            var (st2, so) := Step(st1, amp[k]);
            Run(st, amp[..k + 1]) == (st2, out + [so])
  {
    hide Step;
    assert amp[..k + 1][..k] == amp[..k];
  }
}
