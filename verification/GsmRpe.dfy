/** Regular pulse excitation of the GSM 06.10 coder (jni/spandsp/gsm0610_rpe.c, sections 4.2.13 to
    4.2.17 of GSM 06.10): weighting filter, grid selection, block-adaptive quantiser and its
    inverse, and the positioning of the decoded pulses. */
module GsmRpe {
  import opened FixedPoint

  // ----- 4.2.13: the weighting filter

  /** The STEP macro of the filter: a product in 32 bits. */
  function Tap(e: int, h: int): int {
    e * h
  }

  /** The filter sum at position `k` of the 50-sample buffer `e[-5..44]`. */
  function WeightSum(e: seq<int16>, k: nat): int
    requires |e| == 50 && k < 40
  {
    4096 + Tap(e[k], -134) + Tap(e[k + 1], -374) + Tap(e[k + 3], 2054) + Tap(e[k + 4], 5741) + Tap(e[k + 5], 8192)
    + Tap(e[k + 6], 5741) + Tap(e[k + 7], 2054) + Tap(e[k + 9], -374) + Tap(e[k + 10], -134)
  }

  function Weighted(e: seq<int16>): (x: seq<int16>)
    requires |e| == 50
    ensures |x| == 40
    ensures forall k :: 0 <= k < 40 ==> x[k] == Saturate(WeightSum(e, k) / 8192)
  {
    hide WeightSum;
    seq(40, k requires 0 <= k < 40 => Saturate(WeightSum(e, k) / 8192))
  }

  /** The sum fits 32 bits for every input. */
  lemma WeightSumFits(e: seq<int16>, k: nat)
    requires |e| == 50 && k < 40
    ensures IsInt32(WeightSum(e, k))
  {
  }

  /** The tap at a distance from the centre: the filter is symmetric. */
  function Weight(distance: nat): int {
    if distance == 0 then 8192 else if distance == 1 then 5741 else if distance == 2 then 2054
    else if distance == 4 then -374 else if distance == 5 then -134 else 0
  }

  /** A single sample, wherever it is, comes out with its tap on either side, and unchanged in the middle. */
  lemma WeightOfSample(e: seq<int16>, c: nat, k: nat)
    requires |e| == 50 && c < 40 && k < 40
    requires forall j :: 0 <= j < 50 && j != c + 5 ==> e[j] == 0
    ensures Weighted(e)[k] == Saturate(Round13(Tap(e[c + 5], Weight(Distance(k, c)))))
    ensures Weighted(e)[c] == e[c + 5]
  {
    hide Saturate, Tap;
    TapOfZero();
    WholeTap(e[c + 5]);
  }

  function Round13(x: int): int {
    (x + 0x1000) / 0x2000
  }

  lemma TapOfZero()
    ensures forall h: int :: Tap(0, h) == 0 && Tap(h, 0) == 0
  {
  }

  lemma WholeTap(v: int16)
    ensures Saturate(Round13(Tap(v, 8192))) == v && Saturate(Round13(0)) == 0
  {
  }

  method WeightingFilter(e: array<int16>) returns (x: array<int16>)
    requires e.Length == 50
    ensures fresh(x) && x.Length == 40 && x[..] == Weighted(e[..])
  {
    x := new int16[40];
    var k := 0;
    while k < 40
      invariant 0 <= k <= 40
      invariant forall j :: 0 <= j < k ==> x[j] == Weighted(e[..])[j]
    {
      hide Saturate;
      var result: int := 8192 / 2;
      result := result + Tap(e[k + 0], -134);
      result := result + Tap(e[k + 1], -374);
      result := result + Tap(e[k + 3], 2054);
      result := result + Tap(e[k + 4], 5741);
      result := result + Tap(e[k + 5], 8192);
      result := result + Tap(e[k + 6], 5741);
      result := result + Tap(e[k + 7], 2054);
      result := result + Tap(e[k + 9], -374);
      result := result + Tap(e[k + 10], -134);
      assert result == WeightSum(e[..], k);
      x[k] := Saturate(result / 8192);
      k := k + 1;
    }
  }

  // ----- 4.2.14: grid selection

  function QuarterSquare(x: int16): (r: nat)
    ensures r <= 0x400_0000
  {
    MulMono(Abs(x / 4), Abs(x / 4), 0x2000, 0x2000);
    SquareOfAbs(x / 4);
    x / 4 * (x / 4)
  }

  lemma SquareOfAbs(y: int)
    ensures y * y == Abs(y) * Abs(y)
  {
  }

  /** The energy of pulses `lo` to `hi` of grid `m`. */
  function Energy(x: seq<int16>, m: nat, lo: nat, hi: nat): (r: nat)
    requires |x| == 40 && m <= 3 && lo <= hi <= 13
    ensures r <= 0x400_0000 * (hi - lo)
    decreases hi
  {
    hide QuarterSquare;
    if lo == hi then 0 else Energy(x, m, lo, hi - 1) + QuarterSquare(x[m + 3 * (hi - 1)])
  }

  function GridEnergy(x: seq<int16>, m: nat): nat
    requires |x| == 40 && m <= 3
  {
    2 * Energy(x, m, 0, 13)
  }

  /** The grid position: the first of four with the largest energy. */
  predicate IsGrid(x: seq<int16>, m: nat)
    requires |x| == 40
  {
    && m <= 3
    && (forall k :: 0 <= k <= 3 ==> GridEnergy(x, k) <= GridEnergy(x, m))
    && (forall k :: 0 <= k < m ==> GridEnergy(x, k) < GridEnergy(x, m))
  }

  /** The running comparison of four energies. */
  function FirstBest(e0: nat, e1: nat, e2: nat, e3: nat): (m: nat)
    ensures m <= 3
  {
    var (m1, em1) := if e1 > e0 then (1, e1) else (0, e0);
    var (m2, em2) := if e2 > em1 then (2, e2) else (m1, em1);
    if e3 > em2 then 3 else m2
  }

  function Grid(x: seq<int16>): (m: nat)
    requires |x| == 40
    ensures m <= 3
  {
    FirstBest(GridEnergy(x, 0), GridEnergy(x, 1), GridEnergy(x, 2), GridEnergy(x, 3))
  }

  /** The selection finds the one grid that `IsGrid` describes. */
  lemma GridIsFirstBest(x: seq<int16>, m: nat)
    requires |x| == 40
    ensures IsGrid(x, m) <==> m == Grid(x)
  {
    hide GridEnergy;
    var e0, e1, e2, e3 := GridEnergy(x, 0), GridEnergy(x, 1), GridEnergy(x, 2), GridEnergy(x, 3);
    assert m == 0 || m == 1 || m == 2 || m == 3 || m > 3;
  }

  /** The energy of the first `n` samples, each without its two low bits. */
  function Total(x: seq<int16>, n: nat): nat
    requires n <= |x|
  {
    if n == 0 then 0 else Total(x, n - 1) + Squared(x[n - 1] / 4)
  }

  function Squared(x: int): nat {
    if x < 0 then (-x) * (-x) else x * x
  }

  lemma QuarterIsSquared(x: int16)
    ensures QuarterSquare(x) == Squared(x / 4)
  {
  }

  /** The first three grids share the samples between them. */
  lemma {:induction false} GridsCover(x: seq<int16>, n: nat)
    requires |x| == 40 && n <= 13
    ensures Energy(x, 0, 0, n) + Energy(x, 1, 0, n) + Energy(x, 2, 0, n) == Total(x, 3 * n)
  {
    hide QuarterSquare, Squared;
    if n > 0 {
      GridsCover(x, n - 1);
      QuarterIsSquared(x[3 * n - 3]);
      QuarterIsSquared(x[3 * n - 2]);
      QuarterIsSquared(x[3 * n - 1]);
      assert Total(x, 3 * n - 1) == Total(x, 3 * n - 2) + Squared(x[3 * n - 2] / 4);
      assert Total(x, 3 * n - 2) == Total(x, 3 * n - 3) + Squared(x[3 * n - 3] / 4);
    }
  }

  /** The chosen pulses keep at least a third of the energy of the block. */
  lemma GridKeepsAThird(x: seq<int16>)
    requires |x| == 40
    ensures 3 * Energy(x, Grid(x), 0, 13) >= Total(x, 39)
  {
    hide Energy;
    GridsCover(x, 13);
    GridIsFirstBest(x, Grid(x));
  }

  /** Every third sample of the signal from the grid position on. */
  function Decimated(x: seq<int16>, m: nat): (xM: seq<int16>)
    requires |x| == 40 && m <= 3
    ensures |xM| == 13
    ensures forall i :: 0 <= i < 13 ==> xM[i] == x[m + 3 * i]
  {
    seq(13, i requires 0 <= i < 13 => x[m + 3 * i])
  }

  /** A run of the STEP macro: pulses `lo` to `hi` of grid `m` on top of a running sum. */
  method AddPulses(x: array<int16>, m: nat, lo: nat, hi: nat, start: nat) returns (result: nat)
    requires x.Length == 40 && m <= 3 && lo <= hi <= 13
    ensures result == start + Energy(x[..], m, lo, hi)
  {
    hide QuarterSquare;
    result := start;
    var i := lo;
    while i < hi
      invariant lo <= i <= hi
      invariant result == start + Energy(x[..], m, lo, i)
    {
      result := result + QuarterSquare(x[m + 3 * i]);
      i := i + 1;
    }
  }

  /** Grids 0 and 3 share twelve pulses: the sum over them is computed once. */
  lemma {:induction false} SharedPulses(x: seq<int16>, n: nat)
    requires |x| == 40 && n <= 12
    ensures Energy(x, 0, 0, n + 1) == Energy(x, 0, 1, n + 1) + QuarterSquare(x[0])
    ensures Energy(x, 3, 0, n) == Energy(x, 0, 1, n + 1)
  {
    hide QuarterSquare;
    if n == 0 {
      assert Energy(x, 0, 0, 1) == Energy(x, 0, 0, 0) + QuarterSquare(x[0]);
    } else {
      SharedPulses(x, n - 1);
    }
  }

  /** `rpe_grid_selection`: no doubled sum leaves 32 bits. */
  method GridSelection(x: array<int16>) returns (mc: nat, xM: array<int16>)
    requires x.Length == 40
    ensures mc == Grid(x[..])
    ensures fresh(xM) && xM.Length == 13 && xM[..] == Decimated(x[..], mc)
  {
    hide Energy, QuarterSquare;
    ghost var xs := x[..];
    SharedPulses(xs, 12);
    mc := 0;
    var result := AddPulses(x, 0, 1, 13, 0);
    var common := result;
    result := result + QuarterSquare(x[0]);
    result := result * 2;
    var em := result;
    assert em == GridEnergy(xs, 0) && IsInt32(em);
    result := AddPulses(x, 1, 0, 13, 0);
    result := result * 2;
    assert result == GridEnergy(xs, 1) && IsInt32(result);
    if result > em {
      mc, em := 1, result;
    }
    result := AddPulses(x, 2, 0, 13, 0);
    result := result * 2;
    assert result == GridEnergy(xs, 2) && IsInt32(result);
    if result > em {
      mc, em := 2, result;
    }
    result := common + QuarterSquare(x[39]);
    result := result * 2;
    LastPulse(xs);
    assert result == GridEnergy(xs, 3) && IsInt32(result);
    if result > em {
      mc, em := 3, result;
    }
    xM := new int16[13];
    var i := 0;
    while i < 13
      invariant 0 <= i <= 13
      invariant forall j :: 0 <= j < i ==> xM[j] == x[mc + 3 * j]
    {
      xM[i] := x[mc + 3 * i];
      i := i + 1;
    }
  }

  lemma LastPulse(x: seq<int16>)
    requires |x| == 40
    ensures Energy(x, 3, 0, 13) == Energy(x, 3, 0, 12) + QuarterSquare(x[39])
  {
    hide QuarterSquare;
  }

  // ----- 4.2.17: grid positioning

  function PulseAt(mc: nat, xMp: seq<int16>, j: nat): int16
    requires mc <= 3 && |xMp| == 13
  {
    if j >= mc && (j - mc) % 3 == 0 && (j - mc) / 3 < 13 then xMp[(j - mc) / 3] else 0
  }

  /** The forty reconstructed samples: pulse `i` at `mc + 3i`, zero elsewhere. */
  function Positioned(mc: nat, xMp: seq<int16>): (ep: seq<int16>)
    requires mc <= 3 && |xMp| == 13
    ensures |ep| == 40
    ensures forall j :: 0 <= j < 40 ==> ep[j] == PulseAt(mc, xMp, j)
  {
    hide PulseAt;
    seq(40, j requires 0 <= j < 40 => PulseAt(mc, xMp, j))
  }

  /** Every pulse is placed once, on its grid, and all other samples are zero. */
  lemma PulsesOnGrid(mc: nat, xMp: seq<int16>, i: nat, j: nat)
    requires mc <= 3 && |xMp| == 13 && i < 13 && j < 40
    ensures Positioned(mc, xMp)[mc + 3 * i] == xMp[i]
    ensures (forall k :: 0 <= k < 13 ==> j != mc + 3 * k) ==> Positioned(mc, xMp)[j] == 0
  {
    assert (mc + 3 * i - mc) / 3 == i;
    if j >= mc && (j - mc) % 3 == 0 {
      assert j == mc + 3 * ((j - mc) / 3);
    }
  }

  lemma OnGrid(mc: nat, xMp: seq<int16>, q: nat)
    requires mc <= 3 && |xMp| == 13 && q < 13
    ensures PulseAt(mc, xMp, mc + 3 * q) == xMp[q]
  {
  }

  /** Just before pulse `q`, or after the last pulse, there is nothing. */
  lemma OffGrid(mc: nat, xMp: seq<int16>, p: nat, q: nat)
    requires mc <= 3 && |xMp| == 13 && q <= 13 && p < 40
    requires q > 0 ==> mc + 3 * q - 3 < p
    requires q < 13 ==> p < mc + 3 * q
    ensures PulseAt(mc, xMp, p) == 0
  {
    if p >= mc && q < 13 {
      assert p - mc == 3 * (q - 1) + 1 || p - mc == 3 * (q - 1) + 2;
    }
  }

  /** `rpe_grid_positioning`: the switch jumps into the middle of the loop, so the first round
      writes `mc` zeros and every later round two zeros before its pulse. */
  method GridPositioning(mc: nat, xMp: seq<int16>, e: array<int16>, base: nat)
    requires mc <= 3 && |xMp| == 13 && base + 40 <= e.Length
    modifies e
    ensures e[base..base + 40] == Positioned(mc, xMp)
    ensures e[..base] == old(e[..base]) && e[base + 40..] == old(e[base + 40..])
  {
    hide PulseAt;
    ghost var ep := Positioned(mc, xMp);
    ghost var before := e[..];
    var p := 0;
    if mc == 3 {
      OffGrid(mc, xMp, 0, 0);
      e[base] := 0;
      p := 1;
    }
    var i := 13;
    var q := 0;
    var entry := mc;
    while i > 0
      invariant 0 <= i <= 13 && q == 13 - i
      invariant entry == if i == 13 then mc else 4
      invariant p == if i == 13 then (if mc == 3 then 1 else 0) else mc + 3 * (q - 1) + 1
      invariant forall j :: 0 <= j < p ==> e[base + j] == ep[j]
      invariant e[..base] == before[..base] && e[base + 40..] == before[base + 40..]
    {
      if entry >= 2 {
        OffGrid(mc, xMp, p, q);
        e[base + p] := 0;
        p := p + 1;
      }
      if entry >= 1 {
        OffGrid(mc, xMp, p, q);
        e[base + p] := 0;
        p := p + 1;
      }
      assert p == mc + 3 * q;
      OnGrid(mc, xMp, q);
      e[base + p] := xMp[q];
      p := p + 1;
      q := q + 1;
      entry := 4;
      i := i - 1;
    }
    var m := mc + 1;
    while m < 4
      invariant mc + 1 <= m <= 4 && p == 36 + m
      invariant forall j :: 0 <= j < p ==> e[base + j] == ep[j]
      invariant e[..base] == before[..base] && e[base + 40..] == before[base + 40..]
    {
      OffGrid(mc, xMp, p, 13);
      e[base + p] := 0;
      p := p + 1;
      m := m + 1;
    }
    assert p == 40;
  }
}
