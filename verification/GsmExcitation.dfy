/** The excitation coder and decoder of one sub-segment (jni/spandsp/gsm0610_rpe.c): weighting filter,
    grid selection, quantiser, inverse quantiser and positioning put together. */
module GsmExcitation {
  import opened FixedPoint
  import opened GsmApcm
  import opened GsmRpe

  /** The forty samples that a coded sub-segment stands for. */
  function Excitation(mc: nat, xmaxc: nat, xMc: seq<int>): (ep: seq<int16>)
    requires mc <= 3 && xmaxc <= 63 && |xMc| == 13 && ThreeBit(xMc)
    ensures |ep| == 40
  {
    hide ExpMant, Decoded, Positioned;
    var (exp, mant) := ExpMant(xmaxc);
    Positioned(mc, Decoded(xMc, exp, mant))
  }

  function Margin(): (z: seq<int16>)
    ensures |z| == 5
  {
    [0, 0, 0, 0, 0]
  }

  /** The sub-segment between the five zero samples that the weighting filter sees on either side. */
  function Padded(e: seq<int16>): (p: seq<int16>)
    requires |e| == 40
    ensures |p| == 50
  {
    Margin() + e + Margin()
  }

  /** Grid position, block maximum and pulses of a sub-segment. */
  function Coded(e: seq<int16>): (r: (nat, nat, seq<int>))
    requires |e| == 40
    ensures r.0 <= 3 && r.1 <= 63 && |r.2| == 13 && ThreeBit(r.2)
  {
    hide Weighted, Grid, Decimated, Quantised, ThreeBit;
    var x := Weighted(Padded(e));
    QuantisedFits(Decimated(x, Grid(x)));
    (Grid(x), Quantised(Decimated(x, Grid(x))).0, Quantised(Decimated(x, Grid(x))).1)
  }

  lemma QuantisedFits(xM: seq<int16>)
    requires |xM| == 13
    ensures var (xmaxc, codes) := Quantised(xM); 0 <= xmaxc <= 63 && |codes| == 13 && ThreeBit(codes)
  {
    var codes := Quantised(xM).1;
    assert |codes| == 13 by { hide MaxCode, ExpMant; }
    BlockIsCodable(xM, 0);
    forall i | 0 <= i < |codes|
      ensures 0 <= codes[i] <= 7
    {
      BlockIsCodable(xM, i);
    }
  }

  /** What the receiver rebuilds from a coded sub-segment: on the grid, every third sample of the
      weighted signal to within an eighth of the decoded maximum plus two; off the grid, silence. */
  lemma ExcitationIsNear(e: seq<int16>, i: nat, j: nat)
    requires |e| == 40 && i < 13 && j < 40
    ensures var (mc, xmaxc, xMc) := Coded(e);
            var ep := Excitation(mc, xmaxc, xMc);
            && Distance(ep[mc + 3 * i], Weighted(Padded(e))[mc + 3 * i]) <= DecodedMaximum(xmaxc) / 8 + 2
            && ((forall k :: 0 <= k < 13 ==> j != mc + 3 * k) ==> ep[j] == 0)
  {
    hide Weighted, Grid, Quantised, ThreeBit, ExpMant, DecodedPulse, DecodedMaximum, PulseAt;
    var x := Weighted(Padded(e));
    var mc := Grid(x);
    var xM := Decimated(x, mc);
    QuantisedFits(xM);
    PulseError(xM, i);
    var (xmaxc, xMc) := Quantised(xM);
    var (exp, mant) := ExpMant(xmaxc);
    PulsesOnGrid(mc, Decoded(xMc, exp, mant), i, j);
  }

  /** `gsm0610_rpe_encoding`: the sub-segment is replaced by what the decoder will make of it. */
  method RpeEncoding(e: array<int16>) returns (xmaxc: int16, mc: nat, xMc: seq<int>)
    requires e.Length == 50 && e[..5] == Margin() && e[45..] == Margin()
    modifies e
    ensures (mc, xmaxc as int, xMc) == Coded(old(e[5..45]))
    ensures mc <= 3 && 0 <= xmaxc <= 63 && |xMc| == 13 && ThreeBit(xMc)
    ensures e[5..45] == Excitation(mc, xmaxc, xMc)
    ensures e[..5] == Margin() && e[45..] == Margin()
  {
    hide Weighted, Grid, Decimated, Quantised, ThreeBit, ExpMant, Decoded, Positioned, Margin;
    assert e[..] == Padded(e[5..45]);
    var x := WeightingFilter(e);
    var xM;
    mc, xM := GridSelection(x);
    var exp, mant;
    xmaxc, exp, mant, xMc := Quantise(xM);
    var xMp := InverseQuantise(xMc, mant, exp);
    GridPositioning(mc, xMp, e, 5);
  }

  /** `gsm0610_rpe_decoding`. */
  method RpeDecoding(xmaxc: int16, mcr: nat, xMcr: seq<int>, erp: array<int16>)
    requires 0 <= xmaxc <= 63 && mcr <= 3 && |xMcr| == 13 && ThreeBit(xMcr) && erp.Length == 40
    modifies erp
    ensures erp[..] == Excitation(mcr, xmaxc, xMcr)
  {
    hide ThreeBit, ExpMant, Decoded, Positioned;
    var exp, mant := MaxCodeToExpMant(xmaxc);
    var xMp := InverseQuantise(xMcr, mant, exp);
    GridPositioning(mcr, xMp, erp, 0);
    assert erp[..] == erp[0..40];
  }
}
