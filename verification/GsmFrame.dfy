/** The parameters of one GSM 06.10 frame, their widths in bits, and the unpacked byte format
    (jni/spandsp/gsm0610_encode.c and jni/spandsp/gsm0610_decode.c). */
module GsmFrame {
  import opened FixedPoint

  /** The parameters of one of the four sub-segments. */
  datatype Sub = Sub(nc: int16, bc: int16, mc: int16, xmaxc: int16, xMc: seq<int16>)

  datatype Frame = Frame(larc: seq<int16>, subs: seq<Sub>)

  predicate Shaped(f: Frame) {
    |f.larc| == 8 && |f.subs| == 4 && forall j :: 0 <= j < 4 ==> |f.subs[j].xMc| == 13
  }

  /** The widths of the eight coded log area ratios. */
  function LarWidth(i: nat): nat
    requires i < 8
  {
    if i < 2 then 6 else if i < 4 then 5 else if i < 6 then 4 else 3
  }

  /** The widths of lag, gain, grid, block maximum and the thirteen pulses. */
  function SubWidth(i: nat): nat
    requires i < 17
  {
    if i == 0 then 7 else if i < 3 then 2 else if i == 3 then 6 else 3
  }

  predicate SubInRange(s: Sub) {
    && |s.xMc| == 13
    && 0 <= s.nc <= 127 && 0 <= s.bc <= 3 && 0 <= s.mc <= 3 && 0 <= s.xmaxc <= 63
    && forall i :: 0 <= i < 13 ==> 0 <= s.xMc[i] <= 7
  }

  /** Every parameter fits its width. */
  predicate InRange(f: Frame) {
    && Shaped(f)
    && (forall i :: 0 <= i < 8 ==> 0 <= f.larc[i] < Pow2(LarWidth(i)))
    && (forall j :: 0 <= j < 4 ==> SubInRange(f.subs[j]))
  }

  /** What the decoder needs of a sub-segment: codes that index its tables. Any lag will do, because one
      out of range repeats the previous lag. */
  predicate SubPlayable(s: Sub) {
    && |s.xMc| == 13
    && 0 <= s.bc <= 3 && 0 <= s.mc <= 3 && 0 <= s.xmaxc <= 63
    && forall i :: 0 <= i < 13 ==> 0 <= s.xMc[i] <= 7
  }

  /** What the decoder needs of a frame: any log area ratio codes will do. */
  predicate Playable(f: Frame) {
    |f.larc| == 8 && |f.subs| == 4 && forall j :: 0 <= j < 4 ==> SubPlayable(f.subs[j])
  }

  lemma RangeIsPlayable(f: Frame)
    ensures InRange(f) ==> Playable(f)
  {
  }

  /** The low `w` bits of a parameter, as a packer sends them. */
  function Low(x: int, w: nat): (r: int16)
    requires w <= 7
    ensures 0 <= r < Pow2(w)
    ensures 0 <= x < Pow2(w) ==> r == x
  {
    hide Pow2;
    Pow2Mono(w, 7);
    Pow2Values();
    x % Pow2(w)
  }

  function MaskedLars(larc: seq<int16>): (r: seq<int16>)
    requires |larc| == 8
    ensures |r| == 8 && forall i :: 0 <= i < 8 ==> r[i] == Low(larc[i], LarWidth(i))
  {
    hide Low;
    seq<int16>(8, i requires 0 <= i < 8 => Low(larc[i], LarWidth(i)))
  }

  function MaskedSub(s: Sub): (r: Sub)
    requires |s.xMc| == 13
    ensures |r.xMc| == 13 && forall i :: 0 <= i < 13 ==> r.xMc[i] == Low(s.xMc[i], 3)
  {
    hide Low;
    Sub(Low(s.nc, 7), Low(s.bc, 2), Low(s.mc, 2), Low(s.xmaxc, 6),
        seq<int16>(13, i requires 0 <= i < 13 => Low(s.xMc[i], 3)))
  }

  /** The frame with every parameter cut to its width. */
  function Masked(f: Frame): (r: Frame)
    requires Shaped(f)
    ensures |r.larc| == 8 && |r.subs| == 4
    ensures forall j :: 0 <= j < 4 ==> r.subs[j] == MaskedSub(f.subs[j])
  {
    hide MaskedSub, MaskedLars;
    Frame(MaskedLars(f.larc), [MaskedSub(f.subs[0]), MaskedSub(f.subs[1]), MaskedSub(f.subs[2]), MaskedSub(f.subs[3])])
  }

  lemma MaskedSubInRange(s: Sub)
    requires |s.xMc| == 13
    ensures SubInRange(MaskedSub(s))
    ensures SubInRange(s) ==> MaskedSub(s) == s
  {
    hide Low, Pow2;
    Pow2Values();
    if SubInRange(s) {
      assert MaskedSub(s).xMc == s.xMc;
    }
  }

  /** Cutting makes every frame sendable, and leaves a frame that already is. */
  lemma MaskedInRange(f: Frame)
    requires Shaped(f)
    ensures InRange(Masked(f))
    ensures InRange(f) ==> Masked(f) == f
  {
    hide Low, MaskedSub, SubInRange, Pow2;
    forall j | 0 <= j < 4
      ensures SubInRange(MaskedSub(f.subs[j])) && |MaskedSub(f.subs[j]).xMc| == 13
      ensures SubInRange(f.subs[j]) ==> MaskedSub(f.subs[j]) == f.subs[j]
    {
      MaskedSubInRange(f.subs[j]);
    }
    if InRange(f) {
      assert MaskedLars(f.larc) == f.larc;
      assert Masked(f).subs == f.subs;
    }
  }

  // ----- a frame as a list of parameters with their widths

  /** A parameter and its width. */
  type Field = (int, nat)

  predicate Fits(f: Field) {
    0 <= f.0 < Pow2(f.1) && f.1 <= 7
  }

  predicate AllFit(fs: seq<Field>) {
    forall i :: 0 <= i < |fs| ==> Fits(fs[i])
  }

  function SubFields(s: Sub): (fs: seq<Field>)
    requires |s.xMc| == 13
    ensures |fs| == 17
  {
    HeadFields(s) + TailFields(s)
  }

  /** Lag, gain, grid and block maximum, and the first three pulses. */
  function HeadFields(s: Sub): (fs: seq<Field>)
    requires |s.xMc| == 13
    ensures |fs| == 7
  {
    [(s.nc as int, 7), (s.bc as int, 2), (s.mc as int, 2), (s.xmaxc as int, 6),
     (s.xMc[0] as int, 3), (s.xMc[1] as int, 3), (s.xMc[2] as int, 3)]
  }

  /** The other ten pulses. */
  function TailFields(s: Sub): (fs: seq<Field>)
    requires |s.xMc| == 13
    ensures |fs| == 10
  {
    [(s.xMc[3] as int, 3), (s.xMc[4] as int, 3), (s.xMc[5] as int, 3), (s.xMc[6] as int, 3),
     (s.xMc[7] as int, 3), (s.xMc[8] as int, 3), (s.xMc[9] as int, 3), (s.xMc[10] as int, 3),
     (s.xMc[11] as int, 3), (s.xMc[12] as int, 3)]
  }

  function LarFields(larc: seq<int16>): (fs: seq<Field>)
    requires |larc| == 8
    ensures |fs| == 8 && forall i :: 0 <= i < 8 ==> fs[i] == (larc[i] as int, LarWidth(i))
  {
    seq(8, i requires 0 <= i < 8 => (larc[i] as int, LarWidth(i)))
  }

  /** The first `n` sub-segments. */
  function SubsFields(subs: seq<Sub>, n: nat): (fs: seq<Field>)
    requires n <= |subs| && forall j :: 0 <= j < |subs| ==> |subs[j].xMc| == 13
    ensures |fs| == 17 * n
  {
    if n == 0 then [] else SubsFields(subs, n - 1) + SubFields(subs[n - 1])
  }

  function FrameFields(f: Frame): (fs: seq<Field>)
    requires Shaped(f)
    ensures |fs| == 76
  {
    LarFields(f.larc) + SubsFields(f.subs, 4)
  }

  /** The order of the parameters, and their widths: eight ratio codes, and for each of the four sub-segments lag,
      gain, grid, block maximum and thirteen pulses. */
  lemma FieldsInOrder(f: Frame, k: nat, j: nat, i: nat)
    requires Shaped(f) && k < 8 && j < 4 && i < 13
    ensures FrameFields(f)[k] == (f.larc[k] as int, if k < 2 then 6 else if k < 4 then 5 else if k < 6 then 4 else 3)
    ensures var (fs, s) := (FrameFields(f)[8 + 17 * j..], f.subs[j]);
            && fs[0] == (s.nc as int, 7) && fs[1] == (s.bc as int, 2) && fs[2] == (s.mc as int, 2)
            && fs[3] == (s.xmaxc as int, 6) && fs[4 + i] == (s.xMc[i] as int, 3)
  {
    hide SubFields;
    SubsFieldsInOrder(f.subs, j, 4);
    SubFieldsInOrder(f.subs[j], i);
    var tail := FrameFields(f)[8 + 17 * j..];
    assert tail[..17] == SubFields(f.subs[j]);
    assert forall q :: 0 <= q < 17 ==> tail[q] == tail[..17][q];
  }

  lemma SubFieldsInOrder(s: Sub, i: nat)
    requires |s.xMc| == 13 && i < 13
    ensures var fs := SubFields(s);
            && fs[0] == (s.nc as int, 7) && fs[1] == (s.bc as int, 2) && fs[2] == (s.mc as int, 2)
            && fs[3] == (s.xmaxc as int, 6) && fs[4 + i] == (s.xMc[i] as int, 3)
  {
  }

  lemma {:induction false} SubsFieldsInOrder(subs: seq<Sub>, j: nat, n: nat)
    requires j < n <= |subs| && forall q :: 0 <= q < |subs| ==> |subs[q].xMc| == 13
    ensures |SubsFields(subs, n)| == 17 * n && SubsFields(subs, n)[17 * j..17 * j + 17] == SubFields(subs[j])
  {
    hide SubFields;
    if j < n - 1 {
      SubsFieldsInOrder(subs, j, n - 1);
    }
  }

  lemma SubFieldsFit(s: Sub)
    requires SubInRange(s)
    ensures AllFit(SubFields(s))
  {
    Pow2Values();
  }

  lemma {:induction false} SubsFieldsFit(subs: seq<Sub>, n: nat)
    requires n <= |subs| && forall j :: 0 <= j < |subs| ==> |subs[j].xMc| == 13
    requires forall j :: 0 <= j < |subs| ==> SubInRange(subs[j])
    ensures AllFit(SubsFields(subs, n))
  {
    hide SubInRange, SubFields, Fits;
    if n > 0 {
      SubsFieldsFit(subs, n - 1);
      SubFieldsFit(subs[n - 1]);
    }
  }

  lemma FrameFieldsFit(f: Frame)
    requires InRange(f)
    ensures AllFit(FrameFields(f))
  {
    hide SubsFields, SubInRange;
    assert AllFit(LarFields(f.larc)) by { Pow2Values(); }
    SubsFieldsFit(f.subs, 4);
  }

  // ----- the unpacked format: one byte a parameter

  function SubBytes(s: Sub): (r: seq<byte>)
    ensures |r| == 4 + |s.xMc|
  {
    [ToByte(s.nc), ToByte(s.bc), ToByte(s.mc), ToByte(s.xmaxc)]
    + seq(|s.xMc|, k requires 0 <= k < |s.xMc| => ToByte(s.xMc[k]))
  }

  function PackNone(f: Frame): (c: seq<byte>)
    requires Shaped(f)
    ensures |c| == 76
  {
    hide SubBytes;
    seq(8, k requires 0 <= k < 8 => ToByte(f.larc[k]))
    + SubBytes(f.subs[0]) + SubBytes(f.subs[1]) + SubBytes(f.subs[2]) + SubBytes(f.subs[3])
  }

  /** The unpacked format: byte `k` is parameter `k`. */
  lemma NoneIsFields(f: Frame, k: nat)
    requires Shaped(f) && k < 76
    ensures PackNone(f)[k] == ToByte(FrameFields(f)[k].0)
  {
    hide SubFields, SubBytes, LarWidth;
    if k < 8 {
      FieldsInOrder(f, k, 0, 0);
    } else {
      var j, q := (k - 8) / 17, (k - 8) % 17;
      SubsFieldsInOrder(f.subs, j, 4);
      SubNoneIsFields(f.subs[j], q);
      assert PackNone(f)[8 + 17 * j..25 + 17 * j] == SubBytes(f.subs[j]);
      assert PackNone(f)[8 + 17 * j..25 + 17 * j][q] == PackNone(f)[k];
      assert SubsFields(f.subs, 4)[17 * j..17 * j + 17][q] == FrameFields(f)[k];
    }
  }

  lemma SubNoneIsFields(s: Sub, q: nat)
    requires |s.xMc| == 13 && q < 17
    ensures SubBytes(s)[q] == ToByte(SubFields(s)[q].0)
  {
  }

  function SubFromBytes(c: seq<byte>): Sub
    requires |c| == 17
  {
    Sub(c[0], c[1], c[2], c[3], seq(13, k requires 0 <= k < 13 => c[4 + k]))
  }

  function UnpackNone(c: seq<byte>): (f: Frame)
    requires |c| == 76
    ensures Shaped(f)
  {
    Frame(seq(8, k requires 0 <= k < 8 => c[k]),
          [SubFromBytes(c[8..25]), SubFromBytes(c[25..42]), SubFromBytes(c[42..59]), SubFromBytes(c[59..])])
  }

  lemma SubBytesRoundTrip(s: Sub)
    requires SubInRange(s)
    ensures SubFromBytes(SubBytes(s)) == s
  {
  }

  /** Any frame whose parameters fit a byte survives the unpacked format. */
  lemma NoneRoundTrip(f: Frame)
    requires InRange(f)
    ensures UnpackNone(PackNone(f)) == f
  {
    hide SubBytes, SubFromBytes, SubInRange;
    var c := PackNone(f);
    var a := seq(8, k requires 0 <= k < 8 => ToByte(f.larc[k]));
    FiveParts(a, SubBytes(f.subs[0]), SubBytes(f.subs[1]), SubBytes(f.subs[2]), SubBytes(f.subs[3]));
    LarBelowByte(f);
    forall j | 0 <= j < 4
      ensures SubFromBytes(SubBytes(f.subs[j])) == f.subs[j]
    {
      SubBytesRoundTrip(f.subs[j]);
    }
    assert UnpackNone(c).larc == f.larc;
    assert UnpackNone(c).subs == f.subs;
  }

  lemma LarBelowByte(f: Frame)
    requires InRange(f)
    ensures forall i :: 0 <= i < 8 ==> 0 <= f.larc[i] < 256
  {
    Pow2Values();
  }

  lemma FiveParts(a: seq<byte>, s0: seq<byte>, s1: seq<byte>, s2: seq<byte>, s3: seq<byte>)
    requires |a| == 8 && |s0| == 17 && |s1| == 17 && |s2| == 17 && |s3| == 17
    ensures var c := a + s0 + s1 + s2 + s3;
            && c[..8] == a && c[8..25] == s0 && c[25..42] == s1 && c[42..59] == s2 && c[59..] == s3
            && forall k :: 0 <= k < 8 ==> c[k] == a[k]
  {
  }

  /** One sub-segment of `gsm0610_pack_none`, written behind the bytes that are there. */
  method PackSub(written: seq<byte>, s: Sub) returns (c: seq<byte>)
    requires |s.xMc| == 13
    ensures c == written + SubBytes(s)
  {
    hide ToByte;
    c := written + [ToByte(s.nc)];
    c := c + [ToByte(s.bc)];
    c := c + [ToByte(s.mc)];
    c := c + [ToByte(s.xmaxc)];
    var k := 0;
    while k < 13
      invariant 0 <= k <= 13
      invariant c == written + SubBytes(s)[..4 + k]
    {
      c := c + [ToByte(s.xMc[k])];
      k := k + 1;
    }
    assert SubBytes(s)[..17] == SubBytes(s);
  }

  /** `gsm0610_pack_none`. */
  method PackNoneInto(f: Frame) returns (c: seq<byte>)
    requires Shaped(f)
    ensures c == PackNone(f)
  {
    hide ToByte, SubBytes;
    c := [];
    var j := 0;
    while j < 8
      invariant 0 <= j <= 8 && |c| == j
      invariant forall k :: 0 <= k < j ==> c[k] == ToByte(f.larc[k])
    {
      c := c + [ToByte(f.larc[j])];
      j := j + 1;
    }
    var head := c;
    assert head == seq(8, k requires 0 <= k < 8 => ToByte(f.larc[k]));
    ghost var subs: seq<byte> := [];
    j := 0;
    while j < 4
      invariant 0 <= j <= 4
      invariant subs == AllSubBytes(f, j)
      invariant c == head + subs
    {
      c := PackSub(c, f.subs[j]);
      subs := subs + SubBytes(f.subs[j]);
      j := j + 1;
    }
    AllSubBytesUnfold(f);
  }

  function AllSubBytes(f: Frame, n: nat): seq<byte>
    requires Shaped(f) && n <= 4
  {
    hide SubBytes;
    if n == 0 then [] else AllSubBytes(f, n - 1) + SubBytes(f.subs[n - 1])
  }

  lemma AllSubBytesUnfold(f: Frame)
    requires Shaped(f)
    ensures AllSubBytes(f, 4)
         == SubBytes(f.subs[0]) + SubBytes(f.subs[1]) + SubBytes(f.subs[2]) + SubBytes(f.subs[3])
  {
    hide SubBytes;
    assert AllSubBytes(f, 1) == SubBytes(f.subs[0]);
    assert AllSubBytes(f, 2) == AllSubBytes(f, 1) + SubBytes(f.subs[1]);
    assert AllSubBytes(f, 3) == AllSubBytes(f, 2) + SubBytes(f.subs[2]);
  }

  /** `gsm0610_unpack_none`. */
  method UnpackNoneFrom(c: seq<byte>) returns (f: Frame)
    requires |c| == 76
    ensures f == UnpackNone(c)
  {
    var i := 0;
    var larc: seq<int16> := [];
    while i < 8
      invariant 0 <= i <= 8 && |larc| == i
      invariant forall k :: 0 <= k < i ==> larc[k] == c[k]
    {
      larc := larc + [c[i]];
      i := i + 1;
    }
    var subs: seq<Sub> := [];
    var j := 0;
    while j < 4
      invariant 0 <= j <= 4 && i == 8 + 17 * j && |subs| == j
      invariant forall k :: 0 <= k < j ==> subs[k] == SubFromBytes(c[8 + 17 * k..25 + 17 * k])
    {
      ghost var start := i;
      var nc, bc, mc, xmaxc := c[i], c[i + 1], c[i + 2], c[i + 3];
      i := i + 4;
      var xMc: seq<int16> := [];
      var k := 0;
      while k < 13
        invariant 0 <= k <= 13 && i == start + 4 + k && |xMc| == k
        invariant forall m :: 0 <= m < k ==> xMc[m] == c[start + 4 + m]
      {
        xMc := xMc + [c[i]];
        i := i + 1;
        k := k + 1;
      }
      assert Sub(nc, bc, mc, xmaxc, xMc) == SubFromBytes(c[start..start + 17]);
      subs := subs + [Sub(nc, bc, mc, xmaxc, xMc)];
      j := j + 1;
    }
    f := Frame(larc, subs);
    assert larc == UnpackNone(c).larc;
    assert c[59..] == c[59..76];
    assert subs == UnpackNone(c).subs;
  }
}
