/** The 65-byte packing of two GSM 06.10 frames (jni/spandsp/gsm0610_encode.c and
    jni/spandsp/gsm0610_decode.c): all parameters one after the other, least significant bit first,
    moved through a sixteen-bit shift register. */
module GsmWav49 {
  import opened FixedPoint
  import opened Bits
  import opened GsmFrame

  function FieldBits(f: Field): seq<bool> {
    if f.0 < 0 then [] else LsbBits(f.0, f.1)
  }

  /** The bits of a list of parameters. */
  function FieldsBits(fs: seq<Field>): seq<bool> {
    if fs == [] then [] else FieldsBits(fs[..|fs| - 1]) + FieldBits(fs[|fs| - 1])
  }

  /** The bits of a list of bytes. */
  function BytesBits(c: seq<byte>): (bits: seq<bool>)
    ensures |bits| == 8 * |c|
  {
    if c == [] then [] else BytesBits(c[..|c| - 1]) + LsbBits(c[|c| - 1], 8)
  }

  // ----- appending

  lemma FieldsNext(fs: seq<Field>, f: Field)
    ensures FieldsBits(fs + [f]) == FieldsBits(fs) + FieldBits(f)
  {
    assert (fs + [f])[..|fs|] == fs;
  }

  lemma BytesNext(c: seq<byte>, b: byte)
    ensures BytesBits(c + [b]) == BytesBits(c) + LsbBits(b, 8)
  {
    assert (c + [b])[..|c|] == c;
  }

  lemma {:induction false} FieldsAppend(a: seq<Field>, b: seq<Field>)
    ensures FieldsBits(a + b) == FieldsBits(a) + FieldsBits(b)
  {
    hide FieldBits;
    if b == [] {
      assert a + b == a;
      assert FieldsBits(a) + [] == FieldsBits(a);
    } else {
      var n := |b| - 1;
      FieldsAppend(a, b[..n]);
      assert (a + b)[..|a| + n] == a + b[..n];
      ConcatAssoc(FieldsBits(a), FieldsBits(b[..n]), FieldBits(b[n]));
    }
  }

  // ----- the writer's shift register

  /** The last sixteen bits written, padded with zeros in front. */
  function Window(bits: seq<bool>): (w: seq<bool>)
    ensures |w| == 16
  {
    var all := ZeroBits(16) + bits;
    all[|all| - 16..]
  }

  function ZeroBits(n: nat): (z: seq<bool>)
    ensures |z| == n && forall i :: 0 <= i < n ==> !z[i]
  {
    seq(n, i => false)
  }

  /** `sr = (sr >> w) | (v << (16 - w))` in sixteen bits: of any parameter only the low `w` bits survive. */
  function ShiftIn(sr: nat, v: int, w: nat): nat
    requires w <= 16
  {
    DivFits(sr, Pow2(w));
    BitOr(sr / Pow2(w), v * Pow2(16 - w) % 0x10000) % 0x10000
  }

  lemma ShiftInMasks(sr: nat, v: int, w: nat)
    requires w <= 7
    ensures ShiftIn(sr, v, w) == ShiftIn(sr, Low(v, w), w)
  {
    hide BitOr, Pow2;
    Pow2Add(w, 16 - w);
    Pow2Values();
    LowShifted(v, Pow2(w), Pow2(16 - w));
    LowShifted(Low(v, w), Pow2(w), Pow2(16 - w));
  }

  lemma LowShifted(v: int, p: nat, q: nat)
    requires p > 0 && p * q == 0x10000
    ensures v * q % 0x10000 == v % p * q
  {
    var k, r := v / p, v % p;
    assert v == k * p + r;
    assert v * q == k * (p * q) + r * q;
    MulMono(r, q, p - 1, q);
    assert (p - 1) * q == p * q - q;
    assert r * q < 0x10000;
    assert v * q == k * 0x10000 + r * q;
  }

  lemma NothingAbove(v: nat, w: nat)
    requires w <= 16 && v < Pow2(w)
    ensures 0 <= v * Pow2(16 - w) < 0x10000
  {
    hide Pow2;
    Pow2Add(w, 16 - w);
    Pow2Values();
    MulMono(v, Pow2(16 - w), Pow2(w) - 1, Pow2(16 - w));
    assert (Pow2(w) - 1) * Pow2(16 - w) == Pow2(w) * Pow2(16 - w) - Pow2(16 - w);
  }

  lemma ShiftInBits(sr: nat, v: nat, w: nat, bits: seq<bool>)
    requires sr < 0x10000 && 1 <= w <= 7 && v < Pow2(w)
    requires LsbBits(sr, 16) == Window(bits)
    ensures ShiftIn(sr, v, w) < 0x10000
    ensures LsbBits(ShiftIn(sr, v, w), 16) == Window(bits + LsbBits(v, w))
  {
    hide LsbBits, BitOr, Pow2;
    Pow2Values();
    var p := Pow2(w);
    var hi, lo := sr / p, sr % p;
    Pow2Add(w, 16 - w);
    UpperPart(sr, p, Pow2(16 - w));
    LsbConcat(lo, w, hi, 16 - w);
    OrIsSum(hi, 16 - w, v);
    NothingAbove(v, w);
    StackedBelow(hi, Pow2(16 - w), v, p);
    LsbConcat(hi, 16 - w, v, w);
    assert LsbBits(ShiftIn(sr, v, w), 16) == LsbBits(hi, 16 - w) + LsbBits(v, w);
    assert LsbBits(sr, 16) == LsbBits(lo, w) + LsbBits(hi, 16 - w);
    WindowSlides(bits, LsbBits(v, w), LsbBits(lo, w), LsbBits(hi, 16 - w));
  }

  lemma UpperPart(x: nat, p: nat, q: nat)
    requires p > 0 && x < p * q
    ensures 0 <= x / p < q && 0 <= x % p < p && x == x % p + x / p * p
  {
    DivFits(x, p);
    var t := x / p;
    assert t >= q ==> t * p >= q * p;
  }

  lemma WindowSlides(bits: seq<bool>, added: seq<bool>, lo: seq<bool>, hi: seq<bool>)
    requires |added| == |lo| <= 16 && |lo| + |hi| == 16 && Window(bits) == lo + hi
    ensures Window(bits + added) == hi + added
  {
    var all := ZeroBits(16) + bits;
    assert ZeroBits(16) + (bits + added) == all + added;
    assert all[|all| - 16..][|lo|..] == hi;
  }

  /** `(uint8_t) (sr >> k)`: with `pending` bits not yet written out and `k == 16 - pending`, the
      next byte of the stream. */
  lemma ByteOut(sr: nat, k: nat, bits: seq<bool>, pending: nat)
    requires sr < 0x10000 && 8 <= pending <= 16 && k == 16 - pending && pending <= |bits|
    requires LsbBits(sr, 16) == Window(bits)
    ensures 0 <= sr / Pow2(k) % 256
    ensures LsbBits(sr / Pow2(k) % 256, 8) == bits[|bits| - pending..|bits| - pending + 8]
  {
    hide LsbBits, Pow2;
    Pow2Values();
    var t := sr / Pow2(k);
    RegisterSplits(sr, k);
    var w := Window(bits);
    WindowPart(LsbBits(sr % Pow2(k), k), LsbBits(t % 256, 8), LsbBits(t / 256, 8 - k), w);
    WindowTail(bits, k);
  }

  lemma WindowTail(bits: seq<bool>, k: nat)
    requires k <= 8 && 16 - k <= |bits|
    ensures Window(bits)[k..k + 8] == bits[|bits| - 16 + k..|bits| - 16 + k + 8]
  {
    hide ZeroBits;
    var all := ZeroBits(16) + bits;
    var n := |bits| - 16 + k;
    var a, b := Window(bits)[k..k + 8], bits[n..n + 8];
    forall i | 0 <= i < 8
      ensures a[i] == b[i]
    {
      assert Window(bits)[k + i] == all[|bits| + k + i];
      assert all[16 + (n + i)] == bits[n + i];
    }
    assert a == b;
  }

  lemma RegisterSplits(sr: nat, k: nat)
    requires sr < 0x10000 && k <= 8
    ensures 0 <= sr / Pow2(k) && 0 <= sr % Pow2(k)
    ensures var t := sr / Pow2(k);
            LsbBits(sr, 16) == LsbBits(sr % Pow2(k), k) + (LsbBits(t % 256, 8) + LsbBits(t / 256, 8 - k))
  {
    hide LsbBits, Pow2;
    Pow2Values();
    Pow2Add(k, 16 - k);
    UpperPart(sr, Pow2(k), Pow2(16 - k));
    var t := sr / Pow2(k);
    LsbConcat(sr % Pow2(k), k, t, 16 - k);
    LowByte(t, 8 - k);
  }

  lemma LowByte(t: nat, n: nat)
    requires t < Pow2(8 + n)
    ensures LsbBits(t, 8 + n) == LsbBits(t % 256, 8) + LsbBits(t / 256, n)
  {
    hide LsbBits, Pow2;
    Pow2Values();
    Pow2Add(8, n);
    UpperPart(t, 256, Pow2(n));
    LsbConcat(t % 256, 8, t / 256, n);
  }

  lemma WindowPart(a: seq<bool>, b: seq<bool>, c: seq<bool>, w: seq<bool>)
    requires w == a + (b + c) && |b| == 8
    ensures w[|a|..|a| + 8] == b
  {
  }

  /** The local variables of `gsm0610_pack_wav49`: the shift register and the bytes written. */
  class Writer {
    var sr: nat
    var c: seq<byte>
    ghost var fields: seq<Field>

    ghost predicate Valid()
      reads this
    {
      && sr < 0x10000
      && AllFit(fields)
      && LsbBits(sr, 16) == Window(FieldsBits(fields))
      && 8 * |c| <= |FieldsBits(fields)| <= 8 * |c| + 16
      && BytesBits(c) == FieldsBits(fields)[..8 * |c|]
    }

    /** How many bits are in the register but not yet written out. */
    ghost function Pending(): int
      reads this
    {
      |FieldsBits(fields)| - 8 * |c|
    }

    constructor ()
      ensures Valid() && fields == [] && c == [] && Pending() == 0
    {
      sr := 0;
      c := [];
      fields := [];
      new;
      ZeroWindow();
    }

    /** `sr = (sr >> w) | (v << (16 - w))`. */
    method Put(v: int, w: nat)
      requires Valid() && 1 <= w <= 7 && Pending() + w <= 16
      modifies this
      ensures Valid() && fields == old(fields) + [(Low(v, w) as int, w)]
      ensures c == old(c) && Pending() == old(Pending()) + w
    {
      hide ShiftIn, LsbBits, Window, Pow2, Low;
      ghost var low: int := Low(v, w);
      ShiftInMasks(sr, v, w);
      ShiftInBits(sr, low, w, FieldsBits(fields));
      FieldsNext(fields, (low, w));
      sr := ShiftIn(sr, v, w);
      fields := fields + [(low, w)];
    }

    /** `*c++ = (uint8_t) (sr >> k)`: the shift must be the one that the pending bits call for. */
    method Out(k: nat)
      requires Valid() && Pending() >= 8 && k == 16 - Pending()
      modifies this
      ensures Valid() && fields == old(fields) && |c| == |old(c)| + 1 && Pending() == old(Pending()) - 8
    {
      hide LsbBits, Window, Pow2, AllFit;
      var b := sr / Pow2(k) % 256;
      ByteOut(sr, k, FieldsBits(fields), Pending());
      BytesNext(c, b);
      ghost var bits := FieldsBits(fields);
      assert bits[..8 * |c|] + bits[8 * |c|..8 * |c| + 8] == bits[..8 * |c| + 8];
      c := c + [b];
    }
  }

  lemma ZeroWindow()
    ensures LsbBits(0, 16) == Window([])
  {
    ZeroLsb(16);
    assert ZeroBits(16) + [] == ZeroBits(16);
  }

  lemma {:induction false} ZeroLsb(n: nat)
    ensures LsbBits(0, n) == ZeroBits(n)
  {
    if n > 0 {
      ZeroLsb(n - 1);
    }
  }

  // ----- packing

  /** What both frames together put on the wire. */
  function PairFields(f: Frame, g: Frame): (fs: seq<Field>)
    requires Shaped(f) && Shaped(g)
    ensures |fs| == 152
  {
    FrameFields(f) + FrameFields(g)
  }

  /** The eight ratios of the first frame. */
  method PutFirstLars(w: Writer, larc: seq<int16>)
    requires w.Valid() && w.Pending() == 0
    requires |larc| == 8
    modifies w
    ensures w.Valid() && w.Pending() == 4 && |w.c| == |old(w.c)| + 4
    ensures w.fields == old(w.fields) + LarFields(MaskedLars(larc))
  {
    hide Pow2, Writer.Valid, Writer.Pending, FieldsBits, BytesBits, Window, AllFit, LsbBits, Low;
    w.Put(larc[0], 6);
    w.Put(larc[1], 6);
    w.Out(4);
    w.Put(larc[2], 5);
    w.Out(7);
    w.Put(larc[3], 5);
    w.Put(larc[4], 4);
    w.Out(6);
    w.Put(larc[5], 4);
    w.Put(larc[6], 3);
    w.Out(7);
    w.Put(larc[7], 3);
  }

  /** The head of a sub-segment of the first frame. */
  method PutFirstHead(w: Writer, s: Sub)
    requires w.Valid() && w.Pending() == 4 && |s.xMc| == 13
    modifies w
    ensures w.Valid() && w.Pending() == 6 && |w.c| == |old(w.c)| + 3
    ensures w.fields == old(w.fields) + HeadFields(MaskedSub(s))
  {
    hide Pow2, Writer.Valid, Writer.Pending, FieldsBits, BytesBits, Window, AllFit, LsbBits, Low;
    w.Put(s.nc, 7);
    w.Out(5);
    w.Put(s.bc, 2);
    w.Put(s.mc, 2);
    w.Put(s.xmaxc, 6);
    w.Out(3);
    w.Put(s.xMc[0], 3);
    w.Out(8);
    w.Put(s.xMc[1], 3);
    w.Put(s.xMc[2], 3);
  }

  /** The tail of a sub-segment of the first frame. */
  method PutFirstTail(w: Writer, s: Sub)
    requires w.Valid() && w.Pending() == 6 && |s.xMc| == 13
    modifies w
    ensures w.Valid() && w.Pending() == 4 && |w.c| == |old(w.c)| + 4
    ensures w.fields == old(w.fields) + TailFields(MaskedSub(s))
  {
    hide Pow2, Writer.Valid, Writer.Pending, FieldsBits, BytesBits, Window, AllFit, LsbBits, Low;
    w.Put(s.xMc[3], 3);
    w.Out(7);
    w.Put(s.xMc[4], 3);
    w.Put(s.xMc[5], 3);
    w.Put(s.xMc[6], 3);
    w.Out(6);
    w.Put(s.xMc[7], 3);
    w.Put(s.xMc[8], 3);
    w.Out(8);
    w.Put(s.xMc[9], 3);
    w.Put(s.xMc[10], 3);
    w.Put(s.xMc[11], 3);
    w.Out(7);
    w.Put(s.xMc[12], 3);
  }

  /** The eight ratios of the second frame, which starts in the middle of a byte. */
  method PutSecondLars(w: Writer, larc: seq<int16>)
    requires w.Valid() && w.Pending() == 4
    requires |larc| == 8
    modifies w
    ensures w.Valid() && w.Pending() == 0 && |w.c| == |old(w.c)| + 5
    ensures w.fields == old(w.fields) + LarFields(MaskedLars(larc))
  {
    hide Pow2, Writer.Valid, Writer.Pending, FieldsBits, BytesBits, Window, AllFit, LsbBits, Low;
    w.Put(larc[0], 6);
    w.Out(6);
    w.Put(larc[1], 6);
    w.Out(8);
    w.Put(larc[2], 5);
    w.Put(larc[3], 5);
    w.Out(6);
    w.Put(larc[4], 4);
    w.Put(larc[5], 4);
    w.Out(6);
    w.Put(larc[6], 3);
    w.Put(larc[7], 3);
    w.Out(8);
  }

  /** The head of a sub-segment of the second frame. */
  method PutSecondHead(w: Writer, s: Sub)
    requires w.Valid() && w.Pending() == 0 && |s.xMc| == 13
    modifies w
    ensures w.Valid() && w.Pending() == 2 && |w.c| == |old(w.c)| + 3
    ensures w.fields == old(w.fields) + HeadFields(MaskedSub(s))
  {
    hide Pow2, Writer.Valid, Writer.Pending, FieldsBits, BytesBits, Window, AllFit, LsbBits, Low;
    w.Put(s.nc, 7);
    w.Put(s.bc, 2);
    w.Out(7);
    w.Put(s.mc, 2);
    w.Put(s.xmaxc, 6);
    w.Out(7);
    w.Put(s.xMc[0], 3);
    w.Put(s.xMc[1], 3);
    w.Put(s.xMc[2], 3);
    w.Out(6);
  }

  /** The tail of a sub-segment of the second frame. */
  method PutSecondTail(w: Writer, s: Sub)
    requires w.Valid() && w.Pending() == 2 && |s.xMc| == 13
    modifies w
    ensures w.Valid() && w.Pending() == 0 && |w.c| == |old(w.c)| + 4
    ensures w.fields == old(w.fields) + TailFields(MaskedSub(s))
  {
    hide Pow2, Writer.Valid, Writer.Pending, FieldsBits, BytesBits, Window, AllFit, LsbBits, Low;
    w.Put(s.xMc[3], 3);
    w.Put(s.xMc[4], 3);
    w.Out(8);
    w.Put(s.xMc[5], 3);
    w.Put(s.xMc[6], 3);
    w.Put(s.xMc[7], 3);
    w.Out(7);
    w.Put(s.xMc[8], 3);
    w.Put(s.xMc[9], 3);
    w.Put(s.xMc[10], 3);
    w.Out(6);
    w.Put(s.xMc[11], 3);
    w.Put(s.xMc[12], 3);
    w.Out(8);
  }

  // ----- the format as a pair of inverse functions

  function Widths(fs: seq<Field>): (ws: seq<nat>)
    ensures |ws| == |fs| && forall i :: 0 <= i < |fs| ==> ws[i] == fs[i].1
  {
    seq(|fs|, i requires 0 <= i < |fs| => fs[i].1)
  }

  /** The width of the parameter at position `i` of a frame. */
  function WidthAt(i: nat): nat
    requires i < 76
  {
    if i < 8 then LarWidth(i) else SubWidth((i - 8) % 17)
  }

  function FrameWidths(): (ws: seq<nat>)
    ensures |ws| == 76 && forall i :: 0 <= i < 76 ==> ws[i] == WidthAt(i)
  {
    seq(76, i requires 0 <= i < 76 => WidthAt(i))
  }

  function TotalWidth(ws: seq<nat>): nat {
    if ws == [] then 0 else TotalWidth(ws[..|ws| - 1]) + ws[|ws| - 1]
  }

  lemma {:induction false} TotalWidthAppend(a: seq<nat>, b: seq<nat>)
    ensures TotalWidth(a + b) == TotalWidth(a) + TotalWidth(b)
  {
    if b == [] {
      assert a + b == a;
    } else {
      TotalWidthAppend(a, b[..|b| - 1]);
      assert (a + b)[..|a| + |b| - 1] == a + b[..|b| - 1];
    }
  }

  /** A frame is 260 bits: 36 for the ratios and four times 56. */
  lemma FrameWidthIs260()
    ensures TotalWidth(FrameWidths()) == 260
  {
    hide TotalWidth, Expected;
    var ws := FrameWidths();
    WidthUpTo(76);
    assert ws[..76] == ws;
  }

  function Expected(n: nat): nat
    requires n <= 76
  {
    if n == 0 then 0 else Expected(n - 1) + WidthAt(n - 1)
  }

  lemma {:induction false} WidthUpTo(n: nat)
    requires n <= 76
    ensures TotalWidth(FrameWidths()[..n]) == Expected(n)
    ensures Expected(n) ==
            (if n <= 2 then 6 * n else if n <= 4 then 12 + 5 * (n - 2) else if n <= 6 then 22 + 4 * (n - 4)
             else if n <= 8 then 30 + 3 * (n - 6)
             else 36 + 56 * ((n - 8) / 17) + SubExpected((n - 8) % 17))
  {
    hide FrameWidths;
    if n > 0 {
      WidthUpTo(n - 1);
      assert FrameWidths()[..n][..n - 1] == FrameWidths()[..n - 1];
      if n > 8 {
        NextInSub(n - 9);
      }
    }
  }

  function SubExpected(k: nat): nat
    requires k < 17
  {
    if k == 0 then 0 else if k <= 3 then 7 + 2 * (k - 1) else if k == 4 then 17 else 17 + 3 * (k - 4)
  }

  lemma NextInSub(m: nat)
    requires m < 68
    ensures 56 * (m / 17) + SubExpected(m % 17) + SubWidth(m % 17)
         == 56 * ((m + 1) / 17) + SubExpected((m + 1) % 17)
  {
    if m % 17 == 16 {
      assert (m + 1) / 17 == m / 17 + 1 && (m + 1) % 17 == 0;
    } else {
      assert (m + 1) / 17 == m / 17 && (m + 1) % 17 == m % 17 + 1;
    }
  }

  lemma FrameFieldWidth(f: Frame, i: nat)
    requires Shaped(f) && i < 76
    ensures FrameFields(f)[i].1 == WidthAt(i)
  {
    hide SubFields;
    if i >= 8 {
      SubsFieldAt(f.subs, 4, (i - 8) / 17, (i - 8) % 17);
      SubFieldWidth(f.subs[(i - 8) / 17], (i - 8) % 17);
    }
  }

  lemma SubFieldWidth(s: Sub, k: nat)
    requires |s.xMc| == 13 && k < 17
    ensures SubFields(s)[k].1 == SubWidth(k)
  {
  }

  lemma {:induction false} SubsFieldAt(subs: seq<Sub>, n: nat, j: nat, k: nat)
    requires n <= |subs| && forall j :: 0 <= j < |subs| ==> |subs[j].xMc| == 13
    requires j < n && k < 17
    ensures SubsFields(subs, n)[17 * j + k] == SubFields(subs[j])[k]
  {
    hide SubFields;
    if j < n - 1 {
      SubsFieldAt(subs, n - 1, j, k);
    }
  }

  /** The parameters that a bit string spells out, given their widths. */
  function Values(bits: seq<bool>, ws: seq<nat>): (fs: seq<Field>)
    requires |bits| == TotalWidth(ws)
    ensures |fs| == |ws|
    ensures forall i :: 0 <= i < |ws| ==> fs[i].1 == ws[i] && 0 <= fs[i].0 < Pow2(ws[i])
    decreases |ws|
  {
    if ws == [] then []
    else
      var cut := |bits| - ws[|ws| - 1];
      Values(bits[..cut], ws[..|ws| - 1]) + [(FromLsb(bits[cut..]) as int, ws[|ws| - 1])]
  }

  lemma NoFields()
    ensures FieldsBits([]) == []
  {
  }

  lemma {:induction false} BitsOfValues(bits: seq<bool>, ws: seq<nat>)
    requires |bits| == TotalWidth(ws)
    ensures FieldsBits(Values(bits, ws)) == bits
    decreases |ws|
  {
    hide FromLsb, LsbBits, FieldsBits;
    if ws == [] {
      NoFields();
    } else {
      var w := ws[|ws| - 1];
      var cut := |bits| - w;
      var before := Values(bits[..cut], ws[..|ws| - 1]);
      BitsOfValues(bits[..cut], ws[..|ws| - 1]);
      LsbOfBits(bits[cut..]);
      var last: Field := (FromLsb(bits[cut..]) as int, w);
      FieldsNext(before, last);
      assert bits == bits[..cut] + bits[cut..];
    }
  }

  /** Parameters of known widths can be told apart by their bits. */
  lemma {:induction false} FieldsAreUnique(a: seq<Field>, b: seq<Field>)
    requires AllFit(a) && AllFit(b) && Widths(a) == Widths(b)
    requires FieldsBits(a) == FieldsBits(b)
    ensures a == b
  {
    hide LsbBits, FromLsb, Pow2;
    assert |Widths(a)| == |Widths(b)|;
    if a != [] {
      var n := |a| - 1;
      assert Widths(a)[n] == Widths(b)[n];
      SameTail(FieldsBits(a[..n]), FieldBits(a[n]), FieldsBits(b[..n]), FieldBits(b[n]));
      LsbRoundTrip(a[n].0, a[n].1);
      LsbRoundTrip(b[n].0, b[n].1);
      assert Widths(a[..n]) == Widths(a)[..n] == Widths(b)[..n] == Widths(b[..n]);
      FieldsAreUnique(a[..n], b[..n]);
    }
  }

  lemma SameTail(a: seq<bool>, x: seq<bool>, b: seq<bool>, y: seq<bool>)
    requires a + x == b + y && |x| == |y|
    ensures a == b && x == y
  {
    assert |a| == |b|;
    assert (a + x)[..|a|] == a && (b + y)[..|b|] == b;
    assert (a + x)[|a|..] == x && (b + y)[|b|..] == y;
  }

  lemma {:induction false} BytesAreUnique(a: seq<byte>, b: seq<byte>)
    requires |a| == |b| && BytesBits(a) == BytesBits(b)
    ensures a == b
  {
    hide LsbBits, FromLsb;
    if a != [] {
      var n := |a| - 1;
      SameTail(BytesBits(a[..n]), LsbBits(a[n], 8), BytesBits(b[..n]), LsbBits(b[n], 8));
      assert Pow2(8) == 256;
      LsbRoundTrip(a[n], 8);
      LsbRoundTrip(b[n], 8);
      BytesAreUnique(a[..n], b[..n]);
    }
  }

  /** The bytes that a bit string spells out. */
  function BytesOf(bits: seq<bool>): (c: seq<byte>)
    requires |bits| % 8 == 0
    ensures 8 * |c| == |bits|
  {
    if bits == [] then []
    else
      assert Pow2(8) == 256;
      BytesOf(bits[..|bits| - 8]) + [FromLsb(bits[|bits| - 8..])]
  }

  lemma {:induction false} BitsOfBytes(bits: seq<bool>)
    requires |bits| % 8 == 0
    ensures BytesBits(BytesOf(bits)) == bits
  {
    hide LsbBits, FromLsb;
    if bits != [] {
      var cut := |bits| - 8;
      BitsOfBytes(bits[..cut]);
      LsbOfBits(bits[cut..]);
      assert Pow2(8) == 256;
      BytesNext(BytesOf(bits[..cut]), FromLsb(bits[cut..]));
      assert bits == bits[..cut] + bits[cut..];
    }
  }

  function SubFrom(fs: seq<Field>): (s: Sub)
    requires |fs| == 17 && forall k :: 0 <= k < 17 ==> 0 <= fs[k].0 < 128
    ensures |s.xMc| == 13
  {
    Sub(fs[0].0, fs[1].0, fs[2].0, fs[3].0, seq(13, i requires 0 <= i < 13 => fs[4 + i].0))
  }

  predicate FrameLike(fs: seq<Field>) {
    && |fs| == 76
    && forall i :: 0 <= i < 76 ==> fs[i].1 == WidthAt(i) && 0 <= fs[i].0 < Pow2(WidthAt(i))
  }

  lemma SmallFields(fs: seq<Field>)
    requires FrameLike(fs)
    ensures forall i :: 0 <= i < 76 ==> 0 <= fs[i].0 < 128
  {
    hide Pow2;
    Pow2Values();
  }

  function FrameFrom(fs: seq<Field>): (f: Frame)
    requires FrameLike(fs)
    ensures Shaped(f)
  {
    hide Pow2, SubFrom, WidthAt;
    SmallFields(fs);
    Frame(seq(8, i requires 0 <= i < 8 => fs[i].0),
          [SubFrom(fs[8..25]), SubFrom(fs[25..42]), SubFrom(fs[42..59]), SubFrom(fs[59..76])])
  }

  lemma SubOfFields(fs: seq<Field>)
    requires |fs| == 17 && forall k :: 0 <= k < 17 ==> fs[k].1 == SubWidth(k) && 0 <= fs[k].0 < Pow2(SubWidth(k))
    ensures forall k :: 0 <= k < 17 ==> 0 <= fs[k].0 < 128
    ensures SubFields(SubFrom(fs)) == fs && SubInRange(SubFrom(fs))
  {
    hide Pow2;
    Pow2Values();
    forall k | 0 <= k < 17
      ensures 0 <= fs[k].0 < 128
    {
      assert SubWidth(k) <= 7;
    }
    var s := SubFrom(fs);
    forall k | 0 <= k < 17
      ensures SubFields(s)[k] == fs[k]
    {
    }
  }

  /** The frame of a parameter list has exactly those parameters, and they are in range. */
  lemma FrameOfFields(fs: seq<Field>)
    requires FrameLike(fs)
    ensures FrameFields(FrameFrom(fs)) == fs && InRange(FrameFrom(fs))
  {
    hide Pow2, SubFrom, SubFields, SubInRange, WidthAt;
    SmallFields(fs);
    var f := FrameFrom(fs);
    SubSlice(fs, 0);
    SubSlice(fs, 1);
    SubSlice(fs, 2);
    SubSlice(fs, 3);
    LarSlice(fs);
    assert LarFields(f.larc) == fs[..8];
    assert SubsFields(f.subs, 1) == fs[8..25];
    assert SubsFields(f.subs, 2) == fs[8..25] + fs[25..42];
    assert SubsFields(f.subs, 3) == fs[8..25] + fs[25..42] + fs[42..59];
    assert SubsFields(f.subs, 4) == fs[8..25] + fs[25..42] + fs[42..59] + fs[59..76];
  }

  lemma LarSlice(fs: seq<Field>)
    requires FrameLike(fs)
    ensures forall i :: 0 <= i < 8 ==> fs[i].1 == LarWidth(i) && 0 <= fs[i].0 < Pow2(LarWidth(i))
  {
    hide Pow2;
  }

  lemma SubSlice(fs: seq<Field>, j: nat)
    requires FrameLike(fs) && j < 4
    ensures var sub := fs[8 + 17 * j..25 + 17 * j];
            && (forall k :: 0 <= k < 17 ==> 0 <= sub[k].0 < 128)
            && SubFields(SubFrom(sub)) == sub && SubInRange(SubFrom(sub))
  {
    hide Pow2;
    var sub := fs[8 + 17 * j..25 + 17 * j];
    forall k | 0 <= k < 17
      ensures sub[k].1 == SubWidth(k) && 0 <= sub[k].0 < Pow2(SubWidth(k))
    {
      assert sub[k] == fs[8 + 17 * j + k];
      assert (8 + 17 * j + k - 8) % 17 == k;
    }
    SubOfFields(sub);
  }

  /** The 65 bytes of a pair of frames. */
  function Packed(f: Frame, g: Frame): (c: seq<byte>)
    requires InRange(f) && InRange(g)
    ensures |c| == 65
  {
    PairBits520(f, g);
    BytesOf(FieldsBits(PairFields(f, g)))
  }

  lemma {:induction false} FieldsLength(fs: seq<Field>)
    requires AllFit(fs)
    ensures |FieldsBits(fs)| == TotalWidth(Widths(fs))
  {
    if fs != [] {
      FieldsLength(fs[..|fs| - 1]);
      assert Widths(fs)[..|fs| - 1] == Widths(fs[..|fs| - 1]);
    }
  }

  lemma FrameBits260(f: Frame)
    requires InRange(f)
    ensures |FieldsBits(FrameFields(f))| == 260 && Widths(FrameFields(f)) == FrameWidths()
  {
    hide FrameFields, WidthAt, InRange;
    RangeIsShaped(f);
    FrameFieldsFit(f);
    FieldsLength(FrameFields(f));
    forall i | 0 <= i < 76
      ensures Widths(FrameFields(f))[i] == FrameWidths()[i]
    {
      FrameFieldWidth(f, i);
    }
    assert Widths(FrameFields(f)) == FrameWidths();
    FrameWidthIs260();
  }

  lemma RangeIsShaped(f: Frame)
    requires InRange(f)
    ensures Shaped(f)
  {
  }

  lemma PairBits520(f: Frame, g: Frame)
    requires InRange(f) && InRange(g)
    ensures |FieldsBits(PairFields(f, g))| == 520
  {
    hide FrameFields, FieldsBits, InRange;
    RangeIsShaped(f);
    RangeIsShaped(g);
    FrameBits260(f);
    FrameBits260(g);
    FieldsAppend(FrameFields(f), FrameFields(g));
  }

  /** The parameters of one frame, read from its 260 bits. */
  function FrameOfBits(bits: seq<bool>): (f: Frame)
    requires |bits| == 260
    ensures InRange(f) && FieldsBits(FrameFields(f)) == bits
  {
    hide FrameFrom, FrameFields, FieldsBits, Values, InRange, Pow2;
    FrameWidthIs260();
    BitsOfValues(bits, FrameWidths());
    var fs := Values(bits, FrameWidths());
    FrameOfFields(fs);
    FrameFrom(fs)
  }

  /** The pair of frames that 65 bytes stand for. */
  function Unpacked(c: seq<byte>): (r: (Frame, Frame))
    requires |c| == 65
    ensures InRange(r.0) && InRange(r.1)
  {
    var bits := BytesBits(c);
    (FrameOfBits(bits[..260]), FrameOfBits(bits[260..]))
  }

  /** A frame is determined by its parameters. */
  lemma FramesAreUnique(f: Frame, g: Frame)
    requires InRange(f) && InRange(g) && FieldsBits(FrameFields(f)) == FieldsBits(FrameFields(g))
    ensures f == g
  {
    hide FieldsBits, SubFields, SubInRange, WidthAt, Pow2;
    FrameBits260(f);
    FrameBits260(g);
    FrameFieldsFit(f);
    FrameFieldsFit(g);
    FieldsAreUnique(FrameFields(f), FrameFields(g));
    forall i | 0 <= i < 8
      ensures f.larc[i] == g.larc[i]
    {
      assert FrameFields(f)[i] == LarFields(f.larc)[i] && FrameFields(g)[i] == LarFields(g.larc)[i];
    }
    forall j | 0 <= j < 4
      ensures f.subs[j] == g.subs[j]
    {
      forall k | 0 <= k < 17
        ensures SubFields(f.subs[j])[k] == SubFields(g.subs[j])[k]
      {
        SubsFieldAt(f.subs, 4, j, k);
        SubsFieldAt(g.subs, 4, j, k);
        assert FrameFields(f)[8 + 17 * j + k] == FrameFields(g)[8 + 17 * j + k];
      }
      SubsAreUnique(f.subs[j], g.subs[j]);
    }
    assert f.larc == g.larc && f.subs == g.subs;
  }

  lemma SubsAreUnique(s: Sub, t: Sub)
    requires |s.xMc| == 13 && |t.xMc| == 13
    requires forall k :: 0 <= k < 17 ==> SubFields(s)[k] == SubFields(t)[k]
    ensures s == t
  {
    forall i | 0 <= i < 13
      ensures s.xMc[i] == t.xMc[i]
    {
      assert SubFields(s)[4 + i] == SubFields(t)[4 + i];
    }
    assert SubFields(s)[0] == SubFields(t)[0] && SubFields(s)[1] == SubFields(t)[1];
    assert SubFields(s)[2] == SubFields(t)[2] && SubFields(s)[3] == SubFields(t)[3];
    assert s.xMc == t.xMc;
  }

  /** Unpacking undoes packing for every pair of in-range frames. */
  lemma UnpackAfterPack(f: Frame, g: Frame)
    requires InRange(f) && InRange(g)
    ensures Unpacked(Packed(f, g)) == (f, g)
  {
    hide FieldsBits, BytesBits, BytesOf, FrameFields, FrameOfBits, InRange;
    RangeIsShaped(f);
    RangeIsShaped(g);
    PairBits520(f, g);
    FrameBits260(f);
    FrameBits260(g);
    BitsOfBytes(FieldsBits(PairFields(f, g)));
    FieldsAppend(FrameFields(f), FrameFields(g));
    var bits := FieldsBits(PairFields(f, g));
    assert bits[..260] == FieldsBits(FrameFields(f)) && bits[260..] == FieldsBits(FrameFields(g));
    FramesAreUnique(FrameOfBits(bits[..260]), f);
    FramesAreUnique(FrameOfBits(bits[260..]), g);
  }

  /** Packing undoes unpacking for every string of 65 bytes: the format has no spare bit. */
  lemma PackAfterUnpack(c: seq<byte>)
    requires |c| == 65
    ensures Packed(Unpacked(c).0, Unpacked(c).1) == c
  {
    hide FieldsBits, BytesBits, BytesOf, FrameFields, FrameOfBits, InRange;
    var (f, g) := Unpacked(c);
    RangeIsShaped(f);
    RangeIsShaped(g);
    var bits := BytesBits(c);
    PairBits520(f, g);
    FieldsAppend(FrameFields(f), FrameFields(g));
    assert bits[..260] + bits[260..] == bits;
    BitsOfBytes(bits);
    BytesAreUnique(BytesOf(bits), c);
  }

  /** The first frame, which ends four bits into a byte. */
  method PutFirstFrame(w: Writer, f: Frame)
    requires w.Valid() && w.Pending() == 0 && w.fields == [] && w.c == [] && Shaped(f)
    modifies w
    ensures Shaped(Masked(f)) && w.fields == FrameFields(Masked(f))
    ensures w.Valid() && w.Pending() == 4 && |w.c| == 32
  {
    hide HeadFields, TailFields, SubInRange, LarFields, MaskedSub, MaskedLars, Pow2, FieldsBits, BytesBits;
    MaskedInRange(f);
    ghost var mf := Masked(f);
    RangeIsShaped(mf);
    PutFirstLars(w, f.larc);
    var i := 0;
    while i < 4
      invariant 0 <= i <= 4 && w.Valid() && w.Pending() == 4 && |w.c| == 4 + 7 * i
      invariant w.fields == LarFields(mf.larc) + SubsFields(mf.subs, i)
    {
      PutFirstHead(w, f.subs[i]);
      PutFirstTail(w, f.subs[i]);
      i := i + 1;
    }
  }

  /** The second frame, which starts there. */
  method PutSecondFrame(w: Writer, g: Frame)
    requires w.Valid() && w.Pending() == 4 && |w.c| == 32 && Shaped(g)
    modifies w
    ensures Shaped(Masked(g)) && w.fields == old(w.fields) + FrameFields(Masked(g))
    ensures w.Valid() && w.Pending() == 0 && |w.c| == 65
  {
    hide HeadFields, TailFields, SubInRange, LarFields, MaskedSub, MaskedLars, Pow2, FieldsBits, BytesBits;
    MaskedInRange(g);
    ghost var mg, before := Masked(g), w.fields;
    RangeIsShaped(mg);
    PutSecondLars(w, g.larc);
    var i := 0;
    while i < 4
      invariant 0 <= i <= 4 && w.Valid() && w.Pending() == 0 && |w.c| == 37 + 7 * i
      invariant w.fields == before + (LarFields(mg.larc) + SubsFields(mg.subs, i))
    {
      PutSecondHead(w, g.subs[i]);
      PutSecondTail(w, g.subs[i]);
      i := i + 1;
    }
  }

  /** `gsm0610_pack_wav49`. Every byte is written out with exactly the shift that the source spells out,
      and the 65 bytes are those of both frames, with every parameter cut to its width. */
  method PackWav49(f: Frame, g: Frame) returns (c: seq<byte>)
    requires Shaped(f) && Shaped(g)
    ensures InRange(Masked(f)) && InRange(Masked(g)) && c == Packed(Masked(f), Masked(g))
  {
    hide FrameFields, Masked, InRange, Pow2, FieldsBits, BytesBits, Shaped;
    MaskedInRange(f);
    MaskedInRange(g);
    var w := new Writer();
    PutFirstFrame(w, f);
    PutSecondFrame(w, g);
    c := w.c;
    WrittenIsPacked(c, Masked(f), Masked(g));
  }

  lemma WrittenIsPacked(c: seq<byte>, f: Frame, g: Frame)
    requires InRange(f) && InRange(g)
    requires |c| == 65 && BytesBits(c) == FieldsBits(PairFields(f, g))
    ensures c == Packed(f, g)
  {
    hide FieldsBits, BytesBits, BytesOf, PairFields;
    PairBits520(f, g);
    BitsOfBytes(FieldsBits(PairFields(f, g)));
    BytesAreUnique(c, Packed(f, g));
  }

  // ----- unpacking

  /** Bits taken from the bottom of the reader's register. */
  lemma TakeBits(sr: nat, w: nat, pending: nat)
    requires 1 <= w <= 7 && w <= pending && sr < Pow2(pending)
    ensures 0 <= sr % Pow2(w) < Pow2(w) && 0 <= sr / Pow2(w) < Pow2(pending - w)
    ensures LsbBits(sr, pending) == LsbBits(sr % Pow2(w), w) + LsbBits(sr / Pow2(w), pending - w)
  {
    hide LsbBits, Pow2;
    Pow2Add(w, pending - w);
    UpperPart(sr, Pow2(w), Pow2(pending - w));
    LsbConcat(sr % Pow2(w), w, sr / Pow2(w), pending - w);
  }

  /** A byte stacked on top of the register. */
  lemma StackByte(sr: nat, b: byte, p: nat)
    requires sr < Pow2(p) && p <= 5
    ensures BitOr(sr, b * Pow2(p)) < Pow2(p + 8) <= 0x2000
    ensures LsbBits(BitOr(sr, b * Pow2(p)), p + 8) == LsbBits(sr, p) + LsbBits(b, 8)
  {
    hide LsbBits, Pow2, BitOr;
    Pow2Values();
    Pow2Add(p, 8);
    Pow2Mono(p + 8, 13);
    OrIsSum(sr, p, b);
    StackedBelow(sr, Pow2(p), b, 256);
    LsbConcat(sr, p, b, 8);
  }

  /** The local variables of `gsm0610_unpack_wav49`: the register and the read position. */
  class Reader {
    const data: seq<byte>
    var sr: nat
    var pos: nat
    ghost var pending: nat
    ghost var fields: seq<Field>

    ghost predicate Valid()
      reads this
    {
      && pos <= |data| && sr < Pow2(pending)
      && BytesBits(data[..pos]) == FieldsBits(fields) + LsbBits(sr, pending)
    }

    constructor (c: seq<byte>)
      ensures Valid() && data == c && pos == 0 && pending == 0 && fields == []
    {
      data := c;
      sr, pos, pending, fields := 0, 0, 0, [];
    }

    /** `sr = *c++`, when the register is used up. */
    method LoadFresh()
      requires Valid() && pending == 0 && pos < |data|
      modifies this
      ensures Valid() && pending == 8 && pos == old(pos) + 1 && fields == old(fields)
    {
      hide FieldsBits;
      assert Pow2(8) == 256;
      assert data[..pos + 1] == data[..pos] + [data[pos]];
      BytesNext(data[..pos], data[pos]);
      NoBits(FieldsBits(fields), sr);
      sr := data[pos];
      pos := pos + 1;
      pending := 8;
    }

    /** `sr |= *c++ << p`: the shift must be the number of bits still in the register. */
    method Load(p: nat)
      requires Valid() && p == pending <= 5 && pos < |data|
      modifies this
      ensures Valid() && pending == p + 8 && pos == old(pos) + 1 && fields == old(fields)
    {
      hide FieldsBits, LsbBits, Pow2, BitOr;
      assert data[..pos + 1] == data[..pos] + [data[pos]];
      BytesNext(data[..pos], data[pos]);
      StackByte(sr, data[pos], p);
      ConcatAssoc(FieldsBits(fields), LsbBits(sr, p), LsbBits(data[pos], 8));
      sr := BitOr(sr, data[pos] * Pow2(p));
      pos := pos + 1;
      pending := p + 8;
    }

    /** `sr & mask; sr >>= w`: one parameter. */
    method Get(w: nat) returns (v: int16)
      requires Valid() && 1 <= w <= 7 && w <= pending
      modifies this
      ensures Valid() && pending == old(pending) - w && pos == old(pos)
      ensures 0 <= v < Pow2(w) && fields == old(fields) + [(v as int, w)]
    {
      hide FieldsBits, LsbBits, Pow2;
      Pow2Values();
      TakeBits(sr, w, pending);
      v := sr % Pow2(w);
      FieldsNext(fields, (v as int, w));
      ConcatAssoc(FieldsBits(fields), LsbBits(sr % Pow2(w), w), LsbBits(sr / Pow2(w), pending - w));
      sr := sr / Pow2(w);
      pending := pending - w;
      fields := fields + [(v as int, w)];
    }
  }

  lemma NoBits(a: seq<bool>, sr: nat)
    ensures a + LsbBits(sr, 0) == a
  {
  }

  lemma LarFieldsAre(larc: seq<int16>)
    requires |larc| == 8
    ensures LarFields(larc)
         == [(larc[0] as int, 6), (larc[1] as int, 6), (larc[2] as int, 5), (larc[3] as int, 5),
             (larc[4] as int, 4), (larc[5] as int, 4), (larc[6] as int, 3), (larc[7] as int, 3)]
  {
  }

  /** The eight ratios of the first frame. */
  method GetFirstLars(r: Reader) returns (larc: seq<int16>)
    requires r.Valid() && r.pending == 0 && r.pos + 5 <= |r.data|
    modifies r
    ensures r.Valid() && r.pending == 4 && r.pos == old(r.pos) + 5 && |larc| == 8
    ensures forall i :: 0 <= i < 8 ==> 0 <= larc[i] < Pow2(LarWidth(i))
    ensures r.fields == old(r.fields) + LarFields(larc)
  {
    hide Pow2, Reader.Valid, FieldsBits, BytesBits, LsbBits;
    Pow2Values();
    r.LoadFresh();
    var a0 := r.Get(6);
    r.Load(2);
    var a1 := r.Get(6);
    r.Load(4);
    var a2 := r.Get(5);
    var a3 := r.Get(5);
    r.Load(2);
    var a4 := r.Get(4);
    var a5 := r.Get(4);
    r.Load(2);
    var a6 := r.Get(3);
    var a7 := r.Get(3);
    larc := [a0, a1, a2, a3, a4, a5, a6, a7];
    LarFieldsAre(larc);
  }

  /** The eight ratios of the second frame. */
  method GetSecondLars(r: Reader) returns (larc: seq<int16>)
    requires r.Valid() && r.pending == 4 && r.pos + 4 <= |r.data|
    modifies r
    ensures r.Valid() && r.pending == 0 && r.pos == old(r.pos) + 4 && |larc| == 8
    ensures forall i :: 0 <= i < 8 ==> 0 <= larc[i] < Pow2(LarWidth(i))
    ensures r.fields == old(r.fields) + LarFields(larc)
  {
    hide Pow2, Reader.Valid, FieldsBits, BytesBits, LsbBits;
    Pow2Values();
    r.Load(4);
    var a0 := r.Get(6);
    var a1 := r.Get(6);
    r.LoadFresh();
    var a2 := r.Get(5);
    r.Load(3);
    var a3 := r.Get(5);
    var a4 := r.Get(4);
    r.Load(2);
    var a5 := r.Get(4);
    var a6 := r.Get(3);
    var a7 := r.Get(3);
    larc := [a0, a1, a2, a3, a4, a5, a6, a7];
    LarFieldsAre(larc);
  }

  /** The head of a sub-segment of the first frame. */
  method GetFirstHead(r: Reader) returns (s: Sub)
    requires r.Valid() && r.pending == 4 && r.pos + 3 <= |r.data|
    modifies r
    ensures r.Valid() && r.pending == 2 && r.pos == old(r.pos) + 3 && SubInRange(s)
    ensures r.fields == old(r.fields) + HeadFields(s)
  {
    hide Pow2, Reader.Valid, FieldsBits, BytesBits, LsbBits;
    Pow2Values();
    r.Load(4);
    var nc := r.Get(7);
    var bc := r.Get(2);
    var mc := r.Get(2);
    r.Load(1);
    var xmaxc := r.Get(6);
    var x0 := r.Get(3);
    r.LoadFresh();
    var x1 := r.Get(3);
    var x2 := r.Get(3);
    s := Sub(nc, bc, mc, xmaxc, [x0, x1, x2, 0, 0, 0, 0, 0, 0, 0, 0, 0, 0]);
  }

  /** The tail of a sub-segment of the first frame. */
  method GetFirstTail(r: Reader, head: Sub) returns (s: Sub)
    requires r.Valid() && r.pending == 2 && r.pos + 4 <= |r.data| && SubInRange(head)
    modifies r
    ensures r.Valid() && r.pending == 4 && r.pos == old(r.pos) + 4 && SubInRange(s)
    ensures HeadFields(s) == HeadFields(head) && r.fields == old(r.fields) + TailFields(s)
  {
    hide Pow2, Reader.Valid, FieldsBits, BytesBits, LsbBits;
    Pow2Values();
    r.Load(2);
    var x3 := r.Get(3);
    var x4 := r.Get(3);
    var x5 := r.Get(3);
    r.Load(1);
    var x6 := r.Get(3);
    var x7 := r.Get(3);
    var x8 := r.Get(3);
    r.LoadFresh();
    var x9 := r.Get(3);
    var x10 := r.Get(3);
    r.Load(2);
    var x11 := r.Get(3);
    var x12 := r.Get(3);
    s := head.(xMc := [head.xMc[0], head.xMc[1], head.xMc[2], x3, x4, x5, x6, x7, x8, x9, x10, x11, x12]);
  }

  /** The head of a sub-segment of the second frame. */
  method GetSecondHead(r: Reader) returns (s: Sub)
    requires r.Valid() && r.pending == 0 && r.pos + 4 <= |r.data|
    modifies r
    ensures r.Valid() && r.pending == 6 && r.pos == old(r.pos) + 4 && SubInRange(s)
    ensures r.fields == old(r.fields) + HeadFields(s)
  {
    hide Pow2, Reader.Valid, FieldsBits, BytesBits, LsbBits;
    Pow2Values();
    r.LoadFresh();
    var nc := r.Get(7);
    r.Load(1);
    var bc := r.Get(2);
    var mc := r.Get(2);
    r.Load(5);
    var xmaxc := r.Get(6);
    var x0 := r.Get(3);
    var x1 := r.Get(3);
    r.Load(1);
    var x2 := r.Get(3);
    s := Sub(nc, bc, mc, xmaxc, [x0, x1, x2, 0, 0, 0, 0, 0, 0, 0, 0, 0, 0]);
  }

  /** The tail of a sub-segment of the second frame. */
  method GetSecondTail(r: Reader, head: Sub) returns (s: Sub)
    requires r.Valid() && r.pending == 6 && r.pos + 3 <= |r.data| && SubInRange(head)
    modifies r
    ensures r.Valid() && r.pending == 0 && r.pos == old(r.pos) + 3 && SubInRange(s)
    ensures HeadFields(s) == HeadFields(head) && r.fields == old(r.fields) + TailFields(s)
  {
    hide Pow2, Reader.Valid, FieldsBits, BytesBits, LsbBits;
    Pow2Values();
    var x3 := r.Get(3);
    var x4 := r.Get(3);
    r.LoadFresh();
    var x5 := r.Get(3);
    var x6 := r.Get(3);
    r.Load(2);
    var x7 := r.Get(3);
    var x8 := r.Get(3);
    var x9 := r.Get(3);
    r.Load(1);
    var x10 := r.Get(3);
    var x11 := r.Get(3);
    var x12 := r.Get(3);
    s := head.(xMc := [head.xMc[0], head.xMc[1], head.xMc[2], x3, x4, x5, x6, x7, x8, x9, x10, x11, x12]);
  }

  /** `gsm0610_unpack_wav49`: every byte is stacked with the shift that the source spells out. */
  method UnpackWav49(c: seq<byte>) returns (f: Frame, g: Frame)
    requires |c| == 65
    ensures (f, g) == Unpacked(c)
  {
    hide HeadFields, TailFields, SubInRange, LarFields, Pow2, FieldsBits, BytesBits, Reader.Valid;
    var r := new Reader(c);
    var larc := GetFirstLars(r);
    var subs: seq<Sub> := [];
    assert SubsOk(subs);
    var i := 0;
    while i < 4
      invariant 0 <= i <= 4 && |subs| == i && SubsOk(subs)
      invariant r.Valid() && r.pending == 4 && r.pos == 5 + 7 * i && r.data == c
      invariant r.fields == LarFields(larc) + SubsFields(subs, i)
    {
      var s := GetFirstHead(r);
      s := GetFirstTail(r, s);
      OneMoreSub(subs, s, i);
      subs := subs + [s];
      i := i + 1;
    }
    f := Frame(larc, subs);
    assert InRange(f) && r.fields == FrameFields(f) by { RangesMakeFrame(larc, subs); }
    larc := GetSecondLars(r);
    subs := [];
    i := 0;
    while i < 4
      invariant 0 <= i <= 4 && |subs| == i && SubsOk(subs)
      invariant r.Valid() && r.pending == 0 && r.pos == 37 + 7 * i && r.data == c
      invariant r.fields == FrameFields(f) + LarFields(larc) + SubsFields(subs, i)
    {
      var s := GetSecondHead(r);
      s := GetSecondTail(r, s);
      OneMoreSub(subs, s, i);
      subs := subs + [s];
      i := i + 1;
    }
    g := Frame(larc, subs);
    assert InRange(g) by { RangesMakeFrame(larc, subs); }
    assert r.fields == PairFields(f, g);
    ReaderIsDone(r);
    ReadIsUnpacked(c, f, g);
  }

  predicate SubsOk(subs: seq<Sub>) {
    forall j :: 0 <= j < |subs| ==> |subs[j].xMc| == 13 && SubInRange(subs[j])
  }

  lemma OneMoreSub(subs: seq<Sub>, s: Sub, i: nat)
    requires i == |subs| && SubsOk(subs) && SubInRange(s)
    ensures SubsOk(subs + [s])
    ensures SubsFields(subs + [s], i + 1) == SubsFields(subs, i) + HeadFields(s) + TailFields(s)
  {
    hide HeadFields, TailFields;
    SubsFieldsOfPrefix(subs, s, i);
    assert SubsFields(subs, i) + (HeadFields(s) + TailFields(s)) == SubsFields(subs, i) + HeadFields(s) + TailFields(s);
  }

  lemma {:induction false} SubsFieldsOfPrefix(subs: seq<Sub>, s: Sub, i: nat)
    requires i <= |subs| && SubsOk(subs) && |s.xMc| == 13
    requires forall j :: 0 <= j < |subs + [s]| ==> |(subs + [s])[j].xMc| == 13
    ensures SubsFields(subs + [s], i) == SubsFields(subs, i)
  {
    hide SubFields, SubInRange;
    if i > 0 {
      SubsFieldsOfPrefix(subs, s, i - 1);
    }
  }

  lemma RangesMakeFrame(larc: seq<int16>, subs: seq<Sub>)
    requires |larc| == 8 && |subs| == 4 && SubsOk(subs)
    requires forall i :: 0 <= i < 8 ==> 0 <= larc[i] < Pow2(LarWidth(i))
    ensures InRange(Frame(larc, subs))
  {
    hide Pow2, SubInRange;
  }

  lemma ReaderIsDone(r: Reader)
    requires r.Valid() && r.pending == 0 && r.pos == |r.data|
    ensures BytesBits(r.data) == FieldsBits(r.fields)
  {
    hide FieldsBits, BytesBits;
    assert r.data[..r.pos] == r.data;
    NoBits(FieldsBits(r.fields), r.sr);
  }

  lemma ReadIsUnpacked(c: seq<byte>, f: Frame, g: Frame)
    requires InRange(f) && InRange(g)
    requires |c| == 65 && BytesBits(c) == FieldsBits(PairFields(f, g))
    ensures Unpacked(c) == (f, g)
  {
    WrittenIsPacked(c, f, g);
    UnpackAfterPack(f, g);
  }
}
