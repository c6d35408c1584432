/** The optional bit packing of G.722 code words (jni/spandsp/g722.c): six- and seven-bit codes in
    a byte stream, least significant bit first, with buffers that live across calls. */
module G722Packing {
  import opened FixedPoint
  import opened Bits

  type Width = w: nat | 6 <= w <= 7 witness 6

  datatype BitBuffer = BitBuffer(value: nat, bits: nat)

  /** A buffer holds at most seven bits between calls, and nothing above them. */
  predicate Settled(b: BitBuffer) {
    b.bits <= 7 && b.value < Pow2(b.bits)
  }

  const EMPTY := BitBuffer(0, 0)

  predicate Codes(w: Width, codes: seq<byte>) {
    forall k :: 0 <= k < |codes| ==> codes[k] < Pow2(w)
  }

  // ----- packing

  function Insert(b: BitBuffer, x: nat, width: nat): BitBuffer {
    BitBuffer(BitOr(b.value, x * Pow2(b.bits)), b.bits + width)
  }

  /** One packing step: the code goes on top of the buffer and a complete byte comes out. */
  function PackStep(w: Width, b: BitBuffer, code: byte): (BitBuffer, seq<byte>) {
    var full := Insert(b, code, w);
    if full.bits >= 8 then (BitBuffer(full.value / 256, full.bits - 8), [ToByte(full.value % 256)])
    else (full, [])
  }

  function Pack(w: Width, b: BitBuffer, codes: seq<byte>): (BitBuffer, seq<byte>) {
    if codes == [] then (b, [])
    else
      var (b1, bytes) := Pack(w, b, codes[..|codes| - 1]);
      var (b2, more) := PackStep(w, b1, codes[|codes| - 1]);
      (b2, bytes + more)
  }

  // ----- unpacking

  /** Take one code out of a buffer that holds enough bits. */
  function Extract(w: Width, b: BitBuffer): (byte, BitBuffer)
    requires b.bits >= w
  {
    if w == 6 then (b.value % 64, BitBuffer(b.value / 64, b.bits - 6))
    else (b.value % 128, BitBuffer(b.value / 128, b.bits - 7))
  }

  /** The decoder's loop: a byte is fetched only when the buffer is short of a code, and one code
      is taken in every round. */
  function Unpack(w: Width, b: BitBuffer, bytes: seq<byte>): (seq<byte>, BitBuffer)
    decreases |bytes|, b.bits
  {
    if bytes == [] then ([], b)
    else if b.bits < w then
      var (code, b1) := Extract(w, Insert(b, bytes[0], 8));
      var (codes, b2) := Unpack(w, b1, bytes[1..]);
      ([code] + codes, b2)
    else
      var (code, b1) := Extract(w, b);
      var (codes, b2) := Unpack(w, b1, bytes);
      ([code] + codes, b2)
  }

  // ----- both directions as bit streams

  function BufferBits(b: BitBuffer): seq<bool> {
    LsbBits(b.value, b.bits)
  }

  function StreamBits(w: nat, xs: seq<byte>): (bits: seq<bool>)
  {
    if xs == [] then [] else LsbBits(xs[0], w) + StreamBits(w, xs[1..])
  }

  lemma {:induction false} StreamBitsLength(w: nat, xs: seq<byte>)
    ensures |StreamBits(w, xs)| == w * |xs|
  {
    if xs != [] {
      StreamBitsLength(w, xs[1..]);
      assert w * |xs| == w + w * (|xs| - 1);
    }
  }

  lemma {:induction false} StreamBitsAppend(w: nat, xs: seq<byte>, ys: seq<byte>)
    ensures StreamBits(w, xs + ys) == StreamBits(w, xs) + StreamBits(w, ys)
  {
    if xs == [] {
      assert xs + ys == ys;
    } else {
      assert (xs + ys)[1..] == xs[1..] + ys;
      StreamBitsAppend(w, xs[1..], ys);
      ConcatAssoc(LsbBits(xs[0], w), StreamBits(w, xs[1..]), StreamBits(w, ys));
    }
  }

  lemma StreamOfOne(w: nat, x: byte)
    ensures StreamBits(w, [x]) == LsbBits(x, w)
  {
    assert [x][1..] == [];
  }

  lemma InsertBits(b: BitBuffer, x: nat, width: nat)
    requires b.value < Pow2(b.bits) && x < Pow2(width)
    ensures BufferBits(Insert(b, x, width)) == BufferBits(b) + LsbBits(x, width)
    ensures Insert(b, x, width).value < Pow2(Insert(b, x, width).bits)
  {
    hide BitOr, LsbBits;
    OrIsSum(b.value, b.bits, x);
    LsbConcat(b.value, b.bits, x, width);
    Pow2Add(b.bits, width);
    StackedBelow(b.value, Pow2(b.bits), x, Pow2(width));
  }

  /** Cutting a number at a known bit position. */
  lemma CutBits(value: nat, bits: nat, k: nat)
    requires k == 6 || k == 7 || k == 8
    requires k <= bits && value < Pow2(bits)
    ensures value % Pow2(k) < Pow2(k) && value / Pow2(k) < Pow2(bits - k)
    ensures LsbBits(value, bits) == LsbBits(value % Pow2(k), k) + LsbBits(value / Pow2(k), bits - k)
  {
    hide LsbBits;
    assert Pow2(6) == 64 && Pow2(7) == 128 && Pow2(8) == 256;
    Pow2Add(k, bits - k);
    LsbConcat(value % Pow2(k), k, value / Pow2(k), bits - k);
    assert value == value % Pow2(k) + value / Pow2(k) * Pow2(k);
    QuotientBelow(value, Pow2(k), Pow2(bits - k));
  }

  lemma QuotientBelow(x: nat, k: nat, n: nat)
    requires k > 0 && x < k * n
    ensures x / k < n
  {
    var q := x / k;
    assert q * k <= x;
    assert q >= n ==> q * k >= n * k;
  }

  lemma PackStepBits(w: Width, b: BitBuffer, code: byte)
    requires Settled(b) && code < Pow2(w)
    ensures var (b1, bytes) := PackStep(w, b, code);
            && Settled(b1)
            && BufferBits(b) + LsbBits(code, w) == StreamBits(8, bytes) + BufferBits(b1)
  {
    hide Insert, LsbBits, Pow2, StreamBits;
    var full := Insert(b, code, w);
    InsertWidth(b, code, w);
    InsertBits(b, code, w);
    if full.bits >= 8 {
      CutByte(full.value, full.bits);
      StreamOfOne(8, full.value % 256);
    } else {
      EmptyStream(8, BufferBits(full));
    }
  }

  lemma CutByte(value: nat, bits: nat)
    requires 8 <= bits && value < Pow2(bits)
    ensures value / 256 < Pow2(bits - 8)
    ensures LsbBits(value, bits) == LsbBits(value % 256, 8) + LsbBits(value / 256, bits - 8)
  {
    hide LsbBits;
    assert Pow2(8) == 256;
    CutBits(value, bits, 8);
  }

  lemma InsertWidth(b: BitBuffer, x: nat, width: nat)
    ensures Insert(b, x, width).bits == b.bits + width
  {
  }

  /** Packing loses no bit: what was buffered, followed by the codes, is the bytes followed by what
      is still buffered. */
  lemma {:induction false} PackBits(w: Width, b: BitBuffer, codes: seq<byte>)
    requires Settled(b) && Codes(w, codes)
    ensures var (b1, bytes) := Pack(w, b, codes);
            && Settled(b1)
            && BufferBits(b) + StreamBits(w, codes) == StreamBits(8, bytes) + BufferBits(b1)
  {
    hide PackStep, LsbBits, Settled;
    if codes == [] {
      EmptyStream(w, BufferBits(b));
      EmptyStream(8, BufferBits(b));
    } else {
      var init, last := codes[..|codes| - 1], codes[|codes| - 1];
      PackBits(w, b, init);
      var (b1, bytes) := Pack(w, b, init);
      PackStepBits(w, b1, last);
      var (b2, more) := PackStep(w, b1, last);
      assert codes == init + [last];
      StreamBitsAppend(w, init, [last]);
      StreamOfOne(w, last);
      StreamBitsAppend(8, bytes, more);
      Reassociate(BufferBits(b), StreamBits(w, init), LsbBits(last, w),
                  StreamBits(8, bytes), BufferBits(b1), StreamBits(8, more), BufferBits(b2));
    }
  }

  lemma EmptyStream(w: nat, s: seq<bool>)
    ensures s + StreamBits(w, []) == s == StreamBits(w, []) + s
  {
  }

  lemma Reassociate(a: seq<bool>, c: seq<bool>, x: seq<bool>,
                    p: seq<bool>, q: seq<bool>, r: seq<bool>, t: seq<bool>)
    requires a + c == p + q && q + x == r + t
    ensures a + (c + x) == (p + r) + t
  {
    assert a + (c + x) == (a + c) + x;
    assert (p + q) + x == p + (q + x);
    assert p + (r + t) == (p + r) + t;
  }

  lemma ExtractBits(w: Width, b: BitBuffer)
    requires b.bits >= w && b.value < Pow2(b.bits)
    ensures var (code, b1) := Extract(w, b);
            && code < Pow2(w) && b1.value < Pow2(b1.bits) && b1.bits == b.bits - w
            && BufferBits(b) == LsbBits(code, w) + BufferBits(b1)
  {
    hide LsbBits;
    assert Pow2(6) == 64 && Pow2(7) == 128;
    CutBits(b.value, b.bits, w);
  }

  /** Unpacking loses no bit either. */
  lemma {:induction false} UnpackBits(w: Width, b: BitBuffer, bytes: seq<byte>)
    requires Settled(b)
    ensures var (codes, b1) := Unpack(w, b, bytes);
            && Settled(b1) && Codes(w, codes)
            && BufferBits(b) + StreamBits(8, bytes) == StreamBits(w, codes) + BufferBits(b1)
    decreases |bytes|, b.bits
  {
    hide LsbBits, Extract, Insert, BufferBits;
    if bytes == [] {
      EmptyStream(w, BufferBits(b));
      EmptyStream(8, BufferBits(b));
    } else if b.bits < w {
      var full := Insert(b, bytes[0], 8);
      assert Pow2(8) == 256;
      InsertWidth(b, bytes[0], 8);
      InsertBits(b, bytes[0], 8);
      ExtractBits(w, full);
      var (code, b1) := Extract(w, full);
      UnpackBits(w, b1, bytes[1..]);
      var (codes, b2) := Unpack(w, b1, bytes[1..]);
      StreamOfCons(w, code, codes);
      TakeOne(BufferBits(b) + LsbBits(bytes[0], 8), StreamBits(8, bytes[1..]), LsbBits(code, w),
              BufferBits(b1), StreamBits(w, codes), BufferBits(b2));
      ConcatAssoc(BufferBits(b), LsbBits(bytes[0], 8), StreamBits(8, bytes[1..]));
    } else {
      ExtractBits(w, b);
      var (code, b1) := Extract(w, b);
      UnpackBits(w, b1, bytes);
      var (codes, b2) := Unpack(w, b1, bytes);
      StreamOfCons(w, code, codes);
      TakeOne(BufferBits(b), StreamBits(8, bytes), LsbBits(code, w),
              BufferBits(b1), StreamBits(w, codes), BufferBits(b2));
    }
  }

  lemma StreamOfCons(w: nat, x: byte, xs: seq<byte>)
    ensures StreamBits(w, [x] + xs) == LsbBits(x, w) + StreamBits(w, xs)
  {
    assert ([x] + xs)[1..] == xs;
  }

  lemma TakeOne(buffer: seq<bool>, input: seq<bool>, code: seq<bool>,
                buffer1: seq<bool>, codes: seq<bool>, buffer2: seq<bool>)
    requires buffer == code + buffer1 && buffer1 + input == codes + buffer2
    ensures buffer + input == (code + codes) + buffer2
  {
    assert buffer + input == code + (buffer1 + input);
    assert code + (codes + buffer2) == (code + codes) + buffer2;
  }

  // ----- the decoder sees a prefix of what the encoder packed

  lemma {:induction false} StreamPrefix(w: Width, ds: seq<byte>, cs: seq<byte>, tail: seq<bool>)
    requires Codes(w, ds) && Codes(w, cs)
    requires StreamBits(w, cs) == StreamBits(w, ds) + tail
    ensures ds <= cs
  {
    hide Pow2, LsbBits;
    if ds != [] {
      StreamBitsLength(w, cs);
      StreamBitsLength(w, ds);
      assert cs != [] by {
        assert w * |cs| >= w * |ds|;
      }
      var c, d := LsbBits(cs[0], w), LsbBits(ds[0], w);
      assert StreamBits(w, cs) == c + StreamBits(w, cs[1..]);
      assert StreamBits(w, cs) == d + (StreamBits(w, ds[1..]) + tail) by {
        ConcatAssoc(d, StreamBits(w, ds[1..]), tail);
      }
      SameHead(c, StreamBits(w, cs[1..]), d, StreamBits(w, ds[1..]) + tail);
      LsbRoundTrip(cs[0], w);
      LsbRoundTrip(ds[0], w);
      StreamPrefix(w, ds[1..], cs[1..], tail);
      assert cs[0] == ds[0];
    }
  }

  lemma SameHead(a: seq<bool>, b: seq<bool>, c: seq<bool>, d: seq<bool>)
    requires a + b == c + d && |a| == |c|
    ensures a == c && b == d
  {
    assert (a + b)[..|a|] == a && (c + d)[..|c|] == c;
    assert (a + b)[|a|..] == b && (c + d)[|c|..] == d;
  }

  /** What comes out of the unpacker is a prefix of what went into the packer, and the codes held
      back are exactly the bits in the two buffers. */
  lemma UnpackedIsPrefix(w: Width, codes: seq<byte>)
    requires Codes(w, codes)
    ensures var (out, bytes) := Pack(w, EMPTY, codes);
            var (got, inp) := Unpack(w, EMPTY, bytes);
            && got <= codes && Settled(out) && Settled(inp)
            && w * |codes| == w * |got| + inp.bits + out.bits
            && w * |codes| == 8 * |bytes| + out.bits
            && 8 * |bytes| == w * |got| + inp.bits
  {
    hide LsbBits;
    var (out, bytes) := Pack(w, EMPTY, codes);
    var (got, inp) := Unpack(w, EMPTY, bytes);
    PackBits(w, EMPTY, codes);
    UnpackBits(w, EMPTY, bytes);
    assert BufferBits(EMPTY) == [];
    assert [] + StreamBits(w, codes) == StreamBits(w, codes);
    assert [] + StreamBits(8, bytes) == StreamBits(8, bytes);
    ConcatAssoc(StreamBits(w, got), BufferBits(inp), BufferBits(out));
    StreamPrefix(w, got, codes, BufferBits(inp) + BufferBits(out));
    StreamBitsLength(w, codes);
    StreamBitsLength(w, got);
    StreamBitsLength(8, bytes);
  }

  lemma {:induction false} UnpackCount(w: Width, b: BitBuffer, bytes: seq<byte>)
    requires b.bits <= 7 && bytes != []
    ensures w * (|Unpack(w, b, bytes).0| - 1) <= b.bits + 8 * (|bytes| - 1)
    ensures b.bits + 8 * (|bytes| - 1) < w * |Unpack(w, b, bytes).0|
    decreases |bytes|, b.bits
  {
    hide Pow2, BitOr;
    if b.bits < w {
      var (code, b1) := Extract(w, Insert(b, bytes[0], 8));
      if |bytes| == 1 {
        assert Unpack(w, b, bytes).0 == [code];
      } else {
        UnpackCount(w, b1, bytes[1..]);
      }
    } else {
      UnpackCount(w, Extract(w, b).1, bytes);
    }
  }

  /** The number of codes after which the packer is at a byte boundary again. */
  function Period(w: Width): nat {
    if w == 6 then 4 else 8
  }

  /** After `n` codes from a fresh start the decoder lacks one code, except that it lacks none at
      the very start and two just after every later byte boundary: there the encoder still holds
      the last code and the decoder has not yet given out the one before. */
  lemma HeldBack(w: Width, codes: seq<byte>)
    requires Codes(w, codes)
    ensures var held := |codes| - |Unpack(w, EMPTY, Pack(w, EMPTY, codes).1).0|;
            && 0 <= held <= 2
            && (held == 0 <==> codes == [])
            && (held == 2 <==> |codes| > 1 && |codes| % Period(w) == 1)
  {
    hide Pack, Unpack, Codes, Settled;
    var (out, bytes) := Pack(w, EMPTY, codes);
    var (got, inp) := Unpack(w, EMPTY, bytes);
    UnpackedIsPrefix(w, codes);
    SettledBits(out);
    SettledBits(inp);
    if bytes == [] {
      UnpackNothing(w);
    } else {
      UnpackCount(w, EMPTY, bytes);
    }
  }

  /** So one code is not the most that is held back: after five six-bit codes two are. */
  lemma TwoAreHeldBack()
    ensures var codes: seq<byte> := [0, 0, 0, 0, 0];
            |Unpack(6, EMPTY, Pack(6, EMPTY, codes).1).0| == 3
  {
    hide Pack, Unpack;
    var codes: seq<byte> := [0, 0, 0, 0, 0];
    HeldBack(6, codes);
  }

  lemma SettledBits(b: BitBuffer)
    requires Settled(b)
    ensures b.bits <= 7
  {
  }

  lemma UnpackNothing(w: Width)
    ensures Unpack(w, EMPTY, []).0 == []
  {
  }

  // ----- calls compose

  /** Packing in several calls is packing the concatenation. */
  lemma {:induction false} PackAppend(w: Width, b: BitBuffer, xs: seq<byte>, ys: seq<byte>)
    ensures var (b1, bytes1) := Pack(w, b, xs);
            var (b2, bytes2) := Pack(w, b1, ys);
            Pack(w, b, xs + ys) == (b2, bytes1 + bytes2)
  {
    hide PackStep;
    if ys == [] {
      assert xs + ys == xs;
      assert Pack(w, b, xs).1 + [] == Pack(w, b, xs).1;
    } else {
      var init := ys[..|ys| - 1];
      PackAppend(w, b, xs, init);
      assert (xs + ys)[..|xs + ys| - 1] == xs + init;
      var (b1, bytes1) := Pack(w, b, xs);
      var (b2, bytes2) := Pack(w, b1, init);
      ConcatAssoc(bytes1, bytes2, PackStep(w, b2, ys[|ys| - 1]).1);
    }
  }

  /** Unpacking a byte stream in arbitrary pieces is unpacking the concatenation, although every
      piece may leave a whole code waiting for the next call. */
  lemma {:induction false} UnpackAppend(w: Width, b: BitBuffer, xs: seq<byte>, ys: seq<byte>)
    ensures var (codes1, b1) := Unpack(w, b, xs);
            var (codes2, b2) := Unpack(w, b1, ys);
            Unpack(w, b, xs + ys) == (codes1 + codes2, b2)
    decreases |xs|, b.bits
  {
    hide Extract, Insert;
    if xs == [] {
      assert xs + ys == ys;
      assert [] + Unpack(w, b, ys).0 == Unpack(w, b, ys).0;
    } else if b.bits < w {
      InsertWidth(b, xs[0], 8);
      var (code, b1) := Extract(w, Insert(b, xs[0], 8));
      assert (xs + ys)[1..] == xs[1..] + ys;
      UnpackAppend(w, b1, xs[1..], ys);
      var (codes1, b2) := Unpack(w, b1, xs[1..]);
      ConcatAssoc([code], codes1, Unpack(w, b2, ys).0);
    } else {
      var (code, b1) := Extract(w, b);
      assert b1.bits < b.bits by { ExtractShrinks(w, b); }
      UnpackAppend(w, b1, xs, ys);
      var (codes1, b2) := Unpack(w, b1, xs);
      ConcatAssoc([code], codes1, Unpack(w, b2, ys).0);
    }
  }

  lemma ExtractShrinks(w: Width, b: BitBuffer)
    requires b.bits >= w
    ensures Extract(w, b).1.bits == b.bits - w
  {
  }
}
