/** The G.722 encoder and decoder objects of jni/spandsp/g722.c: their state is updated in place,
    sample by sample, and every call is proved to compute the stream functions of `G722Stream`. */
module G722Machine {
  import opened FixedPoint
  import opened G722Band
  import opened G722Quantiser
  import opened G722Codec
  import opened G722Qmf
  import opened G722Packing
  import opened G722Stream
  import opened Bits

  // ----- one band of one sample

  /** SCALEL and SCALEH, as the four copies in the source compute them. */
  method SetScale(band: BandState, base: nat)
    requires band.Valid() && base <= 10 && 0 <= band.nb
    modifies band`det
    ensures band.Valid() && band.Value() == Rescaled(old(band.Value()), band.nb, base)
  {
    hide ToInt16, Pow2;
    var wd1 := (band.nb / 64) % 32;
    var wd2 := base - band.nb / 2048;
    var wd3 := if wd2 < 0 then ILB[wd1] * Pow2(-wd2) else ILB[wd1] / Pow2(wd2);
    band.det := ToInt16(wd3 * 4);
  }

  /** QUANTL: the search over the decision levels. */
  method SearchLevel(wd: nat, det: int16) returns (i: nat)
    ensures i == Level(wd, det)
  {
    i := 1;
    while i < 30
      invariant 1 <= i <= 30
      invariant LevelFrom(wd, det, i) == Level(wd, det)
    {
      var wd1 := (Q6[i] * det) / 4096;
      if wd < wd1 {
        break;
      }
      i := i + 1;
    }
  }

  /** Blocks 1L to 3L of the encoder. */
  method EncodeLowBand(band: BandState, xlow: int16) returns (ilow: int)
    requires band.Valid()
    modifies band, band.b, band.d
    ensures band.Valid() && (band.Value(), ilow) == EncodeLow(old(band.Value()), xlow)
    ensures 4 <= ilow <= 63
  {
    hide Scale, Block4, Level, Q15, ToInt16, SatSub, Saturate, Qm4, LowWeight;
    var el: int := SatSub(xlow, band.s);
    var wd := if el >= 0 then el else -el - 1;
    var i := SearchLevel(wd, band.det);
    ilow := if el < 0 then ILN[i] else ILP[i];
    var ril := ilow / 4;
    var dlow := ToInt16(Q15(band.det, Qm4(ril)));
    var wd1 := band.nb * 127 / 128;
    band.nb := ToInt16(wd1 + LowWeight(ril));
    if band.nb < 0 {
      band.nb := 0;
    } else if band.nb > LOW_LIMIT {
      band.nb := LOW_LIMIT;
    }
    SetScale(band, LOW_BASE);
    band.Update(dlow);
  }

  /** Blocks 1H to 3H of the encoder. */
  method EncodeHighBand(band: BandState, xhigh: int16) returns (ihigh: int)
    requires band.Valid()
    modifies band, band.b, band.d
    ensures band.Valid() && (band.Value(), ihigh) == EncodeHigh(old(band.Value()), xhigh)
    ensures 0 <= ihigh < 4
  {
    hide Scale, Block4, Q15, ToInt16, SatSub, Saturate, Qm2, HighWeight;
    var eh: int := SatSub(xhigh, band.s);
    var wd := if eh >= 0 then eh else -eh - 1;
    var wd1 := (564 * band.det) / 4096;
    var mih := if wd >= wd1 then 2 else 1;
    ihigh := if eh < 0 then IHN[mih] else IHP[mih];
    assert ihigh == HighCode(eh, band.det);
    var dhigh := ToInt16(Q15(band.det, Qm2(ihigh)));
    wd := band.nb * 127 / 128;
    band.nb := ToInt16(wd + HighWeight(ihigh));
    if band.nb < 0 {
      band.nb := 0;
    } else if band.nb > HIGH_LIMIT {
      band.nb := HIGH_LIMIT;
    }
    SetScale(band, HIGH_BASE);
    band.Update(dhigh);
  }

  /** Blocks 2L to 6L of the decoder. */
  method DecodeLowBand(band: BandState, rate: Rate, code: byte) returns (rlow: int16)
    requires band.Valid()
    modifies band, band.b, band.d
    ensures band.Valid() && (band.Value(), rlow) == DecodeLow(old(band.Value()), rate, code)
  {
    hide Scale, Block4, Q15, ToInt16, Qm4, Qm5, Qm6, LowWeight, Saturate15;
    var wd1, wd2;
    if rate == 8 {
      wd1 := code % 64;
      wd2 := Qm6(wd1);
      wd1 := wd1 / 4;
    } else if rate == 7 {
      wd1 := code % 32;
      wd2 := Qm5(wd1);
      wd1 := wd1 / 2;
    } else {
      wd1 := code % 16;
      wd2 := Qm4(wd1);
    }
    wd2 := Q15(band.det, wd2);
    rlow := Saturate15(band.s + wd2);
    var dlow := ToInt16(Q15(band.det, Qm4(wd1)));
    wd2 := LowWeight(wd1);
    wd1 := band.nb * 127 / 128;
    wd1 := wd1 + wd2;
    if wd1 < 0 {
      wd1 := 0;
    } else if wd1 > LOW_LIMIT {
      wd1 := LOW_LIMIT;
    }
    band.nb := ToInt16(wd1);
    assert 0 <= band.nb <= LOW_LIMIT;
    SetScale(band, LOW_BASE);
    band.Update(dlow);
  }

  /** Blocks 2H to 6H of the decoder. */
  method DecodeHighBand(band: BandState, rate: Rate, code: byte) returns (rhigh: int16)
    requires band.Valid()
    modifies band, band.b, band.d
    ensures band.Valid() && (band.Value(), rhigh) == DecodeHigh(old(band.Value()), rate, code)
  {
    hide Scale, Block4, Q15, ToInt16, Qm2, HighWeight, Saturate15;
    var ihigh := if rate == 8 then code / 64 % 4 else if rate == 7 then code / 32 % 4 else code / 16 % 4;
    var dhigh := ToInt16(Q15(band.det, Qm2(ihigh)));
    rhigh := Saturate15(dhigh + band.s);
    var wd1 := band.nb * 127 / 128;
    wd1 := wd1 + HighWeight(ihigh);
    if wd1 < 0 {
      wd1 := 0;
    } else if wd1 > HIGH_LIMIT {
      wd1 := HIGH_LIMIT;
    }
    band.nb := ToInt16(wd1);
    assert 0 <= band.nb <= HIGH_LIMIT;
    SetScale(band, HIGH_BASE);
    band.Update(dhigh);
  }

  // ----- one more sample

  lemma EncodeBandsNext(rate: Rate, eightK: bool, bands: Bands, xs: seq<(int16, int16)>, x: (int16, int16))
    ensures var (bands1, codes) := EncodeBands(rate, eightK, bands, xs);
            var (bands2, code) := EncodeStep(rate, eightK, bands1, x);
            EncodeBands(rate, eightK, bands, xs + [x]) == (bands2, codes + [code])
  {
    hide EncodeStep;
    assert (xs + [x])[..|xs|] == xs;
  }

  lemma DecodeBandsNext(rate: Rate, eightK: bool, bands: Bands, codes: seq<byte>, code: byte)
    ensures var (bands1, rs) := DecodeBands(rate, eightK, bands, codes);
            var (bands2, r) := DecodeStep(rate, eightK, bands1, code);
            DecodeBands(rate, eightK, bands, codes + [code]) == (bands2, rs + [r])
  {
    hide DecodeStep;
    assert (codes + [code])[..|codes|] == codes;
  }

  lemma AnalyseNext(eightK: bool, q: Qmf, amp: seq<int16>, group: seq<int16>)
    requires Grouped(eightK, |amp|) && |group| == GroupSize(eightK)
    ensures Grouped(eightK, |amp + group|)
    ensures var (q1, xs) := Analyse(eightK, q, amp);
            var (q2, x) := AnalyseStep(eightK, q1, group);
            Analyse(eightK, q, amp + group) == (q2, xs + [x])
  {
    hide AnalyseStep;
    assert (amp + group)[..|amp|] == amp && (amp + group)[|amp|..] == group;
  }

  lemma SynthesiseNext(eightK: bool, q: Qmf, rs: seq<(int16, int16)>, r: (int16, int16))
    ensures var (q1, pcm) := Synthesise(eightK, q, rs);
            var (q2, more) := SynthesiseStep(eightK, q1, r);
            Synthesise(eightK, q, rs + [r]) == (q2, pcm + more)
  {
    hide SynthesiseStep;
    assert (rs + [r])[..|rs|] == rs;
  }

  lemma PackAllNext(mode: Mode, buffer: BitBuffer, codes: seq<byte>, code: byte)
    requires Proper(mode)
    ensures var (b1, bytes) := PackAll(mode, buffer, codes);
            PackAll(mode, buffer, codes + [code])
            == if mode.packed then
                 var (b2, more) := PackStep(mode.rate, b1, code);
                 (b2, bytes + more)
               else (b1, bytes + [code])
  {
    hide PackStep;
    assert (codes + [code])[..|codes|] == codes;
  }

  // ----- the objects

  class Coder {
    const mode: Mode
    const low: BandState
    const high: BandState
    const x: array<int16>
    const y: array<int16>
    var ptr: nat
    var buffer: nat
    var bits: nat

    ghost predicate Valid()
      reads this`ptr
    {
      && Proper(mode) && low != high && low.Valid() && high.Valid()
      && x.Length == 12 && y.Length == 12 && ptr < 12
      && x != y && {x, y} !! {low.b, low.d, high.b, high.d} && {low.b, low.d} !! {high.b, high.d}
    }

    /** Everything the state is made of besides the coder itself. */
    ghost function Parts(): set<object> {
      {x, y, low, low.b, low.d, high, high.b, high.d}
    }

    ghost function Filters(): Qmf
      requires Valid()
      reads this`ptr, x, y
    {
      Qmf(x[..], y[..], ptr)
    }

    ghost function BandPair(): Bands
      requires Valid()
      reads this`ptr, low, low.b, low.d, high, high.b, high.d
    {
      Bands(low.Value(), high.Value())
    }

    ghost function Value(): State
      requires Valid()
      reads this, Parts()
    {
      State(BandPair(), Filters(), BitBuffer(buffer, bits))
    }

    /** `g722_encode_init` and `g722_decode_init`, which set up the same fields. */
    constructor (bitRate: int, sampleRate8000: bool, packedOption: bool)
      ensures Valid() && fresh(Parts())
      ensures mode == ModeFor(bitRate, sampleRate8000, packedOption)
      ensures Value() == FRESH
    {
      mode := ModeFor(bitRate, sampleRate8000, packedOption);
      low := new BandState(32);
      high := new BandState(8);
      x := new int16[12](_ => 0);
      y := new int16[12](_ => 0);
      ptr, buffer, bits := 0, 0, 0;
      new;
      assert x[..] == [0, 0, 0, 0, 0, 0, 0, 0, 0, 0, 0, 0] == y[..];
    }

    /** The transmit filter bank on one group of input samples. */
    method SplitBands(group: seq<int16>) returns (xlow: int16, xhigh: int16)
      requires Valid() && |group| == GroupSize(mode.eightK)
      modifies this`ptr, x, y
      ensures Valid() && BandPair() == old(BandPair())
      ensures (Filters(), (xlow, xhigh)) == AnalyseStep(mode.eightK, old(Filters()), group)
    {
      hide CircularDot, ToInt16;
      if mode.eightK {
        xlow := group[0] / 2;
        xhigh := 0;
      } else {
        ghost var x0, y0 := x[..], y[..];
        xlow := group[0];
        if xlow > 16350 { xlow := 16350; } else if xlow < -16350 { xlow := -16350; }
        x[ptr] := xlow;
        assert x[..] == x0[ptr := Clip(group[0])];
        xlow := group[1];
        if xlow > 16350 { xlow := 16350; } else if xlow < -16350 { xlow := -16350; }
        y[ptr] := xlow;
        assert y[..] == y0[ptr := Clip(group[1])];
        ptr := ptr + 1;
        if ptr >= 12 {
          ptr := 0;
        }
        var sumodd := CircularDotProduct(x[..], FWD, ptr);
        var sumeven := CircularDotProduct(y[..], REV, ptr);
        xlow := ToInt16((sumeven + sumodd) / 0x4000);
        xhigh := ToInt16((sumeven - sumodd) / 0x4000);
      }
    }

    /** Both bands of one code word. */
    method EncodeSample(xlow: int16, xhigh: int16) returns (code: byte)
      requires Valid()
      modifies low, low.b, low.d, high, high.b, high.d
      ensures Valid()
      ensures (BandPair(), code) == EncodeStep(mode.rate, mode.eightK, old(BandPair()), (xlow, xhigh))
    {
      hide EncodeLow, EncodeHigh, Compose;
      var ilow := EncodeLowBand(low, xlow);
      if mode.eightK {
        code := Compose(mode.rate, 3, ilow);
      } else {
        var ihigh := EncodeHighBand(high, xhigh);
        code := Compose(mode.rate, ihigh, ilow);
      }
    }

    /** The bit packer for one code. */
    method PutCode(code: byte) returns (bytes: seq<byte>)
      requires Valid() && mode.packed
      modifies this`buffer, this`bits
      ensures Valid()
      ensures (BitBuffer(buffer, bits), bytes) == PackStep(mode.rate, old(BitBuffer(buffer, bits)), code)
    {
      hide BitOr, Pow2;
      buffer := BitOr(buffer, code * Pow2(bits));
      bits := bits + mode.rate;
      bytes := [];
      if bits >= 8 {
        bytes := [ToByte(buffer % 256)];
        bits := bits - 8;
        buffer := buffer / 256;
      }
    }

    /** `g722_encode`. */
    method Encode(amp: seq<int16>) returns (data: seq<byte>)
      requires Valid() && WholeGroups(mode, amp)
      modifies this, Parts()
      ensures Valid() && (Value(), data) == G722Stream.Encode(mode, old(Value()), amp)
    {
      hide AnalyseStep, EncodeStep, PackStep, Analyse, EncodeBands, PackAll, Pack;
      ghost var start := Value();
      data := [];
      var j := 0;
      assert amp[..0] == [];
      NothingYet(mode, start);
      ghost var xs: seq<(int16, int16)>, codes: seq<byte> := [], [];
      while j < |amp|
        invariant 0 <= j <= |amp| && Grouped(mode.eightK, j)
        invariant Valid()
        invariant (Filters(), xs) == Analyse(mode.eightK, start.qmf, amp[..j])
        invariant (BandPair(), codes) == EncodeBands(mode.rate, mode.eightK, start.bands, xs)
        invariant (BitBuffer(buffer, bits), data) == PackAll(mode, start.buffer, codes)
      {
        var group := amp[j..j + GroupSize(mode.eightK)];
        AnalyseNext(mode.eightK, start.qmf, amp[..j], group);
        assert amp[..j + |group|] == amp[..j] + group;
        j := j + |group|;
        var xlow, xhigh := SplitBands(group);
        EncodeBandsNext(mode.rate, mode.eightK, start.bands, xs, (xlow, xhigh));
        xs := xs + [(xlow, xhigh)];
        var code := EncodeSample(xlow, xhigh);
        PackAllNext(mode, start.buffer, codes, code);
        codes := codes + [code];
        if mode.packed {
          var bytes := PutCode(code);
          data := data + bytes;
        } else {
          data := data + [code];
        }
      }
      assert amp[..j] == amp;
    }

    /** The bit unpacker: fetch a byte if the buffer is short of a code, then take one code. */
    method GetCode(data: seq<byte>, j0: nat) returns (code: byte, j: nat)
      requires Valid() && mode.packed && j0 < |data|
      modifies this`buffer, this`bits
      ensures Valid()
      ensures j0 <= j <= |data| && (j == j0 ==> bits < old(bits))
      ensures var (codes, b) := Unpack(mode.rate, BitBuffer(buffer, bits), data[j..]);
              Unpack(mode.rate, old(BitBuffer(buffer, bits)), data[j0..]) == ([code] + codes, b)
    {
      hide BitOr, Pow2;
      j := j0;
      assert data[j0..][0] == data[j0] && data[j0..][1..] == data[j0 + 1..];
      if bits < mode.rate {
        buffer := BitOr(buffer, data[j] * Pow2(bits));
        j := j + 1;
        bits := bits + 8;
      }
      if mode.rate == 6 {
        code := buffer % 64;
        buffer := buffer / 64;
      } else {
        code := buffer % 128;
        buffer := buffer / 128;
      }
      bits := bits - mode.rate;
    }

    /** Both bands of one code word. */
    method DecodeSample(code: byte) returns (rlow: int16, rhigh: int16)
      requires Valid()
      modifies low, low.b, low.d, high, high.b, high.d
      ensures Valid()
      ensures (BandPair(), (rlow, rhigh)) == DecodeStep(mode.rate, mode.eightK, old(BandPair()), code)
    {
      hide DecodeLow, DecodeHigh;
      rhigh := 0;
      rlow := DecodeLowBand(low, mode.rate, code);
      if !mode.eightK {
        rhigh := DecodeHighBand(high, mode.rate, code);
      }
    }

    /** The receive filter bank on one sample of each band. */
    method JoinBands(rlow: int16, rhigh: int16) returns (amp: seq<int16>)
      requires Valid()
      modifies this`ptr, x, y
      ensures Valid() && BandPair() == old(BandPair())
      ensures (Filters(), amp) == SynthesiseStep(mode.eightK, old(Filters()), (rlow, rhigh))
    {
      hide CircularDot, ToInt16;
      if mode.eightK {
        amp := [ToInt16(Sum(rlow, rlow))];
      } else {
        ghost var x0, y0 := x[..], y[..];
        x[ptr] := ToInt16(Sum(rlow, rhigh));
        assert x[..] == x0[ptr := ToInt16(Sum(rlow, rhigh))];
        y[ptr] := ToInt16(Sum(rlow, -(rhigh as int)));
        assert y[..] == y0[ptr := ToInt16(Sum(rlow, -(rhigh as int)))];
        ptr := ptr + 1;
        if ptr >= 12 {
          ptr := 0;
        }
        var even := CircularDotProduct(y[..], REV, ptr);
        var odd := CircularDotProduct(x[..], FWD, ptr);
        amp := [Saturate(even / 2048), Saturate(odd / 2048)];
      }
    }

    /** `g722_decode`. */
    method Decode(data: seq<byte>) returns (amp: seq<int16>)
      requires Valid()
      modifies this, Parts()
      ensures Valid() && (Value(), amp) == G722Stream.Decode(mode, old(Value()), data)
    {
      hide SynthesiseStep, DecodeStep, Synthesise, DecodeBands, UnpackAll, Pending;
      ghost var start := Value();
      ghost var all := UnpackAll(mode, start.buffer, data);
      amp := [];
      var j := 0;
      ghost var codes: seq<byte>, rs: seq<(int16, int16)> := [], [];
      NothingYet(mode, start);
      AllPending(mode, start.buffer, data);
      while j < |data|
        invariant 0 <= j <= |data|
        invariant Valid()
        invariant (BandPair(), rs) == DecodeBands(mode.rate, mode.eightK, start.bands, codes)
        invariant (Filters(), amp) == Synthesise(mode.eightK, start.qmf, rs)
        invariant Pending(mode, all, codes, BitBuffer(buffer, bits), data, j)
        decreases |data| - j, bits
      {
        var code: byte;
        ghost var b0, j0 := BitBuffer(buffer, bits), j;
        if mode.packed {
          code, j := GetCode(data, j);
          StillPending(mode, all, codes, b0, data, j0, code, BitBuffer(buffer, bits), j);
        } else {
          code := data[j];
          j := j + 1;
          ByteTaken(mode, all, codes, b0, data, j0);
        }
        DecodeBandsNext(mode.rate, mode.eightK, start.bands, codes, code);
        codes := codes + [code];
        var rlow, rhigh := DecodeSample(code);
        SynthesiseNext(mode.eightK, start.qmf, rs, (rlow, rhigh));
        rs := rs + [(rlow, rhigh)];
        var more := JoinBands(rlow, rhigh);
        amp := amp + more;
      }
      NothingPending(mode, all, codes, BitBuffer(buffer, bits), data);
    }
  }

  lemma NothingYet(mode: Mode, st: State)
    requires Proper(mode)
    ensures EncodeBands(mode.rate, mode.eightK, st.bands, []) == (st.bands, [])
    ensures DecodeBands(mode.rate, mode.eightK, st.bands, []) == (st.bands, [])
    ensures Analyse(mode.eightK, st.qmf, []) == (st.qmf, [])
    ensures Synthesise(mode.eightK, st.qmf, []) == (st.qmf, [])
    ensures PackAll(mode, st.buffer, []) == (st.buffer, [])
  {
  }

  /** What the decoding loop has taken out of the input so far, and what it will still take out. */
  ghost predicate Pending(mode: Mode, all: (seq<byte>, BitBuffer), codes: seq<byte>, b: BitBuffer, data: seq<byte>,
                          j: nat)
    requires j <= |data| && Proper(mode)
  {
    if mode.packed then
      var (rest, last) := Unpack(mode.rate, b, data[j..]);
      all == (codes + rest, last)
    else all == (data, b) && codes == data[..j]
  }

  lemma AllPending(mode: Mode, b: BitBuffer, data: seq<byte>)
    requires Proper(mode)
    ensures Pending(mode, UnpackAll(mode, b, data), [], b, data, 0)
  {
    assert data[0..] == data && data[..0] == [];
    if mode.packed {
      var (codes, last) := Unpack(mode.rate, b, data);
      assert [] + codes == codes;
    }
  }

  lemma ByteTaken(mode: Mode, all: (seq<byte>, BitBuffer), codes: seq<byte>, b: BitBuffer, data: seq<byte>, j: nat)
    requires Proper(mode) && !mode.packed && j < |data| && Pending(mode, all, codes, b, data, j)
    ensures Pending(mode, all, codes + [data[j]], b, data, j + 1)
  {
  }

  lemma NothingPending(mode: Mode, all: (seq<byte>, BitBuffer), codes: seq<byte>, b: BitBuffer, data: seq<byte>)
    requires Proper(mode) && Pending(mode, all, codes, b, data, |data|)
    ensures all == (codes, b)
  {
    assert data[|data|..] == [] && data[..|data|] == data;
    assert codes + [] == codes;
  }

  lemma StillPending(mode: Mode, all: (seq<byte>, BitBuffer), codes: seq<byte>, b0: BitBuffer, data: seq<byte>, j0: nat,
                     code: byte, b: BitBuffer, j: nat)
    requires mode.packed && Proper(mode) && j0 <= j <= |data|
    requires Pending(mode, all, codes, b0, data, j0)
    requires var (rest, last) := Unpack(mode.rate, b, data[j..]);
             Unpack(mode.rate, b0, data[j0..]) == ([code] + rest, last)
    ensures Pending(mode, all, codes + [code], b, data, j)
  {
    hide Unpack;
    ConcatAssoc(codes, [code], Unpack(mode.rate, b, data[j..]).0);
  }
}
