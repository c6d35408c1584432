/** The binary-to-text coder of jni/sqlite3/encode.c.

    A byte string is shifted by an offset chosen to need the fewest escapes, and the three byte
    values 0x00, 0x01 and 0x27 are escaped with 0x01. */
module SqliteEncode {
  import opened FixedPoint

  const QUOTE := 0x27
  const EMPTY_MARK := 0x78

  predicate Special(x: byte) {
    x == 0 || x == 1 || x == QUOTE
  }

  predicate Allowed(e: int) {
    1 <= e < 256 && e != QUOTE
  }

  function Shifted(b: byte, e: int): byte {
    (b - e) % 256
  }

  /** What one input byte becomes. */
  function Cell(b: byte, e: int): seq<byte> {
    var x := Shifted(b, e);
    if Special(x) then [1, x + 1] else [x]
  }

  function Body(data: seq<byte>, e: int): seq<byte> {
    if data == [] then [] else Cell(data[0], e) + Body(data[1..], e)
  }

  /** How many bytes need an escape under offset `e`. */
  function Escapes(data: seq<byte>, e: int): nat {
    if data == [] then 0
    else (if Special(Shifted(data[0], e)) then 1 else 0) + Escapes(data[1..], e)
  }

  /** The first allowed offset below `k` with the fewest escapes. */
  function BestBelow(data: seq<byte>, k: nat): (e: int)
    requires 2 <= k <= 256
    ensures Allowed(e) && e < k
    ensures forall f :: Allowed(f) && f < k ==> Escapes(data, e) <= Escapes(data, f)
    ensures forall f :: Allowed(f) && f < e ==> Escapes(data, e) < Escapes(data, f)
  {
    if k == 2 then 1
    else
      var best := BestBelow(data, k - 1);
      if Allowed(k - 1) && Escapes(data, k - 1) < Escapes(data, best) then k - 1 else best
  }

  function BestOffset(data: seq<byte>): (e: int)
    ensures Allowed(e)
    ensures forall f :: Allowed(f) ==> Escapes(data, e) <= Escapes(data, f)
  {
    BestBelow(data, 256)
  }

  /** The encoded text, without its terminating zero. */
  function Encode(data: seq<byte>): seq<byte> {
    if data == [] then [EMPTY_MARK]
    else
      var e := BestOffset(data);
      [e] + Body(data, e)
  }

  // ----- reading the text back

  /** The scan meets a terminating zero before it leaves the buffer. */
  predicate Terminated(s: seq<byte>) {
    s != [] && (s[0] != 0 ==>
      if s[0] == 1 then |s| >= 2 && Terminated(s[2..]) else Terminated(s[1..]))
  }

  function DecodeTail(e: byte, s: seq<byte>): seq<byte>
    requires Terminated(s)
  {
    if s[0] == 0 then []
    else if s[0] == 1 then [((s[1] - 1) % 256 + e) % 256] + DecodeTail(e, s[2..])
    else [(s[0] + e) % 256] + DecodeTail(e, s[1..])
  }

  predicate Text(s: seq<byte>) {
    s != [] && Terminated(s[1..])
  }

  function Decode(s: seq<byte>): seq<byte>
    requires Text(s)
  {
    DecodeTail(s[0], s[1..])
  }

  // ----- round trip

  lemma {:induction false} TailRoundTrip(data: seq<byte>, e: byte, rest: seq<byte>)
    ensures Terminated(Body(data, e) + [0] + rest)
    ensures DecodeTail(e, Body(data, e) + [0] + rest) == data
  {
    if data != [] {
      TailRoundTrip(data[1..], e, rest);
      var tail := Body(data[1..], e) + [0] + rest;
      assert Body(data, e) + [0] + rest == Cell(data[0], e) + tail;
      CellRoundTrip(data[0], e, tail);
    }
  }

  lemma CellRoundTrip(b: byte, e: byte, tail: seq<byte>)
    requires Terminated(tail)
    ensures Terminated(Cell(b, e) + tail)
    ensures DecodeTail(e, Cell(b, e) + tail) == [b] + DecodeTail(e, tail)
  {
    hide Shifted, Terminated, DecodeTail;
    var x := Shifted(b, e);
    ShiftedForward(b, e);
    if Special(x) {
      EscapedCell(x, e, tail);
    } else {
      PlainCell(x, e, tail);
    }
  }

  lemma ShiftedForward(b: byte, e: byte)
    ensures (Shifted(b, e) + e) % 256 == b
    ensures 0 <= Shifted(b, e) < 256
  {
  }

  lemma EscapedCell(x: byte, e: byte, tail: seq<byte>)
    requires Special(x) && Terminated(tail)
    ensures Terminated([1, x + 1] + tail)
    ensures DecodeTail(e, [1, x + 1] + tail) == [(x + e) % 256] + DecodeTail(e, tail)
  {
    hide DecodeTail, Terminated;
    var t := [1, x + 1] + tail;
    assert t[2..] == tail;
    DecodeEscape(t, e);
  }

  lemma DecodeEscape(t: seq<byte>, e: byte)
    requires |t| >= 2 && t[0] == 1 && t[1] >= 1 && Terminated(t[2..])
    ensures Terminated(t)
    ensures DecodeTail(e, t) == [(t[1] - 1 + e) % 256] + DecodeTail(e, t[2..])
  {
    assert (t[1] - 1) % 256 == t[1] - 1;
  }

  lemma PlainCell(x: byte, e: byte, tail: seq<byte>)
    requires !Special(x) && Terminated(tail)
    ensures Terminated([x] + tail)
    ensures DecodeTail(e, [x] + tail) == [(x + e) % 256] + DecodeTail(e, tail)
  {
    assert ([x] + tail)[1..] == tail;
  }

  lemma OffsetThenTail(e: byte, body: seq<byte>, rest: seq<byte>)
    ensures ([e] + body + [0] + rest)[0] == e
    ensures ([e] + body + [0] + rest)[1..] == body + [0] + rest
  {
    assert [e] + body + [0] + rest == [e] + (body + [0] + rest);
  }

  /** Decoding undoes encoding for every byte string, whatever follows the terminator. */
  lemma RoundTrip(data: seq<byte>, rest: seq<byte>)
    ensures Text(Encode(data) + [0] + rest)
    ensures Decode(Encode(data) + [0] + rest) == data
  {
    if data == [] {
      OffsetThenTail(EMPTY_MARK, [], rest);
    } else {
      OffsetThenTail(BestOffset(data), Body(data, BestOffset(data)), rest);
      TailRoundTrip(data, BestOffset(data), rest);
    }
  }

  lemma {:induction false} BodyClean(data: seq<byte>, e: int)
    ensures 0 !in Body(data, e) && QUOTE !in Body(data, e)
  {
    if data != [] {
      BodyClean(data[1..], e);
    }
  }

  /** The text never holds a NUL or a single quote. */
  lemma EncodingIsClean(data: seq<byte>)
    ensures 0 !in Encode(data) && QUOTE !in Encode(data)
  {
    if data != [] {
      BodyClean(data, BestOffset(data));
    }
  }

  // ----- size of the text: a pigeonhole over the 254 allowed offsets

  lemma {:induction false} BodyLength(data: seq<byte>, e: int)
    ensures |Body(data, e)| == |data| + Escapes(data, e)
  {
    if data != [] {
      BodyLength(data[1..], e);
    }
  }

  lemma {:induction false} EscapesAtMostAll(data: seq<byte>, e: int)
    ensures Escapes(data, e) <= |data|
  {
    if data != [] {
      EscapesAtMostAll(data[1..], e);
    }
  }

  function AllowedBelow(k: nat): nat {
    if k == 0 then 0 else AllowedBelow(k - 1) + if Allowed(k - 1) then 1 else 0
  }

  /** Escapes summed over the allowed offsets below `k`. */
  function TotalEscapes(data: seq<byte>, k: nat): nat {
    if k == 0 then 0
    else TotalEscapes(data, k - 1) + if Allowed(k - 1) then Escapes(data, k - 1) else 0
  }

  /** How many allowed offsets below `k` make byte `b` special. */
  function OffsetsEscaping(b: byte, k: nat): nat {
    if k == 0 then 0
    else OffsetsEscaping(b, k - 1) + if Allowed(k - 1) && Special(Shifted(b, k - 1)) then 1 else 0
  }

  function Passed(x: int, k: nat): nat {
    if x < k then 1 else 0
  }

  lemma EscapingOffsets(b: byte, e: int)
    requires 0 <= e < 256
    ensures Special(Shifted(b, e)) <==> e == b || e == (b - 1) % 256 || e == (b - QUOTE) % 256
  {
    ShiftedIs(b, e, 0);
    ShiftedIs(b, e, 1);
    ShiftedIs(b, e, QUOTE);
  }

  lemma ShiftedIs(b: byte, e: int, x: byte)
    requires 0 <= e < 256
    ensures Shifted(b, e) == x <==> e == (b - x) % 256
  {
  }

  lemma {:induction false} ThreeOffsetsEscape(b: byte, k: nat)
    requires k <= 256
    ensures OffsetsEscaping(b, k) <= Passed(b, k) + Passed((b - 1) % 256, k) + Passed((b - QUOTE) % 256, k)
  {
    if k > 0 {
      ThreeOffsetsEscape(b, k - 1);
      EscapingOffsets(b, k - 1);
    }
  }

  lemma {:induction false} TotalSplits(data: seq<byte>, k: nat)
    requires data != []
    ensures TotalEscapes(data, k) == OffsetsEscaping(data[0], k) + TotalEscapes(data[1..], k)
  {
    if k > 0 {
      TotalSplits(data, k - 1);
    }
  }

  lemma {:induction false} TotalOfNothing(k: nat)
    ensures TotalEscapes([], k) == 0
  {
    if k > 0 {
      TotalOfNothing(k - 1);
    }
  }

  lemma {:induction false} TotalAtMostTriple(data: seq<byte>)
    ensures TotalEscapes(data, 256) <= 3 * |data|
  {
    if data == [] {
      TotalOfNothing(256);
    } else {
      TotalSplits(data, 256);
      ThreeOffsetsEscape(data[0], 256);
      TotalAtMostTriple(data[1..]);
    }
  }

  lemma {:induction false} AllowedBelowFormula(k: nat)
    requires k <= 256
    ensures AllowedBelow(k) == k - (if k > 0 then 1 else 0) - (if k > QUOTE then 1 else 0)
  {
    if k > 0 {
      AllowedBelowFormula(k - 1);
    }
  }

  lemma TimesNext(m: nat, a: nat)
    ensures m * (a + 1) == m * a + m
  {
  }

  lemma {:induction false} TotalAtLeastBest(data: seq<byte>, m: nat, k: nat)
    requires k <= 256
    requires forall f :: Allowed(f) ==> m <= Escapes(data, f)
    ensures TotalEscapes(data, k) >= m * AllowedBelow(k)
  {
    hide Escapes;
    if k > 0 {
      TotalAtLeastBest(data, m, k - 1);
      if Allowed(k - 1) {
        TimesNext(m, AllowedBelow(k - 1));
      }
    }
  }

  /** The best offset escapes at most 3 bytes in 254, hence fewer than all of them: the search
      always assigns its offset. */
  lemma BestOffsetIsCheap(data: seq<byte>)
    ensures Escapes(data, BestOffset(data)) <= 3 * |data| / 254
    ensures data != [] ==> Escapes(data, BestOffset(data)) < |data|
  {
    hide TotalEscapes, Escapes, AllowedBelow, BestOffset;
    TotalAtLeastBest(data, Escapes(data, BestOffset(data)), 256);
    AllowedBelowFormula(256);
    TotalAtMostTriple(data);
  }

  /** With its terminator the text fits the buffer that the caller is told to supply. */
  lemma EncodingFits(data: seq<byte>)
    ensures |Encode(data)| + 1 <= 2 + 257 * |data| / 254
    ensures data != [] ==> |Encode(data)| == |data| + Escapes(data, BestOffset(data)) + 1
  {
    if data != [] {
      BodyLength(data, BestOffset(data));
      BestOffsetIsCheap(data);
    }
  }

  /** The search is optimal: no allowed offset gives a shorter text. */
  lemma EncodingIsShortest(data: seq<byte>, e: int)
    requires data != [] && Allowed(e)
    ensures |Encode(data)| <= |[e] + Body(data, e)|
  {
    BodyLength(data, BestOffset(data));
    BodyLength(data, e);
  }

  // ----- which texts are encodings

  predicate EscapeCode(x: byte) {
    x == 1 || x == 2 || x == QUOTE + 1
  }

  /** A tail that the encoder could have written: no raw special byte, no escape pair but the three,
      and nothing behind the terminator. */
  predicate Canonical(t: seq<byte>) {
    t != [] &&
    if t[0] == 0 then |t| == 1
    else if t[0] == 1 then |t| >= 2 && EscapeCode(t[1]) && Canonical(t[2..])
    else t[0] != QUOTE && Canonical(t[1..])
  }

  lemma {:induction false} CanonicalTerminates(t: seq<byte>)
    requires Canonical(t)
    ensures Terminated(t)
  {
    if t[0] == 1 {
      CanonicalTerminates(t[2..]);
    } else if t[0] != 0 {
      CanonicalTerminates(t[1..]);
    }
  }

  /** What a caller can check: a canonical tail behind the offset that is best for the decoded bytes,
      or behind the mark for no bytes at all. */
  predicate WellFormed(s: seq<byte>) {
    |s| >= 2 && Canonical(s[1..]) &&
    (CanonicalTerminates(s[1..]);
     if s[1] == 0 then s[0] == EMPTY_MARK else s[0] == BestOffset(Decode(s)))
  }

  lemma {:induction false} BodyIsCanonical(data: seq<byte>, e: int)
    ensures Canonical(Body(data, e) + [0])
    ensures data != [] ==> (Body(data, e) + [0])[0] != 0
  {
    if data != [] {
      BodyIsCanonical(data[1..], e);
      var rest := Body(data[1..], e) + [0];
      var cell := Cell(data[0], e);
      assert Body(data, e) + [0] == cell + rest;
      assert (cell + rest)[|cell|..] == rest;
    }
  }

  lemma {:induction false} CanonicalIsBody(t: seq<byte>, e: byte)
    requires Canonical(t) && Terminated(t)
    ensures Body(DecodeTail(e, t), e) + [0] == t
  {
    if t[0] == 0 {
      assert t == [0];
    } else {
      var n := if t[0] == 1 then 2 else 1;
      CanonicalIsBody(t[n..], e);
      var data := DecodeTail(e, t);
      assert data[1..] == DecodeTail(e, t[n..]);
      CellOfDecoded(t, e);
      assert t == t[..n] + t[n..];
    }
  }

  /** The first cell of a canonical tail is the cell of the byte that it decodes to. */
  lemma CellOfDecoded(t: seq<byte>, e: byte)
    requires Canonical(t) && Terminated(t) && t[0] != 0
    ensures DecodeTail(e, t) != []
    ensures Cell(DecodeTail(e, t)[0], e) == t[..if t[0] == 1 then 2 else 1]
  {
    var x: byte := if t[0] == 1 then t[1] - 1 else t[0];
    var b: byte := DecodeTail(e, t)[0];
    assert b == (x + e) % 256;
    assert Shifted(b, e) == x by { ShiftedBack(x, e); }
  }

  lemma ShiftedBack(x: byte, e: byte)
    ensures Shifted((x + e) % 256, e) == x
  {
  }

  /** A text is an encoding of some byte string if and only if it is well formed. These are the texts
      on which the decoder does what its header comment promises; on all others the promise is a
      failure return, and none exists. */
  lemma EncodingIff(s: seq<byte>)
    ensures (exists data: seq<byte> :: Encode(data) + [0] == s) <==> WellFormed(s)
  {
    if WellFormed(s) {
      CanonicalTerminates(s[1..]);
      CanonicalIsBody(s[1..], s[0]);
      var data := Decode(s);
      assert s == [s[0]] + s[1..];
      if s[1] == 0 {
        assert s[1..] == [0];
        assert Encode([]) + [0] == s;
      } else {
        CellOfDecoded(s[1..], s[0]);
        assert Encode(data) + [0] == s;
      }
    }
    forall data: seq<byte> | Encode(data) + [0] == s
      ensures WellFormed(s)
    {
      EncodingIsWellFormed(data);
    }
  }

  lemma LoneTerminator()
    ensures Canonical([0])
  {
  }

  lemma EncodingIsWellFormed(data: seq<byte>)
    ensures WellFormed(Encode(data) + [0])
  {
    hide Body, BestOffset, Canonical, DecodeTail, Terminated;
    var s := Encode(data) + [0];
    RoundTrip(data, []);
    assert s + [] == s;
    if data == [] {
      assert s == [EMPTY_MARK, 0];
      assert s[1..] == [0];
      LoneTerminator();
    } else {
      var e := BestOffset(data);
      BodyIsCanonical(data, e);
      assert s[1..] == Body(data, e) + [0];
    }
  }

  /** Equivalently: decoding and encoding again gives the text back. */
  lemma EncodingIffRoundTrip(s: seq<byte>)
    ensures WellFormed(s) <==> Text(s) && Encode(Decode(s)) + [0] == s
  {
    EncodingIff(s);
    if WellFormed(s) {
      var data: seq<byte> :| Encode(data) + [0] == s;
      RoundTrip(data, []);
      assert s + [] == s;
    }
  }

  /** A text that is no encoding, because of its escape pair, and is decoded all the same. */
  lemma MalformedTextIsAccepted()
    ensures var s := [5, 1, 7, 0];
            && Text(s)
            && Decode(s) == [11]
            && forall data: seq<byte> :: Encode(data) + [0] != s
  {
    var s: seq<byte> := [5, 1, 7, 0];
    assert s[1..] == [1, 7, 0] && s[1..][2..] == [0];
    assert Decode(s) == [11] + DecodeTail(5, [0]);
    assert !WellFormed(s);
    EncodingIff(s);
  }

  /** On a text without escapes the decoder adds the offset in front to every byte. */
  lemma {:induction false} DecoderAddsOffset(e: byte, t: seq<byte>, i: nat)
    requires i < |t| && forall k :: 0 <= k < |t| ==> t[k] != 0 && t[k] != 1
    ensures Terminated(t + [0]) && |DecodeTail(e, t + [0])| == |t|
    ensures DecodeTail(e, t + [0])[i] as int == (t[i] + e) % 256
  {
    assert (t + [0])[1..] == t[1..] + [0];
    if |t| == 1 {
      assert t[1..] + [0] == [0];
    } else {
      DecoderAddsOffset(e, t[1..], if i == 0 then 0 else i - 1);
    }
  }

  // ----- the C routines

  function Count(data: seq<byte>, v: byte): nat {
    if data == [] then 0 else (if data[0] == v then 1 else 0) + Count(data[1..], v)
  }

  lemma EscapingBytes(b: byte, e: int)
    requires 0 <= e < 256
    ensures Special(Shifted(b, e)) <==> b == e || b == (e + 1) % 256 || b == (e + QUOTE) % 256
  {
  }

  /** The escape count read off a histogram. */
  lemma {:induction false} EscapesFromCounts(data: seq<byte>, e: int)
    requires 0 <= e < 256
    ensures Escapes(data, e)
         == Count(data, e) + Count(data, (e + 1) % 256) + Count(data, (e + QUOTE) % 256)
  {
    hide Special, Shifted;
    if data != [] {
      EscapesFromCounts(data[1..], e);
      EscapingBytes(data[0], e);
    }
  }

  lemma {:induction false} ZeroEscapesStaysBest(data: seq<byte>, k: nat, n: nat)
    requires 2 <= k <= n <= 256
    requires Escapes(data, BestBelow(data, k)) == 0
    ensures BestBelow(data, n) == BestBelow(data, k)
  {
    if k < n {
      ZeroEscapesStaysBest(data, k, n - 1);
    }
  }

  lemma {:induction false} BodySnoc(data: seq<byte>, b: byte, e: int)
    ensures Body(data + [b], e) == Body(data, e) + Cell(b, e)
    ensures Escapes(data + [b], e) == Escapes(data, e) + (if Special(Shifted(b, e)) then 1 else 0)
  {
    if data == [] {
      assert data + [b] == [b];
      assert Body([b], e) == Cell(b, e) + Body([], e);
    } else {
      assert (data + [b])[1..] == data[1..] + [b];
      BodySnoc(data[1..], b, e);
    }
  }

  lemma {:induction false} EscapesOfPrefix(data: seq<byte>, i: nat, e: int)
    requires i <= |data|
    ensures Escapes(data[..i], e) <= Escapes(data, e)
  {
    if i > 0 {
      assert data[..i][1..] == data[1..][..i - 1];
      EscapesOfPrefix(data[1..], i - 1, e);
    }
  }

  /** The histogram loop, which runs from the last byte down. */
  method Histogram(inp: array<byte>, n: nat) returns (cnt: array<int>)
    requires n <= inp.Length
    ensures fresh(cnt) && cnt.Length == 256
    ensures forall v: byte :: cnt[v] == Count(inp[..n], v)
  {
    cnt := new int[256](_ => 0);
    var i: int := n - 1;
    assert inp[n..n] == [];
    while i >= 0
      invariant -1 <= i < n
      invariant forall v: byte :: cnt[v] == Count(inp[i + 1..n], v)
    {
      assert inp[i..n] == [inp[i]] + inp[i + 1..n];
      cnt[inp[i]] := cnt[inp[i]] + 1;
      i := i - 1;
    }
    assert inp[0..n] == inp[..n];
  }

  /** The search for the cheapest offset. The offset starts with an arbitrary value and the
      method proves that it is overwritten. */
  method FindOffset(ghost data: seq<byte>, cnt: array<int>, n: nat) returns (e: int, m: int)
    requires n == |data| > 0 && cnt.Length == 256
    requires forall v: byte :: cnt[v] == Count(data, v)
    ensures e == BestOffset(data) && m == Escapes(data, e)
    ensures m <= 3 * n / 254 && m < n
  {
    e := *;
    m := n;
    var i := 1;
    while i < 256
      invariant 1 <= i <= 256
      invariant 0 <= m <= n
      invariant m == n ==> forall f :: Allowed(f) && f < i ==> Escapes(data, f) == n
      invariant m < n ==> i >= 2 && e == BestBelow(data, i) && m == Escapes(data, e)
      invariant m == 0 ==> i == 256
    {
      if i != QUOTE {
        var sum := cnt[i] + cnt[(i + 1) % 256] + cnt[(i + QUOTE) % 256];
        EscapesFromCounts(data, i);
        EscapesAtMostAll(data, i);
        if sum < m {
          m := sum;
          e := i;
          if m == 0 {
            ZeroEscapesStaysBest(data, i + 1, 256);
            i := 256;
            break;
          }
        }
      }
      i := i + 1;
    }
    BestOffsetIsCheap(data);
  }

  lemma BodyOfNothing(e: int)
    ensures Body([], e) == [] && Escapes([], e) == 0
  {
  }

  lemma AppendToText(before: seq<byte>, after: seq<byte>, e: byte, body: seq<byte>, cell: seq<byte>)
    requires before == [e] + body
    requires |after| == |before| + |cell|
    requires forall k :: 0 <= k < |before| ==> after[k] == before[k]
    requires forall k :: 0 <= k < |cell| ==> after[|before| + k] == cell[k]
    ensures after == [e] + (body + cell)
  {
  }

  /** The output loop: `m` escapes are known to be needed. */
  method WriteText(inp: array<byte>, n: nat, e: byte, ghost m: nat, out: array<byte>) returns (j: int)
    requires n <= inp.Length && out != inp
    requires m == Escapes(inp[..n], e)
    requires n + m + 1 < out.Length
    modifies out
    ensures j == n + m + 1
    ensures out[..j + 1] == [e] + Body(inp[..n], e) + [0]
  {
    hide Body, Escapes;
    ghost var data := inp[..n];
    BodyOfNothing(e);
    assert data[..0] == [];
    out[0] := e;
    j := 1;
    var i := 0;
    while i < n
      invariant 0 <= i <= n
      invariant inp[..n] == data
      invariant j == 1 + i + Escapes(data[..i], e)
      invariant j < out.Length && out[..j] == [e] + Body(data[..i], e)
    {
      assert data[..i + 1] == data[..i] + [inp[i]];
      BodySnoc(data[..i], inp[i], e);
      EscapesOfPrefix(data, i + 1, e);
      ghost var before := out[..j];
      var x: int := (inp[i] as int - e) % 256;
      if x == 0 || x == 1 || x == QUOTE {
        out[j] := 1;
        j := j + 1;
        x := x + 1;
      }
      out[j] := x;
      j := j + 1;
      AppendToText(before, out[..j], e, Body(data[..i], e), Cell(inp[i], e));
      i := i + 1;
    }
    assert data[..n] == data;
    out[j] := 0;
  }

  /** `sqlite_encode_binary`. A null output asks for the length only. */
  method EncodeBinary(inp: array<byte>, n: int, out: array?<byte>) returns (r: int)
    requires n <= inp.Length
    requires out != null ==> out.Length >= 2 + 257 * Max(n, 0) / 254 && out != inp
    modifies if out == null then {} else {out}
    ensures r == |Encode(inp[..Max(n, 0)])|
    ensures out != null ==> r < out.Length && out[..r + 1] == Encode(inp[..Max(n, 0)]) + [0]
  {
    ghost var data := inp[..Max(n, 0)];
    EncodingFits(data);
    if n <= 0 {
      if out != null {
        out[0] := EMPTY_MARK;
        out[1] := 0;
      }
      return 1;
    }
    var cnt := Histogram(inp, n);
    var e, m := FindOffset(data, cnt, n);
    if out == null {
      return n + m + 1;
    }
    r := WriteText(inp, n, e, m, out);
    assert data == inp[..n];
    assert r == n + m + 1;
  }

  /** One step of the scan, at position `p` of the buffer. */
  lemma DecodeAt(s: seq<byte>, p: nat, e: byte)
    requires p < |s| && Terminated(s[p..])
    ensures s[p] == 0 ==> DecodeTail(e, s[p..]) == []
    ensures s[p] == 1 ==> p + 2 < |s| && Terminated(s[p + 2..])
    ensures s[p] == 1 ==>
              DecodeTail(e, s[p..]) == [((s[p + 1] - 1) % 256 + e) % 256] + DecodeTail(e, s[p + 2..])
    ensures s[p] > 1 ==> p + 1 < |s| && Terminated(s[p + 1..])
    ensures s[p] > 1 ==> DecodeTail(e, s[p..]) == [(s[p] + e) % 256] + DecodeTail(e, s[p + 1..])
  {
    assert s[p..][0] == s[p] && s[p..][1..] == s[p + 1..];
    if s[p] == 1 {
      assert s[p..][2..] == s[p + 2..];
    }
  }

  /** `sqlite_decode_binary`. The two buffers may be one and the same: the write index stays
      behind the read index. */
  method DecodeBinary(inp: array<byte>, out: array<byte>) returns (i: int)
    requires Text(inp[..])
    requires |Decode(inp[..])| <= out.Length
    modifies out
    ensures i == |old(Decode(inp[..]))|
    ensures out[..i] == old(Decode(inp[..]))
  {
    hide DecodeTail, Terminated;
    ghost var text := inp[..];
    ghost var whole := Decode(text);
    var e: int := inp[0];
    var p := 1;
    i := 0;
    TerminatedNonEmpty(text, p);
    while inp[p] != 0
      invariant 0 <= i < p < inp.Length
      invariant forall q :: p <= q < inp.Length ==> inp[q] == text[q]
      invariant Terminated(text[p..])
      invariant i <= |whole| && whole[i..] == DecodeTail(e, text[p..])
      invariant forall k :: 0 <= k < i ==> out[k] == whole[k]
      decreases inp.Length - p
    {
      DecodeAt(text, p, e);
      var c: int := inp[p];
      p := p + 1;
      ghost var rest := whole[i..];
      if c == 1 {
        c := (inp[p] as int - 1) % 256;
        p := p + 1;
      }
      assert rest == [(c + e) % 256] + DecodeTail(e, text[p..]);
      assert whole[i] == rest[0] && whole[i + 1..] == rest[1..];
      out[i] := (c + e) % 256;
      i := i + 1;
      TerminatedNonEmpty(text, p);
    }
    DecodeAt(text, p, e);
    assert whole == out[..i];
  }

  lemma TerminatedNonEmpty(s: seq<byte>, p: nat)
    requires p <= |s| && Terminated(s[p..])
    ensures p < |s|
  {
  }
}
