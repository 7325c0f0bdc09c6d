/** The base64 streams of the QR library (ui/qrcode-generator.js:1879-2006) against section 4 of RFC 4648.
    Text is a sequence of character codes; buffers are 32-bit, as in JavaScript's bitwise operators. */
module Base64 {
  import opened Wrappers

  type Byte = b: bv32 | b < 0x100
  type Sextet = s: bv32 | s < 0x40

  const PAD: bv32 := 0x3d

  function EncodeChar(n: Sextet): bv32 {
    if n < 26 then 0x41 + n
    else if n < 52 then 0x61 + (n - 26)
    else if n < 62 then 0x30 + (n - 52)
    else if n == 62 then 0x2b
    else 0x2f
  }

  /** The value of a base64 character; the source throws on any other. */
  function DecodeChar(c: bv32): Option<Sextet> {
    if 0x41 <= c <= 0x5a then Some(c - 0x41)
    else if 0x61 <= c <= 0x7a then Some(c - 0x61 + 26)
    else if 0x30 <= c <= 0x39 then Some(c - 0x30 + 52)
    else if c == 0x2b then Some(62)
    else if c == 0x2f then Some(63)
    else None
  }

  /** JavaScript's white space. */
  predicate IsWhite(c: bv32) {
    || 0x09 <= c <= 0x0d || c == 0x20 || c == 0xa0 || c == 0x1680 || 0x2000 <= c <= 0x200a
    || c == 0x2028 || c == 0x2029 || c == 0x202f || c == 0x205f || c == 0x3000 || c == 0xfeff
  }

  lemma CharRoundTrip(n: Sextet)
    ensures DecodeChar(EncodeChar(n)) == Some(n) && EncodeChar(n) != PAD && !IsWhite(EncodeChar(n))
  {}

  // The encoding of RFC 4648: three bytes make four sextets.

  function S0(a: bv32): Sextet {
    (a >> 2) & 0x3f
  }

  function S1(a: bv32, b: bv32): Sextet {
    ((a & 0x03) << 4) | ((b >> 4) & 0x0f)
  }

  function S2(b: bv32, c: bv32): Sextet {
    ((b & 0x0f) << 2) | ((c >> 6) & 0x03)
  }

  function S3(c: bv32): Sextet {
    c & 0x3f
  }

  function Group(a: Byte, b: Byte, c: Byte): seq<bv32> {
    [EncodeChar(S0(a)), EncodeChar(S1(a, b)), EncodeChar(S2(b, c)), EncodeChar(S3(c))]
  }

  function Encode(bs: seq<Byte>): seq<bv32> {
    if bs == [] then []
    else if |bs| == 1 then [EncodeChar(S0(bs[0])), EncodeChar(S1(bs[0], 0)), PAD, PAD]
    else if |bs| == 2 then [EncodeChar(S0(bs[0])), EncodeChar(S1(bs[0], bs[1])), EncodeChar(S2(bs[1], 0)), PAD]
    else Group(bs[0], bs[1], bs[2]) + Encode(bs[3..])
  }

  /** What the stream has emitted before it is flushed. */
  function Emitted(bs: seq<Byte>): seq<bv32> {
    if bs == [] then []
    else if |bs| == 1 then [EncodeChar(S0(bs[0]))]
    else if |bs| == 2 then [EncodeChar(S0(bs[0])), EncodeChar(S1(bs[0], bs[1]))]
    else Group(bs[0], bs[1], bs[2]) + Emitted(bs[3..])
  }

  /** The sextets that byte n adds once it follows the others. */
  function Added(bs: seq<Byte>, n: Byte): seq<bv32> {
    if |bs| % 3 == 0 then [EncodeChar(S0(n))]
    else if |bs| % 3 == 1 then [EncodeChar(S1(bs[|bs| - 1], n))]
    else [EncodeChar(S2(bs[|bs| - 1], n)), EncodeChar(S3(n))]
  }

  /** The last sextet and the padding that a flush adds. */
  function Flushed(bs: seq<Byte>): seq<bv32> {
    if |bs| % 3 == 0 then []
    else if |bs| % 3 == 1 then [EncodeChar(S1(bs[|bs| - 1], 0)), PAD, PAD]
    else [EncodeChar(S2(bs[|bs| - 1], 0)), PAD]
  }

  lemma {:induction false} EmittedPush(bs: seq<Byte>, n: Byte)
    ensures Emitted(bs + [n]) == Emitted(bs) + Added(bs, n)
  {
    hide EncodeChar, S0, S1, S2, S3;
    if |bs| >= 3 {
      hide Group, Added;
      var g, rest := Group(bs[0], bs[1], bs[2]), bs[3..];
      EmittedPush(rest, n);
      AddedDependsOnTail(bs, n);
      assert (bs + [n])[3..] == rest + [n];
      assert g + (Emitted(rest) + Added(rest, n)) == (g + Emitted(rest)) + Added(rest, n);
    }
  }

  lemma AddedDependsOnTail(bs: seq<Byte>, n: Byte)
    requires |bs| >= 3
    ensures Added(bs, n) == Added(bs[3..], n) && Flushed(bs) == Flushed(bs[3..])
  {
    hide EncodeChar, S0, S1, S2, S3;
  }

  lemma {:induction false} EmittedFlush(bs: seq<Byte>)
    ensures Encode(bs) == Emitted(bs) + Flushed(bs)
  {
    hide EncodeChar, S0, S1, S2, S3;
    if |bs| >= 3 {
      hide Group, Flushed;
      var g, rest := Group(bs[0], bs[1], bs[2]), bs[3..];
      EmittedFlush(rest);
      AddedDependsOnTail(bs, 0);
      assert g + (Emitted(rest) + Flushed(rest)) == (g + Emitted(rest)) + Flushed(rest);
    }
  }

  /** The buffer's low bits are the unsent bits of the last byte; the bits above them are stale. */
  predicate Pending(buffer: bv32, buflen: nat, bs: seq<Byte>) {
    && buflen == 2 * (|bs| % 3)
    && (buflen == 2 ==> buffer & 0x03 == bs[|bs| - 1] & 0x03)
    && (buflen == 4 ==> buffer & 0x0f == bs[|bs| - 1] & 0x0f)
  }

  function ShiftIn(buffer: bv32, n: Byte): bv32 {
    (buffer << 8) | (n & 0xff)
  }

  /** The sextet at the top of the unsent bits. */
  function Top(buffer: bv32, buflen: nat): Sextet
    requires 6 <= buflen <= 12
  {
    (buffer >> (buflen - 6)) & 0x3f
  }

  lemma Shifted0(buffer: bv32, n: Byte)
    ensures Top(ShiftIn(buffer, n), 8) == S0(n) && ShiftIn(buffer, n) & 0x03 == n & 0x03
  {}

  lemma Shifted1(buffer: bv32, a: Byte, n: Byte)
    requires buffer & 0x03 == a & 0x03
    ensures Top(ShiftIn(buffer, n), 10) == S1(a, n) && ShiftIn(buffer, n) & 0x0f == n & 0x0f
  {}

  lemma Shifted2(buffer: bv32, a: Byte, n: Byte)
    requires buffer & 0x0f == a & 0x0f
    ensures Top(ShiftIn(buffer, n), 12) == S2(a, n) && Top(ShiftIn(buffer, n), 6) == S3(n)
  {}

  lemma FlushBits(buffer: bv32, a: Byte)
    ensures buffer & 0x03 == a & 0x03 ==> (buffer << 4) & 0x3f == S1(a, 0)
    ensures buffer & 0x0f == a & 0x0f ==> (buffer << 2) & 0x3f == S2(a, 0)
  {}

  /** Once n is shifted in, the sextets taken from the top are the ones to add. */
  lemma {:induction false} NextSextet(buffer: bv32, buflen: nat, bs: seq<Byte>, n: Byte, k: nat)
    requires Pending(buffer, buflen, bs) && k < |Added(bs, n)|
    ensures 6 <= buflen + 8 - 6 * k <= 12
    ensures EncodeChar(Top(ShiftIn(buffer, n), buflen + 8 - 6 * k)) == Added(bs, n)[k]
  {
    hide EncodeChar, S0, S1, S2, S3, Top, ShiftIn;
    if |bs| % 3 == 0 {
      Shifted0(buffer, n);
    } else if |bs| % 3 == 1 {
      Shifted1(buffer, bs[|bs| - 1], n);
    } else {
      Shifted2(buffer, bs[|bs| - 1], n);
    }
  }

  lemma PendingPush(buffer: bv32, buflen: nat, bs: seq<Byte>, n: Byte)
    requires Pending(buffer, buflen, bs)
    ensures Pending(ShiftIn(buffer, n), buflen + 8 - 6 * |Added(bs, n)|, bs + [n])
  {
    hide EncodeChar, S0, S1, S2, S3, Top, ShiftIn;
    if |bs| % 3 == 0 {
      Shifted0(buffer, n);
    } else if |bs| % 3 == 1 {
      Shifted1(buffer, bs[|bs| - 1], n);
    }
  }

  lemma AddedLength(bs: seq<Byte>, n: Byte)
    ensures |Added(bs, n)| == if |bs| % 3 == 2 then 2 else 1
  {}

  class Base64EncodeOutputStream {
    var buffer: bv32
    var buflen: nat
    var length: nat
    var base64: seq<bv32>
    ghost var written: seq<Byte>

    /** Between writes: everything but the pending bits has been emitted. */
    ghost predicate Valid()
      reads this
    {
      length == |written| && base64 == Emitted(written) && Pending(buffer, buflen, written)
    }

    constructor ()
      ensures Valid() && written == []
    {
      buffer, buflen, length, base64, written := 0, 0, 0, [], [];
    }

    method WriteByte(n: Byte)
      requires Valid()
      modifies this
      ensures Valid() && written == old(written) + [n]
    {
      hide Emitted, EncodeChar, Added, Pending, Top, ShiftIn;
      ghost var w, add, before, had := written, Added(written, n), buffer, buflen;
      EmittedPush(w, n);
      PendingPush(buffer, buflen, w, n);
      AddedLength(w, n);
      assert had == 2 * (|w| % 3) by {
        PendingLength(buffer, buflen, w);
      }
      buffer := ShiftIn(buffer, n);
      buflen := buflen + 8;
      length := length + 1;
      written := w + [n];
      ghost var k := 0;
      while buflen >= 6
        invariant buffer == ShiftIn(before, n) && length == |written| && written == w + [n]
        invariant k <= |add| && buflen == had + 8 - 6 * k
        invariant base64 == Emitted(w) + add[..k]
        decreases buflen
      {
        NextSextet(before, had, w, n, k);
        base64 := base64 + [EncodeChar(Top(buffer, buflen))];
        assert add[..k + 1] == add[..k] + [add[k]];
        buflen := buflen - 6;
        k := k + 1;
      }
      assert k == |add| && add[..k] == add;
    }

    /** Send the pending bits and the padding. */
    method Flush()
      requires Valid()
      modifies this
      ensures base64 == Encode(old(written))
    {
      hide Emitted, Encode, EncodeChar, S1, S2;
      ghost var w := written;
      EmittedFlush(w);
      if buflen > 0 {
        FlushBits(buffer, w[|w| - 1]);
        base64 := base64 + [EncodeChar((buffer << (6 - buflen)) & 0x3f)];
        buffer := 0;
        buflen := 0;
      }
      if length % 3 != 0 {
        var padlen := 3 - length % 3;
        ghost var sent := base64;
        for i := 0 to padlen
          invariant base64 == sent + seq(i, _ => PAD)
        {
          base64 := base64 + [PAD];
        }
        assert seq(padlen, _ => PAD) == if padlen == 2 then [PAD, PAD] else [PAD];
      }
    }
  }

  lemma PendingLength(buffer: bv32, buflen: nat, bs: seq<Byte>)
    requires Pending(buffer, buflen, bs)
    ensures buflen == 2 * (|bs| % 3)
  {}

  // The decoder.

  datatype ReadResult = Data(b: Byte) | End | Thrown

  /** What one read leaves unread, its buffer, and its answer. */
  datatype Reading = Reading(text: seq<bv32>, buffer: bv32, buflen: nat, result: ReadResult)

  /** The oldest eight of the buffered bits. */
  function TopByte(buffer: bv32, buflen: nat): Byte
    requires 8 <= buflen < 14
  {
    (buffer >> (buflen - 8)) & 0xff
  }

  function Read(text: seq<bv32>, buffer: bv32, buflen: nat): (r: Reading)
    requires buflen < 14
    ensures r.result.Data? ==> r.buflen < 6 && 6 * |r.text| + r.buflen + 8 <= 6 * |text| + buflen
    decreases |text|
  {
    if buflen >= 8 then Reading(text, buffer, buflen - 8, Data(TopByte(buffer, buflen)))
    else if text == [] then Reading(text, buffer, buflen, if buflen == 0 then End else Thrown)
    else
      var c, rest := text[0], text[1..];
      if c == PAD then Reading(rest, buffer, 0, End)
      else if IsWhite(c) then Read(rest, buffer, buflen)
      else
        match DecodeChar(c)
        case None => Reading(rest, buffer, buflen, Thrown)
        case Some(v) => Read(rest, (buffer << 6) | v, buflen + 6)
  }

  lemma ReadReady(text: seq<bv32>, buffer: bv32, buflen: nat)
    requires 8 <= buflen < 14
    ensures Read(text, buffer, buflen) == Reading(text, buffer, buflen - 8, Data(TopByte(buffer, buflen)))
  {}

  lemma ReadStep(text: seq<bv32>, buffer: bv32, buflen: nat)
    requires buflen < 8
    ensures Read(text, buffer, buflen) ==
            if text == [] then Reading(text, buffer, buflen, if buflen == 0 then End else Thrown)
            else if text[0] == PAD then Reading(text[1..], buffer, 0, End)
            else if IsWhite(text[0]) then Read(text[1..], buffer, buflen)
            else if DecodeChar(text[0]) == None then Reading(text[1..], buffer, buflen, Thrown)
            else Read(text[1..], (buffer << 6) | DecodeChar(text[0]).value, buflen + 6)
  {
    hide IsWhite, DecodeChar;
  }

  /** All the bytes up to the first end of stream, or None when a read throws. */
  function ReadAll(text: seq<bv32>, buffer: bv32, buflen: nat): Option<seq<Byte>>
    requires buflen < 14
    decreases 6 * |text| + buflen
  {
    var r := Read(text, buffer, buflen);
    match r.result
    case End => Some([])
    case Thrown => None
    case Data(b) =>
      match ReadAll(r.text, r.buffer, r.buflen)
      case None => None
      case Some(rest) => Some([b] + rest)
  }

  /** Two sextets shifted into the buffer. */
  function In(buffer: bv32, v: Sextet): bv32 {
    (buffer << 6) | v
  }

  lemma FirstByte(x: bv32, a: Byte, b: bv32)
    requires b < 0x100
    ensures (In(In(x, S0(a)), S1(a, b)) >> 4) & 0xff == a
  {}

  lemma SecondByte(x: bv32, y: bv32, a: bv32, b: Byte, c: bv32)
    requires c < 0x100 && x == In(y, S1(a, b))
    ensures (In(x, S2(b, c)) >> 2) & 0xff == b
  {}

  lemma ThirdByte(x: bv32, y: bv32, b: bv32, c: Byte)
    requires x == In(y, S2(b, c))
    ensures (In(x, S3(c)) >> 0) & 0xff == c
  {}

  /** Reading past a base64 character takes its sextet into the buffer. */
  lemma {:induction false} ReadChar(v: Sextet, rest: seq<bv32>, buffer: bv32, buflen: nat)
    requires buflen < 8
    ensures Read([EncodeChar(v)] + rest, buffer, buflen) == Read(rest, In(buffer, v), buflen + 6)
  {
    hide IsWhite, EncodeChar, DecodeChar;
    CharRoundTrip(v);
    assert ([EncodeChar(v)] + rest)[1..] == rest;
  }

  /** From an empty buffer with any stale bits, two characters give a first byte. */
  lemma ReadFirst(a: Byte, b: bv32, rest: seq<bv32>, x: bv32)
    requires b < 0x100
    ensures var y := In(In(x, S0(a)), S1(a, b));
            Read([EncodeChar(S0(a)), EncodeChar(S1(a, b))] + rest, x, 0) == Reading(rest, y, 4, Data(a))
  {
    hide IsWhite, EncodeChar, DecodeChar, S0, S1, In;
    var tail := [EncodeChar(S1(a, b))] + rest;
    assert [EncodeChar(S0(a)), EncodeChar(S1(a, b))] + rest == [EncodeChar(S0(a))] + tail;
    ReadChar(S0(a), tail, x, 0);
    ReadChar(S1(a, b), rest, In(x, S0(a)), 6);
    FirstByte(x, a, b);
  }

  lemma {:induction false} ReadSecond(a: bv32, b: Byte, c: bv32, rest: seq<bv32>, y: bv32)
    requires c < 0x100
    ensures var x := In(y, S1(a, b));
            Read([EncodeChar(S2(b, c))] + rest, x, 4) == Reading(rest, In(x, S2(b, c)), 2, Data(b))
  {
    hide IsWhite, EncodeChar, DecodeChar, S1, S2, In;
    var x := In(y, S1(a, b));
    ReadChar(S2(b, c), rest, x, 4);
    SecondByte(x, y, a, b, c);
  }

  lemma ReadThird(b: bv32, c: Byte, rest: seq<bv32>, y: bv32)
    ensures var x := In(y, S2(b, c));
            Read([EncodeChar(S3(c))] + rest, x, 2) == Reading(rest, In(x, S3(c)), 0, Data(c))
  {
    hide IsWhite, EncodeChar, DecodeChar, S2, S3, In;
    var x := In(y, S2(b, c));
    ReadChar(S3(c), rest, x, 2);
    ThirdByte(x, y, b, c);
  }

  lemma ReadPad(rest: seq<bv32>, buffer: bv32, buflen: nat)
    requires buflen < 8
    ensures Read([PAD] + rest, buffer, buflen).result == End
  {}

  function Prepend(bs: seq<Byte>, r: Option<seq<Byte>>): Option<seq<Byte>> {
    match r case None => None case Some(rest) => Some(bs + rest)
  }

  lemma PrependLaws(a: seq<Byte>, b: seq<Byte>, r: Option<seq<Byte>>)
    ensures Prepend(a, Prepend(b, r)) == Prepend(a + b, r)
    ensures Prepend([], r) == r
    ensures Prepend(a, Some([])) == Some(a)
  {
    if r.Some? {
      assert a + (b + r.value) == (a + b) + r.value;
      assert [] + r.value == r.value;
    }
    assert a + [] == a;
  }

  lemma ReadAllData(text: seq<bv32>, buffer: bv32, buflen: nat)
    requires buflen < 14
    ensures var r := Read(text, buffer, buflen);
            && (r.result.Data? ==>
                  ReadAll(text, buffer, buflen) == Prepend([r.result.b], ReadAll(r.text, r.buffer, r.buflen)))
            && (r.result.End? ==> ReadAll(text, buffer, buflen) == Some([]))
            && (r.result.Thrown? ==> ReadAll(text, buffer, buflen) == None)
  {
    hide Read;
  }

  lemma ReadGroup(a: Byte, b: Byte, c: Byte, rest: seq<bv32>, x: bv32) returns (y: bv32)
    ensures ReadAll(Group(a, b, c) + rest, x, 0) == Prepend([a, b, c], ReadAll(rest, y, 0))
  {
    hide IsWhite, EncodeChar, DecodeChar, S0, S1, S2, S3, In, Read, ReadAll, Prepend;
    var t1 := [EncodeChar(S3(c))] + rest;
    var t2 := [EncodeChar(S2(b, c))] + t1;
    var t3 := [EncodeChar(S0(a)), EncodeChar(S1(a, b))] + t2;
    assert Group(a, b, c) + rest == t3;
    var x1 := In(x, S0(a));
    var x2 := In(x1, S1(a, b));
    var x3 := In(x2, S2(b, c));
    y := In(x3, S3(c));
    var r := ReadAll(rest, y, 0);
    ReadFirst(a, b, t2, x);
    ReadSecond(a, b, c, t1, x1);
    ReadThird(b, c, rest, x2);
    ReadAllData(t3, x, 0);
    ReadAllData(t2, x2, 4);
    ReadAllData(t1, x3, 2);
    PrependLaws([b], [c], r);
    PrependLaws([a], [b] + [c], r);
    assert [a, b, c] == [a] + ([b] + [c]);
  }

  /** The round trip: reading the flushed output gives exactly the bytes, then the end of stream, and never throws,
      whatever stale bits the reader's buffer holds. */
  lemma {:induction false} RoundTrip(bs: seq<Byte>, x: bv32)
    ensures ReadAll(Encode(bs), x, 0) == Some(bs)
    decreases |bs|
  {
    hide IsWhite, EncodeChar, DecodeChar, S0, S1, S2, S3, In, Group, Read, ReadAll, Prepend;
    if |bs| == 0 {
      ReadNothing(x);
      ReadAllData([], x, 0);
    } else if |bs| == 1 {
      RoundTripOne(bs[0], x);
      assert bs == [bs[0]];
    } else if |bs| == 2 {
      RoundTripTwo(bs[0], bs[1], x);
      assert bs == [bs[0], bs[1]];
    } else {
      var y := ReadGroup(bs[0], bs[1], bs[2], Encode(bs[3..]), x);
      RoundTrip(bs[3..], y);
      assert bs == [bs[0], bs[1], bs[2]] + bs[3..];
      assert Prepend([bs[0], bs[1], bs[2]], Some(bs[3..])) == Some(bs) by {
        PrependSome([bs[0], bs[1], bs[2]], bs[3..]);
      }
    }
  }

  lemma PrependSome(a: seq<Byte>, b: seq<Byte>)
    ensures Prepend(a, Some(b)) == Some(a + b)
  {}

  lemma RoundTripOne(a: Byte, x: bv32)
    ensures ReadAll(Encode([a]), x, 0) == Some([a])
  {
    hide IsWhite, EncodeChar, DecodeChar, S0, S1, In, Read, ReadAll, Prepend;
    var t := [EncodeChar(S0(a)), EncodeChar(S1(a, 0))] + ([PAD] + [PAD]);
    var y := In(In(x, S0(a)), S1(a, 0));
    assert Encode([a]) == t;
    ReadFirst(a, 0, [PAD] + [PAD], x);
    ReadPad([PAD], y, 4);
    ReadAllData(t, x, 0);
    ReadAllData([PAD] + [PAD], y, 4);
    PrependLaws([a], [], None);
  }

  lemma RoundTripTwo(a: Byte, b: Byte, x: bv32)
    ensures ReadAll(Encode([a, b]), x, 0) == Some([a, b])
  {
    hide IsWhite, EncodeChar, DecodeChar, S0, S1, S2, In, Read, ReadAll, Prepend;
    var x1 := In(x, S0(a));
    var x2 := In(x1, S1(a, b));
    var y := In(x2, S2(b, 0));
    var t1 := [EncodeChar(S2(b, 0))] + ([PAD] + []);
    var t := [EncodeChar(S0(a)), EncodeChar(S1(a, b))] + t1;
    assert Encode([a, b]) == t;
    ReadFirst(a, b, t1, x);
    ReadSecond(a, b, 0, [PAD] + [], x1);
    ReadPad([], y, 2);
    ReadAllData(t, x, 0);
    ReadAllData(t1, x2, 4);
    ReadAllData([PAD] + [], y, 2);
    PrependLaws([b], [], None);
    PrependSome([a], [b]);
    assert [a, b] == [a] + [b];
  }

  lemma ReadNothing(x: bv32)
    ensures Read([], x, 0).result == End
  {}

  class Base64DecodeInputStream {
    const str: seq<bv32>
    var pos: nat
    var buffer: bv32
    var buflen: nat

    ghost predicate Valid()
      reads this
    {
      pos <= |str| && buflen < 8
    }

    constructor (str: seq<bv32>)
      ensures Valid() && this.str == str && pos == 0 && buffer == 0 && buflen == 0
    {
      this.str := str;
      pos, buffer, buflen := 0, 0, 0;
    }

    method ReadNext() returns (r: ReadResult)
      requires Valid()
      modifies this
      ensures Valid()
      ensures Reading(str[pos..], buffer, buflen, r) == Read(old(str[pos..]), old(buffer), old(buflen))
    {
      hide IsWhite, DecodeChar, Read, TopByte;
      while buflen < 8
        invariant pos <= |str| && buflen < 14
        invariant Read(str[pos..], buffer, buflen) == Read(old(str[pos..]), old(buffer), old(buflen))
        decreases |str| - pos
      {
        ReadStep(str[pos..], buffer, buflen);
        if pos >= |str| {
          if buflen == 0 {
            return End;
          }
          return Thrown;
        }
        var c := str[pos];
        assert str[pos..][1..] == str[pos + 1..];
        pos := pos + 1;
        if c == PAD {
          buflen := 0;
          return End;
        } else if IsWhite(c) {
          continue;
        }
        var v := DecodeChar(c);
        if v == None {
          return Thrown;
        }
        buffer := (buffer << 6) | v.value;
        buflen := buflen + 6;
      }
      ReadReady(str[pos..], buffer, buflen);
      var n := TopByte(buffer, buflen);
      buflen := buflen - 8;
      r := Data(n);
    }
  }

  /** Write every byte and flush, as createDataURL does. */
  method EncodeAll(bs: seq<Byte>) returns (text: seq<bv32>)
    ensures text == Encode(bs)
  {
    var stream := new Base64EncodeOutputStream();
    for i := 0 to |bs|
      invariant stream.Valid() && stream.written == bs[..i] && fresh(stream)
    {
      stream.WriteByte(bs[i]);
    }
    assert bs[..|bs|] == bs;
    stream.Flush();
    text := stream.base64;
  }

  /** Read until the end of stream, as createStringToBytes does. */
  method DecodeAll(text: seq<bv32>) returns (r: Option<seq<Byte>>)
    ensures r == ReadAll(text, 0, 0)
  {
    hide Read, ReadAll, Prepend;
    var stream := new Base64DecodeInputStream(text);
    var bs: seq<Byte> := [];
    assert text[0..] == text;
    PrependLaws([], [], ReadAll(text, 0, 0));
    while true
      invariant stream.Valid() && fresh(stream) && stream.str == text
      invariant ReadAll(text, 0, 0) == Prepend(bs, ReadAll(text[stream.pos..], stream.buffer, stream.buflen))
      decreases 6 * (|text| - stream.pos) + stream.buflen
    {
      ReadAllData(text[stream.pos..], stream.buffer, stream.buflen);
      var x := stream.ReadNext();
      match x
      case End =>
        PrependLaws(bs, [], None);
        return Some(bs);
      case Thrown =>
        PrependNone(bs);
        return None;
      case Data(b) =>
        PrependLaws(bs, [b], ReadAll(text[stream.pos..], stream.buffer, stream.buflen));
        bs := bs + [b];
    }
  }

  lemma PrependNone(bs: seq<Byte>)
    ensures Prepend(bs, None) == None
  {}

  /** The two streams together: what is written is what is read back. */
  method EncodeThenDecode(bs: seq<Byte>) returns (r: Option<seq<Byte>>)
    ensures r == Some(bs)
  {
    var text := EncodeAll(bs);
    RoundTrip(bs, 0);
    r := DecodeAll(text);
  }

  // The vectors of RFC 4648, section 10: "f" to "foobar"; and one for the last two characters of the alphabet.

  lemma Vectors()
    ensures Encode([0x66]) == [0x5a, 0x67, PAD, PAD]
    ensures Encode([0x66, 0x6f]) == [0x5a, 0x6d, 0x38, PAD]
    ensures Encode([0x66, 0x6f, 0x6f]) == [0x5a, 0x6d, 0x39, 0x76]
    ensures Encode([0x66, 0x6f, 0x6f, 0x62, 0x61, 0x72]) == [0x5a, 0x6d, 0x39, 0x76, 0x59, 0x6d, 0x46, 0x79]
    ensures Encode([0xfb, 0xff]) == [0x2b, 0x2f, 0x38, PAD] && PAD == 0x3d
  {
    assert [0x66, 0x6f, 0x6f, 0x62, 0x61, 0x72][3..] == [0x62, 0x61, 0x72];
  }
}
