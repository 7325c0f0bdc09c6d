/** The data codeword stream (ISO/IEC 18004:2015, section 7.4.10) as createData fills it
    (ui/qrcode-generator.js:332-384), and a reader of whole streams. */
module CodewordStream {
  import opened QrTypes
  import opened Wrappers
  import opened Bits
  import opened BitBuffer
  import opened Segments

  datatype DataError = IllegalChar | Overflow

  datatype Result<+T> = Ok(value: T) | Err(error: DataError)

  predicate AllLegal(segs: seq<Segment>) {
    forall i: nat | i < |segs| :: Legal(segs[i])
  }

  predicate AllFit(segs: seq<Segment>, version: Version)
  {
    forall i: nat | i < |segs| :: Fits(segs[i], version)
  }

  function AllBits(segs: seq<Segment>, version: Version): seq<bool>
    requires AllLegal(segs)
  {
    if segs == [] then [] else SegmentBits(segs[0], version) + AllBits(segs[1..], version)
  }

  /** Alternating pad bytes. */
  function Pads(n: nat): seq<bool> {
    if n == 0 then [] else Pads(n - 1) + BitsOf(if n % 2 == 1 then 0xec else 0x11, 8)
  }

  function Terminator(len: nat, total: nat): nat {
    if len + 4 <= 8 * total then 4 else 0
  }

  /** The number of bits up to the next byte boundary. */
  function ToBoundary(len: nat): nat {
    (8 - len % 8) % 8
  }

  /** What follows the segments: terminator, zero bits to a byte boundary, pad bytes up to the capacity. */
  function Tail(len: nat, total: nat): (t: seq<bool>)
    requires len <= 8 * total
    ensures len + |t| == 8 * total
  {
    var n1 := len + Terminator(len, total);
    var n2 := n1 + ToBoundary(n1);
    PadsLength((8 * total - n2) / 8);
    Zeros(n1 - len) + Zeros(n2 - n1) + Pads((8 * total - n2) / 8)
  }

  lemma {:induction false} PadsLength(n: nat)
    ensures |Pads(n)| == 8 * n
  {
    if n > 0 {
      PadsLength(n - 1);
    }
  }

  /** The whole stream of a symbol that holds total data codewords. */
  function Stream(segs: seq<Segment>, version: Version, total: nat): (bits: seq<bool>)
    requires AllLegal(segs) && |AllBits(segs, version)| <= 8 * total
    ensures |bits| == 8 * total
  {
    AllBits(segs, version) + Tail(|AllBits(segs, version)|, total)
  }

  // The reader.

  /** The end of the data: a zero mode, or too few bits for one. */
  predicate Stops(bits: seq<bool>) {
    |bits| < 4 || ValueOf(bits[..4]) == 0
  }

  function ParseAll(bits: seq<bool>, version: Version): Option<seq<Segment>>
    decreases |bits|
  {
    if Stops(bits) then Some([])
    else
      match ReadSegment(bits, version)
      case None => None
      case Some((s, rest)) =>
        match ParseAll(rest, version)
        case None => None
        case Some(segs) => Some([s] + segs)
  }

  lemma TailStops(len: nat, total: nat)
    requires len <= 8 * total
    ensures Stops(Tail(len, total))
  {
    var t := Tail(len, total);
    if len + 4 <= 8 * total {
      ValueOfZeros(4);
      assert t[..4] == Zeros(4);
    }
  }

  lemma {:induction false} ValueOfZeros(n: nat)
    ensures ValueOf(Zeros(n)) == 0
  {
    if n > 0 {
      ValueOfZeros(n - 1);
      assert Zeros(n)[..n - 1] == Zeros(n - 1);
    }
  }

  lemma {:induction false} ParseSegments(segs: seq<Segment>, version: Version, rest: seq<bool>)
    requires AllLegal(segs) && AllFit(segs, version) && Stops(rest)
    ensures ParseAll(AllBits(segs, version) + rest, version) == Some(segs)
    decreases |segs|
  {
    hide Legal, Fits, SegmentBits, ParseAll, Stops;
    if segs == [] {
      assert [] + rest == rest;
      NothingParsed(rest, version);
    } else {
      var s, tail := segs[0], AllBits(segs[1..], version) + rest;
      ParseSegments(segs[1..], version, rest);
      SegmentIsParsed(s, version, tail, segs[1..]);
      assert AllBits(segs, version) + rest == SegmentBits(s, version) + tail;
      assert segs == [s] + segs[1..];
    }
  }

  lemma NothingParsed(rest: seq<bool>, version: Version)
    requires Stops(rest)
    ensures ParseAll(rest, version) == Some([])
  {}

  lemma SegmentIsParsed(s: Segment, version: Version, tail: seq<bool>, segs: seq<Segment>)
    requires Legal(s) && Fits(s, version) && ParseAll(tail, version) == Some(segs)
    ensures ParseAll(SegmentBits(s, version) + tail, version) == Some([s] + segs)
  {
    hide Legal, Fits, SegmentBits, ReadSegment, Stops;
    SegmentRoundTrip(s, version, tail);
    SegmentGoesOn(s, version, tail);
  }

  /** A segment does not look like the end of the data. */
  lemma SegmentGoesOn(s: Segment, version: Version, rest: seq<bool>)
    requires Legal(s)
    ensures !Stops(SegmentBits(s, version) + rest)
  {
    hide Legal, Body, LengthInBits;
    PowersOfTwo();
    ValueOfBits(Mode(s), 4);
    assert (SegmentBits(s, version) + rest)[..4] == BitsOf(Mode(s), 4);
  }

  /** The stream of any legal segments whose counts fit is parsed back to exactly those segments. */
  lemma {:induction false} StreamRoundTrip(segs: seq<Segment>, version: Version, total: nat)
    requires AllLegal(segs) && AllFit(segs, version)
    requires |AllBits(segs, version)| <= 8 * total
    ensures ParseAll(Stream(segs, version, total), version) == Some(segs)
  {
    var len := |AllBits(segs, version)|;
    TailStops(len, total);
    ParseSegments(segs, version, Tail(len, total));
  }

  // The writer.

  method WriteBody(s: Segment, buffer: QrBitBuffer) returns (ok: bool)
    requires buffer.Valid() && (s.Bytes? ==> Legal(s))
    modifies buffer
    ensures buffer.Valid() && (ok <==> Legal(s))
    ensures ok ==> buffer.Contents() == old(buffer.Contents()) + Body(s)
  {
    match s
    case Numeric(d) => ok := WriteNumber(d, buffer);
    case Alphanumeric(t) => ok := WriteAlphaNum(t, buffer);
    case Bytes(b) =>
      WriteBytes(b, buffer);
      ok := true;
  }

  predicate BytesLegal(segs: seq<Segment>) {
    forall i: nat | i < |segs| && segs[i].Bytes? :: Legal(segs[i])
  }

  lemma {:induction false} AllBitsSnoc(segs: seq<Segment>, s: Segment, version: Version)
    requires AllLegal(segs) && Legal(s) && AllLegal(segs + [s])
    ensures AllBits(segs + [s], version) == AllBits(segs, version) + SegmentBits(s, version)
    decreases |segs|
  {
    hide Legal, SegmentBits;
    if segs == [] {
      assert ([] + [s])[1..] == [];
      assert AllBits([], version) == [];
    } else {
      AllBitsSnoc(segs[1..], s, version);
      assert (segs + [s])[1..] == segs[1..] + [s];
    }
  }

  /** The first loop of createData. */
  method WriteSegments(segs: seq<Segment>, version: Version, buffer: QrBitBuffer) returns (ok: bool)
    requires buffer.Valid() && buffer.Contents() == [] && BytesLegal(segs)
    modifies buffer
    ensures buffer.Valid() && (ok <==> AllLegal(segs))
    ensures ok ==> buffer.Contents() == AllBits(segs, version)
  {
    hide Legal, Body, LengthInBits, BitsOf, QrBitBuffer.Valid, QrBitBuffer.Contents;
    for i := 0 to |segs|
      invariant buffer.Valid() && AllLegal(segs[..i])
      invariant buffer.Contents() == AllBits(segs[..i], version)
    {
      var s := segs[i];
      ghost var bits := buffer.Contents();
      buffer.Put(Mode(s), 4);
      buffer.Put(Count(s), LengthInBits(Mode(s), version));
      var legal := WriteBody(s, buffer);
      if !legal {
        return false;
      }
      assert segs[..i + 1] == segs[..i] + [s];
      AllBitsSnoc(segs[..i], s, version);
      assert buffer.Contents() == bits + SegmentBits(s, version);
    }
    assert segs[..|segs|] == segs;
    ok := true;
  }

  method PadToBoundary(buffer: QrBitBuffer)
    requires buffer.Valid()
    modifies buffer
    ensures buffer.Valid() && buffer.length % 8 == 0
    ensures buffer.Contents() == old(buffer.Contents()) + Zeros(ToBoundary(old(buffer.length)))
  {
    hide QrBitBuffer.Valid, QrBitBuffer.Contents;
    ghost var bits, n := buffer.Contents(), buffer.length;
    while buffer.length % 8 != 0
      invariant buffer.Valid() && n <= buffer.length <= n + ToBoundary(n)
      invariant buffer.Contents() == bits + Zeros(buffer.length - n)
      decreases n + ToBoundary(n) - buffer.length
    {
      buffer.PutBit(false);
    }
  }

  method PadWithBytes(buffer: QrBitBuffer, total: nat)
    requires buffer.Valid() && buffer.length % 8 == 0 && buffer.length <= 8 * total
    modifies buffer
    ensures buffer.Valid() && buffer.length == 8 * total
    ensures buffer.Contents() == old(buffer.Contents()) + Pads((8 * total - old(buffer.length)) / 8)
  {
    hide QrBitBuffer.Valid, QrBitBuffer.Contents, BitsOf, Pads;
    ghost var bits, n := buffer.Contents(), buffer.length;
    ghost var k := 0;
    PadsStep(bits, 0);
    while true
      invariant buffer.Valid() && k % 2 == 0 && buffer.length == n + 8 * k <= 8 * total
      invariant buffer.Contents() == bits + Pads(k)
      decreases 8 * total - buffer.length
    {
      if buffer.length >= total * 8 {
        break;
      }
      PadsStep(bits, k);
      buffer.Put(0xec, 8);
      k := k + 1;
      if buffer.length >= total * 8 {
        break;
      }
      PadsStep(bits, k);
      buffer.Put(0x11, 8);
      k := k + 1;
    }
    Eighth(n, k, total);
  }

  lemma PadsStep(bits: seq<bool>, k: nat)
    ensures bits + Pads(0) == bits && |Pads(k + 1)| == |Pads(k)| + 8
    ensures bits + Pads(k + 1) == bits + Pads(k) + BitsOf(if k % 2 == 0 then 0xec else 0x11, 8)
  {
    hide BitsOf;
  }

  lemma Eighth(n: nat, k: nat, total: nat)
    requires n + 8 * k == 8 * total
    ensures (8 * total - n) / 8 == k
  {}

  /** The end code and the padding of createData. */
  method WritePadding(buffer: QrBitBuffer, total: nat)
    requires buffer.Valid() && buffer.length <= 8 * total
    modifies buffer
    ensures buffer.Valid() && buffer.length == 8 * total
    ensures buffer.Contents() == old(buffer.Contents()) + Tail(old(buffer.length), total)
  {
    hide QrBitBuffer.Valid, QrBitBuffer.Contents, BitsOf, Pads, Zeros, ToBoundary;
    ghost var bits, len := buffer.Contents(), buffer.length;
    if buffer.length + 4 <= total * 8 {
      buffer.Put(0, 4);
      ZeroBits(4);
    }
    NoZeros(bits);
    assert buffer.Contents() == bits + Zeros(Terminator(len, total));
    BoundaryFits(buffer.length, total);
    PadToBoundary(buffer);
    PadWithBytes(buffer, total);
  }

  lemma NoZeros(bits: seq<bool>)
    ensures bits + Zeros(0) == bits && |Zeros(4)| == 4
  {}

  lemma BoundaryFits(len: nat, total: nat)
    requires len <= 8 * total
    ensures len + ToBoundary(len) <= 8 * total && |Zeros(ToBoundary(len))| == ToBoundary(len)
  {}

  lemma {:induction false} ZeroBits(n: nat)
    ensures BitsOf(0, n) == Zeros(n)
  {
    if n > 0 {
      ZeroBits(n - 1);
    }
  }

  /** The data part of createData: the codeword stream, or the error that stops it. */
  method FillBuffer(segs: seq<Segment>, version: Version, total: nat) returns (r: Result<QrBitBuffer>)
    requires BytesLegal(segs)
    ensures r == Err(IllegalChar) <==> !AllLegal(segs)
    ensures r == Err(Overflow) <==> AllLegal(segs) && |AllBits(segs, version)| > 8 * total
    ensures r.Ok? ==> && fresh(r.value) && r.value.Valid() && |r.value.buffer| == total
                      && BytesToBits(r.value.buffer) == Stream(segs, version, total)
  {
    hide Legal, AllBits, Tail, BitAt;
    var buffer := new QrBitBuffer();
    var ok := WriteSegments(segs, version, buffer);
    if !ok {
      return Err(IllegalChar);
    }
    if buffer.length > total * 8 {
      return Err(Overflow);
    }
    WritePadding(buffer, total);
    assert BytesToBits(buffer.buffer)[..buffer.length] == BytesToBits(buffer.buffer);
    r := Ok(buffer);
  }
}
