/** Data segments of a QR symbol (ISO/IEC 18004:2015, sections 7.4.3 to 7.4.5) as the encoder writes them
    (ui/qrcode-generator.js:974-1018, 1607-1750), and a reader that takes them back. */
module Segments {
  import opened QrTypes
  import opened Wrappers
  import opened Bits
  import opened BitBuffer

  datatype Segment = Numeric(digits: string) | Alphanumeric(text: string) | Bytes(bytes: seq<nat>)

  function Mode(s: Segment): nat {
    match s case Numeric(_) => 1 case Alphanumeric(_) => 2 case Bytes(_) => 4
  }

  function Count(s: Segment): nat {
    match s case Numeric(d) => |d| case Alphanumeric(t) => |t| case Bytes(b) => |b|
  }

  /** The width of the count field, by mode and symbol version. */
  function LengthInBits(mode: nat, version: Version): nat
    requires (mode == 1 || mode == 2 || mode == 4)
  {
    if version < 10 then (if mode == 1 then 10 else if mode == 2 then 9 else 8)
    else if version < 27 then (if mode == 1 then 12 else if mode == 2 then 11 else 16)
    else (if mode == 1 then 14 else if mode == 2 then 13 else 16)
  }

  // Characters.

  predicate IsDigit(c: char) {
    '0' <= c <= '9'
  }

  function DigitValue(c: char): (v: nat)
    requires IsDigit(c)
    ensures v < 10
  {
    (c - '0') as nat
  }

  function DigitChar(v: nat): char
    requires v < 10
  {
    '0' + v as char
  }

  const SYMBOLS: string := " $%*+-./:"

  /** The code of an alphanumeric character; the source throws on any other. */
  function CharCode(c: char): Option<nat> {
    if '0' <= c <= '9' then Some((c - '0') as nat)
    else if 'A' <= c <= 'Z' then Some((c - 'A') as nat + 10)
    else if c == ' ' then Some(36) else if c == '$' then Some(37) else if c == '%' then Some(38)
    else if c == '*' then Some(39) else if c == '+' then Some(40) else if c == '-' then Some(41)
    else if c == '.' then Some(42) else if c == '/' then Some(43) else if c == ':' then Some(44)
    else None
  }

  function CodeChar(v: nat): char
    requires v < 45
  {
    if v < 10 then '0' + v as char else if v < 36 then 'A' + (v - 10) as char else SYMBOLS[v - 36]
  }

  lemma CharCodeRoundTrip(c: char)
    requires CharCode(c).Some?
    ensures CharCode(c).value < 45 && CodeChar(CharCode(c).value) == c
  {}

  lemma DigitRoundTrip(c: char)
    requires IsDigit(c)
    ensures DigitChar(DigitValue(c)) == c
  {}

  predicate Legal(s: Segment) {
    match s
    case Numeric(d) => forall i: nat | i < |d| :: IsDigit(d[i])
    case Alphanumeric(t) => forall i: nat | i < |t| :: CharCode(t[i]).Some?
    case Bytes(b) => forall i: nat | i < |b| :: b[i] < 256
  }

  /** The count fits its field. */
  predicate Fits(s: Segment, version: Version)
  {
    Count(s) < Pow2(LengthInBits(Mode(s), version))
  }

  // What is written.

  function StrToNum(d: string): nat
    requires forall i: nat | i < |d| :: IsDigit(d[i])
  {
    if d == "" then 0 else 10 * StrToNum(d[..|d| - 1]) + DigitValue(d[|d| - 1])
  }

  function NumericBody(d: string): seq<bool>
    requires Legal(Numeric(d))
  {
    if |d| >= 3 then BitsOf(StrToNum(d[..3]), 10) + NumericBody(d[3..])
    else if |d| == 2 then BitsOf(StrToNum(d), 7)
    else if |d| == 1 then BitsOf(StrToNum(d), 4)
    else []
  }

  function AlphaBody(t: string): seq<bool>
    requires Legal(Alphanumeric(t))
  {
    if |t| >= 2 then BitsOf(CharCode(t[0]).value * 45 + CharCode(t[1]).value, 11) + AlphaBody(t[2..])
    else if |t| == 1 then BitsOf(CharCode(t[0]).value, 6)
    else []
  }

  function ByteBody(b: seq<nat>): seq<bool> {
    if b == [] then [] else BitsOf(b[0], 8) + ByteBody(b[1..])
  }

  function Body(s: Segment): seq<bool>
    requires Legal(s)
  {
    match s case Numeric(d) => NumericBody(d) case Alphanumeric(t) => AlphaBody(t) case Bytes(b) => ByteBody(b)
  }

  function SegmentBits(s: Segment, version: Version): seq<bool>
    requires Legal(s)
  {
    BitsOf(Mode(s), 4) + BitsOf(Count(s), LengthInBits(Mode(s), version)) + Body(s)
  }

  // The reader.

  /** The number in the first len bits, and the rest. */
  function Take(bits: seq<bool>, len: nat): Option<(nat, seq<bool>)> {
    if len <= |bits| then Some((ValueOf(bits[..len]), bits[len..])) else None
  }

  lemma {:induction false} TakeBits(num: nat, len: nat, rest: seq<bool>)
    requires num < Pow2(len)
    ensures Take(BitsOf(num, len) + rest, len) == Some((num, rest))
  {
    ValueOfBits(num, len);
    var all := BitsOf(num, len) + rest;
    assert all[..len] == BitsOf(num, len) && all[len..] == rest;
  }

  function ReadNumeric(bits: seq<bool>, n: nat): (r: Option<(string, seq<bool>)>)
    ensures r.Some? ==> |r.value.1| <= |bits|
  {
    if n == 0 then Some(("", bits))
    else
      match Take(bits, if n >= 3 then 10 else if n == 2 then 7 else 4)
      case None => None
      case Some((v, rest)) =>
        if n >= 3 then
          if v >= 1000 then None else
            match ReadNumeric(rest, n - 3)
            case None => None
            case Some((d, tail)) => Some(([DigitChar(v / 100), DigitChar(v / 10 % 10), DigitChar(v % 10)] + d, tail))
        else if n == 2 then (if v >= 100 then None else Some(([DigitChar(v / 10), DigitChar(v % 10)], rest)))
        else (if v >= 10 then None else Some(([DigitChar(v)], rest)))
  }

  function ReadAlpha(bits: seq<bool>, n: nat): (r: Option<(string, seq<bool>)>)
    ensures r.Some? ==> |r.value.1| <= |bits|
  {
    if n == 0 then Some(("", bits))
    else
      match Take(bits, if n >= 2 then 11 else 6)
      case None => None
      case Some((v, rest)) =>
        if n >= 2 then
          if v >= 2025 then None else
            match ReadAlpha(rest, n - 2)
            case None => None
            case Some((t, tail)) => Some(([CodeChar(v / 45), CodeChar(v % 45)] + t, tail))
        else (if v >= 45 then None else Some(([CodeChar(v)], rest)))
  }

  function ReadBytes(bits: seq<bool>, n: nat): (r: Option<(seq<nat>, seq<bool>)>)
    ensures r.Some? ==> |r.value.1| <= |bits|
  {
    if n == 0 then Some(([], bits))
    else
      match Take(bits, 8)
      case None => None
      case Some((v, rest)) =>
        match ReadBytes(rest, n - 1)
        case None => None
        case Some((b, tail)) => Some(([v] + b, tail))
  }

  /** One segment: mode, count, and as many characters as the count says. */
  function ReadSegment(bits: seq<bool>, version: Version): (r: Option<(Segment, seq<bool>)>)
    ensures r.Some? ==> |r.value.1| < |bits|
  {
    match Take(bits, 4)
    case None => None
    case Some((mode, bits1)) =>
      if mode != 1 && mode != 2 && mode != 4 then None else
        match Take(bits1, LengthInBits(mode, version))
        case None => None
        case Some((n, bits2)) =>
          if mode == 1 then
            match ReadNumeric(bits2, n) case None => None case Some((d, rest)) => Some((Numeric(d), rest))
          else if mode == 2 then
            match ReadAlpha(bits2, n) case None => None case Some((t, rest)) => Some((Alphanumeric(t), rest))
          else
            match ReadBytes(bits2, n) case None => None case Some((b, rest)) => Some((Bytes(b), rest))
  }

  lemma PowersOfTwo()
    ensures Pow2(4) == 16 && Pow2(6) == 64 && Pow2(7) == 128 && Pow2(8) == 256 && Pow2(10) == 1024 && Pow2(11) == 2048
  {
    assert Pow2(2) == 4;
    assert Pow2(5) == 8 * Pow2(2);
    assert Pow2(8) == 8 * Pow2(5);
    assert Pow2(9) == 2 * Pow2(8);
  }

  lemma Decimal(a: nat, b: nat, c: nat)
    requires a < 10 && b < 10 && c < 10
    ensures var v := 10 * (10 * a + b) + c; v < 1000 && v / 100 == a && v / 10 % 10 == b && v % 10 == c
  {}

  lemma ThreeDigits(d: string)
    requires |d| == 3 && forall i: nat | i < |d| :: IsDigit(d[i])
    ensures var v := StrToNum(d);
            v < 1000 && [DigitChar(v / 100), DigitChar(v / 10 % 10), DigitChar(v % 10)] == d
  {
    var a, b, c := DigitValue(d[0]), DigitValue(d[1]), DigitValue(d[2]);
    TwoDigits(d[..2]);
    assert d[..2][0] == d[0] && d[..2][1] == d[1];
    assert StrToNum(d) == 10 * (10 * a + b) + c;
    DigitRoundTrip(d[0]);
    DigitRoundTrip(d[1]);
    DigitRoundTrip(d[2]);
    Decimal(a, b, c);
  }

  lemma TwoDigits(d: string)
    requires |d| == 2 && forall i: nat | i < |d| :: IsDigit(d[i])
    ensures var v := StrToNum(d);
            && v == 10 * DigitValue(d[0]) + DigitValue(d[1])
            && v < 100 && [DigitChar(v / 10), DigitChar(v % 10)] == d
  {
    OneDigit(d[..1]);
    assert d[..1][0] == d[0];
    DigitRoundTrip(d[0]);
    DigitRoundTrip(d[1]);
  }

  lemma OneDigit(d: string)
    requires |d| == 1 && IsDigit(d[0])
    ensures StrToNum(d) == DigitValue(d[0]) && [DigitChar(StrToNum(d))] == d
  {
    DigitRoundTrip(d[0]);
    assert StrToNum(d[..0]) == 0;
  }

  /** Numeric segments are uniquely decodable, leading zeros and short tails included. */
  lemma {:induction false} NumericRoundTrip(d: string, rest: seq<bool>)
    requires Legal(Numeric(d))
    ensures ReadNumeric(NumericBody(d) + rest, |d|) == Some((d, rest))
    decreases |d|
  {
    hide DigitValue, DigitChar, StrToNum, ReadNumeric, BitsOf;
    if |d| >= 3 {
      var tail := NumericBody(d[3..]) + rest;
      NumericRoundTrip(d[3..], rest);
      GroupIsRead(d[..3], |d|, tail, d[3..], rest);
      assert NumericBody(d) + rest == BitsOf(StrToNum(d[..3]), 10) + tail;
      assert d == d[..3] + d[3..];
    } else {
      TailIsRead(d, rest);
    }
  }

  lemma GroupIsRead(g: string, n: nat, tail: seq<bool>, d: string, rest: seq<bool>)
    requires |g| == 3 && Legal(Numeric(g)) && n >= 3 && ReadNumeric(tail, n - 3) == Some((d, rest))
    ensures ReadNumeric(BitsOf(StrToNum(g), 10) + tail, n) == Some((g + d, rest))
  {
    hide DigitValue, DigitChar, StrToNum, Take, BitsOf;
    PowersOfTwo();
    ThreeDigits(g);
    TakeBits(StrToNum(g), 10, tail);
  }

  lemma TailIsRead(d: string, rest: seq<bool>)
    requires |d| < 3 && Legal(Numeric(d))
    ensures ReadNumeric(NumericBody(d) + rest, |d|) == Some((d, rest))
  {
    hide DigitValue, DigitChar, StrToNum, Take, BitsOf;
    PowersOfTwo();
    if |d| == 2 {
      TwoDigits(d);
      TakeBits(StrToNum(d), 7, rest);
    } else if |d| == 1 {
      OneDigit(d);
      TakeBits(StrToNum(d), 4, rest);
    } else {
      assert NumericBody(d) + rest == rest;
    }
  }

  /** Alphanumeric segments are uniquely decodable. */
  lemma {:induction false} AlphaRoundTrip(t: string, rest: seq<bool>)
    requires Legal(Alphanumeric(t))
    ensures ReadAlpha(AlphaBody(t) + rest, |t|) == Some((t, rest))
    decreases |t|
  {
    hide CharCode, CodeChar, Take, ReadAlpha;
    if |t| >= 2 {
      CharCodeRoundTrip(t[0]);
      CharCodeRoundTrip(t[1]);
      var a, b := CharCode(t[0]).value, CharCode(t[1]).value;
      var tail := AlphaBody(t[2..]) + rest;
      AlphaRoundTrip(t[2..], rest);
      PairIsRead(a, b, |t|, tail, t[2..], rest);
      assert AlphaBody(t) + rest == BitsOf(a * 45 + b, 11) + tail;
      assert t == [t[0], t[1]] + t[2..];
    } else {
      LastIsRead(t, rest);
    }
  }

  lemma PairIsRead(a: nat, b: nat, n: nat, tail: seq<bool>, t: string, rest: seq<bool>)
    requires a < 45 && b < 45 && n >= 2 && ReadAlpha(tail, n - 2) == Some((t, rest))
    ensures ReadAlpha(BitsOf(a * 45 + b, 11) + tail, n) == Some(([CodeChar(a), CodeChar(b)] + t, rest))
  {
    hide Take, CodeChar;
    PowersOfTwo();
    PairCode(a, b);
    TakeBits(a * 45 + b, 11, tail);
  }

  lemma LastIsRead(t: string, rest: seq<bool>)
    requires Legal(Alphanumeric(t)) && |t| <= 1
    ensures ReadAlpha(AlphaBody(t) + rest, |t|) == Some((t, rest))
  {
    hide CharCode, CodeChar, Take;
    if |t| == 1 {
      PowersOfTwo();
      CharCodeRoundTrip(t[0]);
      TakeBits(CharCode(t[0]).value, 6, rest);
      assert t == [t[0]];
    } else {
      assert AlphaBody(t) + rest == rest;
    }
  }

  lemma PairCode(a: nat, b: nat)
    requires a < 45 && b < 45
    ensures a * 45 + b < 2025 && (a * 45 + b) / 45 == a && (a * 45 + b) % 45 == b
  {}

  lemma {:induction false} ByteRoundTrip(b: seq<nat>, rest: seq<bool>)
    requires Legal(Bytes(b))
    ensures ReadBytes(ByteBody(b) + rest, |b|) == Some((b, rest))
    decreases |b|
  {
    hide BitsOf, ReadBytes;
    if b == [] {
      assert ByteBody(b) + rest == rest;
      NoBytes(rest);
    } else {
      var tail := ByteBody(b[1..]) + rest;
      ByteRoundTrip(b[1..], rest);
      ByteIsRead(b[0], |b|, tail, b[1..], rest);
      assert ByteBody(b) + rest == BitsOf(b[0], 8) + tail;
      assert b == [b[0]] + b[1..];
    }
  }

  lemma NoBytes(rest: seq<bool>)
    ensures ReadBytes(rest, 0) == Some(([], rest))
  {}

  lemma ByteIsRead(v: nat, n: nat, tail: seq<bool>, b: seq<nat>, rest: seq<bool>)
    requires v < 256 && n > 0 && ReadBytes(tail, n - 1) == Some((b, rest))
    ensures ReadBytes(BitsOf(v, 8) + tail, n) == Some(([v] + b, rest))
  {
    hide Take, BitsOf;
    PowersOfTwo();
    TakeBits(v, 8, tail);
  }

  /** Every legal segment whose count fits its field is read back, whatever follows it. */
  lemma {:induction false} SegmentRoundTrip(s: Segment, version: Version, rest: seq<bool>)
    requires Legal(s) && Fits(s, version)
    ensures ReadSegment(SegmentBits(s, version) + rest, version) == Some((s, rest))
  {
    hide Take, NumericBody, AlphaBody, ByteBody, ReadNumeric, ReadAlpha, ReadBytes, LengthInBits, BitsOf, Legal, Fits;
    var tail := Body(s) + rest;
    var len := LengthInBits(Mode(s), version);
    HeaderIsRead(s, version, tail);
    assert SegmentBits(s, version) + rest == BitsOf(Mode(s), 4) + (BitsOf(Count(s), len) + tail);
    match s
    case Numeric(d) => NumericRoundTrip(d, rest);
    case Alphanumeric(t) => AlphaRoundTrip(t, rest);
    case Bytes(b) => ByteRoundTrip(b, rest);
  }

  lemma HeaderIsRead(s: Segment, version: Version, tail: seq<bool>)
    requires Fits(s, version)
    ensures var len := LengthInBits(Mode(s), version);
            && Take(BitsOf(Mode(s), 4) + (BitsOf(Count(s), len) + tail), 4)
               == Some((Mode(s), BitsOf(Count(s), len) + tail))
            && Take(BitsOf(Count(s), len) + tail, len) == Some((Count(s), tail))
  {
    hide Take, LengthInBits, BitsOf;
    PowersOfTwo();
    var len := LengthInBits(Mode(s), version);
    TakeBits(Mode(s), 4, BitsOf(Count(s), len) + tail);
    TakeBits(Count(s), len, tail);
  }

  /** The length of a body is dictated by the mode and the count alone. */
  lemma {:induction false} NumericLength(d: string)
    requires Legal(Numeric(d))
    ensures |NumericBody(d)| == 10 * (|d| / 3) + (if |d| % 3 == 0 then 0 else if |d| % 3 == 1 then 4 else 7)
    decreases |d|
  {
    if |d| >= 3 {
      NumericLength(d[3..]);
    }
  }

  lemma {:induction false} AlphaLength(t: string)
    requires Legal(Alphanumeric(t))
    ensures |AlphaBody(t)| == 11 * (|t| / 2) + 6 * (|t| % 2)
    decreases |t|
  {
    if |t| >= 2 {
      AlphaLength(t[2..]);
    }
  }

  lemma {:induction false} ByteLength(b: seq<nat>)
    ensures |ByteBody(b)| == 8 * |b|
    decreases |b|
  {
    if b != [] {
      ByteLength(b[1..]);
    }
  }

  // The writers. A false answer stands for the source's throw on an illegal character.

  method ToNumber(s: string) returns (num: nat, ok: bool)
    ensures ok <==> forall i: nat | i < |s| :: IsDigit(s[i])
    ensures ok ==> num == StrToNum(s)
  {
    num := 0;
    for i := 0 to |s|
      invariant forall j: nat | j < i :: IsDigit(s[j])
      invariant num == StrToNum(s[..i])
    {
      if !IsDigit(s[i]) {
        return num, false;
      }
      assert s[..i + 1][..i] == s[..i];
      num := num * 10 + DigitValue(s[i]);
    }
    assert s[..|s|] == s;
    ok := true;
  }

  method WriteNumber(data: string, buffer: QrBitBuffer) returns (ok: bool)
    requires buffer.Valid()
    modifies buffer
    ensures buffer.Valid()
    ensures ok <==> Legal(Numeric(data))
    ensures ok ==> buffer.Contents() == old(buffer.Contents()) + NumericBody(data)
  {
    hide DigitValue, StrToNum, NumericBody, QrBitBuffer.Valid, QrBitBuffer.Contents;
    ghost var bits := buffer.Contents();
    var i := 0;
    NothingWritten();
    assert data[..0] == "" && bits + [] == bits;
    while i + 2 < |data|
      invariant i <= |data| && i % 3 == 0 && Legal(Numeric(data[..i])) && buffer.Valid()
      invariant buffer.Contents() == bits + NumericBody(data[..i])
    {
      var num, legal := ToNumber(data[i..i + 3]);
      if !legal {
        NotAllDigits(data, i, i + 3);
        return false;
      }
      LegalSlice(data, i, i + 3);
      buffer.Put(num, 10);
      NumericStep(data, i, i + 3);
      i := i + 3;
    }
    if i < |data| {
      var num, legal := ToNumber(data[i..|data|]);
      if !legal {
        NotAllDigits(data, i, |data|);
        return false;
      }
      LegalSlice(data, i, |data|);
      if |data| - i == 1 {
        buffer.Put(num, 4);
      } else if |data| - i == 2 {
        buffer.Put(num, 7);
      }
      NumericStep(data, i, |data|);
    }
    assert data[..|data|] == data;
    ok := true;
  }

  lemma NothingWritten()
    ensures NumericBody("") == [] && AlphaBody("") == [] && ByteBody([]) == []
  {}

  lemma NotAllDigits(d: string, i: nat, j: nat)
    requires i <= j <= |d| && !forall k: nat | k < j - i :: IsDigit(d[i..j][k])
    ensures !Legal(Numeric(d))
  {
    var k: nat :| k < j - i && !IsDigit(d[i..j][k]);
    assert !IsDigit(d[i + k]);
  }

  lemma LegalSlice(d: string, i: nat, j: nat)
    requires i <= j <= |d| && Legal(Numeric(d[..i])) && forall k: nat | k < j - i :: IsDigit(d[i..j][k])
    ensures Legal(Numeric(d[..j]))
  {
    forall k: nat | k < j
      ensures IsDigit(d[..j][k])
    {
      if k < i {
        assert IsDigit(d[..i][k]);
      } else {
        assert IsDigit(d[i..j][k - i]);
      }
    }
  }

  lemma {:induction false} NumericConcat(a: string, b: string)
    requires |a| % 3 == 0 && Legal(Numeric(a)) && Legal(Numeric(b)) && Legal(Numeric(a + b))
    ensures NumericBody(a + b) == NumericBody(a) + NumericBody(b)
    decreases |a|
  {
    hide StrToNum;
    if a == "" {
      assert a + b == b;
    } else {
      NumericConcat(a[3..], b);
      assert (a + b)[3..] == a[3..] + b && (a + b)[..3] == a[..3];
    }
  }

  lemma {:induction false} NumericStep(d: string, i: nat, j: nat)
    requires i % 3 == 0 && i < j <= |d| && j <= i + 3 && Legal(Numeric(d[..i])) && Legal(Numeric(d[..j]))
    requires Legal(Numeric(d[i..j]))
    ensures NumericBody(d[..j]) == NumericBody(d[..i]) + NumericBody(d[i..j])
    ensures NumericBody(d[i..j]) == BitsOf(StrToNum(d[i..j]), if j == i + 3 then 10 else if j == i + 2 then 7 else 4)
  {
    hide StrToNum;
    var t := d[i..j];
    assert d[..j] == d[..i] + t;
    NumericConcat(d[..i], t);
    NothingWritten();
    assert j == i + 3 ==> t[..3] == t && t[3..] == "";
  }

  method WriteAlphaNum(s: string, buffer: QrBitBuffer) returns (ok: bool)
    requires buffer.Valid()
    modifies buffer
    ensures buffer.Valid()
    ensures ok <==> Legal(Alphanumeric(s))
    ensures ok ==> buffer.Contents() == old(buffer.Contents()) + AlphaBody(s)
  {
    hide CharCode, AlphaBody, QrBitBuffer.Valid, QrBitBuffer.Contents;
    ghost var bits := buffer.Contents();
    var i := 0;
    NothingWritten();
    assert s[..0] == "" && bits + [] == bits;
    while i + 1 < |s|
      invariant i <= |s| && i % 2 == 0 && Legal(Alphanumeric(s[..i])) && buffer.Valid()
      invariant buffer.Contents() == bits + AlphaBody(s[..i])
    {
      var a, b := CharCode(s[i]), CharCode(s[i + 1]);
      if a == None || b == None {
        return false;
      }
      AlphaStep(s, i, i + 2);
      buffer.Put(a.value * 45 + b.value, 11);
      i := i + 2;
    }
    if i < |s| {
      var a := CharCode(s[i]);
      if a == None {
        return false;
      }
      AlphaStep(s, i, i + 1);
      buffer.Put(a.value, 6);
      i := i + 1;
    }
    assert s[..i] == s;
    ok := true;
  }

  lemma {:induction false} AlphaConcat(a: string, b: string)
    requires |a| % 2 == 0 && Legal(Alphanumeric(a)) && Legal(Alphanumeric(b)) && Legal(Alphanumeric(a + b))
    ensures AlphaBody(a + b) == AlphaBody(a) + AlphaBody(b)
    decreases |a|
  {
    hide CharCode, AlphaBody, BitsOf;
    if a == "" {
      NothingWritten();
      assert a + b == b;
    } else {
      AlphaConcat(a[2..], b);
      assert (a + b)[2..] == a[2..] + b;
      AlphaPair(a);
      AlphaPair(a + b);
    }
  }

  lemma AlphaPair(t: string)
    requires |t| >= 2 && Legal(Alphanumeric(t))
    ensures Legal(Alphanumeric(t[2..]))
    ensures AlphaBody(t) == BitsOf(CharCode(t[0]).value * 45 + CharCode(t[1]).value, 11) + AlphaBody(t[2..])
  {
    hide CharCode;
  }

  lemma {:induction false} AlphaStep(s: string, i: nat, j: nat)
    requires i % 2 == 0 && i < j <= |s| && j <= i + 2 && Legal(Alphanumeric(s[..i]))
    requires forall k: nat | i <= k < j :: CharCode(s[k]).Some?
    ensures Legal(Alphanumeric(s[..j])) && Legal(Alphanumeric(s[i..j]))
    ensures AlphaBody(s[..j]) == AlphaBody(s[..i]) + AlphaBody(s[i..j])
    ensures AlphaBody(s[i..j]) == if j == i + 2 then BitsOf(CharCode(s[i]).value * 45 + CharCode(s[i + 1]).value, 11)
                                  else BitsOf(CharCode(s[i]).value, 6)
  {
    hide CharCode;
    forall k: nat | k < j
      ensures CharCode(s[..j][k]).Some?
    {
      if k < i {
        assert CharCode(s[..i][k]).Some?;
      }
    }
    assert s[..j] == s[..i] + s[i..j];
    AlphaConcat(s[..i], s[i..j]);
    assert AlphaBody("") == [];
    assert j == i + 2 ==> s[i..j][2..] == "";
  }

  method WriteBytes(bytes: seq<nat>, buffer: QrBitBuffer)
    requires buffer.Valid()
    modifies buffer
    ensures buffer.Valid() && buffer.Contents() == old(buffer.Contents()) + ByteBody(bytes)
  {
    ghost var bits := buffer.Contents();
    assert bits + ByteBody(bytes[..0]) == bits;
    for i := 0 to |bytes|
      invariant buffer.Valid() && buffer.Contents() == bits + ByteBody(bytes[..i])
    {
      buffer.Put(bytes[i], 8);
      ByteSnoc(bytes[..i], bytes[i]);
      assert bytes[..i + 1] == bytes[..i] + [bytes[i]];
    }
    assert bytes[..|bytes|] == bytes;
  }

  lemma {:induction false} ByteSnoc(b: seq<nat>, v: nat)
    ensures ByteBody(b + [v]) == ByteBody(b) + BitsOf(v, 8)
  {
    if b != [] {
      ByteSnoc(b[1..], v);
      assert (b + [v])[1..] == b[1..] + [v];
    }
  }
}
