/** The bit stream as a reader of the standard finds it (ISO/IEC 18004:2015, sections 7.4.1 to 7.4.5 and 7.4.10): modes,
    count fields, groups of characters, terminator and pad codewords, each at its place and with its value
    (ui/qrcode-generator.js:332-384, 974-1018, 1607-1750). */
module StreamFormat {
  import opened QrTypes
  import opened Wrappers
  import opened Bits
  import opened Segments
  import opened CodewordStream

  // The header of a segment.

  /** Table 2 of the standard. */
  lemma {:induction false} ModeIndicator(s: Segment, version: Version)
    requires Legal(s)
    ensures SegmentBits(s, version)[..4] ==
            match s
            case Numeric(_) => [false, false, false, true]
            case Alphanumeric(_) => [false, false, true, false]
            case Bytes(_) => [false, true, false, false]
  {
    hide Legal, Body, LengthInBits;
    FourBits(Mode(s));
    assert SegmentBits(s, version)[..4] == BitsOf(Mode(s), 4);
  }

  lemma FourBits(n: nat)
    requires n < 16
    ensures BitsOf(n, 4) == [n / 8 % 2 == 1, n / 4 % 2 == 1, n / 2 % 2 == 1, n % 2 == 1]
  {
    PowersOfTwo();
    assert Pow2(0) == 1 && Pow2(1) == 2 && Pow2(2) == 4 && Pow2(3) == 8;
    BitsOfAt(n, 4, 0);
    BitsOfAt(n, 4, 1);
    BitsOfAt(n, 4, 2);
    BitsOfAt(n, 4, 3);
  }

  /** Table 3 of the standard, and the mode. */
  function HeaderLength(s: Segment, version: Version): nat {
    match s
    case Numeric(_) => if version < 10 then 14 else if version < 27 then 16 else 18
    case Alphanumeric(_) => if version < 10 then 13 else if version < 27 then 15 else 17
    case Bytes(_) => if version < 10 then 12 else 20
  }

  function BodyLength(s: Segment): nat {
    match s
    case Numeric(d) => 10 * (|d| / 3) + (if |d| % 3 == 0 then 0 else if |d| % 3 == 1 then 4 else 7)
    case Alphanumeric(t) => 11 * (|t| / 2) + 6 * (|t| % 2)
    case Bytes(b) => 8 * |b|
  }

  /** The length of a whole segment, header included. */
  lemma {:induction false} SegmentLength(s: Segment, version: Version)
    requires Legal(s)
    ensures |SegmentBits(s, version)| == HeaderLength(s, version) + BodyLength(s)
  {
    hide Legal, NumericBody, AlphaBody, ByteBody;
    match s
    case Numeric(d) => NumericLength(d);
    case Alphanumeric(t) => AlphaLength(t);
    case Bytes(b) => ByteLength(b);
  }

  /** Between the mode and the body stands the count. */
  lemma {:induction false} CountField(s: Segment, version: Version)
    requires Legal(s) && Fits(s, version)
    ensures HeaderLength(s, version) <= |SegmentBits(s, version)|
    ensures ValueOf(SegmentBits(s, version)[4..HeaderLength(s, version)]) ==
            match s case Numeric(d) => |d| case Alphanumeric(t) => |t| case Bytes(b) => |b|
    ensures SegmentBits(s, version)[HeaderLength(s, version)..] == Body(s)
  {
    hide Legal, Body;
    var len := LengthInBits(Mode(s), version);
    assert HeaderLength(s, version) == 4 + len;
    ValueOfBits(Count(s), len);
    var bits := SegmentBits(s, version);
    assert bits[4..4 + len] == BitsOf(Count(s), len);
    assert bits[4 + len..] == Body(s);
  }

  // The bodies, group by group.

  /** The value of a digit. */
  function Digit(c: char): int {
    c as int - '0' as int
  }

  lemma {:induction false} NumericGroup(d: string, k: nat)
    requires Legal(Numeric(d)) && 3 * k + 3 <= |d|
    ensures 10 * k + 10 <= |NumericBody(d)|
    ensures ValueOf(NumericBody(d)[10 * k..10 * k + 10]) ==
            100 * Digit(d[3 * k]) + 10 * Digit(d[3 * k + 1]) + Digit(d[3 * k + 2])
    decreases |d|
  {
    hide BitsOf, ValueOf;
    var first := BitsOf(StrToNum(d[..3]), 10);
    var rest := NumericBody(d[3..]);
    assert NumericBody(d) == first + rest;
    if k == 0 {
      PowersOfTwo();
      ThreeDigits(d[..3]);
      ValueOfBits(StrToNum(d[..3]), 10);
      TwoDigits(d[..2]);
      assert d[..3][..2] == d[..2];
      assert (first + rest)[0..10] == first;
    } else {
      NumericGroup(d[3..], k - 1);
      assert (first + rest)[10 * k..10 * k + 10] == rest[10 * (k - 1)..10 * (k - 1) + 10];
    }
  }

  /** One or two digits left over. */
  lemma ShortTail(d: string)
    requires Legal(Numeric(d)) && |d| < 3
    ensures |d| == 1 ==> |NumericBody(d)| == 4 && ValueOf(NumericBody(d)) == Digit(d[0])
    ensures |d| == 2 ==> |NumericBody(d)| == 7 && ValueOf(NumericBody(d)) == 10 * Digit(d[0]) + Digit(d[1])
  {
    hide BitsOf, ValueOf, StrToNum;
    PowersOfTwo();
    if |d| == 2 {
      TwoDigits(d);
      ValueOfBits(StrToNum(d), 7);
    } else if |d| == 1 {
      OneDigit(d);
      ValueOfBits(StrToNum(d), 4);
    }
  }

  lemma {:induction false} NumericTail(d: string)
    requires Legal(Numeric(d))
    ensures var body, k := NumericBody(d), |d| / 3;
            && 10 * k <= |body|
            && (|d| % 3 == 1 ==> |body| == 10 * k + 4 && ValueOf(body[10 * k..]) == Digit(d[3 * k]))
            && (|d| % 3 == 2 ==>
                  |body| == 10 * k + 7 && ValueOf(body[10 * k..]) == 10 * Digit(d[3 * k]) + Digit(d[3 * k + 1]))
    decreases |d|
  {
    hide BitsOf, ValueOf, StrToNum;
    if |d| >= 3 {
      NumericTail(d[3..]);
      var first, rest, k := BitsOf(StrToNum(d[..3]), 10), NumericBody(d[3..]), |d| / 3;
      assert NumericBody(d) == first + rest;
      assert (first + rest)[10 * k..] == rest[10 * (k - 1)..];
    } else {
      ShortTail(d);
      assert NumericBody(d)[0..] == NumericBody(d);
    }
  }

  /** Table 5 of the standard: the characters of alphanumeric mode in the order of their codes. */
  const ALPHABET: string := DIGITS + LETTERS + " $%*+-./:"

  const DIGITS: string := "0123456789"

  const LETTERS: string := "ABCDEFGHIJKLMNOPQRSTUVWXYZ"

  lemma DigitsFirst(i: nat)
    requires i < 10
    ensures |DIGITS| == 10 && DIGITS[i] as int == '0' as int + i
  {
    assert DIGITS[0] == '0' && DIGITS[1] == '1' && DIGITS[2] == '2' && DIGITS[3] == '3' && DIGITS[4] == '4';
    assert DIGITS[5] == '5' && DIGITS[6] == '6' && DIGITS[7] == '7' && DIGITS[8] == '8' && DIGITS[9] == '9';
    if i == 0 {
    } else if i == 1 {
    } else if i == 2 {
    } else if i == 3 {
    } else if i == 4 {
    }
  }

  lemma LettersNext(i: nat)
    requires i < 26
    ensures |LETTERS| == 26 && LETTERS[i] as int == 'A' as int + i
  {}

  lemma Parts()
    ensures |DIGITS| == 10 && |LETTERS| == 26 && |SYMBOLS| == 9 && ALPHABET == DIGITS + LETTERS + SYMBOLS
  {}

  lemma {:induction false} AlphabetAt(i: nat)
    ensures |ALPHABET| == 45 && |SYMBOLS| == 9
    ensures i < 10 ==> ALPHABET[i] as int == '0' as int + i
    ensures 10 <= i < 36 ==> ALPHABET[i] as int == 'A' as int + (i - 10)
    ensures 36 <= i < 45 ==> ALPHABET[i] == SYMBOLS[i - 36]
  {
    Parts();
    if i < 10 {
      DigitsFirst(i);
    } else if i < 36 {
      LettersNext(i - 10);
    }
  }

  /** The code of a character is its place in that table; a character without a place has none. */
  lemma {:induction false} CodesOfAlphabet(c: char, i: nat)
    ensures CharCode(c) == Some(i) <==> i < |ALPHABET| && ALPHABET[i] == c
  {
    AlphabetAt(i);
    if 36 <= i < 45 {
      SymbolCodes(c, i - 36);
    } else if i >= 45 && CharCode(c).Some? {
      CharCodeRoundTrip(c);
    }
  }

  lemma SymbolCodes(c: char, i: nat)
    requires i < 9
    ensures |SYMBOLS| == 9 && (CharCode(c) == Some(36 + i) <==> SYMBOLS[i] == c)
  {}

  /** The place of a legal character in the table. */
  function Code(c: char): nat {
    if CharCode(c).Some? then CharCode(c).value else 0
  }

  lemma {:induction false} AlphaPair(t: string, k: nat)
    requires Legal(Alphanumeric(t)) && 2 * k + 2 <= |t|
    ensures 11 * k + 11 <= |AlphaBody(t)|
    ensures ValueOf(AlphaBody(t)[11 * k..11 * k + 11]) == 45 * Code(t[2 * k]) + Code(t[2 * k + 1])
    decreases |t|
  {
    hide BitsOf, ValueOf, CharCode;
    CharCodeRoundTrip(t[0]);
    CharCodeRoundTrip(t[1]);
    var v := CharCode(t[0]).value * 45 + CharCode(t[1]).value;
    var first, rest := BitsOf(v, 11), AlphaBody(t[2..]);
    assert AlphaBody(t) == first + rest;
    if k == 0 {
      PowersOfTwo();
      ValueOfBits(v, 11);
      assert (first + rest)[0..11] == first;
    } else {
      AlphaPair(t[2..], k - 1);
      assert (first + rest)[11 * k..11 * k + 11] == rest[11 * (k - 1)..11 * (k - 1) + 11];
    }
  }

  lemma {:induction false} AlphaTail(t: string)
    requires Legal(Alphanumeric(t)) && |t| % 2 == 1
    ensures var body, k := AlphaBody(t), |t| / 2;
            |body| == 11 * k + 6 && ValueOf(body[11 * k..]) == Code(t[2 * k])
    decreases |t|
  {
    hide BitsOf, ValueOf, CharCode;
    CharCodeRoundTrip(t[0]);
    if |t| >= 2 {
      AlphaTail(t[2..]);
      var first, rest, k := BitsOf(CharCode(t[0]).value * 45 + CharCode(t[1]).value, 11), AlphaBody(t[2..]), |t| / 2;
      assert AlphaBody(t) == first + rest;
      assert (first + rest)[11 * k..] == rest[11 * (k - 1)..];
    } else {
      PowersOfTwo();
      ValueOfBits(CharCode(t[0]).value, 6);
      assert AlphaBody(t)[0..] == AlphaBody(t);
    }
  }

  lemma {:induction false} ByteAt(b: seq<nat>, k: nat)
    requires Legal(Bytes(b)) && k < |b|
    ensures 8 * k + 8 <= |ByteBody(b)| && ValueOf(ByteBody(b)[8 * k..8 * k + 8]) == b[k]
    decreases |b|
  {
    hide BitsOf, ValueOf;
    var first, rest := BitsOf(b[0], 8), ByteBody(b[1..]);
    assert ByteBody(b) == first + rest;
    if k == 0 {
      PowersOfTwo();
      ValueOfBits(b[0], 8);
      assert (first + rest)[0..8] == first;
    } else {
      ByteAt(b[1..], k - 1);
      assert (first + rest)[8 * k..8 * k + 8] == rest[8 * (k - 1)..8 * (k - 1) + 8];
    }
  }

  // After the segments.

  /** The first codeword that is padding. */
  function FirstPad(len: nat, total: nat): nat {
    (if len + 4 <= 8 * total then len + 4 + 7 else len + 7) / 8
  }

  const PAD_EC: seq<bool> := [true, true, true, false, true, true, false, false]
  const PAD_11: seq<bool> := [false, false, false, true, false, false, false, true]

  lemma StreamParts(segs: seq<Segment>, version: Version, total: nat)
    requires AllLegal(segs) && |AllBits(segs, version)| <= 8 * total
    ensures var data := AllBits(segs, version);
            var f := FirstPad(|data|, total);
            && |data| <= 8 * f <= 8 * total
            && Stream(segs, version, total) == (data + Zeros(8 * f - |data|)) + Pads(total - f)
  {
    hide AllBits, AllLegal, Pads, FirstPad, Tail;
    var data := AllBits(segs, version);
    var f := FirstPad(|data|, total);
    TailParts(|data|, total);
    assert data + (Zeros(8 * f - |data|) + Pads(total - f)) == (data + Zeros(8 * f - |data|)) + Pads(total - f);
  }

  lemma {:induction false} PadCodeword(segs: seq<Segment>, version: Version, total: nat, k: nat)
    requires AllLegal(segs) && |AllBits(segs, version)| <= 8 * total
    requires FirstPad(|AllBits(segs, version)|, total) <= k < total
    ensures var f := FirstPad(|AllBits(segs, version)|, total);
            Stream(segs, version, total)[8 * k..8 * k + 8] == if (k - f) % 2 == 0 then PAD_EC else PAD_11
  {
    hide AllBits, AllLegal, Pads, FirstPad, Stream;
    StreamParts(segs, version, total);
    var data := AllBits(segs, version);
    var f := FirstPad(|data|, total);
    var head, pads, at := data + Zeros(8 * f - |data|), Pads(total - f), 8 * (k - f);
    PadAt(total - f, k - f);
    Behind(head, pads, at, at + 8);
    assert |head| + at == 8 * k;
  }

  /** After the segments come zero bits, four at least when there is room, up to a byte boundary; then the codewords
      EC and 11 in turn, up to the capacity. */
  lemma {:induction false} StreamLayout(segs: seq<Segment>, version: Version, total: nat)
    requires AllLegal(segs) && |AllBits(segs, version)| <= 8 * total
    ensures var bits, len := Stream(segs, version, total), |AllBits(segs, version)|;
            var f := FirstPad(len, total);
            && |bits| == 8 * total && len <= 8 * f <= |bits| && bits[..len] == AllBits(segs, version)
            && (forall i: nat | len <= i < 8 * f :: !bits[i])
            && (forall k: nat | f <= k < total :: bits[8 * k..8 * k + 8] == if (k - f) % 2 == 0 then PAD_EC else PAD_11)
  {
    hide AllBits, AllLegal, Pads, FirstPad, Stream;
    StreamParts(segs, version, total);
    var bits, data := Stream(segs, version, total), AllBits(segs, version);
    var f := FirstPad(|data|, total);
    assert bits[..|data|] == data;
    forall k: nat | f <= k < total
      ensures bits[8 * k..8 * k + 8] == if (k - f) % 2 == 0 then PAD_EC else PAD_11
    {
      PadCodeword(segs, version, total, k);
    }
  }

  lemma Behind<T>(a: seq<T>, b: seq<T>, lo: nat, hi: nat)
    requires lo <= hi <= |b|
    ensures (a + b)[|a| + lo..|a| + hi] == b[lo..hi]
  {}

  lemma TailParts(len: nat, total: nat)
    requires len <= 8 * total
    ensures var f := FirstPad(len, total);
            len <= 8 * f <= 8 * total && Tail(len, total) == Zeros(8 * f - len) + Pads(total - f)
  {
    hide Pads;
    ZeroBits(len, total);
    var n1 := len + Terminator(len, total);
    assert Zeros(n1 - len) + Zeros(8 * FirstPad(len, total) - n1) == Zeros(8 * FirstPad(len, total) - len);
  }

  lemma ZeroBits(len: nat, total: nat)
    requires len <= 8 * total
    ensures var n1 := len + Terminator(len, total); n1 + ToBoundary(n1) == 8 * FirstPad(len, total) && n1 <= 8 * total
  {}

  lemma PadsSnoc(n: nat)
    ensures Pads(n + 1) == Pads(n) + BitsOf(if n % 2 == 0 then 0xec else 0x11, 8) && |Pads(n)| == 8 * n
  {
    PadsLength(n);
  }

  lemma {:induction false} PadAt(n: nat, k: nat)
    requires k < n
    ensures 8 * k + 8 <= |Pads(n)| && Pads(n)[8 * k..8 * k + 8] == if k % 2 == 0 then PAD_EC else PAD_11
  {
    hide BitsOf, Pads;
    PadsSnoc(n - 1);
    PadsSnoc(n);
    if k < n - 1 {
      PadAt(n - 1, k);
      assert Pads(n)[8 * k..8 * k + 8] == Pads(n - 1)[8 * k..8 * k + 8];
    } else {
      PadBits();
      assert Pads(n)[8 * k..8 * k + 8] == BitsOf(if k % 2 == 0 then 0xec else 0x11, 8);
    }
  }

  lemma PadBits()
    ensures BitsOf(0xec, 8) == PAD_EC && BitsOf(0x11, 8) == PAD_11
  {
    hide BitsOf;
    LowFour(0xec);
    LowFour(0x11);
    FourBits(0xe);
    FourBits(0x1);
  }

  lemma LowFour(n: nat)
    ensures BitsOf(n, 8) == BitsOf(n / 16, 4) + [n / 8 % 2 == 1, n / 4 % 2 == 1, n / 2 % 2 == 1, n % 2 == 1]
  {
    TwoMore(n, 6);
    TwoMore(n / 4, 4);
    assert n / 4 / 4 == n / 16 && n / 4 / 2 == n / 8;
  }

  lemma TwoMore(n: nat, len: nat)
    ensures BitsOf(n, len + 2) == BitsOf(n / 4, len) + [n / 2 % 2 == 1, n % 2 == 1]
  {
    assert BitsOf(n, len + 2) == BitsOf(n / 2, len + 1) + [n % 2 == 1];
    assert n / 2 / 2 == n / 4;
  }
}
