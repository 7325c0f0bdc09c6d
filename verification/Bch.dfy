/** The BCH words that carry the format (15 bits) and the version (18 bits) of a symbol
    (ISO/IEC 18004:2015, sections 7.9 and 7.10; ui/qrcode-generator.js:905-934): the division loops that compute them,
    and why the data leaves no choice of word. */
module Bch {
  import opened QrTypes

  type Word = bv18

  const G15: Word := 0x537
  const G18: Word := 0x1f25
  const G15_MASK: Word := 0x5412

  /** The product of two polynomials over GF(2); q has at most six coefficients. */
  function Times(q: Word, g: Word): Word {
    (if q & 1 != 0 then g else 0) ^ (if q & 2 != 0 then g << 1 else 0) ^ (if q & 4 != 0 then g << 2 else 0)
    ^ (if q & 8 != 0 then g << 3 else 0) ^ (if q & 16 != 0 then g << 4 else 0) ^ (if q & 32 != 0 then g << 5 else 0)
  }

  /** The unmasked format word of data: a multiple of the generator that starts with the data. */
  ghost predicate IsTypeWord(word: Word, data: Word) {
    word >> 10 == data && exists q: Word | q < 32 :: word == Times(q, G15)
  }

  ghost predicate IsNumberWord(word: Word, data: Word) {
    word >> 12 == data && exists q: Word | q < 64 :: word == Times(q, G18)
  }

  /** One more than the degree of a polynomial of degree below 18. */
  function Digits(v: Word): nat {
    if v == 0 then 0
    else if v < 0x2 then 1
    else if v < 0x4 then 2
    else if v < 0x8 then 3
    else if v < 0x10 then 4
    else if v < 0x20 then 5
    else if v < 0x40 then 6
    else if v < 0x80 then 7
    else if v < 0x100 then 8
    else if v < 0x200 then 9
    else if v < 0x400 then 10
    else if v < 0x800 then 11
    else if v < 0x1000 then 12
    else if v < 0x2000 then 13
    else if v < 0x4000 then 14
    else if v < 0x8000 then 15
    else if v < 0x10000 then 16
    else if v < 0x20000 then 17
    else 18
  }

  lemma DigitsStep(v: Word)
    requires v != 0
    ensures Digits(v) == 1 + Digits(v >> 1)
  {}

  method GetBchDigit(value: Word) returns (digit: nat)
    ensures digit == Digits(value)
  {
    digit := 0;
    var data := value;
    hide Digits;
    while data != 0
      invariant digit + Digits(data) == Digits(value)
      decreases Digits(data)
    {
      DigitsStep(data);
      digit := digit + 1;
      data := data >> 1;
    }
    NoDigits();
  }

  lemma NoDigits()
    ensures Digits(0) == 0
  {}

  function Xor(a: Word, b: Word): Word {
    a ^ b
  }

  function Shl(g: Word, k: nat): Word {
    if k == 0 then g else if k == 1 then g << 1 else if k == 2 then g << 2
    else if k == 3 then g << 3 else if k == 4 then g << 4 else g << 5
  }

  lemma XorAssoc(a: Word, b: Word, c: Word)
    ensures Xor(Xor(a, b), c) == Xor(a, Xor(b, c))
  {}

  lemma TypeMultiple(q: Word)
    ensures Times(q ^ 1, G15) == Times(q, G15) ^ G15
    ensures Times(q ^ 2, G15) == Times(q, G15) ^ (G15 << 1)
    ensures Times(q ^ 4, G15) == Times(q, G15) ^ (G15 << 2)
    ensures Times(q ^ 8, G15) == Times(q, G15) ^ (G15 << 3)
    ensures Times(q ^ 16, G15) == Times(q, G15) ^ (G15 << 4)
  {}

  lemma TypeShift0(q: Word)
    ensures Times(Xor(q, Shl(1, 0)), G15) == Xor(Times(q, G15), Shl(G15, 0))
  {
    hide Times;
    TypeMultiple(q);
  }

  lemma TypeShift1(q: Word)
    ensures Times(Xor(q, Shl(1, 1)), G15) == Xor(Times(q, G15), Shl(G15, 1))
  {
    hide Times;
    TypeMultiple(q);
  }

  lemma TypeShift2(q: Word)
    ensures Times(Xor(q, Shl(1, 2)), G15) == Xor(Times(q, G15), Shl(G15, 2))
  {
    hide Times;
    TypeMultiple(q);
  }

  lemma TypeShift3(q: Word)
    ensures Times(Xor(q, Shl(1, 3)), G15) == Xor(Times(q, G15), Shl(G15, 3))
  {
    hide Times;
    TypeMultiple(q);
  }

  lemma TypeShift4(q: Word)
    ensures Times(Xor(q, Shl(1, 4)), G15) == Xor(Times(q, G15), Shl(G15, 4))
  {
    hide Times;
    TypeMultiple(q);
  }

  /** Cancelling a coefficient of the dividend adds one to the quotient. */
  lemma {:induction false} TypeCancel(start: Word, q: Word, k: nat)
    requires k < 5
    ensures Xor(Xor(start, Times(q, G15)), Shl(G15, k)) == Xor(start, Times(Xor(q, Shl(1, k)), G15))
  {
    hide *;
    XorAssoc(start, Times(q, G15), Shl(G15, k));
    if k == 0 {
      TypeShift0(q);
    } else if k == 1 {
      TypeShift1(q);
    } else if k == 2 {
      TypeShift2(q);
    } else if k == 3 {
      TypeShift3(q);
    } else if k == 4 {
      TypeShift4(q);
    }
  }

  lemma NumberMultiple(q: Word)
    ensures Times(q ^ 1, G18) == Times(q, G18) ^ G18
    ensures Times(q ^ 2, G18) == Times(q, G18) ^ (G18 << 1)
    ensures Times(q ^ 4, G18) == Times(q, G18) ^ (G18 << 2)
    ensures Times(q ^ 8, G18) == Times(q, G18) ^ (G18 << 3)
    ensures Times(q ^ 16, G18) == Times(q, G18) ^ (G18 << 4)
    ensures Times(q ^ 32, G18) == Times(q, G18) ^ (G18 << 5)
  {}

  lemma NumberShift0(q: Word)
    ensures Times(Xor(q, Shl(1, 0)), G18) == Xor(Times(q, G18), Shl(G18, 0))
  {
    hide Times;
    NumberMultiple(q);
  }

  lemma NumberShift1(q: Word)
    ensures Times(Xor(q, Shl(1, 1)), G18) == Xor(Times(q, G18), Shl(G18, 1))
  {
    hide Times;
    NumberMultiple(q);
  }

  lemma NumberShift2(q: Word)
    ensures Times(Xor(q, Shl(1, 2)), G18) == Xor(Times(q, G18), Shl(G18, 2))
  {
    hide Times;
    NumberMultiple(q);
  }

  lemma NumberShift3(q: Word)
    ensures Times(Xor(q, Shl(1, 3)), G18) == Xor(Times(q, G18), Shl(G18, 3))
  {
    hide Times;
    NumberMultiple(q);
  }

  lemma NumberShift4(q: Word)
    ensures Times(Xor(q, Shl(1, 4)), G18) == Xor(Times(q, G18), Shl(G18, 4))
  {
    hide Times;
    NumberMultiple(q);
  }

  lemma NumberShift5(q: Word)
    ensures Times(Xor(q, Shl(1, 5)), G18) == Xor(Times(q, G18), Shl(G18, 5))
  {
    hide Times;
    NumberMultiple(q);
  }

  /** Cancelling a coefficient of the dividend adds one to the quotient. */
  lemma {:induction false} NumberCancel(start: Word, q: Word, k: nat)
    requires k < 6
    ensures Xor(Xor(start, Times(q, G18)), Shl(G18, k)) == Xor(start, Times(Xor(q, Shl(1, k)), G18))
  {
    hide *;
    XorAssoc(start, Times(q, G18), Shl(G18, k));
    if k == 0 {
      NumberShift0(q);
    } else if k == 1 {
      NumberShift1(q);
    } else if k == 2 {
      NumberShift2(q);
    } else if k == 3 {
      NumberShift3(q);
    } else if k == 4 {
      NumberShift4(q);
    } else if k == 5 {
      NumberShift5(q);
    }
  }

  lemma Twice(a: Word, b: Word)
    ensures (a ^ b) ^ b == a
  {}

  lemma TypeBounds(v: Word)
    ensures Digits(v) == 11 ==> 0x400 <= v < 0x800
    ensures Digits(v) == 12 ==> 0x800 <= v < 0x1000
    ensures Digits(v) == 13 ==> 0x1000 <= v < 0x2000
    ensures Digits(v) == 14 ==> 0x2000 <= v < 0x4000
    ensures Digits(v) == 15 ==> 0x4000 <= v < 0x8000
    ensures v < 0x400 ==> Digits(v) < 11
    ensures v < 0x800 ==> Digits(v) < 12
    ensures v < 0x1000 ==> Digits(v) < 13
    ensures v < 0x2000 ==> Digits(v) < 14
    ensures v < 0x4000 ==> Digits(v) < 15
  {}

  lemma TypeShifts()
    ensures Shl(G15, 0) == 0x537
    ensures Shl(G15, 1) == 0xa6e
    ensures Shl(G15, 2) == 0x14dc
    ensures Shl(G15, 3) == 0x29b8
    ensures Shl(G15, 4) == 0x5370
  {}

  lemma TypeLower(d: Word)
    ensures 0x400 <= d < 0x800 ==> Xor(d, 0x537) < 0x400
    ensures 0x800 <= d < 0x1000 ==> Xor(d, 0xa6e) < 0x800
    ensures 0x1000 <= d < 0x2000 ==> Xor(d, 0x14dc) < 0x1000
    ensures 0x2000 <= d < 0x4000 ==> Xor(d, 0x29b8) < 0x2000
    ensures 0x4000 <= d < 0x8000 ==> Xor(d, 0x5370) < 0x4000
  {}

  lemma TypeTop(d: Word, k: nat)
    requires Digits(d) == k + 11 && d < 0x8000
    ensures k < 5 && Xor(d, Shl(G15, k)) < 0x8000 && Digits(Xor(d, Shl(G15, k))) < Digits(d)
  {
    assert k < 5;
    hide Digits, Shl, Xor;
    TypeShifts();
    TypeLower(d);
    TypeBounds(d);
    TypeBounds(Xor(d, Shl(G15, k)));
    if k == 0 {
    } else if k == 1 {
    } else if k == 2 {
    } else if k == 3 {
    }
  }

  lemma TypeQuotient(q: Word, k: nat)
    requires q < 32 && k < 5
    ensures Xor(q, Shl(1, k)) < 32
  {}

  lemma TypeStart(data: Word)
    requires data < 32
    ensures data << 10 < 0x8000 && (data << 10) == Xor(data << 10, Times(0, G15)) && Digits(G15) == 11
  {}

  lemma TypeDone(data: Word, d: Word, t: Word)
    requires data < 32 && d == Xor(data << 10, t) && Digits(d) < 11
    ensures (data << 10) | d == t && t >> 10 == data
  {}

  method GetBchTypeInfo(data: Word) returns (bits: Word)
    requires data < 32
    ensures IsTypeWord(bits ^ G15_MASK, data)
  {
    hide Digits, Times, Xor, Shl;
    var d := data << 10;
    ghost var start, q: Word := d, 0;
    TypeStart(data);
    while true
      invariant q < 32 && d < 0x8000 && d == Xor(start, Times(q, G15))
      decreases Digits(d)
    {
      var a := GetBchDigit(d);
      var b := GetBchDigit(G15);
      if a < b {
        break;
      }
      TypeTop(d, a - b);
      TypeQuotient(q, a - b);
      TypeCancel(start, q, a - b);
      q := Xor(q, Shl(1, a - b));
      d := Xor(d, Shl(G15, a - b));
    }
    TypeDone(data, d, Times(q, G15));
    bits := ((data << 10) | d) ^ G15_MASK;
    Twice((data << 10) | d, G15_MASK);
  }

  lemma NumberBounds(v: Word)
    ensures Digits(v) == 13 ==> 0x1000 <= v < 0x2000
    ensures Digits(v) == 14 ==> 0x2000 <= v < 0x4000
    ensures Digits(v) == 15 ==> 0x4000 <= v < 0x8000
    ensures Digits(v) == 16 ==> 0x8000 <= v < 0x10000
    ensures Digits(v) == 17 ==> 0x10000 <= v < 0x20000
    ensures Digits(v) == 18 ==> 0x20000 <= v
    ensures v < 0x1000 ==> Digits(v) < 13
    ensures v < 0x2000 ==> Digits(v) < 14
    ensures v < 0x4000 ==> Digits(v) < 15
    ensures v < 0x8000 ==> Digits(v) < 16
    ensures v < 0x10000 ==> Digits(v) < 17
    ensures v < 0x20000 ==> Digits(v) < 18
  {}

  lemma NumberShifts()
    ensures Shl(G18, 0) == 0x1f25
    ensures Shl(G18, 1) == 0x3e4a
    ensures Shl(G18, 2) == 0x7c94
    ensures Shl(G18, 3) == 0xf928
    ensures Shl(G18, 4) == 0x1f250
    ensures Shl(G18, 5) == 0x3e4a0
  {}

  lemma NumberLower(d: Word)
    ensures 0x1000 <= d < 0x2000 ==> Xor(d, 0x1f25) < 0x1000
    ensures 0x2000 <= d < 0x4000 ==> Xor(d, 0x3e4a) < 0x2000
    ensures 0x4000 <= d < 0x8000 ==> Xor(d, 0x7c94) < 0x4000
    ensures 0x8000 <= d < 0x10000 ==> Xor(d, 0xf928) < 0x8000
    ensures 0x10000 <= d < 0x20000 ==> Xor(d, 0x1f250) < 0x10000
    ensures 0x20000 <= d ==> Xor(d, 0x3e4a0) < 0x20000
  {}

  lemma NumberTop(d: Word, k: nat)
    requires Digits(d) == k + 13
    ensures k < 6 && Digits(Xor(d, Shl(G18, k))) < Digits(d)
  {
    assert k < 6;
    hide Digits, Shl, Xor;
    NumberShifts();
    NumberLower(d);
    NumberBounds(d);
    NumberBounds(Xor(d, Shl(G18, k)));
    if k == 0 {
    } else if k == 1 {
    } else if k == 2 {
    } else if k == 3 {
    } else if k == 4 {
    }
  }

  lemma NumberQuotient(q: Word, k: nat)
    requires q < 64 && k < 6
    ensures Xor(q, Shl(1, k)) < 64
  {}

  lemma NumberStart(data: Word)
    requires data < 64
    ensures (data << 12) == Xor(data << 12, Times(0, G18)) && Digits(G18) == 13
  {}

  lemma NumberDone(data: Word, d: Word, t: Word)
    requires data < 64 && d == Xor(data << 12, t) && Digits(d) < 13
    ensures (data << 12) | d == t && t >> 12 == data
  {}

  method GetBchTypeNumber(data: Word) returns (bits: Word)
    requires data < 64
    ensures IsNumberWord(bits, data)
  {
    hide Digits, Times, Xor, Shl;
    var d := data << 12;
    ghost var start, q: Word := d, 0;
    NumberStart(data);
    while true
      invariant q < 64 && d == Xor(start, Times(q, G18))
      decreases Digits(d)
    {
      var a := GetBchDigit(d);
      var b := GetBchDigit(G18);
      if a < b {
        break;
      }
      NumberTop(d, a - b);
      NumberQuotient(q, a - b);
      NumberCancel(start, q, a - b);
      q := Xor(q, Shl(1, a - b));
      d := Xor(d, Shl(G18, a - b));
    }
    NumberDone(data, d, Times(q, G18));
    bits := ((data << 12) | d);
  }

  /** The data fixes the word. */
  lemma WordsAreUnique(a: Word, b: Word, data: Word)
    ensures IsTypeWord(a, data) && IsTypeWord(b, data) ==> a == b
    ensures IsNumberWord(a, data) && IsNumberWord(b, data) ==> a == b
  {
    hide Times;
    if IsTypeWord(a, data) && IsTypeWord(b, data) {
      var p: Word :| p < 32 && a == Times(p, G15);
      var q: Word :| q < 32 && b == Times(q, G15);
      TypeLead(p, q);
    }
    if IsNumberWord(a, data) && IsNumberWord(b, data) {
      var p: Word :| p < 64 && a == Times(p, G18);
      var q: Word :| q < 64 && b == Times(q, G18);
      NumberLead(p, q);
    }
  }

  lemma TypeLead(p: Word, q: Word)
    requires p < 32 && q < 32 && Times(p, G15) >> 10 == Times(q, G15) >> 10
    ensures p == q
  {}

  lemma NumberLead(p: Word, q: Word)
    requires p < 64 && q < 64 && Times(p, G18) >> 12 == Times(q, G18) >> 12
    ensures p == q
  {}

  // The format bits in the order in which they are placed, lowest first, and a reader of the data in them.

  predicate WordBit(w: Word, i: nat)
    requires i < 18
  {
    (w >> i) & 1 == 1
  }

  function WordBits(w: Word, n: nat): (bits: seq<bool>)
    requires n <= 18
    ensures |bits| == n
  {
    seq(n, i requires 0 <= i < n => WordBit(w, i))
  }

  function FormatData(level: Level, mask: MaskPattern): Word
  {
    (8 * level + mask) as Word
  }

  function MaskOf(bits: seq<bool>): (mask: MaskPattern)
    requires |bits| == 15
    ensures mask < 8
  {
    (if bits[10] then 0 else 1) + (if bits[11] then 2 else 0) + if bits[12] then 0 else 4
  }

  function LevelOf(bits: seq<bool>): (level: Level)
    requires |bits| == 15
    ensures level < 4
  {
    (if bits[13] then 1 else 0) + if bits[14] then 0 else 2
  }

  /** The mask and the level in five bits of data. */
  function MaskPart(data: Word): nat {
    (if data & 1 != 0 then 1 else 0) + (if data & 2 != 0 then 2 else 0) + if data & 4 != 0 then 4 else 0
  }

  function LevelPart(data: Word): nat {
    (if data & 8 != 0 then 1 else 0) + if data & 16 != 0 then 2 else 0
  }

  /** The reader finds in the masked word the data it starts with. */
  lemma {:induction false} FormatReads(w: Word, data: Word)
    requires (w ^ G15_MASK) >> 10 == data
    ensures MaskOf(WordBits(w, 15)) == MaskPart(data) && LevelOf(WordBits(w, 15)) == LevelPart(data)
  {
    var bits := WordBits(w, 15);
    MaskedBits(w);
    assert bits[10] == ((w >> 10) & 1 == 1) && bits[11] == ((w >> 11) & 1 == 1) && bits[12] == ((w >> 12) & 1 == 1)
        && bits[13] == ((w >> 13) & 1 == 1) && bits[14] == ((w >> 14) & 1 == 1);
  }

  lemma MaskedBits(w: Word)
    ensures var v := (w ^ G15_MASK) >> 10;
            && ((w >> 10) & 1 == 1 <==> v & 1 == 0) && ((w >> 11) & 1 == 1 <==> v & 2 != 0)
            && ((w >> 12) & 1 == 1 <==> v & 4 == 0) && ((w >> 13) & 1 == 1 <==> v & 8 != 0)
            && ((w >> 14) & 1 == 1 <==> v & 16 == 0)
  {}

  /** The data is the level and the mask it was made for. */
  lemma FormatParts(level: Level, mask: MaskPattern)
    ensures MaskPart(FormatData(level, mask)) == mask && LevelPart(FormatData(level, mask)) == level
  {}

  /** The version in eighteen version bits. */
  function NumberOf(bits: seq<bool>): nat
    requires |bits| == 18
  {
    (if bits[12] then 1 else 0) + (if bits[13] then 2 else 0) + (if bits[14] then 4 else 0)
    + (if bits[15] then 8 else 0) + (if bits[16] then 16 else 0) + if bits[17] then 32 else 0
  }

  function NumberPart(data: Word): nat {
    (if data & 1 != 0 then 1 else 0) + (if data & 2 != 0 then 2 else 0) + (if data & 4 != 0 then 4 else 0)
    + (if data & 8 != 0 then 8 else 0) + (if data & 16 != 0 then 16 else 0) + if data & 32 != 0 then 32 else 0
  }

  lemma {:induction false} NumberReads(w: Word, version: Version)
    requires w >> 12 == version as Word
    ensures NumberOf(WordBits(w, 18)) == version
  {
    var bits := WordBits(w, 18);
    NumberBitsOf(w);
    NumberParts(version);
    assert bits[12] == ((w >> 12) & 1 == 1) && bits[13] == ((w >> 13) & 1 == 1) && bits[14] == ((w >> 14) & 1 == 1)
        && bits[15] == ((w >> 15) & 1 == 1) && bits[16] == ((w >> 16) & 1 == 1) && bits[17] == ((w >> 17) & 1 == 1);
  }

  lemma NumberBitsOf(w: Word)
    ensures var v := w >> 12;
            && ((w >> 12) & 1 == 1 <==> v & 1 != 0) && ((w >> 13) & 1 == 1 <==> v & 2 != 0)
            && ((w >> 14) & 1 == 1 <==> v & 4 != 0) && ((w >> 15) & 1 == 1 <==> v & 8 != 0)
            && ((w >> 16) & 1 == 1 <==> v & 16 != 0) && ((w >> 17) & 1 == 1 <==> v & 32 != 0)
  {}

  lemma NumberParts(version: Version)
    ensures NumberPart(version as Word) == version
  {}

  // How far words of different data are apart.

  function One(w: Word, m: Word): nat {
    if w & m != 0 then 1 else 0
  }

  /** How many bits of a word are set. */
  function Weight(w: Word): nat {
    One(w, 0x1) + One(w, 0x2) + One(w, 0x4) + One(w, 0x8) + One(w, 0x10) + One(w, 0x20) + One(w, 0x40) + One(w, 0x80)
    + One(w, 0x100) + One(w, 0x200) + One(w, 0x400) + One(w, 0x800) + One(w, 0x1000) + One(w, 0x2000) + One(w, 0x4000)
    + One(w, 0x8000) + One(w, 0x10000) + One(w, 0x20000)
  }

  lemma TypeWeight(q: Word)
    requires 0 < q < 32
    ensures Weight(Times(q, G15)) >= 7
  {}

  lemma NumberWeight(q: Word)
    requires 0 < q < 64
    ensures Weight(Times(q, G18)) >= 8
  {}

  lemma SetBit(p: Word) returns (k: nat)
    requires 0 < p < 64
    ensures k < 6 && Xor(p, Shl(1, k)) < p && Xor(Xor(p, Shl(1, k)), Shl(1, k)) == p && (p < 32 ==> k < 5)
  {
    k := if p & 1 != 0 then 0 else if p & 2 != 0 then 1 else if p & 4 != 0 then 2 else if p & 8 != 0 then 3
    else if p & 16 != 0 then 4 else 5;
  }

  lemma XorZero(a: Word)
    ensures Xor(a, 0) == a && Xor(0, a) == a
    ensures Times(0, G15) == 0 && Times(0, G18) == 0
  {}

  lemma {:induction false} TypeXor(q: Word, p: Word)
    requires p < 32
    ensures Xor(Times(q, G15), Times(p, G15)) == Times(Xor(q, p), G15)
    decreases p
  {
    hide *;
    XorZero(q);
    XorZero(Times(q, G15));
    if p != 0 {
      var k := SetBit(p);
      var r := Xor(p, Shl(1, k));
      TypeXor(q, r);
      TypeCancel(Times(q, G15), r, k);
      TypeCancel(0, Xor(q, r), k);
      XorZero(Times(Xor(q, r), G15));
      XorZero(Times(Xor(Xor(q, r), Shl(1, k)), G15));
      XorAssoc(q, r, Shl(1, k));
    }
  }

  lemma {:induction false} NumberXor(q: Word, p: Word)
    requires p < 64
    ensures Xor(Times(q, G18), Times(p, G18)) == Times(Xor(q, p), G18)
    decreases p
  {
    hide *;
    XorZero(q);
    XorZero(Times(q, G18));
    if p != 0 {
      var k := SetBit(p);
      var r := Xor(p, Shl(1, k));
      NumberXor(q, r);
      NumberCancel(Times(q, G18), r, k);
      NumberCancel(0, Xor(q, r), k);
      XorZero(Times(Xor(q, r), G18));
      XorZero(Times(Xor(Xor(q, r), Shl(1, k)), G18));
      XorAssoc(q, r, Shl(1, k));
    }
  }

  lemma XorRange(p: Word, q: Word)
    ensures p < 32 && q < 32 && p != q ==> 0 < Xor(p, q) < 32
    ensures p < 64 && q < 64 && p != q ==> 0 < Xor(p, q) < 64
  {}

  lemma MaskCancels(a: Word, b: Word)
    ensures Xor(a ^ G15_MASK, b ^ G15_MASK) == a ^ b
  {}

  /** Format words of different data differ in at least seven bits, so three errors leave no doubt about the data. */
  lemma FormatWordsAreFarApart(a: Word, b: Word, p: Word, q: Word)
    requires IsTypeWord(a ^ G15_MASK, p) && IsTypeWord(b ^ G15_MASK, q) && p != q
    ensures Weight(a ^ b) >= 7
  {
    hide Times, Weight;
    var x: Word :| x < 32 && a ^ G15_MASK == Times(x, G15);
    var y: Word :| y < 32 && b ^ G15_MASK == Times(y, G15);
    MaskCancels(a, b);
    TypeXor(x, y);
    XorRange(x, y);
    TypeWeight(Xor(x, y));
  }

  /** Version words of different data differ in at least eight bits. */
  lemma VersionWordsAreFarApart(a: Word, b: Word, p: Word, q: Word)
    requires IsNumberWord(a, p) && IsNumberWord(b, q) && p != q
    ensures Weight(a ^ b) >= 8
  {
    hide Times, Weight;
    var x: Word :| x < 64 && a == Times(x, G18);
    var y: Word :| y < 64 && b == Times(y, G18);
    NumberXor(x, y);
    XorRange(x, y);
    NumberWeight(Xor(x, y));
  }

  // The words that the standard prints as examples.

  /** Level M with mask 5 (Annex C of ISO/IEC 18004:2015). */
  lemma FormatExample(w: Word)
    ensures IsTypeWord(w ^ G15_MASK, FormatData(0, 5)) <==> w == 0x40ce
  {
    FormatQuotient(w);
    WordsAreUnique(w ^ G15_MASK, 0x14dc, 5);
    hide Times;
    assert IsTypeWord(0x14dc, 5);
  }

  lemma FormatQuotient(w: Word)
    ensures 0x14dc == Times(4, G15) && 0x14dc as Word >> 10 == 5
    ensures w ^ G15_MASK == 0x14dc <==> w == 0x40ce
  {}

  /** Version 7 (Annex D). */
  lemma VersionExample(w: Word)
    ensures IsNumberWord(w, 7) <==> w == 0x07c94
  {
    VersionQuotient();
    WordsAreUnique(w, 0x07c94, 7);
    hide Times;
    assert IsNumberWord(0x07c94, 7);
  }

  /** The bits of the first of these words, lowest first. */
  lemma FormatBitsExample()
    ensures WordBits(0x40ce, 15) ==
            [false, true, true, true, false, false, true, true, false, false, false, false, false, false, true]
  {}

  lemma VersionQuotient()
    ensures 0x07c94 == Times(4, G18) && 0x07c94 as Word >> 12 == 7
  {}
}
