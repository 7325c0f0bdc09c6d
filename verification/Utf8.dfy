/** The UTF-8 encoder of the QR library (ui/qrcode-generator.js:2252-2285) against a strict decoder
    (RFC 3629, sections 3 and 4). Strings are sequences of UTF-16 code units. */
module Utf8 {
  import opened Wrappers

  /** A UTF-16 code unit. */
  type Unit = u: bv32 | u < 0x10000

  predicate IsSurrogate(c: bv32) {
    0xd800 <= c < 0xe000
  }

  /** A continuation byte: the low six bits under the marker 10. */
  function Tail(c: bv32): bv32 {
    0x80 | (c & 0x3f)
  }

  function Lead2(c: bv32): bv32 {
    0xc0 | (c >> 6)
  }

  function Lead3(c: bv32): bv32 {
    0xe0 | (c >> 12)
  }

  function Lead4(c: bv32): bv32 {
    0xf0 | (c >> 18)
  }

  /** The bytes of one code point, by length class. */
  function Bytes(c: bv32): (b: seq<bv32>)
    ensures 1 <= |b| <= 4
  {
    if c < 0x80 then [c]
    else if c < 0x800 then [Lead2(c), Tail(c)]
    else if c < 0x10000 then [Lead3(c), Tail(c >> 6), Tail(c)]
    else [Lead4(c), Tail(c >> 12), Tail(c >> 6), Tail(c)]
  }

  /** The code point the encoder makes of a surrogate and the unit after it, whatever that unit is. */
  function Combine(high: bv32, next: bv32): bv32 {
    0x10000 + (((high & 0x3ff) << 10) | (next & 0x3ff))
  }

  /** The unit a surrogate takes with it; a missing one counts as 0. */
  function Next(s: seq<Unit>): Unit {
    if |s| > 1 then s[1] else 0
  }

  function Drop(s: seq<Unit>, n: nat): seq<Unit> {
    if n <= |s| then s[n..] else []
  }

  /** The encoder: a unit in the surrogate range always takes the next unit with it. */
  function Encode(s: seq<Unit>): seq<bv32>
    decreases |s|
  {
    if s == [] then []
    else
      var c := s[0];
      if !IsSurrogate(c) then Bytes(c) + Encode(Drop(s, 1))
      else Bytes(Combine(c, Next(s))) + Encode(Drop(s, 2))
  }

  predicate IsHigh(c: bv32) {
    0xd800 <= c < 0xdc00
  }

  predicate IsLow(c: bv32) {
    0xdc00 <= c < 0xe000
  }

  /** Every high surrogate is followed by a low one, and there are no other surrogates. */
  predicate WellPaired(s: seq<Unit>) {
    s == [] ||
    (if !IsSurrogate(s[0]) then WellPaired(s[1..])
     else IsHigh(s[0]) && |s| > 1 && IsLow(s[1]) && WellPaired(s[2..]))
  }

  // The decoder.

  predicate IsTail(b: bv32) {
    0x80 <= b <= 0xbf
  }

  function Join2(a: bv32, b: bv32): bv32 {
    ((a & 0x1f) << 6) | (b & 0x3f)
  }

  function Join3(a: bv32, b: bv32, c: bv32): bv32 {
    ((a & 0x0f) << 12) | ((b & 0x3f) << 6) | (c & 0x3f)
  }

  function Join4(a: bv32, b: bv32, c: bv32, d: bv32): bv32 {
    ((a & 0x07) << 18) | ((b & 0x3f) << 12) | ((c & 0x3f) << 6) | (d & 0x3f)
  }

  /** The first code point of a byte sequence and the number of bytes it takes, or None when they are malformed. */
  function DecodeOne(b: seq<bv32>): (r: Option<(bv32, nat)>)
    ensures r.Some? ==> 1 <= r.value.1 <= |b|
  {
    if b == [] then None
    else if b[0] < 0x80 then Some((b[0], 1))
    else if 0xc2 <= b[0] <= 0xdf then
      if |b| >= 2 && IsTail(b[1]) then Some((Join2(b[0], b[1]), 2)) else None
    else if 0xe0 <= b[0] <= 0xef then
      if |b| >= 3 && IsTail(b[1]) && IsTail(b[2]) then
        var c := Join3(b[0], b[1], b[2]);
        if c < 0x800 || IsSurrogate(c) then None else Some((c, 3))
      else None
    else if 0xf0 <= b[0] <= 0xf4 then
      if |b| >= 4 && IsTail(b[1]) && IsTail(b[2]) && IsTail(b[3]) then
        var c := Join4(b[0], b[1], b[2], b[3]);
        if c < 0x10000 || c > 0x10ffff then None else Some((c, 4))
      else None
    else None
  }

  /** A high or a low surrogate that carries the low ten bits of a. */
  function High(a: bv32): Unit {
    0xd800 | (a & 0x3ff)
  }

  function Low(a: bv32): Unit {
    0xdc00 | (a & 0x3ff)
  }

  /** The UTF-16 units of a code point. */
  function Units(c: bv32): seq<Unit> {
    if c < 0x10000 then [c] else [High((c - 0x10000) >> 10), Low(c - 0x10000)]
  }

  function Decode(b: seq<bv32>): Option<seq<Unit>>
    decreases |b|
  {
    if b == [] then Some([]) else
      match DecodeOne(b)
      case None => None
      case Some((c, n)) =>
        match Decode(b[n..])
        case None => None
        case Some(rest) => Some(Units(c) + rest)
  }

  lemma TailIsTail(c: bv32)
    ensures IsTail(Tail(c))
  {}

  lemma TwoBytes(c: bv32)
    requires 0x80 <= c < 0x800
    ensures 0xc2 <= Lead2(c) <= 0xdf && Join2(Lead2(c), Tail(c)) == c
  {}

  lemma ThreeBytes(c: bv32)
    requires 0x800 <= c < 0x10000
    ensures 0xe0 <= Lead3(c) <= 0xef && Join3(Lead3(c), Tail(c >> 6), Tail(c)) == c
  {}

  lemma {:induction false} FourBytes(c: bv32)
    requires 0x10000 <= c <= 0x10ffff
    ensures 0xf0 <= Lead4(c) <= 0xf4 && Join4(Lead4(c), Tail(c >> 12), Tail(c >> 6), Tail(c)) == c
  {
    hide Tail, Lead4;
    Lead4Range(c);
    TailBits(c);
    TailBits(c >> 6);
    TailBits(c >> 12);
  }

  lemma Lead4Range(c: bv32)
    requires 0x10000 <= c <= 0x10ffff
    ensures 0xf0 <= Lead4(c) <= 0xf4 && Lead4(c) & 0x07 == c >> 18
  {}

  lemma TailBits(c: bv32)
    ensures Tail(c) & 0x3f == c & 0x3f
  {}

  /** A strict decoder reads back every code point, whatever follows it. */
  lemma {:induction false} DecodeBytes(c: bv32, rest: seq<bv32>)
    requires c <= 0x10ffff && !IsSurrogate(c)
    ensures DecodeOne(Bytes(c) + rest) == Some((c, |Bytes(c)|))
  {
    hide Tail, IsTail, Lead2, Lead3, Lead4, Join2, Join3, Join4;
    TailIsTail(c);
    TailIsTail(c >> 6);
    TailIsTail(c >> 12);
    if c < 0x80 {
    } else if c < 0x800 {
      TwoBytes(c);
    } else if c < 0x10000 {
      ThreeBytes(c);
    } else {
      FourBytes(c);
    }
  }

  lemma CombineRange(high: bv32, next: bv32)
    ensures 0x10000 <= Combine(high, next) <= 0x10ffff && !IsSurrogate(Combine(high, next))
  {}

  lemma HighOfPair(a: Unit, b: Unit)
    ensures High((Combine(a, b) - 0x10000) >> 10) == High(a)
  {}

  lemma LowOfPair(a: Unit, b: Unit)
    ensures Low(Combine(a, b) - 0x10000) == Low(b)
  {}

  lemma {:induction false} UnitsOfPair(a: Unit, b: Unit)
    ensures Units(Combine(a, b)) == [High(a), Low(b)]
  {
    hide Combine, High, Low;
    CombineRange(a, b);
    HighOfPair(a, b);
    LowOfPair(a, b);
  }

  lemma PairKept(a: Unit, b: Unit)
    ensures IsSurrogate(a) ==> (High(a) == a <==> IsHigh(a))
    ensures Low(b) == b <==> IsLow(b)
  {}

  lemma UnitsOfUnit(a: Unit)
    requires !IsSurrogate(a)
    ensures Units(a) == [a] && a <= 0x10ffff
  {}

  /** What a decoder makes of the encoder's output: each surrogate forced to a pair with its successor. */
  function Repaired(s: seq<Unit>): seq<Unit>
    decreases |s|
  {
    if s == [] then []
    else if !IsSurrogate(s[0]) then [s[0]] + Repaired(Drop(s, 1))
    else [High(s[0]), Low(Next(s))] + Repaired(Drop(s, 2))
  }

  lemma {:induction false} DecodeStep(c: bv32, rest: seq<bv32>)
    requires c <= 0x10ffff && !IsSurrogate(c)
    ensures Decode(Bytes(c) + rest) ==
            match Decode(rest) case None => None case Some(u) => Some(Units(c) + u)
  {
    hide Bytes, Units, DecodeOne, IsSurrogate;
    DecodeBytes(c, rest);
    assert (Bytes(c) + rest)[|Bytes(c)|..] == rest;
  }

  /** Every output of the encoder is well-formed UTF-8. */
  lemma {:induction false} EncodeIsWellFormed(s: seq<Unit>)
    ensures Decode(Encode(s)) == Some(Repaired(s))
    decreases |s|
  {
    hide Bytes, Units, Combine, DecodeOne, IsSurrogate, High, Low;
    if s != [] {
      var c := s[0];
      if !IsSurrogate(c) {
        EncodeIsWellFormed(Drop(s, 1));
        UnitsOfUnit(s[0]);
        DecodeStep(c, Encode(Drop(s, 1)));
      } else {
        EncodeIsWellFormed(Drop(s, 2));
        CombineRange(c, Next(s));
        UnitsOfPair(s[0], Next(s));
        DecodeStep(Combine(c, Next(s)), Encode(Drop(s, 2)));
      }
    }
  }

  lemma {:induction false} RepairedIffWellPaired(s: seq<Unit>)
    ensures Repaired(s) == s <==> WellPaired(s)
    decreases |s|
  {
    hide IsSurrogate, IsHigh, IsLow, High, Low;
    if s != [] && !IsSurrogate(s[0]) {
      RepairedIffWellPaired(s[1..]);
      assert s == [s[0]] + s[1..];
    } else if |s| > 1 {
      RepairedIffWellPaired(s[2..]);
      PairKept(s[0], s[1]);
      ConcatIsWhole(High(s[0]), Low(s[1]), Repaired(s[2..]), s);
    }
  }

  lemma ConcatIsWhole(a: Unit, b: Unit, rest: seq<Unit>, s: seq<Unit>)
    requires |s| > 1
    ensures [a, b] + rest == s <==> a == s[0] && b == s[1] && rest == s[2..]
  {
    var r := [a, b] + rest;
    assert r[0] == a && r[1] == b && r[2..] == rest;
    assert s == [s[0], s[1]] + s[2..];
  }

  /** The round trip holds exactly for the strings whose surrogates are properly paired. */
  lemma {:induction false} RoundTripIffWellPaired(s: seq<Unit>)
    ensures Decode(Encode(s)) == Some(s) <==> WellPaired(s)
  {
    EncodeIsWellFormed(s);
    RepairedIffWellPaired(s);
  }

  lemma EncodeNext(s: seq<Unit>, i: nat)
    requires i < |s|
    ensures var c := s[i];
            var next := if i + 1 < |s| then s[i + 1] else 0;
            Encode(Drop(s, i)) == if IsSurrogate(c) then Bytes(Combine(c, next)) + Encode(Drop(s, i + 2))
                                  else Bytes(c) + Encode(Drop(s, i + 1))
  {
    hide Bytes, Combine, IsSurrogate;
    var rest := Drop(s, i);
    assert Drop(rest, 1) == Drop(s, i + 1) && Drop(rest, 2) == Drop(s, i + 2);
  }

  lemma BytesByClass(c: bv32)
    ensures c < 0x80 ==> Bytes(c) == [c]
    ensures 0x80 <= c < 0x800 ==> Bytes(c) == [Lead2(c), Tail(c)]
    ensures 0x800 <= c < 0x10000 ==> Bytes(c) == [Lead3(c), Tail(c >> 6), Tail(c)]
    ensures 0x10000 <= c ==> Bytes(c) == [Lead4(c), Tail(c >> 12), Tail(c >> 6), Tail(c)]
  {
    hide Tail, Lead2, Lead3, Lead4;
  }

  /** The encoder's loop over char codes. */
  method ToUtf8Array(s: seq<Unit>) returns (utf8: seq<bv32>)
    ensures utf8 == Encode(s)
  {
    hide Tail, Lead2, Lead3, Lead4, Combine, Encode, Bytes, Drop;
    assert Drop(s, 0) == s by {
      DropNone(s);
    }
    utf8 := [];
    var i := 0;
    while i < |s|
      invariant utf8 + Encode(Drop(s, i)) == Encode(s)
    {
      ghost var before, rest := utf8, Encode(Drop(s, i));
      var charcode := s[i];
      EncodeNext(s, i);
      BytesByClass(charcode);
      if charcode < 0x80 {
        utf8 := utf8 + [charcode];
      } else if charcode < 0x800 {
        utf8 := utf8 + [Lead2(charcode), Tail(charcode)];
      } else if charcode < 0xd800 || charcode >= 0xe000 {
        utf8 := utf8 + [Lead3(charcode), Tail(charcode >> 6), Tail(charcode)];
      } else {
        i := i + 1;
        var next := if i < |s| then s[i] else 0;
        CombineRange(charcode, next);
        charcode := Combine(charcode, next);
        BytesByClass(charcode);
        utf8 := utf8 + [Lead4(charcode), Tail(charcode >> 12), Tail(charcode >> 6), Tail(charcode)];
      }
      i := i + 1;
      Regroup(before, utf8, rest, Encode(Drop(s, i)));
    }
    DropAll(s, i);
  }

  /** What is written moves from the rest to the front. */
  lemma Regroup<T>(before: seq<T>, after: seq<T>, rest: seq<T>, next: seq<T>)
    requires before <= after && rest == after[|before|..] + next
    ensures after + next == before + rest
  {}

  lemma DropNone(s: seq<Unit>)
    ensures Drop(s, 0) == s
  {}

  lemma DropAll(s: seq<Unit>, i: nat)
    requires i >= |s|
    ensures Encode(Drop(s, i)) == []
  {}

  /** The examples of RFC 3629, section 7: characters of one, two and three bytes, and a pair of surrogates. */
  lemma Examples()
    ensures Encode([0x41, 0x2262, 0x391, 0x2e]) == [0x41, 0xe2, 0x89, 0xa2, 0xce, 0x91, 0x2e]
    ensures Encode([0xd84c, 0xdfb4]) == [0xf0, 0xa3, 0x8e, 0xb4]
  {
    assert Encode([]) == [];
  }
}
