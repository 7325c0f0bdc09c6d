/** LZW raster data of the GIF encoder (ui/qrcode-generator.js:2127-2217) on values, and a decoder after
    GIF89a Appendix F. Strings are sequences of pixels; the minimum code size is 2. */
module Lzw {
  import opened Bits
  import opened LsbBits

  type Pixels = seq<nat>

  const CLEAR := 4
  const END := 5

  /** The encoder's table, in the order of its codes. */
  type Table = seq<Pixels>

  function InitialTable(): Table {
    [[0], [1], [2], [3], [4], [5]]
  }

  /** The code of an entry. */
  function IndexOf(table: Table, s: Pixels): (i: nat)
    requires s in table
    ensures i < |table| && table[i] == s
  {
    if table[0] == s then 0 else 1 + IndexOf(table[1..], s)
  }

  predicate AllPixels(s: Pixels) {
    forall i: nat | i < |s| :: s[i] < 4
  }

  // The encoder.

  /** What is written for s followed by rest, with the table and the code width the encoder is left with. */
  datatype Emitted = Emitted(bits: seq<bool>, size: nat, width: nat)

  predicate TableOk(table: Table, width: nat) {
    && InitialTable() <= table && |table| <= 4095 && 3 <= width <= 12 && |table| <= Pow2(width)
    && (forall i: nat | i < |table| :: table[i] != [])
    && (forall i: nat, j: nat | i < j < |table| :: table[i] != table[j])
  }

  /** The width after a code is written: one more when the next entry does not fit. */
  function NextWidth(size: nat, width: nat): nat {
    if size < 4095 && size == Pow2(width) then width + 1 else width
  }

  function NextTable(table: Table, entry: Pixels): Table {
    if |table| < 4095 then table + [entry] else table
  }

  function Encode(table: Table, width: nat, s: Pixels, rest: Pixels): Emitted
    requires s in table && InitialTable() <= table && AllPixels(rest)
    decreases |rest|
  {
    if rest == [] then Emitted(LsbOf(IndexOf(table, s), width), |table|, width)
    else
      var c := rest[0];
      if s + [c] in table then Encode(table, width, s + [c], rest[1..])
      else
        assert [c] in table by { assert InitialTable()[c] == [c]; }
        var more := Encode(NextTable(table, s + [c]), NextWidth(|table|, width), [c], rest[1..]);
        Emitted(LsbOf(IndexOf(table, s), width) + more.bits, more.size, more.width)
  }

  function EncodeAll(pixels: Pixels): Emitted
    requires pixels != [] && AllPixels(pixels)
  {
    assert [pixels[0]] in InitialTable() by { assert InitialTable()[pixels[0]] == [pixels[0]]; }
    Encode(InitialTable(), 3, [pixels[0]], pixels[1..])
  }

  // The decoder.

  /** The pixels read, and whether the end code was found. */
  datatype Decoded = Decoded(pixels: Pixels, ended: bool)

  /** The string a code stands for; the code of the entry about to be added stands for the last string and its
      first pixel. */
  function Meaning(table: Table, last: Pixels, code: nat): Pixels {
    if code < |table| then table[code] else if last != [] then last + [last[0]] else []
  }

  function Grown(table: Table, last: Pixels, s: Pixels): Table
    requires s != []
  {
    if last != [] && |table| < 4096 then table + [last + [s[0]]] else table
  }

  function ReadWidth(size: nat, width: nat): nat {
    if size == Pow2(width) && width < 12 then width + 1 else width
  }

  function Decode(bits: seq<bool>, table: Table, width: nat, last: Pixels): Decoded
    requires width > 0
    decreases |bits|
  {
    if |bits| < width then Decoded([], false)
    else
      var code, rest := LsbValue(bits[..width]), bits[width..];
      if code == END then Decoded([], true)
      else if code == CLEAR then Decode(rest, InitialTable(), 3, [])
      else if code > |table| || Meaning(table, last, code) == [] then Decoded([], false)
      else
        var s := Meaning(table, last, code);
        var grown := Grown(table, last, s);
        var more := Decode(rest, grown, ReadWidth(|grown|, width), s);
        Decoded(s + more.pixels, more.ended)
  }

  // The decoder's table follows the encoder's, one entry behind until the table is full.

  ghost predicate Synced(table: Table, mirror: Table, last: Pixels, s: Pixels) {
    || (last == [] && mirror == table && |table| < 4095)
    || (last != [] && s != [] && |table| == |mirror| + 1 && table == mirror + [last + [s[0]]])
    || (last != [] && |table| == 4095 && table <= mirror && |mirror| <= 4096)
  }

  lemma Powers()
    ensures Pow2(3) == 8 && Pow2(11) == 2048 && Pow2(12) == 4096
  {
    assert Pow2(6) == 64;
    assert Pow2(9) == 512;
  }

  lemma {:induction false} PowersRise(a: nat, b: nat)
    requires a < b
    ensures Pow2(a) < Pow2(b)
    decreases b
  {
    if a < b - 1 {
      PowersRise(a, b - 1);
    }
  }

  /** A full table has 12-bit codes. */
  lemma FullIsTwelve(width: nat)
    requires width <= 12 && 4095 <= Pow2(width)
    ensures width == 12
  {
    Powers();
    if width < 11 {
      PowersRise(width, 11);
    }
  }

  lemma Bounded(table: Table, width: nat)
    requires TableOk(table, width)
    ensures InitialTable() <= table && |table| <= 4095 && 3 <= width <= 12
  {}

  lemma PixelsAreEntries(table: Table, width: nat, c: nat)
    requires TableOk(table, width) && c < 4
    ensures [c] in table && InitialTable() <= table
  {
    assert InitialTable()[c] == [c] && table[c] == [c];
  }

  /** Neither code of the format is the code of a string of pixels, and every code fits the current width. */
  lemma CodeIsData(table: Table, width: nat, s: Pixels)
    requires TableOk(table, width) && s in table && s != [] && AllPixels(s)
    ensures IndexOf(table, s) < Pow2(width) && IndexOf(table, s) != CLEAR && IndexOf(table, s) != END
  {
    assert InitialTable()[4] == [4] && InitialTable()[5] == [5];
    assert table[4] == [4] && table[5] == [5];
  }

  lemma MeaningIsEntry(table: Table, mirror: Table, last: Pixels, s: Pixels)
    requires Synced(table, mirror, last, s) && s in table && s != []
    ensures IndexOf(table, s) <= |mirror| && Meaning(mirror, last, IndexOf(table, s)) == s
  {
    hide IndexOf;
    var code := IndexOf(table, s);
    if code < |mirror| {
      assert mirror[code] == table[code];
    } else {
      assert s == last + [s[0]];
      assert s[0] == last[0];
    }
  }

  /** The decoder takes one code off the bits: its string, and its own table entry. */
  lemma CodeIsRead(table: Table, width: nat, s: Pixels, mirror: Table, last: Pixels, rest: seq<bool>)
    requires TableOk(table, width) && s in table && s != [] && AllPixels(s) && Synced(table, mirror, last, s)
    ensures var grown := Grown(mirror, last, s);
            var more := Decode(rest, grown, ReadWidth(|grown|, width), s);
            Decode(LsbOf(IndexOf(table, s), width) + rest, mirror, width, last) == Decoded(s + more.pixels, more.ended)
  {
    hide IndexOf, Synced, Meaning, Grown, ReadWidth, LsbOf, LsbValue, AllPixels;
    var code := IndexOf(table, s);
    var bits := LsbOf(code, width) + rest;
    CodeIsData(table, width, s);
    LsbValueOf(code, width);
    MeaningIsEntry(table, mirror, last, s);
    assert bits[..width] == LsbOf(code, width) && bits[width..] == rest;
  }

  /** After a code, the decoder expects the width the encoder goes on with. */
  lemma WidthsAgree(table: Table, width: nat, s: Pixels, mirror: Table, last: Pixels)
    requires TableOk(table, width) && s != [] && Synced(table, mirror, last, s)
    ensures var grown := Grown(mirror, last, s);
            ReadWidth(|grown|, width) == NextWidth(|table|, width)
            && (|table| < 4095 ==> grown == table) && (|table| == 4095 ==> table <= grown && |grown| <= 4096)
  {
    hide IndexOf, InitialTable;
    Powers();
    if |table| == 4095 {
      FullIsTwelve(width);
    }
  }

  lemma StaysSynced(table: Table, width: nat, s: Pixels, c: nat, mirror: Table, last: Pixels)
    requires TableOk(table, width) && s != [] && Synced(table, mirror, last, s)
    ensures Synced(NextTable(table, s + [c]), Grown(mirror, last, s), s, [c])
  {
    hide TableOk, Grown;
    Bounded(table, width);
    WidthsAgree(table, width, s, mirror, last);
    assert s + [[c][0]] == s + [c];
  }

  lemma TableStaysOk(table: Table, width: nat, entry: Pixels)
    requires TableOk(table, width) && entry != [] && entry !in table
    ensures TableOk(NextTable(table, entry), NextWidth(|table|, width))
  {
    Powers();
    var next := NextTable(table, entry);
    forall i: nat, j: nat | i < j < |next|
      ensures next[i] != next[j]
    {
      if j == |table| {
        assert table[i] in table;
      }
    }
  }

  /** The end code is read back unless the decoder has just widened and no padding bit follows. */
  lemma EndIsRead(mirror: Table, width: nat, wide: nat, last: Pixels, pad: nat)
    requires width >= 3 && (wide == width || wide == width + 1)
    ensures Decode(LsbOf(END, width) + Zeros(pad), mirror, wide, last) == Decoded([], wide == width || pad > 0)
  {
    hide LsbOf, LsbValue, Pow2;
    var bits := LsbOf(END, width) + Zeros(pad);
    EndFits(width);
    LsbValueOf(END, width);
    LsbWiden(END, width);
    EndFits(width + 1);
    LsbValueOf(END, width + 1);
    if wide == width {
      assert bits[..wide] == LsbOf(END, width);
    } else if pad > 0 {
      assert Zeros(pad)[0] == false;
      assert bits[..wide] == LsbOf(END, width) + [false];
    }
  }

  lemma EndFits(width: nat)
    requires width >= 3
    ensures END < Pow2(width)
  {
    Powers();
    if width > 3 {
      PowersRise(3, width);
    }
  }

  /** Decoding what the encoder writes from any synchronised state. */
  lemma {:induction false} EncodedIsRead(table: Table, width: nat, s: Pixels, rest: Pixels, mirror: Table, last: Pixels,
                                         pad: nat)
    requires TableOk(table, width) && s in table && s != [] && AllPixels(s) && AllPixels(rest)
             && Synced(table, mirror, last, s)
    ensures var e := Encode(table, width, s, rest);
            && e.width <= 12
            && Decode(e.bits + (LsbOf(END, e.width) + Zeros(pad)), mirror, width, last)
               == Decoded(s + rest, NextWidth(e.size, e.width) == e.width || pad > 0)
    decreases |rest|
  {
    hide IndexOf, Synced, Grown, ReadWidth, NextWidth, NextTable, LsbOf, Decode, TableOk;
    Bounded(table, width);
    var e := Encode(table, width, s, rest);
    var tail := LsbOf(END, e.width) + Zeros(pad);
    var grown := Grown(mirror, last, s);
    WidthsAgree(table, width, s, mirror, last);
    if rest == [] {
      CodeIsRead(table, width, s, mirror, last, tail);
      NextWidthStep(|table|, width);
      EndIsRead(grown, width, ReadWidth(|grown|, width), s, pad);
    } else {
      var c, more := rest[0], rest[1..];
      if s + [c] in table {
        FirstMatters(table, mirror, last, s, c);
        EncodedIsRead(table, width, s + [c], more, mirror, last, pad);
        assert (s + [c]) + more == s + rest;
      } else {
        var table', width' := NextTable(table, s + [c]), NextWidth(|table|, width);
        TableStaysOk(table, width, s + [c]);
        PixelsAreEntries(table', width', c);
        StaysSynced(table, width, s, c, mirror, last);
        EncodedIsRead(table', width', [c], more, grown, s, pad);
        var e' := Encode(table', width', [c], more);
        CodeIsRead(table, width, s, mirror, last, e'.bits + tail);
        assert e.bits + tail == LsbOf(IndexOf(table, s), width) + (e'.bits + tail);
        assert [c] + more == rest;
      }
    }
  }

  lemma NextWidthStep(size: nat, width: nat)
    ensures NextWidth(size, width) == width || NextWidth(size, width) == width + 1
  {}

  lemma FirstMatters(table: Table, mirror: Table, last: Pixels, s: Pixels, c: nat)
    requires Synced(table, mirror, last, s) && s != []
    ensures Synced(table, mirror, last, s + [c])
  {}

  // Whole rasters.

  /** The clear code, the data codes and the end code. */
  function CodeBits(pixels: Pixels): seq<bool>
    requires pixels != [] && AllPixels(pixels)
  {
    var e := EncodeAll(pixels);
    LsbOf(CLEAR, 3) + e.bits + LsbOf(END, e.width)
  }

  /** The bits of the bytes that are written. */
  function RasterBits(pixels: Pixels): seq<bool>
    requires pixels != [] && AllPixels(pixels)
  {
    CodeBits(pixels) + Zeros(Padding(|CodeBits(pixels)|))
  }

  function DecodeRaster(bits: seq<bool>): Decoded {
    Decode(bits, InitialTable(), 3, [])
  }

  /** The decoder widens its codes after the last data code and no padding hides that the end code is narrower. */
  predicate EndIsLost(pixels: Pixels)
    requires pixels != [] && AllPixels(pixels)
  {
    var e := EncodeAll(pixels);
    e.size == Pow2(e.width) && e.size < 4095 && |CodeBits(pixels)| % 8 == 0
  }

  lemma InitialIsOk()
    ensures TableOk(InitialTable(), 3)
  {
    Powers();
  }

  lemma ClearIsRead(rest: seq<bool>)
    ensures DecodeRaster(LsbOf(CLEAR, 3) + rest) == DecodeRaster(rest)
  {
    hide LsbOf, LsbValue;
    var bits := LsbOf(CLEAR, 3) + rest;
    Powers();
    LsbValueOf(CLEAR, 3);
    assert bits[..3] == LsbOf(CLEAR, 3) && bits[3..] == rest;
  }

  /** Every nonempty image is decoded to its pixels. The end code is found too, except in exactly one situation. */
  lemma RasterRoundTrip(pixels: Pixels)
    requires pixels != [] && AllPixels(pixels)
    ensures DecodeRaster(RasterBits(pixels)) == Decoded(pixels, !EndIsLost(pixels))
  {
    hide LsbOf, Encode, Decode, TableOk;
    var e := EncodeAll(pixels);
    var pad := Padding(|CodeBits(pixels)|);
    var first, rest := [pixels[0]], pixels[1..];
    assert first in InitialTable() by { assert InitialTable()[pixels[0]] == first; }
    InitialIsOk();
    EncodedIsRead(InitialTable(), 3, first, rest, InitialTable(), [], pad);
    assert first + rest == pixels;
    var tail := e.bits + (LsbOf(END, e.width) + Zeros(pad));
    assert RasterBits(pixels) == LsbOf(CLEAR, 3) + tail;
    ClearIsRead(tail);
  }
}
