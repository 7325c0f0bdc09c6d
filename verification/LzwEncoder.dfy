/** The LZW table and the raster writer of the GIF encoder, in place (ui/qrcode-generator.js:2127-2217). */
module LzwEncoder {
  import opened Bits
  import opened LsbBits
  import opened Lzw

  class LzwTable {
    var codes: map<Pixels, nat>
    var size: nat
    ghost var entries: Table

    ghost predicate Valid()
      reads this
    {
      && size == |entries|
      && (forall s :: s in codes <==> s in entries)
      && (forall i: nat | i < |entries| :: entries[i] in codes && codes[entries[i]] == i)
    }

    constructor ()
      ensures Valid() && entries == []
    {
      codes, size, entries := map[], 0, [];
    }

    method Size() returns (n: nat)
      requires Valid()
      ensures n == |entries|
    {
      n := size;
    }

    /** Throws on a key that is there already. */
    method Add(key: Pixels) returns (ok: bool)
      requires Valid()
      modifies this
      ensures Valid() && (ok <==> key !in old(entries))
      ensures entries == if ok then old(entries) + [key] else old(entries)
    {
      var known := Contains(key);
      if known {
        return false;
      }
      codes := codes[key := size];
      size := size + 1;
      entries := entries + [key];
      ok := true;
    }

    method Contains(key: Pixels) returns (known: bool)
      requires Valid()
      ensures known <==> key in entries
    {
      known := key in codes;
    }

    method CodeOf(key: Pixels) returns (code: nat)
      requires Valid() && key in entries
      ensures code == IndexOf(entries, key)
    {
      hide IndexOf;
      code := codes[key];
    }
  }

  method SetupTable() returns (table: LzwTable)
    ensures fresh(table) && table.Valid() && table.entries == InitialTable()
  {
    hide LzwTable.Valid;
    table := new LzwTable();
    var ok: bool;
    for i := 0 to CLEAR
      invariant table.Valid() && table.entries == seq(i, j requires j >= 0 => [j])
    {
      ok := table.Add([i]);
      assert ok;
    }
    ok := table.Add([CLEAR]);
    assert ok;
    ok := table.Add([END]);
    assert ok;
  }

  /** The raster of an image: no code is too wide for the stream and no string is added twice. */
  method GetLzwRaster(data: Pixels) returns (raster: seq<nat>)
    requires data != [] && AllPixels(data)
    ensures AllBytes(raster) && BytesToLsb(raster) == RasterBits(data)
  {
    hide LzwTable.Valid, BitOutputStream.Valid, BitOutputStream.Written, IndexOf, LsbOf, Encode, EncodeAll,
         InitialTable, TableOk, Encoding, Pow2, Padding, Zeros;
    var clearCode, endCode, bitLength := CLEAR, END, 3;
    var table := SetupTable();
    var bitOut := new BitOutputStream();
    StartEncoding(data);
    var ok := bitOut.Write(clearCode, bitLength);
    assert ok;

    assert bitOut.Written() == LsbOf(CLEAR, 3);
    var dataIndex := 0;
    var s := [data[dataIndex]];
    dataIndex := dataIndex + 1;
    ghost var e := EncodeAll(data);

    while dataIndex < |data|
      invariant 1 <= dataIndex <= |data| && table.Valid() && bitOut.Valid()
      invariant AllPixels(data) && Encoding(table.entries, bitLength, s, data[dataIndex..], bitOut.Written(), e)
    {
      var c := data[dataIndex];
      assert data[dataIndex..][0] == c && data[dataIndex..][1..] == data[dataIndex + 1..];
      dataIndex := dataIndex + 1;
      var known := table.Contains(s + [c]);
      if known {
        ExtendString(table.entries, bitLength, s, data[dataIndex - 1..], bitOut.Written(), e);
        s := s + [c];
      } else {
        WriteCode(table.entries, bitLength, s, data[dataIndex - 1..], bitOut.Written(), e);
        CodeFits(table.entries, bitLength, s, data[dataIndex - 1..], bitOut.Written(), e);
        var code := table.CodeOf(s);
        ok := bitOut.Write(code, bitLength);
        assert ok;
        var size := table.Size();
        if size < 0xfff {
          if size == Pow2(bitLength) {
            bitLength := bitLength + 1;
          }
          ok := table.Add(s + [c]);
          assert ok;
        }
        s := [c];
      }
    }

    assert data[dataIndex..] == [];
    WriteLast(table.entries, bitLength, s, bitOut.Written(), e);
    CodeFits(table.entries, bitLength, s, [], bitOut.Written(), e);
    var code := table.CodeOf(s);
    ok := bitOut.Write(code, bitLength);
    assert ok;
    ok := bitOut.Write(endCode, bitLength);
    assert ok;
    assert bitOut.Written() == CodeBits(data);
    bitOut.Flush();
    raster := bitOut.out;
  }

  /** The encoder stands before s and rest: what it still writes, after what it has written, is the whole. */
  ghost predicate Encoding(table: Table, width: nat, s: Pixels, rest: Pixels, written: seq<bool>, e: Emitted) {
    && TableOk(table, width) && s in table && s != [] && AllPixels(s) && AllPixels(rest)
    && var f := Encode(table, width, s, rest);
       written + f.bits == LsbOf(CLEAR, 3) + e.bits && f.size == e.size && f.width == e.width
  }

  lemma StartEncoding(data: Pixels)
    requires data != [] && AllPixels(data)
    ensures Encoding(InitialTable(), 3, [data[0]], data[1..], LsbOf(CLEAR, 3), EncodeAll(data)) && CLEAR < Pow2(3)
  {
    InitialIsOk();
    assert InitialTable()[data[0]] == [data[0]];
  }

  lemma CodeFits(table: Table, width: nat, s: Pixels, rest: Pixels, written: seq<bool>, e: Emitted)
    requires Encoding(table, width, s, rest, written, e)
    ensures s in table && IndexOf(table, s) < Pow2(width) && END < Pow2(width) && width <= 12
  {
    CodeIsData(table, width, s);
    EndFits(width);
  }

  lemma ExtendString(table: Table, width: nat, s: Pixels, rest: Pixels, written: seq<bool>, e: Emitted)
    requires Encoding(table, width, s, rest, written, e) && rest != [] && s + [rest[0]] in table
    ensures Encoding(table, width, s + [rest[0]], rest[1..], written, e)
  {
    Bounded(table, width);
    hide TableOk;
    assert Encode(table, width, s, rest) == Encode(table, width, s + [rest[0]], rest[1..]);
  }

  lemma WriteCode(table: Table, width: nat, s: Pixels, rest: Pixels, written: seq<bool>, e: Emitted)
    requires Encoding(table, width, s, rest, written, e) && rest != [] && s + [rest[0]] !in table
    ensures Encoding(NextTable(table, s + [rest[0]]), NextWidth(|table|, width), [rest[0]], rest[1..],
                     written + LsbOf(IndexOf(table, s), width), e)
  {
    hide TableOk, IndexOf, LsbOf, NextWidth;
    var c := rest[0];
    TableStaysOk(table, width, s + [c]);
    var next := NextTable(table, s + [c]);
    PixelsAreEntries(next, NextWidth(|table|, width), c);
    Bounded(table, width);
    var f := Encode(next, NextWidth(|table|, width), [c], rest[1..]);
    assert written + (LsbOf(IndexOf(table, s), width) + f.bits) == (written + LsbOf(IndexOf(table, s), width)) + f.bits;
  }

  /** The last string is written, and the end code after it. */
  lemma WriteLast(table: Table, width: nat, s: Pixels, written: seq<bool>, e: Emitted)
    requires Encoding(table, width, s, [], written, e)
    ensures written + LsbOf(IndexOf(table, s), width) == LsbOf(CLEAR, 3) + e.bits && width == e.width
  {
    hide IndexOf, LsbOf, TableOk;
  }
}