/** Which rasters lose their end code (ui/qrcode-generator.js:2127-2187): those of exactly eleven data codes, which
    cover at most 66 pixels. */
module LzwEnd {
  import opened Bits
  import opened LsbBits
  import opened Lzw

  // Bits, modulo a byte. All powers of two from the eighth on are whole bytes.

  lemma {:induction false} PowersAreBytes(width: nat)
    requires width >= 3
    ensures Pow2(width) % 8 == 0
  {
    if width == 3 {
      Powers();
    } else {
      PowersAreBytes(width - 1);
    }
  }

  /** The table has outgrown the codes that are one bit narrower. */
  predicate Tight(size: nat, width: nat) {
    width >= 3 && Pow2(width - 1) < size <= Pow2(width)
  }

  /** Modulo a byte, the bits written before a code of the given width at the given table size. */
  function Phase(size: nat, width: nat): int {
    width * (size - 1)
  }

  lemma TightStep(size: nat, width: nat)
    requires Tight(size, width) && size < 4095
    ensures Tight(size + 1, NextWidth(size, width))
    ensures NextWidth(size, width) == if size == Pow2(width) then width + 1 else width
  {
    assert Pow2(width + 1) == 2 * Pow2(width);
    hide Pow2;
  }

  /** Where a code ends is where the next one starts, whether or not codes get wider in between. */
  lemma {:induction false} PhaseStep(size: nat, width: nat)
    requires Tight(size, width) && size < 4095
    ensures Tight(size + 1, NextWidth(size, width))
    ensures (Phase(size, width) + width - Phase(size + 1, NextWidth(size, width))) % 8 == 0
  {
    TightStep(size, width);
    PhaseGrows(size, width);
    PowersAreBytes(width);
    hide Pow2, Phase, NextWidth;
    if size == Pow2(width) {
      WholeBytes(size);
    }
  }

  lemma WholeBytes(n: int)
    requires n % 8 == 0
    ensures (-n) % 8 == 0
  {}

  lemma PhaseGrows(size: nat, width: nat)
    requires size > 0
    ensures Phase(size + 1, width) == Phase(size, width) + width
    ensures Phase(size + 1, width + 1) == Phase(size, width) + width + size
  {
    assert width * (size - 1) + width == width * size;
    assert (width + 1) * size == width * size + size;
  }

  /** The bits of the data codes, modulo a byte, from any state of the encoder until its table is full. */
  lemma {:induction false} BitsAreInPhase(table: Table, width: nat, s: Pixels, rest: Pixels)
    requires s in table && InitialTable() <= table && AllPixels(rest) && Tight(|table|, width)
    ensures var e := Encode(table, width, s, rest);
            e.size < 4095 ==> Tight(e.size, e.width)
                              && (|e.bits| - (Phase(e.size, e.width) + e.width - Phase(|table|, width))) % 8 == 0
    ensures |table| <= Encode(table, width, s, rest).size
    decreases |rest|
  {
    hide IndexOf, LsbOf, Phase, Tight, NextWidth;
    if rest != [] {
      var c, more := rest[0], rest[1..];
      if s + [c] in table {
        BitsAreInPhase(table, width, s + [c], more);
      } else {
        assert InitialTable()[c] == [c] && [c] in table;
        if |table| < 4095 {
          PhaseStep(|table|, width);
          BitsAreInPhase(table + [s + [c]], NextWidth(|table|, width), [c], more);
        } else {
          FullStaysFull(table, NextWidth(|table|, width), [c], more);
        }
      }
    }
  }

  lemma {:induction false} FullStaysFull(table: Table, width: nat, s: Pixels, rest: Pixels)
    requires s in table && InitialTable() <= table && AllPixels(rest) && |table| >= 4095
    ensures Encode(table, width, s, rest).size == |table|
    decreases |rest|
  {
    hide IndexOf, LsbOf;
    if rest != [] {
      var c, more := rest[0], rest[1..];
      if s + [c] in table {
        FullStaysFull(table, width, s + [c], more);
      } else {
        assert InitialTable()[c] == [c] && [c] in table;
        FullStaysFull(table, NextWidth(|table|, width), [c], more);
      }
    }
  }

  /** The end code is lost exactly after eleven data codes, when the table has sixteen entries. */
  lemma {:induction false} EndIsLostIff(pixels: Pixels)
    requires pixels != [] && AllPixels(pixels)
    ensures EndIsLost(pixels) <==> EncodeAll(pixels).size == 16
  {
    hide Encode, AllPixels, LsbOf;
    var e := EncodeAll(pixels);
    assert [pixels[0]] in InitialTable() by { Start(pixels); }
    Start(pixels);
    BitsAreInPhase(InitialTable(), 3, [pixels[0]], pixels[1..]);
    if e.size < 4095 {
      LastPhase(e.size, e.width, |e.bits|);
    }
  }

  lemma Start(pixels: Pixels)
    requires pixels != [] && AllPixels(pixels)
    ensures [pixels[0]] in InitialTable() && AllPixels(pixels[1..])
    ensures Tight(6, 3) && Phase(6, 3) == 15
  {
    assert InitialTable()[pixels[0]] == [pixels[0]];
    Powers();
    assert Pow2(2) == 4;
  }

  /** With the clear code and the end code around them, the codes fill whole bytes at sixteen entries only. */
  lemma {:induction false} LastPhase(size: nat, width: nat, bits: nat)
    requires size < 4095 && Tight(size, width) && (bits - (Phase(size, width) + width - 15)) % 8 == 0
    ensures size == Pow2(width) && (3 + bits + width) % 8 == 0 <==> size == 16
  {
    Powers();
    assert Pow2(4) == 16 && Pow2(6) == 64;
    assert Phase(size, width) + width == width * size;
    if size == Pow2(width) {
      PowersAreBytes(width);
      MultipleOfByte(width, size);
      if width >= 12 {
        Rises(12, width);
      }
    }
    if size == 16 {
      if width < 4 {
        Rises(width, 3);
      } else if width > 4 {
        Rises(4, width - 1);
      }
    }
  }

  lemma MultipleOfByte(n: nat, m: nat)
    requires m % 8 == 0
    ensures (n * m) % 8 == 0
  {
    assert n * m == 8 * (n * (m / 8));
  }

  lemma Rises(a: nat, b: nat)
    requires a <= b
    ensures Pow2(a) <= Pow2(b)
  {
    if a < b {
      PowersRise(a, b);
    }
  }

  // Pixels: what eleven codes can stand for.

  /** No entry is longer than the number of entries added so far, and one. */
  ghost predicate Short(table: Table) {
    forall s | s in table :: |s| + 5 <= |table|
  }

  lemma ShortGrows(table: Table, s: Pixels, c: nat)
    requires Short(table) && s in table
    ensures Short(table + [s + [c]])
  {}

  /** The most pixels of all codes up to the one written at f entries: 1 + 2 + ... + (f - 5). */
  function Cover(f: nat): nat {
    if f <= 5 then 0 else Cover(f - 1) + (f - 5)
  }

  /** The strings of the codes written while the table grows from t entries to f. */
  lemma {:induction false} CodesCoverFew(table: Table, width: nat, s: Pixels, rest: Pixels)
    requires s in table && InitialTable() <= table && AllPixels(rest) && Short(table)
    ensures var t, f := |table|, Encode(table, width, s, rest).size;
            f < 4095 ==> |s| + |rest| + Cover(t - 1) <= Cover(f)
    decreases |rest|
  {
    hide IndexOf, LsbOf, NextWidth, Short;
    var t := |table|;
    EntryIsShort(table, s);
    if rest != [] {
      var c, more := rest[0], rest[1..];
      if s + [c] in table {
        CodesCoverFew(table, width, s + [c], more);
      } else {
        assert InitialTable()[c] == [c] && [c] in table;
        if t < 4095 {
          ShortGrows(table, s, c);
          CodesCoverFew(table + [s + [c]], NextWidth(t, width), [c], more);
        } else {
          FullStaysFull(table, NextWidth(t, width), [c], more);
        }
      }
    }
  }

  lemma EntryIsShort(table: Table, s: Pixels)
    requires Short(table) && s in table
    ensures |s| + 5 <= |table|
  {}

  /** The most pixels eleven codes cover: 1 + 2 + ... + 11. */
  const MOST_LOST: nat := 66

  lemma ElevenCover()
    ensures Cover(5) == 0 && Cover(16) == MOST_LOST
  {
    assert Cover(8) == 6;
    assert Cover(12) == 28;
  }

  lemma {:induction false} LostIsSmall(pixels: Pixels)
    requires pixels != [] && AllPixels(pixels) && EndIsLost(pixels)
    ensures |pixels| <= MOST_LOST
  {
    hide Encode, AllPixels, Tight;
    Start(pixels);
    EndIsLostIff(pixels);
    ElevenCover();
    CodesCoverFew(InitialTable(), 3, [pixels[0]], pixels[1..]);
  }

  /** Every larger image is decoded to its pixels and its end. */
  lemma LargeRasterRoundTrip(pixels: Pixels)
    requires AllPixels(pixels) && |pixels| > MOST_LOST
    ensures DecodeRaster(RasterBits(pixels)) == Decoded(pixels, true)
  {
    hide DecodeRaster, RasterBits, EndIsLost, AllPixels;
    if EndIsLost(pixels) {
      LostIsSmall(pixels);
    }
    RasterRoundTrip(pixels);
  }

  // The bound is sharp: an image of one colour.

  function Run(n: nat): (s: Pixels)
    ensures |s| == n && AllPixels(s)
  {
    seq(n, _ => 0)
  }

  /** The initial table and the runs of two to m pixels. */
  function RunTable(m: nat): (t: Table)
    requires m > 0
    ensures |t| == 5 + m && InitialTable() <= t
  {
    InitialTable() + seq(m - 1, i requires i >= 0 => Run(i + 2))
  }

  lemma RunInTable(m: nat, j: nat)
    requires 0 < m && 0 < j
    ensures Run(j) in RunTable(m) <==> j <= m
    ensures RunTable(m + 1) == RunTable(m) + [Run(m + 1)]
  {
    assert InitialTable()[0] == Run(1) && RunTable(m)[0] == Run(1);
    if 1 < j <= m {
      assert RunTable(m)[6 + j - 2] == Run(j);
    }
    forall i: nat | i < |RunTable(m)| && j > m
      ensures RunTable(m)[i] != Run(j)
    {
      assert i >= 6 ==> |RunTable(m)[i]| == i - 4;
      assert i < 6 ==> RunTable(m)[i] == [i];
    }
  }

  lemma {:induction false} CoverRises(m: nat)
    requires 1 <= m <= 11
    ensures Cover(5 + m) == Cover(4 + m) + m && (m < 11 ==> Cover(5 + m) < Cover(16))
    decreases 11 - m
  {
    if m < 11 {
      CoverRises(m + 1);
    }
  }

  /** Codes stand for m, m + 1, ..., 11 pixels when that is what is left. */
  lemma {:induction false} RunsAreCoded(m: nat, width: nat, j: nat, r: nat)
    requires 0 < j <= m <= 11 && j + r + Cover(4 + m) == Cover(16)
    ensures Run(j) in RunTable(m) && Encode(RunTable(m), width, Run(j), Run(r)).size == 16
    decreases r
  {
    hide IndexOf, LsbOf, NextWidth, RunTable, InitialTable, Cover;
    CoverRises(m);
    RunInTable(m, j);
    RunInTable(m, j + 1);
    RunInTable(m, 1);
    if r > 0 {
      RunParts(r, j);
      if j < m {
        RunsAreCoded(m, width, j + 1, r - 1);
      } else {
        RunsAreCoded(m + 1, NextWidth(|RunTable(m)|, width), 1, r - 1);
        hide Run;
        assert NextTable(RunTable(m), Run(j) + [0]) == RunTable(m + 1);
      }
    }
  }

  lemma RunParts(r: nat, j: nat)
    requires r > 0
    ensures Run(r)[0] == 0 && Run(r)[1..] == Run(r - 1) && Run(j) + [0] == Run(j + 1) && Run(1) == [0]
  {}

  lemma {:induction false} MostLostIsLost()
    ensures EndIsLost(Run(MOST_LOST))
  {
    hide Encode, RunTable, InitialTable;
    EndIsLostIff(Run(66));
    ElevenCover();
    RunsAreCoded(1, 3, 1, 65);
    assert RunTable(1) == InitialTable() by { OneRun(); }
    assert Run(66)[1..] == Run(65) && [Run(66)[0]] == Run(1);
  }

  lemma OneRun()
    ensures RunTable(1) == InitialTable()
  {}
}
