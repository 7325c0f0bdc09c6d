/** What a scanner finds in every finished symbol (ISO/IEC 18004:2015, sections 6.3.3 to 6.3.6, 7.7.3, 7.9 and 7.10;
    ui/qrcode-generator.js:70-236): whole finder patterns, whole alignment patterns, unbroken timing lines and the dark
    module, and where format bits, version bits and data bits go. */
module Patterns {
  import opened QrTypes
  import Bch
  import opened Matrix
  import opened QrMatrix
  import opened QrCode
  import opened Capacity

  function Abs(x: int): nat {
    if x < 0 then -x else x
  }

  /** The distance of a module from a centre, in rings. */
  function Ring(r: int, c: int): nat {
    if Abs(r) < Abs(c) then Abs(c) else Abs(r)
  }

  /** A row of the table: even positions, those between the first and the last far from both. */
  predicate RowFits(pos: seq<nat>, n: nat) {
    && (forall i: nat | i < |pos| :: pos[i] % 2 == 0)
    && (forall i: nat | 1 <= i < |pos| - 1 :: 16 <= pos[i] && pos[i] + 16 < n)
  }

  /** The positions of the alignment patterns. */
  predicate Wide(pos: seq<nat>, n: nat) {
    Spread(pos, n) && RowFits(pos, n)
  }

  /** The two of a pair (a, b) of positions that a probe covers. */
  predicate IsCorner(pos: seq<nat>, a: nat, b: nat) {
    (a == 0 && b == 0) || (a == 0 && b == |pos| - 1) || (a == |pos| - 1 && b == 0)
  }

  predicate Near(p: Cell, row: int, col: int) {
    Ring(p.row - row, p.col - col) <= 2
  }

  // Which modules the format and version bits take.

  predicate IsFormatCell(n: nat, p: Cell) {
    || p == Cell(n - 8, 8)
    || (p.col == 8 && (p.row < 6 || p.row == 7 || p.row == 8 || n - 7 <= p.row))
    || (p.row == 8 && (p.col < 6 || p.col == 7 || n - 8 <= p.col))
  }

  predicate IsVersionCell(n: nat, p: Cell) {
    || (p.row <= 5 && n - 11 <= p.col <= n - 9)
    || (p.col <= 5 && n - 11 <= p.row <= n - 9)
  }

  lemma {:induction false} InfoKeeps(g: Grid, n: nat, bits: seq<bool>, test: bool, k: nat, p: Cell)
    requires k <= |bits| == 15 && n >= 21 && p in g && !IsFormatCell(n, p)
    ensures var r := TypeColumn(g, n, bits, test, k); p in r && r[p] == g[p]
    ensures var r := TypeLine(g, n, bits, test, k); p in r && r[p] == g[p]
  {
    if k > 0 {
      InfoKeeps(g, n, bits, test, k - 1, p);
    }
  }

  lemma {:induction false} VersionKeeps(g: Grid, n: nat, bits: seq<bool>, test: bool, k: nat, p: Cell)
    requires k <= |bits| == 18 && n >= 21 && p in g && !IsVersionCell(n, p)
    ensures var r := NumberTop(g, n, bits, test, k); p in r && r[p] == g[p]
    ensures var r := NumberSide(g, n, bits, test, k); p in r && r[p] == g[p]
  {
    if k > 0 {
      VersionKeeps(g, n, bits, test, k - 1, p);
    }
  }

  /** The symbol before the format and version bits. */
  function Drawn(version: nat, pos: seq<nat>): Grid {
    var n := ModuleCount(version);
    Timed(AdjustAll(Probe(n, 0, 0) + Probe(n, n - 7, 0) + Probe(n, 0, n - 7), n, pos, |pos|), n)
  }

  lemma {:induction false} DrawnStays(version: nat, pos: seq<nat>, typeBits: seq<bool>, numberBits: seq<bool>, p: Cell)
    requires 1 <= version && |typeBits| == 15 && |numberBits| == 18
    requires p in Drawn(version, pos) && !IsFormatCell(ModuleCount(version), p)
    requires !IsVersionCell(ModuleCount(version), p)
    ensures var g := FunctionPatterns(version, pos, typeBits, numberBits, false);
            p in g && g[p] == Drawn(version, pos)[p]
  {
    hide Timed, AdjustAll, Probe, TypeColumn, TypeLine, NumberTop, NumberSide, IsVersionCell;
    var n, drawn := ModuleCount(version), Drawn(version, pos);
    InfoKeeps(drawn, n, typeBits, false, 15, p);
    var column := TypeColumn(drawn, n, typeBits, false, 15);
    InfoKeeps(column, n, typeBits, false, 15, p);
    var typed := TypeInfo(drawn, n, typeBits, false);
    assert p in typed && typed[p] == drawn[p];
    VersionKeeps(typed, n, numberBits, false, 18, p);
    VersionKeeps(NumberTop(typed, n, numberBits, false, 18), n, numberBits, false, 18, p);
  }

  // Alignment patterns.

  lemma StepKeeps(g: Grid, n: nat, row: int, col: int, p: Cell)
    requires p in g && (Cell(row, col) in g || !Near(p, row, col))
    ensures var r := Adjusted(g, n, row, col); p in r && r[p] == g[p]
  {}

  lemma {:induction false} RowKeeps(g: Grid, n: nat, pos: seq<nat>, row: int, j: nat, p: Cell)
    requires j <= |pos| && p in g
    requires forall b: nat | b < j :: Cell(row, pos[b]) in g || !Near(p, row, pos[b])
    ensures var r := AdjustRow(g, n, pos, row, j); p in r && r[p] == g[p]
  {
    hide Near, Adjusted;
    if j > 0 {
      RowKeeps(g, n, pos, row, j - 1, p);
      AdjustRowGrows(g, n, pos, row, j - 1);
      StepKeeps(AdjustRow(g, n, pos, row, j - 1), n, row, pos[j - 1], p);
    }
  }

  lemma {:induction false} AllKeep(g: Grid, n: nat, pos: seq<nat>, i: nat, p: Cell)
    requires i <= |pos| && p in g
    requires forall a: nat, b: nat | a < |pos| && b < |pos| :: Cell(pos[a], pos[b]) in g || !Near(p, pos[a], pos[b])
    ensures var r := AdjustAll(g, n, pos, i); p in r && r[p] == g[p]
  {
    hide Near, AdjustRow;
    if i > 0 {
      AllKeep(g, n, pos, i - 1, p);
      AdjustGrows(g, n, pos, i - 1);
      RowKeeps(AdjustAll(g, n, pos, i - 1), n, pos, pos[i - 1], |pos|, p);
    }
  }

  /** The alignment pattern with this centre is there, ring by ring. */
  ghost predicate Aligned(g: Grid, row: int, col: int) {
    forall p: Cell | Near(p, row, col) :: p in g && g[p] == (Ring(p.row - row, p.col - col) != 1)
  }

  lemma AdjustedIsAligned(g: Grid, n: nat, row: int, col: int)
    requires Cell(row, col) !in g && 2 <= row < n - 2 && 2 <= col < n - 2
    ensures Aligned(Adjusted(g, n, row, col), row, col)
  {}

  /** A pattern far enough away changes neither the centre nor a pattern that is there. */
  lemma OtherKeeps(g: Grid, n: nat, row: int, col: int, otherRow: int, otherCol: int)
    requires Abs(row - otherRow) >= 5 || Abs(col - otherCol) >= 5
    ensures var r := Adjusted(g, n, otherRow, otherCol);
            && (Cell(row, col) !in g ==> Cell(row, col) !in r)
            && (Aligned(g, row, col) ==> Aligned(r, row, col))
  {
    var r := Adjusted(g, n, otherRow, otherCol);
    forall p: Cell | Near(p, row, col)
      ensures !Near(p, otherRow, otherCol)
    {}
  }

  lemma {:induction false} RowAligns(g: Grid, n: nat, pos: seq<nat>, i: nat, j: nat, a: nat, b: nat)
    requires Wide(pos, n) && i < |pos| && j <= |pos| && a < |pos| && b < |pos|
    ensures var r := AdjustRow(g, n, pos, pos[i], j);
            && (i != a && Aligned(g, pos[a], pos[b]) ==> Aligned(r, pos[a], pos[b]))
            && (Cell(pos[a], pos[b]) !in g ==>
                  if i == a && b < j then Aligned(r, pos[a], pos[b]) else Cell(pos[a], pos[b]) !in r)
  {
    hide Aligned, Adjusted;
    if j > 0 {
      RowAligns(g, n, pos, i, j - 1, a, b);
      var before := AdjustRow(g, n, pos, pos[i], j - 1);
      if i == a && j - 1 == b {
        if Cell(pos[a], pos[b]) !in g {
          Inside(pos, n, a);
          Inside(pos, n, b);
          AdjustedIsAligned(before, n, pos[a], pos[b]);
        }
      } else {
        if i != a {
          PositionsApart(pos, n, i, a);
        } else {
          PositionsApart(pos, n, j - 1, b);
        }
        OtherKeeps(before, n, pos[a], pos[b], pos[i], pos[j - 1]);
      }
    }
  }

  lemma PositionsApart(pos: seq<nat>, n: nat, i: nat, j: nat)
    requires Wide(pos, n) && i < |pos| && j < |pos| && i != j
    ensures Abs(pos[i] as int - pos[j]) >= 5
  {
    if i < j {
      Apart(pos, n, i, j);
    } else {
      Apart(pos, n, j, i);
    }
  }

  lemma Inside(pos: seq<nat>, n: nat, a: nat)
    requires Wide(pos, n) && a < |pos|
    ensures 2 <= pos[a] < n - 2
  {
    Apart(pos, n, 0, |pos| - 1);
  }

  lemma {:induction false} AllAlign(g: Grid, n: nat, pos: seq<nat>, i: nat, a: nat, b: nat)
    requires Wide(pos, n) && i <= |pos| && a < |pos| && b < |pos| && Cell(pos[a], pos[b]) !in g
    ensures var r := AdjustAll(g, n, pos, i);
            if a < i then Aligned(r, pos[a], pos[b]) else Cell(pos[a], pos[b]) !in r
  {
    hide Aligned, Wide, AdjustRow;
    if i > 0 {
      AllAlign(g, n, pos, i - 1, a, b);
      RowAligns(AdjustAll(g, n, pos, i - 1), n, pos, i - 1, |pos|, a, b);
    }
  }

  // Where the modules of the drawn symbol come from.

  /** p was in the grid before, or an alignment pattern near it drew it. */
  ghost predicate HasSource(g: Grid, r: Grid, pos: seq<nat>, p: Cell) {
    p in r ==>
      || (p in g && r[p] == g[p])
      || exists a: nat, b: nat | a < |pos| && b < |pos| ::
           Near(p, pos[a], pos[b]) && r[p] == (Ring(p.row - pos[a], p.col - pos[b]) != 1)
  }

  lemma {:induction false} RowSource(g: Grid, r: Grid, n: nat, pos: seq<nat>, i: nat, j: nat, p: Cell)
    requires i < |pos| && j <= |pos| && HasSource(g, r, pos, p)
    ensures HasSource(g, AdjustRow(r, n, pos, pos[i], j), pos, p)
  {
    hide HasSource, Adjusted;
    if j > 0 {
      RowSource(g, r, n, pos, i, j - 1, p);
      StepSource(g, AdjustRow(r, n, pos, pos[i], j - 1), n, pos, i, j - 1, p);
    }
  }

  lemma StepSource(g: Grid, r: Grid, n: nat, pos: seq<nat>, i: nat, j: nat, p: Cell)
    requires i < |pos| && j < |pos| && HasSource(g, r, pos, p)
    ensures HasSource(g, Adjusted(r, n, pos[i], pos[j]), pos, p)
  {
    if Near(p, pos[i], pos[j]) {
      assert p in AdjustUpTo(n, pos[i], pos[j], 3, -2) ==>
          AdjustUpTo(n, pos[i], pos[j], 3, -2)[p] == (Ring(p.row - pos[i], p.col - pos[j]) != 1);
    }
  }

  lemma {:induction false} AllSource(g: Grid, n: nat, pos: seq<nat>, i: nat, p: Cell)
    requires i <= |pos|
    ensures HasSource(g, AdjustAll(g, n, pos, i), pos, p)
  {
    hide HasSource, AdjustRow;
    if i == 0 {
      SelfSource(g, pos, p);
    } else {
      AllSource(g, n, pos, i - 1, p);
      RowSource(g, AdjustAll(g, n, pos, i - 1), n, pos, i - 1, |pos|, p);
    }
  }

  lemma SelfSource(g: Grid, pos: seq<nat>, p: Cell)
    ensures HasSource(g, g, pos, p)
  {}

  // The table.

  /** The gaps after the first are all equal. */
  predicate EqualGaps(pos: seq<nat>) {
    forall i: nat | 3 <= i < |pos| :: pos[i] as int - pos[i - 1] == pos[i - 1] as int - pos[i - 2]
  }

  lemma FitsFrom1(version: Version)
    ensures 1 <= version <= 8 ==> RowFits(PATTERN_POSITION_TABLE[version - 1], ModuleCount(version))
  {}

  lemma GapsFrom1(version: Version)
    ensures 1 <= version <= 8 ==> EqualGaps(PATTERN_POSITION_TABLE[version - 1])
  {}

  lemma FitsFrom9(version: Version)
    ensures 9 <= version <= 16 ==> RowFits(PATTERN_POSITION_TABLE[version - 1], ModuleCount(version))
  {}

  lemma GapsFrom9(version: Version)
    ensures 9 <= version <= 16 ==> EqualGaps(PATTERN_POSITION_TABLE[version - 1])
  {}

  lemma FitsFrom17(version: Version)
    ensures 17 <= version <= 24 ==> RowFits(PATTERN_POSITION_TABLE[version - 1], ModuleCount(version))
  {}

  lemma GapsFrom17(version: Version)
    ensures 17 <= version <= 24 ==> EqualGaps(PATTERN_POSITION_TABLE[version - 1])
  {}

  lemma FitsFrom25(version: Version)
    ensures 25 <= version <= 32 ==> RowFits(PATTERN_POSITION_TABLE[version - 1], ModuleCount(version))
  {}

  lemma GapsFrom25(version: Version)
    ensures 25 <= version <= 32 ==> EqualGaps(PATTERN_POSITION_TABLE[version - 1])
  {}

  lemma FitsFrom33(version: Version)
    ensures 33 <= version <= 40 ==> RowFits(PATTERN_POSITION_TABLE[version - 1], ModuleCount(version))
  {}

  lemma GapsFrom33(version: Version)
    ensures 33 <= version <= 40 ==> EqualGaps(PATTERN_POSITION_TABLE[version - 1])
  {}

  /** Every version has the number of positions the standard names: from 6 to the far probe, all even, and the gaps
      after the first all equal. */
  lemma TableIsWide(version: Version)
    ensures var pos := PatternPosition(version);
            && |pos| == (if version == 1 then 0 else version / 7 + 2)
            && (version > 1 ==> Wide(pos, ModuleCount(version)))
            && EqualGaps(pos)
  {
    TableIsSpread(version);
    hide RowFits, EqualGaps, Spread;
    FitsFrom1(version);
    FitsFrom9(version);
    FitsFrom17(version);
    FitsFrom25(version);
    FitsFrom33(version);
    GapsFrom1(version);
    GapsFrom9(version);
    GapsFrom17(version);
    GapsFrom25(version);
    GapsFrom33(version);
  }

  // Finder patterns.

  /** Where the finder patterns are. */
  predicate IsFinder(n: nat, row: int, col: int) {
    (row == 0 && col == 0) || (row == n - 7 && col == 0) || (row == 0 && col == n - 7)
  }

  lemma DarkRings(r: int, c: int)
    requires Ring(r - 3, c - 3) <= 4
    ensures ProbeDark(r, c) <==> Ring(r - 3, c - 3) <= 1 || Ring(r - 3, c - 3) == 3
  {}

  lemma ProbeIs(n: nat, row: int, col: int, p: Cell)
    ensures p in Probe(n, row, col) <==> InGrid(n, p) && Ring(p.row - row - 3, p.col - col - 3) <= 4
    ensures p in Probe(n, row, col) ==> Probe(n, row, col)[p] == ProbeDark(p.row - row, p.col - col)
  {
    hide ProbeDark;
  }

  lemma ProbeRings(n: nat, row: int, col: int, p: Cell)
    requires n >= 21 && IsFinder(n, row, col) && InGrid(n, p) && Ring(p.row - row - 3, p.col - col - 3) <= 4
    ensures var ring := Ring(p.row - row - 3, p.col - col - 3);
            p in Probes(n) && Probes(n)[p] == (ring <= 1 || ring == 3)
  {
    hide Probe, ProbeDark;
    ProbeIs(n, 0, 0, p);
    ProbeIs(n, n - 7, 0, p);
    ProbeIs(n, 0, n - 7, p);
    DarkRings(p.row - row, p.col - col);
  }

  /** No alignment pattern reaches a finder pattern, except those that are left out. */
  lemma FinderIsFar(pos: seq<nat>, n: nat, row: int, col: int, p: Cell, a: nat, b: nat)
    requires Wide(pos, n) && n >= 21 && IsFinder(n, row, col) && InGrid(n, p) && a < |pos| && b < |pos|
    requires Ring(p.row - row - 3, p.col - col - 3) <= 4
    ensures IsCorner(pos, a, b) || !Near(p, pos[a], pos[b])
  {}

  lemma CornerIsSet(pos: seq<nat>, n: nat, a: nat, b: nat)
    requires Wide(pos, n) && n >= 21 && a < |pos| && b < |pos|
    ensures IsCorner(pos, a, b) <==> Cell(pos[a], pos[b]) in Probes(n)
  {
    Apart(pos, n, 0, |pos| - 1);
  }

  lemma {:induction false} FinderKept(version: Version, row: int, col: int, p: Cell)
    requires var n := ModuleCount(version);
             IsFinder(n, row, col) && InGrid(n, p) && Ring(p.row - row - 3, p.col - col - 3) <= 4
    ensures p in Probes(ModuleCount(version)) && p in Drawn(version, PatternPosition(version))
    ensures Drawn(version, PatternPosition(version))[p] == Probes(ModuleCount(version))[p]
  {
    hide AdjustAll, Ring, Near, Timed, Wide, IsFinder, PatternPosition, Probe, InGrid, EqualGaps, IsCorner;
    var n, pos := ModuleCount(version), PatternPosition(version);
    ProbeRings(n, row, col, p);
    TableIsWide(version);
    forall a: nat, b: nat | a < |pos| && b < |pos|
      ensures Cell(pos[a], pos[b]) in Probes(n) || !Near(p, pos[a], pos[b])
    {
      FinderIsFar(pos, n, row, col, p, a, b);
      CornerIsSet(pos, n, a, b);
    }
    AllKeep(Probes(n), n, pos, |pos|, p);
    TimedKeeps(AdjustAll(Probes(n), n, pos, |pos|), n, p);
  }

  /** In every finished symbol, each finder pattern is a dark square of three modules, a light ring, a dark ring and a
      light separator. */
  lemma {:induction false} FinderIsDrawn(g: Grid, version: Version, level: Level, mask: MaskPattern,
                                         codewords: seq<bv8>, row: int, col: int, p: Cell)
    requires IsSymbol(g, version, level, mask, false, codewords)
    requires var n := ModuleCount(version);
             IsFinder(n, row, col) && InGrid(n, p) && Ring(p.row - row - 3, p.col - col - 3) <= 4
    ensures var ring := Ring(p.row - row - 3, p.col - col - 3);
            p in g && g[p] == (ring <= 1 || ring == 3)
  {
    hide IsSymbol, Drawn, PatternPosition, Probes, Ring, IsFinder, InGrid, IsFormatCell, IsVersionCell;
    var n := ModuleCount(version);
    ProbeRings(n, row, col, p);
    FinderKept(version, row, col, p);
    FinderIsFree(n, row, col, p);
    SymbolKeeps(g, version, level, mask, codewords, p);
  }

  lemma TimedKeeps(g: Grid, n: nat, p: Cell)
    requires p in g
    ensures p in Timed(g, n) && Timed(g, n)[p] == g[p]
  {}

  lemma FinderIsFree(n: nat, row: int, col: int, p: Cell)
    requires n >= 21 && IsFinder(n, row, col) && InGrid(n, p) && Ring(p.row - row - 3, p.col - col - 3) <= 4
    ensures !IsFormatCell(n, p) && !IsVersionCell(n, p)
  {}

  /** A module drawn before the format and version bits is in the finished symbol as it was drawn. */
  lemma {:induction false} SymbolKeeps(g: Grid, version: Version, level: Level, mask: MaskPattern,
                                       codewords: seq<bv8>, p: Cell)
    requires IsSymbol(g, version, level, mask, false, codewords)
    requires p in Drawn(version, PatternPosition(version))
    requires !IsFormatCell(ModuleCount(version), p) && !IsVersionCell(ModuleCount(version), p)
    ensures p in g && g[p] == Drawn(version, PatternPosition(version))[p]
  {
    hide FunctionPatterns, Mapped, PatternPosition, Drawn, IsFormatCell, IsVersionCell, ReadBits, FreeCells, Path,
         Bch.WordBits;
    var w: Bch.Word, v: Bch.Word :|
      g == Mapped(FunctionPatterns(version, PatternPosition(version), Bch.WordBits(w, 15), Bch.WordBits(v, 18), false),
                  ModuleCount(version), codewords, mask);
    OddCount(version);
    DrawnStays(version, PatternPosition(version), Bch.WordBits(w, 15), Bch.WordBits(v, 18), p);
    MappedReads(FunctionPatterns(version, PatternPosition(version), Bch.WordBits(w, 15), Bch.WordBits(v, 18), false),
                ModuleCount(version), codewords, mask);
  }

  // Alignment patterns, in the finished symbol.

  lemma {:induction false} AlignedKept(version: Version, a: nat, b: nat, p: Cell)
    requires var pos := PatternPosition(version);
             a < |pos| && b < |pos| && !IsCorner(pos, a, b) && Near(p, pos[a], pos[b])
    ensures p in Drawn(version, PatternPosition(version))
    ensures Drawn(version, PatternPosition(version))[p] ==
            (Ring(p.row - PatternPosition(version)[a], p.col - PatternPosition(version)[b]) != 1)
  {
    hide AdjustAll, Ring, Near, Timed, Wide, PatternPosition, Probe, Probes, EqualGaps, IsCorner;
    var n, pos := ModuleCount(version), PatternPosition(version);
    TableIsWide(version);
    CornerIsSet(pos, n, a, b);
    AllAlign(Probes(n), n, pos, |pos|, a, b);
    assert p in AdjustAll(Probes(n), n, pos, |pos|);
    TimedKeeps(AdjustAll(Probes(n), n, pos, |pos|), n, p);
    assert Probes(n) == Probe(n, 0, 0) + Probe(n, n - 7, 0) + Probe(n, 0, n - 7) by {
      SameProbes(n);
    }
  }

  lemma SameProbes(n: nat)
    ensures Probes(n) == Probe(n, 0, 0) + Probe(n, n - 7, 0) + Probe(n, 0, n - 7)
  {
    hide Probe;
  }

  lemma AlignedIsFree(pos: seq<nat>, n: nat, a: nat, b: nat, p: Cell)
    requires Wide(pos, n) && n >= 21 && a < |pos| && b < |pos| && !IsCorner(pos, a, b) && Near(p, pos[a], pos[b])
    ensures !IsFormatCell(n, p) && !IsVersionCell(n, p)
  {}

  /** In every finished symbol, there is an alignment pattern at every pair of positions that no finder pattern covers:
      a dark centre, a light ring and a dark ring. */
  lemma {:induction false} AlignmentIsDrawn(g: Grid, version: Version, level: Level, mask: MaskPattern,
                                            codewords: seq<bv8>, a: nat, b: nat)
    requires IsSymbol(g, version, level, mask, false, codewords)
    requires var pos := PatternPosition(version); a < |pos| && b < |pos| && !IsCorner(pos, a, b)
    ensures Aligned(g, PatternPosition(version)[a], PatternPosition(version)[b])
  {
    hide IsSymbol, Drawn, PatternPosition, Ring, Near, IsFormatCell, IsVersionCell, IsCorner, Wide, EqualGaps;
    var n, pos := ModuleCount(version), PatternPosition(version);
    TableIsWide(version);
    forall p: Cell | Near(p, pos[a], pos[b])
      ensures p in g && g[p] == (Ring(p.row - pos[a], p.col - pos[b]) != 1)
    {
      AlignedKept(version, a, b, p);
      AlignedIsFree(pos, n, a, b, p);
      SymbolKeeps(g, version, level, mask, codewords, p);
    }
  }

  // Timing lines.

  /** A module between the probes, in row 6 or in column 6, and its distance along the line. */
  predicate OnTiming(n: nat, k: nat, p: Cell) {
    8 <= k < n - 8 && (p == Cell(6, k) || p == Cell(k, 6))
  }

  /** Where an alignment pattern covers the line, its modules are dark at the even places too. */
  lemma TimingUnderPattern(pos: seq<nat>, n: nat, k: nat, p: Cell, a: nat, b: nat)
    requires Wide(pos, n) && n >= 21 && OnTiming(n, k, p) && a < |pos| && b < |pos| && Near(p, pos[a], pos[b])
    ensures (Ring(p.row - pos[a], p.col - pos[b]) != 1) == (k % 2 == 0)
  {
    Apart(pos, n, 0, |pos| - 1);
  }

  lemma TimingIsFree(n: nat, k: nat, p: Cell)
    requires n >= 21 && OnTiming(n, k, p)
    ensures p !in Probes(n) && !IsFormatCell(n, p) && !IsVersionCell(n, p)
  {
    hide Probe;
    ProbeIs(n, 0, 0, p);
    ProbeIs(n, n - 7, 0, p);
    ProbeIs(n, 0, n - 7, p);
  }

  lemma TimedIs(g: Grid, n: nat, k: nat, p: Cell)
    requires OnTiming(n, k, p)
    ensures p in Timed(g, n) && Timed(g, n)[p] == if p in g then g[p] else k % 2 == 0
  {}

  lemma {:induction false} TimingKept(version: Version, k: nat, p: Cell)
    requires OnTiming(ModuleCount(version), k, p)
    ensures p in Drawn(version, PatternPosition(version))
    ensures Drawn(version, PatternPosition(version))[p] == (k % 2 == 0)
  {
    hide AdjustAll, Ring, Near, Timed, Wide, PatternPosition, Probe, Probes, EqualGaps, OnTiming, IsFormatCell,
         IsVersionCell;
    var n, pos := ModuleCount(version), PatternPosition(version);
    var adjusted := AdjustAll(Probes(n), n, pos, |pos|);
    SameProbes(n);
    TimedIs(adjusted, n, k, p);
    TimingIsFree(n, k, p);
    AllSource(Probes(n), n, pos, |pos|, p);
    if p in adjusted {
      var a: nat, b: nat :| a < |pos| && b < |pos| && Near(p, pos[a], pos[b])
        && adjusted[p] == (Ring(p.row - pos[a], p.col - pos[b]) != 1);
      TableIsWide(version);
      TimingUnderPattern(pos, n, k, p, a, b);
    }
  }

  /** In every finished symbol, the modules of row 6 and of column 6 between the finder patterns are dark and light in
      turn, also where alignment patterns cover them. */
  lemma {:induction false} TimingIsDrawn(g: Grid, version: Version, level: Level, mask: MaskPattern,
                                         codewords: seq<bv8>, k: nat)
    requires IsSymbol(g, version, level, mask, false, codewords) && 8 <= k < ModuleCount(version) - 8
    ensures Cell(6, k) in g && Cell(k, 6) in g && g[Cell(6, k)] == g[Cell(k, 6)] == (k % 2 == 0)
  {
    hide IsSymbol, Drawn, PatternPosition, Probes, IsFormatCell, IsVersionCell;
    var n := ModuleCount(version);
    TimingKept(version, k, Cell(6, k));
    TimingIsFree(n, k, Cell(6, k));
    SymbolKeeps(g, version, level, mask, codewords, Cell(6, k));
    TimingKept(version, k, Cell(k, 6));
    TimingIsFree(n, k, Cell(k, 6));
    SymbolKeeps(g, version, level, mask, codewords, Cell(k, 6));
  }

  /** So is the dark module above the lower left separator. */
  lemma {:induction false} DarkModule(g: Grid, version: Version, level: Level, mask: MaskPattern, codewords: seq<bv8>)
    requires IsSymbol(g, version, level, mask, false, codewords)
    ensures var p := Cell(4 * version + 9, 8); p in g && g[p]
  {
    hide Mapped, PatternPosition, ReadBits, FreeCells, Path, Timed, AdjustAll, Probe, TypeLine, TypeColumn, TypeNumber,
         Bch.WordBits;
    var w: Bch.Word, v: Bch.Word :|
      g == Mapped(FunctionPatterns(version, PatternPosition(version), Bch.WordBits(w, 15), Bch.WordBits(v, 18), false),
                  ModuleCount(version), codewords, mask);
    var n, pos, p := ModuleCount(version), PatternPosition(version), Cell(ModuleCount(version) - 8, 8);
    var typed := TypeInfo(Drawn(version, pos), n, Bch.WordBits(w, 15), false);
    assert p in typed && typed[p];
    NumberLeaves(typed, version, Bch.WordBits(v, 18), p);
    OddCount(version);
    MappedReads(FunctionPatterns(version, pos, Bch.WordBits(w, 15), Bch.WordBits(v, 18), false), n, codewords, mask);
  }

  // Where format and version bits go.

  /** The first copy runs down column 8, passing by the timing line, and goes on below the dark module. */
  lemma FormatColumnIs(n: nat, i: nat)
    requires n >= 21 && i < 15
    ensures i < 14 ==> TypeRow(n, i) < TypeRow(n, i + 1)
    ensures (0 <= TypeRow(n, i) <= 8 && TypeRow(n, i) != 6) || n - 7 <= TypeRow(n, i) < n
    ensures TypeRow(n, 7) == 8 && TypeRow(n, 8) == n - 7
  {}

  /** The second copy runs along row 8 from the right edge to the left. */
  lemma FormatLineIs(n: nat, i: nat)
    requires n >= 21 && i < 15
    ensures i < 14 ==> TypeCol(n, i) > TypeCol(n, i + 1)
    ensures (0 <= TypeCol(n, i) <= 7 && TypeCol(n, i) != 6) || n - 8 <= TypeCol(n, i) < n
    ensures TypeCol(n, 7) == n - 8 && TypeCol(n, 8) == 7
  {}

  /** The version bits fill a block three modules wide row by row, and its mirror image column by column. */
  lemma VersionBlockIs(n: nat, a: nat, b: nat)
    requires a < 6 && b < 3
    ensures NumberTopCell(n, 3 * a + b) == Cell(a, n - 11 + b)
    ensures NumberSideCell(n, 3 * a + b) == Cell(n - 11 + b, a)
  {
    assert (3 * a + b) / 3 == a && (3 * a + b) % 3 == b;
  }

  // Where data bits go.

  lemma {:induction false} PairAt(n: nat, k: nat, r: nat, s: nat, x: nat)
    requires r <= s < n && x < 2
    ensures |PairCells(n, k, r)| == 2 * (n - r)
    ensures PairCells(n, k, r)[2 * (s - r) + x] == Cell(RowAt(n, k, s), Right(n, k) - x)
    decreases n - r
  {
    hide RowAt, Right;
    if r < s {
      PairAt(n, k, r + 1, s, x);
    } else if r + 1 < n {
      PairAt(n, k, r + 1, r + 1, x);
    } else {
      assert PairCells(n, k, r + 1) == [];
    }
  }

  /** The first module of a pair of columns. */
  function PairStart(n: nat, m: nat): nat {
    if m == 0 then 0 else PairStart(n, m - 1) + 2 * n
  }

  lemma {:induction false} PairStartIs(n: nat, m: nat)
    ensures PairStart(n, m) == 2 * n * m
  {
    if m > 0 {
      PairStartIs(n, m - 1);
      assert 2 * n * m == 2 * n * (m - 1) + 2 * n;
    }
  }

  lemma {:induction false} PathAt(n: nat, k: nat, m: nat, s: nat, x: nat)
    requires k <= m && 2 * m + 1 < n && s < n && x < 2
    ensures PairStart(n, m - k) + 2 * s + x < |PathFrom(n, k)|
    ensures PathFrom(n, k)[PairStart(n, m - k) + 2 * s + x] == Cell(RowAt(n, m, s), Right(n, m) - x)
    decreases m - k
  {
    hide RowAt, Right, PairCells;
    PairAt(n, k, 0, s, x);
    if k < m {
      PathAt(n, k + 1, m, s, x);
    }
  }

  /** The zig-zag takes pairs of columns from the right, upwards and downwards in turn, in each row the right module
      first, and moves one column to the left when it comes to column 6. */
  lemma {:induction false} PathGoesUpAndDown(n: nat, m: nat, s: nat, x: nat)
    requires n % 2 == 1 && 2 * m + 1 < n && s < n && x < 2
    ensures 2 * n * m + 2 * s + x < |Path(n)|
    ensures var p := Path(n)[2 * n * m + 2 * s + x];
            && (m % 2 == 0 ==> p.row + s == n - 1) && (m % 2 == 1 ==> p.row == s)
            && (p.col > 6 ==> p.col + 2 * m + x == n - 1) && (p.col <= 6 ==> p.col + 2 * m + x == n - 2)
  {
    hide PathFrom;
    PathAt(n, 0, m, s, x);
    PairStartIs(n, m);
  }
}
