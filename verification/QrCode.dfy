/** A whole symbol and the reader that undoes placement, masking, interleaving and segment coding
    (ui/qrcode-generator.js:43-265, 332-384). The block structure of each version and level is a parameter. */
module QrCode {
  import opened QrTypes
  import opened Wrappers
  import opened Bits
  import opened Segments
  import opened CodewordStream
  import opened Interleave
  import opened Bch
  import opened Matrix
  import opened QrMatrix

  /** The blocks of a version and a level. */
  type RsTable = (Version, Level) -> seq<RsBlock>

  function TotalData(rs: seq<RsBlock>): nat {
    SumOf(DataCounts(rs))
  }

  function PatternPosition(version: Version): seq<nat>
  {
    PATTERN_POSITION_TABLE[version - 1]
  }

  // The function modules, which a reader knows from the version alone.

  function FunctionCells(version: Version): set<Cell>
  {
    FunctionPatterns(version, PatternPosition(version), WordBits(0, 15), WordBits(0, 18), true).Keys
  }

  /** The blocks are ones the tables could hold, and the symbol has a free module for every bit of them. */
  predicate Roomy(version: Version, rs: seq<RsBlock>)
  {
    AllRsBlocks(rs) && 8 * TotalCount(rs) <= |FreeCells(Path(ModuleCount(version)), FunctionCells(version))|
  }

  // The reader.

  function FormatBits(g: Grid, n: nat): (bits: seq<bool>)
    ensures |bits| == 15
  {
    seq(15, i requires 0 <= i < 15 => var p := Cell(TypeRow(n, i), 8); p in g && g[p])
  }

  /** The other copy of the format bits, along row 8. */
  function FormatCopy(g: Grid, n: nat): (bits: seq<bool>)
    ensures |bits| == 15
  {
    seq(15, i requires 0 <= i < 15 => var p := Cell(8, TypeCol(n, i)); p in g && g[p])
  }

  /** The version bits beside the upper right probe, and their copy above the lower left one. */
  function VersionBits(g: Grid, n: nat): (bits: seq<bool>)
    ensures |bits| == 18
  {
    seq(18, i requires 0 <= i < 18 => var p := NumberTopCell(n, i); p in g && g[p])
  }

  function VersionCopy(g: Grid, n: nat): (bits: seq<bool>)
    ensures |bits| == 18
  {
    seq(18, i requires 0 <= i < 18 => var p := NumberSideCell(n, i); p in g && g[p])
  }

  /** The version of a symbol with n modules a side: from its size, and from its version bits where it has them. */
  function VersionRead(g: Grid, n: nat): int {
    if n < ModuleCount(7) then (n - 17) / 4 else NumberOf(VersionBits(g, n))
  }

  function ReadCodewords(bits: seq<bool>, version: Version, rs: seq<RsBlock>): Option<seq<Segment>>
  {
    if |bits| < 8 * TotalCount(rs) then None
    else
      var codewords := Pack(bits[..8 * TotalCount(rs)]);
      if TotalData(rs) > |codewords| then None
      else ParseAll(BytesToBits(DataOf(codewords, rs)), version)
  }

  /** Read the format bits, unmask along the zig-zag, de-interleave and parse. */
  function ReadSymbol(g: Grid, version: Version, table: RsTable): Option<seq<Segment>>
  {
    var n := ModuleCount(version);
    var format := FormatBits(g, n);
    ReadCodewords(ReadBits(g, n, FunctionCells(version), MaskOf(format)), version, table(version, LevelOf(format)))
  }

  // The symbol.

  /** The data codewords of some segments. */
  ghost function DataBytes(segs: seq<Segment>, version: Version, total: nat): (bytes: seq<bv8>)
    requires AllLegal(segs) && |AllBits(segs, version)| <= 8 * total
    ensures |bytes| == total
  {
    Pack(Stream(segs, version, total))
  }

  /** g is the symbol with these codewords: the format word and the version word are the ones the standard fixes. */
  ghost predicate IsSymbol(g: Grid, version: Version, level: Level, mask: MaskPattern, test: bool, codewords: seq<bv8>)
  {
    exists w: Word, v: Word |
      IsTypeWord(w ^ G15_MASK, FormatData(level, mask)) && (version >= 7 ==> IsNumberWord(v, version as Word)) ::
      g == Mapped(FunctionPatterns(version, PatternPosition(version), WordBits(w, 15), WordBits(v, 18), test),
                  ModuleCount(version), codewords, mask)
  }

  lemma CodewordsCount(data: seq<bv8>, rs: seq<RsBlock>)
    requires TotalData(rs) == |data| && AllRsBlocks(rs)
    ensures |Codewords(data, rs)| == TotalCount(rs) >= |data|
  {
    hide DataBlocks, EcBlocks, Interleaved, Lengths, TotalCount, DataCounts;
    var dc := DataBlocks(data, rs);
    TotalIsSum(data, rs);
    InterleavedLength(dc);
    InterleavedLength(EcBlocks(dc, rs));
    CodewordsRoundTrip(data, rs, []);
    assert Codewords(data, rs) + [] == Codewords(data, rs);
  }

  /** Reading the codewords of any legal segments whose counts fit gives the segments, whatever bits follow. */
  lemma {:induction false} CodewordsAreRead(segs: seq<Segment>, version: Version, rs: seq<RsBlock>, bits: seq<bool>)
    requires AllLegal(segs) && AllFit(segs, version) && |AllBits(segs, version)| <= 8 * TotalData(rs)
    requires AllRsBlocks(rs)
    requires BytesToBits(Codewords(DataBytes(segs, version, TotalData(rs)), rs)) <= bits
    ensures ReadCodewords(bits, version, rs) == Some(segs)
  {
    hide Codewords, DataOf, Stream, ParseAll, AllBits, Pack, TotalCount, BytesToBits, AllLegal, AllFit;
    var data := DataBytes(segs, version, TotalData(rs));
    var codewords := Codewords(data, rs);
    CodewordsCount(data, rs);
    assert bits[..8 * TotalCount(rs)] == BytesToBits(codewords);
    PackInverts(codewords);
    CodewordsRoundTrip(data, rs, []);
    assert codewords + [] == codewords;
    PackRoundTrip(Stream(segs, version, TotalData(rs)));
    StreamRoundTrip(segs, version, TotalData(rs));
  }

  /** Both copies of the format bits of a finished symbol are the ones that were put in. */
  lemma {:induction false} FormatIsRead(g: Grid, version: Version, w: Word, v: Word, codewords: seq<bv8>,
                                        mask: MaskPattern)
    requires g == Mapped(FunctionPatterns(version, PatternPosition(version), WordBits(w, 15), WordBits(v, 18), false),
                         ModuleCount(version), codewords, mask)
    ensures FormatBits(g, ModuleCount(version)) == FormatCopy(g, ModuleCount(version)) == WordBits(w, 15)
  {
    hide FunctionPatterns, Mapped, PatternPosition, WordBit, TypeRow, TypeCol;
    var patterns := FunctionPatterns(version, PatternPosition(version), WordBits(w, 15), WordBits(v, 18), false);
    OddCount(version);
    MappedReads(patterns, ModuleCount(version), codewords, mask);
    forall i: nat | i < 15
      ensures FormatBits(g, ModuleCount(version))[i] == FormatCopy(g, ModuleCount(version))[i] == WordBits(w, 15)[i]
    {
      TypeBitsStay(version, PatternPosition(version), WordBits(w, 15), WordBits(v, 18), i);
    }
  }

  /** So are both copies of the version bits, in the versions that have them. */
  lemma {:induction false} VersionIsRead(g: Grid, version: Version, w: Word, v: Word, codewords: seq<bv8>,
                                         mask: MaskPattern)
    requires version >= 7
    requires g == Mapped(FunctionPatterns(version, PatternPosition(version), WordBits(w, 15), WordBits(v, 18), false),
                         ModuleCount(version), codewords, mask)
    ensures VersionBits(g, ModuleCount(version)) == VersionCopy(g, ModuleCount(version)) == WordBits(v, 18)
  {
    hide FunctionPatterns, Mapped, PatternPosition, WordBit, NumberTopCell, NumberSideCell;
    var patterns := FunctionPatterns(version, PatternPosition(version), WordBits(w, 15), WordBits(v, 18), false);
    OddCount(version);
    MappedReads(patterns, ModuleCount(version), codewords, mask);
    forall i: nat | i < 18
      ensures VersionBits(g, ModuleCount(version))[i] == VersionCopy(g, ModuleCount(version))[i] == WordBits(v, 18)[i]
    {
      NumberBitsStay(version, PatternPosition(version), WordBits(w, 15), WordBits(v, 18), i);
    }
  }

  /** Every finished symbol names its version. */
  lemma {:induction false} SymbolNamesVersion(g: Grid, version: Version, level: Level, mask: MaskPattern,
                                              codewords: seq<bv8>)
    requires IsSymbol(g, version, level, mask, false, codewords)
    ensures VersionRead(g, ModuleCount(version)) == version
    ensures version >= 7 ==> VersionBits(g, ModuleCount(version)) == VersionCopy(g, ModuleCount(version))
  {
    hide FunctionPatterns, Mapped, PatternPosition, WordBits, VersionBits, VersionCopy, NumberOf, IsTypeWord,
         FormatData;
    if version >= 7 {
      var w: Word, v: Word :| IsNumberWord(v, version as Word)
        && g == Mapped(FunctionPatterns(version, PatternPosition(version), WordBits(w, 15), WordBits(v, 18), false),
                       ModuleCount(version), codewords, mask);
      VersionIsRead(g, version, w, v, codewords, mask);
      NumberReads(v, version);
    }
  }

  /** The reader sees the codewords first, then zeros. */
  lemma {:induction false} BitsAreRead(g: Grid, version: Version, w: Word, v: Word, codewords: seq<bv8>,
                                       mask: MaskPattern)
    requires g == Mapped(FunctionPatterns(version, PatternPosition(version), WordBits(w, 15), WordBits(v, 18), false),
                         ModuleCount(version), codewords, mask)
    requires 8 * |codewords| <= |FreeCells(Path(ModuleCount(version)), FunctionCells(version))|
    ensures BytesToBits(codewords) <= ReadBits(g, ModuleCount(version), FunctionCells(version), mask)
  {
    hide FunctionPatterns, Mapped, PatternPosition, WordBit, ReadBits, FreeCells, Path, BitAt;
    var patterns := FunctionPatterns(version, PatternPosition(version), WordBits(w, 15), WordBits(v, 18), false);
    FunctionCellsAreFixed(version, PatternPosition(version), WordBits(w, 15), WordBits(0, 15), WordBits(v, 18),
                          WordBits(0, 18),
                          false, true);
    OddCount(version);
    MappedReads(patterns, ModuleCount(version), codewords, mask);
  }

  /** A symbol is read back to exactly the segments that went into it, whatever its version, level and mask. */
  lemma {:induction false} SymbolRoundTrip(g: Grid, segs: seq<Segment>, version: Version, level: Level,
                                           mask: MaskPattern, table: RsTable)
    requires AllLegal(segs) && AllFit(segs, version)
    requires var rs := table(version, level); Roomy(version, rs) && |AllBits(segs, version)| <= 8 * TotalData(rs)
    requires var rs := table(version, level);
             IsSymbol(g, version, level, mask, false, Codewords(DataBytes(segs, version, TotalData(rs)), rs))
    ensures ReadSymbol(g, version, table) == Some(segs)
  {
    hide Codewords, DataBytes, FunctionPatterns, Mapped, FunctionCells, FreeCells, ReadBits, WordBits, FormatBits;
    hide AllLegal, AllFit, ReadCodewords, AllRsBlocks, TotalCount, FormatData, MaskPart, LevelPart;
    var rs := table(version, level);
    var codewords := Codewords(DataBytes(segs, version, TotalData(rs)), rs);
    CodewordsCount(DataBytes(segs, version, TotalData(rs)), rs);
    var w: Word, v: Word :| IsTypeWord(w ^ G15_MASK, FormatData(level, mask))
      && g == Mapped(FunctionPatterns(version, PatternPosition(version), WordBits(w, 15), WordBits(v, 18), false),
                     ModuleCount(version), codewords, mask);
    FormatReads(w, FormatData(level, mask));
    FormatParts(level, mask);
    FormatIsRead(g, version, w, v, codewords, mask);
    BitsAreRead(g, version, w, v, codewords, mask);
    CodewordsAreRead(segs, version, rs, ReadBits(g, ModuleCount(version), FunctionCells(version), mask));
  }
}
