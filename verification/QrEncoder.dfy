/** The qrcode object: collecting segments, choosing a version and a mask, building the symbol
    (ui/qrcode-generator.js:30-73, 96-114, 332-462). The block table and the penalty of a mask are parameters. */
module QrEncoder {
  import opened QrTypes
  import opened Wrappers
  import opened Bits
  import opened BitBuffer
  import opened Segments
  import opened CodewordStream
  import opened QrMath
  import opened Interleave
  import opened Bch
  import opened Matrix
  import opened QrMatrix
  import opened QrCode
  import Utf8

  /** The penalty of a symbol, of which the encoder takes the smallest. */
  type Penalty = Grid -> real

  predicate TableOk(table: RsTable) {
    forall version: Version, level: Level :: AllRsBlocks(table(version, level))
  }

  /** The segments fit the symbol. */
  predicate HasRoom(segs: seq<Segment>, version: Version, rs: seq<RsBlock>)
    requires AllLegal(segs)
  {
    |AllBits(segs, version)| <= 8 * TotalData(rs)
  }

  /** The smallest version below 40 that holds the segments, from v on; else 40. */
  function FirstVersion(segs: seq<Segment>, table: RsTable, level: Level, v: nat): (r: nat)
    requires AllLegal(segs) && 1 <= v <= 40
    ensures v <= r <= 40 && (r < 40 ==> HasRoom(segs, r, table(r, level)))
    ensures forall u: nat | v <= u < r :: !HasRoom(segs, u, table(u, level))
    decreases 40 - v
  {
    if v == 40 || HasRoom(segs, v, table(v, level)) then v else FirstVersion(segs, table, level, v + 1)
  }

  lemma FirstVersionStep(segs: seq<Segment>, table: RsTable, level: Level, v: nat)
    requires 1 <= v < 40
    requires AllLegal(segs)
    ensures FirstVersion(segs, table, level, 40) == 40
    ensures FirstVersion(segs, table, level, v) ==
            if HasRoom(segs, v, table(v, level)) then v else FirstVersion(segs, table, level, v + 1)
  {
    hide HasRoom, AllLegal;
  }

  /** createData. */
  method CreateData(math: QRMath, version: Version, rs: seq<RsBlock>, segs: seq<Segment>) returns (r: Result<seq<bv8>>)
    requires math.Valid() && AllRsBlocks(rs) && BytesLegal(segs)
    ensures r == Err(IllegalChar) <==> !AllLegal(segs)
    ensures r == Err(Overflow) <==> AllLegal(segs) && !HasRoom(segs, version, rs)
    ensures r.Ok? ==> r.value == Codewords(DataBytes(segs, version, TotalData(rs)), rs)
  {
    hide AllBits, AllLegal, Codewords, BytesToBits, Stream, Pack;
    var total := TotalData(rs);
    var filled := FillBuffer(segs, version, total);
    match filled
    case Err(e) => r := Err(e);
    case Ok(buffer) =>
      PackInverts(buffer.buffer);
      var data := CreateBytes(math, buffer.buffer, rs);
      r := Ok(data);
  }

  lemma FormatDataIs(level: Level, mask: MaskPattern)
    ensures ((level as Word) << 3) | (mask as Word) == FormatData(level, mask) < 32
  {}

  method FormatWord(level: Level, mask: MaskPattern) returns (bits: Word)
    ensures IsTypeWord(bits ^ G15_MASK, FormatData(level, mask))
  {
    hide IsTypeWord, FormatData;
    FormatDataIs(level, mask);
    bits := GetBchTypeInfo(((level as Word) << 3) | (mask as Word));
  }

  method VersionWord(version: Version) returns (bits: Word)
    requires version <= 40
    ensures IsNumberWord(bits, version as Word)
  {
    hide IsNumberWord;
    bits := GetBchTypeNumber(version as Word);
  }

  lemma PositionsFit(version: Version)
    ensures Positions(PatternPosition(version), ModuleCount(version))
  {
    TablePositions(version);
  }

  /** The three probes of makeImpl. */
  method SetupProbes(symbol: QrModules)
    requires symbol.Valid() && symbol.Abs() == map[]
    modifies symbol.modules
    ensures var n := symbol.moduleCount; symbol.Abs() == Probe(n, 0, 0) + Probe(n, n - 7, 0) + Probe(n, 0, n - 7)
  {
    hide Probe, QrModules.Abs;
    var n := symbol.moduleCount;
    symbol.SetupPositionProbePattern(0, 0);
    symbol.SetupPositionProbePattern(n - 7, 0);
    symbol.SetupPositionProbePattern(0, n - 7);
    assert map[] + Probe(n, 0, 0) == Probe(n, 0, 0);
  }

  /** The first half of makeImpl: an empty matrix and the function patterns. */
  method FunctionModules(version: Version, level: Level, mask: MaskPattern, test: bool)
    returns (symbol: QrModules, ghost w: Word, ghost v: Word)
    ensures fresh(symbol) && fresh(symbol.modules) && symbol.Valid() && symbol.moduleCount == ModuleCount(version)
    ensures IsTypeWord(w ^ G15_MASK, FormatData(level, mask)) && (version >= 7 ==> IsNumberWord(v, version as Word))
    ensures symbol.Abs() == FunctionPatterns(version, PatternPosition(version), WordBits(w, 15), WordBits(v, 18), test)
  {
    hide Probe, AdjustAll, Timed, TypeInfo, TypeNumber, QrModules.Abs, IsTypeWord, IsNumberWord, Positions, FormatData,
         WordBits, PatternPosition, ModuleCount;
    v := 0;
    symbol := new QrModules(version);
    SetupProbes(symbol);
    var pos := PatternPosition(version);
    PositionsFit(version);
    symbol.SetupPositionAdjustPattern(pos);
    symbol.SetupTimingPattern();
    var bits := FormatWord(level, mask);
    symbol.SetupTypeInfo(test, WordBits(bits, 15));
    w := bits;
    if version >= 7 {
      bits := VersionWord(version);
      symbol.SetupTypeNumber(test, WordBits(bits, 18));
      v := bits;
    }
  }

  lemma {:induction false} MadeIsRead(g: Grid, segs: seq<Segment>, version: Version, level: Level, mask: MaskPattern,
                                      table: RsTable)
    requires AllLegal(segs) && AllFit(segs, version)
    requires var rs := table(version, level); Roomy(version, rs) && HasRoom(segs, version, rs)
    requires var rs := table(version, level);
             IsSymbol(g, version, level, mask, false, Codewords(DataBytes(segs, version, TotalData(rs)), rs))
    ensures ReadSymbol(g, version, table) == Some(segs)
  {
    SymbolRoundTrip(g, segs, version, level, mask, table);
  }

  lemma {:induction false} SymbolIsFull(g: Grid, version: Version, level: Level, mask: MaskPattern, codewords: seq<bv8>)
    requires IsSymbol(g, version, level, mask, false, codewords)
    ensures AllCells(ModuleCount(version)) <= g.Keys
  {
    hide Mapped, FunctionPatterns, PatternPosition, WordBits, IsTypeWord, IsNumberWord, AllCells;
    var w: Word, v: Word :| g == Mapped(FunctionPatterns(version, PatternPosition(version), WordBits(w, 15),
                                                         WordBits(v, 18), false),
                  ModuleCount(version), codewords, mask);
    NothingLeftUnset(version, PatternPosition(version), WordBits(w, 15), WordBits(v, 18), false, codewords, mask);
  }

  // From strings to segments. Strings are sequences of UTF-16 code units.

  /** The numbers of the code units. */
  function Codes(s: seq<Utf8.Unit>): seq<nat> {
    seq(|s|, i requires 0 <= i < |s| => s[i] as nat)
  }

  /** qrcode.stringToBytes is the function called default: the low byte of every code unit. */
  function LowBytes(s: seq<Utf8.Unit>): (bytes: seq<nat>)
    ensures |bytes| == |s| && Legal(Bytes(bytes))
  {
    seq(|s|, i requires 0 <= i < |s| => Codes(s)[i] % 256)
  }

  method StringToBytes(s: seq<Utf8.Unit>) returns (bytes: seq<nat>)
    ensures bytes == LowBytes(s)
  {
    bytes := [];
    for i := 0 to |s|
      invariant bytes == LowBytes(s)[..i]
    {
      assert LowBytes(s)[i] == Codes(s)[i] % 256;
      assert LowBytes(s)[..i + 1] == LowBytes(s)[..i] + [LowBytes(s)[i]];
      bytes := bytes + [s[i] as nat % 256];
    }
  }

  /** A reader that takes every byte for a code unit gets the text back exactly when it has no unit beyond the first
      256. */
  lemma LowBytesHoldTextIff(s: seq<Utf8.Unit>)
    ensures LowBytes(s) == Codes(s) <==> forall i: nat | i < |s| :: Codes(s)[i] < 256
  {
    assert forall i: nat | i < |s| :: LowBytes(s)[i] == Codes(s)[i] % 256;
    if LowBytes(s) == Codes(s) {
      assert forall i: nat | i < |s| :: Codes(s)[i] == Codes(s)[i] % 256;
    }
  }

  /** The characters of code units. Those that are not characters of their own become one that is, like them, illegal in
      numeric and alphanumeric segments. */
  function CharsOf(s: seq<Utf8.Unit>): string {
    seq(|s|, i requires 0 <= i < |s| => if Codes(s)[i] < 0xd800 then Codes(s)[i] as char else '?')
  }

  /** The segment addData makes of a string. Kanji needs an SJIS function, which the repository does not have, so it
      throws like an unknown mode; a missing mode is Byte. */
  function SegmentOf(data: seq<Utf8.Unit>, mode: string): (s: Option<Segment>)
    ensures s.Some? <==> mode in ["", "Byte", "Numeric", "Alphanumeric"]
  {
    if mode == "Numeric" then Some(Numeric(CharsOf(data)))
    else if mode == "Alphanumeric" then Some(Alphanumeric(CharsOf(data)))
    else if mode == "Byte" || mode == "" then Some(Bytes(LowBytes(data)))
    else None
  }

  /** The text has the characters of the code units. */
  predicate SameCodes(text: string, data: seq<Utf8.Unit>) {
    |text| == |data| && forall i: nat | i < |data| && Codes(data)[i] < 0xd800 :: text[i] as int == Codes(data)[i]
  }

  /** Which mode makes which segment. */
  lemma ModesMake(data: seq<Utf8.Unit>)
    ensures var s := SegmentOf(data, "Numeric").value; s.Numeric? && SameCodes(s.digits, data)
    ensures var s := SegmentOf(data, "Alphanumeric").value; s.Alphanumeric? && SameCodes(s.text, data)
    ensures var s := SegmentOf(data, "Byte").value;
            s.Bytes? && |s.bytes| == |data| && forall i: nat | i < |data| :: s.bytes[i] == Codes(data)[i] % 256
    ensures SegmentOf(data, "") == SegmentOf(data, "Byte")
  {}

  class Qrcode {
    var typeNumber: nat
    const errorCorrectionLevel: Level
    var dataList: seq<Segment>
    var dataCache: Option<seq<bv8>>
    var symbol: QrModules?
    const math: QRMath
    const table: RsTable
    const penalty: Penalty

    /** A cached result is the one for the segments and the version at hand. */
    ghost predicate Valid()
      reads this, math.expTable, math.logTable
    {
      && math.Valid() && TableOk(table) && typeNumber <= 40 && BytesLegal(dataList)
      && (dataCache.Some? ==> Encodable() && dataCache.value == AllCodewords())
    }

    predicate Encodable()
      requires TableOk(table)
      reads `typeNumber, `dataList
    {
      1 <= typeNumber <= 40 && AllLegal(dataList)
      && HasRoom(dataList, typeNumber, table(typeNumber, errorCorrectionLevel))
    }

    ghost function AllCodewords(): seq<bv8>
      requires TableOk(table) && Encodable()
      reads `typeNumber, `dataList
    {
      var rs := table(typeNumber, errorCorrectionLevel);
      Codewords(DataBytes(dataList, typeNumber, TotalData(rs)), rs)
    }

    constructor (typeNumber: nat, errorCorrectionLevel: Level, table: RsTable, penalty: Penalty)
      requires typeNumber <= 40 && TableOk(table)
      ensures Valid() && dataList == [] && this.typeNumber == typeNumber
      ensures this.errorCorrectionLevel == errorCorrectionLevel && this.table == table && this.penalty == penalty
    {
      this.typeNumber := typeNumber;
      this.errorCorrectionLevel := errorCorrectionLevel;
      this.table := table;
      this.penalty := penalty;
      dataList, dataCache, symbol := [], None, null;
      math := new QRMath();
    }

    method AddSegment(s: Segment)
      requires Valid() && (s.Bytes? ==> Legal(s))
      modifies this
      ensures Valid() && dataList == old(dataList) + [s] && typeNumber == old(typeNumber)
    {
      dataList := dataList + [s];
      dataCache := None;
    }

    /** Throws on the modes that have no segment, and then adds nothing. */
    method AddData(data: seq<Utf8.Unit>, mode: string) returns (ok: bool)
      requires Valid()
      modifies this
      ensures Valid() && typeNumber == old(typeNumber)
      ensures ok <==> mode in ["", "Byte", "Numeric", "Alphanumeric"]
      ensures dataList == if ok then old(dataList) + [SegmentOf(data, mode).value] else old(dataList)
    {
      var newData: Segment;
      if mode == "Numeric" {
        newData := Numeric(CharsOf(data));
      } else if mode == "Alphanumeric" {
        newData := Alphanumeric(CharsOf(data));
      } else if mode == "Byte" || mode == "" {
        var bytes := StringToBytes(data);
        newData := Bytes(bytes);
      } else {
        return false;
      }
      AddSegment(newData);
      ok := true;
    }

    method MakeImpl(test: bool, mask: MaskPattern) returns (r: Result<()>)
      requires Valid() && 1 <= typeNumber
      modifies this`symbol, this`dataCache
      ensures Valid()
      ensures r == Err(IllegalChar) <==> !AllLegal(dataList)
      ensures r == Err(Overflow) <==> AllLegal(dataList) && !Encodable()
      ensures r.Ok? ==> && symbol != null && fresh(symbol) && symbol.Valid()
                        && symbol.moduleCount == ModuleCount(typeNumber)
                        && IsSymbol(symbol.Abs(), typeNumber, errorCorrectionLevel, mask, test, AllCodewords())
    {
      hide AllLegal, HasRoom, Codewords, DataBytes, FunctionPatterns, Mapped, QrModules.Abs, WordBits, IsTypeWord,
           IsNumberWord, FormatData, PatternPosition, BytesLegal;
      ghost var w: Word, v: Word;
      symbol, w, v := FunctionModules(typeNumber, errorCorrectionLevel, mask, test);
      if dataCache == None {
        var data := CreateData(math, typeNumber, table(typeNumber, errorCorrectionLevel), dataList);
        if data.Err? {
          return Err(data.error);
        }
        dataCache := Some(data.value);
      }
      symbol.MapData(dataCache.value, mask);
      r := Ok(());
    }

    /** The mask whose test symbol has the least penalty, the first of them on a tie. */
    method GetBestMaskPattern() returns (r: Result<nat>, ghost trials: seq<Grid>)
      requires Valid() && 1 <= typeNumber
      modifies this`symbol, this`dataCache
      ensures Valid()
      ensures r == Err(IllegalChar) <==> !AllLegal(dataList)
      ensures r == Err(Overflow) <==> AllLegal(dataList) && !Encodable()
      ensures r.Ok? ==> && r.value < 8 && |trials| == 8
                        && forall i: nat | i < 8 ::
                             && IsSymbol(trials[i], typeNumber, errorCorrectionLevel, i, true, AllCodewords())
                             && penalty(trials[r.value]) <= penalty(trials[i])
                             && (i < r.value ==> penalty(trials[r.value]) < penalty(trials[i]))
    {
      hide AllLegal, HasRoom, IsSymbol, Codewords, DataBytes, TableOk, QrModules.Abs;
      var minLostPoint, pattern := 0.0, 0;
      trials := [];
      for i := 0 to 8
        invariant Valid() && |trials| == i && pattern < 8
                  && (i > 0 ==> pattern < i && AllLegal(dataList) && Encodable())
        invariant i > 0 ==> minLostPoint == penalty(trials[pattern])
        invariant forall j: nat | j < i ::
                    && IsSymbol(trials[j], typeNumber, errorCorrectionLevel, j, true, AllCodewords())
                    && minLostPoint <= penalty(trials[j]) && (j < pattern ==> minLostPoint < penalty(trials[j]))
      {
        var made := MakeImpl(true, i);
        if made.Err? {
          return Err(made.error), trials;
        }
        trials := trials + [symbol.Abs()];
        var lostPoint := penalty(symbol.Abs());
        if i == 0 || minLostPoint > lostPoint {
          minLostPoint := lostPoint;
          pattern := i;
        }
      }
      r := Ok(pattern);
    }

    /** The version loop of make. */
    method ChooseVersion() returns (r: Option<nat>)
      requires Valid()
      ensures r == None <==> !AllLegal(dataList)
      ensures r.Some? ==> r.value == FirstVersion(dataList, table, errorCorrectionLevel, 1)
    {
      hide AllLegal, AllBits, TotalData, FirstVersion, QrBitBuffer.Valid, QrBitBuffer.Contents;
      var v := 1;
      while v < 40
        invariant 1 <= v <= 40 && (v > 1 ==> AllLegal(dataList))
        invariant AllLegal(dataList) ==>
                    FirstVersion(dataList, table, errorCorrectionLevel, v)
                    == FirstVersion(dataList, table, errorCorrectionLevel, 1)
      {
        var rsBlocks := table(v, errorCorrectionLevel);
        var buffer := new QrBitBuffer();
        var ok := WriteSegments(dataList, v, buffer);
        if !ok {
          return None;
        }
        FirstVersionStep(dataList, table, errorCorrectionLevel, v);
        if buffer.length <= TotalData(rsBlocks) * 8 {
          break;
        }
        v := v + 1;
      }
      r := Some(v);
    }

    /** Choose a version unless one is set, then the mask, and build the symbol. When it succeeds, a reader takes
        exactly the added segments out of the symbol. */
    method Make() returns (r: Result<()>)
      requires Valid()
      modifies this
      ensures Valid() && dataList == old(dataList)
      ensures typeNumber == if old(typeNumber) >= 1 || !AllLegal(dataList) then old(typeNumber)
                            else FirstVersion(dataList, table, errorCorrectionLevel, 1)
      ensures r == Err(IllegalChar) <==> !AllLegal(dataList)
      ensures r == Err(Overflow) <==> AllLegal(dataList) && !Encodable()
      ensures r.Ok? ==> symbol != null && symbol.Valid() && symbol.moduleCount == ModuleCount(typeNumber)
      ensures r.Ok? ==> symbol.Abs().Keys == AllCells(symbol.moduleCount)
      ensures r.Ok? && AllFit(dataList, typeNumber) && Roomy(typeNumber, table(typeNumber, errorCorrectionLevel)) ==>
                ReadSymbol(symbol.Abs(), typeNumber, table) == Some(dataList)
    {
      hide AllLegal, HasRoom, AllFit, Roomy, ReadSymbol, IsSymbol, Codewords, DataBytes, FirstVersion, TableOk,
           BytesLegal, QrModules.Abs;
      if typeNumber < 1 {
        var chosen := ChooseVersion();
        if chosen.None? {
          return Err(IllegalChar);
        }
        typeNumber := chosen.value;
      }
      var best, _ := GetBestMaskPattern();
      if best.Err? {
        return Err(best.error);
      }
      r := MakeImpl(false, best.value);
      if r.Ok? {
        SymbolIsFull(symbol.Abs(), typeNumber, errorCorrectionLevel, best.value, AllCodewords());
        symbol.AbsInside();
      }
      if r.Ok? && AllFit(dataList, typeNumber) && Roomy(typeNumber, table(typeNumber, errorCorrectionLevel)) {
        MadeIsRead(symbol.Abs(), dataList, typeNumber, errorCorrectionLevel, best.value, table);
      }
    }
  }
}
