/** The encoder with its own block table: what it accepts is read back, without any assumption on tables. */
module Standard {
  import opened QrTypes
  import opened Wrappers
  import opened Bits
  import opened Segments
  import opened CodewordStream
  import opened Interleave
  import opened Matrix
  import opened QrMatrix
  import opened QrCode
  import opened QrEncoder
  import opened DataUrl
  import opened SymbolUrl
  import opened Capacity
  import opened RsTable

  lemma UsedIsTaken(n: nat, k: nat)
    requires k != 1
    ensures Used(n, k) == Taken(n, k)
  {
    if k > 0 {
      TotalWeight(k);
    }
    hide RowWeight;
  }

  lemma FreeModulesAre(version: Version)
    ensures var n, k := ModuleCount(version), |PATTERN_POSITION_TABLE[version - 1]|;
            FreeModules(version) == n * (n - 1) - Used(n, k)
  {
    hide Spread, Used, Taken;
    TableIsSpread(version);
    UsedIsTaken(ModuleCount(version), PositionCount(version));
  }

  /** The zig-zag of a version has at least that many free modules. */
  lemma EnoughRoom(version: Version)
    ensures FreeModules(version) <= |FreeCells(Path(ModuleCount(version)), FunctionCells(version))|
  {
    hide Spread, Used, FreeModules, FreeCells, Path, FunctionPatterns, OnPath, Bch.WordBits;
    var n := ModuleCount(version);
    OddCount(version);
    TableIsSpread(version);
    FreeModulesAre(version);
    FunctionSize(version, PatternPosition(version), Bch.WordBits(0, 15), Bch.WordBits(0, 18), true);
    FreeAtLeast(n, FunctionCells(version));
  }

  /** Every version has a free module for every bit of its codewords, at every level. */
  lemma TableIsRoomy(version: Version, level: Level)
    ensures Roomy(version, RsBlocks(version, level))
  {
    hide FreeModules, RsBlocks, TotalCount, AllRsBlocks, FreeCells, FunctionCells, Path;
    EnoughRoom(version);
    BlocksFit(version, level);
  }

  lemma TableIsOk()
    ensures TableOk(RsBlocks)
  {
    hide RsBlocks, AllRsBlocks;
  }

  // Counts.

  lemma {:induction false} SegmentIsPart(segs: seq<Segment>, version: Version, i: nat)
    requires AllLegal(segs) && i < |segs|
    ensures |Body(segs[i])| <= |AllBits(segs, version)|
    decreases |segs|
  {
    hide Legal, Body;
    if i > 0 {
      SegmentIsPart(segs[1..], version, i - 1);
    }
  }

  lemma Widths()
    ensures Pow2(8) == 256 && Pow2(9) == 512 && Pow2(10) == 1024 && Pow2(11) == 2048 && Pow2(12) == 4096
    ensures Pow2(13) == 8192 && Pow2(14) == 16384 && Pow2(16) == 65536
  {
    assert Pow2(4) == 16;
    assert Pow2(7) == 128;
    assert Pow2(10) == 1024;
    assert Pow2(13) == 8192;
  }

  lemma CountFits(s: Segment, version: Version)
    requires Legal(s) && |Body(s)| <= 8 * MostData(version)
    ensures Fits(s, version)
  {
    hide NumericBody, AlphaBody, ByteBody, Legal, Pow2;
    Widths();
    match s
    case Numeric(d) => NumericLength(d);
    case Alphanumeric(t) => AlphaLength(t);
    case Bytes(b) => ByteLength(b);
  }

  /** Whatever fits a symbol has counts that fit their fields. */
  lemma CountsFit(segs: seq<Segment>, version: Version, level: Level)
    requires AllLegal(segs) && HasRoom(segs, version, RsBlocks(version, level))
    ensures AllFit(segs, version)
  {
    hide RsBlocks, AllBits, Fits, Body, MostData, DataCounts, SumOf;
    BlocksFit(version, level);
    forall i: nat | i < |segs|
      ensures Fits(segs[i], version)
    {
      SegmentIsPart(segs, version, i);
      CountFits(segs[i], version);
    }
  }

  /** The version used for some segments. */
  function VersionFor(segs: seq<Segment>, typeNumber: nat, level: Level): (v: nat)
    requires AllLegal(segs) && typeNumber <= 40
    ensures 1 <= v <= 40
  {
    if typeNumber >= 1 then typeNumber else FirstVersion(segs, RsBlocks, level, 1)
  }

  predicate TooLong(segs: seq<Segment>, typeNumber: nat, level: Level)
    requires typeNumber <= 40
  {
    AllLegal(segs) && var v := VersionFor(segs, typeNumber, level); !HasRoom(segs, v, RsBlocks(v, level))
  }

  /** A reader that is given the modules alone. */
  function ReadModulesAlone(g: Grid, n: nat): Option<seq<Segment>> {
    var v := VersionRead(g, n);
    if 1 <= v <= 40 && ModuleCount(v) == n then ReadSymbol(g, v, RsBlocks) else None
  }

  /** Whatever createData accepts is read back from its symbol, at every version, level and mask, by a reader that finds
      version, level and mask in the symbol. */
  lemma {:induction false} EverySymbolIsRead(g: Grid, segs: seq<Segment>, version: Version, level: Level,
                                             mask: MaskPattern)
    requires AllLegal(segs) && HasRoom(segs, version, RsBlocks(version, level))
    requires var rs := RsBlocks(version, level);
             IsSymbol(g, version, level, mask, false, Codewords(DataBytes(segs, version, TotalData(rs)), rs))
    ensures ReadSymbol(g, version, RsBlocks) == ReadModulesAlone(g, ModuleCount(version)) == Some(segs)
  {
    hide RsBlocks, Codewords, DataBytes, IsSymbol, ReadSymbol, VersionRead, AllLegal, AllFit, Roomy, AllBits;
    CountsFit(segs, version, level);
    TableIsRoomy(version, level);
    var rs := RsBlocks(version, level);
    SymbolNamesVersion(g, version, level, mask, Codewords(DataBytes(segs, version, TotalData(rs)), rs));
    MadeIsRead(g, segs, version, level, mask, RsBlocks);
  }

  /** From segments to text, for every version, level and drawing. The encoder refuses illegal characters and data that
      is too long, and nothing else; the text of all other data holds exactly that data. */
  method Encode(segs: seq<Segment>, typeNumber: nat, level: Level, penalty: Penalty, cellSize: Option<nat>,
                margin: Option<nat>)
    returns (r: Result<Text>)
    requires typeNumber <= 40 && BytesLegal(segs)
    ensures r == Err(IllegalChar) <==> !AllLegal(segs)
    ensures r == Err(Overflow) <==> TooLong(segs, typeNumber, level)
    ensures r.Ok? ==> var v, d := VersionFor(segs, typeNumber, level), DrawingOf(cellSize, margin);
                      Size(ModuleCount(v), d) < 0x10000 ==> ReadSymbolUrl(r.value, v, RsBlocks, d) == Some(segs)
  {
    hide RsBlocks, AllLegal, HasRoom, AllFit, Roomy, ReadSymbolUrl, FirstVersion, TableOk, Qrcode.Valid;
    TableIsOk();
    var qr := new Qrcode(typeNumber, level, RsBlocks, penalty);
    for i := 0 to |segs|
      invariant qr.Valid() && fresh(qr) && qr.dataList == segs[..i] && qr.typeNumber == typeNumber
    {
      qr.AddSegment(segs[i]);
    }
    assert segs[..|segs|] == segs;
    r := EncodeToUrl(qr, cellSize, margin);
    if r.Ok? {
      CountsFit(segs, qr.typeNumber, level);
      TableIsRoomy(qr.typeNumber, level);
    }
  }

  /** makeQr of the page: a symbol for a text, of the smallest version that holds it. A reader gets the bytes of the
      text, and these hold the text itself exactly when QrEncoder.LowBytesHoldTextIff says so. */
  method MakeQr(text: seq<Utf8.Unit>, level: Level, penalty: Penalty) returns (r: Result<QrModules>)
    ensures r != Err(IllegalChar)
    ensures var segs := [Bytes(LowBytes(text))];
            && (r == Err(Overflow) <==> TooLong(segs, 0, level))
            && (r.Ok? ==> r.value.Valid())
            && (r.Ok? ==> ReadSymbol(r.value.Abs(), VersionFor(segs, 0, level), RsBlocks) == Some(segs))
  {
    hide RsBlocks, HasRoom, AllFit, Roomy, ReadSymbol, FirstVersion, TableOk, Qrcode.Valid, LowBytes, QrModules.Abs;
    TableIsOk();
    var qr := new Qrcode(0, level, RsBlocks, penalty);
    var ok := qr.AddData(text, "Byte");
    assert SegmentOf(text, "Byte") == Some(Bytes(LowBytes(text))) by {
      assert |"Byte"| == 4 && |"Numeric"| == 7 && |"Alphanumeric"| == 12;
    }
    assert qr.dataList == [Bytes(LowBytes(text))];
    var made := qr.Make();
    if made.Err? {
      return Err(made.error);
    }
    CountsFit(qr.dataList, qr.typeNumber, level);
    TableIsRoomy(qr.typeNumber, level);
    r := Ok(qr.symbol);
  }
}
