/** The data URL of a finished symbol (ui/qrcode-generator.js:557-575): drawing every module as a square of pixels
    inside a margin, and reading the picture back module by module. With the GIF and base64 readers this is the last
    link of the chain from segments to text and back. */
module SymbolUrl {
  import opened QrTypes
  import opened Wrappers
  import opened Bits
  import opened Segments
  import opened CodewordStream
  import opened Matrix
  import opened QrMatrix
  import opened QrCode
  import opened QrEncoder
  import opened Lzw
  import opened LzwEnd
  import opened Gif
  import opened DataUrl

  /** How a symbol is drawn: the side of a module and the margin, in pixels. */
  datatype Drawing = Drawing(cellSize: nat, margin: nat)

  /** The defaults of createDataURL: a missing cell size, or 0, is 2; a missing margin is four modules. */
  function DrawingOf(cellSize: Option<nat>, margin: Option<nat>): (d: Drawing)
    ensures d.cellSize > 0
    ensures cellSize.Some? && cellSize.value > 0 ==> d.cellSize == cellSize.value
    ensures d.margin == if margin.Some? then margin.value else 4 * d.cellSize
  {
    var size := if cellSize.None? || cellSize.value == 0 then 2 else cellSize.value;
    Drawing(size, if margin.None? then size * 4 else margin.value)
  }

  function Size(n: nat, d: Drawing): nat {
    n * d.cellSize + d.margin * 2
  }

  /** Black is 0. A module that was never set counts as light. */
  function IsDark(g: Grid, row: nat, col: nat): bool {
    var p := Cell(row, col);
    p in g && g[p]
  }

  function PixelOf(g: Grid, n: nat, d: Drawing, x: nat, y: nat): (p: nat)
    requires d.cellSize > 0
    ensures p < 2
  {
    if d.margin <= x < d.margin + n * d.cellSize && d.margin <= y < d.margin + n * d.cellSize then
      if IsDark(g, (y - d.margin) / d.cellSize, (x - d.margin) / d.cellSize) then 0 else 1
    else 1
  }

  function Painter(g: Grid, n: nat, d: Drawing): (nat, nat) -> nat
    requires d.cellSize > 0
  {
    (x, y) => PixelOf(g, n, d, x, y)
  }

  ghost function Picture(g: Grid, n: nat, d: Drawing): Image
    requires d.cellSize > 0 && n > 0
  {
    NonemptyImage(n, d.cellSize);
    Image(Size(n, d), Size(n, d), Scan(Size(n, d), Size(n, d), Painter(g, n, d)))
  }

  /** Where the upper left pixel of a module is. */
  function Corner(width: nat, d: Drawing, p: Cell): int {
    (d.margin + p.row * d.cellSize) * width + (d.margin + p.col * d.cellSize)
  }

  predicate IsBlack(pixels: seq<nat>, k: int) {
    0 <= k < |pixels| && pixels[k] == 0
  }

  function ReadModules(image: Image, n: nat, d: Drawing): Grid {
    map p | p in AllCells(n) :: IsBlack(image.pixels, Corner(image.width, d, p))
  }

  lemma {:induction false} InsideModule(n: nat, d: Drawing, i: nat)
    requires d.cellSize > 0 && i < n
    ensures var x := d.margin + i * d.cellSize;
            d.margin <= x < d.margin + n * d.cellSize <= Size(n, d) && (x - d.margin) / d.cellSize == i
  {
    MulMono(i + 1, n, d.cellSize);
    NextRow(i, d.cellSize);
    QuotientIs(i * d.cellSize, d.cellSize, i, 0);
  }

  lemma {:induction false} PixelIsModule(g: Grid, n: nat, d: Drawing, p: Cell)
    requires d.cellSize > 0 && InGrid(n, p) && p in g
    ensures PixelOf(g, n, d, d.margin + p.col * d.cellSize, d.margin + p.row * d.cellSize) == if g[p] then 0 else 1
  {
    InsideModule(n, d, p.row);
    InsideModule(n, d, p.col);
    assert Cell(p.row, p.col) == p;
  }

  lemma {:induction false} ScanAt(width: nat, height: nat, pixel: (nat, nat) -> nat, x: nat, y: nat)
    requires x < width && y < height
    ensures y * width + x < width * height
    ensures Scan(width, height, pixel)[y * width + x] == pixel(x, y)
  {
    hide Nth;
    NthIs(width, pixel, x, y);
    RowFits(width, height, x, y);
  }

  lemma {:induction false} ModuleIsRead(g: Grid, n: nat, d: Drawing, p: Cell)
    requires d.cellSize > 0 && InGrid(n, p) && p in g
    ensures IsBlack(Picture(g, n, d).pixels, Corner(Size(n, d), d, p)) == g[p]
  {
    hide Scan, PixelOf;
    InsideModule(n, d, p.row);
    InsideModule(n, d, p.col);
    PixelIsModule(g, n, d, p);
    ScanAt(Size(n, d), Size(n, d), Painter(g, n, d), d.margin + p.col * d.cellSize, d.margin + p.row * d.cellSize);
  }

  /** A full symbol is read off its picture. */
  lemma {:induction false} PictureIsRead(g: Grid, n: nat, d: Drawing)
    requires d.cellSize > 0 && n > 0 && g.Keys == AllCells(n)
    ensures ReadModules(Picture(g, n, d), n, d) == g
  {
    hide Corner, IsBlack, Scan;
    var r := ReadModules(Picture(g, n, d), n, d);
    forall p | p in g
      ensures p in r && r[p] == g[p]
    {
      ModuleIsRead(g, n, d, p);
    }
  }

  lemma {:induction false} PictureIsLarge(g: Grid, n: nat, d: Drawing)
    requires d.cellSize > 0 && n >= 21
    ensures AllPixels(Picture(g, n, d).pixels) && |Picture(g, n, d).pixels| > MOST_LOST
  {
    hide Nth;
    var size := Size(n, d);
    MulMono(1, d.cellSize, n);
    MulMono(21, size, size);
    MulMono(21, size, 21);
    assert |Picture(g, n, d).pixels| == size * size >= 441;
    PaintsPixels(g, n, d);
    ScanIsImage(size, size, Painter(g, n, d));
  }

  lemma PaintsPixels(g: Grid, n: nat, d: Drawing)
    requires d.cellSize > 0
    ensures forall x: nat, y: nat :: Painter(g, n, d)(x, y) < 4
  {}

  /** No picture of a symbol loses its end code: every one is decoded to its pixels and its end. */
  lemma {:induction false} PictureRoundTrip(g: Grid, n: nat, d: Drawing)
    requires d.cellSize > 0 && n >= 21
    ensures var p := Picture(g, n, d).pixels;
            p != [] && AllPixels(p) && DecodeRaster(RasterBits(p)) == Decoded(p, true) && !EndIsLost(p)
  {
    hide DecodeRaster, RasterBits, EndIsLost, AllPixels, Picture;
    PictureIsLarge(g, n, d);
    var p := Picture(g, n, d).pixels;
    LargeRasterRoundTrip(p);
    RasterRoundTrip(p);
  }

  /** The whole chain: text, base64, GIF, LZW, pixels, modules, bits, codewords, segments. */
  function ReadSymbolUrl(text: Text, version: Version, table: RsTable, d: Drawing): Option<seq<Segment>>
  {
    match ReadUrl(text)
    case None => None
    case Some(image) => ReadSymbol(ReadModules(image, ModuleCount(version), d), version, table)
  }

  /** Reading the text is reading the symbol. */
  lemma {:induction false} UrlShowsSymbol(text: Text, g: Grid, version: Version, table: RsTable, d: Drawing)
    requires g.Keys == AllCells(ModuleCount(version))
    requires d.cellSize > 0 && Size(ModuleCount(version), d) < 0x10000
    requires IsUrl(text, Picture(g, ModuleCount(version), d))
    ensures ReadSymbolUrl(text, version, table, d) == ReadSymbol(g, version, table)
  {
    hide IsUrl, ReadUrl, ReadSymbol, ReadModules, Scan, AllCells, EndIsLost, DecodeRaster, RasterBits, AllPixels;
    var n := ModuleCount(version);
    UrlRoundTrip(text, Picture(g, n, d));
    PictureRoundTrip(g, n, d);
    PictureIsRead(g, n, d);
  }

  /** qrcode.createDataURL. */
  method CreateSymbolUrl(symbol: QrModules, cellSize: Option<nat>, margin: Option<nat>) returns (text: Text)
    requires symbol.Valid()
    ensures IsUrl(text, Picture(symbol.Abs(), symbol.moduleCount, DrawingOf(cellSize, margin)))
  {
    hide IsUrl, PixelOf;
    var n, d := symbol.moduleCount, DrawingOf(cellSize, margin);
    NonemptyImage(n, d.cellSize);
    text := CreateDataUrl(Size(n, d), Size(n, d), Painter(symbol.Abs(), n, d));
  }

  /** Everything at once: build the symbol of the added data and draw it. Whenever the data is legal and fits, the text
      holds exactly that data. */
  method EncodeToUrl(qr: Qrcode, cellSize: Option<nat>, margin: Option<nat>) returns (r: Result<Text>)
    requires qr.Valid()
    modifies qr
    ensures qr.Valid() && qr.dataList == old(qr.dataList)
    ensures qr.typeNumber == if old(qr.typeNumber) >= 1 || !AllLegal(qr.dataList) then old(qr.typeNumber)
                             else FirstVersion(qr.dataList, qr.table, qr.errorCorrectionLevel, 1)
    ensures r == Err(IllegalChar) <==> !AllLegal(qr.dataList)
    ensures r == Err(Overflow) <==> AllLegal(qr.dataList) && !qr.Encodable()
    ensures r.Ok? && AllFit(qr.dataList, qr.typeNumber)
            && Roomy(qr.typeNumber, qr.table(qr.typeNumber, qr.errorCorrectionLevel))
            && Size(ModuleCount(qr.typeNumber), DrawingOf(cellSize, margin)) < 0x10000 ==>
              ReadSymbolUrl(r.value, qr.typeNumber, qr.table, DrawingOf(cellSize, margin)) == Some(qr.dataList)
  {
    hide AllLegal, AllFit, Roomy, ReadSymbol, ReadSymbolUrl, HasRoom, FirstVersion, BytesLegal, QrEncoder.TableOk,
         QrModules.Abs, AllCells;
    var made := qr.Make();
    if made.Err? {
      return Err(made.error);
    }
    var d := DrawingOf(cellSize, margin);
    var text := CreateSymbolUrl(qr.symbol, cellSize, margin);
    if Size(ModuleCount(qr.typeNumber), d) < 0x10000 {
      UrlShowsSymbol(text, qr.symbol.Abs(), qr.typeNumber, qr.table, d);
    }
    r := Ok(text);
  }
}
