/** The files and pictures of the encoder as any GIF reader and any eye takes them (GIF89a, sections 17 to 27 and
    Appendix F; ui/qrcode-generator.js:2012-2090, 2222-2241, 539-563): what every field of a file says, which codes the
    raster starts from, and the colour of every pixel of a symbol. */
module GifFormat {
  import opened Wrappers
  import opened Bits
  import opened LsbBits
  import opened Lzw
  import opened Gif
  import opened DataUrl
  import opened Matrix
  import opened SymbolUrl

  datatype Colour = Colour(red: nat, green: nat, blue: nat)

  /** Fields of a file, by the places the standard gives them. */
  datatype Fields = Fields(signature: string, screenWidth: nat, screenHeight: nat, colours: seq<Colour>,
                           left: nat, top: nat, width: nat, height: nat, plain: bool, minCodeSize: nat)

  function Number(b: seq<nat>, at: nat): nat
    requires at + 1 < |b|
  {
    b[at] + 0x100 * b[at + 1]
  }

  function ColourAt(b: seq<nat>, at: nat): Colour
    requires at + 2 < |b|
  {
    Colour(b[at], b[at + 1], b[at + 2])
  }

  /** Six characters, then the screen with its two colours, then one image without colours of its own. */
  function Parse(b: seq<nat>): Option<Fields> {
    if |b| < 30 || b[10] / 0x80 != 1 || b[10] % 8 != 0 || b[19] != 0x2c then None
    else if exists i: nat | i < 6 :: b[i] >= 0x80 then None
    else
      Some(Fields(seq(6, i requires 0 <= i < 6 => b[i] as char), Number(b, 6), Number(b, 8),
                  [ColourAt(b, 13), ColourAt(b, 16)], Number(b, 20), Number(b, 22), Number(b, 24), Number(b, 26),
                  b[28] == 0, b[29]))
  }

  lemma {:induction false} FieldsOfHeader(w: nat, h: nat)
    requires w < 0x10000 && h < 0x10000
    ensures var b := Header(w, h);
            && b[0] == 'G' as nat && b[1] == 'I' as nat && b[2] == 'F' as nat && b[3] == '8' as nat
            && b[4] == '7' as nat && b[5] == 'a' as nat
            && Number(b, 6) == Number(b, 24) == w && Number(b, 8) == Number(b, 26) == h
            && Number(b, 20) == Number(b, 22) == 0
            && b[10] == 0x80 && b[19] == 0x2c && b[28] == 0
            && ColourAt(b, 13) == Colour(0, 0, 0) && ColourAt(b, 16) == Colour(0xff, 0xff, 0xff)
  {
    var d, i := ScreenDescriptor(w, h), ImageDescriptor(w, h);
    assert d[0] + 0x100 * d[1] == w && d[2] + 0x100 * d[3] == h && d[4] == 0x80;
    assert i[0] == 0x2c && i[1] == i[2] == i[3] == i[4] == 0 && i[9] == 0;
    assert i[5] + 0x100 * i[6] == w && i[7] + 0x100 * i[8] == h;
    hide ScreenDescriptor, ImageDescriptor;
    var b := Header(w, h);
    assert forall k: nat | k < 7 :: b[6 + k] == d[k];
    assert forall k: nat | k < 6 :: b[13 + k] == COLOUR_MAP[k];
    assert forall k: nat | k < 10 :: b[19 + k] == i[k];
    assert forall k: nat | k < 6 :: b[k] == SIGNATURE[k];
  }

  /** What a reader finds in the file of an image: the signature, the size twice, black as colour 0 and white as
      colour 1, one plain image in the upper left corner, a code size of two bits, and the trailer at the end. */
  lemma {:induction false} FileSays(bytes: seq<nat>, image: Image)
    requires IsGif(bytes, image) && image.width < 0x10000 && image.height < 0x10000
    ensures Parse(bytes) ==
            Some(Fields("GIF87a", image.width, image.height, [Colour(0, 0, 0), Colour(255, 255, 255)],
                        0, 0, image.width, image.height, true, 2))
    ensures bytes[|bytes| - 2..] == [0, 0x3b]
  {
    hide RasterBits, BytesToLsb, AllPixels, AllBytes, Blocks, Header, Number, ColourAt;
    var raster :| BytesToLsb(raster) == RasterBits(image.pixels) && bytes == File(image.width, image.height, raster);
    FileParts(image.width, image.height, raster);
    FieldsOfHeader(image.width, image.height);
    HeaderFields(bytes, Header(image.width, image.height));
    assert seq(6, i requires 0 <= i < 6 => bytes[i] as char) == "GIF87a";
  }

  lemma HeaderFields(b: seq<nat>, header: seq<nat>)
    requires |header| == 29 && |b| >= 30 && b[..29] == header
    ensures forall at: nat | at < 28 :: Number(b, at) == Number(header, at)
    ensures forall at: nat | at < 27 :: ColourAt(b, at) == ColourAt(header, at)
    ensures forall at: nat | at < 29 :: b[at] == header[at]
  {}

  /** The codes of a raster with that code size: one for each of its pixels, then the clear code and the end code; codes
      start one bit wider. */
  lemma CodesOfSize(m: nat)
    requires m == 2
    ensures CLEAR == Pow2(m) && END == Pow2(m) + 1 && |InitialTable()| == Pow2(m) + 2
    ensures forall i: nat | i < Pow2(m) :: InitialTable()[i] == [i]
    ensures forall bits :: DecodeRaster(bits) == Decode(bits, InitialTable(), m + 1, [])
  {}

  /** The width in which a decoder with this many entries reads the next code: enough for the next entry, and no more,
      up to twelve bits. */
  predicate IsWidth(size: nat, width: nat) {
    && 3 <= width <= 12 && (size < Pow2(width) || width == 12)
    && (width == 3 || Pow2(width - 1) <= size)
  }

  /** The decoder always reads codes in that width. The encoder, one entry ahead, writes each code as wide as the
      decoder reads it. */
  lemma {:induction false} WidthsAreTight(size: nat, width: nat)
    requires 6 <= size
    ensures IsWidth(size, width) ==> IsWidth(size, ReadWidth(size, width))
    ensures IsWidth(size, width) ==> IsWidth(size + 1, ReadWidth(size + 1, width))
    ensures size < 4095 && IsWidth(size - 1, width) ==> IsWidth(size, NextWidth(size, width))
    ensures NextWidth(4095, width) == width
  {
    Powers();
    if 3 <= width {
      assert Pow2(width) == 2 * Pow2(width - 1) && Pow2(width + 1) == 2 * Pow2(width);
    }
    if width < 11 {
      PowersRise(width, 11);
    }
  }

  // Pictures.

  /** The colour of a pixel of a picture. */
  function Shown(image: Image, x: nat, y: nat): Option<Colour> {
    var k := y * image.width + x;
    if x >= image.width || k >= |image.pixels| then None
    else if image.pixels[k] == 0 then Some(Colour(0, 0, 0))
    else if image.pixels[k] == 1 then Some(Colour(255, 255, 255))
    else None
  }

  /** Every pixel of a module's square has the colour of the module. */
  lemma {:induction false} ModuleIsShown(g: Grid, n: nat, d: Drawing, p: Cell, i: nat, j: nat)
    requires n > 0 && InGrid(n, p) && i < d.cellSize && j < d.cellSize
    ensures Shown(Picture(g, n, d), d.margin + p.col * d.cellSize + i, d.margin + p.row * d.cellSize + j) ==
            Some(if p in g && g[p] then Colour(0, 0, 0) else Colour(255, 255, 255))
  {
    hide Scan, PixelOf;
    var x, y := d.margin + p.col * d.cellSize + i, d.margin + p.row * d.cellSize + j;
    PixelInModule(g, n, d, p, i, j);
    InsideSquare(n, d, p.col, i);
    InsideSquare(n, d, p.row, j);
    ScanAt(Size(n, d), Size(n, d), Painter(g, n, d), x, y);
  }

  lemma {:induction false} InsideSquare(n: nat, d: Drawing, c: nat, i: nat)
    requires c < n && i < d.cellSize
    ensures var x := d.margin + c * d.cellSize + i;
            d.margin <= x < d.margin + n * d.cellSize <= Size(n, d) && (x - d.margin) / d.cellSize == c
  {
    MulMono(c + 1, n, d.cellSize);
    assert (c + 1) * d.cellSize == c * d.cellSize + d.cellSize;
    QuotientIs(c * d.cellSize + i, d.cellSize, c, i);
  }

  lemma {:induction false} PixelInModule(g: Grid, n: nat, d: Drawing, p: Cell, i: nat, j: nat)
    requires InGrid(n, p) && i < d.cellSize && j < d.cellSize
    ensures PixelOf(g, n, d, d.margin + p.col * d.cellSize + i, d.margin + p.row * d.cellSize + j) ==
            if p in g && g[p] then 0 else 1
  {
    InsideSquare(n, d, p.col, i);
    InsideSquare(n, d, p.row, j);
    assert Cell(p.row, p.col) == p;
  }

  /** Every pixel of the margin is white. */
  lemma {:induction false} MarginIsWhite(g: Grid, n: nat, d: Drawing, x: nat, y: nat)
    requires n > 0 && d.cellSize > 0 && x < Size(n, d) && y < Size(n, d)
    requires x < d.margin || x >= Size(n, d) - d.margin || y < d.margin || y >= Size(n, d) - d.margin
    ensures Shown(Picture(g, n, d), x, y) == Some(Colour(255, 255, 255))
  {
    hide Scan;
    ScanAt(Size(n, d), Size(n, d), Painter(g, n, d), x, y);
  }

  // The text of a data URL before its data is data:image/gif;base64, character by character.

  predicate Spells(i: nat, c: char) {
    i < |PREFIX| && PREFIX[i] as int == c as int
  }

  lemma PrefixStarts()
    ensures |PREFIX| == 22
    ensures Spells(0, 'd') && Spells(1, 'a') && Spells(2, 't') && Spells(3, 'a') && Spells(4, ':') && Spells(5, 'i')
    ensures Spells(6, 'm') && Spells(7, 'a') && Spells(8, 'g') && Spells(9, 'e') && Spells(10, '/')
  {}

  lemma PrefixEnds()
    ensures |PREFIX| == 22
    ensures Spells(11, 'g') && Spells(12, 'i') && Spells(13, 'f') && Spells(14, ';') && Spells(15, 'b')
    ensures Spells(16, 'a') && Spells(17, 's') && Spells(18, 'e')
    ensures Spells(19, '6') && Spells(20, '4') && Spells(21, ',')
  {}
}
