/** Data URLs of images (ui/qrcode-generator.js:2012-2022, 2222-2241): the image drawn pixel by pixel, its GIF, the
    base64 text of the bytes behind the prefix of the URL, and a reader that goes from the text back to the image and is
    strict about the prefix and the end code. */
module DataUrl {
  import opened Wrappers
  import opened Bits
  import opened LsbBits
  import opened Lzw
  import opened Gif
  import B64 = Base64

  type Text = seq<bv32>

  // Bytes as numbers and as words.

  function WordOf(b: nat): B64.Byte {
    var bits := LsbOf(b, 8);
    (if bits[0] then 0x01 else 0) | (if bits[1] then 0x02 else 0) | (if bits[2] then 0x04 else 0)
    | (if bits[3] then 0x08 else 0)
    | (if bits[4] then 0x10 else 0) | (if bits[5] then 0x20 else 0) | (if bits[6] then 0x40 else 0)
    | (if bits[7] then 0x80 else 0)
  }

  function ByteOf(w: B64.Byte): nat {
    LsbValue([w & 0x01 != 0, w & 0x02 != 0, w & 0x04 != 0, w & 0x08 != 0,
              w & 0x10 != 0, w & 0x20 != 0, w & 0x40 != 0, w & 0x80 != 0])
  }

  lemma ByteOfWord(b: nat)
    requires b < 256
    ensures ByteOf(WordOf(b)) == b
  {
    hide LsbOf, LsbValue, Pow2;
    PowerEight();
    LsbValueOf(b, 8);
    var bits := LsbOf(b, 8);
    assert bits == [bits[0], bits[1], bits[2], bits[3], bits[4], bits[5], bits[6], bits[7]];
  }

  function Words(bytes: seq<nat>): seq<B64.Byte> {
    seq(|bytes|, i requires 0 <= i < |bytes| => WordOf(bytes[i]))
  }

  function Bytes(words: seq<B64.Byte>): seq<nat> {
    seq(|words|, i requires 0 <= i < |words| => ByteOf(words[i]))
  }

  lemma BytesOfWords(bytes: seq<nat>)
    requires AllBytes(bytes)
    ensures Bytes(Words(bytes)) == bytes
  {
    hide WordOf, ByteOf;
    forall i: nat | i < |bytes|
      ensures Bytes(Words(bytes))[i] == bytes[i]
    {
      ByteOfWord(bytes[i]);
    }
  }

  // Images.

  /** The k-th pixel, row by row. */
  function Nth(width: nat, pixel: (nat, nat) -> nat, k: nat): nat
    requires width > 0
  {
    pixel(k % width, k / width)
  }

  function Scan(width: nat, height: nat, pixel: (nat, nat) -> nat): (s: Pixels)
    requires width > 0
    ensures |s| == width * height
  {
    seq(width * height, k requires k >= 0 => Nth(width, pixel, k))
  }

  lemma {:induction false} Position(width: nat, x: nat, y: nat)
    requires x < width
    ensures (y * width + x) / width == y && (y * width + x) % width == x
  {
    QuotientIs(y * width + x, width, y, x);
  }

  lemma {:induction false} RowFits(width: nat, height: nat, x: nat, y: nat)
    requires x < width && y < height
    ensures y * width + x < width * height
  {
    MulMono(y + 1, height, width);
    assert (y + 1) * width == y * width + width;
  }

  lemma {:induction false} NthIs(width: nat, pixel: (nat, nat) -> nat, x: nat, y: nat)
    requires x < width
    ensures Nth(width, pixel, y * width + x) == pixel(x, y)
  {
    Position(width, x, y);
  }

  /** setPixel. */
  method SetPixel(data: array<nat>, width: nat, height: nat, x: nat, y: nat, pixel: nat)
    requires x < width && y < height && data.Length == width * height
    modifies data
    ensures y * width + x < data.Length && data[..] == old(data[..])[y * width + x := pixel]
  {
    RowFits(width, height, x, y);
    data[y * width + x] := pixel;
  }

  /** The pixels of the image, set one by one. */
  method DrawImage(width: nat, height: nat, getPixel: (nat, nat) -> nat) returns (pixels: Pixels)
    requires width > 0
    ensures pixels == Scan(width, height, getPixel)
  {
    var data := new nat[width * height](_ => 0);
    hide Nth;
    ghost var done: nat := 0;
    for y := 0 to height
      invariant done == y * width
      invariant forall k: nat | k < done && k < data.Length :: data[k] == Nth(width, getPixel, k)
    {
      for x := 0 to width
        invariant forall k: nat | k < done + x && k < data.Length :: data[k] == Nth(width, getPixel, k)
      {
        NthIs(width, getPixel, x, y);
        SetPixel(data, width, height, x, y, getPixel(x, y));
      }
      NextRow(y, width);
      done := done + width;
    }
    Commute(height, width);
    pixels := data[..];
  }

  lemma NextRow(y: nat, width: nat)
    ensures (y + 1) * width == y * width + width
  {}

  lemma Commute(a: nat, b: nat)
    ensures a * b == b * a
  {}

  /** data:image/gif;base64, */
  const PREFIX: Text := [0x64, 0x61, 0x74, 0x61, 0x3a, 0x69, 0x6d, 0x61, 0x67, 0x65, 0x2f, 0x67, 0x69, 0x66, 0x3b,
                         0x62, 0x61, 0x73, 0x65, 0x36, 0x34, 0x2c]

  /** createDataURL. */
  method CreateDataUrl(width: nat, height: nat, getPixel: (nat, nat) -> nat) returns (text: Text)
    requires width > 0 && height > 0 && forall x: nat, y: nat :: getPixel(x, y) < 4
    ensures IsUrl(text, Image(width, height, Scan(width, height, getPixel)))
  {
    hide IsGif, Words, B64.Encode, B64.Base64EncodeOutputStream.Valid, AllPixels;
    var pixels := DrawImage(width, height, getPixel);
    var out := new ByteArrayOutputStream();
    ScanIsImage(width, height, getPixel);
    hide Scan;
    WriteGif(Image(width, height, pixels), out);
    text := EncodeBytes(out.bytes);
    text := PREFIX + text;
  }

  /** The second half of createDataURL. */
  method EncodeBytes(bytes: seq<nat>) returns (text: Text)
    ensures text == B64.Encode(Words(bytes))
  {
    hide WordOf, B64.Encode, B64.Base64EncodeOutputStream.Valid;
    var stream := new B64.Base64EncodeOutputStream();
    for i := 0 to |bytes|
      invariant stream.Valid() && stream.written == Words(bytes)[..i] && fresh(stream)
    {
      stream.WriteByte(WordOf(bytes[i]));
    }
    stream.Flush();
    text := stream.base64;
    assert Words(bytes)[..|bytes|] == Words(bytes);
  }

  lemma ScanIsImage(width: nat, height: nat, pixel: (nat, nat) -> nat)
    requires width > 0 && height > 0 && forall x: nat, y: nat :: pixel(x, y) < 4
    ensures Scan(width, height, pixel) != [] && AllPixels(Scan(width, height, pixel))
  {
    NonemptyImage(width, height);
    assert |Scan(width, height, pixel)| > 0;
  }

  lemma NonemptyImage(width: nat, height: nat)
    requires width > 0 && height > 0
    ensures width * height > 0
  {}

  ghost predicate IsUrl(text: Text, image: Image) {
    exists bytes :: IsGif(bytes, image) && text == PREFIX + B64.Encode(Words(bytes))
  }

  function ReadUrl(text: Text): Option<Image> {
    if !(PREFIX <= text) then None
    else
      match B64.ReadAll(text[|PREFIX|..], 0, 0)
      case None => None
      case Some(words) => ReadGif(Bytes(words))
  }

  /** Decoding the text gives the image, unless its end is lost. */
  lemma {:induction false} UrlRoundTrip(text: Text, image: Image)
    requires IsUrl(text, image) && image.width < 0x10000 && image.height < 0x10000
    requires |image.pixels| == image.width * image.height
    ensures AllPixels(image.pixels) && image.pixels != []
    ensures ReadUrl(text) == if EndIsLost(image.pixels) then None else Some(image)
  {
    hide ReadGif, Words, Bytes, B64.Encode, B64.ReadAll, EndIsLost, AllPixels, File, RasterBits, BytesToLsb, AllBytes;
    var bytes :| IsGif(bytes, image) && text == PREFIX + B64.Encode(Words(bytes));
    assert text[|PREFIX|..] == B64.Encode(Words(bytes));
    B64.RoundTrip(Words(bytes), 0);
    GifIsBytes(bytes, image);
    BytesOfWords(bytes);
    GifRoundTrip(bytes, image);
  }
}
