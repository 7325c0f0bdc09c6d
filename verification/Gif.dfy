/** The GIF file around the raster data (ui/qrcode-generator.js:1826-1870, 2012-2090, 2222-2229), and a reader
    of the files this encoder writes. */
module Gif {
  import opened Wrappers
  import opened LsbBits
  import opened Lzw
  import opened LzwEncoder

  datatype Image = Image(width: nat, height: nat, pixels: Pixels)

  /** Two bytes, low byte first. */
  function Short(n: nat): seq<nat> {
    [n % 256, n / 256 % 256]
  }

  const SIGNATURE: seq<nat> := [0x47, 0x49, 0x46, 0x38, 0x37, 0x61]

  function ScreenDescriptor(width: nat, height: nat): (bytes: seq<nat>)
    ensures |bytes| == 7
  {
    Short(width) + Short(height) + [0x80, 0, 0]
  }

  /** Black and white. */
  const COLOUR_MAP: seq<nat> := [0x00, 0x00, 0x00, 0xff, 0xff, 0xff]

  function ImageDescriptor(width: nat, height: nat): (bytes: seq<nat>)
    ensures |bytes| == 10
  {
    [0x2c] + Short(0) + Short(0) + Short(width) + Short(height) + [0]
  }

  function Header(width: nat, height: nat): (bytes: seq<nat>)
    ensures |bytes| == 29
  {
    SIGNATURE + ScreenDescriptor(width, height) + COLOUR_MAP + ImageDescriptor(width, height)
  }

  /** The raster in blocks of at most 255 bytes, each behind its length. */
  function Blocks(raster: seq<nat>): seq<nat> {
    if |raster| > 255 then [255] + raster[..255] + Blocks(raster[255..]) else [|raster|] + raster
  }

  function File(width: nat, height: nat, raster: seq<nat>): seq<nat> {
    Header(width, height) + [2] + Blocks(raster) + [0, 0x3b]
  }

  ghost predicate IsGif(bytes: seq<nat>, image: Image) {
    && image.pixels != [] && AllPixels(image.pixels)
    && exists raster :: AllBytes(raster) && BytesToLsb(raster) == RasterBits(image.pixels)
                        && bytes == File(image.width, image.height, raster)
  }

  // The reader.

  /** The contents of the blocks up to the empty one, and what follows. */
  function ReadBlocks(bytes: seq<nat>): Option<(seq<nat>, seq<nat>)>
    decreases |bytes|
  {
    if bytes == [] then None
    else if bytes[0] == 0 then Some(([], bytes[1..]))
    else if 1 + bytes[0] > |bytes| then None
    else
      match ReadBlocks(bytes[1 + bytes[0]..])
      case None => None
      case Some((more, rest)) => Some((bytes[1..1 + bytes[0]] + more, rest))
  }

  /** The size in the header and what the raster decodes to. */
  function ReadFile(bytes: seq<nat>): Option<(nat, nat, Decoded)> {
    if |bytes| < 30 then None
    else
      var width, height := bytes[6] + 256 * bytes[7], bytes[8] + 256 * bytes[9];
      if bytes[..29] != Header(width, height) || bytes[29] != 2 then None
      else
        match ReadBlocks(bytes[30..])
        case None => None
        case Some((raster, rest)) =>
          if rest != [0x3b] then None else Some((width, height, DecodeRaster(BytesToLsb(raster))))
  }

  /** A strict reader: the raster has the pixels its header announces, and an end code. */
  function ReadGif(bytes: seq<nat>): Option<Image> {
    match ReadFile(bytes)
    case None => None
    case Some((width, height, decoded)) =>
      if decoded.ended && |decoded.pixels| == width * height then Some(Image(width, height, decoded.pixels)) else None
  }

  lemma {:induction false} BlocksAreRead(raster: seq<nat>, rest: seq<nat>)
    requires raster != []
    ensures ReadBlocks(Blocks(raster) + [0] + rest) == Some((raster, rest))
    decreases |raster|
  {
    var bytes := Blocks(raster) + [0] + rest;
    if |raster| > 255 {
      var more := Blocks(raster[255..]) + [0] + rest;
      BlocksAreRead(raster[255..], rest);
      assert bytes == [255] + raster[..255] + more;
      assert bytes[1..256] == raster[..255] && bytes[256..] == more;
      assert raster == raster[..255] + raster[255..];
    } else {
      var n := |raster|;
      assert bytes == [n] + raster + ([0] + rest);
      assert bytes[1..1 + n] == raster && bytes[1 + n..] == [0] + rest;
      assert ([0] + rest)[1..] == rest;
      assert raster + [] == raster;
    }
  }

  lemma ShortIsRead(n: nat)
    requires n < 0x10000
    ensures Short(n)[0] + 256 * Short(n)[1] == n
  {}

  lemma HeaderIsRead(width: nat, height: nat)
    requires width < 0x10000 && height < 0x10000
    ensures var h := Header(width, height); h[6] + 256 * h[7] == width && h[8] + 256 * h[9] == height
  {
    ShortIsRead(width);
    ShortIsRead(height);
    hide Short, ImageDescriptor;
    var h, d := Header(width, height), ScreenDescriptor(width, height);
    assert h[6] == d[0] && h[7] == d[1] && h[8] == d[2] && h[9] == d[3];
  }

  lemma RasterIsNonempty(raster: seq<nat>, pixels: Pixels)
    requires pixels != [] && AllPixels(pixels) && BytesToLsb(raster) == RasterBits(pixels)
    ensures raster != []
  {
    hide EncodeAll, Padding;
    assert |RasterBits(pixels)| >= 3;
  }

  lemma FileParts(width: nat, height: nat, raster: seq<nat>)
    requires width < 0x10000 && height < 0x10000
    ensures var b := File(width, height, raster);
            && |b| >= 30 && b[..29] == Header(width, height) && b[29] == 2 && b[30..] == Blocks(raster) + [0] + [0x3b]
            && b[6] + 256 * b[7] == width && b[8] + 256 * b[9] == height
  {
    hide Header, Blocks;
    var b, header := File(width, height, raster), Header(width, height);
    HeaderIsRead(width, height);
    assert b == header + [2] + (Blocks(raster) + [0] + [0x3b]);
    assert b[6] == header[6] && b[7] == header[7] && b[8] == header[8] && b[9] == header[9];
  }

  /** The file of an image is read back to its size and its pixels; a strict reader takes it unless its end is lost. */
  lemma {:induction false} GifRoundTrip(bytes: seq<nat>, image: Image)
    requires IsGif(bytes, image) && image.width < 0x10000 && image.height < 0x10000
    requires |image.pixels| == image.width * image.height
    ensures ReadFile(bytes) == Some((image.width, image.height, Decoded(image.pixels, !EndIsLost(image.pixels))))
    ensures ReadGif(bytes) == if EndIsLost(image.pixels) then None else Some(image)
  {
    hide File, Header, Blocks, ReadBlocks, BytesToLsb, RasterBits, DecodeRaster, AllPixels, AllBytes, EndIsLost;
    var raster :| BytesToLsb(raster) == RasterBits(image.pixels) && bytes == File(image.width, image.height, raster);
    RasterIsNonempty(raster, image.pixels);
    BlocksAreRead(raster, [0x3b]);
    RasterRoundTrip(image.pixels);
    FileParts(image.width, image.height, raster);
  }

  /** Every element of the file is a byte. */
  lemma {:induction false} GifIsBytes(bytes: seq<nat>, image: Image)
    requires IsGif(bytes, image)
    ensures AllBytes(bytes)
  {
    hide RasterBits, BytesToLsb, AllPixels;
    var raster :| AllBytes(raster) && BytesToLsb(raster) == RasterBits(image.pixels)
                  && bytes == File(image.width, image.height, raster);
    BlocksAreBytes(raster);
    HeaderIsBytes(image.width, image.height);
    var header, blocks := Header(image.width, image.height), Blocks(raster);
    AllBytesConcat(header, [2]);
    AllBytesConcat(header + [2], blocks);
    AllBytesConcat(header + [2] + blocks, [0, 0x3b]);
  }

  lemma AllBytesConcat(a: seq<nat>, b: seq<nat>)
    requires AllBytes(a) && AllBytes(b)
    ensures AllBytes(a + b)
  {}

  lemma HeaderIsBytes(width: nat, height: nat)
    ensures AllBytes(Header(width, height))
  {
    assert AllBytes(ScreenDescriptor(width, height));
    assert AllBytes(ImageDescriptor(width, height));
    hide ScreenDescriptor, ImageDescriptor;
  }

  lemma {:induction false} BlocksAreBytes(raster: seq<nat>)
    requires AllBytes(raster)
    ensures AllBytes(Blocks(raster))
    decreases |raster|
  {
    if |raster| > 255 {
      BlocksAreBytes(raster[255..]);
    }
  }

  // The writer.

  /** The n elements of b from off on, 0 past the end. */
  function Part(b: seq<nat>, off: nat, n: nat): seq<nat> {
    seq(n, i requires i >= 0 => if off + i < |b| then b[off + i] else 0)
  }

  class ByteArrayOutputStream {
    var bytes: seq<nat>

    constructor ()
      ensures bytes == []
    {
      bytes := [];
    }

    method WriteByte(b: nat)
      modifies this
      ensures bytes == old(bytes) + [b % 256]
    {
      bytes := bytes + [b % 256];
    }

    method WriteShort(i: nat)
      modifies this
      ensures bytes == old(bytes) + Short(i)
    {
      WriteByte(i);
      WriteByte(i / 256);
    }

    /** Length 0 stands for the length of b. Reading past the end of b gives 0. */
    method WriteBytes(b: seq<nat>, off: nat, len: nat)
      requires AllBytes(b)
      modifies this
      ensures bytes == old(bytes) + Part(b, off, if len == 0 then |b| else len)
      ensures 0 < len && off + len <= |b| ==> bytes == old(bytes) + b[off..off + len]
    {
      var n := if len == 0 then |b| else len;
      for i := 0 to n
        invariant bytes == old(bytes) + Part(b, off, i)
      {
        WriteByte(if i + off < |b| then b[i + off] else 0);
      }
      assert off + n <= |b| ==> Part(b, off, n) == b[off..off + n];
    }

    method WriteString(s: seq<nat>)
      requires AllBytes(s)
      modifies this
      ensures bytes == old(bytes) + s
    {
      for i := 0 to |s|
        invariant bytes == old(bytes) + s[..i]
      {
        WriteByte(s[i]);
      }
    }
  }

  method WriteScreenDescriptor(width: nat, height: nat, out: ByteArrayOutputStream)
    modifies out
    ensures out.bytes == old(out.bytes) + ScreenDescriptor(width, height)
  {
    hide Short;
    out.WriteShort(width);
    out.WriteShort(height);
    out.WriteByte(0x80);
    out.WriteByte(0);
    out.WriteByte(0);
  }

  method WriteColourMap(out: ByteArrayOutputStream)
    modifies out
    ensures out.bytes == old(out.bytes) + COLOUR_MAP
  {
    out.WriteByte(0x00);
    out.WriteByte(0x00);
    out.WriteByte(0x00);
    out.WriteByte(0xff);
    out.WriteByte(0xff);
    out.WriteByte(0xff);
  }

  method WriteImageDescriptor(width: nat, height: nat, out: ByteArrayOutputStream)
    modifies out
    ensures out.bytes == old(out.bytes) + ImageDescriptor(width, height)
  {
    hide Short;
    out.WriteString([0x2c]);
    out.WriteShort(0);
    out.WriteShort(0);
    out.WriteShort(width);
    out.WriteShort(height);
    out.WriteByte(0);
  }

  method WriteHeader(width: nat, height: nat, out: ByteArrayOutputStream)
    modifies out
    ensures out.bytes == old(out.bytes) + Header(width, height)
  {
    hide ScreenDescriptor, ImageDescriptor;
    out.WriteString(SIGNATURE);
    WriteScreenDescriptor(width, height, out);
    WriteColourMap(out);
    WriteImageDescriptor(width, height, out);
  }

  /** The loop that cuts the raster into blocks. */
  method WriteBlocks(raster: seq<nat>, out: ByteArrayOutputStream)
    requires raster != [] && AllBytes(raster)
    modifies out
    ensures out.bytes == old(out.bytes) + Blocks(raster)
  {
    hide Blocks, AllBytes;
    ghost var before := out.bytes;
    var offset := 0;
    while |raster| - offset > 255
      invariant offset < |raster|
      invariant out.bytes + Blocks(raster[offset..]) == before + Blocks(raster)
    {
      FullBlock(raster, offset);
      ghost var written := out.bytes;
      out.WriteByte(255);
      out.WriteBytes(raster, offset, 255);
      assert out.bytes + Blocks(raster[offset + 255..]) == written + Blocks(raster[offset..]);
      offset := offset + 255;
    }
    LastBlock(raster, offset);
    out.WriteByte(|raster| - offset);
    out.WriteBytes(raster, offset, |raster| - offset);
  }

  lemma FullBlock(raster: seq<nat>, offset: nat)
    requires offset + 255 < |raster|
    ensures Blocks(raster[offset..]) == [255] + raster[offset..offset + 255] + Blocks(raster[offset + 255..])
  {
    var rest := raster[offset..];
    assert rest[..255] == raster[offset..offset + 255] && rest[255..] == raster[offset + 255..];
  }

  lemma LastBlock(raster: seq<nat>, offset: nat)
    requires offset < |raster| <= offset + 255
    ensures Blocks(raster[offset..]) == [|raster| - offset] + raster[offset..offset + (|raster| - offset)]
  {}

  method WriteGif(image: Image, out: ByteArrayOutputStream)
    requires image.pixels != [] && AllPixels(image.pixels) && out.bytes == []
    modifies out
    ensures IsGif(out.bytes, image)
  {
    hide Header, Blocks, BytesToLsb, RasterBits, AllPixels, AllBytes;
    WriteHeader(image.width, image.height, out);
    var raster := GetLzwRaster(image.pixels);
    out.WriteByte(2);
    RasterIsNonempty(raster, image.pixels);
    WriteBlocks(raster, out);
    out.WriteByte(0x00);
    out.WriteByte(0x3b);
    assert out.bytes == File(image.width, image.height, raster);
  }
}
