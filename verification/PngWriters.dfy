/** The encoders, and what decoding their files gives back. */
module PngWriters {
  import opened Common
  import Crc
  import opened PngFilter
  import opened PngChunks
  import opened PngImage
  import opened PngRows

  /** A file of rows; none when a number does not fit in 32 bits. */
  function Encoded(z: Zlib, width: nat, height: nat, colour: byte, raw: seq<byte>): Option<seq<byte>> {
    if width < WORDS && height < WORDS && |z.deflate(raw)| < WORDS
    then Some(SignedFile(FileChunks(width, height, colour, z.deflate(raw))))
    else None
  }

  /** The image has, at (x, y), all the bytes of the pixel. */
  ghost predicate Shows(image: Image, pixel: Pixels, x: nat, y: nat) {
    image.Samples(x, y) == pixel(x, y)
  }

  /** The image has these sizes and every pixel. */
  ghost predicate ShowsAll(image: Option<Image>, pixel: Pixels, width: nat, height: nat, channels: nat) {
    && image.Some? && image.value.Valid()
    && image.value.width == width && image.value.height == height && image.value.channels == channels
    && forall x: nat, y: nat :: x < width && y < height ==> Shows(image.value, pixel, x, y)
  }

  lemma RestoredShowsAll(pixel: Pixels, width: nat, height: nat, bpp: nat)
    requires 3 <= bpp <= 4 && Sized(pixel, bpp)
    ensures var data := Restored(Lines(pixel, width, height), width * bpp, height, bpp);
            ShowsAll(Some(Image(width, height, bpp, data)), pixel, width, height, bpp)
  {
    var data := Restored(Lines(pixel, width, height), width * bpp, height, bpp);
    var image := Image(width, height, bpp, data);
    assert width * bpp == 0 ==> height * (width * bpp) == 0;
    forall x: nat, y: nat | x < width && y < height
      ensures Shows(image, pixel, x, y)
    {
      PixelIsDecoded(pixel, bpp, width, height, data, x, y);
    }
  }

  /** Decoding a file of rows gives every pixel that was stored. */
  lemma RowsAreDecoded(z: Zlib, pixel: Pixels, width: nat, height: nat, colour: byte)
    requires Lossless(z) && (colour == 2 || colour == 6) && Sized(pixel, Channels(colour))
    ensures var file := Encoded(z, width, height, colour, Lines(pixel, width, height));
            && (file.Some? <==> Fits(z, width, height, Lines(pixel, width, height)))
            && (file.Some? ==> ShowsAll(Decode(z, file.value), pixel, width, height, Channels(colour)))
  {
    var raw := Lines(pixel, width, height);
    if Encoded(z, width, height, colour, raw).Some? {
      DecodeOfFile(z, width, height, colour, raw);
      RestoredShowsAll(pixel, width, height, Channels(colour));
    }
  }

  // ---- Chunks and files ----

  method WriteWord(out: array<byte>, n: nat, at: nat)
    requires n < WORDS && at + 4 <= out.Length
    modifies out
    ensures out[..at + 4] == old(out[..at]) + BigEndian(n) && out[at + 4..] == old(out[at + 4..])
  {
    var end := StoreBytes(BigEndian(n), out, at);
  }

  /** A chunk written into one buffer, its CRC from the table. */
  method TableChunk(table: array<Crc.Word>, kind: seq<byte>, data: seq<byte>) returns (chunk: Option<seq<byte>>)
    requires table.Length == 256 && Crc.IsTable(table[..], 256) && |kind| == 4
    ensures chunk == if |data| < WORDS then Some(Stored(Chunk(kind, data))) else None
  {
    if |data| >= WORDS {
      return None;
    }
    var out := new byte[12 + |data|](_ => 0);
    var at := StoreParts(kind, data, out);
    assert out[4..at] == kind + data;
    var crc := Crc.TableCrc(table, out[4..at]);
    at := StoreBytes(WordBytes(crc), out, at);
    assert out[..] == out[..at];
    chunk := Some(out[..]);
  }

  /** Length, type and data at the start of a chunk's buffer. */
  method StoreParts(kind: seq<byte>, data: seq<byte>, out: array<byte>) returns (at: nat)
    requires |kind| == 4 && |data| < WORDS && 8 + |data| <= out.Length
    modifies out
    ensures at == 8 + |data| && out[..at] == BigEndian(|data|) + kind + data
  {
    WriteWord(out, |data|, 0);
    at := StoreBytes(kind, out, 4);
    at := StoreBytes(data, out, at);
  }

  /** A chunk joined from a head, the data and a tail, its CRC bit by bit. */
  method BitChunk(kind: seq<byte>, data: seq<byte>) returns (chunk: Option<seq<byte>>)
    requires |kind| == 4
    ensures chunk == if |data| < WORDS then Some(Stored(Chunk(kind, data))) else None
  {
    if |data| >= WORDS {
      return None;
    }
    var head := BigEndian(|data|) + kind;
    var crc := Crc.BitCrc(kind + data);
    chunk := Some(head + data + WordBytes(crc));
  }

  method Header(width: nat, height: nat, colour: byte) returns (header: array<byte>)
    requires width < WORDS && height < WORDS
    ensures fresh(header) && header[..] == HeaderData(width, height, colour)
  {
    header := new byte[13](_ => 0);
    WriteWord(header, width, 0);
    assert header[8..] == header[4..][4..] == [0, 0, 0, 0, 0];
    WriteWord(header, height, 4);
    ghost var sizes := header[..8];
    header[8], header[9] := 8, colour;
    assert header[..8] == sizes && header[8..] == [8, colour, 0, 0, 0];
    assert header[..] == header[..8] + header[8..];
  }

  lemma StoredFirst(c: Chunk, rest: seq<Chunk>)
    requires c.Valid() && forall d :: d in rest ==> d.Valid()
    ensures StoredAll([c] + rest) == Stored(c) + StoredAll(rest)
  {
    assert ([c] + rest)[1..] == rest;
  }

  /** The file of its three chunks. */
  lemma FileOf(header: seq<byte>, packed: seq<byte>, ihdr: seq<byte>, idat: seq<byte>, iend: seq<byte>)
    requires |header| == 13 && |packed| < WORDS
    ensures ihdr == Stored(Chunk(IHDR, header)) && idat == Stored(Chunk(IDAT, packed))
            && iend == Stored(Chunk(IEND, [])) ==>
      SignedFile(ThreeChunks(header, packed)) == SIGNATURE + (ihdr + (idat + iend))
  {
    var none: seq<Chunk> := [];
    var first, second, third := Chunk(IHDR, header), Chunk(IDAT, packed), Chunk(IEND, []);
    StoredFirst(third, none);
    assert [third] + none == [third] && iend + [] == iend;
    StoredFirst(second, [third]);
    StoredFirst(first, [second] + [third]);
  }

  /** The whole file, byte by byte: the signature, and chunks of a header, of this image data and of the end. */
  ghost predicate IsPng(file: seq<byte>, header: seq<byte>, packed: seq<byte>) {
    && |file| == 57 + |packed| && |header| == 13 && Field(file, 0, SIGNATURE)
    && HasChunk(file, 8, IHDR, header) && HasChunk(file, 33, IDAT, packed) && HasChunk(file, 45 + |packed|, IEND, [])
  }

  /** The files of three chunks are such files. */
  lemma FileIsPng(header: seq<byte>, packed: seq<byte>)
    requires |header| == 13 && |packed| < WORDS
    ensures IsPng(SignedFile(ThreeChunks(header, packed)), header, packed)
  {
    var first, second, third := Chunk(IHDR, header), Chunk(IDAT, packed), Chunk(IEND, []);
    FileOf(header, packed, Stored(first), Stored(second), Stored(third));
    StoredIsChunk(first);
    StoredIsChunk(second);
    StoredIsChunk(third);
    PartsArePng(SignedFile(ThreeChunks(header, packed)), header, packed, Stored(first), Stored(second), Stored(third));
  }

  /** A stored chunk is where it was put. */
  lemma ChunkIsAt(file: seq<byte>, before: seq<byte>, chunk: seq<byte>, after: seq<byte>, at: nat, kind: seq<byte>,
                  data: seq<byte>)
    requires HasChunk(chunk, 0, kind, data) && at == |before| && file == before + chunk + after
    ensures HasChunk(file, at, kind, data)
  {
    ChunkIsMoved(chunk, before, after, 0, kind, data);
  }

  lemma Regroup(s: seq<byte>, a: seq<byte>, b: seq<byte>, c: seq<byte>)
    ensures var file := s + (a + (b + c));
            && file == [] + s + (a + (b + c)) && file == s + a + (b + c)
            && file == (s + a) + b + c && file == (s + a + b) + c + []
  {
  }

  lemma PartsArePng(file: seq<byte>, header: seq<byte>, packed: seq<byte>, a: seq<byte>, b: seq<byte>, c: seq<byte>)
    requires |header| == 13 && |a| == 25 && |b| == 12 + |packed| && |c| == 12
    requires file == SIGNATURE + (a + (b + c))
    requires HasChunk(a, 0, IHDR, header) && HasChunk(b, 0, IDAT, packed) && HasChunk(c, 0, IEND, [])
    ensures IsPng(file, header, packed)
  {
    Regroup(SIGNATURE, a, b, c);
    FieldOf([], SIGNATURE, a + (b + c));
    ChunkIsAt(file, SIGNATURE, a, b + c, 8, IHDR, header);
    ChunkIsAt(file, SIGNATURE + a, b, c, 33, IDAT, packed);
    ChunkIsAt(file, SIGNATURE + a + b, c, [], 45 + |packed|, IEND, []);
  }

  /** The numbers of a file of these rows fit in 32 bits. */
  predicate Fits(z: Zlib, width: nat, height: nat, raw: seq<byte>) {
    width < WORDS && height < WORDS && |z.deflate(raw)| < WORDS
  }

  /** An encoder writes a file exactly when its numbers fit, and it is one of header, image data and end. */
  lemma EncodedIsPng(z: Zlib, width: nat, height: nat, colour: byte, raw: seq<byte>)
    ensures var file, packed := Encoded(z, width, height, colour, raw), z.deflate(raw);
            && (file.Some? <==> Fits(z, width, height, raw))
            && (file.Some? ==>
                  exists header :: IsHeader(header, width, height, colour) && IsPng(file.value, header, packed))
  {
    if Encoded(z, width, height, colour, raw).Some? {
      HeaderIsHeader(width, height, colour);
      FileIsPng(HeaderData(width, height, colour), z.deflate(raw));
    }
  }

  /** The signature and three chunks from the table. */
  method TableChunks(header: seq<byte>, packed: seq<byte>) returns (file: Option<seq<byte>>)
    requires |header| == 13
    ensures file.Some? <==> |packed| < WORDS
    ensures file.Some? ==> file.value == SignedFile(ThreeChunks(header, packed))
  {
    var table := Crc.MakeTable();
    var ihdr := TableChunk(table, IHDR, header);
    var idat := TableChunk(table, IDAT, packed);
    var iend := TableChunk(table, IEND, []);
    if idat.None? {
      return None;
    }
    FileOf(header, packed, ihdr.value, idat.value, iend.value);
    file := Some(SIGNATURE + (ihdr.value + (idat.value + iend.value)));
  }

  /** The signature and three chunks joined from their parts. */
  method BitChunks(header: seq<byte>, packed: seq<byte>) returns (file: Option<seq<byte>>)
    requires |header| == 13
    ensures file.Some? <==> |packed| < WORDS
    ensures file.Some? ==> file.value == SignedFile(ThreeChunks(header, packed))
  {
    var ihdr := BitChunk(IHDR, header);
    var idat := BitChunk(IDAT, packed);
    var iend := BitChunk(IEND, []);
    if idat.None? {
      return None;
    }
    FileOf(header, packed, ihdr.value, idat.value, iend.value);
    file := Some(SIGNATURE + (ihdr.value + (idat.value + iend.value)));
  }

  method WriteFile(z: Zlib, width: nat, height: nat, colour: byte, raw: seq<byte>) returns (file: Option<seq<byte>>)
    ensures file == Encoded(z, width, height, colour, raw)
  {
    if width >= WORDS || height >= WORDS {
      return None;
    }
    var header := Header(width, height, colour);
    file := TableChunks(header[..], z.deflate(raw));
  }

  /** The region check's file. */
  method WriteJoined(z: Zlib, width: nat, height: nat, data: seq<byte>) returns (file: Option<seq<byte>>)
    ensures file == Encoded(z, width, height, 2, data)
  {
    if width >= WORDS || height >= WORDS {
      return None;
    }
    var header := Header(width, height, 2);
    file := BitChunks(header[..], z.deflate(data));
  }

  // ---- A crop of a capture ----

  /** A rectangle in logical pixels. */
  datatype Rect = Rect(x: real, y: real, width: real, height: real)

  datatype Crop = Crop(x: nat, y: nat, width: nat, height: nat) {
    predicate Inside(image: Image) {
      x + width <= image.width && y + height <= image.height
    }
  }

  function Max(a: int, b: int): int {
    if a > b then a else b
  }

  function Min(a: int, b: int): int {
    if a < b then a else b
  }

  function Rounded(v: real): int {
    (v + 0.5).Floor
  }

  function Scaled(rect: Rect, scale: real): Rect {
    Rect(rect.x * scale, rect.y * scale, rect.width * scale, rect.height * scale)
  }

  /** The device pixels of a rectangle already scaled. */
  function DeviceCropOf(png: Image, rect: Rect): Crop {
    var x, y := Max(0, rect.x.Floor), Max(0, rect.y.Floor);
    Crop(x, y, Max(1, Min(png.width - x, Rounded(rect.width))), Max(1, Min(png.height - y, Rounded(rect.height))))
  }

  function CropOf(png: Image, scale: real, rect: Rect): Crop {
    DeviceCropOf(png, Scaled(rect, scale))
  }

  // ---- Crops in logical pixels ----

  /** Pixel k, `unit` wide, holds the start of a rectangle; a start before the picture counts as its edge. */
  ghost predicate StartsIn(k: int, start: real, unit: real) {
    var from := if start < 0.0 then 0.0 else start;
    k as real * unit <= from < k as real * unit + unit
  }

  /** So many pixels are nearest to a length, a half rounded up. */
  ghost predicate Nearest(n: int, length: real, unit: real) {
    n as real * unit - unit / 2.0 <= length < n as real * unit + unit / 2.0
  }

  /** One side of a crop: from the pixel that holds the start, the nearest number of pixels there are, but one at
      least. */
  ghost predicate IsSide(from: int, length: int, start: real, size: real, all: int, unit: real) {
    StartsIn(from, start, unit) && exists n :: Nearest(n, size, unit) && length == Max(1, Min(all - from, n))
  }

  /** The crop is the rectangle's, of a picture whose pixels are `unit` logical ones wide and high. */
  ghost predicate IsCropOf(crop: Crop, rect: Rect, width: int, height: int, unit: real) {
    && IsSide(crop.x, crop.width, rect.x, rect.width, width, unit)
    && IsSide(crop.y, crop.height, rect.y, rect.height, height, unit)
  }

  lemma Multiplied(a: real, b: real, unit: real)
    requires 0.0 < unit
    ensures a <= b ==> a * unit <= b * unit
    ensures a < b ==> a * unit < b * unit
  {
    if a < b {
      assert (b - a) * unit > 0.0;
    }
  }

  lemma StartOfScaled(v: real, scale: real, unit: real)
    requires 0.0 < unit && scale * unit == 1.0
    ensures StartsIn(Max(0, (v * scale).Floor), v, unit)
  {
    var w := v * scale;
    var k := Max(0, w.Floor);
    assert w * unit == v;
    Multiplied(k as real, w, unit);
    Multiplied(w, k as real + 1.0, unit);
    Multiplied(w, 0.0, unit);
    Multiplied(0.0, w, unit);
    assert (k as real + 1.0) * unit == k as real * unit + unit;
  }

  lemma LengthOfScaled(v: real, scale: real, unit: real)
    requires 0.0 < unit && scale * unit == 1.0
    ensures Nearest(Rounded(v * scale), v, unit)
  {
    var w := v * scale;
    var n := Rounded(w);
    assert w * unit == v;
    Multiplied(n as real - 0.5, w, unit);
    Multiplied(w, n as real + 0.5, unit);
    assert (n as real - 0.5) * unit == n as real * unit - unit / 2.0;
    assert (n as real + 0.5) * unit == n as real * unit + unit / 2.0;
  }

  lemma SideOfScaled(start: real, size: real, all: int, scale: real, unit: real, from: int, length: int)
    requires 0.0 < unit && scale * unit == 1.0
    requires from == Max(0, (start * scale).Floor) && length == Max(1, Min(all - from, Rounded(size * scale)))
    ensures IsSide(from, length, start, size, all, unit)
  {
    StartOfScaled(start, scale, unit);
    LengthOfScaled(size, scale, unit);
  }

  /** At any scale and for any rectangle, the crop is that of the rectangle. */
  lemma CropIsNear(png: Image, scale: real, rect: Rect)
    requires 0.0 < scale
    ensures IsCropOf(CropOf(png, scale, rect), rect, png.width, png.height, 1.0 / scale)
  {
    var crop, unit := CropOf(png, scale, rect), 1.0 / scale;
    SideOfScaled(rect.x, rect.width, png.width, scale, unit, crop.x, crop.width);
    SideOfScaled(rect.y, rect.height, png.height, scale, unit, crop.y, crop.height);
  }

  /** A pixel filled up with zeros to three bytes. */
  function Filled(s: seq<byte>): (r: seq<byte>)
    requires |s| <= 3
    ensures |r| == 3 && s <= r
  {
    if |s| == 3 then s else if |s| == 2 then s + [0] else if |s| == 1 then s + [0, 0] else [0, 0, 0]
  }

  function CropPixels(png: Image, crop: Crop): Pixels {
    (x, y) => Filled(png.At(crop.x + x, crop.y + y))
  }

  function CropFile(z: Zlib, png: Image, crop: Crop): Option<seq<byte>> {
    Encoded(z, crop.width, crop.height, 2, Lines(CropPixels(png, crop), crop.width, crop.height))
  }

  method WriteCrop(z: Zlib, png: Image, scale: real, rect: Rect) returns (file: Option<seq<byte>>)
    ensures file == CropFile(z, png, CropOf(png, scale, rect))
  {
    var crop := CropOf(png, scale, rect);
    CropPixelsAreSized(png, crop);
    var raw := StoreRows(CropPixels(png, crop), crop.width, crop.height, 3);
    file := WriteFile(z, crop.width, crop.height, 2, raw[..]);
  }

  lemma CropPixelsAreSized(png: Image, crop: Crop)
    ensures Sized(CropPixels(png, crop), 3)
  {
    forall x: nat, y: nat
      ensures |CropPixels(png, crop)(x, y)| == 3
    {
      assert CropPixels(png, crop)(x, y) == Filled(png.At(crop.x + x, crop.y + y));
    }
  }

  /** A crop stays inside the image exactly when it starts there. */
  lemma CropInside(png: Image, rect: Rect)
    ensures var crop := DeviceCropOf(png, rect); crop.Inside(png) <==> crop.x < png.width && crop.y < png.height
  {
  }

  lemma WholeRect(x: nat, y: nat, width: nat, height: nat, k: nat)
    ensures Scaled(Rect(x as real, y as real, width as real, height as real), k as real)
         == Rect((x * k) as real, (y * k) as real, (width * k) as real, (height * k) as real)
  {
    WholeProduct(x, k);
    WholeProduct(y, k);
    WholeProduct(width, k);
    WholeProduct(height, k);
  }

  lemma WholeProduct(a: nat, k: nat)
    ensures a as real * k as real == (a * k) as real
  {
  }

  lemma WholeDeviceCrop(png: Image, crop: Crop)
    requires crop.Inside(png) && 0 < crop.width && 0 < crop.height
    ensures DeviceCropOf(png, Rect(crop.x as real, crop.y as real, crop.width as real, crop.height as real)) == crop
  {
    assert Rounded(crop.width as real) == crop.width && Rounded(crop.height as real) == crop.height;
  }

  /** At a whole scale a whole rectangle inside the image is exactly its pixels. */
  lemma WholeCropIsExact(png: Image, k: nat, x: nat, y: nat, width: nat, height: nat)
    requires 0 < width * k && 0 < height * k && x * k + width * k <= png.width && y * k + height * k <= png.height
    ensures CropOf(png, k as real, Rect(x as real, y as real, width as real, height as real))
         == Crop(x * k, y * k, width * k, height * k)
  {
    WholeRect(x, y, width, height, k);
    WholeDeviceCrop(png, Crop(x * k, y * k, width * k, height * k));
  }

  lemma PixelIsThere(png: Image, x: nat, y: nat)
    requires png.Valid() && x < png.width && y < png.height
    ensures |png.At(x, y)| == 3 && |png.Samples(x, y)| == png.channels && png.At(x, y) == png.Samples(x, y)[..3]
  {
    InTheImage(png.width, png.height, png.channels, x, y, png.channels - 1);
  }

  /** The image is the crop of a picture, pixel by pixel. */
  ghost predicate IsCrop(image: Option<Image>, png: Image, crop: Crop) {
    && image.Some? && image.value.width == crop.width && image.value.height == crop.height
    && forall x: nat, y: nat :: x < crop.width && y < crop.height ==>
         image.value.At(x, y) == png.At(crop.x + x, crop.y + y)
  }

  lemma CropIsDecoded(z: Zlib, png: Image, crop: Crop)
    requires Lossless(z) && png.Valid() && crop.Inside(png) && CropFile(z, png, crop).Some?
    ensures IsCrop(Decode(z, CropFile(z, png, crop).value), png, crop)
  {
    var pixel, image := CropPixels(png, crop), Decode(z, CropFile(z, png, crop).value);
    CropPixelsAreSized(png, crop);
    RowsAreDecoded(z, pixel, crop.width, crop.height, 2);
    forall x: nat, y: nat | x < crop.width && y < crop.height
      ensures image.value.At(x, y) == png.At(crop.x + x, crop.y + y)
    {
      assert Shows(image.value, pixel, x, y);
      CropPixelIsDecoded(png, crop, image.value, x, y);
    }
  }

  lemma CropPixelIsDecoded(png: Image, crop: Crop, image: Image, x: nat, y: nat)
    requires png.Valid() && crop.Inside(png) && x < crop.width && y < crop.height
    requires image.Valid() && image.channels == 3 && x < image.width && y < image.height
    requires Shows(image, CropPixels(png, crop), x, y)
    ensures image.At(x, y) == png.At(crop.x + x, crop.y + y)
  {
    PixelIsThere(image, x, y);
    PixelIsThere(png, crop.x + x, crop.y + y);
  }

  /** Decoding a written crop that starts inside the image gives the image's own pixels. */
  lemma CropRoundTrip(z: Zlib, png: Image, scale: real, rect: Rect)
    requires Lossless(z) && png.Valid()
    ensures var crop := CropOf(png, scale, rect);
            var file := CropFile(z, png, crop);
            && (file.Some? <==>
                  Fits(z, crop.width, crop.height, Lines(CropPixels(png, crop), crop.width, crop.height)))
            && (file.Some? && crop.x < png.width && crop.y < png.height ==> IsCrop(Decode(z, file.value), png, crop))
  {
    var crop := CropOf(png, scale, rect);
    CropInside(png, Scaled(rect, scale));
    if CropFile(z, png, crop).Some? && crop.Inside(png) {
      CropIsDecoded(z, png, crop);
    }
  }

  /** Reading past the right edge gives the next row's pixels, so a crop that starts outside shows those. */
  lemma PastTheEdge(png: Image, x: nat, y: nat)
    ensures png.At(png.width + x, y) == png.At(x, y + 1)
  {
    assert PixelStart(png.width, png.channels, png.width + x, y) == PixelStart(png.width, png.channels, x, y + 1);
  }

  // ---- A window's capture ----

  function ByteOr0(s: seq<byte>, i: nat): byte {
    if i < |s| then s[i] else 0
  }

  function BgraPixels(bgra: seq<byte>, width: nat): Pixels {
    (x: nat, y: nat) =>
      var i := (y * width + x) * 4;
      [ByteOr0(bgra, i + 2), ByteOr0(bgra, i + 1), ByteOr0(bgra, i)]
  }

  function CaptureFile(z: Zlib, width: nat, height: nat, bgra: seq<byte>): Option<seq<byte>> {
    Encoded(z, width, height, 2, Lines(BgraPixels(bgra, width), width, height))
  }

  method WritePng(z: Zlib, width: nat, height: nat, bgra: seq<byte>) returns (file: Option<seq<byte>>)
    ensures file == CaptureFile(z, width, height, bgra)
  {
    var raw := StoreRows(BgraPixels(bgra, width), width, height, 3);
    file := WriteFile(z, width, height, 2, raw[..]);
  }

  /** The image is a window's picture, with blue and red swapped. */
  ghost predicate IsCapture(image: Option<Image>, bgra: Image) {
    && image.Some? && image.value.width == bgra.width && image.value.height == bgra.height
    && forall x: nat, y: nat :: x < bgra.width && y < bgra.height ==> SwapsRedAndBlue(image.value, bgra, x, y)
  }

  /** Decoding a written capture gives its pixels, blue and red swapped. */
  lemma CaptureRoundTrip(z: Zlib, width: nat, height: nat, bgra: seq<byte>)
    requires Lossless(z) && |bgra| == height * (width * 4)
    ensures var file := CaptureFile(z, width, height, bgra);
            && (file.Some? <==> Fits(z, width, height, Lines(BgraPixels(bgra, width), width, height)))
            && (file.Some? ==> IsCapture(Decode(z, file.value), Image(width, height, 4, bgra)))
  {
    if CaptureFile(z, width, height, bgra).Some? {
      var pixel, image := BgraPixels(bgra, width), Decode(z, CaptureFile(z, width, height, bgra).value);
      RowsAreDecoded(z, pixel, width, height, 2);
      forall x: nat, y: nat | x < width && y < height
        ensures SwapsRedAndBlue(image.value, Image(width, height, 4, bgra), x, y)
      {
        assert Shows(image.value, pixel, x, y);
        CapturePixelIsDecoded(width, height, bgra, image.value, x, y);
      }
    }
  }

  lemma CapturePixelIsDecoded(width: nat, height: nat, bgra: seq<byte>, image: Image, x: nat, y: nat)
    requires |bgra| == height * (width * 4) && x < width && y < height
    requires image.Valid() && image.channels == 3 && x < image.width && y < image.height
    requires Shows(image, BgraPixels(bgra, width), x, y)
    ensures SwapsRedAndBlue(image, Image(width, height, 4, bgra), x, y)
  {
    PixelIsThere(image, x, y);
    InTheImage(width, height, 4, x, y, 3);
    BgraPixel(bgra, width, x, y);
  }

  lemma BgraPixel(bgra: seq<byte>, width: nat, x: nat, y: nat)
    requires PixelStart(width, 4, x, y) + 3 < |bgra|
    ensures var s := BgraPixels(bgra, width)(x, y);
            var i := PixelStart(width, 4, x, y);
            |s| == 3 && s[0] == bgra[i + 2] && s[1] == bgra[i + 1] && s[2] == bgra[i]
  {
  }

  ghost predicate SwapsRedAndBlue(image: Image, bgra: Image, x: nat, y: nat) {
    var a, b := image.At(x, y), bgra.At(x, y);
    |a| == 3 && |b| == 3 && a == [b[2], b[1], b[0]]
  }

  // ---- The difference of two captures ----

  function Amplified(a: byte, b: byte): (d: byte)
    ensures d == 0 <==> a == b
  {
    Min(255, Abs(a - b) * 16)
  }

  /** The difference of two pixels, 16 times, below `top`. */
  function DiffPixels(base: Image, candidate: Image, top: real): Pixels {
    (x: nat, y: nat) =>
      var a, b := Filled(base.At(x, y)), Filled(candidate.At(x, y));
      if y as real >= top then [Amplified(a[0], b[0]), Amplified(a[1], b[1]), Amplified(a[2], b[2])] else [0, 0, 0]
  }

  function DiffFile(z: Zlib, base: Image, candidate: Image, top: real): Option<seq<byte>> {
    Encoded(z, base.width, base.height, 2, Lines(DiffPixels(base, candidate, top), base.width, base.height))
  }

  method WriteDiff(z: Zlib, base: Image, candidate: Image, top: real) returns (file: Option<seq<byte>>)
    ensures file == DiffFile(z, base, candidate, top)
  {
    var raw := StoreRows(DiffPixels(base, candidate, top), base.width, base.height, 3);
    file := WriteJoined(z, base.width, base.height, raw[..]);
  }

  /** Sixteen times the difference, 255 at most. */
  ghost predicate Shown(d: byte, a: byte, b: byte) {
    var n := 16 * if a < b then b - a else a - b;
    d <= n && (d < 255 ==> d == n)
  }

  /** Below `top` a pixel has the amplified differences, and above it is black. */
  ghost predicate DiffAt(d: seq<byte>, a: seq<byte>, b: seq<byte>, below: bool) {
    && |d| == |a| == |b| == 3
    && if below then Shown(d[0], a[0], b[0]) && Shown(d[1], a[1], b[1]) && Shown(d[2], a[2], b[2]) else d == [0, 0, 0]
  }

  /** The image shows the amplified differences, and is black exactly where two captures agree, or above the content. */
  ghost predicate IsDiff(image: Option<Image>, base: Image, candidate: Image, top: real) {
    && image.Some? && image.value.width == base.width && image.value.height == base.height
    && forall x: nat, y: nat :: x < base.width && y < base.height ==>
         DiffPixel(image.value, base, candidate, top, x, y)
  }

  ghost predicate DiffPixel(image: Image, base: Image, candidate: Image, top: real, x: nat, y: nat) {
    && DiffAt(image.At(x, y), base.At(x, y), candidate.At(x, y), y as real >= top)
    && (image.At(x, y) == [0, 0, 0] <==> (y as real < top || base.At(x, y) == candidate.At(x, y)))
  }

  lemma DiffShowsDifferences(z: Zlib, base: Image, candidate: Image, top: real)
    requires Lossless(z) && base.Valid() && candidate.Valid()
    requires candidate.width == base.width && candidate.height == base.height
    ensures var file := DiffFile(z, base, candidate, top);
            && (file.Some? <==>
                  Fits(z, base.width, base.height, Lines(DiffPixels(base, candidate, top), base.width, base.height)))
            && (file.Some? ==> IsDiff(Decode(z, file.value), base, candidate, top))
  {
    if DiffFile(z, base, candidate, top).Some? {
      var pixel, image := DiffPixels(base, candidate, top), Decode(z, DiffFile(z, base, candidate, top).value);
      RowsAreDecoded(z, pixel, base.width, base.height, 2);
      forall x: nat, y: nat | x < base.width && y < base.height
        ensures DiffPixel(image.value, base, candidate, top, x, y)
      {
        assert Shows(image.value, pixel, x, y);
        PixelIsThere(image.value, x, y);
        PixelIsThere(base, x, y);
        PixelIsThere(candidate, x, y);
        SameBytes(base.At(x, y), candidate.At(x, y));
      }
    }
  }

  lemma SameBytes(a: seq<byte>, b: seq<byte>)
    requires |a| == |b| == 3
    ensures a == b <==> [Amplified(a[0], b[0]), Amplified(a[1], b[1]), Amplified(a[2], b[2])] == [0, 0, 0]
  {
    var d: seq<byte> := [Amplified(a[0], b[0]), Amplified(a[1], b[1]), Amplified(a[2], b[2])];
    assert d == [0, 0, 0] <==> d[0] == 0 && d[1] == 0 && d[2] == 0;
  }
}
