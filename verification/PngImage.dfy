/** Whole PNG files: the decoder, and what decoding gives back of rows an encoder stored unfiltered. */
module PngImage {
  import opened Common
  import opened PngFilter
  import opened PngChunks

  /** The compression library: inflating what was deflated gives it back; other data may fail to inflate. */
  datatype Zlib = Zlib(deflate: seq<byte> -> seq<byte>, inflate: seq<byte> -> Option<seq<byte>>)

  ghost predicate Lossless(z: Zlib) {
    forall s :: z.inflate(z.deflate(s)) == Some(s)
  }

  /** Where pixel (x, y) starts in an image's data. */
  function PixelStart(width: nat, channels: nat, x: nat, y: nat): nat {
    (y * width + x) * channels
  }

  datatype Image = Image(width: nat, height: nat, channels: nat, data: seq<byte>) {
    predicate Valid() {
      3 <= channels <= 4 && |data| == height * (width * channels)
    }

    /** All the channels of a pixel. */
    function Samples(x: nat, y: nat): seq<byte> {
      Slice(data, PixelStart(width, channels, x, y), PixelStart(width, channels, x, y) + channels)
    }

    /** `at`: the first three channels of a pixel, or what is left of the data. */
    function At(x: nat, y: nat): (s: seq<byte>)
      ensures |s| <= 3
    {
      Slice(data, PixelStart(width, channels, x, y), PixelStart(width, channels, x, y) + 3)
    }
  }

  /** The image's bytes from its filtered data. */
  function Restored(raw: seq<byte>, stride: nat, height: nat, bpp: nat): seq<byte>
    requires 0 < bpp || stride == 0
  {
    if stride == 0 then [] else Unfiltered(raw, stride, bpp, height * stride)
  }

  lemma NoChannelsNoBytes(width: nat, bpp: nat)
    ensures 0 < bpp || width * bpp == 0
  {
  }

  /** The pixels of what the walk found. */
  function Picture(z: Zlib, found: Found): Option<Image> {
    NoChannelsNoBytes(found.width, found.bpp);
    match z.inflate(found.packed)
    case None => None
    case Some(raw) =>
      Some(Image(found.width, found.height, found.bpp, Restored(raw, found.width * found.bpp, found.height, found.bpp)))
  }

  /** The decoder: past the signature, the walk, then the pixels. */
  function Decode(z: Zlib, file: seq<byte>): Option<Image> {
    match Walk(Slice(file, 8, |file|), NOTHING)
    case None => None
    case Some(found) => Picture(z, found)
  }

  /** The decoders' loop body for one chunk. */
  method ReadChunk(found: Found, kind: seq<byte>, data: seq<byte>) returns (next: Option<Found>)
    ensures next == Take(found, kind, data)
  {
    var header := found;
    if Reads(kind, IHDR) {
      assert kind[1] % 128 == IHDR[1] != IDAT[1];
      if |data| < 13 || data[8] != 8 || data[12] != 0 {
        return None;
      }
      var bpp := if data[9] == 6 then 4 else if data[9] == 2 then 3 else 0;
      if bpp == 0 {
        return None;
      }
      header := found.(width := FromBigEndian(data[..4]), height := FromBigEndian(data[4..8]), bpp := bpp);
    }
    next := Some(if Reads(kind, IDAT) then header.(packed := header.packed + data) else header);
  }

  /** The decoders' walk over a file. */
  method ReadChunks(file: seq<byte>) returns (result: Option<Found>)
    ensures result == Walk(Slice(file, 8, |file|), NOTHING)
  {
    var at := 8;
    ghost var goal := Walk(Slice(file, 8, |file|), NOTHING);
    result := Some(NOTHING);
    while at < |file| && result.Some?
      invariant goal == if result.Some? then Walk(Slice(file, at, |file|), result.value) else None
      decreases result.Some?, |file| - at
    {
      at, result := ReadAt(file, at, result.value);
    }
  }

  /** The walk over the rest of a file from `at` is the walk from `next` with what was found there, or fails. */
  ghost predicate Continues(file: seq<byte>, at: nat, found: Found, next: nat, result: Option<Found>) {
    Walk(Slice(file, at, |file|), found)
      == if result.Some? then Walk(Slice(file, next, |file|), result.value) else None
  }

  /** The loop body of the walk. */
  method ReadAt(file: seq<byte>, at: nat, found: Found) returns (next: nat, result: Option<Found>)
    requires at < |file|
    ensures next > at && Continues(file, at, found, next, result)
  {
    var length := Slice(file, at, at + 4);
    if |length| < 4 {
      WalkOfShort(file, at, found);
      return at + 4, None;
    }
    next, result := ReadNext(file, at, FromBigEndian(length), found);
  }

  method ReadNext(file: seq<byte>, at: nat, n: nat, found: Found) returns (next: nat, result: Option<Found>)
    requires at + 4 <= |file| && n == FromBigEndian(Slice(file, at, at + 4))
    ensures next > at && Continues(file, at, found, next, result)
  {
    result := ReadChunk(found, Slice(file, at + 4, at + 8), Slice(file, at + 8, at + 8 + n));
    next := at + 12 + n;
    WalkStep(file, at, n, next, found, result);
  }

  method Restore(raw: seq<byte>, stride: nat, height: nat, bpp: nat) returns (data: seq<byte>)
    requires 0 < bpp || stride == 0
    ensures data == Restored(raw, stride, height, bpp)
  {
    var out := Unfilter(raw, stride, height, bpp);
    assert stride == 0 ==> height * stride == 0;
    data := out[..];
  }

  /** The program of the decoders. */
  method Pixels(z: Zlib, file: seq<byte>) returns (image: Option<Image>)
    ensures image == Decode(z, file)
  {
    var found := ReadChunks(file);
    if found.None? {
      return None;
    }
    image := ReadPicture(z, found.value);
  }

  method ReadPicture(z: Zlib, f: Found) returns (image: Option<Image>)
    ensures image == Picture(z, f)
  {
    var raw := z.inflate(f.packed);
    if raw.None? {
      return None;
    }
    NoChannelsNoBytes(f.width, f.bpp);
    var data := Restore(raw.value, f.width * f.bpp, f.height, f.bpp);
    image := Some(Image(f.width, f.height, f.bpp, data));
  }

  /** One chunk of the walk, found by position. */
  lemma WalkStep(file: seq<byte>, at: nat, n: nat, next: nat, found: Found, result: Option<Found>)
    requires at + 4 <= |file| && n == FromBigEndian(Slice(file, at, at + 4)) && next == at + 12 + n
    requires result == Take(found, Slice(file, at + 4, at + 8), Slice(file, at + 8, at + 8 + n))
    ensures Continues(file, at, found, next, result)
  {
    var rest := Slice(file, at, |file|);
    SliceOfRest(file, at, n);
    assert rest[..4] == Slice(file, at, at + 4);
    WalkFirst(rest, n, Slice(file, at + 4, at + 8), Slice(file, at + 8, at + 8 + n), Slice(file, next, |file|),
              found, result);
  }

  lemma WalkFirst(rest: seq<byte>, n: nat, kind: seq<byte>, data: seq<byte>, more: seq<byte>,
                  found: Found, result: Option<Found>)
    requires 4 <= |rest| && n == FromBigEndian(rest[..4])
    requires kind == Slice(rest, 4, 8) && data == Slice(rest, 8, 8 + n) && more == Slice(rest, 12 + n, |rest|)
    requires result == Take(found, kind, data)
    ensures Walk(rest, found) == if result.Some? then Walk(more, result.value) else None
  {
  }

  /** A walk with no room for a length fails. */
  lemma WalkOfShort(file: seq<byte>, at: nat, found: Found)
    requires at < |file| < at + 4
    ensures Continues(file, at, found, at + 4, None)
  {
    assert Slice(file, at, |file|) == file[at..];
  }

  lemma SubSlice(s: seq<byte>, at: nat, i: nat, j: nat)
    requires i <= j && at + j <= |s|
    ensures s[at..][i..j] == s[at + i..at + j]
  {
  }

  lemma SliceOfSlice(file: seq<byte>, at: nat, i: nat, j: nat)
    requires at <= |file|
    ensures Slice(Slice(file, at, |file|), i, j) == Slice(file, at + i, at + j)
  {
    var rest := file[at..];
    var lo, hi := if i < |rest| then i else |rest|, if j < |rest| then j else |rest|;
    assert Slice(file, at, |file|) == rest;
    if lo <= hi {
      SubSlice(file, at, lo, hi);
    }
  }

  lemma SliceOfRest(file: seq<byte>, at: nat, n: nat)
    requires at < |file|
    ensures var rest := Slice(file, at, |file|);
            && rest != []
            && Slice(rest, 4, 8) == Slice(file, at + 4, at + 8)
            && Slice(rest, 8, 8 + n) == Slice(file, at + 8, at + 8 + n)
            && Slice(rest, 12 + n, |rest|) == Slice(file, at + 12 + n, |file|)
  {
    SliceOfSlice(file, at, 4, 8);
    SliceOfSlice(file, at, 8, 8 + n);
    SliceOfSlice(file, at, 12 + n, |file| - at);
  }

  /** A decoded image has its size and kind from the last header, and every byte of it is made from the inflated
      data. */
  lemma BytesAreDecoded(z: Zlib, file: seq<byte>) returns (raw: seq<byte>)
    requires Decode(z, file).Some?
    ensures var image, found := Decode(z, file).value, Walk(Slice(file, 8, |file|), NOTHING).value;
            && z.inflate(found.packed) == Some(raw)
            && image.width == found.width && image.height == found.height && image.channels == found.bpp
            && forall y, x :: 0 <= y < image.height && 0 <= x < image.width * image.channels ==>
                 IsDecoded(raw, image.width * image.channels, image.channels, image.data, y, x)
  {
    var found := Walk(Slice(file, 8, |file|), NOTHING).value;
    raw := z.inflate(found.packed).value;
    EachRowIsDecoded(raw, found.width * found.bpp, found.bpp, found.height);
  }

  lemma EachRowIsDecoded(raw: seq<byte>, stride: nat, bpp: nat, height: nat)
    requires 0 < bpp || stride == 0
    ensures forall y, x :: 0 <= y < height && 0 <= x < stride ==>
              IsDecoded(raw, stride, bpp, Restored(raw, stride, height, bpp), y, x)
  {
    forall y, x | 0 <= y < height && 0 <= x < stride
      ensures IsDecoded(raw, stride, bpp, Restored(raw, stride, height, bpp), y, x)
    {
      UnfilteredIsDecoded(raw, stride, bpp, height, y, x);
    }
  }

  /** A file whose last length is cut short is not decoded. */
  lemma CutFileIsRefused(z: Zlib, chunks: seq<Chunk>, more: seq<byte>)
    requires (forall c :: c in chunks ==> c.Valid()) && 0 < |more| < 4
    ensures Decode(z, SignedFile(chunks) + more) == None
  {
    var file := SignedFile(chunks) + more;
    assert file == SIGNATURE + (StoredAll(chunks) + more);
    assert Slice(file, 8, |file|) == StoredAll(chunks) + more;
    CutLengthIsRefused(NOTHING, chunks, more);
  }

  // ---- What the encoders store ----

  function SignedFile(chunks: seq<Chunk>): seq<byte>
    requires forall c :: c in chunks ==> c.Valid()
  {
    SIGNATURE + StoredAll(chunks)
  }

  /** The header's data: size, 8 bits a sample, the colour type, and the only compression, filter and interlace
      methods. */
  function HeaderData(width: nat, height: nat, colour: byte): (data: seq<byte>)
    requires width < WORDS && height < WORDS
    ensures |data| == 13
  {
    BigEndian(width) + BigEndian(height) + [8, colour, 0, 0, 0]
  }

  function Ascii(s: string): seq<byte>
    requires forall i :: 0 <= i < |s| ==> s[i] as int < 256
  {
    seq(|s|, i requires 0 <= i < |s| => s[i] as int)
  }

  /** A header of section 4.1.1 of RFC 2083: sizes, 8 bits a sample, the colour type, and methods 0. */
  ghost predicate IsHeader(data: seq<byte>, width: nat, height: nat, colour: byte) {
    && |data| == 13 && NumberAt(data, 0, width) && NumberAt(data, 4, height)
    && data[8] == 8 && data[9] == colour && data[10] == data[11] == data[12] == 0
  }

  lemma HeaderIsHeader(width: nat, height: nat, colour: byte)
    requires width < WORDS && height < WORDS
    ensures IsHeader(HeaderData(width, height, colour), width, height, colour)
  {
    var a, b, rest: seq<byte> := BigEndian(width), BigEndian(height), [8, colour, 0, 0, 0];
    var data := HeaderData(width, height, colour);
    BigEndianEncodes(width);
    BigEndianEncodes(height);
    assert data == [] + a + (b + rest) == a + b + rest;
    FieldOf([], a, b + rest);
    FieldOf(a, b, rest);
    assert data[8..] == rest;
  }

  lemma NamesAreAscii()
    ensures Ascii("IHDR") == IHDR && Ascii("IDAT") == IDAT && Ascii("IEND") == IEND
    ensures [137] + Ascii("PNG") + [13, 10, 26, 10] == SIGNATURE
  {
  }

  /** A header, the image data in one chunk, and the end. */
  function ThreeChunks(header: seq<byte>, packed: seq<byte>): (chunks: seq<Chunk>)
    ensures |header| < WORDS && |packed| < WORDS ==> forall c :: c in chunks ==> c.Valid()
  {
    [Chunk(IHDR, header)] + ([Chunk(IDAT, packed)] + [Chunk(IEND, [])])
  }

  function FileChunks(width: nat, height: nat, colour: byte, packed: seq<byte>): seq<Chunk>
    requires width < WORDS && height < WORDS
  {
    ThreeChunks(HeaderData(width, height, colour), packed)
  }

  function Channels(colour: byte): nat {
    if colour == 6 then 4 else 3
  }

  lemma HeaderIsRead(found: Found, width: nat, height: nat, colour: byte)
    requires width < WORDS && height < WORDS && (colour == 2 || colour == 6)
    ensures ReadHeader(found, HeaderData(width, height, colour))
         == Some(found.(width := width, height := height, bpp := Channels(colour)))
  {
    BigEndianRoundTrip(width);
    BigEndianRoundTrip(height);
    var data := HeaderData(width, height, colour);
    assert data[..4] == BigEndian(width) && data[4..8] == BigEndian(height);
    assert data[8..] == [8, colour, 0, 0, 0];
    assert data[8] == data[8..][0] && data[9] == data[8..][1] && data[12] == data[8..][4];
  }

  /** Any file of a header and image data, however the data is cut into chunks and whatever other chunks are between,
      decodes to its pixels. */
  lemma DecodeOfChunks(z: Zlib, chunks: seq<Chunk>, width: nat, height: nat, colour: byte, raw: seq<byte>)
    requires width < WORDS && height < WORDS && (colour == 2 || colour == 6)
    requires forall c :: c in chunks ==> c.Valid()
    requires Headers(chunks) == [HeaderData(width, height, colour)] && z.inflate(Packed(chunks)) == Some(raw)
    ensures var bpp := Channels(colour);
            Decode(z, SignedFile(chunks)) == Some(Image(width, height, bpp, Restored(raw, width * bpp, height, bpp)))
  {
    var header, bpp := HeaderData(width, height, colour), Channels(colour);
    WalkOfFile(chunks);
    WalkReadsChunks(NOTHING, chunks);
    OnlyDataMatters(NOTHING, chunks);
    HeaderIsRead(NOTHING, width, height, colour);
    OneHeader(NOTHING, header, Packed(chunks));
    NoChannelsNoBytes(width, bpp);
    assert Walk(StoredAll(chunks), NOTHING) == Some(Found(width, height, bpp, Packed(chunks)));
  }

  /** Any file of these chunks with any filter in each row decodes to the image that was filtered; a width of
      zero is invalid (section 4.1.1 of RFC 2083). */
  lemma FileRoundTrip(z: Zlib, chunks: seq<Chunk>, image: Image, colour: byte, filters: seq<Filter>)
    requires image.width < WORDS && image.height < WORDS && (colour == 2 || colour == 6)
    requires image.Valid() && image.channels == Channels(colour) && 0 < image.width && |filters| == image.height
    requires forall c :: c in chunks ==> c.Valid()
    requires Headers(chunks) == [HeaderData(image.width, image.height, colour)]
    requires Inflates(z, Packed(chunks), image, filters)
    ensures Decode(z, SignedFile(chunks)) == Some(image)
  {
    var stride := image.width * image.channels;
    var raw := Filtered(image.data, filters, stride, image.channels);
    DecodeOfChunks(z, chunks, image.width, image.height, colour, raw);
    UnfilterUndoesFilters(image.data, filters, stride, image.channels, |image.data|);
    assert image.data[..|image.data|] == image.data;
  }

  /** The packed data holds the image's rows, filtered. */
  ghost predicate Inflates(z: Zlib, packed: seq<byte>, image: Image, filters: seq<Filter>)
    requires image.Valid() && 0 < image.width && |filters| == image.height
  {
    z.inflate(packed) == Some(Filtered(image.data, filters, image.width * image.channels, image.channels))
  }

  lemma WalkOfFile(chunks: seq<Chunk>)
    requires forall c :: c in chunks ==> c.Valid()
    ensures Slice(SignedFile(chunks), 8, |SignedFile(chunks)|) == StoredAll(chunks)
  {
    assert SignedFile(chunks)[8..] == StoredAll(chunks);
  }

  lemma OneHeader(found: Found, header: seq<byte>, packed: seq<byte>)
    requires found.packed == []
    ensures ReadParts(found, [header], packed) ==
      match ReadHeader(found, header)
      case None => None
      case Some(f) => Some(f.(packed := packed))
  {
    var others: seq<seq<byte>> := [];
    ReadHeadersKeepsPacked(found, [header], packed);
    HeaderFirst(found, header, others, packed);
    assert [header] == [header] + others;
    var next := ReadHeader(found, header);
    if next.Some? {
      assert ReadHeaders(next.value, others) == next && next.value.packed + packed == packed;
    }
  }

  /** The encoders' files have one chunk of image data. */
  lemma DecodeOfFile(z: Zlib, width: nat, height: nat, colour: byte, raw: seq<byte>)
    requires Lossless(z) && width < WORDS && height < WORDS && (colour == 2 || colour == 6) && |z.deflate(raw)| < WORDS
    ensures var bpp, chunks := Channels(colour), FileChunks(width, height, colour, z.deflate(raw));
            && (forall c :: c in chunks ==> c.Valid())
            && Decode(z, SignedFile(chunks)) == Some(Image(width, height, bpp, Restored(raw, width * bpp, height, bpp)))
  {
    var packed, header := z.deflate(raw), HeaderData(width, height, colour);
    var chunks := FileChunks(width, height, colour, packed);
    OneOfEach(header, packed);
    DecodeOfChunks(z, chunks, width, height, colour, raw);
  }

  lemma OneOfEach(header: seq<byte>, packed: seq<byte>)
    ensures Headers(ThreeChunks(header, packed)) == [header] && Packed(ThreeChunks(header, packed)) == packed
  {
    var none: seq<Chunk> := [];
    var first, second, third := Chunk(IHDR, header), Chunk(IDAT, packed), Chunk(IEND, []);
    KindsDiffer();
    PartsOfFirst(third, none);
    assert [third] + none == [third];
    PartsOfFirst(second, [third]);
    PartsOfFirst(first, [second] + [third]);
  }
}
