/** The rows the encoders store: every row unfiltered, the same number of bytes for every pixel. */
module PngRows {
  import opened Common
  import opened PngFilter
  import opened PngChunks
  import opened PngImage

  /** What an encoder stores for the pixel at column x, row y. */
  type Pixels = (nat, nat) -> seq<byte>

  ghost predicate Sized(pixel: Pixels, bpp: nat) {
    forall x, y :: |pixel(x, y)| == bpp
  }

  /** The first n pixels of row y. */
  function Line(pixel: Pixels, y: nat, n: nat): seq<byte> {
    if n == 0 then [] else Line(pixel, y, n - 1) + pixel(n - 1, y)
  }

  /** The first h rows, each after its type byte. */
  function Lines(pixel: Pixels, width: nat, h: nat): seq<byte> {
    if h == 0 then [] else Lines(pixel, width, h - 1) + [0] + Line(pixel, h - 1, width)
  }

  lemma {:induction false} LineLength(pixel: Pixels, bpp: nat, y: nat, n: nat)
    requires Sized(pixel, bpp)
    ensures |Line(pixel, y, n)| == n * bpp
  {
    if n != 0 {
      LineLength(pixel, bpp, y, n - 1);
      assert |pixel(n - 1, y)| == bpp;
    }
  }

  lemma {:induction false} LinesLength(pixel: Pixels, bpp: nat, width: nat, h: nat)
    requires Sized(pixel, bpp)
    ensures |Lines(pixel, width, h)| == h * (width * bpp + 1)
  {
    if h != 0 {
      LinesLength(pixel, bpp, width, h - 1);
      LineLength(pixel, bpp, h - 1, width);
    }
  }

  lemma {:induction false} LinesInOrder(pixel: Pixels, width: nat, y: nat, h: nat)
    requires y <= h
    ensures Lines(pixel, width, y) <= Lines(pixel, width, h)
  {
    if y < h {
      LinesInOrder(pixel, width, y, h - 1);
    }
  }

  lemma {:induction false} LineInOrder(pixel: Pixels, y: nat, x: nat, n: nat)
    requires x <= n
    ensures Line(pixel, y, x) <= Line(pixel, y, n)
  {
    if x < n {
      LineInOrder(pixel, y, x, n - 1);
    }
  }

  lemma After(before: seq<byte>, s: seq<byte>, all: seq<byte>, i: nat)
    requires before + s <= all && i < |s|
    ensures |before| + i < |all| && all[|before| + i] == s[i]
  {
    assert (before + s)[|before| + i] == s[i];
  }

  lemma InRows(before: seq<byte>, line: seq<byte>, raw: seq<byte>, k: nat, j: nat)
    requires before + [0] + line <= raw && k < |line| && j == |before| + 1 + k
    ensures At(raw, j) == Some(line[k])
  {
    After(before + [0], line, raw, k);
  }

  lemma InLine(pixel: Pixels, y: nat, n: nat, x: nat, i: nat)
    requires x < n && i < |pixel(x, y)|
    ensures |Line(pixel, y, x)| + i < |Line(pixel, y, n)|
    ensures Line(pixel, y, n)[|Line(pixel, y, x)| + i] == pixel(x, y)[i]
  {
    LineInOrder(pixel, y, x + 1, n);
    After(Line(pixel, y, x), pixel(x, y), Line(pixel, y, n), i);
  }

  lemma InLines(pixel: Pixels, width: nat, h: nat, y: nat, k: nat, j: nat)
    requires y < h && k < |Line(pixel, y, width)| && j == |Lines(pixel, width, y)| + 1 + k
    ensures At(Lines(pixel, width, h), j) == Some(Line(pixel, y, width)[k])
  {
    var before, line, raw := Lines(pixel, width, y), Line(pixel, y, width), Lines(pixel, width, h);
    LinesInOrder(pixel, width, y + 1, h);
    assert Lines(pixel, width, y + 1) == before + [0] + line;
    InRows(before, line, raw, k, j);
  }

  /** Where byte i of pixel (x, y) is stored: after the rows above, the type byte and the pixels to the left. */
  lemma StoredAt(pixel: Pixels, width: nat, height: nat, x: nat, y: nat, i: nat, j: nat)
    requires x < width && y < height && i < |pixel(x, y)|
    requires j == |Lines(pixel, width, y)| + 1 + |Line(pixel, y, x)| + i
    ensures At(Lines(pixel, width, height), j) == Some(pixel(x, y)[i])
  {
    var k := |Line(pixel, y, x)| + i;
    InLine(pixel, y, width, x, i);
    InLines(pixel, width, height, y, k, j);
  }

  lemma TypeByte(pixel: Pixels, bpp: nat, width: nat, height: nat, y: nat)
    requires Sized(pixel, bpp) && y < height
    ensures var raw := Lines(pixel, width, height);
            y * (width * bpp + 1) < |raw| && raw[y * (width * bpp + 1)] == 0
  {
    LinesLength(pixel, bpp, width, y);
    LinesInOrder(pixel, width, y + 1, height);
  }

  /** Every row's type byte is 0. */
  ghost predicate AllPlain(raw: seq<byte>, stride: nat, height: nat) {
    forall y :: 0 <= y < height ==> PlainRow(raw, stride, y)
  }

  ghost predicate PlainRow(raw: seq<byte>, stride: nat, y: nat) {
    At(raw, y * (stride + 1)) == Some(0)
  }

  /** Rows of type 0 decode to their own bytes. */
  lemma {:induction false} UnfilteredRows(raw: seq<byte>, stride: nat, bpp: nat, height: nat, n: nat, k: nat)
    requires 0 < stride && 0 < bpp && |raw| == height * (stride + 1) && k < n <= height * stride
    requires AllPlain(raw, stride, height)
    ensures At(raw, k + k / stride + 1) == Some(Unfiltered(raw, stride, bpp, n)[k])
  {
    if k < n - 1 {
      UnfilteredRows(raw, stride, bpp, height, n - 1, k);
    } else {
      NextIsPlain(raw, stride, bpp, height, Unfiltered(raw, stride, bpp, k));
    }
  }

  lemma NextIsPlain(raw: seq<byte>, stride: nat, bpp: nat, height: nat, done: seq<byte>)
    requires 0 < stride && 0 < bpp && |raw| == height * (stride + 1) && |done| < height * stride
    requires AllPlain(raw, stride, height)
    ensures At(raw, |done| + |done| / stride + 1) == Some(NextByte(raw, stride, bpp, done))
  {
    var k, y := |done|, |done| / stride;
    RawIndex(height, stride, k);
    assert PlainRow(raw, stride, y);
    PlainByte(At(raw, k + y + 1), Left(done, stride, bpp, k), Above(done, stride, k), AboveLeft(done, stride, bpp, k));
  }

  lemma PlainByte(v: Option<byte>, a: byte, b: byte, c: byte)
    ensures v.Some? ==> v == Some(PngFilter.Restore(v, Some(0), a, b, c))
  {
  }

  /** Where byte i of pixel (x, y) is decoded to. */
  lemma PixelIndex(width: nat, bpp: nat, x: nat, y: nat, i: nat)
    requires x < width && i < bpp && x * bpp + i < width * bpp
    ensures var stride, k := width * bpp, PixelStart(width, bpp, x, y) + i;
            k / stride == y && k + k / stride + 1 == y * (stride + 1) + 1 + (x * bpp + i)
  {
    var stride, k := width * bpp, PixelStart(width, bpp, x, y) + i;
    assert y * width * bpp == y * stride;
    assert k == y * stride + (x * bpp + i);
    Quotient(y, stride, x * bpp + i);
  }

  /** The decoded data holds every stored pixel. */
  lemma PixelIsDecoded(pixel: Pixels, bpp: nat, width: nat, height: nat, data: seq<byte>, x: nat, y: nat)
    requires Sized(pixel, bpp) && 0 < bpp && x < width && y < height
    ensures data == Restored(Lines(pixel, width, height), width * bpp, height, bpp) ==>
      Slice(data, PixelStart(width, bpp, x, y), PixelStart(width, bpp, x, y) + bpp) == pixel(x, y)
  {
    var at, s := PixelStart(width, bpp, x, y), pixel(x, y);
    assert |s| == bpp;
    if data == Restored(Lines(pixel, width, height), width * bpp, height, bpp) {
      forall i: nat | i < bpp
        ensures HasByte(data, at, s, i)
      {
        ByteIsDecoded(pixel, bpp, width, height, data, x, y, i);
      }
      SliceOfBytes(data, at, s);
    }
  }

  ghost predicate HasByte(data: seq<byte>, at: nat, s: seq<byte>, i: nat) {
    i < |s| && At(data, at + i) == Some(s[i])
  }

  lemma SliceOfBytes(data: seq<byte>, at: nat, s: seq<byte>)
    requires forall i: nat :: i < |s| ==> HasByte(data, at, s, i)
    requires s != []
    ensures Slice(data, at, at + |s|) == s
  {
    assert HasByte(data, at, s, |s| - 1);
    forall i: nat | i < |s|
      ensures Slice(data, at, at + |s|)[i] == s[i]
    {
      assert HasByte(data, at, s, i);
    }
  }

  /** The place of a stored byte is that of the decoded one and the type bytes up to its row. */
  lemma StoredIndex(pixel: Pixels, bpp: nat, width: nat, x: nat, y: nat, i: nat)
    requires Sized(pixel, bpp) && x < width && i < bpp
    ensures var k := PixelStart(width, bpp, x, y) + i;
            0 < width * bpp && |Lines(pixel, width, y)| + 1 + |Line(pixel, y, x)| + i == k + k / (width * bpp) + 1
  {
    LinesLength(pixel, bpp, width, y);
    LineLength(pixel, bpp, y, x);
    ByteFits(width, bpp, x, i);
    PixelIndex(width, bpp, x, y, i);
  }

  lemma ByteIsDecoded(pixel: Pixels, bpp: nat, width: nat, height: nat, data: seq<byte>, x: nat, y: nat, i: nat)
    requires Sized(pixel, bpp) && x < width && y < height && i < bpp
    ensures data == Restored(Lines(pixel, width, height), width * bpp, height, bpp) ==>
      HasByte(data, PixelStart(width, bpp, x, y), pixel(x, y), i)
  {
    var raw, stride, k := Lines(pixel, width, height), width * bpp, PixelStart(width, bpp, x, y) + i;
    assert |pixel(x, y)| == bpp;
    StoredIndex(pixel, bpp, width, x, y, i);
    StoredAt(pixel, width, height, x, y, i, k + k / stride + 1);
    LinesLength(pixel, bpp, width, height);
    LinesArePlain(pixel, bpp, width, height);
    InTheImage(width, height, bpp, x, y, i);
    UnfilteredRows(raw, stride, bpp, height, height * stride, k);
  }

  lemma LinesArePlain(pixel: Pixels, bpp: nat, width: nat, height: nat)
    requires Sized(pixel, bpp)
    ensures AllPlain(Lines(pixel, width, height), width * bpp, height)
  {
    forall y: nat | y < height
      ensures PlainRow(Lines(pixel, width, height), width * bpp, y)
    {
      TypeByte(pixel, bpp, width, height, y);
    }
  }

  lemma ByteFits(width: nat, bpp: nat, x: nat, i: nat)
    requires x < width && i < bpp
    ensures x * bpp + i < width * bpp
  {
    TimesOrder(x + 1, width, bpp);
  }

  lemma InTheImage(width: nat, height: nat, bpp: nat, x: nat, y: nat, i: nat)
    requires x < width && y < height && i < bpp
    ensures PixelStart(width, bpp, x, y) + i < height * (width * bpp)
  {
    TimesOrder(y + 1, height, width);
    TimesOrder(y * width + x + 1, height * width, bpp);
    assert height * width * bpp == height * (width * bpp);
  }

  // ---- The programs ----

  /** The encoders' loops over rows and pixels. */
  method StoreRows(pixel: Pixels, width: nat, height: nat, bpp: nat) returns (raw: array<byte>)
    requires Sized(pixel, bpp)
    ensures fresh(raw) && raw[..] == Lines(pixel, width, height)
  {
    LinesLength(pixel, bpp, width, height);
    raw := new byte[height * (width * bpp + 1)](_ => 0);
    var start := 0;
    for y := 0 to height
      invariant start == |Lines(pixel, width, y)| <= raw.Length && raw[..start] == Lines(pixel, width, y)
    {
      LinesInOrder(pixel, width, y + 1, height);
      start := StoreRow(pixel, y, width, bpp, raw, start);
    }
    assert raw[..start] == raw[..];
  }

  method StoreRow(pixel: Pixels, y: nat, width: nat, bpp: nat, raw: array<byte>, start: nat) returns (end: nat)
    requires Sized(pixel, bpp) && start + 1 + |Line(pixel, y, width)| <= raw.Length
    modifies raw
    ensures end == start + 1 + |Line(pixel, y, width)|
    ensures raw[..end] == old(raw[..start]) + [0] + Line(pixel, y, width)
  {
    raw[start] := 0;
    end := start + 1;
    ghost var before := raw[..end];
    for x := 0 to width
      invariant end == start + 1 + |Line(pixel, y, x)| <= raw.Length
      invariant raw[..end] == before + Line(pixel, y, x)
    {
      LineInOrder(pixel, y, x + 1, width);
      end := StoreBytes(pixel(x, y), raw, end);
    }
  }

  method StoreBytes(bytes: seq<byte>, raw: array<byte>, at: nat) returns (end: nat)
    requires at + |bytes| <= raw.Length
    modifies raw
    ensures end == at + |bytes|
    ensures raw[..end] == old(raw[..at]) + bytes && raw[end..] == old(raw[end..])
  {
    for i := 0 to |bytes|
      invariant raw[..at + i] == old(raw[..at]) + bytes[..i]
      invariant raw[at + i..] == old(raw[at + i..])
    {
      raw[at + i] := bytes[i];
    }
    end := at + |bytes|;
  }
}
