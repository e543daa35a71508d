/** Row filters of PNG (section 6 of RFC 2083): the filters an encoder may choose row by row, and the decoder's in-place
    loop that undoes them. Images are flat: `stride` bytes a row; filtered data has one type byte before each row. */
module PngFilter {
  import opened Common

  datatype Filter = Plain | Sub | Up | Average | Paeth {
    function Code(): byte {
      match this
      case Plain => 0
      case Sub => 1
      case Up => 2
      case Average => 3
      case Paeth => 4
    }

    /** What the encoder subtracts from a byte: a is the byte a pixel to the left, b the one above, c the one above
        a. */
    function Predict(a: byte, b: byte, c: byte): byte {
      match this
      case Plain => 0
      case Sub => a
      case Up => b
      case Average => (a + b) / 2
      case Paeth => PaethPredictor(a, b, c)
    }
  }

  function Abs(x: int): nat {
    if x < 0 then -x else x
  }

  /** The neighbour nearest to a + b - c, ties going to a, then b. */
  function PaethPredictor(a: byte, b: byte, c: byte): (p: byte)
    ensures p == a || p == b || p == c
  {
    var p := a + b - c;
    if Abs(p - a) <= Abs(p - b) && Abs(p - a) <= Abs(p - c) then a
    else if Abs(p - b) <= Abs(p - c) then b
    else c
  }

  /** The neighbours of byte k of a flat image; 0 outside it. */
  function Left(img: seq<byte>, stride: nat, bpp: nat, k: nat): byte
    requires 0 < stride && 0 < bpp && k <= |img|
  {
    if k % stride >= bpp then img[k - bpp] else 0
  }

  function Above(img: seq<byte>, stride: nat, k: nat): byte
    requires 0 < stride && k <= |img|
  {
    if k >= stride then img[k - stride] else 0
  }

  function AboveLeft(img: seq<byte>, stride: nat, bpp: nat, k: nat): byte
    requires 0 < stride && 0 < bpp && k <= |img|
  {
    if k % stride >= bpp && k >= stride + bpp then img[k - stride - bpp] else 0
  }

  /** One byte of the filtered data: the row's type, or a byte less its prediction. */
  function FilteredByte(img: seq<byte>, filters: seq<Filter>, stride: nat, bpp: nat, i: nat): byte
    requires 0 < stride && 0 < bpp && |img| == |filters| * stride && i < |filters| * (stride + 1)
  {
    var y := i / (stride + 1);
    RowOf(|filters|, stride + 1, i);
    if i % (stride + 1) == 0 then filters[y].Code()
    else
      var k := i - y - 1;
      CellOf(|filters|, stride, i);
      var a, b, c := Left(img, stride, bpp, k), Above(img, stride, k), AboveLeft(img, stride, bpp, k);
      (img[k] - filters[y].Predict(a, b, c)) % 256
  }

  function Filtered(img: seq<byte>, filters: seq<Filter>, stride: nat, bpp: nat): (raw: seq<byte>)
    requires 0 < stride && 0 < bpp && |img| == |filters| * stride
    ensures |raw| == |filters| * (stride + 1)
    ensures forall i :: 0 <= i < |raw| ==> raw[i] == FilteredByte(img, filters, stride, bpp, i)
  {
    seq(|filters| * (stride + 1),
        i requires 0 <= i < |filters| * (stride + 1) => FilteredByte(img, filters, stride, bpp, i))
  }

  lemma TimesOrder(a: nat, b: nat, c: nat)
    ensures a <= b ==> a * c <= b * c
  {
  }

  lemma RowOf(rows: nat, stride: nat, i: nat)
    requires 0 < stride && i < rows * stride
    ensures i / stride < rows
  {
    TimesOrder(rows, i / stride, stride);
  }

  lemma CellOf(rows: nat, stride: nat, i: nat)
    requires 0 < stride && i < rows * (stride + 1) && i % (stride + 1) != 0
    ensures var y := i / (stride + 1); 0 <= i - y - 1 < rows * stride
  {
    var y := i / (stride + 1);
    RowOf(rows, stride + 1, i);
    TimesOrder(y + 1, rows, stride);
    assert i == y * (stride + 1) + i % (stride + 1);
  }

  // ---- Decoding ----

  /** Reading past the end of the data gives nothing. */
  function At(raw: seq<byte>, i: nat): Option<byte> {
    if i < |raw| then Some(raw[i]) else None
  }

  /** What the decoder adds for a type byte; every byte but 0 to 3 means Paeth. */
  function Delta(filter: Option<byte>, a: byte, b: byte, c: byte): byte {
    if filter == Some(0) then 0
    else if filter == Some(1) then a
    else if filter == Some(2) then b
    else if filter == Some(3) then (a + b) / 2
    else PaethPredictor(a, b, c)
  }

  /** A byte of the data with its prediction added; missing data decodes to 0. */
  function Restore(v: Option<byte>, filter: Option<byte>, a: byte, b: byte, c: byte): byte {
    if v.None? then 0 else (v.value + Delta(filter, a, b, c)) % 256
  }

  /** The next decoded byte after those already decoded. */
  function NextByte(raw: seq<byte>, stride: nat, bpp: nat, done: seq<byte>): byte
    requires 0 < stride && 0 < bpp
  {
    var k := |done|;
    var y := k / stride;
    Restore(At(raw, k + y + 1), At(raw, y * (stride + 1)),
            Left(done, stride, bpp, k), Above(done, stride, k), AboveLeft(done, stride, bpp, k))
  }

  /** The first n decoded bytes. */
  function Unfiltered(raw: seq<byte>, stride: nat, bpp: nat, n: nat): (out: seq<byte>)
    requires (0 < stride && 0 < bpp) || n == 0
    ensures |out| == n
  {
    if n == 0 then []
    else
      var done := Unfiltered(raw, stride, bpp, n - 1);
      done + [NextByte(raw, stride, bpp, done)]
  }

  /** Where the filtered bytes of image byte k are. */
  lemma RawIndex(rows: nat, stride: nat, k: nat)
    requires 0 < stride && k < rows * stride
    ensures var y, i, j := k / stride, k + k / stride + 1, (k / stride) * (stride + 1);
            && y < rows && j < i < rows * (stride + 1)
            && j / (stride + 1) == y && j % (stride + 1) == 0
            && i / (stride + 1) == y && i % (stride + 1) != 0
  {
    var y, x := k / stride, k % stride;
    RowOf(rows, stride, k);
    TimesOrder(y + 1, rows, stride + 1);
    assert k == y * stride + x;
    assert k + y + 1 == y * (stride + 1) + (x + 1);
    Quotient(y, stride + 1, x + 1);
    Quotient(y, stride + 1, 0);
  }

  lemma Quotient(q: nat, d: nat, r: nat)
    requires r < d
    ensures (q * d + r) / d == q && (q * d + r) % d == r
  {
    var n := q * d + r;
    TimesOrder(q + 1, n / d, d);
    TimesOrder(n / d + 1, q, d);
  }

  lemma Residue(v: byte, d: byte)
    ensures ((v - d) % 256 + d) % 256 == v
  {
  }

  lemma RestoreUndoesFilter(v: byte, filter: Filter, a: byte, b: byte, c: byte)
    ensures Restore(Some((v - filter.Predict(a, b, c)) % 256), Some(filter.Code()), a, b, c) == v
  {
    Residue(v, filter.Predict(a, b, c));
  }

  /** The neighbours of a byte are before it. */
  lemma NeighboursAreDone(img: seq<byte>, stride: nat, bpp: nat, k: nat)
    requires 0 < stride && 0 < bpp && k < |img|
    ensures Left(img[..k], stride, bpp, k) == Left(img, stride, bpp, k)
    ensures Above(img[..k], stride, k) == Above(img, stride, k)
    ensures AboveLeft(img[..k], stride, bpp, k) == AboveLeft(img, stride, bpp, k)
  {
  }

  /** Filtered data holds, for byte k of the image, its row's type, and the byte less its prediction. */
  ghost predicate ByteFiltered(raw: seq<byte>, img: seq<byte>, filters: seq<Filter>, stride: nat, bpp: nat, k: nat)
    requires 0 < stride && 0 < bpp && k < |img|
  {
    var y := k / stride;
    && y < |filters| && At(raw, y * (stride + 1)) == Some(filters[y].Code())
    && At(raw, k + y + 1) == Some((img[k] - filters[y].Predict(Left(img, stride, bpp, k), Above(img, stride, k),
                                                              AboveLeft(img, stride, bpp, k))) % 256)
  }

  lemma TypeIsStored(img: seq<byte>, filters: seq<Filter>, stride: nat, bpp: nat, k: nat)
    requires 0 < stride && 0 < bpp && |img| == |filters| * stride && k < |img|
    ensures k / stride < |filters|
    ensures At(Filtered(img, filters, stride, bpp), (k / stride) * (stride + 1)) == Some(filters[k / stride].Code())
  {
    var raw, j := Filtered(img, filters, stride, bpp), (k / stride) * (stride + 1);
    RawIndex(|filters|, stride, k);
    assert raw[j] == FilteredByte(img, filters, stride, bpp, j);
  }

  lemma FilteredAt(img: seq<byte>, filters: seq<Filter>, stride: nat, bpp: nat, k: nat)
    requires 0 < stride && 0 < bpp && |img| == |filters| * stride && k < |img|
    ensures ByteFiltered(Filtered(img, filters, stride, bpp), img, filters, stride, bpp, k)
  {
    var raw, i := Filtered(img, filters, stride, bpp), k + k / stride + 1;
    TypeIsStored(img, filters, stride, bpp, k);
    RawIndex(|filters|, stride, k);
    assert raw[i] == FilteredByte(img, filters, stride, bpp, i);
  }

  lemma NextByteIsRight(raw: seq<byte>, img: seq<byte>, filters: seq<Filter>, stride: nat, bpp: nat, k: nat)
    requires 0 < stride && 0 < bpp && k < |img| && ByteFiltered(raw, img, filters, stride, bpp, k)
    ensures NextByte(raw, stride, bpp, img[..k]) == img[k]
  {
    var a, b, c := Left(img, stride, bpp, k), Above(img, stride, k), AboveLeft(img, stride, bpp, k);
    NeighboursAreDone(img, stride, bpp, k);
    RestoreUndoesFilter(img[k], filters[k / stride], a, b, c);
  }

  /** Whatever filter each row uses, decoding gives back the image. */
  lemma {:induction false} UnfilterUndoesFilters(img: seq<byte>, filters: seq<Filter>, stride: nat, bpp: nat, n: nat)
    requires 0 < stride && 0 < bpp && |img| == |filters| * stride && n <= |img|
    ensures Unfiltered(Filtered(img, filters, stride, bpp), stride, bpp, n) == img[..n]
  {
    if n != 0 {
      UnfilterUndoesFilters(img, filters, stride, bpp, n - 1);
      FilteredAt(img, filters, stride, bpp, n - 1);
      NextByteIsRight(Filtered(img, filters, stride, bpp), img, filters, stride, bpp, n - 1);
    }
  }

  /** The next byte in the terms of the decoder's loops: byte x of the row that starts at `base`, whose data starts at
      `start`. */
  lemma NextByteAt(raw: seq<byte>, stride: nat, bpp: nat, done: seq<byte>, y: nat, x: nat, base: nat, start: nat)
    requires x < stride && 0 < bpp && base == y * stride && start == y * (stride + 1) && |done| == base + x
    ensures var k := base + x;
            && (0 < y ==> stride <= base) && (x >= bpp ==> bpp <= k)
            && NextByte(raw, stride, bpp, done) ==
                 Restore(At(raw, start + 1 + x), At(raw, start),
                         if x >= bpp then done[k - bpp] else 0, if 0 < y then done[k - stride] else 0,
                         if 0 < y && x >= bpp then done[k - stride - bpp] else 0)
  {
    Quotient(y, stride, x);
    TimesOrder(1, y, stride);
    NextByteParts(raw, stride, bpp, done, y, x, start);
  }

  lemma NextByteParts(raw: seq<byte>, stride: nat, bpp: nat, done: seq<byte>, y: nat, x: nat, start: nat)
    requires x < stride && 0 < bpp && start == y * (stride + 1)
    requires |done| / stride == y && |done| % stride == x && start + 1 + x == |done| + y + 1
    requires (0 < y <==> stride <= |done|) && (0 < y ==> stride + x <= |done|)
    ensures var k := |done|;
            && (x >= bpp ==> bpp <= k) && (0 < y && x >= bpp ==> stride + bpp <= k)
            && NextByte(raw, stride, bpp, done) ==
                 Restore(At(raw, start + 1 + x), At(raw, start),
                         if x >= bpp then done[k - bpp] else 0, if 0 < y then done[k - stride] else 0,
                         if 0 < y && x >= bpp then done[k - stride - bpp] else 0)
  {
  }

  // ---- What decoding gives, byte by byte ----

  /** Of the three neighbours none is nearer to a + b - c; a is taken before b, and b before c. */
  ghost predicate IsNearest(p: int, a: byte, b: byte, c: byte) {
    var e := a + b - c;
    && Abs(e - p) <= Abs(e - a) && Abs(e - p) <= Abs(e - b) && Abs(e - p) <= Abs(e - c)
    && (p == a || (p == b && Abs(e - b) < Abs(e - a)) || (p == c && Abs(e - c) < Abs(e - a) && Abs(e - c) < Abs(e - b)))
  }

  lemma PaethIsNearest(a: byte, b: byte, c: byte)
    ensures IsNearest(PaethPredictor(a, b, c), a, b, c)
  {
  }

  /** What a row's type byte adds to a byte with these neighbours: nothing, one of them, half their sum rounded down, or
      the nearest to a + b - c. */
  ghost predicate IsPrediction(filter: byte, a: byte, b: byte, c: byte, p: int) {
    if filter == 0 then p == 0
    else if filter == 1 then p == a
    else if filter == 2 then p == b
    else if filter == 3 then 2 * p <= a + b <= 2 * p + 1
    else IsNearest(p, a, b, c)
  }

  lemma DeltaIsPrediction(filter: byte, a: byte, b: byte, c: byte)
    ensures IsPrediction(filter, a, b, c, Delta(Some(filter), a, b, c))
  {
    PaethIsNearest(a, b, c);
  }

  /** A decoded byte: its data with the prediction of its row's type from the bytes decoded a pixel to the left, a row
      above, and both; 0 outside the picture, and 0 when the data is missing. */
  ghost predicate IsDecoded(raw: seq<byte>, stride: nat, bpp: nat, out: seq<byte>, y: nat, x: nat) {
    var base, start := y * stride, y * (stride + 1);
    && base + x < |out|
    && if |raw| <= start + 1 + x then out[base + x] == 0
       else
         var a := if bpp <= x then Byte(out, base + x - bpp) else 0;
         var b := if 0 < y then Byte(out, base + x - stride) else 0;
         var c := if 0 < y && bpp <= x then Byte(out, base + x - stride - bpp) else 0;
         exists p: nat :: IsPrediction(raw[start], a, b, c, p) && out[base + x] == (raw[start + 1 + x] + p) % 256
  }

  function Byte(s: seq<byte>, i: int): byte {
    if 0 <= i < |s| then s[i] else 0
  }

  lemma {:induction false} UnfilteredInOrder(raw: seq<byte>, stride: nat, bpp: nat, m: nat, n: nat)
    requires m <= n && ((0 < stride && 0 < bpp) || n == 0)
    ensures Unfiltered(raw, stride, bpp, m) <= Unfiltered(raw, stride, bpp, n)
  {
    if m < n {
      UnfilteredInOrder(raw, stride, bpp, m, n - 1);
    }
  }

  /** Each byte is made from those before it. */
  lemma ByteOfUnfiltered(raw: seq<byte>, stride: nat, bpp: nat, n: nat, k: nat)
    requires 0 < stride && 0 < bpp && k < n
    ensures var done, out := Unfiltered(raw, stride, bpp, k), Unfiltered(raw, stride, bpp, n);
            done <= out && out[k] == NextByte(raw, stride, bpp, done)
  {
    UnfilteredInOrder(raw, stride, bpp, k, k + 1);
    UnfilteredInOrder(raw, stride, bpp, k + 1, n);
  }

  lemma ByteIsBefore(stride: nat, height: nat, y: nat, x: nat)
    requires x < stride && y < height
    ensures y * stride + x < height * stride && (0 < y ==> stride <= y * stride)
  {
    TimesOrder(y + 1, height, stride);
    TimesOrder(1, y, stride);
  }

  /** For any data, short data and unknown types included, every byte of every row is that. */
  lemma UnfilteredIsDecoded(raw: seq<byte>, stride: nat, bpp: nat, height: nat, y: nat, x: nat)
    requires x < stride && y < height && 0 < bpp
    ensures IsDecoded(raw, stride, bpp, Unfiltered(raw, stride, bpp, height * stride), y, x)
  {
    var n, base, start := height * stride, y * stride, y * (stride + 1);
    ByteIsBefore(stride, height, y, x);
    ByteOfUnfiltered(raw, stride, bpp, n, base + x);
    var done := Unfiltered(raw, stride, bpp, base + x);
    NextByteAt(raw, stride, bpp, done, y, x, base, start);
    RestoredIsDecoded(raw, stride, bpp, done, Unfiltered(raw, stride, bpp, n), y, x, base, start);
  }

  lemma RestoredIsDecoded(raw: seq<byte>, stride: nat, bpp: nat, done: seq<byte>, out: seq<byte>, y: nat, x: nat,
                          base: nat, start: nat)
    requires x < stride && 0 < bpp && base == y * stride && start == y * (stride + 1) && |done| == base + x < |out|
    requires done <= out && (0 < y ==> stride <= base)
    requires out[base + x] ==
      Restore(At(raw, start + 1 + x), At(raw, start), if x >= bpp then done[base + x - bpp] else 0,
              if 0 < y then done[base + x - stride] else 0,
              if 0 < y && x >= bpp then done[base + x - stride - bpp] else 0)
    ensures IsDecoded(raw, stride, bpp, out, y, x)
  {
    if start + 1 + x < |raw| {
      var a := if x >= bpp then done[base + x - bpp] else 0;
      var b := if 0 < y then done[base + x - stride] else 0;
      var c := if 0 < y && x >= bpp then done[base + x - stride - bpp] else 0;
      DeltaIsPrediction(raw[start], a, b, c);
      var p: nat := Delta(Some(raw[start]), a, b, c);
      assert out[base + x] == (raw[start + 1 + x] + p) % 256;
    }
  }

  /** The bytes of the first y rows, by addition. */
  ghost function RowStart(y: nat, stride: nat): nat {
    if y == 0 then 0 else RowStart(y - 1, stride) + stride
  }

  lemma {:induction false} RowStarts(y: nat, stride: nat)
    ensures RowStart(y, stride) == y * stride
  {
    if y != 0 {
      RowStarts(y - 1, stride);
    }
  }

  lemma {:induction false} RowsInOrder(y: nat, height: nat, stride: nat)
    requires y <= height
    ensures RowStart(y, stride) <= RowStart(height, stride)
  {
    if y < height {
      RowsInOrder(y, height - 1, stride);
    }
  }

  /** The decoder's loops over rows and bytes, each byte rebuilt from its neighbours in the same array. */
  method Unfilter(raw: seq<byte>, stride: nat, height: nat, bpp: nat) returns (out: array<byte>)
    requires 0 < bpp || stride == 0
    ensures fresh(out) && out.Length == height * stride
    ensures out[..] == Unfiltered(raw, stride, bpp, height * stride)
  {
    RowStarts(height, stride);
    out := new byte[height * stride](_ => 0);
    var base := 0;
    for y := 0 to height
      invariant base == RowStart(y, stride) && base <= out.Length && (stride == 0 ==> base == 0)
      invariant out[..base] == Unfiltered(raw, stride, bpp, base)
    {
      RowsInOrder(y + 1, height, stride);
      UnfilterRow(raw, stride, bpp, y, base, out);
      base := base + stride;
    }
    assert out[..base] == out[..];
  }

  method UnfilterRow(raw: seq<byte>, stride: nat, bpp: nat, y: nat, base: nat, out: array<byte>)
    requires (0 < bpp && 0 < stride) || base + stride == 0
    requires base == RowStart(y, stride) && base + stride <= out.Length
    requires out[..base] == Unfiltered(raw, stride, bpp, base)
    modifies out
    ensures out[..base + stride] == Unfiltered(raw, stride, bpp, base + stride)
  {
    var start := y * (stride + 1);
    RowStarts(y, stride);
    for x := 0 to stride
      invariant out[..base + x] == Unfiltered(raw, stride, bpp, base + x)
    {
      RestoreAt(raw, stride, bpp, y, x, base, start, out);
    }
  }

  method RestoreAt(raw: seq<byte>, stride: nat, bpp: nat, y: nat, x: nat, base: nat, start: nat, out: array<byte>)
    requires x < stride && 0 < bpp && base == y * stride && start == y * (stride + 1) && base + stride <= out.Length
    requires out[..base + x] == Unfiltered(raw, stride, bpp, base + x)
    modifies out
    ensures out[..base + x + 1] == Unfiltered(raw, stride, bpp, base + x + 1)
  {
    var k := base + x;
    ghost var done := out[..k];
    NextByteAt(raw, stride, bpp, done, y, x, base, start);
    var a := if x >= bpp then out[k - bpp] else 0;
    var b := if y > 0 then out[k - stride] else 0;
    var c := if y > 0 && x >= bpp then out[k - stride - bpp] else 0;
    out[k] := Restore(At(raw, start + 1 + x), At(raw, start), a, b, c);
    assert out[..k + 1] == done + [out[k]];
  }
}
