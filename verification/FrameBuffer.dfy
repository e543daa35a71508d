/** The companion's copy of a document's last frame: bytes in rows, updated in place by the damaged rows of each
    buffer. */
module FrameBuffer {
  import opened Common
  import opened Surface

  const MAX_FRAME_SIDE := 16384
  const MAX_INT := 0x7fff_ffff

  /** A buffer as the web process hands it over; a shared-memory buffer names its own stride. */
  datatype Buffer = Buffer(width: int, height: int, bytes: seq<byte>, shmStride: Option<nat>) {
    function Stride(): nat {
      if shmStride.Some? then shmStride.value
      else if 0 < width && 0 < height then |bytes| / height
      else 0
    }

    /** The buffer holds every row it claims, the last one without padding. */
    predicate Sane() {
      && 0 < width <= MAX_FRAME_SIDE && 0 < height <= MAX_FRAME_SIDE
      && width * 4 <= Stride() <= MAX_INT && Stride() * (height - 1) + width * 4 <= |bytes|
    }

    ghost function Picture(): (p: Surface.Picture)
      requires Sane()
      ensures p.Valid() && 0 < p.width && 0 < p.height
    {
      PictureOf(bytes, Stride(), width, height)
    }
  }

  predicate SidesFit(width: int, height: int) {
    0 < width <= MAX_FRAME_SIDE && 0 < height <= MAX_FRAME_SIDE
  }

  /** The bytes from a row's first pixel to its last. */
  predicate HasRow(bytes: seq<byte>, stride: nat, width: int, y: int) {
    y * stride + width * 4 <= |bytes|
  }

  /** A buffer that names its stride is accepted exactly when its sides are 1 to 16384, every row it claims is in it,
      and no row reaches into the next. */
  lemma StridedIsSane(b: Buffer, stride: nat)
    requires b.shmStride == Some(stride)
    ensures b.Sane() <==>
      && SidesFit(b.width, b.height) && b.width * 4 <= stride <= MAX_INT
      && forall y :: 0 <= y < b.height ==> HasRow(b.bytes, stride, b.width, y)
  {
    if 0 < b.height {
      assert HasRow(b.bytes, stride, b.width, b.height - 1) <==> stride * (b.height - 1) + b.width * 4 <= |b.bytes|;
      forall y | 0 <= y < b.height && HasRow(b.bytes, stride, b.width, b.height - 1)
        ensures HasRow(b.bytes, stride, b.width, y)
      {
        if y < b.height - 1 {
          RowOrder(stride, y, b.height - 1);
        }
      }
    }
  }

  /** Pixel x of row y of an accepted buffer: four bytes, the rows a stride apart; a buffer that names none shares its
      bytes among its rows. */
  lemma PixelOfBuffer(b: Buffer, stride: nat, x: nat, y: nat)
    requires b.Sane() && x < b.width && y < b.height
    requires if b.shmStride.Some? then stride == b.shmStride.value
             else stride * b.height <= |b.bytes| < stride * b.height + b.height
    ensures y * stride + x * 4 + 4 <= |b.bytes|
    ensures b.Picture().rows[y][x] == b.bytes[y * stride + x * 4..y * stride + x * 4 + 4]
  {
    if b.shmStride.None? {
      ShareIsUnique(|b.bytes|, b.height, stride);
    }
    assert b.Picture().Has(x, y);
  }

  lemma ShareIsUnique(size: nat, height: nat, share: nat)
    requires 0 < height && share * height <= size < share * height + height
    ensures size / height == share
  {
    Division(size, height);
    var q := size / height;
    if q < share {
      RowsGrow(q + 1, share, height);
    } else if share < q {
      RowsGrow(share + 1, q, height);
    }
  }

  /** One that names no stride is accepted exactly when it has four bytes for every pixel. */
  lemma PlainIsSane(b: Buffer)
    requires b.shmStride.None? && |b.bytes| <= MAX_INT
    ensures b.Sane() <==> SidesFit(b.width, b.height) && b.height * (b.width * 4) <= |b.bytes|
  {
    if SidesFit(b.width, b.height) {
      Shares(|b.bytes|, b.height, b.width * 4);
    }
  }

  lemma Shares(size: nat, height: nat, row: nat)
    requires 0 < height
    ensures size / height <= size
    ensures row <= size / height <==> height * row <= size
    ensures row <= size / height ==> size / height * (height - 1) + row <= size
  {
    Division(size, height);
    ShareOf(size, height, row, size / height);
  }

  lemma Division(size: nat, height: nat)
    requires 0 < height
    ensures size / height * height <= size < size / height * height + height
  {
  }

  lemma ShareOf(size: nat, height: nat, row: nat, share: nat)
    requires 0 < height && share * height <= size < share * height + height
    ensures share <= size
    ensures row <= share <==> height * row <= size
    ensures row <= share ==> share * (height - 1) + row <= size
  {
    if row <= share {
      RowsGrow(row, share, height);
    } else {
      RowsGrow(share + 1, row, height);
    }
    RowsGrow(1, height, share);
  }

  lemma RowsGrow(a: nat, b: nat, k: nat)
    requires a <= b
    ensures a * k <= b * k
  {
  }

  /** A picture's rows are in the bytes. */
  ghost predicate Holds(size: nat, stride: nat, width: nat, height: nat) {
    width * 4 <= stride && (0 < height ==> (height - 1) * stride + width * 4 <= size)
  }

  lemma RowOrder(stride: nat, y: nat, y': nat)
    requires y < y'
    ensures y * stride + stride <= y' * stride
  {
    assert (y + 1) * stride <= y' * stride;
  }

  lemma PixelFits(size: nat, stride: nat, width: nat, height: nat, x: nat, y: nat)
    requires Holds(size, stride, width, height) && x < width && y < height
    ensures y * stride + x * 4 + 4 <= size
  {
    if y < height - 1 {
      RowOrder(stride, y, height - 1);
    }
  }

  /** So does a part of a row. */
  lemma SpanFits(size: nat, stride: nat, width: nat, height: nat, x0: nat, x1: nat, y: nat)
    requires Holds(size, stride, width, height) && x0 < x1 <= width && y < height
    ensures y * stride + x0 * 4 + (x1 - x0) * 4 == y * stride + x1 * 4 <= size
  {
    PixelFits(size, stride, width, height, x1 - 1, y);
  }

  function PixelAt(bytes: seq<byte>, stride: nat, x: nat, y: nat): (p: Pixel)
    requires y * stride + x * 4 + 4 <= |bytes|
  {
    bytes[y * stride + x * 4..y * stride + x * 4 + 4]
  }

  ghost function PictureOf(bytes: seq<byte>, stride: nat, width: nat, height: nat): (p: Picture)
    requires Holds(|bytes|, stride, width, height)
    ensures p.Valid() && p.width == width && p.height == height
    ensures forall x, y :: p.Has(x, y) ==>
      y * stride + x * 4 + 4 <= |bytes| && p.rows[y][x] == PixelAt(bytes, stride, x, y)
  {
    assert forall x, y :: 0 <= x < width && 0 <= y < height ==> y * stride + x * 4 + 4 <= |bytes| by {
      forall x, y | 0 <= x < width && 0 <= y < height
        ensures y * stride + x * 4 + 4 <= |bytes|
      {
        PixelFits(|bytes|, stride, width, height, x, y);
      }
    }
    Picture(width, height,
      seq(height, y requires 0 <= y < height =>
        seq(width, x requires 0 <= x < width => PixelAt(bytes, stride, x, y))))
  }

  /** `now` is `before` with the pixels of the boxes taken from the source. */
  ghost predicate Patched(now: seq<byte>, before: seq<byte>, stride: nat, source: seq<byte>, sourceStride: nat,
                          width: nat, height: nat, boxes: seq<Box>)
  {
    && |now| == |before| && Holds(|before|, stride, width, height) && Holds(|source|, sourceStride, width, height)
    && var p, q, s := PictureOf(now, stride, width, height), PictureOf(before, stride, width, height),
                      PictureOf(source, sourceStride, width, height);
       forall x, y :: p.Has(x, y) ==> p.rows[y][x] == if Copied(boxes, x, y) then s.rows[y][x] else q.rows[y][x]
  }

  /** `now` is `before` with the bytes of part of a row taken from the source. */
  ghost predicate RowCopied(now: seq<byte>, before: seq<byte>, stride: nat, source: seq<byte>, sourceStride: nat,
                            y: nat, x0: nat, x1: nat)
    requires y * sourceStride + x1 * 4 <= |source| && x0 <= x1
  {
    |now| == |before| && forall i :: 0 <= i < |now| ==>
      now[i] == if y * stride + x0 * 4 <= i < y * stride + x1 * 4 then source[i - y * stride + y * sourceStride]
                else before[i]
  }

  lemma PixelOfRow(now: seq<byte>, before: seq<byte>, stride: nat, source: seq<byte>, sourceStride: nat,
                   y: nat, x0: nat, x1: nat, x: nat, y': nat)
    requires x0 <= x1 && x1 * 4 <= stride && x * 4 + 4 <= stride
    requires y * sourceStride + x1 * 4 <= |source| && RowCopied(now, before, stride, source, sourceStride, y, x0, x1)
    requires y' * stride + x * 4 + 4 <= |now|
    ensures if y' == y && x0 <= x < x1 then PixelAt(now, stride, x, y') == PixelAt(source, sourceStride, x, y)
            else PixelAt(now, stride, x, y') == PixelAt(before, stride, x, y')
  {
    var at := y' * stride + x * 4;
    if y' < y {
      RowOrder(stride, y', y);
      BytesOutside(now, before, stride, source, sourceStride, y, x0, x1, at);
    } else if y < y' {
      RowOrder(stride, y, y');
      BytesOutside(now, before, stride, source, sourceStride, y, x0, x1, at);
    } else if x0 <= x < x1 {
      BytesInside(now, before, stride, source, sourceStride, y, x0, x1, at, y * sourceStride + x * 4);
    } else {
      BytesOutside(now, before, stride, source, sourceStride, y, x0, x1, at);
    }
  }

  lemma BytesOutside(now: seq<byte>, before: seq<byte>, stride: nat, source: seq<byte>, sourceStride: nat,
                     y: nat, x0: nat, x1: nat, at: nat)
    requires x0 <= x1 && y * sourceStride + x1 * 4 <= |source|
    requires RowCopied(now, before, stride, source, sourceStride, y, x0, x1)
    requires at + 4 <= |now| && (at + 4 <= y * stride + x0 * 4 || y * stride + x1 * 4 <= at)
    ensures now[at..at + 4] == before[at..at + 4]
  {
  }

  lemma BytesInside(now: seq<byte>, before: seq<byte>, stride: nat, source: seq<byte>, sourceStride: nat,
                    y: nat, x0: nat, x1: nat, at: nat, from: nat)
    requires x0 <= x1 && y * sourceStride + x1 * 4 <= |source|
    requires RowCopied(now, before, stride, source, sourceStride, y, x0, x1)
    requires y * stride + x0 * 4 <= at && at + 4 <= y * stride + x1 * 4 && at + 4 <= |now|
    requires from == at - y * stride + y * sourceStride
    ensures from + 4 <= |source| && now[at..at + 4] == source[from..from + 4]
  {
  }

  /** Copying bytes x0 to x1 of one row changes just those pixels. */
  lemma RowPatches(now: seq<byte>, before: seq<byte>, stride: nat, source: seq<byte>, sourceStride: nat,
                   width: nat, height: nat, y: nat, x0: nat, x1: nat)
    requires |now| == |before| && Holds(|before|, stride, width, height) && Holds(|source|, sourceStride, width, height)
    requires x0 < x1 <= width && y < height && y * sourceStride + x1 * 4 <= |source|
    requires RowCopied(now, before, stride, source, sourceStride, y, x0, x1)
    ensures Patched(now, before, stride, source, sourceStride, width, height, [Box(x0, y, x1, y + 1)])
  {
    var box := Box(x0, y, x1, y + 1);
    var p, q, s := PictureOf(now, stride, width, height), PictureOf(before, stride, width, height),
                   PictureOf(source, sourceStride, width, height);
    forall x, y' | p.Has(x, y')
      ensures p.rows[y'][x] == if Copied([box], x, y') then s.rows[y'][x] else q.rows[y'][x]
    {
      assert [box][0] == box;
      PixelOfRow(now, before, stride, source, sourceStride, y, x0, x1, x, y');
    }
  }

  /** Copying some boxes and then others from the same source copies all of them. */
  lemma PatchesJoin(now: seq<byte>, middle: seq<byte>, before: seq<byte>, stride: nat, source: seq<byte>,
                    sourceStride: nat, width: nat, height: nat, first: seq<Box>, second: seq<Box>, all: seq<Box>)
    requires Patched(middle, before, stride, source, sourceStride, width, height, first)
    requires Patched(now, middle, stride, source, sourceStride, width, height, second)
    requires forall x, y :: Copied(all, x, y) <==> Copied(first, x, y) || Copied(second, x, y)
    ensures Patched(now, before, stride, source, sourceStride, width, height, all)
  {
  }

  /** Copying one box more, after others. */
  lemma PatchesAppend(now: seq<byte>, middle: seq<byte>, before: seq<byte>, stride: nat, source: seq<byte>,
                      sourceStride: nat, width: nat, height: nat, done: seq<Box>, box: Box)
    requires Patched(middle, before, stride, source, sourceStride, width, height, done)
    requires Patched(now, middle, stride, source, sourceStride, width, height, [box])
    ensures Patched(now, before, stride, source, sourceStride, width, height, done + [box])
  {
    forall x, y {
      CopiedOfAppend(done, box, x, y);
    }
    PatchesJoin(now, middle, before, stride, source, sourceStride, width, height, done, [box], done + [box]);
  }

  /** The rows of a box above row y. */
  ghost predicate PatchedTo(now: seq<byte>, before: seq<byte>, stride: nat, source: seq<byte>, sourceStride: nat,
                            width: nat, height: nat, box: Box, y: int)
  {
    Patched(now, before, stride, source, sourceStride, width, height, [Box(box.x0, box.y0, box.x1, y)])
  }

  /** Copying one row more of a box, after those above it. */
  lemma RowAppends(now: seq<byte>, middle: seq<byte>, before: seq<byte>, stride: nat, source: seq<byte>,
                   sourceStride: nat, width: nat, height: nat, box: Box, y: nat)
    requires box.y0 <= y
    requires Patched(middle, before, stride, source, sourceStride, width, height, [Box(box.x0, box.y0, box.x1, y)])
    requires Patched(now, middle, stride, source, sourceStride, width, height, [Box(box.x0, y, box.x1, y + 1)])
    ensures Patched(now, before, stride, source, sourceStride, width, height, [Box(box.x0, box.y0, box.x1, y + 1)])
  {
    forall x, y' {
      RowsOfBox(box, y, x, y');
    }
    PatchesJoin(now, middle, before, stride, source, sourceStride, width, height,
      [Box(box.x0, box.y0, box.x1, y)], [Box(box.x0, y, box.x1, y + 1)], [Box(box.x0, box.y0, box.x1, y + 1)]);
  }

  lemma NothingPatched(bytes: seq<byte>, stride: nat, source: seq<byte>, sourceStride: nat, width: nat, height: nat,
                       boxes: seq<Box>)
    requires Holds(|bytes|, stride, width, height) && Holds(|source|, sourceStride, width, height)
    requires forall i :: 0 <= i < |boxes| ==> boxes[i].Empty()
    ensures Patched(bytes, bytes, stride, source, sourceStride, width, height, boxes)
  {
  }

  lemma RowsOfBox(box: Box, y: int, x: int, y': int)
    requires box.y0 <= y
    ensures var above, row := Box(box.x0, box.y0, box.x1, y), Box(box.x0, y, box.x1, y + 1);
            var all := Box(box.x0, box.y0, box.x1, y + 1);
            Copied([all], x, y') <==> Copied([above], x, y') || Copied([row], x, y')
  {
    var above, row := Box(box.x0, box.y0, box.x1, y), Box(box.x0, y, box.x1, y + 1);
    var all := Box(box.x0, box.y0, box.x1, y + 1);
    assert [all][0] == all && [above][0] == above && [row][0] == row;
  }

  lemma CopiedOfAppend(boxes: seq<Box>, box: Box, x: int, y: int)
    ensures Copied(boxes + [box], x, y) <==> Copied(boxes, x, y) || Copied([box], x, y)
  {
    assert [box][0] == box && (boxes + [box])[|boxes|] == box;
    forall i | 0 <= i < |boxes|
      ensures (boxes + [box])[i] == boxes[i]
    {
    }
  }

  /** The copied picture is the one the frame's step promises, whether the old pixels were kept or cleared. */
  lemma PatchedIsRendered(before: Frame, buffer: Buffer, damage: seq<Rect>, viewHeight: nat, now: seq<byte>,
                          base: seq<byte>)
    requires before.Valid() && buffer.Sane()
    requires Patched(now, base, buffer.width * 4, buffer.bytes, buffer.Stride(), buffer.width, buffer.height,
                     Redraws(before, buffer.width, buffer.height, damage, viewHeight))
    requires before.picture.SameSize(buffer.Picture()) ==>
      before.picture == PictureOf(base, buffer.width * 4, buffer.width, buffer.height)
    ensures PictureOf(now, buffer.width * 4, buffer.width, buffer.height)
         == Rendered(before, buffer.Picture(), damage, viewHeight).picture
  {
    var boxes := Redraws(before, buffer.width, buffer.height, damage, viewHeight);
    var picture, after := buffer.Picture(), PictureOf(now, buffer.width * 4, buffer.width, buffer.height);
    if before.picture.SameSize(picture) {
      PictureEquality(after, Patch(before.picture, picture, boxes));
    } else {
      assert boxes[0] == Box(0, 0, buffer.width, buffer.height);
      PictureEquality(after, picture);
    }
  }

  /** The frame record of one document. */
  class DocumentFrame {
    var pixels: array<byte>
    var width: nat
    var height: nat
    var stride: nat
    var serial: nat
    var dirty: Box

    ghost predicate Valid()
      reads this, pixels
    {
      && stride == width * 4 && pixels.Length == stride * height
      && Holds(pixels.Length, stride, width, height)
      && serial < SERIALS && (dirty == CLEAN || !dirty.Empty())
    }

    ghost function Value(): (f: Frame)
      requires Valid()
      reads this, pixels
      ensures f.Valid()
    {
      Frame(PictureOf(pixels[..], stride, width, height), dirty, serial)
    }

    constructor ()
      ensures Valid() && Value() == BLANK && fresh(pixels)
    {
      pixels := new byte[0];
      width, height, stride, serial, dirty := 0, 0, 0, 0, CLEAN;
      new;
      PictureEquality(Value().picture, BLANK.picture);
    }

    method Memcpy(to: nat, source: seq<byte>, from: nat, n: nat)
      requires to + n <= pixels.Length && from + n <= |source|
      modifies pixels
      ensures forall i :: 0 <= i < pixels.Length ==>
        pixels[i] == if to <= i < to + n then source[i - to + from] else old(pixels[i])
    {
      forall i | 0 <= i < n {
        pixels[to + i] := source[from + i];
      }
    }

    /** A part of one row. */
    method CopyRow(source: seq<byte>, sourceStride: nat, y: nat, x0: nat, x1: nat)
      requires Valid() && Holds(|source|, sourceStride, width, height)
      requires x0 < x1 <= width && y < height
      modifies pixels
      ensures Valid()
      ensures Patched(pixels[..], old(pixels[..]), stride, source, sourceStride, width, height, [Box(x0, y, x1, y + 1)])
    {
      var to, from, n := y * stride + x0 * 4, y * sourceStride + x0 * 4, (x1 - x0) * 4;
      SpanFits(pixels.Length, stride, width, height, x0, x1, y);
      SpanFits(|source|, sourceStride, width, height, x0, x1, y);
      Memcpy(to, source, from, n);
      RowPatches(pixels[..], old(pixels[..]), stride, source, sourceStride, width, height, y, x0, x1);
    }

    method CopyBox(source: seq<byte>, sourceStride: nat, box: Box)
      requires Valid() && Holds(|source|, sourceStride, width, height)
      requires !box.Empty() && box.Within(width, height)
      modifies pixels
      ensures Valid()
      ensures Patched(pixels[..], old(pixels[..]), stride, source, sourceStride, width, height, [box])
    {
      ghost var before := pixels[..];
      NothingPatched(before, stride, source, sourceStride, width, height, [Box(box.x0, box.y0, box.x1, box.y0)]);
      for y := box.y0 to box.y1
        invariant Valid()
        invariant PatchedTo(pixels[..], before, stride, source, sourceStride, width, height, box, y)
      {
        CopyNextRow(source, sourceStride, box, y, before);
      }
      assert Box(box.x0, box.y0, box.x1, box.y1) == box;
    }

    /** One more row of a box. */
    method CopyNextRow(source: seq<byte>, sourceStride: nat, box: Box, y: nat, ghost before: seq<byte>)
      requires Valid() && Holds(|source|, sourceStride, width, height)
      requires !box.Empty() && box.Within(width, height) && box.y0 <= y < box.y1
      requires PatchedTo(pixels[..], before, stride, source, sourceStride, width, height, box, y)
      modifies pixels
      ensures Valid()
      ensures PatchedTo(pixels[..], before, stride, source, sourceStride, width, height, box, y + 1)
    {
      ghost var middle := pixels[..];
      CopyRow(source, sourceStride, y, box.x0, box.x1);
      RowAppends(pixels[..], middle, before, stride, source, sourceStride, width, height, box, y);
    }

    method CopyUnlessEmpty(source: seq<byte>, sourceStride: nat, box: Box, before: Box) returns (area: Box)
      requires Valid() && Holds(|source|, sourceStride, width, height) && box.Within(width, height)
      modifies pixels
      ensures Valid()
      ensures Patched(pixels[..], old(pixels[..]), stride, source, sourceStride, width, height, [box])
      ensures area == if box.Empty() then before else before.Join(box)
    {
      area := before;
      if box.Empty() {
        NothingPatched(pixels[..], stride, source, sourceStride, width, height, [box]);
      } else {
        CopyBox(source, sourceStride, box);
        area := area.Join(box);
      }
    }

    /** One more of the boxes. */
    method CopyNext(source: seq<byte>, sourceStride: nat, box: Box, drawn: Box, ghost boxes: seq<Box>, ghost i: nat,
                    ghost before: seq<byte>)
      returns (area: Box)
      requires Valid() && i < |boxes| && box == boxes[i] && box.Within(width, height)
      requires Patched(pixels[..], before, stride, source, sourceStride, width, height, boxes[..i])
      requires drawn == Around(boxes[..i], width, height)
      modifies pixels
      ensures Valid()
      ensures Patched(pixels[..], before, stride, source, sourceStride, width, height, boxes[..i + 1])
      ensures area == Around(boxes[..i + 1], width, height)
    {
      ghost var middle := pixels[..];
      ghost var done := boxes[..i];
      assert boxes[..i + 1] == done + [box] && (done + [box])[..i] == done;
      area := CopyUnlessEmpty(source, sourceStride, box, drawn);
      PatchesAppend(pixels[..], middle, before, stride, source, sourceStride, width, height, done, box);
    }

    /** All boxes in turn, skipping the empty ones, and the box around them. */
    method CopyBoxes(source: seq<byte>, sourceStride: nat, whole: bool, damage: seq<Rect>, scale: real,
                     ghost boxes: seq<Box>)
      returns (area: Box)
      requires Valid() && Holds(|source|, sourceStride, width, height)
      requires boxes == if whole then [Box(0, 0, width, height)] else DeviceBoxes(damage, scale, width, height)
      modifies pixels
      ensures Valid()
      ensures Patched(pixels[..], old(pixels[..]), stride, source, sourceStride, width, height, boxes)
      ensures area == Around(boxes, width, height)
    {
      ghost var before := pixels[..];
      area := Box(width, height, 0, 0);
      NothingPatched(before, stride, source, sourceStride, width, height, []);
      for i := 0 to if whole then 1 else |damage|
        invariant Valid()
        invariant Patched(pixels[..], before, stride, source, sourceStride, width, height, boxes[..i])
        invariant area == Around(boxes[..i], width, height)
      {
        var box := Box(0, 0, width, height);
        if !whole {
          box := DeviceBox(Scaled(damage[i], scale), width, height);
        }
        area := CopyNext(source, sourceStride, box, area, boxes, i, before);
      }
      assert boxes[..|boxes|] == boxes;
    }

    /** New, cleared pixels for a buffer of another size. */
    method Resize(newWidth: nat, newHeight: nat)
      requires Valid()
      modifies this
      ensures Valid() && fresh(pixels)
      ensures width == newWidth && height == newHeight && dirty == old(dirty) && serial == old(serial)
      ensures forall i :: 0 <= i < pixels.Length ==> pixels[i] == 0
    {
      width, height, stride := newWidth, newHeight, newWidth * 4;
      pixels := new byte[stride * height](_ => 0);
      assert 0 < height ==> stride * height == (height - 1) * stride + stride;
    }

    /** The dirty rectangle takes in a drawn area, and the serial moves on. */
    method MarkDirty(drawn: Box)
      requires Valid()
      modifies `dirty, `serial
      ensures Valid() && dirty == Dirtied(old(dirty), drawn)
      ensures serial == if drawn.Empty() then old(serial) else NextSerial(old(serial))
    {
      var area := drawn;
      if area.x1 > area.x0 && area.y1 > area.y0 {
        if dirty.x1 > dirty.x0 {
          area := area.Join(dirty);
        }
        dirty := area;
        serial := if serial + 1 == SERIALS then 0 else serial + 1;
      }
    }

    /** The damaged rows of a buffer of the frame's size, and the box around them. */
    method CopyDamage(buffer: Buffer, damage: seq<Rect>, viewHeight: nat, resized: bool, ghost before: Frame)
      returns (area: Box)
      requires Valid() && buffer.Sane() && width == buffer.width && height == buffer.height
      requires before.Valid() && (resized <==> !before.picture.SameSize(buffer.Picture()))
      requires resized || Value().picture == before.picture
      modifies pixels
      ensures Valid() && Value().picture == Rendered(before, buffer.Picture(), damage, viewHeight).picture
      ensures area == Around(Redraws(before, width, height, damage, viewHeight), width, height)
    {
      ghost var boxes := Redraws(before, width, height, damage, viewHeight);
      ghost var base := pixels[..];
      area :=
        CopyBoxes(buffer.bytes, buffer.Stride(), resized || damage == [], damage, Scale(height, viewHeight), boxes);
      PatchedIsRendered(before, buffer, damage, viewHeight, pixels[..], base);
    }

    /** The same, and the dirty rectangle and serial after it. */
    method Draw(buffer: Buffer, damage: seq<Rect>, viewHeight: nat, resized: bool, ghost before: Frame)
      requires Valid() && buffer.Sane() && width == buffer.width && height == buffer.height
      requires before.Valid() && dirty == before.dirty && serial == before.serial
      requires resized <==> !before.picture.SameSize(buffer.Picture())
      requires resized || Value() == before
      modifies pixels, `dirty, `serial
      ensures Valid() && Value() == Rendered(before, buffer.Picture(), damage, viewHeight)
    {
      var area := CopyDamage(buffer, damage, viewHeight, resized, before);
      MarkDirty(area);
    }

    /** A rendered buffer: refused unless it holds every row it claims; otherwise its damaged rows are copied, into
        cleared pixels when the size changed. */
    method Render(buffer: Buffer, damage: seq<Rect>, viewHeight: nat) returns (accepted: bool)
      requires Valid()
      modifies this, pixels
      ensures Valid() && (pixels == old(pixels) || fresh(pixels))
      ensures accepted <==> buffer.Sane()
      ensures Value() == if accepted then Rendered(old(Value()), buffer.Picture(), damage, viewHeight) else old(Value())
    {
      accepted := buffer.Sane();
      if accepted {
        ghost var before := Value();
        var resized := width != buffer.width || height != buffer.height;
        if resized {
          Resize(buffer.width, buffer.height);
        }
        Draw(buffer, damage, viewHeight, resized, before);
      }
    }

    /** The consuming half of `kybern_web_surface_unlock`. */
    method Unlock(consume: bool)
      requires Valid()
      modifies `dirty
      ensures Valid() && Value() == if consume then old(Value()).(dirty := CLEAN) else old(Value())
    {
      if consume {
        dirty := CLEAN;
      }
    }
  }
}
