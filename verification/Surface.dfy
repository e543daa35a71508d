/** A document's frame as values: what one rendered buffer does to it, and what a consumer that uploads only the dirty
    rectangle ends with. */
module Surface {
  import opened Common

  type Pixel = seq<byte>

  /** A picture of device pixels. */
  datatype Picture = Picture(width: nat, height: nat, rows: seq<seq<Pixel>>) {
    ghost predicate Valid() {
      |rows| == height && forall y :: 0 <= y < height ==> |rows[y]| == width
    }

    predicate Has(x: int, y: int) {
      0 <= x < width && 0 <= y < height
    }

    predicate SameSize(other: Picture) {
      width == other.width && height == other.height
    }
  }

  /** A rectangle of device pixels, the far edges excluded. */
  datatype Box = Box(x0: int, y0: int, x1: int, y1: int) {
    predicate Empty() {
      x1 <= x0 || y1 <= y0
    }

    predicate Has(x: int, y: int) {
      x0 <= x < x1 && y0 <= y < y1
    }

    function Join(other: Box): Box {
      Box(Min(x0, other.x0), Min(y0, other.y0), Max(x1, other.x1), Max(y1, other.y1))
    }

    predicate Within(width: int, height: int) {
      0 <= x0 && 0 <= y0 && x1 <= width && y1 <= height
    }
  }

  const CLEAN := Box(0, 0, 0, 0)

  function Min(a: int, b: int): int {
    if a < b then a else b
  }

  function Max(a: int, b: int): int {
    if a > b then a else b
  }

  /** A damage rectangle in logical pixels of the view. */
  datatype Rect = Rect(x: int, y: int, width: int, height: int)

  /** Device pixels per logical pixel. The height of a view is never negative. */
  function Scale(height: nat, viewHeight: nat): real {
    if height != 0 && viewHeight != 0 then height as real / viewHeight as real else 1.0
  }

  /** A real clamped to [0, high] and cut to a whole number. */
  function Cut(v: real, high: nat): (n: nat)
    ensures n <= high
  {
    if v > high as real then high else if v < 0.0 then 0 else v.Floor
  }

  /** A rectangle in device pixels, by its edges. */
  datatype Area = Area(left: real, top: real, right: real, bottom: real)

  function Scaled(d: Rect, scale: real): Area {
    Area(d.x as real * scale, d.y as real * scale,
         (d.x as real + d.width as real) * scale, (d.y as real + d.height as real) * scale)
  }

  /** The device pixels copied for a scaled damage rectangle. */
  function DeviceBox(a: Area, width: nat, height: nat): (b: Box)
    ensures b.Within(width, height)
  {
    Box(Cut(a.left, width), Cut(a.top, height), Cut(a.right + 1.0, width), Cut(a.bottom + 1.0, height))
  }

  function DeviceBoxes(damage: seq<Rect>, scale: real, width: nat, height: nat): (boxes: seq<Box>)
    ensures |boxes| == |damage|
    ensures forall i :: 0 <= i < |damage| ==> boxes[i] == DeviceBox(Scaled(damage[i], scale), width, height)
  {
    seq(|damage|, i requires 0 <= i < |damage| => DeviceBox(Scaled(damage[i], scale), width, height))
  }

  /** The pixel shares a point with the scaled damage rectangle. */
  ghost predicate Touches(a: Area, x: int, y: int) {
    Spans(a.left, a.right, x, false) && Spans(a.top, a.bottom, y, false)
  }

  /** A stretch of device pixels shares a point with pixel k, or with `closed` ends where it begins. */
  predicate Spans(near: real, far: real, k: int, closed: bool) {
    near < k as real + 1.0 && if closed then k as real <= far else k as real < far
  }

  /** Rounding the near edge down and the far edge up misses no pixel of the picture that the damage touches. */
  lemma TouchedIsCopied(a: Area, width: nat, height: nat, x: int, y: int)
    requires 0 <= x < width && 0 <= y < height && Touches(a, x, y)
    ensures DeviceBox(a, width, height).Has(x, y)
  {
    CutCovers(a.left, a.right, width, x);
    CutCovers(a.top, a.bottom, height, y);
  }

  lemma CutCovers(near: real, far: real, high: nat, k: int)
    requires 0 <= k < high && near < k as real + 1.0 && (k as real) < far
    ensures Cut(near, high) <= k < Cut(far + 1.0, high)
  {
  }

  /** Exactly the pixels of the picture are copied that share a point with the rectangle or begin at its far edge. */
  lemma BoxIsExact(a: Area, width: nat, height: nat, x: int, y: int)
    requires 0 <= x < width && 0 <= y < height
    ensures DeviceBox(a, width, height).Has(x, y) <==>
      Spans(a.left, a.right, x, true) && Spans(a.top, a.bottom, y, true)
  {
    CutIsExact(a.left, a.right, width, x);
    CutIsExact(a.top, a.bottom, height, y);
  }

  lemma CutIsExact(near: real, far: real, high: nat, k: int)
    requires 0 <= k < high
    ensures Cut(near, high) <= k < Cut(far + 1.0, high) <==> Spans(near, far, k, true)
  {
  }

  // ---- Damage in the view's own pixels ----

  /** Where device pixel `edge` begins, in logical pixels of a view whose height is that many device pixels; a view
      without a height counts in device pixels. */
  function Logical(edge: int, height: nat, viewHeight: nat): real
    requires 0 < height
  {
    if viewHeight == 0 then edge as real else edge as real * viewHeight as real / height as real
  }

  /** The device pixel shares a point with the damage rectangle, or with `closed` begins at its far edge. */
  ghost predicate Meets(d: Rect, height: nat, viewHeight: nat, x: int, y: int, closed: bool)
    requires 0 < height
  {
    && Between(d.x, d.width, Logical(x, height, viewHeight), Logical(x + 1, height, viewHeight), closed)
    && Between(d.y, d.height, Logical(y, height, viewHeight), Logical(y + 1, height, viewHeight), closed)
  }

  predicate Between(start: int, length: int, near: real, far: real, closed: bool) {
    start as real < far && if closed then near <= (start + length) as real else near < (start + length) as real
  }

  /** Scaling a logical number compares with a device pixel as the number does with the pixel's logical place. */
  lemma ScaleCompares(a: real, edge: int, height: nat, viewHeight: nat)
    requires 0 < height
    ensures a * Scale(height, viewHeight) < edge as real <==> a < Logical(edge, height, viewHeight)
    ensures a * Scale(height, viewHeight) > edge as real <==> a > Logical(edge, height, viewHeight)
  {
    if viewHeight != 0 {
      RatioCompares(a, edge as real, height as real, viewHeight as real);
    }
  }

  lemma RatioCompares(a: real, e: real, h: real, v: real)
    requires 0.0 < h && 0.0 < v
    ensures a * (h / v) < e <==> a < e * v / h
    ensures a * (h / v) > e <==> a > e * v / h
  {
    var up, down := a * (h / v), e * v / h;
    assert up * v == a * h && down * h == e * v;
    Ordered(up, e, v);
    Ordered(a, down, h);
  }

  lemma Ordered(a: real, b: real, k: real)
    requires 0.0 < k
    ensures a < b <==> a * k < b * k
    ensures a > b <==> a * k > b * k
  {
    if a < b {
      assert (b - a) * k > 0.0;
    } else if b < a {
      assert (a - b) * k > 0.0;
    }
  }

  lemma AxisMeets(start: int, length: int, near: real, far: real, height: nat, viewHeight: nat, k: int, closed: bool)
    requires 0 < height && near == start as real * Scale(height, viewHeight)
    requires far == (start as real + length as real) * Scale(height, viewHeight)
    ensures Spans(near, far, k, closed) <==>
      Between(start, length, Logical(k, height, viewHeight), Logical(k + 1, height, viewHeight), closed)
  {
    ScaleCompares(start as real, k + 1, height, viewHeight);
    ScaleCompares(start as real + length as real, k, height, viewHeight);
    assert (k + 1) as real == k as real + 1.0 && (start + length) as real == start as real + length as real;
  }

  /** The scaled rectangle touches exactly the device pixels that the logical one does. */
  lemma ScaledMeets(d: Rect, a: Area, height: nat, viewHeight: nat, x: int, y: int, closed: bool)
    requires 0 < height && a == Scaled(d, Scale(height, viewHeight))
    ensures Spans(a.left, a.right, x, closed) && Spans(a.top, a.bottom, y, closed) <==>
      Meets(d, height, viewHeight, x, y, closed)
  {
    AxisMeets(d.x, d.width, a.left, a.right, height, viewHeight, x, closed);
    AxisMeets(d.y, d.height, a.top, a.bottom, height, viewHeight, y, closed);
  }

  lemma CutWhole(n: int, high: nat)
    ensures Cut(n as real, high) == if n > high then high else Max(n, 0)
  {
  }

  lemma WholeProduct(a: int, k: nat)
    ensures a as real * k as real == (a * k) as real
  {
  }

  lemma WholeEdges(d: Rect, k: nat)
    ensures Scaled(d, k as real) ==
      Area((d.x * k) as real, (d.y * k) as real, ((d.x + d.width) * k) as real, ((d.y + d.height) * k) as real)
  {
    WholeProduct(d.x, k);
    WholeProduct(d.y, k);
    WholeProduct(d.x + d.width, k);
    WholeProduct(d.y + d.height, k);
  }

  lemma BoxOfWholeEdges(left: nat, top: nat, right: nat, bottom: nat, width: nat, height: nat)
    ensures DeviceBox(Area(left as real, top as real, right as real, bottom as real), width, height)
         == Box(Min(left, width), Min(top, height), Min(right + 1, width), Min(bottom + 1, height))
  {
    CutWhole(left, width);
    CutWhole(top, height);
    CutWhole(right + 1, width);
    CutWhole(bottom + 1, height);
  }

  /** At a whole scale the copied box is the damage rectangle and one more column and row, cut to the picture. */
  lemma WholeScaleAddsOne(d: Rect, k: nat, width: nat, height: nat)
    requires 0 <= d.x && 0 <= d.y && 0 <= d.width && 0 <= d.height
    ensures DeviceBox(Scaled(d, k as real), width, height) ==
      Box(Min(d.x * k, width), Min(d.y * k, height),
          Min((d.x + d.width) * k + 1, width), Min((d.y + d.height) * k + 1, height))
  {
    WholeEdges(d, k);
    BoxOfWholeEdges(d.x * k, d.y * k, (d.x + d.width) * k, (d.y + d.height) * k, width, height);
  }

  ghost predicate Copied(boxes: seq<Box>, x: int, y: int) {
    exists i :: 0 <= i < |boxes| && boxes[i].Has(x, y)
  }

  /** The least box around the boxes that are not empty; with none, an empty box. */
  function Around(boxes: seq<Box>, width: nat, height: nat): Box {
    if boxes == [] then Box(width, height, 0, 0)
    else
      var before, last := Around(boxes[..|boxes| - 1], width, height), boxes[|boxes| - 1];
      if last.Empty() then before else before.Join(last)
  }

  /** The picture with the pixels of the boxes taken from a buffer of the same size. */
  ghost function Patch(old_: Picture, buffer: Picture, boxes: seq<Box>): (p: Picture)
    requires buffer.Valid() && (old_.Valid() && old_.SameSize(buffer))
    ensures p.Valid() && p.SameSize(buffer)
    ensures forall x, y :: p.Has(x, y) ==>
      p.rows[y][x] == if Copied(boxes, x, y) then buffer.rows[y][x] else old_.rows[y][x]
  {
    Picture(buffer.width, buffer.height,
      seq(buffer.height, y requires 0 <= y < buffer.height =>
        seq(buffer.width, x requires 0 <= x < buffer.width =>
          if Copied(boxes, x, y) then buffer.rows[y][x] else old_.rows[y][x])))
  }

  lemma PictureEquality(p: Picture, q: Picture)
    requires p.Valid() && q.Valid() && p.SameSize(q)
    requires forall x, y :: p.Has(x, y) ==> p.rows[y][x] == q.rows[y][x]
    ensures p == q
  {
    forall y | 0 <= y < p.height
      ensures p.rows[y] == q.rows[y]
    {
      assert forall x :: 0 <= x < p.width ==> p.Has(x, y);
    }
  }

  lemma {:induction false} AroundHolds(boxes: seq<Box>, width: nat, height: nat, i: nat, x: int, y: int)
    requires i < |boxes| && boxes[i].Has(x, y)
    ensures Around(boxes, width, height).Has(x, y)
  {
    var before := boxes[..|boxes| - 1];
    if i < |before| {
      AroundHolds(before, width, height, i, x, y);
    }
  }

  /** The box around boxes of a picture lies in the picture, and is empty only if every box is. */
  lemma {:induction false} AroundIsWithin(boxes: seq<Box>, width: nat, height: nat)
    requires forall i :: 0 <= i < |boxes| ==> boxes[i].Within(width, height)
    ensures Around(boxes, width, height).Within(width, height)
    ensures Around(boxes, width, height).Empty() <==> forall i :: 0 <= i < |boxes| ==> boxes[i].Empty()
    ensures Around(boxes, width, height).Empty() ==> Around(boxes, width, height) == Box(width, height, 0, 0)
  {
    if boxes != [] {
      AroundIsWithin(boxes[..|boxes| - 1], width, height);
    }
  }

  /** Every pixel of the one is in the other. */
  predicate Covers(outer: Box, inner: Box) {
    || inner.Empty()
    || (outer.x0 <= inner.x0 && outer.y0 <= inner.y0 && inner.x1 <= outer.x1 && inner.y1 <= outer.y1)
  }

  /** No box around boxes of a picture is smaller. */
  lemma {:induction false} AroundIsLeast(boxes: seq<Box>, width: nat, height: nat, outer: Box)
    requires forall i :: 0 <= i < |boxes| ==> boxes[i].Within(width, height)
    ensures Covers(outer, Around(boxes, width, height)) <==> forall i :: 0 <= i < |boxes| ==> Covers(outer, boxes[i])
  {
    if boxes != [] {
      var before, last := boxes[..|boxes| - 1], boxes[|boxes| - 1];
      AroundIsLeast(before, width, height, outer);
      AroundIsWithin(before, width, height);
      if !last.Empty() {
        JoinIsLeast(Around(before, width, height), last, width, height, outer);
      }
      assert forall i :: 0 <= i < |before| ==> boxes[i] == before[i];
    }
  }

  lemma JoinIsLeast(a: Box, b: Box, width: nat, height: nat, outer: Box)
    requires a.Within(width, height) && b.Within(width, height) && !b.Empty()
    requires a.Empty() ==> a == Box(width, height, 0, 0)
    ensures Covers(outer, a.Join(b)) <==> Covers(outer, a) && Covers(outer, b)
  {
  }

  /** A document's frame: its pixels, the pixels changed since they were last consumed, and the drawing's number. */
  datatype Frame = Frame(picture: Picture, dirty: Box, serial: nat) {
    ghost predicate Valid() {
      && picture.Valid() && serial < SERIALS
      && (dirty == CLEAN || !dirty.Empty())
    }
  }

  const SERIALS: nat := 0x1_0000_0000_0000_0000

  /** The next 64-bit serial. */
  function NextSerial(serial: nat): (n: nat)
    requires serial < SERIALS
    ensures n < SERIALS
  {
    if serial + 1 == SERIALS then 0 else serial + 1
  }

  const BLANK := Frame(Picture(0, 0, []), CLEAN, 0)

  /** What a buffer redraws: everything after a resize or without damage, else the boxes of its damage. */
  function Redraws(f: Frame, width: nat, height: nat, damage: seq<Rect>, viewHeight: nat): (boxes: seq<Box>)
    ensures forall i :: 0 <= i < |boxes| ==> boxes[i].Within(width, height)
  {
    if damage == [] || f.picture.width != width || f.picture.height != height then [Box(0, 0, width, height)]
    else DeviceBoxes(damage, Scale(height, viewHeight), width, height)
  }

  /** The dirty rectangle after redrawing an area. */
  function Dirtied(dirty: Box, area: Box): Box {
    if area.Empty() then dirty else if dirty.x1 > dirty.x0 then area.Join(dirty) else area
  }

  /** The frame after an accepted buffer. */
  ghost function Rendered(f: Frame, buffer: Picture, damage: seq<Rect>, viewHeight: nat): (f': Frame)
    requires f.Valid() && buffer.Valid() && 0 < buffer.width && 0 < buffer.height
    ensures f'.Valid() && f'.picture.SameSize(buffer)
  {
    var boxes := Redraws(f, buffer.width, buffer.height, damage, viewHeight);
    var area := Around(boxes, buffer.width, buffer.height);
    Frame(if f.picture.SameSize(buffer) then Patch(f.picture, buffer, boxes) else buffer,
          Dirtied(f.dirty, area), if area.Empty() then f.serial else NextSerial(f.serial))
  }

  /** The buffer's damage tells the truth: every pixel that differs from the last buffer shares a point with a
      rectangle of it, in the view's own pixels. */
  ghost predicate Declares(last: Picture, buffer: Picture, damage: seq<Rect>, viewHeight: nat)
    requires last.Valid() && buffer.Valid() && last.SameSize(buffer)
  {
    forall x, y :: buffer.Has(x, y) && last.rows[y][x] != buffer.rows[y][x] ==>
      exists i :: 0 <= i < |damage| && Meets(damage[i], buffer.height, viewHeight, x, y, false)
  }

  /** A buffer copies every pixel after a resize or without damage, and else exactly those that its damage meets, the
      far edge included. */
  lemma RedrawsAreExact(f: Frame, buffer: Picture, damage: seq<Rect>, viewHeight: nat, x: int, y: int)
    requires buffer.Has(x, y)
    ensures Copied(Redraws(f, buffer.width, buffer.height, damage, viewHeight), x, y) <==>
      || damage == [] || !f.picture.SameSize(buffer)
      || exists i :: 0 <= i < |damage| && Meets(damage[i], buffer.height, viewHeight, x, y, true)
  {
    var boxes := Redraws(f, buffer.width, buffer.height, damage, viewHeight);
    if damage == [] || !f.picture.SameSize(buffer) {
      assert boxes[0].Has(x, y);
    } else {
      forall i | 0 <= i < |damage|
        ensures boxes[i].Has(x, y) <==> Meets(damage[i], buffer.height, viewHeight, x, y, true)
      {
        var a := Scaled(damage[i], Scale(buffer.height, viewHeight));
        BoxIsExact(a, buffer.width, buffer.height, x, y);
        ScaledMeets(damage[i], a, buffer.height, viewHeight, x, y, true);
      }
    }
  }

  /** A frame that showed the last buffer shows the new one exactly when every changed pixel is in a copied box, which
      truthful damage guarantees. */
  lemma DamageIsExact(f: Frame, buffer: Picture, damage: seq<Rect>, viewHeight: nat)
    requires f.Valid() && buffer.Valid() && 0 < buffer.width && 0 < buffer.height
    ensures var boxes := Redraws(f, buffer.width, buffer.height, damage, viewHeight);
            Rendered(f, buffer, damage, viewHeight).picture == buffer <==>
              (f.picture.SameSize(buffer) ==> forall x, y :: buffer.Has(x, y) && !Copied(boxes, x, y) ==>
                f.picture.rows[y][x] == buffer.rows[y][x])
    ensures (f.picture.SameSize(buffer) && damage != [] ==> Declares(f.picture, buffer, damage, viewHeight)) ==>
      Rendered(f, buffer, damage, viewHeight).picture == buffer
  {
    var boxes := Redraws(f, buffer.width, buffer.height, damage, viewHeight);
    var after := Rendered(f, buffer, damage, viewHeight).picture;
    if f.picture.SameSize(buffer) {
      if forall x, y :: buffer.Has(x, y) && !Copied(boxes, x, y) ==> f.picture.rows[y][x] == buffer.rows[y][x] {
        PictureEquality(after, buffer);
      }
      if damage == [] {
        assert boxes[0] == Box(0, 0, buffer.width, buffer.height);
        assert forall x, y :: buffer.Has(x, y) ==> Copied(boxes, x, y);
      } else if Declares(f.picture, buffer, damage, viewHeight) {
        forall x, y | buffer.Has(x, y) && f.picture.rows[y][x] != buffer.rows[y][x]
          ensures Copied(boxes, x, y)
        {
          var i :| 0 <= i < |damage| && Meets(damage[i], buffer.height, viewHeight, x, y, false);
          var a := Scaled(damage[i], Scale(buffer.height, viewHeight));
          ScaledMeets(damage[i], a, buffer.height, viewHeight, x, y, false);
          TouchedIsCopied(a, buffer.width, buffer.height, x, y);
          assert boxes[i].Has(x, y);
        }
      }
    }
  }

  /** The dirty rectangle after a buffer is the least around what was dirty and what was redrawn; the serial moves on
      exactly when something was redrawn. */
  lemma DirtyIsLeast(f: Frame, buffer: Picture, damage: seq<Rect>, viewHeight: nat, outer: Box)
    requires f.Valid() && buffer.Valid() && 0 < buffer.width && 0 < buffer.height
    ensures var boxes := Redraws(f, buffer.width, buffer.height, damage, viewHeight);
            var after := Rendered(f, buffer, damage, viewHeight);
            && (Covers(outer, after.dirty) <==>
                  Covers(outer, f.dirty) && forall i :: 0 <= i < |boxes| ==> Covers(outer, boxes[i]))
            && (after.serial != f.serial <==> exists i :: 0 <= i < |boxes| && !boxes[i].Empty())
  {
    var boxes := Redraws(f, buffer.width, buffer.height, damage, viewHeight);
    AroundIsWithin(boxes, buffer.width, buffer.height);
    AroundIsLeast(boxes, buffer.width, buffer.height, outer);
  }
}
