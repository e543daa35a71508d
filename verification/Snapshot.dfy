/** A snapshot of a document: a crop of its frame, written as a PNG with straight alpha. */
module Snapshot {
  import opened Common
  import opened PngFilter
  import opened PngChunks
  import opened PngImage
  import opened PngRows
  import opened PngWriters

  // ---- The requested rectangle ----

  function Scale(frame: Image, viewHeight: int): real {
    if viewHeight > 0 then frame.height as real / viewHeight as real else 1.0
  }

  function Max0(v: real): real {
    if v > 0.0 then v else 0.0
  }

  predicate Asked(rect: Rect) {
    rect.width > 0.0 && rect.height > 0.0
  }

  /** The device pixels of a rectangle already scaled; none when nothing of it is left. */
  function DeviceCrop(frame: Image, rect: Rect): Option<Crop> {
    var x, y := Max0(rect.x).Floor, Max0(rect.y).Floor;
    var w, h := Min(frame.width - x, Rounded(rect.width)), Min(frame.height - y, Rounded(rect.height));
    if w > 0 && h > 0 then Some(Crop(x, y, w, h)) else None
  }

  /** What to write: the whole frame without a rectangle. At any scale and for any rectangle, the crop is not empty and
      stays inside the frame. */
  function CropAt(frame: Image, scale: real, rect: Rect): (crop: Option<Crop>)
    ensures crop.Some? ==> crop.value.Inside(frame) && 0 < crop.value.width && 0 < crop.value.height
  {
    if Asked(rect) then DeviceCrop(frame, Scaled(rect, scale))
    else if frame.width > 0 && frame.height > 0 then Some(Crop(0, 0, frame.width, frame.height))
    else None
  }

  /** Nothing is left of a rectangle exactly when the frame is empty, or the rectangle starts past it or rounds to
      nothing. */
  lemma NothingIsLeft(frame: Image, rect: Rect)
    ensures DeviceCrop(frame, rect).None? <==>
      || frame.width == 0 || rect.x >= frame.width as real || rect.width < 0.5
      || frame.height == 0 || rect.y >= frame.height as real || rect.height < 0.5
  {
    NoneLeft(frame.width, rect.x, rect.width);
    NoneLeft(frame.height, rect.y, rect.height);
  }

  lemma NoneLeft(size: nat, start: real, length: real)
    ensures Min(size - Max0(start).Floor, Rounded(length)) <= 0 <==> start >= size as real || length < 0.5 || size == 0
  {
  }

  /** A whole rectangle of device pixels inside the frame is exactly itself. */
  lemma WholeRectIsExact(frame: Image, crop: Crop)
    requires crop.Inside(frame) && 0 < crop.width && 0 < crop.height
    ensures CropAt(frame, 1.0, Rect(crop.x as real, crop.y as real, crop.width as real, crop.height as real))
         == Some(crop)
  {
    assert Rounded(crop.width as real) == crop.width && Rounded(crop.height as real) == crop.height;
  }

  /** How many logical pixels a device pixel is; one for a view without a height. */
  function Unit(frame: Image, viewHeight: int): real
    requires 0 < frame.height
  {
    if viewHeight > 0 then viewHeight as real / frame.height as real else 1.0
  }

  /** At any scale what is left of a requested rectangle is its crop; without a rectangle it is the whole frame. */
  lemma CropIsAsked(frame: Image, viewHeight: int, rect: Rect)
    requires 0 < frame.height
    ensures var crop := CropAt(frame, Scale(frame, viewHeight), rect);
            if rect.width > 0.0 && rect.height > 0.0
            then crop.Some? ==> IsCropOf(crop.value, rect, frame.width, frame.height, Unit(frame, viewHeight))
            else crop == if frame.width == 0 then None else Some(Crop(0, 0, frame.width, frame.height))
  {
    if Asked(rect) && CropAt(frame, Scale(frame, viewHeight), rect).Some? {
      UnitIsInverse(frame, viewHeight);
      CropOfScaled(frame, rect, Scale(frame, viewHeight), Unit(frame, viewHeight));
    }
  }

  lemma CropOfScaled(frame: Image, rect: Rect, scale: real, unit: real)
    requires 0.0 < unit && scale * unit == 1.0 && DeviceCrop(frame, Scaled(rect, scale)).Some?
    ensures IsCropOf(DeviceCrop(frame, Scaled(rect, scale)).value, rect, frame.width, frame.height, unit)
  {
    var scaled := Scaled(rect, scale);
    var crop := DeviceCrop(frame, scaled).value;
    EdgeIsFloor(scaled.x);
    EdgeIsFloor(scaled.y);
    SideOfScaled(rect.x, rect.width, frame.width, scale, unit, crop.x, crop.width);
    SideOfScaled(rect.y, rect.height, frame.height, scale, unit, crop.y, crop.height);
  }

  /** Nothing is left of a side: the rectangle starts past the frame, or is less than half a pixel long. */
  predicate SideIsGone(start: real, size: real, all: int, unit: real) {
    all == 0 || start >= all as real * unit || size < unit / 2.0
  }

  /** A requested rectangle leaves nothing exactly when one of its sides is gone. */
  lemma NothingIsAsked(frame: Image, viewHeight: int, rect: Rect)
    requires 0 < frame.height && rect.width > 0.0 && rect.height > 0.0
    ensures var unit := Unit(frame, viewHeight);
            CropAt(frame, Scale(frame, viewHeight), rect).None? <==>
              || SideIsGone(rect.x, rect.width, frame.width, unit)
              || SideIsGone(rect.y, rect.height, frame.height, unit)
  {
    UnitIsInverse(frame, viewHeight);
    var scale, unit := Scale(frame, viewHeight), Unit(frame, viewHeight);
    NothingOfScaled(frame, rect, Scaled(rect, scale), scale, unit);
  }

  lemma NothingOfScaled(frame: Image, rect: Rect, scaled: Rect, scale: real, unit: real)
    requires 0.0 < unit && scale * unit == 1.0 && scaled == Scaled(rect, scale)
    ensures DeviceCrop(frame, scaled).None? <==>
      SideIsGone(rect.x, rect.width, frame.width, unit) || SideIsGone(rect.y, rect.height, frame.height, unit)
  {
    NothingIsLeft(frame, scaled);
    GoneIsScaled(rect.x, rect.width, scaled.x, scaled.width, frame.width, scale, unit);
    GoneIsScaled(rect.y, rect.height, scaled.y, scaled.height, frame.height, scale, unit);
  }

  lemma GoneIsScaled(start: real, size: real, from: real, length: real, all: int, scale: real, unit: real)
    requires 0.0 < unit && scale * unit == 1.0 && from == start * scale && length == size * scale
    ensures SideIsGone(start, size, all, unit) <==> all == 0 || from >= all as real || length < 0.5
  {
    assert from * unit == start && length * unit == size;
    Multiplied(from, all as real, unit);
    Multiplied(all as real, from, unit);
    Multiplied(length, 0.5, unit);
    Multiplied(0.5, length, unit);
    assert 0.5 * unit == unit / 2.0;
  }

  lemma EdgeIsFloor(v: real)
    ensures Max0(v).Floor == Max(0, v.Floor)
  {
  }

  lemma UnitIsInverse(frame: Image, viewHeight: int)
    requires 0 < frame.height
    ensures 0.0 < Unit(frame, viewHeight) && Scale(frame, viewHeight) * Unit(frame, viewHeight) == 1.0
  {
    if viewHeight > 0 {
      Reciprocal(frame.height as real, viewHeight as real);
    }
  }

  lemma Reciprocal(h: real, v: real)
    requires 0.0 < h && 0.0 < v
    ensures 0.0 < v / h && (h / v) * (v / h) == 1.0
  {
    assert (h / v) * v == h && (v / h) * h == v;
  }

  // ---- Straight alpha ----

  function Straight(c: byte, a: byte): byte {
    if a == 0 then 0 else Min(255, (c * 255 + (a / 2) as int) / a)
  }

  function Premultiplied(s: byte, a: byte): byte {
    (s * a + 127) / 255
  }

  lemma DivisionBounds(n: nat, d: nat)
    requires 0 < d
    ensures n / d * d <= n < n / d * d + d
  {
  }

  lemma QuotientIsAtLeast(n: nat, d: nat, q: nat)
    requires 0 < d && q * d <= n
    ensures q <= n / d
  {
    DivisionBounds(n, d);
    if n / d < q {
      TimesOrder(n / d + 1, q, d);
    }
  }

  lemma QuotientIsAtMost(n: nat, d: nat, q: nat)
    requires 0 < d && n < q * d + d
    ensures n / d <= q
  {
    DivisionBounds(n, d);
    if q < n / d {
      TimesOrder(q + 1, n / d, d);
    }
  }

  /** The straight colour is the nearest: within half of the alpha, so within 127. */
  lemma StraightIsNear(c: byte, a: byte)
    requires c <= a
    ensures -127 <= Straight(c, a) * a - c * 255 <= 127
  {
    if a != 0 {
      var n: nat := c * 255 + (a / 2) as int;
      DivisionBounds(n, a);
      QuotientIsAtMost(n, a, 255);
    }
  }

  /** Premultiplying with rounding gives back the colour exactly when the colour is at most the alpha. */
  lemma PremultiplyIsInverse(c: byte, a: byte)
    ensures Premultiplied(Straight(c, a), a) == c <==> c <= a
  {
    if c <= a {
      StraightIsNear(c, a);
      var n: nat := Straight(c, a) * a + 127;
      QuotientIsAtLeast(n, 255, c);
      QuotientIsAtMost(n, 255, c);
    } else if a != 0 {
      QuotientIsAtLeast(c * 255 + (a / 2) as int, a, 255);
    }
  }

  // ---- The file ----

  /** A straight RGBA pixel of a premultiplied BGRA one. */
  function StraightPixel(s: seq<byte>): (p: seq<byte>)
    ensures |p| == 4
  {
    if |s| != 4 || s[3] == 0 then [0, 0, 0, 0]
    else [Straight(s[2], s[3]), Straight(s[1], s[3]), Straight(s[0], s[3]), s[3]]
  }

  /** A premultiplied BGRA pixel of a straight RGBA one. */
  function PremultipliedPixel(p: seq<byte>): seq<byte>
    requires |p| == 4
  {
    [Premultiplied(p[2], p[3]), Premultiplied(p[1], p[3]), Premultiplied(p[0], p[3]), p[3]]
  }

  predicate Premultiplies(s: seq<byte>) {
    |s| == 4 && s[0] <= s[3] && s[1] <= s[3] && s[2] <= s[3]
  }

  lemma PixelRoundTrip(s: seq<byte>)
    requires |s| == 4
    ensures PremultipliedPixel(StraightPixel(s)) == s <==> Premultiplies(s)
  {
    var t := PremultipliedPixel(StraightPixel(s));
    PremultiplyIsInverse(s[0], s[3]);
    PremultiplyIsInverse(s[1], s[3]);
    PremultiplyIsInverse(s[2], s[3]);
    assert t == s <==> t[0] == s[0] && t[1] == s[1] && t[2] == s[2];
  }

  function SnapshotPixels(frame: Image, crop: Crop): Pixels {
    (x, y) => StraightPixel(frame.Samples(crop.x + x, crop.y + y))
  }

  lemma SnapshotPixelsAreSized(frame: Image, crop: Crop)
    ensures Sized(SnapshotPixels(frame, crop), 4)
  {
    forall x: nat, y: nat
      ensures |SnapshotPixels(frame, crop)(x, y)| == 4
    {
      assert SnapshotPixels(frame, crop)(x, y) == StraightPixel(frame.Samples(crop.x + x, crop.y + y));
    }
  }

  function SnapshotFile(z: Zlib, frame: Image, crop: Crop): Option<seq<byte>> {
    Encoded(z, crop.width, crop.height, 6, Lines(SnapshotPixels(frame, crop), crop.width, crop.height))
  }

  method WriteSnapshot(z: Zlib, frame: Image, crop: Crop) returns (file: Option<seq<byte>>)
    ensures file == SnapshotFile(z, frame, crop)
  {
    SnapshotPixelsAreSized(frame, crop);
    var raw := StoreRows(SnapshotPixels(frame, crop), crop.width, crop.height, 4);
    file := WriteFile(z, crop.width, crop.height, 6, raw[..]);
  }

  /** Nothing is written for a document without a frame, or when the rectangle leaves nothing. */
  function SnapshotOf(z: Zlib, frame: Option<Image>, viewHeight: int, rect: Rect): Option<seq<byte>> {
    if frame.None? || frame.value.width == 0 then None
    else
      match CropAt(frame.value, Scale(frame.value, viewHeight), rect)
      case None => None
      case Some(crop) => SnapshotFile(z, frame.value, crop)
  }

  method SnapshotTo(z: Zlib, frame: Option<Image>, viewHeight: int, rect: Rect) returns (file: Option<seq<byte>>)
    ensures file == SnapshotOf(z, frame, viewHeight, rect)
  {
    if frame.None? || frame.value.width == 0 {
      return None;
    }
    var crop := CropAt(frame.value, Scale(frame.value, viewHeight), rect);
    if crop.None? {
      return None;
    }
    file := WriteSnapshot(z, frame.value, crop.value);
  }

  /** A decoded pixel, premultiplied again, is the frame's pixel exactly when no colour of that exceeds its alpha. */
  ghost predicate Exact(image: Image, frame: Image, crop: Crop, x: nat, y: nat) {
    var p, s := image.Samples(x, y), frame.Samples(crop.x + x, crop.y + y);
    |p| == 4 && |s| == 4 && (PremultipliedPixel(p) == s <==> Premultiplies(s))
  }

  /** The image is the crop of a frame with straight alpha. */
  ghost predicate IsSnapshot(image: Option<Image>, frame: Image, crop: Crop) {
    && crop.Inside(frame)
    && image.Some? && image.value.width == crop.width && image.value.height == crop.height
    && forall x: nat, y: nat :: x < crop.width && y < crop.height ==> Exact(image.value, frame, crop, x, y)
  }

  ghost predicate SnapshotFits(z: Zlib, frame: Image, crop: Crop) {
    Fits(z, crop.width, crop.height, Lines(SnapshotPixels(frame, crop), crop.width, crop.height))
  }

  lemma CropIsRestored(z: Zlib, frame: Image, crop: Crop)
    requires Lossless(z) && frame.Valid() && frame.channels == 4 && crop.Inside(frame)
    requires SnapshotFile(z, frame, crop).Some?
    ensures IsSnapshot(Decode(z, SnapshotFile(z, frame, crop).value), frame, crop)
  {
    var pixel, image := SnapshotPixels(frame, crop), Decode(z, SnapshotFile(z, frame, crop).value);
    SnapshotPixelsAreSized(frame, crop);
    RowsAreDecoded(z, pixel, crop.width, crop.height, 6);
    forall x: nat, y: nat | x < crop.width && y < crop.height
      ensures Exact(image.value, frame, crop, x, y)
    {
      assert Shows(image.value, pixel, x, y);
      PixelIsExact(frame, crop, image.value, x, y);
    }
  }

  lemma PixelIsExact(frame: Image, crop: Crop, image: Image, x: nat, y: nat)
    requires frame.Valid() && frame.channels == 4 && crop.Inside(frame) && x < crop.width && y < crop.height
    requires image.channels == 4 && Shows(image, SnapshotPixels(frame, crop), x, y)
    ensures Exact(image, frame, crop, x, y)
  {
    var s := frame.Samples(crop.x + x, crop.y + y);
    PixelIsThere(frame, crop.x + x, crop.y + y);
    PixelRoundTrip(s);
    assert SnapshotPixels(frame, crop)(x, y) == StraightPixel(s);
  }

  /** A snapshot is written exactly when something of a frame is asked for, and decodes to the requested crop. */
  lemma SnapshotRoundTrip(z: Zlib, frame: Image, viewHeight: int, rect: Rect)
    requires Lossless(z) && frame.Valid() && frame.channels == 4
    ensures var crop := CropAt(frame, Scale(frame, viewHeight), rect);
            var file := SnapshotOf(z, Some(frame), viewHeight, rect);
            && (file.Some? <==> frame.width > 0 && crop.Some? && SnapshotFits(z, frame, crop.value))
            && (file.Some? ==> IsSnapshot(Decode(z, file.value), frame, crop.value))
  {
    if SnapshotOf(z, Some(frame), viewHeight, rect).Some? {
      CropIsRestored(z, frame, CropAt(frame, Scale(frame, viewHeight), rect).value);
    }
  }
}
