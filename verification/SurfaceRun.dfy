/** Every run of a producer of buffers and a consumer that uploads only the dirty rectangle. */
module SurfaceRun {
  import opened Common
  import opened Surface

  /** The frame, the consumer's texture, and the last buffer the companion accepted. */
  datatype World = World(frame: Frame, texture: Option<Picture>, last: Option<Picture>)

  const START := World(BLANK, None, None)

  /** `Consume` is a lock, an upload and a consuming unlock; `Peek` a lock and an unlock that consumes nothing; `Drop`
      the consumer throwing its texture away. */
  datatype Event = Render(buffer: Picture, damage: seq<Rect>, viewHeight: nat) | Consume | Peek | Drop {
    ghost predicate Valid() {
      Render? ==> buffer.Valid() && 0 < buffer.width && 0 < buffer.height
    }
  }

  /** The texture after an upload: all of the frame when there is none of its size, else the dirty pixels of it. */
  ghost function Uploaded(f: Frame, texture: Option<Picture>): (t: Picture)
    requires f.Valid() && (texture.Some? ==> texture.value.Valid())
    ensures t.Valid() && t.SameSize(f.picture)
  {
    if texture.Some? && texture.value.SameSize(f.picture) then Patch(texture.value, f.picture, [f.dirty]) else f.picture
  }

  ghost function Step(w: World, e: Event): World
    requires Covered(w) && e.Valid()
  {
    match e
    case Render(buffer, damage, viewHeight) =>
      w.(frame := Rendered(w.frame, buffer, damage, viewHeight), last := Some(buffer))
    case Consume => w.(frame := w.frame.(dirty := CLEAN), texture := Some(Uploaded(w.frame, w.texture)))
    case Peek => w
    case Drop => w.(texture := None)
  }

  /** The dirty rectangle misses no stale pixel: a pixel of a texture of the frame's size is right or dirty. */
  ghost predicate Covered(w: World) {
    && w.frame.Valid()
    && (w.texture.Some? ==> w.texture.value.Valid())
    && (w.texture.Some? && w.texture.value.SameSize(w.frame.picture) ==>
          forall x, y :: w.frame.picture.Has(x, y) ==>
            w.texture.value.rows[y][x] == w.frame.picture.rows[y][x] || w.frame.dirty.Has(x, y))
  }

  lemma RenderKeepsCover(w: World, e: Event)
    requires Covered(w) && e.Valid() && e.Render?
    ensures Covered(Step(w, e))
  {
    var buffer := e.buffer;
    var boxes := Redraws(w.frame, buffer.width, buffer.height, e.damage, e.viewHeight);
    var area := Around(boxes, buffer.width, buffer.height);
    var after := Step(w, e).frame;
    AroundIsWithin(boxes, buffer.width, buffer.height);
    forall x, y | buffer.Has(x, y) && Copied(boxes, x, y)
      ensures after.dirty.Has(x, y)
    {
      var i :| 0 <= i < |boxes| && boxes[i].Has(x, y);
      AroundHolds(boxes, buffer.width, buffer.height, i, x, y);
    }
    if !w.frame.picture.SameSize(buffer) {
      assert boxes[0] == Box(0, 0, buffer.width, buffer.height);
      assert forall x, y :: buffer.Has(x, y) ==> Copied(boxes, x, y);
    }
  }

  /** After a consuming unlock the texture is the frame. */
  lemma ConsumeSyncs(w: World)
    requires Covered(w)
    ensures Step(w, Consume).texture == Some(w.frame.picture) && Covered(Step(w, Consume))
  {
    var t := Uploaded(w.frame, w.texture);
    assert [w.frame.dirty][0] == w.frame.dirty;
    forall x, y | t.Has(x, y)
      ensures t.rows[y][x] == w.frame.picture.rows[y][x]
    {
      assert w.frame.dirty.Has(x, y) ==> Copied([w.frame.dirty], x, y);
    }
    PictureEquality(t, w.frame.picture);
  }

  lemma StepKeepsCover(w: World, e: Event)
    requires Covered(w) && e.Valid()
    ensures Covered(Step(w, e))
  {
    match e
    case Render(_, _, _) => RenderKeepsCover(w, e);
    case Consume => ConsumeSyncs(w);
    case Peek =>
    case Drop =>
  }

  ghost predicate AllValid(run: seq<Event>) {
    forall i :: 0 <= i < |run| ==> run[i].Valid()
  }

  /** The state after a run. */
  ghost function After(w: World, run: seq<Event>): (w': World)
    requires Covered(w) && AllValid(run)
    ensures Covered(w')
    decreases |run|
  {
    if run == [] then w
    else
      StepKeepsCover(w, run[0]);
      After(Step(w, run[0]), run[1..])
  }

  /** A buffer accepted in state w changes nothing outside the damage it declares. */
  ghost predicate Honest(w: World, e: Event)
    requires e.Valid() && (w.last.Some? ==> w.last.value.Valid())
  {
    e.Render? && w.last.Some? && w.last.value.SameSize(e.buffer) && e.damage != [] ==>
      Declares(w.last.value, e.buffer, e.damage, e.viewHeight)
  }

  ghost predicate AllHonest(w: World, run: seq<Event>)
    requires Covered(w) && AllValid(run) && (w.last.Some? ==> w.last.value.Valid())
    decreases |run|
  {
    run == [] || (Honest(w, run[0]) && (StepKeepsCover(w, run[0]); AllHonest(Step(w, run[0]), run[1..])))
  }

  /** The frame shows the last accepted buffer; before the first one it has no pixel. */
  ghost predicate Current(w: World) {
    && Covered(w)
    && if w.last.None? then w.frame.picture.width == 0 else w.frame.picture == w.last.value
  }

  /** In every run of honest buffers, resizes included, the frame is the last accepted buffer after every event. */
  lemma {:induction false} FrameIsLastBuffer(w: World, run: seq<Event>)
    requires Current(w) && AllValid(run) && AllHonest(w, run)
    ensures Current(After(w, run))
    decreases |run|
  {
    if run != [] {
      var e := run[0];
      StepKeepsCover(w, e);
      if e.Render? {
        DamageIsExact(w.frame, e.buffer, e.damage, e.viewHeight);
      }
      FrameIsLastBuffer(Step(w, e), run[1..]);
    }
  }

  lemma {:induction false} AfterOfAppend(w: World, run: seq<Event>, e: Event)
    requires Covered(w) && AllValid(run) && e.Valid()
    ensures AllValid(run + [e]) && After(w, run + [e]) == Step(After(w, run), e)
    decreases |run|
  {
    if run == [] {
      assert run + [e] == [e];
    } else {
      StepKeepsCover(w, run[0]);
      assert (run + [e])[1..] == run[1..] + [e];
      AfterOfAppend(Step(w, run[0]), run[1..], e);
    }
  }

  /** From a fresh frame, whatever happened before, a consuming unlock leaves the texture equal to the frame; with
      honest buffers that is the last accepted buffer. */
  lemma TextureIsLastBuffer(run: seq<Event>)
    requires AllValid(run)
    ensures AllValid(run + [Consume])
    ensures var w := After(START, run + [Consume]);
            && w.texture == Some(w.frame.picture) && w.frame.dirty == CLEAN
            && (AllHonest(START, run) && w.last.Some? ==> w.texture == w.last)
  {
    AfterOfAppend(START, run, Consume);
    ConsumeSyncs(After(START, run));
    if AllHonest(START, run) {
      FrameIsLastBuffer(START, run);
    }
  }

  /** How many drawings a run makes. */
  ghost function Draws(w: World, run: seq<Event>): nat
    requires Covered(w) && AllValid(run)
    decreases |run|
  {
    if run == [] then 0
    else
      StepKeepsCover(w, run[0]);
      var next := Step(w, run[0]);
      (if next.frame.serial == w.frame.serial then 0 else 1) + Draws(next, run[1..])
  }

  lemma StepDraws(w: World, e: Event)
    requires Covered(w) && e.Valid()
    ensures var after := Step(w, e).frame;
            && (after.serial == w.frame.serial ==> after.picture == w.frame.picture)
            && (after.serial == w.frame.serial || after.serial == NextSerial(w.frame.serial))
  {
    if e.Render? {
      SameSerialSamePicture(w.frame, e);
    }
  }

  /** The serial `draws` drawings later. */
  ghost function Later(serial: nat, draws: nat): int {
    if serial + draws < SERIALS then serial + draws else serial + draws - SERIALS
  }

  lemma {:induction false} DrawsAreCounted(w: World, run: seq<Event>)
    requires Covered(w) && AllValid(run) && |run| < SERIALS
    ensures Draws(w, run) <= |run| && After(w, run).frame.serial == Later(w.frame.serial, Draws(w, run))
    ensures Draws(w, run) == 0 ==> After(w, run).frame.picture == w.frame.picture
    decreases |run|
  {
    if run != [] {
      StepKeepsCover(w, run[0]);
      StepDraws(w, run[0]);
      DrawsAreCounted(Step(w, run[0]), run[1..]);
    }
  }

  lemma SameSerialSamePicture(f: Frame, e: Event)
    requires f.Valid() && e.Valid() && e.Render?
    ensures var after := Rendered(f, e.buffer, e.damage, e.viewHeight);
            && (after.serial == f.serial ==> after.picture == f.picture)
            && (after.serial == f.serial || after.serial == NextSerial(f.serial))
  {
    var boxes := Redraws(f, e.buffer.width, e.buffer.height, e.damage, e.viewHeight);
    AroundIsWithin(boxes, e.buffer.width, e.buffer.height);
    var after := Rendered(f, e.buffer, e.damage, e.viewHeight);
    if after.serial == f.serial {
      assert forall i :: 0 <= i < |boxes| ==> boxes[i].Empty();
      PictureEquality(after.picture, f.picture);
    }
  }

  /** Within one frame, equal serials mean equal pixels, unless the serial came round all its 2^64 values. */
  lemma EqualSerialsEqualPixels(w: World, run: seq<Event>)
    requires Covered(w) && AllValid(run) && |run| < SERIALS
    requires After(w, run).frame.serial == w.frame.serial
    ensures After(w, run).frame.picture == w.frame.picture
  {
    DrawsAreCounted(w, run);
  }

  /** A buffer leaves the dirty rectangle inside the frame exactly when what was still dirty fits the buffer's size. */
  lemma DirtyStaysInside(f: Frame, e: Event)
    requires f.Valid() && e.Valid() && e.Render?
    ensures var after := Rendered(f, e.buffer, e.damage, e.viewHeight);
            after.dirty.Within(e.buffer.width, e.buffer.height) <==>
              f.dirty.Within(e.buffer.width, e.buffer.height)
  {
    var boxes := Redraws(f, e.buffer.width, e.buffer.height, e.damage, e.viewHeight);
    AroundIsWithin(boxes, e.buffer.width, e.buffer.height);
  }

  /** So a picture drawn smaller again before it is consumed leaves a dirty rectangle larger than the frame. */
  lemma DirtyCanLeaveTheFrame(large: Picture, small: Picture, viewHeight: nat)
    requires large.Valid() && small.Valid() && 0 < small.width < large.width && 0 < small.height <= large.height
    ensures var run := [Render(large, [], viewHeight), Render(small, [], viewHeight)];
            AllValid(run) && After(START, run).frame.dirty == Box(0, 0, large.width, large.height)
  {
    var first, second := Render(large, [], viewHeight), Render(small, [], viewHeight);
    var run := [first, second];
    FirstIsWhole(large, viewHeight);
    var middle := Step(START, first);
    StepKeepsCover(START, first);
    assert run[1..] == [second] && [second][1..] == [];
    assert After(START, run) == After(middle, [second]);
    assert After(middle, [second]) == Step(middle, second);
    var boxes := [Box(0, 0, small.width, small.height)];
    assert boxes[..0] == [] && Around(boxes, small.width, small.height) == boxes[0];
  }

  lemma FirstIsWhole(buffer: Picture, viewHeight: nat)
    requires buffer.Valid() && 0 < buffer.width && 0 < buffer.height
    ensures Rendered(BLANK, buffer, [], viewHeight).dirty == Box(0, 0, buffer.width, buffer.height)
  {
    var boxes := [Box(0, 0, buffer.width, buffer.height)];
    assert boxes[..0] == [] && Around(boxes, buffer.width, buffer.height) == boxes[0];
  }
}
