/** The display-set remapper of pgsmod: every composition object and window
    of a display set is moved from the full frame into the cropped frame,
    keeping a margin to the border, and a display set whose windows then
    overlap is refused. */
module PgsMod {
  import opened Base

  datatype Size = Size(width: u16, height: u16)

  // ---------------------------------------------------------------------
  // cropped_offset
  // ---------------------------------------------------------------------

  /** An item of extent `size` fits in a frame of extent `crop` with
      `margin` free on both sides. */
  predicate Fits(crop: u16, size: u16, margin: u16)
  {
    size + 2 * margin <= crop
  }

  /** The offset moved by half of what the crop removes from the axis. */
  function Shifted(full: u16, crop: u16, offset: u16): int
  {
    offset - (full - crop) / 2
  }

  /** Position `v` keeps the item at least `margin` away from both borders. */
  predicate InBand(crop: u16, size: u16, margin: u16, v: int)
  {
    margin <= v && v + size + margin <= crop
  }

  /** None of the 16-bit operations of cropped_offset overflows or
      underflows: `size + 2 * margin`, the subtraction of the full and the
      cropped extent, the subtraction from the offset, and the sum compared
      against the upper border (evaluated only when the lower clamp does
      not apply). */
  predicate OffsetDefined(full: u16, crop: u16, size: u16, offset: u16, margin: u16)
  {
    && size + 2 * margin <= U16_MAX
    && (Fits(crop, size, margin) ==>
          && full >= crop
          && offset >= (full - crop) / 2
          && (Shifted(full, crop, offset) < margin
              || Shifted(full, crop, offset) + size + margin <= U16_MAX))
  }

  /** The new position along one axis of an item of extent `size` at
      `offset` in a frame of extent `full` cropped to `crop`. An item that
      cannot fit with its margins goes to 0 (the tool only warns); any other
      item ends up in the band, and unmoved by the clamp when the shifted
      offset already lies in it. */
  function CroppedOffset(full: u16, crop: u16, size: u16, offset: u16, margin: u16): (r: u16)
    requires OffsetDefined(full, crop, size, offset, margin)
    ensures !Fits(crop, size, margin) ==> r == 0
    ensures Fits(crop, size, margin) ==> InBand(crop, size, margin, r)
    ensures Fits(crop, size, margin) && InBand(crop, size, margin, Shifted(full, crop, offset)) ==>
              r == Shifted(full, crop, offset)
  {
    if size + 2 * margin > crop then
      0
    else
      var o := offset - (full - crop) / 2;
      if o < margin then margin
      else if o + size + margin > crop then crop - size - margin
      else o
  }

  function Distance(a: int, b: int): nat
  {
    if a <= b then b - a else a - b
  }

  /** The clamp picks the point of the band nearest to the shifted offset. */
  lemma ClampIsNearest(full: u16, crop: u16, size: u16, offset: u16, margin: u16, v: int)
    requires OffsetDefined(full, crop, size, offset, margin)
    requires Fits(crop, size, margin) && InBand(crop, size, margin, v)
    ensures Distance(CroppedOffset(full, crop, size, offset, margin), Shifted(full, crop, offset))
            <= Distance(v, Shifted(full, crop, offset))
  {
  }

  /** Without a crop, an item already inside the band stays where it is. */
  lemma NoCropFixedPoint(crop: u16, size: u16, offset: u16, margin: u16)
    requires size + 2 * margin <= U16_MAX
    requires InBand(crop, size, margin, offset)
    ensures OffsetDefined(crop, crop, size, offset, margin)
    ensures CroppedOffset(crop, crop, size, offset, margin) == offset
  {
  }

  /** Without a crop the remap is not the identity everywhere: an offset
      inside the margin is still pushed out to it, and an item too large for
      its margins still goes to 0. */
  lemma NoCropClamps()
    ensures OffsetDefined(1920, 1920, 100, 10, 30) && CroppedOffset(1920, 1920, 100, 10, 30) == 30
    ensures OffsetDefined(1920, 1920, 1900, 10, 30) && CroppedOffset(1920, 1920, 1900, 10, 30) == 0
  {
  }

  /** Remapping a fitting item a second time, now without a crop, changes
      nothing. */
  lemma Idempotent(full: u16, crop: u16, size: u16, offset: u16, margin: u16)
    requires OffsetDefined(full, crop, size, offset, margin)
    requires Fits(crop, size, margin)
    ensures var r := CroppedOffset(full, crop, size, offset, margin);
            OffsetDefined(crop, crop, size, r, margin) && CroppedOffset(crop, crop, size, r, margin) == r
  {
    var r := CroppedOffset(full, crop, size, offset, margin);
    NoCropFixedPoint(crop, size, r, margin);
  }

  /** Remapping keeps the order of items along an axis. */
  lemma Monotone(full: u16, crop: u16, size: u16, margin: u16, a: u16, b: u16)
    requires OffsetDefined(full, crop, size, a, margin) && OffsetDefined(full, crop, size, b, margin)
    requires a <= b
    ensures CroppedOffset(full, crop, size, a, margin) <= CroppedOffset(full, crop, size, b, margin)
  {
  }

  /** A 100-pixel item at 960 of a 1920-pixel axis cropped to 1280 with a
      30-pixel margin lands at 640, inside [30, 1150]. */
  lemma WidthCropExample()
    ensures OffsetDefined(1920, 1280, 100, 960, 30)
    ensures CroppedOffset(1920, 1280, 100, 960, 30) == 640
  {
  }

  /** A 200-pixel-high item at y = 900 of a 1080-line frame cropped to 800
      lines with a 30-line margin would overshoot the lower border after
      the shift (760 + 200 + 30 > 800) and is clamped to 800 - 200 - 30. */
  lemma HeightClampExample()
    ensures OffsetDefined(1080, 800, 200, 900, 30)
    ensures CroppedOffset(1080, 800, 200, 900, 30) == 570
  {
  }

  // ---------------------------------------------------------------------
  // Display sets
  // ---------------------------------------------------------------------

  /** A composition object is keyed by the object it shows and the window it
      shows it in. */
  datatype CompositionId = CompositionId(objectId: u16, windowId: u8)
  datatype Crop = Crop(x: u16, y: u16, width: u16, height: u16)
  datatype CompositionObject = CompositionObject(x: u16, y: u16, crop: Option<Crop>)
  datatype Window = Window(x: u16, y: u16, width: u16, height: u16)
  /** An object definition is keyed by object id and version: one object id
      may carry several definitions of different sizes. */
  datatype ObjectVid = ObjectVid(id: u16, version: u8)
  datatype Object = Object(width: u16, height: u16, data: seq<u8>)
  datatype PaletteEntry = PaletteEntry(y: u8, cr: u8, cb: u8, alpha: u8)
  datatype Palette = Palette(entries: map<u8, PaletteEntry>)

  /** Some definition of `objects` has object id `id`. */
  ghost predicate Defines(objects: map<ObjectVid, Object>, id: u16)
  {
    exists v :: v in objects && v.id == id
  }

  /** `s` holds the largest width and the largest height among the
      definitions in `keys` with object id `id` (each maximum is taken on
      its own and may come from a different definition). */
  ghost predicate MaxSizeAmong(objects: map<ObjectVid, Object>, keys: set<ObjectVid>, id: u16, s: Size)
  {
    && (exists v :: v in keys && v in objects && v.id == id && objects[v].width == s.width)
    && (exists v :: v in keys && v in objects && v.id == id && objects[v].height == s.height)
    && (forall v :: v in keys && v in objects && v.id == id ==>
          objects[v].width <= s.width && objects[v].height <= s.height)
  }

  ghost predicate IsMaxSize(objects: map<ObjectVid, Object>, id: u16, s: Size)
  {
    MaxSizeAmong(objects, objects.Keys, id, s)
  }

  /** There is at most one largest size. */
  lemma MaxSizeUnique(objects: map<ObjectVid, Object>, id: u16, s: Size, t: Size)
    requires IsMaxSize(objects, id, s) && IsMaxSize(objects, id, t)
    ensures s == t
  {
  }

  function Max(a: u16, b: u16): u16
  {
    if a < b then b else a
  }

  /** The largest width and height among the definitions in `keys` with
      object id `id`. */
  ghost function MaxAmong(objects: map<ObjectVid, Object>, keys: set<ObjectVid>, id: u16): (s: Size)
    requires keys <= objects.Keys
    requires exists v :: v in keys && v.id == id
    decreases keys
  {
    var v :| v in keys && v.id == id;
    var rest := keys - {v};
    if exists w :: w in rest && w.id == id then
      var s := MaxAmong(objects, rest, id);
      Size(Max(s.width, objects[v].width), Max(s.height, objects[v].height))
    else
      Size(objects[v].width, objects[v].height)
  }

  /** `MaxAmong` is the largest width and height among those definitions. */
  lemma {:induction false} MaxAmongIsMax(objects: map<ObjectVid, Object>, keys: set<ObjectVid>, id: u16)
    requires keys <= objects.Keys
    requires exists v :: v in keys && v.id == id
    ensures MaxSizeAmong(objects, keys, id, MaxAmong(objects, keys, id))
    decreases keys
  {
    var v :| v in keys && v.id == id && MaxAmong(objects, keys, id) == (
      var rest := keys - {v};
      if exists w :: w in rest && w.id == id then
        var s := MaxAmong(objects, rest, id);
        Size(Max(s.width, objects[v].width), Max(s.height, objects[v].height))
      else
        Size(objects[v].width, objects[v].height));
    var rest := keys - {v};
    var r := MaxAmong(objects, keys, id);
    if exists w :: w in rest && w.id == id {
      var s := MaxAmong(objects, rest, id);
      MaxAmongIsMax(objects, rest, id);
      var vw :| vw in rest && vw in objects && vw.id == id && objects[vw].width == s.width;
      var vh :| vh in rest && vh in objects && vh.id == id && objects[vh].height == s.height;
      assert r == Size(Max(s.width, objects[v].width), Max(s.height, objects[v].height));
      assert objects[if s.width < objects[v].width then v else vw].width == r.width;
      assert objects[if s.height < objects[v].height then v else vh].height == r.height;
    } else {
      assert forall u :: u in keys && u.id == id ==> u == v;
    }
  }

  /** The bounding size of the definitions of object `id`. */
  ghost function BoundingSize(objects: map<ObjectVid, Object>, id: u16): Size
    requires Defines(objects, id)
  {
    MaxAmong(objects, objects.Keys, id)
  }

  /** The bounding size is the largest width and the largest height among
      the definitions of the object, and the only such size. */
  lemma BoundingSizeIsMax(objects: map<ObjectVid, Object>, id: u16, s: Size)
    requires Defines(objects, id)
    ensures IsMaxSize(objects, id, s) <==> s == BoundingSize(objects, id)
  {
    MaxAmongIsMax(objects, objects.Keys, id);
    if IsMaxSize(objects, id, s) {
      MaxSizeUnique(objects, id, s, BoundingSize(objects, id));
    }
  }

  /** The bounding size of all definitions of object `id`: the maximum
      width and the maximum height over them. `found` is false when there is
      none, where the tool's `unwrap` would panic. */
  method ObjectSize(objects: map<ObjectVid, Object>, id: u16) returns (found: bool, size: Size)
    ensures found <==> Defines(objects, id)
    ensures found ==> IsMaxSize(objects, id, size) && size == BoundingSize(objects, id)
  {
    found, size := false, Size(0, 0);
    var todo := objects.Keys;
    while todo != {}
      invariant todo <= objects.Keys
      invariant found <==> exists v :: v in objects && v !in todo && v.id == id
      invariant found ==> MaxSizeAmong(objects, objects.Keys - todo, id, size)
      decreases |todo|
    {
      var v :| v in todo;
      if v.id == id {
        var o := objects[v];
        if found {
          size := Size(Max(size.width, o.width), Max(size.height, o.height));
        } else {
          size := Size(o.width, o.height);
        }
        found := true;
      }
      todo := todo - {v};
    }
    if found {
      BoundingSizeIsMax(objects, id, size);
    }
  }

  /** The top-left corner of `w2` lies in the closed rectangle of `w1`. */
  predicate Covers(w1: Window, w2: Window)
  {
    w1.x <= w2.x <= w1.x + w1.width && w1.y <= w2.y <= w1.y + w1.height
  }

  /** Two distinct windows of the display set collide. */
  ghost predicate Collision(windows: map<u8, Window>)
  {
    exists i, j :: i in windows && j in windows && i != j && Covers(windows[i], windows[j])
  }

  /** The far corner of every window that is compared with another one is
      representable in 16 bits. */
  predicate CornersInRange(windows: map<u8, Window>)
  {
    forall i, j :: i in windows && j in windows && i != j ==>
      windows[i].x + windows[i].width <= U16_MAX && windows[i].y + windows[i].height <= U16_MAX
  }

  /** The inner loop of the window check: true exactly when the top-left
      corner of some other window lies in window `i`'s rectangle. */
  method CoversAnother(windows: map<u8, Window>, i: u8) returns (covers: bool)
    requires i in windows
    requires CornersInRange(windows)
    ensures covers <==> exists j :: j in windows && i != j && Covers(windows[i], windows[j])
  {
    var inner := windows.Keys;
    while inner != {}
      invariant inner <= windows.Keys
      invariant forall j :: j in windows && j !in inner && i != j ==> !Covers(windows[i], windows[j])
      decreases |inner|
    {
      var j :| j in inner;
      if i != j {
        var w1, w2 := windows[i], windows[j];
        var ex: u16 := w1.x + w1.width;
        var ey: u16 := w1.y + w1.height;
        if w1.x <= w2.x && w2.x <= ex && w1.y <= w2.y && w2.y <= ey {
          return true;
        }
      }
      inner := inner - {j};
    }
    return false;
  }

  /** The pairwise window check: true exactly when some window's top-left
      corner lies in another window's rectangle. */
  method FindCollision(windows: map<u8, Window>) returns (collides: bool)
    requires CornersInRange(windows)
    ensures collides <==> Collision(windows)
  {
    var outer := windows.Keys;
    while outer != {}
      invariant outer <= windows.Keys
      invariant forall i, j :: i in windows && i !in outer && j in windows && i != j ==>
                  !Covers(windows[i], windows[j])
      decreases |outer|
    {
      var i :| i in outer;
      collides := CoversAnother(windows, i);
      if collides {
        return;
      }
      outer := outer - {i};
    }
    return false;
  }

  /** The display set's value at one moment: timestamp, screen size,
      composition objects, windows, palettes and object definitions. */
  datatype Snapshot = Snapshot(pts: u32, width: u16, height: u16,
                               compositionObjects: map<CompositionId, CompositionObject>,
                               windows: map<u8, Window>, palettes: map<u8, Palette>,
                               objects: map<ObjectVid, Object>)

  /** Remapping composition object `cid` (showing `c`) of a `full` frame
      into `crop` is defined: the object has a definition (the tool unwraps
      the maximum) and no 16-bit operation of cropped_offset goes out of
      range with the bounding size. */
  ghost predicate CompositionRemapDefined(full: Size, crop: Size, margin: u16, objects: map<ObjectVid, Object>,
                                          cid: CompositionId, c: CompositionObject)
  {
    && Defines(objects, cid.objectId)
    && OffsetDefined(full.width, crop.width, BoundingSize(objects, cid.objectId).width, c.x, margin)
    && OffsetDefined(full.height, crop.height, BoundingSize(objects, cid.objectId).height, c.y, margin)
  }

  /** Composition object `c` moved along both axes, placed by the bounding
      size of its object's definitions. */
  ghost function RemapComposition(full: Size, crop: Size, margin: u16, objects: map<ObjectVid, Object>,
                                  cid: CompositionId, c: CompositionObject): CompositionObject
    requires CompositionRemapDefined(full, crop, margin, objects, cid, c)
  {
    var s := BoundingSize(objects, cid.objectId);
    c.(x := CroppedOffset(full.width, crop.width, s.width, c.x, margin),
       y := CroppedOffset(full.height, crop.height, s.height, c.y, margin))
  }

  predicate WindowRemapDefined(full: Size, crop: Size, margin: u16, w: Window)
  {
    && OffsetDefined(full.width, crop.width, w.width, w.x, margin)
    && OffsetDefined(full.height, crop.height, w.height, w.y, margin)
  }

  /** Window `w` moved along both axes, placed by its own size. */
  function RemapWindow(full: Size, crop: Size, margin: u16, w: Window): Window
    requires WindowRemapDefined(full, crop, margin, w)
  {
    w.(x := CroppedOffset(full.width, crop.width, w.width, w.x, margin),
       y := CroppedOffset(full.height, crop.height, w.height, w.y, margin))
  }

  /** Every composition object of `comps` can be remapped. */
  ghost predicate CompositionsRemapDefined(full: Size, crop: Size, margin: u16, objects: map<ObjectVid, Object>,
                                           comps: map<CompositionId, CompositionObject>)
  {
    forall cid :: cid in comps ==> CompositionRemapDefined(full, crop, margin, objects, cid, comps[cid])
  }

  /** The composition objects `comps`, each remapped. */
  ghost function RemappedCompositions(full: Size, crop: Size, margin: u16, objects: map<ObjectVid, Object>,
                                      comps: map<CompositionId, CompositionObject>): map<CompositionId, CompositionObject>
    requires CompositionsRemapDefined(full, crop, margin, objects, comps)
  {
    map cid | cid in comps :: RemapComposition(full, crop, margin, objects, cid, comps[cid])
  }

  /** Every window of `windows` can be remapped. */
  predicate WindowsRemapDefined(full: Size, crop: Size, margin: u16, windows: map<u8, Window>)
  {
    forall wid :: wid in windows ==> WindowRemapDefined(full, crop, margin, windows[wid])
  }

  /** The windows `windows`, each remapped. */
  function RemappedWindows(full: Size, crop: Size, margin: u16, windows: map<u8, Window>): map<u8, Window>
    requires WindowsRemapDefined(full, crop, margin, windows)
  {
    map wid | wid in windows :: RemapWindow(full, crop, margin, windows[wid])
  }

  /** What remapping display set `d` to `crop` with `margin` demands. */
  ghost predicate RemapDefined(d: Snapshot, crop: Size, margin: u16)
  {
    && CompositionsRemapDefined(Size(d.width, d.height), crop, margin, d.objects, d.compositionObjects)
    && WindowsRemapDefined(Size(d.width, d.height), crop, margin, d.windows)
  }

  /** Display set `d` moved into the frame `crop`: the screen size becomes
      the crop size, every composition object and every window is
      remapped, and nothing else changes. */
  ghost function RemapSnapshot(d: Snapshot, crop: Size, margin: u16): (r: Snapshot)
    requires RemapDefined(d, crop, margin)
    ensures r.compositionObjects.Keys == d.compositionObjects.Keys && r.windows.Keys == d.windows.Keys
  {
    var full := Size(d.width, d.height);
    d.(width := crop.width, height := crop.height,
       compositionObjects := RemappedCompositions(full, crop, margin, d.objects, d.compositionObjects),
       windows := RemappedWindows(full, crop, margin, d.windows))
  }

  /** Every window either keeps the margin to the borders of the cropped
      frame along an axis, or did not fit along it and sits at 0. */
  ghost predicate WindowsPlaced(crop: Size, margin: u16, windows: map<u8, Window>)
  {
    forall wid :: wid in windows ==>
      && (if Fits(crop.width, windows[wid].width, margin)
          then InBand(crop.width, windows[wid].width, margin, windows[wid].x)
          else windows[wid].x == 0)
      && (if Fits(crop.height, windows[wid].height, margin)
          then InBand(crop.height, windows[wid].height, margin, windows[wid].y)
          else windows[wid].y == 0)
  }

  /** Every composition object is placed the same way, by the bounding size
      of its object. */
  ghost predicate CompositionsPlaced(crop: Size, margin: u16, objects: map<ObjectVid, Object>,
                                     comps: map<CompositionId, CompositionObject>)
  {
    forall cid :: cid in comps && Defines(objects, cid.objectId) ==>
      var s := BoundingSize(objects, cid.objectId);
      && (if Fits(crop.width, s.width, margin)
          then InBand(crop.width, s.width, margin, comps[cid].x)
          else comps[cid].x == 0)
      && (if Fits(crop.height, s.height, margin)
          then InBand(crop.height, s.height, margin, comps[cid].y)
          else comps[cid].y == 0)
  }

  /** After remapping, the screen is the crop, objects and windows are placed
      in it, window sizes and everything but positions are kept, and the
      collision check cannot overflow. */
  lemma RemapPlaces(d: Snapshot, crop: Size, margin: u16)
    requires RemapDefined(d, crop, margin)
    ensures var r := RemapSnapshot(d, crop, margin);
      && r.width == crop.width && r.height == crop.height
      && r.pts == d.pts && r.palettes == d.palettes && r.objects == d.objects
      && (forall wid :: wid in r.windows ==>
            r.windows[wid].width == d.windows[wid].width && r.windows[wid].height == d.windows[wid].height)
      && (forall cid :: cid in r.compositionObjects ==>
            r.compositionObjects[cid].crop == d.compositionObjects[cid].crop)
      && WindowsPlaced(crop, margin, r.windows)
      && CompositionsPlaced(crop, margin, r.objects, r.compositionObjects)
      && CornersInRange(r.windows)
  {
    var r := RemapSnapshot(d, crop, margin);
    var full := Size(d.width, d.height);
    forall wid | wid in r.windows
      ensures r.windows[wid] == RemapWindow(full, crop, margin, d.windows[wid])
    {
    }
    forall cid | cid in r.compositionObjects
      ensures r.compositionObjects[cid] == RemapComposition(full, crop, margin, d.objects, cid, d.compositionObjects[cid])
    {
    }
  }

  /** Remapping an already remapped display set to the same crop (which is
      now also its full size) changes nothing. */
  lemma RemapIdempotent(d: Snapshot, crop: Size, margin: u16)
    requires RemapDefined(d, crop, margin)
    ensures RemapDefined(RemapSnapshot(d, crop, margin), crop, margin)
    ensures RemapSnapshot(RemapSnapshot(d, crop, margin), crop, margin) == RemapSnapshot(d, crop, margin)
  {
    var r := RemapSnapshot(d, crop, margin);
    var full := Size(d.width, d.height);
    forall cid | cid in r.compositionObjects
      ensures CompositionRemapDefined(crop, crop, margin, r.objects, cid, r.compositionObjects[cid])
      ensures RemapComposition(crop, crop, margin, r.objects, cid, r.compositionObjects[cid]) == r.compositionObjects[cid]
    {
      var c := d.compositionObjects[cid];
      var s := BoundingSize(d.objects, cid.objectId);
      assert r.compositionObjects[cid] == RemapComposition(full, crop, margin, d.objects, cid, c);
      if Fits(crop.width, s.width, margin) { Idempotent(full.width, crop.width, s.width, c.x, margin); }
      if Fits(crop.height, s.height, margin) { Idempotent(full.height, crop.height, s.height, c.y, margin); }
    }
    forall wid | wid in r.windows
      ensures WindowRemapDefined(crop, crop, margin, r.windows[wid])
      ensures RemapWindow(crop, crop, margin, r.windows[wid]) == r.windows[wid]
    {
      var w := d.windows[wid];
      assert r.windows[wid] == RemapWindow(full, crop, margin, w);
      if Fits(crop.width, w.width, margin) { Idempotent(full.width, crop.width, w.width, w.x, margin); }
      if Fits(crop.height, w.height, margin) { Idempotent(full.height, crop.height, w.height, w.y, margin); }
    }
    var rr := RemapSnapshot(r, crop, margin);
    assert rr.compositionObjects == r.compositionObjects;
    assert rr.windows == r.windows;
  }

  /** The body of the composition-object loop: looks up the bounding size
      of the object (unwrapping it) and moves the composition object. */
  method RemapCompositionObject(full: Size, crop: Size, margin: u16, objects: map<ObjectVid, Object>,
                                cid: CompositionId, c: CompositionObject) returns (r: CompositionObject)
    requires CompositionRemapDefined(full, crop, margin, objects, cid, c)
    ensures r == RemapComposition(full, crop, margin, objects, cid, c)
  {
    var found, s := ObjectSize(objects, cid.objectId);
    r := c.(x := CroppedOffset(full.width, crop.width, s.width, c.x, margin),
            y := CroppedOffset(full.height, crop.height, s.height, c.y, margin));
  }

  /** One presentation event, updated in place by the remapper. */
  class DisplaySet {
    var pts: u32
    var width: u16
    var height: u16
    var compositionObjects: map<CompositionId, CompositionObject>
    var windows: map<u8, Window>
    var palettes: map<u8, Palette>
    var objects: map<ObjectVid, Object>

    constructor (d: Snapshot)
      ensures Snap() == d
    {
      pts, width, height := d.pts, d.width, d.height;
      compositionObjects, windows := d.compositionObjects, d.windows;
      palettes, objects := d.palettes, d.objects;
    }

    function Snap(): Snapshot
      reads this
    {
      Snapshot(pts, width, height, compositionObjects, windows, palettes, objects)
    }

    /** Moves the display set into the cropped frame. */
    method Remap(crop: Size, margin: u16)
      requires RemapDefined(Snap(), crop, margin)
      modifies this
      ensures Snap() == RemapSnapshot(old(Snap()), crop, margin)
    {
      var full := Size(width, height);
      width := crop.width;
      height := crop.height;
      RemapCompositionObjects(full, crop, margin);
      RemapWindows(full, crop, margin);
    }

    /** The composition-object loop: each object is moved using the bounding
        size of the definitions of its object id. */
    method RemapCompositionObjects(full: Size, crop: Size, margin: u16)
      requires CompositionsRemapDefined(full, crop, margin, objects, compositionObjects)
      modifies this`compositionObjects
      ensures compositionObjects == RemappedCompositions(full, crop, margin, objects, old(compositionObjects))
    {
      var todo := compositionObjects.Keys;
      while todo != {}
        invariant todo <= compositionObjects.Keys == old(compositionObjects).Keys
        invariant forall cid :: cid in todo ==> compositionObjects[cid] == old(compositionObjects)[cid]
        invariant forall cid :: cid in compositionObjects && cid !in todo ==>
                    compositionObjects[cid] == RemapComposition(full, crop, margin, objects, cid, old(compositionObjects)[cid])
        decreases |todo|
      {
        var cid :| cid in todo;
        var c := RemapCompositionObject(full, crop, margin, objects, cid, compositionObjects[cid]);
        compositionObjects := compositionObjects[cid := c];
        todo := todo - {cid};
      }
    }

    /** The window loop: each window is moved using its own size. */
    method RemapWindows(full: Size, crop: Size, margin: u16)
      requires WindowsRemapDefined(full, crop, margin, windows)
      modifies this`windows
      ensures windows == RemappedWindows(full, crop, margin, old(windows))
    {
      var todo := windows.Keys;
      while todo != {}
        invariant todo <= windows.Keys == old(windows).Keys
        invariant forall wid :: wid in todo ==> windows[wid] == old(windows)[wid]
        invariant forall wid :: wid in windows && wid !in todo ==>
                    windows[wid] == RemapWindow(full, crop, margin, old(windows)[wid])
        decreases |todo|
      {
        var wid :| wid in todo;
        var w := windows[wid];
        windows := windows[wid := w.(
          x := CroppedOffset(full.width, crop.width, w.width, w.x, margin),
          y := CroppedOffset(full.height, crop.height, w.height, w.y, margin))];
        todo := todo - {wid};
      }
    }
  }

  // ---------------------------------------------------------------------
  // The conversion loop
  // ---------------------------------------------------------------------

  /** How the conversion of one display set ends: written out, or stopped
      by a window collision at the display set's timestamp. */
  datatype Outcome = Converted | WindowCollision(pts: u32)

  datatype IoErrorKind = UnexpectedEof | OtherIoError
  /** Errors of the segment layer: an I/O error of the stream, or a
      malformed segment. */
  datatype SegmentReadError = IoError(kind: IoErrorKind) | SegmentBitstreamError
  /** Errors of the display-set layer: one from a segment, or a malformed
      sequence of segments. */
  datatype ReadError = SegmentError(source: SegmentReadError) | DisplaySetBitstreamError

  /** Only an unexpected end of file while reading a segment ends the
      conversion normally; every other read error is fatal. */
  predicate EndsCleanly(e: ReadError)
  {
    e.SegmentError? && e.source.IoError? && e.source.kind == UnexpectedEof
  }

  /** The original screen sizes of a run of display sets. */
  function ScreenSizes(ds: seq<Snapshot>): (r: seq<Size>)
    ensures |r| == |ds|
    ensures forall k :: 0 <= k < |ds| ==> r[k] == Size(ds[k].width, ds[k].height)
  {
    seq(|ds|, k requires 0 <= k < |ds| => Size(ds[k].width, ds[k].height))
  }

  /** Noting the screen sizes of one more display set. */
  lemma NoteNext(seen: seq<Size>, ds: seq<Snapshot>, i: nat)
    requires i < |ds|
    ensures NoteAll(seen, ScreenSizes(ds[..i + 1])) ==
            Note(NoteAll(seen, ScreenSizes(ds[..i])), Size(ds[i].width, ds[i].height))
  {
    assert ScreenSizes(ds[..i + 1]) == ScreenSizes(ds[..i]) + [Size(ds[i].width, ds[i].height)];
    NoteAllSnoc(seen, ScreenSizes(ds[..i]), Size(ds[i].width, ds[i].height));
  }

  datatype Exit = Finished | ReadFailed(error: ReadError) | Collided(pts: u32)

  /** Every display set the conversion loop gets to is one it can remap: a
      display set is reached when all the display sets before it remap
      without a window collision. Display sets after the first collision
      are never read, so nothing is demanded of them. */
  ghost predicate RemappableUntilCollision(ds: seq<Snapshot>, crop: Size, margin: u16)
  {
    forall i :: 0 <= i < |ds| &&
      (forall k :: 0 <= k < i ==>
         RemapDefined(ds[k], crop, margin) && !Collision(RemapSnapshot(ds[k], crop, margin).windows))
      ==> RemapDefined(ds[i], crop, margin)
  }

  /** The display set after a run of converted display sets is reached. */
  lemma NextRemappable(ds: seq<Snapshot>, crop: Size, margin: u16, i: nat)
    requires RemappableUntilCollision(ds, crop, margin) && i < |ds|
    requires forall k :: 0 <= k < i ==>
               RemapDefined(ds[k], crop, margin) && !Collision(RemapSnapshot(ds[k], crop, margin).windows)
    ensures RemapDefined(ds[i], crop, margin)
  { }

  /** The conversion: crop size and margin from the command line, and the
      resolutions seen so far. */
  class Converter {
    const crop: Size
    const margin: u16
    var screenSizes: seq<Size>

    constructor (crop: Size, margin: u16)
      ensures this.crop == crop && this.margin == margin && screenSizes == []
    {
      this.crop, this.margin := crop, margin;
      screenSizes := [];
    }

    /** One pass of the conversion loop over the display set `d` that was
        read: note its resolution, remap it, and check its windows.
        `converted` is the remapped display set. */
    method Convert(d: Snapshot) returns (converted: Snapshot, outcome: Outcome)
      requires RemapDefined(d, crop, margin)
      modifies this
      ensures screenSizes == Note(old(screenSizes), Size(d.width, d.height))
      ensures converted == RemapSnapshot(d, crop, margin)
      ensures outcome == if Collision(converted.windows) then WindowCollision(d.pts) else Converted
    {
      var ds := new DisplaySet(d);
      var screenSize := Size(ds.width, ds.height);
      if screenSize !in screenSizes {
        screenSizes := screenSizes + [screenSize];
      }
      ds.Remap(crop, margin);
      RemapPlaces(d, crop, margin);
      var collides := FindCollision(ds.windows);
      outcome := if collides then WindowCollision(ds.pts) else Converted;
      converted := ds.Snap();
    }

    /** The conversion loop. The reader delivers the display sets `delivered`
        in order and then fails with `end` (at the latest with an end of
        file). Each display set is read into a fresh `DisplaySet`, converted
        and written to `output`; the loop stops at the first window
        collision (before writing that display set) or at the read failure. */
    method Run(delivered: seq<Snapshot>, end: ReadError) returns (output: seq<Snapshot>, exit: Exit)
      requires RemappableUntilCollision(delivered, crop, margin)
      modifies this
      ensures |output| <= |delivered|
      ensures forall k :: 0 <= k < |output| ==>
                RemapDefined(delivered[k], crop, margin) &&
                output[k] == RemapSnapshot(delivered[k], crop, margin) && !Collision(output[k].windows)
      ensures exit.Collided? <==> |output| < |delivered|
      ensures exit.Collided? ==>
                RemapDefined(delivered[|output|], crop, margin) &&
                Collision(RemapSnapshot(delivered[|output|], crop, margin).windows) &&
                exit.pts == delivered[|output|].pts
      ensures !exit.Collided? ==> exit == if EndsCleanly(end) then Finished else ReadFailed(end)
      ensures screenSizes ==
                NoteAll(old(screenSizes), ScreenSizes(delivered[..if exit.Collided? then |output| + 1 else |output|]))
    {
      output := [];
      var i := 0;
      while i < |delivered|
        invariant 0 <= i <= |delivered| && |output| == i
        invariant forall k :: 0 <= k < i ==>
                    RemapDefined(delivered[k], crop, margin) &&
                    output[k] == RemapSnapshot(delivered[k], crop, margin) && !Collision(output[k].windows)
        invariant screenSizes == NoteAll(old(screenSizes), ScreenSizes(delivered[..i]))
        decreases |delivered| - i
      {
        NextRemappable(delivered, crop, margin, i);
        var converted, outcome := Convert(delivered[i]);
        NoteNext(old(screenSizes), delivered, i);
        if outcome.WindowCollision? {
          exit := Collided(outcome.pts);
          return;
        }
        output := output + [converted];
        i := i + 1;
      }
      exit := if EndsCleanly(end) then Finished else ReadFailed(end);
    }
  }
}
