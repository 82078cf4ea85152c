/** The older per-segment remapper: every presentation composition segment
    records the frame size it was authored for and is moved into the cropped
    frame; window definition segments are moved using the frame size of the
    most recent presentation composition segment. There is no margin and no
    clamp. */
module Legacy {
  import opened Base
  import PgsMod

  /** A frame size as (width, height). */
  type Size = (u16, u16)

  // ---------------------------------------------------------------------
  // cropped_offset
  // ---------------------------------------------------------------------

  /** The 16-bit subtractions of cropped_offset do not underflow. */
  predicate OffsetDefined(offset: u16, size: u16, crop: u16)
  {
    size >= crop && offset >= (size - crop) / 2
  }

  /** The position moved back by half (rounded down) of what the crop
      removes from the axis. */
  function CroppedOffset(offset: u16, size: u16, crop: u16): (r: u16)
    requires OffsetDefined(offset, size, crop)
    ensures r <= offset
    ensures 2 * (offset - r) <= size - crop < 2 * (offset - r) + 2
    ensures size == crop ==> r == offset
  {
    offset - (size - crop) / 2
  }

  /** Where the newer tool's shifted offset already lies in the band (with
      no margin), both tools place an item at the same position. */
  lemma AgreesWithPgsMod(full: u16, crop: u16, itemSize: u16, offset: u16)
    requires OffsetDefined(offset, full, crop)
    requires PgsMod.OffsetDefined(full, crop, itemSize, offset, 0)
    requires PgsMod.InBand(crop, itemSize, 0, PgsMod.Shifted(full, crop, offset))
    ensures PgsMod.CroppedOffset(full, crop, itemSize, offset, 0) == CroppedOffset(offset, full, crop)
  {
  }

  /** The shift keeps the order of positions along an axis and their
      distances. */
  lemma ShiftKeepsDistances(a: u16, b: u16, size: u16, crop: u16)
    requires OffsetDefined(a, size, crop) && OffsetDefined(b, size, crop)
    ensures CroppedOffset(b, size, crop) - CroppedOffset(a, size, crop) == b - a
  {
  }

  // ---------------------------------------------------------------------
  // Segments
  // ---------------------------------------------------------------------

  datatype Crop = Crop(x: u16, y: u16, width: u16, height: u16)
  datatype CompObj = CompObj(objId: u16, winId: u8, x: u16, y: u16, crop: Option<Crop>)
  datatype WinDef = WinDef(id: u8, x: u16, y: u16, width: u16, height: u16)
  datatype PresCompSeg = PresCompSeg(width: u16, height: u16, compNum: u16, compObjs: seq<CompObj>)

  /** The three kinds of body the step tells apart; every other kind is
      carried as opaque payload. */
  datatype SegBody =
    | PresComp(pcs: PresCompSeg)
    | WinDefs(windows: seq<WinDef>)
    | Other(kind: u8, payload: seq<u8>)

  datatype Seg = Seg(pts: u32, dts: u32, body: SegBody)

  /** A composition object can be moved from a frame of `size` into `crop`:
      its position and, when present, its crop position. */
  predicate CompObjDefined(o: CompObj, size: Size, crop: Size)
  {
    && OffsetDefined(o.x, size.0, crop.0) && OffsetDefined(o.y, size.1, crop.1)
    && (o.crop.Some? ==> OffsetDefined(o.crop.value.x, size.0, crop.0) && OffsetDefined(o.crop.value.y, size.1, crop.1))
  }

  function ShiftCompObj(o: CompObj, size: Size, crop: Size): CompObj
    requires CompObjDefined(o, size, crop)
  {
    o.(x := CroppedOffset(o.x, size.0, crop.0), y := CroppedOffset(o.y, size.1, crop.1),
       crop := if o.crop.None? then None
               else Some(o.crop.value.(x := CroppedOffset(o.crop.value.x, size.0, crop.0),
                                       y := CroppedOffset(o.crop.value.y, size.1, crop.1))))
  }

  predicate WinDefDefined(w: WinDef, size: Size, crop: Size)
  {
    OffsetDefined(w.x, size.0, crop.0) && OffsetDefined(w.y, size.1, crop.1)
  }

  function ShiftWinDef(w: WinDef, size: Size, crop: Size): WinDef
    requires WinDefDefined(w, size, crop)
  {
    w.(x := CroppedOffset(w.x, size.0, crop.0), y := CroppedOffset(w.y, size.1, crop.1))
  }

  /** The step on `seg` is defined when the last recorded frame size is
      `size`: a presentation composition segment is moved using its own
      frame size, a window definition segment using `size`. */
  predicate StepDefined(seg: Seg, size: Size, crop: Size)
  {
    match seg.body
    case PresComp(pcs) =>
      forall i :: 0 <= i < |pcs.compObjs| ==> CompObjDefined(pcs.compObjs[i], (pcs.width, pcs.height), crop)
    case WinDefs(ws) =>
      forall i :: 0 <= i < |ws| ==> WinDefDefined(ws[i], size, crop)
    case Other(_, _) => true
  }

  /** The frame size recorded after `seg`. */
  function NextSize(seg: Seg, size: Size): Size
  {
    if seg.body.PresComp? then (seg.body.pcs.width, seg.body.pcs.height) else size
  }

  /** The segment written for `seg`. */
  function StepSeg(seg: Seg, size: Size, crop: Size): Seg
    requires StepDefined(seg, size, crop)
  {
    match seg.body
    case PresComp(pcs) =>
      var own := (pcs.width, pcs.height);
      seg.(body := PresComp(pcs.(width := crop.0, height := crop.1,
        compObjs := seq(|pcs.compObjs|, i requires 0 <= i < |pcs.compObjs| => ShiftCompObj(pcs.compObjs[i], own, crop)))))
    case WinDefs(ws) =>
      seg.(body := WinDefs(seq(|ws|, i requires 0 <= i < |ws| => ShiftWinDef(ws[i], size, crop))))
    case Other(_, _) => seg
  }

  /** What the step keeps: timestamps, the kind of body, the number of
      objects and windows, their ids, window sizes, crop sizes and whether
      an object is cropped; a presentation composition segment gets the
      crop as its frame size; other segments are left as they are. */
  lemma StepKeeps(seg: Seg, size: Size, crop: Size)
    requires StepDefined(seg, size, crop)
    ensures var out := StepSeg(seg, size, crop);
      && out.pts == seg.pts && out.dts == seg.dts
      && (seg.body.PresComp? <==> out.body.PresComp?)
      && (seg.body.WinDefs? <==> out.body.WinDefs?)
      && (seg.body.Other? ==> out == seg)
      && (seg.body.PresComp? ==>
            var a := seg.body.pcs; var b := out.body.pcs;
            && b.width == crop.0 && b.height == crop.1 && b.compNum == a.compNum
            && |b.compObjs| == |a.compObjs|
            && forall i :: 0 <= i < |a.compObjs| ==>
                 && b.compObjs[i].objId == a.compObjs[i].objId && b.compObjs[i].winId == a.compObjs[i].winId
                 && b.compObjs[i].crop.Some? == a.compObjs[i].crop.Some?
                 && (a.compObjs[i].crop.Some? ==>
                       b.compObjs[i].crop.value.width == a.compObjs[i].crop.value.width &&
                       b.compObjs[i].crop.value.height == a.compObjs[i].crop.value.height))
      && (seg.body.WinDefs? ==>
            var a := seg.body.windows; var b := out.body.windows;
            && |b| == |a|
            && forall i :: 0 <= i < |a| ==>
                 b[i].id == a[i].id && b[i].width == a[i].width && b[i].height == a[i].height)
  {
  }

  /** A presentation composition segment authored for the crop size itself
      is written unchanged. */
  lemma NoCropIdentity(seg: Seg, size: Size, crop: Size)
    requires seg.body.PresComp? && (seg.body.pcs.width, seg.body.pcs.height) == crop
    requires StepDefined(seg, size, crop)
    ensures StepSeg(seg, size, crop) == seg
  {
    var pcs := seg.body.pcs;
    var out := StepSeg(seg, size, crop).body.pcs;
    assert out.compObjs == pcs.compObjs;
  }

  /** Before any presentation composition segment the recorded size is
      (0, 0), so a window definition segment with a window cannot be moved
      into a crop of positive width. */
  lemma WinDefFirstUndefined(seg: Seg, crop: Size)
    requires seg.body.WinDefs? && |seg.body.windows| > 0 && crop.0 > 0
    ensures !StepDefined(seg, (0, 0), crop)
  {
    assert !WinDefDefined(seg.body.windows[0], (0, 0), crop);
  }

  // ---------------------------------------------------------------------
  // The segment loop
  // ---------------------------------------------------------------------

  /** The step is defined on every segment of `segs`, starting from the
      recorded size `size`. */
  predicate AllDefined(segs: seq<Seg>, size: Size, crop: Size)
    decreases |segs|
  {
    segs == [] || (StepDefined(segs[0], size, crop) && AllDefined(segs[1..], NextSize(segs[0], size), crop))
  }

  /** The segments written for `segs`, starting from `size`. */
  function Outputs(segs: seq<Seg>, size: Size, crop: Size): (out: seq<Seg>)
    requires AllDefined(segs, size, crop)
    ensures |out| == |segs|
    decreases |segs|
  {
    if segs == [] then []
    else [StepSeg(segs[0], size, crop)] + Outputs(segs[1..], NextSize(segs[0], size), crop)
  }

  /** Each segment is written moved by the size recorded before it: the frame
      size of the latest composition segment ahead of it. */
  lemma {:induction false} OutputsAt(segs: seq<Seg>, size: Size, crop: Size)
    requires AllDefined(segs, size, crop)
    ensures forall i :: 0 <= i < |segs| ==>
              StepDefined(segs[i], FinalSize(segs[..i], size), crop) &&
              Outputs(segs, size, crop)[i] == StepSeg(segs[i], FinalSize(segs[..i], size), crop)
    decreases |segs|
  {
    if segs != [] {
      var next := NextSize(segs[0], size);
      OutputsAt(segs[1..], next, crop);
      forall i | 0 <= i < |segs|
        ensures StepDefined(segs[i], FinalSize(segs[..i], size), crop) &&
                Outputs(segs, size, crop)[i] == StepSeg(segs[i], FinalSize(segs[..i], size), crop)
      {
        if i == 0 {
          assert segs[..0] == [];
        } else {
          assert segs[..i][0] == segs[0];
          assert segs[..i][1..] == segs[1..][..i - 1];
          assert segs[1..][i - 1] == segs[i];
        }
      }
    }
  }

  /** The recorded size after `segs`. */
  function FinalSize(segs: seq<Seg>, size: Size): Size
    decreases |segs|
  {
    if segs == [] then size else FinalSize(segs[1..], NextSize(segs[0], size))
  }

  /** The list of resolutions after `segs`: each presentation composition
      segment notes its frame size. */
  function SizesAfter(sizes: seq<Size>, segs: seq<Seg>): seq<Size>
    decreases |segs|
  {
    if segs == [] then sizes
    else SizesAfter(if segs[0].body.PresComp? then Note(sizes, (segs[0].body.pcs.width, segs[0].body.pcs.height)) else sizes, segs[1..])
  }

  /** The list of resolutions never holds a duplicate, and it holds exactly
      its old entries and the frame sizes of the composition segments. */
  lemma {:induction false} SizesAfterDistinct(sizes: seq<Size>, segs: seq<Seg>)
    requires Distinct(sizes)
    ensures Distinct(SizesAfter(sizes, segs))
    ensures forall x :: x in sizes ==> x in SizesAfter(sizes, segs)
    ensures forall i :: 0 <= i < |segs| && segs[i].body.PresComp? ==>
              (segs[i].body.pcs.width, segs[i].body.pcs.height) in SizesAfter(sizes, segs)
    ensures forall x :: x in SizesAfter(sizes, segs) ==>
              x in sizes ||
              exists i :: 0 <= i < |segs| && segs[i].body.PresComp? &&
                          (segs[i].body.pcs.width, segs[i].body.pcs.height) == x
    decreases |segs|
  {
    if segs != [] {
      var next := if segs[0].body.PresComp? then Note(sizes, (segs[0].body.pcs.width, segs[0].body.pcs.height)) else sizes;
      SizesAfterDistinct(next, segs[1..]);
      forall i | 0 <= i < |segs| && segs[i].body.PresComp?
        ensures (segs[i].body.pcs.width, segs[i].body.pcs.height) in SizesAfter(sizes, segs)
      {
        if i > 0 {
          assert segs[i] == segs[1..][i - 1];
        }
      }
      forall x | x in SizesAfter(sizes, segs)
        ensures x in sizes ||
                exists i :: 0 <= i < |segs| && segs[i].body.PresComp? &&
                            (segs[i].body.pcs.width, segs[i].body.pcs.height) == x
      {
        if x !in sizes {
          if x in next {
            assert segs[0].body.PresComp? && (segs[0].body.pcs.width, segs[0].body.pcs.height) == x;
          } else {
            var j :| 0 <= j < |segs[1..]| && segs[1..][j].body.PresComp? &&
                     (segs[1..][j].body.pcs.width, segs[1..][j].body.pcs.height) == x;
            assert segs[j + 1] == segs[1..][j];
          }
        }
      }
    }
  }

  datatype IoErrorKind = UnexpectedEof | OtherIoError
  datatype SegReadError = IoError(kind: IoErrorKind) | BitstreamError

  /** Only an unexpected end of file ends the loop normally. */
  predicate EndsCleanly(e: SegReadError)
  {
    e.IoError? && e.kind == UnexpectedEof
  }

  datatype Exit = Finished | ReadFailed(error: SegReadError)

  /** The crop size, the frame size of the most recent presentation
      composition segment and the resolutions seen. */
  class Remapper {
    const crop: Size
    var size: Size
    var sizes: seq<Size>

    constructor (crop: Size)
      ensures this.crop == crop && size == (0, 0) && sizes == []
    {
      this.crop := crop;
      size := (0, 0);
      sizes := [];
    }

    /** One pass of the segment loop. */
    method Step(seg: Seg) returns (out: Seg)
      requires StepDefined(seg, size, crop)
      modifies this
      ensures out == StepSeg(seg, old(size), crop)
      ensures size == NextSize(seg, old(size))
      ensures sizes == if seg.body.PresComp? then Note(old(sizes), size) else old(sizes)
    {
      match seg.body
      case PresComp(pcs) =>
        var own, c := (pcs.width, pcs.height), crop;
        size := own;
        if size !in sizes {
          sizes := sizes + [size];
        }
        var objs := ShiftCompObjs(pcs.compObjs, own, c);
        assert objs == seq(|pcs.compObjs|, i requires 0 <= i < |pcs.compObjs| => ShiftCompObj(pcs.compObjs[i], own, c));
        out := seg.(body := PresComp(pcs.(width := crop.0, height := crop.1, compObjs := objs)));
      case WinDefs(ws) =>
        var last, c := size, crop;
        var shifted := ShiftWinDefs(ws, last, c);
        assert shifted == seq(|ws|, i requires 0 <= i < |ws| => ShiftWinDef(ws[i], last, c));
        out := seg.(body := WinDefs(shifted));
      case Other(_, _) =>
        out := seg;
    }

    /** The segment loop over the segments `segs` the reader delivers before
        failing with `end`. */
    method Run(segs: seq<Seg>, end: SegReadError) returns (output: seq<Seg>, exit: Exit)
      requires AllDefined(segs, size, crop)
      modifies this
      ensures output == Outputs(segs, old(size), crop)
      ensures size == FinalSize(segs, old(size))
      ensures sizes == SizesAfter(old(sizes), segs)
      ensures exit == if EndsCleanly(end) then Finished else ReadFailed(end)
    {
      output := [];
      var i := 0;
      while i < |segs|
        invariant 0 <= i <= |segs|
        invariant AllDefined(segs[i..], size, crop)
        invariant Outputs(segs, old(size), crop) == output + Outputs(segs[i..], size, crop)
        invariant FinalSize(segs, old(size)) == FinalSize(segs[i..], size)
        invariant SizesAfter(old(sizes), segs) == SizesAfter(sizes, segs[i..])
        decreases |segs| - i
      {
        assert segs[i..][1..] == segs[i + 1..];
        var out := Step(segs[i]);
        output := output + [out];
        i := i + 1;
      }
      exit := if EndsCleanly(end) then Finished else ReadFailed(end);
    }
  }

  /** The composition-object loop of a presentation composition segment. */
  method ShiftCompObjs(objs: seq<CompObj>, size: Size, crop: Size) returns (r: seq<CompObj>)
    requires forall i :: 0 <= i < |objs| ==> CompObjDefined(objs[i], size, crop)
    ensures |r| == |objs|
    ensures forall i :: 0 <= i < |objs| ==> r[i] == ShiftCompObj(objs[i], size, crop)
  {
    r := objs;
    var i := 0;
    while i < |r|
      invariant 0 <= i <= |r| == |objs|
      invariant forall k :: 0 <= k < i ==> r[k] == ShiftCompObj(objs[k], size, crop)
      invariant forall k :: i <= k < |r| ==> r[k] == objs[k]
    {
      var o := r[i];
      var c := o.crop;
      if c.Some? {
        c := Some(c.value.(x := CroppedOffset(c.value.x, size.0, crop.0), y := CroppedOffset(c.value.y, size.1, crop.1)));
      }
      r := r[i := o.(x := CroppedOffset(o.x, size.0, crop.0), y := CroppedOffset(o.y, size.1, crop.1), crop := c)];
      i := i + 1;
    }
  }

  /** The window loop of a window definition segment. */
  method ShiftWinDefs(ws: seq<WinDef>, size: Size, crop: Size) returns (r: seq<WinDef>)
    requires forall i :: 0 <= i < |ws| ==> WinDefDefined(ws[i], size, crop)
    ensures |r| == |ws|
    ensures forall i :: 0 <= i < |ws| ==> r[i] == ShiftWinDef(ws[i], size, crop)
  {
    r := ws;
    var i := 0;
    while i < |r|
      invariant 0 <= i <= |r| == |ws|
      invariant forall k :: 0 <= k < i ==> r[k] == ShiftWinDef(ws[k], size, crop)
      invariant forall k :: i <= k < |r| ==> r[k] == ws[k]
    {
      var w := r[i];
      r := r[i := w.(x := CroppedOffset(w.x, size.0, crop.0), y := CroppedOffset(w.y, size.1, crop.1))];
      i := i + 1;
    }
  }
}
