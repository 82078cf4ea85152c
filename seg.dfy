/** The presentation-composition segment reader: a big-endian reader that
    checks a segment's magic number and kind and decodes the body of a
    presentation composition segment (screen size, composition number and
    state, palette update, and the list of composition objects). */
module Seg {
  import opened Base

  datatype SegError =
    | PrematureEof
    | UnrecognizedMagicNumber
    | UnrecognizedKind
    | UnrecognizedFrameRate
    | UnrecognizedCompositionState
    | UnrecognizedPaletteUpdateFlag
    | UnrecognizedCroppedFlag

  datatype Result<+T> = Ok(value: T) | Err(error: SegError)

  /** A value decoded from the input and the input that follows it. */
  datatype Parsed<+T> = Parsed(value: T, rest: seq<u8>)

  datatype CompState = Normal | AcquisitionPoint | EpochStart

  datatype CompObj = CompObj(objId: u16, winId: u8, cropped: bool, x: u16, y: u16,
                             xCropped: Option<u16>, yCropped: Option<u16>,
                             widthCropped: Option<u16>, heightCropped: Option<u16>)

  datatype PresCompSeg = PresCompSeg(width: u16, height: u16, compNum: u16, compState: CompState,
                                     palUpdate: bool, palId: u8, compObjs: seq<CompObj>)

  datatype SegBody = PresComp(pcs: PresCompSeg)

  datatype Seg = Seg(pts: u32, dts: u32, body: SegBody)

  const MAGIC: u16 := 0x5047
  const KIND_PCS: u8 := 0x16
  const FRAME_RATE: u8 := 0x10

  // ---------------------------------------------------------------------
  // Field encodings
  // ---------------------------------------------------------------------

  function Be16(a: u8, b: u8): u16
  {
    a * 0x100 + b
  }

  function Be32(a: u8, b: u8, c: u8, d: u8): u32
  {
    ((a * 0x100 + b) * 0x100 + c) * 0x100 + d
  }

  /** The composition-state byte: 0x00, 0x40 and 0x80 are the three states,
      anything else is unrecognized. */
  function CompStateOf(b: u8): Option<CompState>
  {
    if b == 0x00 then Some(Normal)
    else if b == 0x40 then Some(AcquisitionPoint)
    else if b == 0x80 then Some(EpochStart)
    else None
  }

  /** The palette-update byte: 0x00 is false, 0x80 is true. */
  function PalUpdateOf(b: u8): Option<bool>
  {
    if b == 0x00 then Some(false) else if b == 0x80 then Some(true) else None
  }

  /** The cropped-flag byte: 0x40 is true, 0x00 is false. */
  function CroppedOf(b: u8): Option<bool>
  {
    if b == 0x40 then Some(true) else if b == 0x00 then Some(false) else None
  }

  function StateByte(c: CompState): u8
  {
    match c
    case Normal => 0x00
    case AcquisitionPoint => 0x40
    case EpochStart => 0x80
  }

  function FlagByte(b: bool, on: u8): u8
  {
    if b then on else 0x00
  }

  /** Each byte mapping accepts exactly its listed bytes and is inverted by
      the corresponding encoding. */
  lemma ByteMappings(b: u8, c: CompState, f: bool)
    ensures CompStateOf(b).Some? <==> b == 0x00 || b == 0x40 || b == 0x80
    ensures CompStateOf(b).Some? ==> StateByte(CompStateOf(b).value) == b
    ensures CompStateOf(StateByte(c)) == Some(c)
    ensures PalUpdateOf(b).Some? <==> b == 0x00 || b == 0x80
    ensures PalUpdateOf(b).Some? ==> FlagByte(PalUpdateOf(b).value, 0x80) == b
    ensures PalUpdateOf(FlagByte(f, 0x80)) == Some(f)
    ensures CroppedOf(b).Some? <==> b == 0x00 || b == 0x40
    ensures CroppedOf(b).Some? ==> FlagByte(CroppedOf(b).value, 0x40) == b
    ensures CroppedOf(FlagByte(f, 0x40)) == Some(f)
  {
  }

  // ---------------------------------------------------------------------
  // The segment layout as functions of the remaining input
  // ---------------------------------------------------------------------

  /** The composition object at the start of `s`: object id (2 bytes),
      window id, cropped flag, x and y (2 bytes each), then the four crop
      fields when the flag is set. */
  function CompObjAt(s: seq<u8>): Result<Parsed<CompObj>>
  {
    if |s| < 4 then Err(PrematureEof)
    else if CroppedOf(s[3]).None? then Err(UnrecognizedCroppedFlag)
    else if |s| < 8 then Err(PrematureEof)
    else if CroppedOf(s[3]).value then
      if |s| < 16 then Err(PrematureEof)
      else Ok(Parsed(CompObj(Be16(s[0], s[1]), s[2], true, Be16(s[4], s[5]), Be16(s[6], s[7]),
                             Some(Be16(s[8], s[9])), Some(Be16(s[10], s[11])),
                             Some(Be16(s[12], s[13])), Some(Be16(s[14], s[15]))),
                     s[16..]))
    else
      Ok(Parsed(CompObj(Be16(s[0], s[1]), s[2], false, Be16(s[4], s[5]), Be16(s[6], s[7]),
                        None, None, None, None),
                s[8..]))
  }

  /** `n` composition objects read one after the other. */
  function CompObjsAt(s: seq<u8>, n: nat): Result<Parsed<seq<CompObj>>>
    decreases n
  {
    if n == 0 then Ok(Parsed([], s))
    else match CompObjAt(s)
      case Err(e) => Err(e)
      case Ok(first) =>
        match CompObjsAt(first.rest, n - 1)
        case Err(e) => Err(e)
        case Ok(others) => Ok(Parsed([first.value] + others.value, others.rest))
  }

  /** The presentation composition body: body size, width, height, frame
      rate, composition number, composition state, palette update flag,
      palette id, object count, objects. */
  function PcsAt(s: seq<u8>): Result<Parsed<PresCompSeg>>
  {
    if |s| < 7 then Err(PrematureEof)
    else if s[6] != FRAME_RATE then Err(UnrecognizedFrameRate)
    else if |s| < 10 then Err(PrematureEof)
    else if CompStateOf(s[9]).None? then Err(UnrecognizedCompositionState)
    else if |s| < 11 then Err(PrematureEof)
    else if PalUpdateOf(s[10]).None? then Err(UnrecognizedPaletteUpdateFlag)
    else if |s| < 13 then Err(PrematureEof)
    else match CompObjsAt(s[13..], s[12])
      case Err(e) => Err(e)
      case Ok(objs) =>
        Ok(Parsed(PresCompSeg(Be16(s[2], s[3]), Be16(s[4], s[5]), Be16(s[7], s[8]),
                              CompStateOf(s[9]).value, PalUpdateOf(s[10]).value, s[11], objs.value),
                  objs.rest))
  }

  /** The segment at the start of `s`: magic number, PTS, DTS, kind, body. */
  function SegAt(s: seq<u8>): Result<Parsed<Seg>>
  {
    if |s| < 2 then Err(PrematureEof)
    else if Be16(s[0], s[1]) != MAGIC then Err(UnrecognizedMagicNumber)
    else if |s| < 11 then Err(PrematureEof)
    else if s[10] != KIND_PCS then Err(UnrecognizedKind)
    else match PcsAt(s[11..])
      case Err(e) => Err(e)
      case Ok(pcs) =>
        Ok(Parsed(Seg(Be32(s[2], s[3], s[4], s[5]), Be32(s[6], s[7], s[8], s[9]), PresComp(pcs.value)),
                  pcs.rest))
  }

  /** The result without the position. */
  function Strip<T>(r: Result<Parsed<T>>): Result<T>
  {
    match r
    case Ok(v) => Ok(v.value)
    case Err(e) => Err(e)
  }

  // ---------------------------------------------------------------------
  // The reader
  // ---------------------------------------------------------------------

  /** The input stream: its bytes and the read position. A read that runs
      past the end fails and leaves the stream exhausted. */
  class Input {
    const bytes: seq<u8>
    var pos: nat

    constructor (bytes: seq<u8>)
      ensures this.bytes == bytes && pos == 0
    {
      this.bytes := bytes;
      pos := 0;
    }

    method ReadU8() returns (r: Result<u8>)
      requires pos <= |bytes|
      modifies this`pos
      ensures pos <= |bytes|
      ensures old(pos) + 1 <= |bytes| ==> r == Ok(bytes[old(pos)]) && pos == old(pos) + 1
      ensures old(pos) + 1 > |bytes| ==> r == Err(PrematureEof)
    {
      if pos + 1 <= |bytes| {
        r := Ok(bytes[pos]);
        pos := pos + 1;
      } else {
        r := Err(PrematureEof);
        pos := |bytes|;
      }
    }

    method ReadU16() returns (r: Result<u16>)
      requires pos <= |bytes|
      modifies this`pos
      ensures pos <= |bytes|
      ensures old(pos) + 2 <= |bytes| ==>
                r == Ok(Be16(bytes[old(pos)], bytes[old(pos) + 1])) && pos == old(pos) + 2
      ensures old(pos) + 2 > |bytes| ==> r == Err(PrematureEof)
    {
      if pos + 2 <= |bytes| {
        r := Ok(Be16(bytes[pos], bytes[pos + 1]));
        pos := pos + 2;
      } else {
        r := Err(PrematureEof);
        pos := |bytes|;
      }
    }

    method ReadU32() returns (r: Result<u32>)
      requires pos <= |bytes|
      modifies this`pos
      ensures pos <= |bytes|
      ensures old(pos) + 4 <= |bytes| ==>
                r == Ok(Be32(bytes[old(pos)], bytes[old(pos) + 1], bytes[old(pos) + 2], bytes[old(pos) + 3])) &&
                pos == old(pos) + 4
      ensures old(pos) + 4 > |bytes| ==> r == Err(PrematureEof)
    {
      if pos + 4 <= |bytes| {
        r := Ok(Be32(bytes[pos], bytes[pos + 1], bytes[pos + 2], bytes[pos + 3]));
        pos := pos + 4;
      } else {
        r := Err(PrematureEof);
        pos := |bytes|;
      }
    }

    /** read_seg: the segment at the read position. */
    method ReadSeg() returns (r: Result<Seg>)
      requires pos <= |bytes|
      modifies this`pos
      ensures pos <= |bytes|
      ensures r == Strip(SegAt(bytes[old(pos)..]))
      ensures r.Ok? ==> bytes[pos..] == SegAt(bytes[old(pos)..]).value.rest
    {
      var magic := ReadU16();
      if magic.Err? {
        return Err(magic.error);
      }
      if magic.value != MAGIC {
        return Err(UnrecognizedMagicNumber);
      }
      var pts := ReadU32();
      if pts.Err? {
        return Err(pts.error);
      }
      var dts := ReadU32();
      if dts.Err? {
        return Err(dts.error);
      }
      var kind := ReadU8();
      if kind.Err? {
        return Err(kind.error);
      }
      if kind.value != KIND_PCS {
        return Err(UnrecognizedKind);
      }
      var pcs := ParsePcs(this);
      if pcs.Err? {
        return Err(pcs.error);
      }
      r := Ok(Seg(pts.value, dts.value, PresComp(pcs.value)));
    }
  }

  /** One composition object of parse_pcs's loop. */
  method ReadCompObj(input: Input) returns (r: Result<CompObj>)
    requires input.pos <= |input.bytes|
    modifies input`pos
    ensures input.pos <= |input.bytes|
    ensures r == Strip(CompObjAt(input.bytes[old(input.pos)..]))
    ensures r.Ok? ==> input.bytes[input.pos..] == CompObjAt(input.bytes[old(input.pos)..]).value.rest
  {
    var objId := input.ReadU16();
    if objId.Err? {
      return Err(objId.error);
    }
    var winId := input.ReadU8();
    if winId.Err? {
      return Err(winId.error);
    }
    var flag := input.ReadU8();
    if flag.Err? {
      return Err(flag.error);
    }
    var cropped;
    if flag.value == 0x40 {
      cropped := true;
    } else if flag.value == 0x00 {
      cropped := false;
    } else {
      return Err(UnrecognizedCroppedFlag);
    }
    var x := input.ReadU16();
    if x.Err? {
      return Err(x.error);
    }
    var y := input.ReadU16();
    if y.Err? {
      return Err(y.error);
    }
    if cropped {
      var xc := input.ReadU16();
      if xc.Err? {
        return Err(xc.error);
      }
      var yc := input.ReadU16();
      if yc.Err? {
        return Err(yc.error);
      }
      var wc := input.ReadU16();
      if wc.Err? {
        return Err(wc.error);
      }
      var hc := input.ReadU16();
      if hc.Err? {
        return Err(hc.error);
      }
      r := Ok(CompObj(objId.value, winId.value, true, x.value, y.value,
                      Some(xc.value), Some(yc.value), Some(wc.value), Some(hc.value)));
    } else {
      r := Ok(CompObj(objId.value, winId.value, false, x.value, y.value, None, None, None, None));
    }
  }

  /** The objects after `n` objects have been read: one more object, or
      the error that stops the read. */
  function ReadOneMore(prior: Result<Parsed<seq<CompObj>>>): Result<Parsed<seq<CompObj>>>
  {
    match prior
    case Err(e) => Err(e)
    case Ok(done) =>
      match CompObjAt(done.rest)
      case Err(e) => Err(e)
      case Ok(next) => Ok(Parsed(done.value + [next.value], next.rest))
  }

  /** Reading n + 1 objects is reading n objects and then one more: the
      order in which the loop of parse_pcs reads them. */
  lemma {:induction false} CompObjsSnoc(s: seq<u8>, n: nat)
    ensures CompObjsAt(s, n + 1) == ReadOneMore(CompObjsAt(s, n))
    decreases n
  {
    if n == 0 {
      if CompObjAt(s).Ok? {
        assert [] + [CompObjAt(s).value.value] == [CompObjAt(s).value.value] + [];
      }
    } else if CompObjAt(s).Ok? {
      var first := CompObjAt(s).value;
      CompObjsSnoc(first.rest, n - 1);
      var others := CompObjsAt(first.rest, n - 1);
      if others.Ok? && CompObjAt(others.value.rest).Ok? {
        var next := CompObjAt(others.value.rest).value.value;
        assert [first.value] + (others.value.value + [next]) == ([first.value] + others.value.value) + [next];
      }
    }
  }

  /** Once the read of the objects fails, reading further objects fails the
      same way. */
  lemma {:induction false} CompObjsErrorStays(s: seq<u8>, n: nat, count: nat)
    requires n <= count && CompObjsAt(s, n).Err?
    ensures CompObjsAt(s, count) == CompObjsAt(s, n)
    decreases count - n
  {
    if n < count {
      CompObjsSnoc(s, n);
      CompObjsErrorStays(s, n + 1, count);
    }
  }

  /** One pass of the object loop: the objects read so far are followed by
      the next one. */
  method ReadNextCompObj(input: Input, ghost s: seq<u8>, ghost n: nat, ghost done: seq<CompObj>)
    returns (r: Result<CompObj>)
    requires input.pos <= |input.bytes|
    requires CompObjsAt(s, n) == Ok(Parsed(done, input.bytes[input.pos..]))
    modifies input`pos
    ensures input.pos <= |input.bytes|
    ensures r.Err? ==> CompObjsAt(s, n + 1) == Err(r.error)
    ensures r.Ok? ==> CompObjsAt(s, n + 1) == Ok(Parsed(done + [r.value], input.bytes[input.pos..]))
  {
    CompObjsSnoc(s, n);
    r := ReadCompObj(input);
  }

  /** parse_pcs: the presentation composition body at the read position. */
  method ParsePcs(input: Input) returns (r: Result<PresCompSeg>)
    requires input.pos <= |input.bytes|
    modifies input`pos
    ensures input.pos <= |input.bytes|
    ensures r == Strip(PcsAt(input.bytes[old(input.pos)..]))
    ensures r.Ok? ==> input.bytes[input.pos..] == PcsAt(input.bytes[old(input.pos)..]).value.rest
  {
    var size := input.ReadU16();
    if size.Err? {
      return Err(size.error);
    }
    var width := input.ReadU16();
    if width.Err? {
      return Err(width.error);
    }
    var height := input.ReadU16();
    if height.Err? {
      return Err(height.error);
    }
    var frameRate := input.ReadU8();
    if frameRate.Err? {
      return Err(frameRate.error);
    }
    if frameRate.value != FRAME_RATE {
      return Err(UnrecognizedFrameRate);
    }
    var compNum := input.ReadU16();
    if compNum.Err? {
      return Err(compNum.error);
    }
    var stateByte := input.ReadU8();
    if stateByte.Err? {
      return Err(stateByte.error);
    }
    var compState;
    if stateByte.value == 0x00 {
      compState := Normal;
    } else if stateByte.value == 0x40 {
      compState := AcquisitionPoint;
    } else if stateByte.value == 0x80 {
      compState := EpochStart;
    } else {
      return Err(UnrecognizedCompositionState);
    }
    var palByte := input.ReadU8();
    if palByte.Err? {
      return Err(palByte.error);
    }
    var palUpdate;
    if palByte.value == 0x00 {
      palUpdate := false;
    } else if palByte.value == 0x80 {
      palUpdate := true;
    } else {
      return Err(UnrecognizedPaletteUpdateFlag);
    }
    var palId := input.ReadU8();
    if palId.Err? {
      return Err(palId.error);
    }
    var count := input.ReadU8();
    if count.Err? {
      return Err(count.error);
    }
    var compObjs := ReadCompObjs(input, count.value);
    if compObjs.Err? {
      return Err(compObjs.error);
    }
    r := Ok(PresCompSeg(width.value, height.value, compNum.value, compState, palUpdate, palId.value,
                        compObjs.value));
  }

  /** The loop of parse_pcs: exactly `count` composition objects, in input
      order. */
  method ReadCompObjs(input: Input, count: nat) returns (r: Result<seq<CompObj>>)
    requires input.pos <= |input.bytes|
    modifies input`pos
    ensures input.pos <= |input.bytes|
    ensures r == Strip(CompObjsAt(input.bytes[old(input.pos)..], count))
    ensures r.Ok? ==> input.bytes[input.pos..] == CompObjsAt(input.bytes[old(input.pos)..], count).value.rest
  {
    var compObjs := [];
    var i := 0;
    ghost var s := input.bytes[input.pos..];
    while i < count
      invariant 0 <= i <= count
      invariant input.pos <= |input.bytes|
      invariant CompObjsAt(s, i) == Ok(Parsed(compObjs, input.bytes[input.pos..]))
      decreases count - i
    {
      var obj := ReadNextCompObj(input, s, i, compObjs);
      if obj.Err? {
        CompObjsErrorStays(s, i + 1, count);
        return Err(obj.error);
      }
      compObjs := compObjs + [obj.value];
      i := i + 1;
    }
    r := Ok(compObjs);
  }

  // ---------------------------------------------------------------------
  // The byte layout the reader accepts
  // ---------------------------------------------------------------------

  function Hi(v: u16): u8 { v / 0x100 }
  function Lo(v: u16): u8 { v % 0x100 }
  function Upper(v: u32): u16 { v / 0x1_0000 }
  function Lower(v: u32): u16 { v % 0x1_0000 }

  /** Splitting a value into big-endian bytes and joining them again gives
      the value back. */
  lemma Split16(v: u16)
    ensures Be16(Hi(v), Lo(v)) == v
  {
  }

  lemma Split32(w: u32)
    ensures Be32(Hi(Upper(w)), Lo(Upper(w)), Hi(Lower(w)), Lo(Lower(w))) == w
  {
    assert Be32(Hi(Upper(w)), Lo(Upper(w)), Hi(Lower(w)), Lo(Lower(w))) ==
           Be16(Hi(Upper(w)), Lo(Upper(w))) * 0x1_0000 + Be16(Hi(Lower(w)), Lo(Lower(w)));
    Split16(Upper(w));
    Split16(Lower(w));
  }

  /** Joining big-endian bytes and splitting the value again gives the bytes
      back. */
  lemma Join16(a: u8, b: u8)
    ensures Hi(Be16(a, b)) == a && Lo(Be16(a, b)) == b
  {
  }

  lemma Join32(a: u8, b: u8, c: u8, d: u8)
    ensures Upper(Be32(a, b, c, d)) == Be16(a, b) && Lower(Be32(a, b, c, d)) == Be16(c, d)
  {
    assert Be32(a, b, c, d) == Be16(a, b) * 0x1_0000 + Be16(c, d);
  }

  /** The four crop fields are present exactly when the object is cropped. */
  predicate CropConsistent(o: CompObj)
  {
    if o.cropped then o.xCropped.Some? && o.yCropped.Some? && o.widthCropped.Some? && o.heightCropped.Some?
    else o.xCropped.None? && o.yCropped.None? && o.widthCropped.None? && o.heightCropped.None?
  }

  /** A segment the layout can express: at most 255 composition objects,
      each with consistent crop fields. */
  predicate WellFormed(seg: Seg)
  {
    && |seg.body.pcs.compObjs| < 0x100
    && forall i :: 0 <= i < |seg.body.pcs.compObjs| ==> CropConsistent(seg.body.pcs.compObjs[i])
  }

  /** The bytes of one composition object. */
  function CompObjBytes(o: CompObj): seq<u8>
    requires CropConsistent(o)
  {
    [Hi(o.objId), Lo(o.objId), o.winId, FlagByte(o.cropped, 0x40), Hi(o.x), Lo(o.x), Hi(o.y), Lo(o.y)] +
    if o.cropped then
      [Hi(o.xCropped.value), Lo(o.xCropped.value), Hi(o.yCropped.value), Lo(o.yCropped.value),
       Hi(o.widthCropped.value), Lo(o.widthCropped.value), Hi(o.heightCropped.value), Lo(o.heightCropped.value)]
    else []
  }

  function CompObjsBytes(objs: seq<CompObj>): seq<u8>
    requires forall i :: 0 <= i < |objs| ==> CropConsistent(objs[i])
    decreases |objs|
  {
    if objs == [] then [] else CompObjBytes(objs[0]) + CompObjsBytes(objs[1..])
  }

  /** The 11-byte header: magic number, PTS, DTS and kind. */
  function HeaderBytes(seg: Seg): seq<u8>
  {
    [Hi(MAGIC), Lo(MAGIC),
     Hi(Upper(seg.pts)), Lo(Upper(seg.pts)), Hi(Lower(seg.pts)), Lo(Lower(seg.pts)),
     Hi(Upper(seg.dts)), Lo(Upper(seg.dts)), Hi(Lower(seg.dts)), Lo(Lower(seg.dts)),
     KIND_PCS]
  }

  /** The 13 fixed bytes of the body, from the body size to the object
      count. */
  function PcsPrefixBytes(bodySize: u16, pcs: PresCompSeg): seq<u8>
    requires |pcs.compObjs| < 0x100
  {
    [Hi(bodySize), Lo(bodySize), Hi(pcs.width), Lo(pcs.width), Hi(pcs.height), Lo(pcs.height),
     FRAME_RATE, Hi(pcs.compNum), Lo(pcs.compNum), StateByte(pcs.compState),
     FlagByte(pcs.palUpdate, 0x80), pcs.palId, |pcs.compObjs|]
  }

  /** The bytes of a well-formed segment whose body-size field holds
      `bodySize` (a field the reader skips). */
  function SegBytes(bodySize: u16, seg: Seg): seq<u8>
    requires WellFormed(seg)
  {
    HeaderBytes(seg) + PcsPrefixBytes(bodySize, seg.body.pcs) + CompObjsBytes(seg.body.pcs.compObjs)
  }

  /** The extent of an object: 8 bytes, or 16 when it is cropped. */
  function ObjExtent(o: CompObj): nat
  {
    if o.cropped then 16 else 8
  }

  function ObjsExtent(objs: seq<CompObj>): nat
    decreases |objs|
  {
    if objs == [] then 0 else ObjExtent(objs[0]) + ObjsExtent(objs[1..])
  }

  lemma {:induction false} CompObjsBytesLength(objs: seq<CompObj>)
    requires forall i :: 0 <= i < |objs| ==> CropConsistent(objs[i])
    ensures |CompObjsBytes(objs)| == ObjsExtent(objs)
    decreases |objs|
  {
    if objs != [] {
      CompObjsBytesLength(objs[1..]);
    }
  }

  /** A segment takes 24 fixed bytes plus 8 per uncropped and 16 per cropped
      composition object. */
  lemma SegBytesLength(bodySize: u16, seg: Seg)
    requires WellFormed(seg)
    ensures |SegBytes(bodySize, seg)| == 24 + ObjsExtent(seg.body.pcs.compObjs)
  {
    CompObjsBytesLength(seg.body.pcs.compObjs);
  }

  // ---------------------------------------------------------------------
  // Reading the layout back
  // ---------------------------------------------------------------------

  /** One composition object is read back from its bytes, and the input
      after them is left over. */
  lemma CompObjRoundTrip(o: CompObj, rest: seq<u8>)
    requires CropConsistent(o)
    ensures CompObjAt(CompObjBytes(o) + rest) == Ok(Parsed(o, rest))
  {
    var s := CompObjBytes(o) + rest;
    Split16(o.objId);
    Split16(o.x);
    Split16(o.y);
    if o.cropped {
      Split16(o.xCropped.value);
      Split16(o.yCropped.value);
      Split16(o.widthCropped.value);
      Split16(o.heightCropped.value);
      assert s[16..] == rest;
    } else {
      assert s[8..] == rest;
    }
  }

  lemma {:induction false} CompObjsRoundTrip(objs: seq<CompObj>, rest: seq<u8>)
    requires forall i :: 0 <= i < |objs| ==> CropConsistent(objs[i])
    ensures CompObjsAt(CompObjsBytes(objs) + rest, |objs|) == Ok(Parsed(objs, rest))
    decreases |objs|
  {
    if objs != [] {
      var tail := CompObjsBytes(objs[1..]) + rest;
      assert CompObjsBytes(objs) + rest == CompObjBytes(objs[0]) + tail;
      CompObjRoundTrip(objs[0], tail);
      CompObjsRoundTrip(objs[1..], rest);
      assert [objs[0]] + objs[1..] == objs;
    } else {
      assert CompObjsBytes(objs) + rest == rest;
    }
  }

  /** The fixed fields of the body are read back from their bytes. */
  lemma PcsPrefixRoundTrip(bodySize: u16, pcs: PresCompSeg, more: seq<u8>)
    requires |pcs.compObjs| < 0x100
    ensures var t := PcsPrefixBytes(bodySize, pcs) + more;
      && |t| >= 13 && t[6] == FRAME_RATE
      && CompStateOf(t[9]) == Some(pcs.compState) && PalUpdateOf(t[10]) == Some(pcs.palUpdate)
      && Be16(t[2], t[3]) == pcs.width && Be16(t[4], t[5]) == pcs.height && Be16(t[7], t[8]) == pcs.compNum
      && t[11] == pcs.palId && t[12] == |pcs.compObjs| && t[13..] == more
  {
    Split16(pcs.width);
    Split16(pcs.height);
    Split16(pcs.compNum);
    ByteMappings(0, pcs.compState, pcs.palUpdate);
  }

  /** The body of a presentation composition segment is read back from its
      bytes. */
  lemma PcsRoundTrip(bodySize: u16, pcs: PresCompSeg, rest: seq<u8>)
    requires |pcs.compObjs| < 0x100
    requires forall i :: 0 <= i < |pcs.compObjs| ==> CropConsistent(pcs.compObjs[i])
    ensures PcsAt(PcsPrefixBytes(bodySize, pcs) + CompObjsBytes(pcs.compObjs) + rest) == Ok(Parsed(pcs, rest))
  {
    var objBytes := CompObjsBytes(pcs.compObjs) + rest;
    assert PcsPrefixBytes(bodySize, pcs) + CompObjsBytes(pcs.compObjs) + rest == PcsPrefixBytes(bodySize, pcs) + objBytes;
    PcsPrefixRoundTrip(bodySize, pcs, objBytes);
    CompObjsRoundTrip(pcs.compObjs, rest);
  }

  /** The header is read back from its bytes. */
  lemma HeaderRoundTrip(seg: Seg, more: seq<u8>)
    ensures var t := HeaderBytes(seg) + more;
      && |t| >= 11 && Be16(t[0], t[1]) == MAGIC && t[10] == KIND_PCS
      && Be32(t[2], t[3], t[4], t[5]) == seg.pts && Be32(t[6], t[7], t[8], t[9]) == seg.dts
      && t[11..] == more
  {
    Split16(MAGIC);
    Split32(seg.pts);
    Split32(seg.dts);
  }

  /** The reader reads a well-formed segment back from its bytes, whatever
      the body-size field says, and leaves the input that follows. */
  lemma RoundTrip(bodySize: u16, seg: Seg, rest: seq<u8>)
    requires WellFormed(seg)
    ensures SegAt(SegBytes(bodySize, seg) + rest) == Ok(Parsed(seg, rest))
  {
    var pcs := seg.body.pcs;
    var body := PcsPrefixBytes(bodySize, pcs) + CompObjsBytes(pcs.compObjs) + rest;
    assert SegBytes(bodySize, seg) + rest == HeaderBytes(seg) + body;
    HeaderRoundTrip(seg, body);
    PcsRoundTrip(bodySize, pcs, rest);
  }

  // ---------------------------------------------------------------------
  // Everything the reader accepts is that layout
  // ---------------------------------------------------------------------

  /** A composition object that is read has consistent crop fields, and the
      bytes consumed are exactly its bytes. */
  lemma CompObjExact(s: seq<u8>)
    requires CompObjAt(s).Ok?
    ensures CropConsistent(CompObjAt(s).value.value)
    ensures s == CompObjBytes(CompObjAt(s).value.value) + CompObjAt(s).value.rest
  {
    var o := CompObjAt(s).value.value;
    var n := if o.cropped then 16 else 8;
    forall k | 0 <= k < 8 && k % 2 == 0
      ensures Hi(Be16(s[k], s[k + 1])) == s[k] && Lo(Be16(s[k], s[k + 1])) == s[k + 1]
    {
      Join16(s[k], s[k + 1]);
    }
    if o.cropped {
      forall k | 8 <= k < 16 && k % 2 == 0
        ensures Hi(Be16(s[k], s[k + 1])) == s[k] && Lo(Be16(s[k], s[k + 1])) == s[k + 1]
      {
        Join16(s[k], s[k + 1]);
      }
    }
    ByteMappings(s[3], Normal, false);
    assert s[..n] == CompObjBytes(o);
    assert s == s[..n] + s[n..];
  }

  lemma {:induction false} CompObjsExact(s: seq<u8>, n: nat)
    requires CompObjsAt(s, n).Ok?
    ensures var r := CompObjsAt(s, n).value;
      && |r.value| == n
      && (forall i :: 0 <= i < |r.value| ==> CropConsistent(r.value[i]))
      && s == CompObjsBytes(r.value) + r.rest
    decreases n
  {
    var r := CompObjsAt(s, n).value;
    if n == 0 {
      assert s == CompObjsBytes(r.value) + r.rest;
    } else {
      var first := CompObjAt(s).value;
      CompObjExact(s);
      CompObjsExact(first.rest, n - 1);
      var others := CompObjsAt(first.rest, n - 1).value;
      ConsExact(s, first, others);
      assert r == Parsed([first.value] + others.value, others.rest);
    }
  }

  /** One object's bytes followed by the bytes of the others are the bytes
      of the whole list. */
  lemma ConsExact(s: seq<u8>, first: Parsed<CompObj>, others: Parsed<seq<CompObj>>)
    requires CropConsistent(first.value)
    requires forall i :: 0 <= i < |others.value| ==> CropConsistent(others.value[i])
    requires s == CompObjBytes(first.value) + first.rest
    requires first.rest == CompObjsBytes(others.value) + others.rest
    ensures forall i :: 0 <= i < 1 + |others.value| ==> CropConsistent(([first.value] + others.value)[i])
    ensures s == CompObjsBytes([first.value] + others.value) + others.rest
  {
    var objs := [first.value] + others.value;
    assert objs[0] == first.value && objs[1..] == others.value;
  }

  /** The fixed fields that pass the reader's checks are the prefix layout
      of the values they carry. */
  lemma PcsPrefixExact(s: seq<u8>, objs: seq<CompObj>)
    requires |s| >= 13 && CompStateOf(s[9]).Some? && PalUpdateOf(s[10]).Some? && s[6] == FRAME_RATE
    requires |objs| == s[12]
    ensures s[..13] == PcsPrefixBytes(Be16(s[0], s[1]),
                         PresCompSeg(Be16(s[2], s[3]), Be16(s[4], s[5]), Be16(s[7], s[8]),
                                     CompStateOf(s[9]).value, PalUpdateOf(s[10]).value, s[11], objs))
  {
    Join16(s[0], s[1]);
    Join16(s[2], s[3]);
    Join16(s[4], s[5]);
    Join16(s[7], s[8]);
    ByteMappings(s[9], Normal, false);
    ByteMappings(s[10], Normal, false);
  }

  /** A body that is read has as many objects as its count byte says, each
      with consistent crop fields, and the bytes consumed are exactly its
      layout with the body size it carries. */
  lemma PcsExact(s: seq<u8>)
    requires PcsAt(s).Ok?
    ensures var r := PcsAt(s).value;
      && |r.value.compObjs| == s[12]
      && (forall i :: 0 <= i < |r.value.compObjs| ==> CropConsistent(r.value.compObjs[i]))
      && s == PcsPrefixBytes(Be16(s[0], s[1]), r.value) + CompObjsBytes(r.value.compObjs) + r.rest
  {
    var r := PcsAt(s).value;
    var objs := CompObjsAt(s[13..], s[12]).value;
    CompObjsExact(s[13..], s[12]);
    PcsPrefixExact(s, objs.value);
    Reassemble(s, 13, PcsPrefixBytes(Be16(s[0], s[1]), r.value), CompObjsBytes(r.value.compObjs), r.rest);
  }

  lemma Reassemble(s: seq<u8>, n: nat, prefix: seq<u8>, middle: seq<u8>, rest: seq<u8>)
    requires n <= |s| && s[..n] == prefix && s[n..] == middle + rest
    ensures s == prefix + middle + rest
  {
    assert s == s[..n] + s[n..];
  }

  /** A header that passes the reader's checks is the header layout of the
      timestamps it carries. */
  lemma HeaderExact(s: seq<u8>, body: SegBody)
    requires |s| >= 11 && Be16(s[0], s[1]) == MAGIC && s[10] == KIND_PCS
    ensures s[..11] == HeaderBytes(Seg(Be32(s[2], s[3], s[4], s[5]), Be32(s[6], s[7], s[8], s[9]), body))
  {
    Join16(s[0], s[1]);
    Join32(s[2], s[3], s[4], s[5]);
    Join32(s[6], s[7], s[8], s[9]);
    Join16(s[2], s[3]);
    Join16(s[4], s[5]);
    Join16(s[6], s[7]);
    Join16(s[8], s[9]);
  }

  /** A segment that is read is well formed, its object list is as long as
      the count byte says, and the bytes consumed are exactly its layout
      with the body size it carries. */
  lemma Exact(s: seq<u8>)
    requires SegAt(s).Ok?
    ensures var r := SegAt(s).value;
      && WellFormed(r.value)
      && |r.value.body.pcs.compObjs| == s[23]
      && s == SegBytes(Be16(s[11], s[12]), r.value) + r.rest
  {
    var r := SegAt(s).value;
    PcsExact(s[11..]);
    HeaderExact(s, r.value.body);
    assert s == s[..11] + s[11..];
  }

  /** A read segment consumes 24 bytes plus 8 per uncropped and 16 per
      cropped composition object, whatever its body-size field says. */
  lemma ConsumedBytes(s: seq<u8>)
    requires SegAt(s).Ok?
    ensures |s| - |SegAt(s).value.rest| == 24 + ObjsExtent(SegAt(s).value.value.body.pcs.compObjs)
  {
    Exact(s);
    SegBytesLength(Be16(s[11], s[12]), SegAt(s).value.value);
  }

  /** The reader looks at nothing past the bytes it consumes: replacing what
      follows them does not change the segment read. */
  lemma OnlyConsumedBytesMatter(consumed: seq<u8>, rest: seq<u8>, more: seq<u8>, seg: Seg)
    requires SegAt(consumed + rest) == Ok(Parsed(seg, rest))
    ensures SegAt(consumed + more) == Ok(Parsed(seg, more))
  {
    var s := consumed + rest;
    Exact(s);
    var bs := SegBytes(Be16(s[11], s[12]), seg);
    assert consumed == s[..|consumed|] && bs == s[..|bs|];
    RoundTrip(Be16(s[11], s[12]), seg, more);
  }

  // ---------------------------------------------------------------------
  // Truncated input and the error conditions
  // ---------------------------------------------------------------------

  /** Any strict prefix of an object's bytes ends in a premature end of
      file. */
  lemma CompObjTruncated(o: CompObj, k: nat)
    requires CropConsistent(o)
    requires k < |CompObjBytes(o)|
    ensures CompObjAt(CompObjBytes(o)[..k]) == Err(PrematureEof)
  {
    ByteMappings(0, Normal, o.cropped);
  }

  lemma {:induction false} CompObjsTruncated(objs: seq<CompObj>, k: nat)
    requires forall i :: 0 <= i < |objs| ==> CropConsistent(objs[i])
    requires k < |CompObjsBytes(objs)|
    ensures CompObjsAt(CompObjsBytes(objs)[..k], |objs|) == Err(PrematureEof)
    decreases |objs|
  {
    var first := CompObjBytes(objs[0]);
    var others := CompObjsBytes(objs[1..]);
    assert CompObjsBytes(objs) == first + others;
    if k < |first| {
      assert CompObjsBytes(objs)[..k] == first[..k];
      CompObjTruncated(objs[0], k);
    } else {
      assert CompObjsBytes(objs)[..k] == first + others[..k - |first|];
      CompObjRoundTrip(objs[0], others[..k - |first|]);
      CompObjsTruncated(objs[1..], k - |first|);
    }
  }

  lemma PcsTruncated(bodySize: u16, pcs: PresCompSeg, k: nat)
    requires |pcs.compObjs| < 0x100
    requires forall i :: 0 <= i < |pcs.compObjs| ==> CropConsistent(pcs.compObjs[i])
    requires k < |PcsPrefixBytes(bodySize, pcs) + CompObjsBytes(pcs.compObjs)|
    ensures PcsAt((PcsPrefixBytes(bodySize, pcs) + CompObjsBytes(pcs.compObjs))[..k]) == Err(PrematureEof)
  {
    var prefix := PcsPrefixBytes(bodySize, pcs);
    var objs := CompObjsBytes(pcs.compObjs);
    var t := (prefix + objs)[..k];
    if k < 13 {
      assert t == prefix[..k];
      PcsPrefixTruncated(bodySize, pcs, k);
    } else {
      var tail := objs[..k - 13];
      assert t == prefix + tail;
      PcsPrefixRoundTrip(bodySize, pcs, tail);
      CompObjsTruncated(pcs.compObjs, k - 13);
    }
  }

  lemma PcsPrefixTruncated(bodySize: u16, pcs: PresCompSeg, k: nat)
    requires |pcs.compObjs| < 0x100 && k < 13
    ensures PcsAt(PcsPrefixBytes(bodySize, pcs)[..k]) == Err(PrematureEof)
  {
    ByteMappings(0, pcs.compState, pcs.palUpdate);
  }

  /** Input that ends anywhere inside a well-formed segment gives a
      premature end of file, never a partial segment. */
  lemma Truncated(bodySize: u16, seg: Seg, k: nat)
    requires WellFormed(seg)
    requires k < |SegBytes(bodySize, seg)|
    ensures SegAt(SegBytes(bodySize, seg)[..k]) == Err(PrematureEof)
  {
    var body := PcsPrefixBytes(bodySize, seg.body.pcs) + CompObjsBytes(seg.body.pcs.compObjs);
    assert SegBytes(bodySize, seg) == HeaderBytes(seg) + body;
    HeaderRoundTrip(seg, body);
    if k >= 11 {
      assert SegBytes(bodySize, seg)[..k][11..] == body[..k - 11];
      PcsTruncated(bodySize, seg.body.pcs, k - 11);
    } else {
      Split16(MAGIC);
    }
  }

  /** An error from the composition objects is a premature end of file or an
      unrecognized cropped flag. */
  lemma {:induction false} CompObjsErrors(s: seq<u8>, n: nat)
    requires CompObjsAt(s, n).Err?
    ensures CompObjsAt(s, n).error == PrematureEof || CompObjsAt(s, n).error == UnrecognizedCroppedFlag
    decreases n
  {
    if CompObjAt(s).Ok? {
      CompObjsErrors(CompObjAt(s).value.rest, n - 1);
    }
  }

  /** A cropped flag byte of the first object other than 0x00 and 0x40 is
      reported as such, and the error needs a segment that passes every
      earlier check and announces at least one object. */
  lemma CroppedFlagError(s: seq<u8>)
    ensures |s| >= 28 && Be16(s[0], s[1]) == MAGIC && s[10] == KIND_PCS && s[17] == FRAME_RATE &&
            CompStateOf(s[20]).Some? && PalUpdateOf(s[21]).Some? && s[23] >= 1 && CroppedOf(s[27]).None?
            ==> SegAt(s) == Err(UnrecognizedCroppedFlag)
    ensures SegAt(s) == Err(UnrecognizedCroppedFlag) ==>
              |s| >= 28 && Be16(s[0], s[1]) == MAGIC && s[10] == KIND_PCS && s[17] == FRAME_RATE &&
              CompStateOf(s[20]).Some? && PalUpdateOf(s[21]).Some? && s[23] >= 1
  {
    if |s| >= 24 && Be16(s[0], s[1]) == MAGIC && s[10] == KIND_PCS && s[17] == FRAME_RATE &&
       CompStateOf(s[20]).Some? && PalUpdateOf(s[21]).Some? {
      assert s[11..][13..] == s[24..];
    }
  }

  /** Each error of the header and the body's fixed fields is reported
      exactly when the checks before it pass and its own check fails. */
  lemma Errors(s: seq<u8>)
    ensures SegAt(s) == Err(UnrecognizedMagicNumber) <==> |s| >= 2 && Be16(s[0], s[1]) != MAGIC
    ensures SegAt(s) == Err(UnrecognizedKind) <==>
              |s| >= 11 && Be16(s[0], s[1]) == MAGIC && s[10] != KIND_PCS
    ensures SegAt(s) == Err(UnrecognizedFrameRate) <==>
              |s| >= 18 && Be16(s[0], s[1]) == MAGIC && s[10] == KIND_PCS && s[17] != FRAME_RATE
    ensures SegAt(s) == Err(UnrecognizedCompositionState) <==>
              |s| >= 21 && Be16(s[0], s[1]) == MAGIC && s[10] == KIND_PCS && s[17] == FRAME_RATE &&
              CompStateOf(s[20]).None?
    ensures SegAt(s) == Err(UnrecognizedPaletteUpdateFlag) <==>
              |s| >= 22 && Be16(s[0], s[1]) == MAGIC && s[10] == KIND_PCS && s[17] == FRAME_RATE &&
              CompStateOf(s[20]).Some? && PalUpdateOf(s[21]).None?
  {
    if |s| >= 24 && Be16(s[0], s[1]) == MAGIC && s[10] == KIND_PCS && s[17] == FRAME_RATE &&
       CompStateOf(s[20]).Some? && PalUpdateOf(s[21]).Some? && CompObjsAt(s[24..], s[23]).Err? {
      assert s[11..][13..] == s[24..];
      CompObjsErrors(s[24..], s[23]);
    }
  }
}
