# subscale: PGS subtitle cropping, modelled in Dafny

This project models the core of subscale, a set of tools that rewrite Blu-ray
Presentation Graphics Stream (PGS) subtitles so that they match a video whose
frame has been cropped. There are three parts, one module and file each, plus a
shared base module.

- `PgsMod` (`pgsmod.dfy`) models the display-set remapper of
  `pgsmod/src/main.rs`.
  - `cropped_offset` moves a position along one axis. It centres the item in
    the cropped frame, clamps it into the band that keeps `margin` to both
    borders, and puts an item that cannot fit at 0.
  - The conversion loop notes each new resolution. It sets the screen size to
    the crop size. It moves every composition object using the bounding size of
    all definitions of its object, and every window using its own size.
  - It then stops with a fatal error when one window's top-left corner lies in
    another window's closed rectangle.
  - `DisplaySet` is a class whose fields the remapper updates in place, and
    `Converter` holds the crop, the margin and the resolutions seen.
- `Seg` (`seg.dfy`) models the presentation-composition segment reader of
  `src/seg.rs`.
  - `Input` is a byte stream with a read position.
  - `ReadSeg`, `ParsePcs` and the object loop are proved equal to the byte
    layout functions `SegAt`, `PcsAt` and `CompObjsAt`.
  - Those functions are in turn related to an encoder `SegBytes` of the same
    layout by round-trip, exactness, consumed-length, truncation and
    error-condition lemmas.
- `Legacy` (`legacy.dfy`) models the older per-segment remapper of
  `src/main.rs`.
  - Its `cropped_offset` only shifts, with no margin and no clamp.
  - A presentation composition segment records its frame size and is moved
    into the crop; a window definition segment is moved using the frame size
    recorded last.
- `Base` (`base.dfy`) holds the 8/16/32-bit unsigned ranges, `Option`, and the
  duplicate-free list of resolutions that both tools keep (`Note`, `NoteAll`).

The 16-bit arithmetic is modelled on unbounded integers. Each operation that
would overflow or underflow a `u16` in the source is excluded by a `requires`
clause (`OffsetDefined`, `CornersInRange`, `StepDefined`). The `unwrap` of the
maximum object size is excluded the same way (`Defines`). The window-collision
panic is an outcome (`WindowCollision`, `Collided`). Read failures are an exit
value that tells a clean end of file from a fatal error.

## Model

| member | source | states |
|---|---|---|
| PgsMod.CroppedOffset | pgsmod/src/main.rs:296-319 | An item that cannot fit with its margins gets 0. Otherwise the result lies in `[margin, crop - size - margin]`, and it is the shifted offset itself whenever that lies in the band. |
| PgsMod.ClampIsNearest | pgsmod/src/main.rs:311-318 | The clamped position is the point of the band nearest to the shifted offset. |
| PgsMod.NoCropFixedPoint | pgsmod/src/main.rs:309-318 | With no crop (full size equals the crop size), an in-band offset is left where it is, and no operation goes out of range. |
| PgsMod.NoCropClamps | pgsmod/src/main.rs:304-318 | With no crop, an offset of 10 with margin 30 still moves to 30, and a 1900-pixel item with margin 30 on a 1920-pixel axis still goes to 0. |
| PgsMod.Idempotent | pgsmod/src/main.rs:309-318 | Remapping a fitting result again, with no crop and the same margin, gives it back. |
| PgsMod.Monotone | pgsmod/src/main.rs:309-318 | Remapping keeps the order of positions along an axis. |
| PgsMod.WidthCropExample | pgsmod/src/main.rs:296-319 | A 100-pixel item at 960 on a 1920 axis cropped to 1280 with margin 30 lands at 640. |
| PgsMod.HeightClampExample | pgsmod/src/main.rs:296-319 | A 200-line item at 900 on a 1080 axis cropped to 800 with margin 30 is clamped to 570. |
| PgsMod.MaxSizeUnique | pgsmod/src/main.rs:182-193 | At most one size holds both the largest width and the largest height of an object's definitions. |
| PgsMod.MaxAmongIsMax | pgsmod/src/main.rs:182-193 | The recursive maximum over a key set is attained by some definition in each dimension and bounds all definitions with that object id. |
| PgsMod.BoundingSizeIsMax | pgsmod/src/main.rs:182-193 | A size is the largest width and height of an object's definitions exactly when it is the bounding size. |
| PgsMod.ObjectSize | pgsmod/src/main.rs:182-193 | The loop finds a size exactly when some definition has the object id; the size it finds is the bounding size. |
| PgsMod.CoversAnother | pgsmod/src/main.rs:229-242 | The inner loop answers true exactly when some other window's top-left corner lies in window `i`'s closed rectangle. |
| PgsMod.FindCollision | pgsmod/src/main.rs:228-244 | The nested loops answer true exactly when some ordered pair of distinct windows collides. |
| PgsMod.RemapSnapshot | pgsmod/src/main.rs:162-226 | Remapping keeps the set of composition ids and the set of window ids. |
| PgsMod.RemapPlaces | pgsmod/src/main.rs:177-226 | After remapping, the screen size is the crop size. Timestamp, palettes, object definitions, window sizes and composition crops are unchanged. Every window and composition object is in the band or at 0, and the collision check cannot overflow. |
| PgsMod.RemapIdempotent | pgsmod/src/main.rs:177-226 | Remapping a remapped display set to the same crop is defined and changes nothing. |
| PgsMod.RemapCompositionObject | pgsmod/src/main.rs:180-208 | One pass of the composition loop moves the object along both axes by the bounding size of its object's definitions. |
| PgsMod.DisplaySet.Remap | pgsmod/src/main.rs:177-226 | The display set, updated in place, becomes the remapped display set. |
| PgsMod.DisplaySet.RemapCompositionObjects | pgsmod/src/main.rs:180-209 | The composition-object loop replaces every composition object by its remapped version and touches nothing else. |
| PgsMod.DisplaySet.RemapWindows | pgsmod/src/main.rs:211-226 | The window loop replaces every window by its remapped version and touches nothing else. |
| PgsMod.NoteNext | pgsmod/src/main.rs:169-175 | Noting the resolutions of one more display set is one more `Note` step. |
| PgsMod.Converter.Convert | pgsmod/src/main.rs:160-244 | One loop pass notes the original resolution, returns the remapped display set, and reports a collision exactly when the remapped windows collide. |
| PgsMod.Converter.Run | pgsmod/src/main.rs:157-293 | The loop writes the remapped display sets in order, all free of collisions. It stops at the first collision, with that display set's timestamp; otherwise it stops at the read error, cleanly only for an unexpected end of file. The resolutions seen are those of every display set read. Only the display sets the loop reaches, up to and including the first collision, must be remappable. |
| Base.Note | pgsmod/src/main.rs:169-175 | A resolution is appended exactly when it is not yet in the list. It is in the list afterwards, and the list stays free of duplicates. |
| Base.NoteAllContents | pgsmod/src/main.rs:155-175 | After noting a run of resolutions, the list holds exactly the earlier entries and the new ones, without duplicates. |
| Seg.ByteMappings | src/seg.rs:109-132 | The composition-state, palette-update and cropped-flag bytes accept exactly 0x00/0x40/0x80, 0x00/0x80 and 0x00/0x40, and decode to the values whose encoding they are. |
| Seg.Input.ReadSeg | src/seg.rs:77-95 | Reading a segment gives exactly the layout function's result, and on success leaves the position just after the segment. |
| Seg.ParsePcs | src/seg.rs:98-182 | Reading a composition body gives exactly the layout function's result, including every error, and on success leaves the position after the body. |
| Seg.ReadCompObjs | src/seg.rs:121-169 | The object loop reads exactly `count` objects in input order, or stops with the first object's error. |
| Seg.ReadNextCompObj | src/seg.rs:124-168 | One pass of the object loop extends the objects read by the next object, or fails with that object's error. |
| Seg.ReadCompObj | src/seg.rs:126-168 | Reading one composition object gives exactly the layout function's result, with crop fields only when the flag is 0x40. |
| Seg.CompObjsSnoc | src/seg.rs:124-169 | Reading n + 1 objects is reading n objects and then one more. |
| Seg.CompObjsErrorStays | src/seg.rs:124-169 | Once the object loop fails, reading more objects ends with the same error. |
| Seg.CompObjsBytesLength | src/seg.rs:124-168 | The objects' bytes take 8 per uncropped and 16 per cropped object. |
| Seg.SegBytesLength | src/seg.rs:77-168 | A segment's bytes take 24 fixed bytes plus the objects' bytes. |
| Seg.CompObjRoundTrip | src/seg.rs:126-168 | One object is read back from its bytes, leaving what follows. |
| Seg.CompObjsRoundTrip | src/seg.rs:121-169 | A list of objects is read back from its bytes, leaving what follows. |
| Seg.PcsPrefixRoundTrip | src/seg.rs:100-121 | The fixed body fields pass the reader's checks and decode to the values encoded. |
| Seg.PcsRoundTrip | src/seg.rs:98-182 | A composition body is read back from its bytes, leaving what follows. |
| Seg.HeaderRoundTrip | src/seg.rs:79-92 | The header passes the magic and kind checks and decodes to the timestamps encoded. |
| Seg.RoundTrip | src/seg.rs:77-182 | A well-formed segment is read back from its bytes, whatever the body-size field holds, and the input after it is left over. |
| Seg.CompObjExact | src/seg.rs:126-168 | An object that is read has consistent crop fields, and its bytes are exactly the bytes consumed. |
| Seg.CompObjsExact | src/seg.rs:121-169 | A list that is read has exactly `n` objects with consistent crop fields, and its bytes are exactly the bytes consumed. |
| Seg.PcsPrefixExact | src/seg.rs:100-121 | Fixed body fields that pass the checks are the encoding of the values they carry. |
| Seg.PcsExact | src/seg.rs:98-182 | A body that is read has as many objects as its count byte, and its layout with the body size it carries is exactly the bytes consumed. |
| Seg.HeaderExact | src/seg.rs:79-92 | A header that passes the checks is the encoding of its timestamps. |
| Seg.Exact | src/seg.rs:77-182 | A segment that is read is well formed, and its layout is exactly the bytes consumed. |
| Seg.ConsumedBytes | src/seg.rs:77-182 | A segment that is read consumes 24 bytes plus 8 per uncropped and 16 per cropped object; the body-size field is not looked at. |
| Seg.OnlyConsumedBytesMatter | src/seg.rs:77-182 | Changing the input after the consumed bytes does not change the segment read. |
| Seg.CompObjTruncated | src/seg.rs:126-154 | Input that stops inside an object gives a premature end of file. |
| Seg.CompObjsTruncated | src/seg.rs:124-169 | Input that stops inside a list of objects gives a premature end of file. |
| Seg.PcsPrefixTruncated | src/seg.rs:100-121 | Input that stops inside the fixed body fields gives a premature end of file. |
| Seg.PcsTruncated | src/seg.rs:98-169 | Input that stops inside a composition body gives a premature end of file. |
| Seg.Truncated | src/seg.rs:77-169 | Input that stops anywhere inside a well-formed segment gives a premature end of file, never a partial segment. |
| Seg.CompObjsErrors | src/seg.rs:124-145 | The object loop fails only with a premature end of file or an unrecognized cropped flag. |
| Seg.Errors | src/seg.rs:79-119 | Each of the magic, kind, frame-rate, composition-state and palette-flag errors is reported exactly when the checks before it pass and its own check fails. |
| Seg.CroppedFlagError | src/seg.rs:121-131 | A first object whose cropped flag byte is neither 0x00 nor 0x40 stops the read with the unrecognized-cropped-flag error, and that error needs a segment that passes every earlier check and announces at least one object. |
| Legacy.CroppedOffset | src/main.rs:160-162 | The offset goes back by half, rounded down, of what the crop removes from the axis. It never grows and is unchanged when there is no crop. |
| Legacy.AgreesWithPgsMod | src/main.rs:160-162 | Where pgsmod's shifted offset already lies in the band with no margin, both tools place the item at the same position. |
| Legacy.ShiftKeepsDistances | src/main.rs:160-162 | The shift keeps the distance between any two positions along an axis. |
| Legacy.StepKeeps | src/main.rs:122-150 | A step keeps timestamps, the kind of segment, the number of objects and windows, ids, window sizes, crop sizes and crop presence. A composition segment gets the crop as its frame size, and any other kind of segment is written unchanged. |
| Legacy.NoCropIdentity | src/main.rs:123-141 | A composition segment whose frame size is already the crop size is written unchanged. |
| Legacy.WinDefFirstUndefined | src/main.rs:103-147 | A window definition with a window, arriving before any composition segment (recorded size (0, 0)), cannot be moved into a crop of positive width. |
| Legacy.SizesAfterDistinct | src/main.rs:125-128 | The list of resolutions stays duplicate-free and afterwards holds exactly its old entries and the frame size of every composition segment. |
| Legacy.OutputsAt | src/main.rs:122-148 | Each segment is written moved by the size recorded before it, which is the frame size of the latest composition segment ahead of it, and that move is defined. |
| Legacy.Remapper.Step | src/main.rs:122-150 | One pass moves the segment as the step function says. A composition segment's frame size becomes the recorded size and is noted; other segments leave the state alone. |
| Legacy.Remapper.Run | src/main.rs:102-155 | The loop writes every delivered segment moved by the size recorded before it, ends with the recorded size and the resolutions of all composition segments, and ends cleanly only on an unexpected end of file. |
| Legacy.ShiftCompObjs | src/main.rs:131-141 | The object loop moves every object, and its crop when present, by the step's shift. |
| Legacy.ShiftWinDefs | src/main.rs:144-147 | The window loop moves every window by the shift for the recorded size. |

## Left out

- Colour grading (`src/rgb.rs` and the `lum-scale` loop at pgsmod/src/main.rs:246-265) is floating-point arithmetic and is not modelled. The palettes pass through unchanged, which is the tool's behaviour without `lum-scale`.
- Command-line parsing, including the default margin of 30, and the opening, buffering and flushing of streams are I/O glue. The crop size and margin are constructor parameters.
- `pgsmod/src/main.rs` imports its display-set reader and writer from a `pgs` crate outside this repository, and `src/main.rs` takes its segment reader, writer and segment types from its own `pgs` module (`src/main.rs:9`, `src/main.rs:12-16`). Neither `pgs` is part of this model. In `PgsMod.Converter.Run` and `Legacy.Remapper.Run` the reader becomes the sequence of values it delivers plus the error that ends it. The writer becomes the output sequence, so the writer's own failure (a panic) is not modelled.
- The display-set and segment types of both `pgs` libraries are modelled abstractly: only the fields the tools read or change are kept, and any other kind of segment is opaque payload.
- `Seg.SegBytes` is a reference encoding of the layout that `src/seg.rs` reads. It is not a model of any writer in the repository, and nothing is claimed about the writer of either `pgs` library.
- `src/seg.rs` is never declared as a module of the program (`src/main.rs` declares only `pgs` and `rgb`). It is modelled anyway, as the segment reader it is written to be.
- `Seg.Input.ReadSeg`: a read that runs past the end leaves the position at the end of the input. The source makes no promise about the position after a failed read, and the contract only speaks about it on success.
- `eprintln!` diagnostics (new resolution, the warning of an item that cannot fit) are left out. The panic messages' text is not modelled; a panic becomes an exit value or a violated precondition.
- The difference between debug builds (panic on `u16` overflow) and release builds (wrap-around) is not modelled. Every operation is required to stay in range.
- With no crop (full size equal to the crop size), the remap is sometimes described as the identity for every item. The code still clamps an offset that lies inside the margin, and it still puts an item too large for its margins at 0. The model follows the code: `PgsMod.NoCropFixedPoint` states the identity for in-band offsets only, and `PgsMod.NoCropClamps` shows both exceptions.
