/** The rasteriser of main/core/osd.c, drawing in place. */
module Osd {
  import opened Basics
  import opened DirtyRows
  import opened OsdPaint

  ghost predicate Fits(buf: array<byte>, f: Frame) {
    f.Valid() && buf.Length >= f.Bytes()
  }

  /** Only byte `o` of row `y` changed, to `v`. */
  ghost predicate Wrote(before: seq<byte>, after: seq<byte>, f: Frame, y: int, o: int, v: byte)
    requires 0 <= y < f.height && 0 <= o < f.Stride()
  {
    && |before| == |after| >= f.Bytes()
    && (forall y', o' | 0 <= y' < f.height && 0 <= o' < f.Stride() ::
          after[At(f, y', o')] == if y' == y && o' == o then v else before[At(f, y', o')])
    && (forall i :: f.Bytes() <= i < |after| ==> after[i] == before[i])
  }

  lemma UpdateWrites(b: seq<byte>, f: Frame, y: int, o: int, v: byte)
    requires |b| >= f.Bytes() && 0 <= y < f.height && 0 <= o < f.Stride()
    ensures Wrote(b, b[At(f, y, o) := v], f, y, o, v)
  {
    forall y', o' | 0 <= y' < f.height && 0 <= o' < f.Stride() && At(f, y', o') == At(f, y, o)
      ensures y' == y && o' == o
    {
      AtInjective(f, y', o', y, o);
    }
  }

  method SetByte(buf: array<byte>, f: Frame, y: int, o: int, v: byte)
    requires Fits(buf, f) && 0 <= y < f.height && 0 <= o < f.Stride()
    modifies buf
    ensures Wrote(old(buf[..]), buf[..], f, y, o, v)
  {
    UpdateWrites(buf[..], f, y, o, v);
    buf[At(f, y, o)] := v;
    assert buf[..] == old(buf[..])[At(f, y, o) := v];
  }

  predicate Odd(x: int) {
    x % 2 == 1
  }

  /** An odd pixel: the second luma of its group, and the chroma. */
  method PlotSecond(buf: array<byte>, f: Frame, y: int, x: int)
    requires Fits(buf, f) && 0 <= y < f.height && 0 <= x < f.width && Odd(x)
    modifies buf
    ensures Painted(old(buf[..]), buf[..], f, Rect(x, x, y, y))
  {
    hide At, RowStart;
    var g := x / 2;
    SetByte(buf, f, y, 3 * g, Chroma(y));
    SetByte(buf, f, y, 3 * g + 2, OSD_Y);
  }

  /** An even pixel: the first luma of its group, and the chroma. */
  method PlotFirst(buf: array<byte>, f: Frame, y: int, x: int)
    requires Fits(buf, f) && 0 <= y < f.height && 0 <= x < f.width && !Odd(x)
    modifies buf
    ensures Painted(old(buf[..]), buf[..], f, Rect(x, x, y, y))
  {
    hide At, RowStart;
    var g := x / 2;
    SetByte(buf, f, y, 3 * g, Chroma(y));
    SetByte(buf, f, y, 3 * g + 1, OSD_Y);
  }

  /** A whole group: an even pixel and the next with three stores. */
  method PlotGroup(buf: array<byte>, f: Frame, y: int, x: int)
    requires Fits(buf, f) && 0 <= y < f.height && 0 <= x && x + 1 < f.width && !Odd(x)
    modifies buf
    ensures Painted(old(buf[..]), buf[..], f, Rect(x, x + 1, y, y))
  {
    hide At, RowStart;
    var g := x / 2;
    SetByte(buf, f, y, 3 * g, Chroma(y));
    SetByte(buf, f, y, 3 * g + 1, OSD_Y);
    SetByte(buf, f, y, 3 * g + 2, OSD_Y);
  }

  /** The whole groups of a run, from an even pixel on. */
  method DrawGroups(buf: array<byte>, f: Frame, y: int, from: int, x2: int) returns (x: int)
    requires Fits(buf, f) && 0 <= y < f.height && 0 <= from <= x2 + 1 <= f.width && !Odd(from)
    modifies buf
    ensures from <= x && x2 <= x <= x2 + 1 && !Odd(x)
    ensures Painted(old(buf[..]), buf[..], f, Rect(from, x - 1, y, y))
  {
    ghost var before := buf[..];
    PaintedNoPixels(before, f, from, y);
    hide *;
    x := from;
    while x + 1 <= x2
      invariant from <= x <= x2 + 1 && !Odd(x)
      invariant Painted(before, buf[..], f, Rect(from, x - 1, y, y))
    {
      ghost var b := buf[..];
      PlotGroup(buf, f, y, x);
      ExtendRun(before, b, buf[..], f, y, from, x, x + 1);
      Parity(x);
      Parity(x + 1);
      x := x + 2;
    }
  }

  /** The odd leading pixel of a run, if there is one. */
  method DrawLead(buf: array<byte>, f: Frame, y: int, x1: int) returns (x: int)
    requires Fits(buf, f) && 0 <= y < f.height && 0 <= x1 < f.width
    modifies buf
    ensures x1 <= x <= x1 + 1 && !Odd(x)
    ensures Painted(old(buf[..]), buf[..], f, Rect(x1, x - 1, y, y))
  {
    x := x1;
    if Odd(x1) {
      PlotSecond(buf, f, y, x1);
      x := x1 + 1;
    } else {
      PaintedNoPixels(buf[..], f, x1, y);
    }
  }

  /** The even trailing pixel, if the groups left one. */
  method DrawTail(buf: array<byte>, f: Frame, y: int, x: int, x2: int)
    requires Fits(buf, f) && 0 <= y < f.height && 0 <= x && x2 <= x <= x2 + 1 <= f.width && !Odd(x)
    modifies buf
    ensures Painted(old(buf[..]), buf[..], f, Rect(x, x2, y, y))
  {
    if x == x2 {
      PlotFirst(buf, f, y, x);
    } else {
      PaintedNoPixels(buf[..], f, x, y);
    }
  }

  /** `draw_hrun`: an odd leading pixel, whole groups, an even trailing pixel. */
  method DrawHRun(buf: array<byte>, f: Frame, y: int, x1: int, x2: int)
    requires Fits(buf, f) && 0 <= y < f.height && 0 <= x1 <= x2 < f.width
    modifies buf
    ensures Painted(old(buf[..]), buf[..], f, Rect(x1, x2, y, y))
  {
    hide *;
    ghost var b0 := buf[..];
    var x := DrawLead(buf, f, y, x1);
    ghost var b1 := buf[..];
    var end := DrawGroups(buf, f, y, x, x2);
    ghost var b2 := buf[..];
    ExtendRun(b0, b1, b2, f, y, x1, x, end - 1);
    DrawTail(buf, f, y, end, x2);
    ExtendRun(b0, b2, buf[..], f, y, x1, end, x2);
  }

  lemma Parity(x: int)
    ensures Odd(x + 1) <==> !Odd(x)
  {
  }

  lemma PaintedNoPixels(b: seq<byte>, f: Frame, x: int, y: int)
    requires |b| >= f.Bytes()
    ensures Painted(b, b, f, Rect(x, x - 1, y, y))
  {
  }

  lemma ExtendRun(b0: seq<byte>, b1: seq<byte>, b2: seq<byte>, f: Frame, y: int, x1: int, x: int, x2: int)
    requires x1 <= x <= x2 + 1
    requires Painted(b0, b1, f, Rect(x1, x - 1, y, y)) && Painted(b1, b2, f, Rect(x, x2, y, y))
    ensures Painted(b0, b2, f, Rect(x1, x2, y, y))
  {
    PaintedThen(b0, b1, b2, f, Rect(x1, x - 1, y, y), Rect(x, x2, y, y));
    assert Rect(x1, x2, y, y) == Rect(x1, x - 1, y, y) + Rect(x, x2, y, y);
  }

  lemma ExtendDown(b0: seq<byte>, b1: seq<byte>, b2: seq<byte>, f: Frame, x: int, y1: int, y: int)
    requires y1 <= y
    requires Painted(b0, b1, f, Rect(x, x, y1, y - 1)) && Painted(b1, b2, f, Rect(x, x, y, y))
    ensures Painted(b0, b2, f, Rect(x, x, y1, y))
  {
    PaintedThen(b0, b1, b2, f, Rect(x, x, y1, y - 1), Rect(x, x, y, y));
    assert Rect(x, x, y1, y) == Rect(x, x, y1, y - 1) + Rect(x, x, y, y);
  }

  /** `draw_vrun`: one luma and one chroma byte per row, at a fixed offset. */
  method DrawVRun(buf: array<byte>, f: Frame, x: int, y1: int, y2: int)
    requires Fits(buf, f) && 0 <= x < f.width && 0 <= y1 <= y2 < f.height
    modifies buf
    ensures Painted(old(buf[..]), buf[..], f, Rect(x, x, y1, y2))
  {
    hide At, RowStart, Painted, Rect;
    ghost var before := buf[..];
    NoRows(before, f, x, y1);
    for y := y1 to y2 + 1
      invariant Painted(before, buf[..], f, Rect(x, x, y1, y - 1))
    {
      ghost var b := buf[..];
      PlotColumn(buf, f, x, y);
      ExtendDown(before, b, buf[..], f, x, y1, y);
    }
  }

  lemma NoRows(b: seq<byte>, f: Frame, x: int, y: int)
    requires |b| >= f.Bytes()
    ensures Painted(b, b, f, Rect(x, x, y, y - 1))
  {
  }

  /** One row of `draw_vrun`: luma first, then chroma. */
  method PlotColumn(buf: array<byte>, f: Frame, x: int, y: int)
    requires Fits(buf, f) && 0 <= x < f.width && 0 <= y < f.height
    modifies buf
    ensures Painted(old(buf[..]), buf[..], f, Rect(x, x, y, y))
  {
    hide At, RowStart;
    var luma := 1 + x % 2;
    SetByte(buf, f, y, 3 * (x / 2) + luma, OSD_Y);
    SetByte(buf, f, y, 3 * (x / 2), Chroma(y));
  }

  /** The horizontal runs of stroke `t`. */
  method DrawStrokeRows(buf: array<byte>, f: Frame, c: Box, arm: int, t: int)
    requires Fits(buf, f) && InFrame(f, c) && arm == Arm(c) && 0 <= t < Thick(c)
    modifies buf
    ensures Painted(old(buf[..]), buf[..], f, StrokeRows(c, t))
  {
    hide At, RowStart, Painted, Rect;
    ghost var b0 := buf[..];
    var top, bot := c.y1 + t, c.y2 - t;
    DrawHRun(buf, f, top, c.x1, c.x1 + arm);
    ghost var b1 := buf[..];
    DrawHRun(buf, f, top, c.x2 - arm, c.x2);
    PaintedThen(b0, b1, buf[..], f, Rect(c.x1, c.x1 + arm, top, top), Rect(c.x2 - arm, c.x2, top, top));
    ghost var b2 := buf[..];
    DrawHRun(buf, f, bot, c.x1, c.x1 + arm);
    ghost var b3 := buf[..];
    DrawHRun(buf, f, bot, c.x2 - arm, c.x2);
    PaintedThen(b2, b3, buf[..], f, Rect(c.x1, c.x1 + arm, bot, bot), Rect(c.x2 - arm, c.x2, bot, bot));
    PaintedThen(b0, b2, buf[..], f,
                Rect(c.x1, c.x1 + arm, top, top) + Rect(c.x2 - arm, c.x2, top, top),
                Rect(c.x1, c.x1 + arm, bot, bot) + Rect(c.x2 - arm, c.x2, bot, bot));
  }

  /** The vertical runs of stroke `t`. */
  method DrawStrokeColumns(buf: array<byte>, f: Frame, c: Box, arm: int, t: int)
    requires Fits(buf, f) && InFrame(f, c) && arm == Arm(c) && 0 <= t < Thick(c)
    modifies buf
    ensures Painted(old(buf[..]), buf[..], f, StrokeColumns(c, t))
  {
    hide At, RowStart, Painted, Rect;
    ghost var b0 := buf[..];
    var lft, rgt := c.x1 + t, c.x2 - t;
    DrawVRun(buf, f, lft, c.y1, c.y1 + arm);
    ghost var b1 := buf[..];
    DrawVRun(buf, f, lft, c.y2 - arm, c.y2);
    PaintedThen(b0, b1, buf[..], f, Rect(lft, lft, c.y1, c.y1 + arm), Rect(lft, lft, c.y2 - arm, c.y2));
    ghost var b2 := buf[..];
    DrawVRun(buf, f, rgt, c.y1, c.y1 + arm);
    ghost var b3 := buf[..];
    DrawVRun(buf, f, rgt, c.y2 - arm, c.y2);
    PaintedThen(b2, b3, buf[..], f, Rect(rgt, rgt, c.y1, c.y1 + arm), Rect(rgt, rgt, c.y2 - arm, c.y2));
    PaintedThen(b0, b2, buf[..], f,
                Rect(lft, lft, c.y1, c.y1 + arm) + Rect(lft, lft, c.y2 - arm, c.y2),
                Rect(rgt, rgt, c.y1, c.y1 + arm) + Rect(rgt, rgt, c.y2 - arm, c.y2));
  }

  ghost predicate InFrame(f: Frame, c: Box) {
    0 <= c.x1 <= c.x2 < f.width && 0 <= c.y1 <= c.y2 < f.height
  }

  ghost function StrokeRows(c: Box, t: int): Pixels {
    Rect(c.x1, c.x1 + Arm(c), c.y1 + t, c.y1 + t) + Rect(c.x2 - Arm(c), c.x2, c.y1 + t, c.y1 + t)
    + (Rect(c.x1, c.x1 + Arm(c), c.y2 - t, c.y2 - t) + Rect(c.x2 - Arm(c), c.x2, c.y2 - t, c.y2 - t))
  }

  ghost function StrokeColumns(c: Box, t: int): Pixels {
    Rect(c.x1 + t, c.x1 + t, c.y1, c.y1 + Arm(c)) + Rect(c.x1 + t, c.x1 + t, c.y2 - Arm(c), c.y2)
    + (Rect(c.x2 - t, c.x2 - t, c.y1, c.y1 + Arm(c)) + Rect(c.x2 - t, c.x2 - t, c.y2 - Arm(c), c.y2))
  }

  /** The eight runs of one stroke widen the marks by exactly one pixel of thickness. */
  lemma StrokeWidens(f: Frame, c: Box, t: int)
    requires InFrame(f, c) && 0 <= t < Thick(c)
    ensures Strokes(c, t) + (StrokeRows(c, t) + StrokeColumns(c, t)) == Strokes(c, t + 1)
  {
    forall p: (int, int)
      ensures p in Strokes(c, t) || p in StrokeRows(c, t) || p in StrokeColumns(c, t) <==> p in Strokes(c, t + 1)
    {
    }
  }

  /** The stroke loop of `draw_corners`. */
  method DrawStrokes(buf: array<byte>, f: Frame, c: Box, arm: int, thick: int)
    requires Fits(buf, f) && InFrame(f, c) && arm == Arm(c) && thick == Thick(c) >= 1
    modifies buf
    ensures Painted(old(buf[..]), buf[..], f, Strokes(c, thick))
  {
    hide At, RowStart, Painted, Rect;
    ghost var before := buf[..];
    assert Strokes(c, 0) == iset{};
    PaintedNothing(before, f);
    for t := 0 to thick
      invariant Painted(before, buf[..], f, Strokes(c, t))
    {
      ghost var b := buf[..];
      DrawStrokeRows(buf, f, c, arm, t);
      ghost var b' := buf[..];
      DrawStrokeColumns(buf, f, c, arm, t);
      PaintedThen(b, b', buf[..], f, StrokeRows(c, t), StrokeColumns(c, t));
      PaintedThen(before, b, buf[..], f, Strokes(c, t), StrokeRows(c, t) + StrokeColumns(c, t));
      StrokeWidens(f, c, t);
    }
  }

  /** What drawing box `b` (already scaled) does to the dirty list. */
  ghost predicate BoxDirties(rs: seq<Rows>, rs': seq<Rows>, c: Box) {
    && |rs'| <= |rs| + 2
    && (forall y :: Covered(rs, y) || InBands(c, y) ==> Covered(rs', y))
    && (Apart(rs) && |rs| + 2 <= OSD_MAX_DIRTY_RANGES ==>
          && Apart(rs')
          && (forall y :: Covered(rs', y) <==> Covered(rs, y) || InBands(c, y))
          && TotalRows(rs') <= TotalRows(rs) + 2 * (OSD_CORNER_LEN + 1))
  }

  lemma TwoBands(rs0: seq<Rows>, rs1: seq<Rows>, rs2: seq<Rows>, c: Box)
    requires !Empty(c) && Arm(c) >= 1
    requires AddSpec(rs0, c.y1, c.y1 + Arm(c), rs1) && AddSpec(rs1, c.y2 - Arm(c), c.y2, rs2)
    ensures BoxDirties(rs0, rs2, c)
  {
  }

  /** Corner order and clipping, the first steps of `draw_corners`. */
  method ClipToFrame(f: Frame, b: Box) returns (c: Box)
    ensures c == Clip(f, b)
    ensures !Empty(c) ==> InFrame(f, c)
  {
    var x1, y1, x2, y2 := b.x1, b.y1, b.x2, b.y2;
    if x1 > x2 { x1, x2 := x2, x1; }
    if y1 > y2 { y1, y2 := y2, y1; }
    c := Box(if x1 < 0 then 0 else x1, if y1 < 0 then 0 else y1,
             if x2 > f.width - 1 then f.width - 1 else x2, if y2 > f.height - 1 then f.height - 1 else y2);
  }

  /** Arm length and stroke thickness, clamped by the box. */
  method MarkSize(c: Box) returns (arm: int, thick: int)
    requires !Empty(c)
    ensures arm == Arm(c) && thick == Thick(c)
  {
    arm := OSD_CORNER_LEN;
    if arm > (c.x2 - c.x1) / 2 { arm := (c.x2 - c.x1) / 2; }
    if arm > (c.y2 - c.y1) / 2 { arm := (c.y2 - c.y1) / 2; }
    thick := OSD_THICKNESS;
    if thick > arm { thick := arm; }
  }

  /** `draw_corners`. */
  method DrawCorners(buf: array<byte>, f: Frame, b: Box, dirty: OsdDirty)
    requires Fits(buf, f) && dirty.Valid()
    modifies buf, dirty, dirty.range
    ensures Painted(old(buf[..]), buf[..], f, BoxPixels(f, b))
    ensures dirty.Valid() && BoxDirties(old(dirty.List()), dirty.List(), Clip(f, b))
  {
    hide Painted, AddSpec, BoxDirties;
    var c := ClipToFrame(f, b);
    ghost var rs0 := dirty.List();
    NothingDrawn(buf[..], f, b, rs0);
    if c.x1 > c.x2 || c.y1 > c.y2 {
      return;
    }
    var arm, thick := MarkSize(c);
    if arm < 1 || thick < 1 {
      return;
    }
    DrawStrokes(buf, f, c, arm, thick);
    dirty.Add(c.y1, c.y1 + arm);
    ghost var rs1 := dirty.List();
    dirty.Add(c.y2 - arm, c.y2);
    TwoBands(rs0, rs1, dirty.List(), c);
  }

  /** A box that is clipped away or too small for marks has no pixels and dirties no rows. */
  lemma NothingDrawn(bytes: seq<byte>, f: Frame, b: Box, rs: seq<Rows>)
    requires |bytes| >= f.Bytes()
    ensures var c := Clip(f, b);
      Empty(c) || Arm(c) < 1 ==> Painted(bytes, bytes, f, BoxPixels(f, b)) && BoxDirties(rs, rs, c)
  {
    if Empty(Clip(f, b)) || Arm(Clip(f, b)) < 1 {
      assert BoxPixels(f, b) == iset{};
    }
  }

  /** What a whole draw call leaves in the dirty list: never more than two ranges a box, every
    * written row, and - up to DET_MAX_BOX boxes - no other row. */
  ghost predicate DirtyOf(rs: seq<Rows>, f: Frame, boxes: seq<Box>, sx: int, sy: int) {
    && |rs| <= 2 * |boxes|
    && (forall y :: HasRow(Marks(f, boxes, sx, sy), y) ==> Covered(rs, y))
    && (|boxes| <= DET_MAX_BOX ==>
          && Apart(rs)
          && (forall y :: Covered(rs, y) <==> HasRow(Marks(f, boxes, sx, sy), y))
          && TotalRows(rs) <= 2 * (OSD_CORNER_LEN + 1) * |boxes|)
  }

  lemma DirtyNext(rs: seq<Rows>, rs': seq<Rows>, f: Frame, boxes: seq<Box>, sx: int, sy: int, i: nat)
    requires i < |boxes| && DirtyOf(rs, f, boxes[..i], sx, sy)
    requires BoxDirties(rs, rs', Clip(f, Scale(boxes[i], sx, sy)))
    ensures DirtyOf(rs', f, boxes[..i + 1], sx, sy)
  {
    var b := Scale(boxes[i], sx, sy);
    forall y
      ensures HasRow(Marks(f, boxes[..i + 1], sx, sy), y)
         <==> HasRow(Marks(f, boxes[..i], sx, sy), y) || InBands(Clip(f, b), y)
    {
      MarksPrefix(f, boxes, sx, sy, i);
      RowsOfUnion(Marks(f, boxes[..i], sx, sy), BoxPixels(f, b), y);
      BoxRows(f, b, y);
    }
    hide Marks, HasRow, InBands, Clip, Scale;
  }

  /** `osd_draw_boxes_yuv420`: for any box list, exactly the mark pixels are painted, and the dirty
    * list says where. */
  method DrawBoxes(buf: array<byte>, f: Frame, boxes: seq<Box>, sx: int, sy: int, dirty: OsdDirty)
    requires Fits(buf, f) && dirty.Valid()
    modifies buf, dirty, dirty.range
    ensures Painted(old(buf[..]), buf[..], f, Marks(f, boxes, sx, sy))
    ensures dirty.Valid() && DirtyOf(dirty.List(), f, boxes, sx, sy)
  {
    hide Painted, DirtyOf, BoxDirties, Marks, BoxPixels, Clip;
    dirty.Reset();
    ghost var before := buf[..];
    NoBoxes(before, f, sx, sy);
    assert boxes[..0] == [];
    for i := 0 to |boxes|
      invariant dirty.Valid()
      invariant Painted(before, buf[..], f, Marks(f, boxes[..i], sx, sy))
      invariant DirtyOf(dirty.List(), f, boxes[..i], sx, sy)
    {
      ghost var b, rs := buf[..], dirty.List();
      DrawCorners(buf, f, Scale(boxes[i], sx, sy), dirty);
      PaintedThen(before, b, buf[..], f, Marks(f, boxes[..i], sx, sy), BoxPixels(f, Scale(boxes[i], sx, sy)));
      MarksPrefix(f, boxes, sx, sy, i);
      DirtyNext(rs, dirty.List(), f, boxes, sx, sy, i);
    }
    assert boxes[..|boxes|] == boxes;
  }

  lemma NoBoxes(bytes: seq<byte>, f: Frame, sx: int, sy: int)
    requires |bytes| >= f.Bytes()
    ensures Painted(bytes, bytes, f, Marks(f, [], sx, sy)) && DirtyOf([], f, [], sx, sy)
  {
    assert Marks(f, [], sx, sy) == iset{};
    assert forall y :: !HasRow(Marks(f, [], sx, sy), y);
    assert forall y :: !Covered([], y);
  }

  // ----- the naive reference: one pixel at a time -----

  /** Plot one pixel: its luma byte and the chroma byte of its group. */
  ghost function PlotPixel(b: seq<byte>, f: Frame, x: int, y: int): (r: seq<byte>)
    requires f.Valid() && |b| >= f.Bytes() && 0 <= x < f.width && 0 <= y < f.height
    ensures |r| == |b|
  {
    b[At(f, y, 3 * (x / 2)) := Chroma(y)][At(f, y, 3 * (x / 2) + 1 + x % 2) := OSD_Y]
  }

  ghost function PlotRun(b: seq<byte>, f: Frame, y: int, x1: int, x2: int): (r: seq<byte>)
    requires f.Valid() && |b| >= f.Bytes() && 0 <= x1 && x2 < f.width && 0 <= y < f.height
    ensures |r| == |b|
    decreases x2 - x1
  {
    if x1 > x2 then b else PlotPixel(PlotRun(b, f, y, x1, x2 - 1), f, x2, y)
  }

  lemma {:induction false} PlotRunPaints(b: seq<byte>, f: Frame, y: int, x1: int, x2: int)
    requires f.Valid() && |b| >= f.Bytes() && 0 <= x1 <= x2 + 1 && x2 < f.width && 0 <= y < f.height
    ensures Painted(b, PlotRun(b, f, y, x1, x2), f, Rect(x1, x2, y, y))
    decreases x2 - x1
  {
    if x1 > x2 {
      PaintedNoPixels(b, f, x1, y);
    } else {
      PlotRunPaints(b, f, y, x1, x2 - 1);
      PlotPixelPaints(PlotRun(b, f, y, x1, x2 - 1), f, x2, y);
      ExtendRun(b, PlotRun(b, f, y, x1, x2 - 1), PlotRun(b, f, y, x1, x2), f, y, x1, x2, x2);
    }
  }

  lemma PlotPixelPaints(b: seq<byte>, f: Frame, x: int, y: int)
    requires f.Valid() && |b| >= f.Bytes() && 0 <= x < f.width && 0 <= y < f.height
    ensures Painted(b, PlotPixel(b, f, x, y), f, Rect(x, x, y, y))
  {
    var b' := b[At(f, y, 3 * (x / 2)) := Chroma(y)];
    UpdateWrites(b, f, y, 3 * (x / 2), Chroma(y));
    UpdateWrites(b', f, y, 3 * (x / 2) + 1 + x % 2, OSD_Y);
    hide At, RowStart;
  }

  /** Writing whole groups is the same as plotting the run pixel by pixel. */
  lemma GroupsEqualPixels(before: seq<byte>, after: seq<byte>, f: Frame, y: int, x1: int, x2: int)
    requires f.Valid() && 0 <= x1 <= x2 < f.width && 0 <= y < f.height
    requires Painted(before, after, f, Rect(x1, x2, y, y))
    ensures after == PlotRun(before, f, y, x1, x2)
  {
    PlotRunPaints(before, f, y, x1, x2);
    PaintedUnique(before, after, PlotRun(before, f, y, x1, x2), f, Rect(x1, x2, y, y));
  }
}
