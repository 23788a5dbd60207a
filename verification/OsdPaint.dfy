/** What drawing means on the packed O_UYY_E_VYY frame of main/core/osd.c: which byte a pixel
  * owns, which pixels a corner mark has, and what a painted buffer looks like byte by byte. */
module OsdPaint {
  import opened Basics

  const OSD_Y: byte := 76
  const OSD_U: byte := 84
  const OSD_V: byte := 255
  const OSD_THICKNESS := 4
  const OSD_CORNER_LEN := 48

  /** Frame geometry.  Rows hold groups [C Y Y], one per horizontal pixel pair. */
  datatype Frame = Frame(width: nat, height: nat) {
    ghost predicate Valid() {
      width % 2 == 0
    }

    function Stride(): nat {
      width + width / 2
    }

    function Bytes(): nat {
      RowStart(height, Stride())
    }
  }

  /** Offset of row `y`: y strides, added up (`RowStartValue`). */
  function RowStart(y: nat, stride: nat): nat {
    if y == 0 then 0 else RowStart(y - 1, stride) + stride
  }

  lemma {:induction false} RowStartValue(y: nat, stride: nat)
    ensures RowStart(y, stride) == y * stride
  {
    if y > 0 {
      RowStartValue(y - 1, stride);
      assert y * stride == (y - 1) * stride + stride;
    }
  }

  type Pixels = iset<(int, int)>

  /** Flat index of byte `o` of row `y`. */
  function At(f: Frame, y: int, o: int): (i: int)
    requires 0 <= y < f.height && 0 <= o < f.Stride()
    ensures 0 <= i < f.Bytes()
  {
    RowsApart(y, f.height, f.Stride());
    RowStart(y, f.Stride()) + o
  }

  lemma {:induction false} RowsApart(y: nat, y': nat, stride: nat)
    requires y < y'
    ensures RowStart(y, stride) + stride <= RowStart(y', stride)
    decreases y'
  {
    if y < y' - 1 {
      RowsApart(y, y' - 1, stride);
    }
  }

  lemma AtInjective(f: Frame, y: int, o: int, y': int, o': int)
    requires 0 <= y < f.height && 0 <= o < f.Stride() && 0 <= y' < f.height && 0 <= o' < f.Stride()
    requires At(f, y, o) == At(f, y', o')
    ensures y == y' && o == o'
  {
    if y < y' {
      RowsApart(y, y', f.Stride());
    } else if y' < y {
      RowsApart(y', y, f.Stride());
    }
  }

  /** Every byte of the frame is some byte of some row. */
  lemma AtSurjective(f: Frame, i: int) returns (y: int, o: int)
    requires 0 <= i < f.Bytes()
    ensures 0 <= y < f.height && 0 <= o < f.Stride() && At(f, y, o) == i
  {
    y := f.height - 1;
    while i < RowStart(y, f.Stride())
      invariant 0 <= y < f.height && i < RowStart(y + 1, f.Stride())
      decreases y
    {
      y := y - 1;
    }
    o := i - RowStart(y, f.Stride());
  }

  /** The chroma byte of a row is U on even rows and V on odd ones. */
  function Chroma(y: int): byte {
    if y % 2 == 1 then OSD_V else OSD_U
  }

  /** The value byte `o` of row `y` must have once the pixels in `marked` are painted: luma bytes
    * belong to one pixel, the leading chroma byte of a group to both. */
  ghost function Want(marked: Pixels, before: byte, y: int, o: int): byte {
    var x := 2 * (o / 3);
    if o % 3 == 0 then
      if (x, y) in marked || (x + 1, y) in marked then Chroma(y) else before
    else
      if (x + o % 3 - 1, y) in marked then OSD_Y else before
  }

  /** `after` is `before` with exactly the pixels in `marked` painted. */
  ghost predicate Painted(before: seq<byte>, after: seq<byte>, f: Frame, marked: Pixels) {
    && |before| == |after| >= f.Bytes()
    && (forall y, o | 0 <= y < f.height && 0 <= o < f.Stride() ::
          after[At(f, y, o)] == Want(marked, before[At(f, y, o)], y, o))
    && (forall i :: f.Bytes() <= i < |after| ==> after[i] == before[i])
  }

  lemma PaintedNothing(b: seq<byte>, f: Frame)
    requires |b| >= f.Bytes()
    ensures Painted(b, b, f, iset{})
  {
  }

  /** Painting is cumulative. */
  lemma PaintedThen(b0: seq<byte>, b1: seq<byte>, b2: seq<byte>, f: Frame, first: Pixels, second: Pixels)
    requires Painted(b0, b1, f, first) && Painted(b1, b2, f, second)
    ensures Painted(b0, b2, f, first + second)
  {
    forall y, o | 0 <= y < f.height && 0 <= o < f.Stride()
      ensures b2[At(f, y, o)] == Want(first + second, b0[At(f, y, o)], y, o)
    {
      assert b1[At(f, y, o)] == Want(first, b0[At(f, y, o)], y, o);
      assert b2[At(f, y, o)] == Want(second, b1[At(f, y, o)], y, o);
    }
  }

  /** Painting in bytes, for frames of even width: a marked pixel has its own luma byte at 76, and the
    * chroma byte it shares with the other pixel of its pair at 84 on even rows and 255 on odd ones. */
  lemma PaintedMeans(before: seq<byte>, after: seq<byte>, f: Frame, marked: Pixels, x: int, y: int)
    requires f.Valid() && Painted(before, after, f, marked) && 0 <= x < f.width && 0 <= y < f.height
    ensures var group := y * (f.width + f.width / 2) + 3 * (x / 2);
            var twin := if x % 2 == 0 then x + 1 else x - 1;
      && 0 <= group && group + 2 < |before| == |after|
      && after[group + 1 + x % 2] == (if (x, y) in marked then 76 else before[group + 1 + x % 2])
      && after[group] == if (x, y) in marked || (twin, y) in marked then (if y % 2 == 0 then 84 else 255)
                         else before[group]
  {
    var o := 3 * (x / 2);
    GroupInRow(f, x);
    Address(f, y, o);
    Address(f, y, o + 1 + x % 2);
    Address(f, y, o + 2);
    hide At, RowStart, Frame.Bytes, Frame.Stride;
    assert after[At(f, y, o)] == Want(marked, before[At(f, y, o)], y, o);
    assert after[At(f, y, o + 1 + x % 2)] == Want(marked, before[At(f, y, o + 1 + x % 2)], y, o + 1 + x % 2);
  }

  lemma Address(f: Frame, y: int, o: int)
    requires 0 <= y < f.height && 0 <= o < f.Stride()
    ensures At(f, y, o) == y * (f.width + f.width / 2) + o < f.Bytes()
  {
    RowStartValue(y, f.Stride());
  }

  lemma GroupInRow(f: Frame, x: int)
    requires f.Valid() && 0 <= x < f.width
    ensures 0 <= 3 * (x / 2) && 3 * (x / 2) + 2 < f.Stride()
  {
  }

  /** The pixel set decides every byte. */
  lemma PaintedUnique(before: seq<byte>, a: seq<byte>, b: seq<byte>, f: Frame, marked: Pixels)
    requires Painted(before, a, f, marked) && Painted(before, b, f, marked)
    ensures a == b
  {
    forall i | 0 <= i < |a|
      ensures a[i] == b[i]
    {
      if i < f.Bytes() {
        var y, o := AtSurjective(f, i);
        assert a[At(f, y, o)] == b[At(f, y, o)];
      }
    }
  }

  /** Pixels x1..x2 of rows y1..y2. */
  ghost function Rect(x1: int, x2: int, y1: int, y2: int): Pixels {
    iset p: (int, int) | x1 <= p.0 <= x2 && y1 <= p.1 <= y2
  }

  function Min(a: int, b: int): int {
    if a < b then a else b
  }

  function Max(a: int, b: int): int {
    if a < b then b else a
  }

  datatype Box = Box(x1: int, y1: int, x2: int, y2: int)

  /** A box with its corners put in order and clipped to the frame; empty when x1 > x2 or y1 > y2. */
  function Clip(f: Frame, b: Box): Box {
    Box(Max(Min(b.x1, b.x2), 0), Max(Min(b.y1, b.y2), 0),
        Min(Max(b.x1, b.x2), f.width - 1), Min(Max(b.y1, b.y2), f.height - 1))
  }

  function Scale(b: Box, sx: int, sy: int): Box {
    Box(b.x1 * sx, b.y1 * sy, b.x2 * sx, b.y2 * sy)
  }

  predicate Empty(c: Box) {
    c.x1 > c.x2 || c.y1 > c.y2
  }

  /** Arm length and stroke of the marks of a clipped box. */
  function Arm(c: Box): int {
    Min(OSD_CORNER_LEN, Min((c.x2 - c.x1) / 2, (c.y2 - c.y1) / 2))
  }

  function Thick(c: Box): int {
    Min(OSD_THICKNESS, Arm(c))
  }

  /** Distance to the nearer vertical and to the nearer horizontal side. */
  function SideX(c: Box, x: int): int {
    Min(x - c.x1, c.x2 - x)
  }

  function SideY(c: Box, y: int): int {
    Min(y - c.y1, c.y2 - y)
  }

  /** A pixel of a corner mark: close to one side, and within arm's length of the other. */
  predicate InMark(c: Box, thick: int, x: int, y: int) {
    && c.x1 <= x <= c.x2 && c.y1 <= y <= c.y2
    && ((SideY(c, y) < thick && SideX(c, x) <= Arm(c)) || (SideX(c, x) < thick && SideY(c, y) <= Arm(c)))
  }

  /** The four marks of a clipped box, up to a stroke of `thick`. */
  ghost function Strokes(c: Box, thick: int): Pixels {
    iset p: (int, int) | InMark(c, thick, p.0, p.1)
  }

  ghost function BoxPixels(f: Frame, b: Box): Pixels {
    var c := Clip(f, b);
    if Empty(c) then iset{} else Strokes(c, Thick(c))
  }

  /** The specification of a whole overlay: the corner marks of every scaled box. */
  ghost function Marks(f: Frame, boxes: seq<Box>, sx: int, sy: int): Pixels {
    iset p: (int, int) | AnyBox(f, boxes, sx, sy, p)
  }

  ghost predicate AnyBox(f: Frame, boxes: seq<Box>, sx: int, sy: int, p: (int, int)) {
    exists k :: 0 <= k < |boxes| && p in BoxPixels(f, Scale(boxes[k], sx, sy))
  }

  ghost predicate HasRow(marked: Pixels, y: int) {
    exists x :: (x, y) in marked
  }

  /** The rows `draw_corners` reports as dirty. */
  predicate InBands(c: Box, y: int) {
    !Empty(c) && Arm(c) >= 1 && (c.y1 <= y <= c.y1 + Arm(c) || c.y2 - Arm(c) <= y <= c.y2)
  }

  /** The two bands a box dirties are exactly the rows its marks touch. */
  lemma BoxRows(f: Frame, b: Box, y: int)
    ensures HasRow(BoxPixels(f, b), y) <==> InBands(Clip(f, b), y)
  {
    var c := Clip(f, b);
    if InBands(c, y) {
      assert (c.x1, y) in BoxPixels(f, b);
    }
  }

  // ----- do the marks meet? (osd.c:110-111 says never) -----

  /** The marks along the top edge, or along the left edge, have grown into one solid bar; the bottom
    * and right edges mirror them. */
  ghost predicate SolidTop(c: Box) {
    forall x :: c.x1 <= x <= c.x2 ==> InMark(c, Thick(c), x, c.y1)
  }

  ghost predicate SolidSide(c: Box) {
    forall y :: c.y1 <= y <= c.y2 ==> InMark(c, Thick(c), c.x1, y)
  }

  /** The top marks meet exactly when the clamp by the width is in force ... */
  lemma SolidTopIff(c: Box)
    requires !Empty(c) && Arm(c) >= 1
    ensures SolidTop(c)
       <==> (c.x2 - c.x1) / 2 <= OSD_CORNER_LEN && (c.x2 - c.x1) / 2 <= (c.y2 - c.y1) / 2
  {
    var middle := c.x1 + (c.x2 - c.x1) / 2;
    assert InMark(c, Thick(c), middle, c.y1) <==> (c.x2 - c.x1) / 2 <= Arm(c);
  }

  /** ... and the side marks exactly when the clamp by the height is. */
  lemma SolidSideIff(c: Box)
    requires !Empty(c) && Arm(c) >= 1
    ensures SolidSide(c)
       <==> (c.y2 - c.y1) / 2 <= OSD_CORNER_LEN && (c.y2 - c.y1) / 2 <= (c.x2 - c.x1) / 2
  {
    var middle := c.y1 + (c.y2 - c.y1) / 2;
    assert InMark(c, Thick(c), c.x1, middle) <==> (c.y2 - c.y1) / 2 <= Arm(c);
  }

  /** What the comment promises, settled: the marks of a drawn box stay apart exactly when both half
    * sides, rounded down, exceed OSD_CORNER_LEN; and they close into a rectangle exactly when the
    * half sides agree and do not exceed it. */
  lemma MarksStayApartIff(c: Box)
    requires !Empty(c) && Arm(c) >= 1
    ensures !SolidTop(c) && !SolidSide(c)
       <==> (c.x2 - c.x1) / 2 > OSD_CORNER_LEN && (c.y2 - c.y1) / 2 > OSD_CORNER_LEN
    ensures SolidTop(c) && SolidSide(c)
       <==> (c.x2 - c.x1) / 2 == (c.y2 - c.y1) / 2 <= OSD_CORNER_LEN
  {
    SolidTopIff(c);
    SolidSideIff(c);
  }

  /** A pixel of an upper mark and of a lower mark; of a left mark and of a right mark. */
  predicate InUpper(c: Box, x: int, y: int) {
    InMark(c, Thick(c), x, y) && y <= c.y1 + Arm(c)
  }

  predicate InLower(c: Box, x: int, y: int) {
    InMark(c, Thick(c), x, y) && c.y2 - Arm(c) <= y
  }

  predicate InLeft(c: Box, x: int, y: int) {
    InMark(c, Thick(c), x, y) && x <= c.x1 + Arm(c)
  }

  predicate InRight(c: Box, x: int, y: int) {
    InMark(c, Thick(c), x, y) && c.x2 - Arm(c) <= x
  }

  ghost predicate SharedRow(c: Box, y: int) {
    exists x, x' :: InUpper(c, x, y) && InLower(c, x', y)
  }

  ghost predicate SharedColumn(c: Box, x: int) {
    exists y, y' :: InLeft(c, x, y) && InRight(c, x, y')
  }

  /** A side is exactly twice the arm when it is even and its clamp is the one in force. */
  lemma TwiceArmIff(c: Box)
    requires !Empty(c)
    ensures c.y2 - c.y1 == 2 * Arm(c)
       <==> (c.y2 - c.y1) % 2 == 0 && (c.y2 - c.y1) / 2 <= Min(OSD_CORNER_LEN, (c.x2 - c.x1) / 2)
    ensures c.x2 - c.x1 == 2 * Arm(c)
       <==> (c.x2 - c.x1) % 2 == 0 && (c.x2 - c.x1) / 2 <= Min(OSD_CORNER_LEN, (c.y2 - c.y1) / 2)
  {
  }

  /** An upper and a lower mark share a row exactly when the height is even, within two arms and not
    * clamped by the width; the row is then the middle one. */
  lemma SharedRowIff(c: Box, y: int)
    requires !Empty(c) && Arm(c) >= 1
    ensures SharedRow(c, y) <==>
              && (c.y2 - c.y1) % 2 == 0 && (c.y2 - c.y1) / 2 <= Min(OSD_CORNER_LEN, (c.x2 - c.x1) / 2)
              && y == (c.y1 + c.y2) / 2
  {
    TwiceArmIff(c);
    if c.y2 - c.y1 == 2 * Arm(c) && y == c.y1 + Arm(c) {
      assert InUpper(c, c.x1, y) && InLower(c, c.x1, y);
    }
  }

  lemma SharedColumnIff(c: Box, x: int)
    requires !Empty(c) && Arm(c) >= 1
    ensures SharedColumn(c, x) <==>
              && (c.x2 - c.x1) % 2 == 0 && (c.x2 - c.x1) / 2 <= Min(OSD_CORNER_LEN, (c.y2 - c.y1) / 2)
              && x == (c.x1 + c.x2) / 2
  {
    TwiceArmIff(c);
    if c.x2 - c.x1 == 2 * Arm(c) && x == c.x1 + Arm(c) {
      assert InLeft(c, x, c.y1) && InRight(c, x, c.y1);
    }
  }

  /** The two bands together take in the whole height of the box. */
  ghost predicate BandsMerge(c: Box) {
    forall y :: c.y1 <= y <= c.y2 ==> InBands(c, y)
  }

  /** The dirty bands of a drawn box touch, and so merge over its whole height, exactly when the side
    * marks meet; in any case they overlap in at most one row. */
  lemma BandsTouchIff(c: Box)
    requires !Empty(c) && Arm(c) >= 1
    ensures c.y1 + Arm(c) + 1 >= c.y2 - Arm(c)
       <==> (c.y2 - c.y1) / 2 <= OSD_CORNER_LEN && (c.y2 - c.y1) / 2 <= (c.x2 - c.x1) / 2
    ensures c.y1 + Arm(c) + 1 >= c.y2 - Arm(c) <==> BandsMerge(c)
    ensures BandsMerge(c) <==> SolidSide(c)
    ensures c.y1 + Arm(c) <= c.y2 - Arm(c)
  {
    SolidSideIff(c);
    var middle := c.y1 + (c.y2 - c.y1) / 2;
    assert InBands(c, middle) <==> (c.y2 - c.y1) / 2 <= Arm(c);
  }

  /** An instance a detection can produce: a box one detector pixel wide and high, scaled by four.  Its
    * marks fill all but the centre of a five-pixel square, sharing its middle row and column. */
  lemma MarksCanMeet(f: Frame)
    requires f.width >= 5 && f.height >= 5
    ensures var c := Clip(f, Scale(Box(0, 0, 1, 1), 4, 4));
      && (forall x, y :: 0 <= x <= 4 && 0 <= y <= 4 ==> (InMark(c, Thick(c), x, y) <==> (x, y) != (2, 2)))
      && SharedRow(c, 2) && SharedColumn(c, 2)
  {
    var c := Clip(f, Scale(Box(0, 0, 1, 1), 4, 4));
    assert c == Box(0, 0, 4, 4) && Arm(c) == 2 && Thick(c) == 2;
    SharedRowIff(c, 2);
    SharedColumnIff(c, 2);
  }

  // ----- where the marks of a detection are -----

  lemma MarksOfOne(f: Frame, b: Box, sx: int, sy: int, p: (int, int))
    ensures p in Marks(f, [b], sx, sy) <==> p in BoxPixels(f, Scale(b, sx, sy))
  {
    if p in BoxPixels(f, Scale(b, sx, sy)) { assert p in BoxPixels(f, Scale([b][0], sx, sy)); }
  }

  /** The marks of several detections are those of each. */
  lemma MarksOfEach(f: Frame, boxes: seq<Box>, sx: int, sy: int, p: (int, int))
    ensures p in Marks(f, boxes, sx, sy)
       <==> exists k :: 0 <= k < |boxes| && p in Marks(f, [boxes[k]], sx, sy)
  {
    forall k | 0 <= k < |boxes|
      ensures p in Marks(f, [boxes[k]], sx, sy) <==> p in BoxPixels(f, Scale(boxes[k], sx, sy))
    {
      MarksOfOne(f, boxes[k], sx, sy, p);
    }
  }

  /** The marks of one detection, pixel by pixel, for corners in any order and at any place: nothing
    * outside the scaled box as far as it lies in the frame; inside it, counting from the nearest
    * corner, two strokes 4 pixels thick that reach 48 pixels further along the sides, both numbers cut
    * to half the shorter side. */
  lemma MarkShape(f: Frame, b: Box, sx: int, sy: int, x: int, y: int)
    ensures var left, right := Max(Min(b.x1 * sx, b.x2 * sx), 0), Min(Max(b.x1 * sx, b.x2 * sx), f.width - 1);
            var top, bottom := Max(Min(b.y1 * sy, b.y2 * sy), 0), Min(Max(b.y1 * sy, b.y2 * sy), f.height - 1);
            var short := Min(right - left, bottom - top);
            var i, j := Min(x - left, right - x), Min(y - top, bottom - y);
      (x, y) in Marks(f, [b], sx, sy) <==>
        && left <= x <= right && top <= y <= bottom
        && ((i <= 48 && 2 * i <= short && j < 4 && 2 * j + 2 <= short)
            || (j <= 48 && 2 * j <= short && i < 4 && 2 * i + 2 <= short))
  {
    MarksOfOne(f, b, sx, sy, (x, y));
    ShapeOfBox(f, Scale(b, sx, sy), x, y);
    hide Marks, BoxPixels, Min, Max;
  }

  lemma ShapeOfBox(f: Frame, b: Box, x: int, y: int)
    ensures var left, right := Max(Min(b.x1, b.x2), 0), Min(Max(b.x1, b.x2), f.width - 1);
            var top, bottom := Max(Min(b.y1, b.y2), 0), Min(Max(b.y1, b.y2), f.height - 1);
            var short := Min(right - left, bottom - top);
            var i, j := Min(x - left, right - x), Min(y - top, bottom - y);
      (x, y) in BoxPixels(f, b) <==>
        && left <= x <= right && top <= y <= bottom
        && ((i <= 48 && 2 * i <= short && j < 4 && 2 * j + 2 <= short)
            || (j <= 48 && 2 * j <= short && i < 4 && 2 * i + 2 <= short))
  {
    var c := Clip(f, b);
    PixelOfBox(f, b, x, y);
    hide *;
    if c.x1 <= x <= c.x2 && c.y1 <= y <= c.y2 {
      var i, j := Min(x - c.x1, c.x2 - x), Min(y - c.y1, c.y2 - y);
      ArmIff(c, i);
      ArmIff(c, j);
      ThickIff(c, i);
      ThickIff(c, j);
    }
  }

  lemma PixelOfBox(f: Frame, b: Box, x: int, y: int)
    ensures var c := Clip(f, b);
      && c.x1 == Max(Min(b.x1, b.x2), 0) && c.x2 == Min(Max(b.x1, b.x2), f.width - 1)
      && c.y1 == Max(Min(b.y1, b.y2), 0) && c.y2 == Min(Max(b.y1, b.y2), f.height - 1)
      && var i, j := Min(x - c.x1, c.x2 - x), Min(y - c.y1, c.y2 - y);
         (x, y) in BoxPixels(f, b) <==>
           && c.x1 <= x <= c.x2 && c.y1 <= y <= c.y2
           && ((j < Thick(c) && i <= Arm(c)) || (i < Thick(c) && j <= Arm(c)))
  {
    hide Arm, Thick, Min, Max;
  }

  /** How far an arm and a stroke reach. */
  lemma ArmIff(c: Box, i: int)
    requires c.x1 <= c.x2 && c.y1 <= c.y2
    ensures i <= Arm(c) <==> i <= 48 && 2 * i <= Min(c.x2 - c.x1, c.y2 - c.y1)
  {
  }

  lemma ThickIff(c: Box, j: int)
    requires c.x1 <= c.x2 && c.y1 <= c.y2
    ensures j < Thick(c) <==> j < 4 && 2 * j + 2 <= Min(c.x2 - c.x1, c.y2 - c.y1)
  {
  }

  /** In particular the two given corners of a box that lies in the frame are marked, if it is at least
    * three pixels wide and high. */
  lemma CornersMarked(f: Frame, b: Box, sx: int, sy: int)
    requires 0 <= b.x1 * sx && b.x1 * sx + 2 <= b.x2 * sx < f.width
    requires 0 <= b.y1 * sy && b.y1 * sy + 2 <= b.y2 * sy < f.height
    ensures (b.x1 * sx, b.y1 * sy) in Marks(f, [b], sx, sy) && (b.x2 * sx, b.y2 * sy) in Marks(f, [b], sx, sy)
  {
    MarkShape(f, b, sx, sy, b.x1 * sx, b.y1 * sy);
    MarkShape(f, b, sx, sy, b.x2 * sx, b.y2 * sy);
    hide Marks;
  }

  lemma MarksPrefix(f: Frame, boxes: seq<Box>, sx: int, sy: int, i: nat)
    requires i < |boxes|
    ensures Marks(f, boxes[..i + 1], sx, sy)
         == Marks(f, boxes[..i], sx, sy) + BoxPixels(f, Scale(boxes[i], sx, sy))
  {
    var a, b := boxes[..i], boxes[..i + 1];
    forall p
      ensures p in Marks(f, b, sx, sy)
         <==> p in Marks(f, a, sx, sy) || p in BoxPixels(f, Scale(boxes[i], sx, sy))
    {
      if k :| 0 <= k < |b| && p in BoxPixels(f, Scale(b[k], sx, sy)) {
        if k < i { assert a[k] == b[k]; }
      }
      if k :| 0 <= k < |a| && p in BoxPixels(f, Scale(a[k], sx, sy)) {
        assert b[k] == a[k];
      }
      if p in BoxPixels(f, Scale(boxes[i], sx, sy)) {
        assert b[i] == boxes[i];
      }
    }
  }

  lemma RowsOfUnion(a: Pixels, b: Pixels, y: int)
    ensures HasRow(a + b, y) <==> HasRow(a, y) || HasRow(b, y)
  {
    if x :| (x, y) in a { assert (x, y) in a + b; }
    if x :| (x, y) in b { assert (x, y) in a + b; }
  }
}
