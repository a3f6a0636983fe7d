/** The crop page's selection box. Coordinates are CSS pixels relative to
    the displayed image and are taken as exact reals; the pointer position is
    clamped into the image box before any rule is applied. */
module ImageCropPage {
  import opened Outcomes
  import opened JsNumbers
  import ImageCrop

  datatype Rect = Rect(x: real, y: real, w: real, h: real)

  /** The displayed image's size. */
  datatype Box = Box(width: real, height: real)

  /** clamp */
  function Clamp(v: real, min: real, max: real): (r: real)
    ensures min <= max ==> min <= r <= max
    ensures min <= v <= max ==> r == v
    ensures v < min <= max ==> r == min
    ensures max < v ==> r == max
  {
    MinReal(max, MaxReal(min, v))
  }

  /** normRect: the same span with a non-negative size, at least 1 x 1. */
  function NormRect(r: Rect): (n: Rect)
    ensures n.x == MinReal(r.x, r.x + r.w) && n.y == MinReal(r.y, r.y + r.h)
    ensures n.w == MaxReal(1.0, AbsReal(r.w)) && n.h == MaxReal(1.0, AbsReal(r.h))
    ensures n.w >= 1.0 && n.h >= 1.0
  {
    var x1 := MinReal(r.x, r.x + r.w);
    var y1 := MinReal(r.y, r.y + r.h);
    var x2 := MaxReal(r.x, r.x + r.w);
    var y2 := MaxReal(r.y, r.y + r.h);
    Rect(x1, y1, MaxReal(1.0, x2 - x1), MaxReal(1.0, y2 - y1))
  }

  /** A normalised rectangle is its own normal form. */
  lemma NormRectIdempotent(r: Rect)
    ensures NormRect(NormRect(r)) == NormRect(r)
  {
  }

  /** A rectangle with a size of at least 1 x 1 is left as it is. */
  lemma NormRectKeepsNormal(r: Rect)
    requires r.w >= 1.0 && r.h >= 1.0
    ensures NormRect(r) == r
  {
  }

  // ---------------------------------------------------------------------
  // Dragging

  datatype Handle = NW | NE | SE | SW

  datatype DragMode = New | Move | Resize

  /** The drag in progress: where it started, the box it started from and
      the handle it holds. */
  datatype Drag = Drag(mode: DragMode, startX: real, startY: real, base: Option<Rect>, handle: Option<Handle>)

  /** `lockSquare || mode === 'round'`: whether the box is kept square. */
  datatype Settings = Settings(lockSquare: bool, roundMode: bool) {
    predicate Square() { lockSquare || roundMode }
  }

  /** `dx >= 0 ? s : -s` */
  function Signed(d: real, s: real): real {
    if d >= 0.0 then s else -s
  }

  /** A new box from the drag start to the pointer; when kept square, both
      sides take the larger of the two distances and keep their signs. */
  function NewBox(startX: real, startY: real, x: real, y: real, square: bool): (r: Rect)
    ensures square ==> r.w == r.h && r.w == MaxReal(1.0, MaxReal(AbsReal(x - startX), AbsReal(y - startY)))
    ensures !square ==> r.x == MinReal(startX, x) && r.y == MinReal(startY, y)
    ensures !square ==> r.w == MaxReal(1.0, AbsReal(x - startX)) && r.h == MaxReal(1.0, AbsReal(y - startY))
  {
    var dx := x - startX;
    var dy := y - startY;
    if square then
      var s := MaxReal(AbsReal(dx), AbsReal(dy));
      NormRect(Rect(startX, startY, Signed(dx, s), Signed(dy, s)))
    else
      NormRect(Rect(startX, startY, dx, dy))
  }

  /** A square new box extends from the start point towards the pointer:
      its side is the larger of the two distances, and the start is the
      box's corner on the side away from the pointer. */
  lemma NewBoxFromStart(startX: real, startY: real, x: real, y: real)
    requires MaxReal(AbsReal(x - startX), AbsReal(y - startY)) >= 1.0
    ensures var r := NewBox(startX, startY, x, y, true);
      && r.w == MaxReal(AbsReal(x - startX), AbsReal(y - startY)) && r.h == r.w
      && (if x >= startX then r.x == startX else r.x + r.w == startX)
      && (if y >= startY then r.y == startY else r.y + r.h == startY)
  {
  }

  /** Moving keeps the size and slides the box by the pointer's offset,
      clamped so that it stays inside the image box. */
  function MoveBox(base: Rect, startX: real, startY: real, x: real, y: real, box: Box): (r: Rect)
    ensures r.w == base.w && r.h == base.h
    ensures base.w <= box.width ==> 0.0 <= r.x && r.x + r.w <= box.width
    ensures base.h <= box.height ==> 0.0 <= r.y && r.y + r.h <= box.height
  {
    Rect(Clamp(base.x + (x - startX), 0.0, box.width - base.w),
         Clamp(base.y + (y - startY), 0.0, box.height - base.h), base.w, base.h)
  }

  /** A move that keeps the box inside is not clamped. */
  lemma MoveBoxFreely(base: Rect, startX: real, startY: real, x: real, y: real, box: Box)
    requires 0.0 <= base.x + (x - startX) <= box.width - base.w
    requires 0.0 <= base.y + (y - startY) <= box.height - base.h
    ensures MoveBox(base, startX, startY, x, y, box)
      == Rect(base.x + (x - startX), base.y + (y - startY), base.w, base.h)
  {
  }

  /** The corner of `r` that a handle sits on. */
  function Corner(r: Rect, h: Handle): (real, real) {
    var cx := if h == NW || h == SW then r.x else r.x + r.w;
    var cy := if h == NW || h == NE then r.y else r.y + r.h;
    (cx, cy)
  }

  function Opposite(h: Handle): (o: Handle)
    ensures o != h
  {
    match h
    case NW => SE
    case SE => NW
    case NE => SW
    case SW => NE
  }

  lemma OppositeInvolutive(h: Handle)
    ensures Opposite(Opposite(h)) == h
  {
  }

  /** The fixed point of a resize, chosen handle by handle as the page does. */
  function Anchor(base: Rect, h: Handle): (a: (real, real))
    ensures a == Corner(base, Opposite(h))
  {
    var left := base.x;
    var top := base.y;
    var right := base.x + base.w;
    var bottom := base.y + base.h;
    if h == NW then (right, bottom)
    else if h == NE then (left, bottom)
    else if h == SE then (left, top)
    else (right, top)
  }

  /** Resizing anchors the corner opposite the dragged handle. */
  lemma AnchorIsOppositeCorner(base: Rect, h: Handle)
    ensures Anchor(base, h) == Corner(base, Opposite(h))
  {
  }

  /** The rectangle a resize yields stays inside the image box. */
  predicate InsideBox(r: Rect, box: Box) {
    0.0 <= r.x && 0.0 <= r.y && r.w >= 1.0 && r.h >= 1.0 && r.x + r.w <= box.width && r.y + r.h <= box.height
  }

  /** One axis of a resize: the span between the anchor `a` and the moving
      point `m`, its low end clamped into [0, size - 1] and its high end into
      [1, size]; returns the new start and length. */
  function ClampSpan(a: real, m: real, size: real): (r: (real, real))
    ensures r.1 >= 1.0
    ensures size >= 1.0 ==> 0.0 <= r.0 && r.0 + r.1 <= size
    ensures 0.0 <= MinReal(a, m) && MaxReal(a, m) <= size && MaxReal(a, m) - MinReal(a, m) >= 1.0 ==>
      r.0 == MinReal(a, m) && r.0 + r.1 == MaxReal(a, m)
  {
    var lo := Clamp(MinReal(a, m), 0.0, size - 1.0);
    var hi := Clamp(MaxReal(a, m), 1.0, size);
    (lo, MaxReal(1.0, hi - lo))
  }

  /** A moving point squared up around the anchor `a`: at distance `s`, on
      the side of the pointer's offset `d`. */
  function SquaredUp(a: real, d: real, s: real): (m: real)
    ensures s >= 0.0 ==> MaxReal(a, m) - MinReal(a, m) == s && a - s <= MinReal(a, m) && MaxReal(a, m) <= a + s
  {
    a + Signed(d, s)
  }

  /** The moving point of a resize: the pointer itself, or, when the box is
      kept square, the point at distance max(|dx|, |dy|) from the anchor on
      each axis, on the pointer's side. */
  function MovingPoint(ax: real, ay: real, x: real, y: real, square: bool): (m: (real, real))
    ensures !square ==> m == (x, y)
    ensures square ==> var s := MaxReal(AbsReal(x - ax), AbsReal(y - ay));
      && MaxReal(ax, m.0) - MinReal(ax, m.0) == s && MaxReal(ay, m.1) - MinReal(ay, m.1) == s
      && (m.0 >= ax <==> x >= ax) && (m.1 >= ay <==> y >= ay)
  {
    if square then
      var s := MaxReal(AbsReal(x - ax), AbsReal(y - ay));
      (SquaredUp(ax, x - ax, s), SquaredUp(ay, y - ay, s))
    else (x, y)
  }

  /** The resize rule of onPointerMove. The anchor is the corner opposite the
      handle and stays fixed; the box spans the anchor and the moving point,
      each axis clamped into the image box. */
  function ResizeBox(base: Rect, handle: Handle, x: real, y: real, box: Box, square: bool): (r: Rect)
    ensures r.w >= 1.0 && r.h >= 1.0
    ensures box.width >= 1.0 && box.height >= 1.0 ==> InsideBox(r, box)
    ensures var (ax, ay) := Anchor(base, handle);
      var (mx, my) := MovingPoint(ax, ay, x, y, square);
      // with the clamps inactive, the box spans the anchor and the moving point
      0.0 <= MinReal(ax, mx) && MaxReal(ax, mx) <= box.width && MaxReal(ax, mx) - MinReal(ax, mx) >= 1.0 ==>
        r.x == MinReal(ax, mx) && r.x + r.w == MaxReal(ax, mx)
    ensures var (ax, ay) := Anchor(base, handle);
      var (mx, my) := MovingPoint(ax, ay, x, y, square);
      0.0 <= MinReal(ay, my) && MaxReal(ay, my) <= box.height && MaxReal(ay, my) - MinReal(ay, my) >= 1.0 ==>
        r.y == MinReal(ay, my) && r.y + r.h == MaxReal(ay, my)
    ensures var (ax, ay) := Anchor(base, handle);
      var (mx, my) := MovingPoint(ax, ay, x, y, square);
      var s := MaxReal(AbsReal(x - ax), AbsReal(y - ay));
      // a square box whose span is not clamped has side max(|dx|, |dy|)
      square && s >= 1.0 && 0.0 <= MinReal(ax, mx) && MaxReal(ax, mx) <= box.width
        && 0.0 <= MinReal(ay, my) && MaxReal(ay, my) <= box.height ==>
        r.w == s && r.h == s
  {
    var (ax, ay) := Anchor(base, handle);
    var (mx, my) := MovingPoint(ax, ay, x, y, square);
    var (nx, nw) := ClampSpan(ax, mx, box.width);
    var (ny, nh) := ClampSpan(ay, my, box.height);
    Rect(nx, ny, nw, nh)
  }

  /** The square resize of a 20 x 20 box at (10, 10) by its south-east handle
      to (50, 30) in a 100 x 100 image: a 40 x 40 box at (10, 10). */
  lemma SquareResizeExample()
    ensures ResizeBox(Rect(10.0, 10.0, 20.0, 20.0), SE, 50.0, 30.0, Box(100.0, 100.0), true) == Rect(10.0, 10.0, 40.0, 40.0)
  {
  }

  /** Unlocked, the same south-east handle dragged to (50, 50) spans the anchor and the pointer. */
  lemma FreeResizeExample()
    ensures ResizeBox(Rect(10.0, 10.0, 20.0, 20.0), SE, 50.0, 50.0, Box(100.0, 100.0), false) == Rect(10.0, 10.0, 40.0, 40.0)
  {
  }

  /** onPointerMove while dragging: the pointer (relative to the image box)
      is clamped into the box, then the drag's rule gives the new selection;
      None means the selection is left as it is. */
  method PointerMove(drag: Drag, px: real, py: real, box: Box, settings: Settings) returns (r: Option<Rect>)
    ensures drag.mode == New ==> r == Some(NewBox(drag.startX, drag.startY,
      Clamp(px, 0.0, box.width), Clamp(py, 0.0, box.height), settings.Square()))
    ensures drag.mode == Move ==> r == (if drag.base.Some? then Some(MoveBox(drag.base.value, drag.startX, drag.startY,
      Clamp(px, 0.0, box.width), Clamp(py, 0.0, box.height), box)) else None)
    ensures r.None? <==> drag.mode != New && (drag.base.None? || (drag.mode == Resize && drag.handle.None?))
    ensures drag.mode == Resize && drag.base.Some? && drag.handle.Some? ==>
      r == Some(ResizeBox(drag.base.value, drag.handle.value,
        Clamp(px, 0.0, box.width), Clamp(py, 0.0, box.height), box, settings.Square()))
    ensures drag.mode == Resize && r.Some? ==> r.value.w >= 1.0 && r.value.h >= 1.0
    ensures drag.mode == Resize && r.Some? && box.width >= 1.0 && box.height >= 1.0 ==> InsideBox(r.value, box)
  {
    var x := Clamp(px, 0.0, box.width);
    var y := Clamp(py, 0.0, box.height);
    if drag.mode == New {
      return Some(NewBox(drag.startX, drag.startY, x, y, settings.Square()));
    }
    r := None;
    if drag.mode == Move && drag.base.Some? {
      r := Some(MoveBox(drag.base.value, drag.startX, drag.startY, x, y, box));
    }
    if drag.mode == Resize && drag.base.Some? && drag.handle.Some? {
      r := Some(ResizeBox(drag.base.value, drag.handle.value, x, y, box, settings.Square()));
    }
  }

  // ---------------------------------------------------------------------
  // The request runCrop sends

  datatype CropMode = CustomMode | RoundMode

  /** The `round` part of the request: the radius is the rounded slider value
      (never negative) in round mode and 0 in custom mode. The corner flags
      are sent as they are in both modes. */
  function RoundPayload(mode: CropMode, roundRadius: real, corners: ImageCrop.CornerFlags): (p: ImageCrop.RoundArgs)
    ensures p.radius.Some? && p.radius.value.Finite?
    ensures mode == CustomMode ==> p.radius.value.value == 0.0
    ensures mode == RoundMode ==> p.radius.value.value == MaxInt(0, Round(roundRadius)) as real
    ensures p.corners == Some(ImageCrop.PartialCorners(Some(corners.tl), Some(corners.tr), Some(corners.br), Some(corners.bl)))
  {
    var radius := if mode == RoundMode then MaxInt(0, Round(roundRadius)) else 0;
    ImageCrop.RoundArgs(Some(Finite(radius as real)),
      Some(ImageCrop.PartialCorners(Some(corners.tl), Some(corners.tr), Some(corners.br), Some(corners.bl))))
  }

  /** Across the two processes: the crop service applies the page's corner
      flags unchanged, never masks a custom-mode crop, and in round mode uses
      the slider radius cut down to half the shorter side. */
  lemma PayloadReachesService(mode: CropMode, roundRadius: real, corners: ImageCrop.CornerFlags, g: ImageCrop.Region)
    requires g.width >= 1 && g.height >= 1
    ensures var p := Some(RoundPayload(mode, roundRadius, corners));
      && ImageCrop.CropCorners(p) == corners
      && (mode == CustomMode ==> !ImageCrop.MaskApplied(ImageCrop.CropRadius(p, g), ImageCrop.CropCorners(p)))
      && (mode == RoundMode ==>
            ImageCrop.CropRadius(p, g) == MinInt(MaxInt(0, Round(roundRadius)), ImageCrop.MaxRadius(g.width, g.height)))
  {
    var p := Some(RoundPayload(mode, roundRadius, corners));
    var n := if mode == RoundMode then MaxInt(0, Round(roundRadius)) else 0;
    RoundOfInteger(n);
  }
}
