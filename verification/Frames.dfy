/** Frames, rectangles and the quarter turns of the AMOLED panel wrapper, as mathematics. */
module Frames {

  /** One RGB565 pixel. */
  type Pixel = p: nat | p < 0x1_0000

  datatype Point = Point(x: int, y: int)

  /** The visible part of a display: one pixel for every point of its domain. */
  type Frame = map<Point, Pixel>

  /** Half-open, like the driver's start and end coordinates. */
  datatype Rect = Rect(x0: int, y0: int, x1: int, y1: int) {
    function Width(): int { x1 - x0 }
    function Height(): int { y1 - y0 }
    predicate Empty() { Width() <= 0 || Height() <= 0 }
    function Area(): nat { if Empty() then 0 else Product(Width(), Height()) }
    predicate Has(p: Point) { x0 <= p.x < x1 && y0 <= p.y < y1 }
  }

  /** Width times height. */
  function Product(w: nat, h: nat): nat { w * h }

  /** Row-major position of column x in row y. */
  function Index(w: nat, x: nat, y: nat): nat { y * w + x }

  lemma IndexInRange(w: nat, h: nat, x: nat, y: nat)
    requires x < w && y < h
    ensures Index(w, x, y) < Product(w, h)
  {
    assert (y + 1) * w <= h * w;
  }

  /** The pixel of a row-major bitmap of the rectangle. */
  function At(src: seq<Pixel>, r: Rect, p: Point): Pixel
    requires r.Has(p) && |src| >= r.Area()
  {
    IndexInRange(r.Width(), r.Height(), p.x - r.x0, p.y - r.y0);
    src[Index(r.Width(), p.x - r.x0, p.y - r.y0)]
  }

  /** A rectangle write; what lies outside the frame is clipped. */
  function Blit(f: Frame, r: Rect, src: seq<Pixel>): Frame
    requires |src| >= r.Area()
  {
    map p | p in f :: if r.Has(p) then At(src, r, p) else f[p]
  }

  // ----- rotation

  datatype Rotation = Rotate0 | Rotate90 | Rotate180 | Rotate270

  /** Resolution of the physical panel. */
  datatype Resolution = Resolution(h: int, v: int)

  /** Where the wrapper puts a logical pixel; 180 degrees is left to the panel itself. */
  function Rotate(rot: Rotation, res: Resolution, p: Point): Point {
    match rot
    case Rotate90 => Point(res.h - 1 - p.y, p.x)
    case Rotate270 => Point(p.y, res.v - 1 - p.x)
    case _ => p
  }

  function Unrotate(rot: Rotation, res: Resolution, q: Point): Point {
    match rot
    case Rotate90 => Point(q.y, res.h - 1 - q.x)
    case Rotate270 => Point(res.v - 1 - q.y, q.x)
    case _ => q
  }

  lemma RotateIsABijection(rot: Rotation, res: Resolution, p: Point)
    ensures Unrotate(rot, res, Rotate(rot, res, p)) == p && Rotate(rot, res, Unrotate(rot, res, p)) == p
  {
  }

  /** The rectangle the wrapper hands to the panel. */
  function RotatedRect(rot: Rotation, res: Resolution, r: Rect): Rect {
    match rot
    case Rotate90 => Rect(res.h - r.y1, r.x0, res.h - r.y0, r.x1)
    case Rotate270 => Rect(r.y0, res.v - r.x1, r.y1, res.v - r.x0)
    case _ => r
  }

  lemma RotatedRectIsTheImage(rot: Rotation, res: Resolution, r: Rect, q: Point)
    ensures RotatedRect(rot, res, r).Has(q) <==> r.Has(Unrotate(rot, res, q))
  {
  }

  lemma RotatedArea(rot: Rotation, res: Resolution, r: Rect)
    ensures RotatedRect(rot, res, r).Area() == r.Area()
  {
    if !r.Empty() {
      assert r.Width() * r.Height() == r.Height() * r.Width();
    }
  }

  /** What a draw of logical rectangle r must show on the physical frame. */
  function Show(f: Frame, rot: Rotation, res: Resolution, r: Rect, src: seq<Pixel>): Frame
    requires |src| >= r.Area()
  {
    map q | q in f :: if r.Has(Unrotate(rot, res, q)) then At(src, r, Unrotate(rot, res, q)) else f[q]
  }

  /** What a draw shows when only a part of its rectangle gets through. */
  function ShowPart(f: Frame, rot: Rotation, res: Resolution, r: Rect, part: Rect, src: seq<Pixel>): Frame
    requires |src| >= r.Area()
  {
    map q | q in f ::
      if r.Has(Unrotate(rot, res, q)) && part.Has(Unrotate(rot, res, q)) then At(src, r, Unrotate(rot, res, q))
      else f[q]
  }

  /** `dst` is the bitmap `src` turned for the rotated rectangle. */
  ghost predicate IsTurned(rot: Rotation, res: Resolution, r: Rect, src: seq<Pixel>, dst: seq<Pixel>)
    requires |src| >= r.Area() && |dst| >= r.Area()
  {
    RotatedArea(rot, res, r);
    forall p: Point | r.Has(p) ::
      RotatedRect(rot, res, r).Has(Rotate(rot, res, p)) &&
      At(dst, RotatedRect(rot, res, r), Rotate(rot, res, p)) == At(src, r, p)
  }

  /** Writing the turned bitmap to the rotated rectangle shows the logical draw. */
  lemma TurnedBlitIsShow(f: Frame, rot: Rotation, res: Resolution, r: Rect, src: seq<Pixel>, dst: seq<Pixel>)
    requires |src| >= r.Area() && |dst| >= r.Area() && IsTurned(rot, res, r, src, dst)
    ensures |dst| >= RotatedRect(rot, res, r).Area()
    ensures Blit(f, RotatedRect(rot, res, r), dst) == Show(f, rot, res, r, src)
  {
    RotatedArea(rot, res, r);
    forall q | q in f
      ensures Blit(f, RotatedRect(rot, res, r), dst)[q] == Show(f, rot, res, r, src)[q]
    {
      RotatedRectIsTheImage(rot, res, r, q);
      RotateIsABijection(rot, res, q);
    }
  }

  // ----- covering a frame with flushes

  predicate Within(r: Rect, logical: Frame) {
    forall x, y | r.x0 <= x < r.x1 && r.y0 <= y < r.y1 :: Point(x, y) in logical
  }

  /** The row-major bitmap of a rectangle of the logical frame. */
  function Cut(logical: Frame, r: Rect): (s: seq<Pixel>)
    requires Within(r, logical)
    ensures |s| == r.Area()
  {
    if r.Empty() then []
    else
      seq(r.Area(), k requires 0 <= k < r.Area() =>
        CutBounds(r.Width(), r.Height(), k);
        logical[Point(r.x0 + k % r.Width(), r.y0 + k / r.Width())])
  }

  lemma MulMono(a: nat, b: nat, w: nat)
    requires a <= b
    ensures a * w <= b * w
  {
  }

  lemma CutBounds(w: nat, h: nat, k: nat)
    requires w > 0 && k < Product(w, h)
    ensures k % w < w && k / w < h
  {
    var q, r := k / w, k % w;
    assert k == q * w + r;
    if q >= h {
      MulMono(h, q, w);
      assert false;
    }
  }

  lemma DivModIndex(w: nat, x: nat, y: nat)
    requires x < w
    ensures Index(w, x, y) / w == y && Index(w, x, y) % w == x
  {
    var k := Index(w, x, y);
    var q, r := k / w, k % w;
    assert k == q * w + r;
    if q < y {
      MulMono(q + 1, y, w);
      assert false;
    } else if q > y {
      MulMono(y + 1, q, w);
      assert false;
    }
  }

  lemma CutShowsTheFrame(logical: Frame, r: Rect, p: Point)
    requires Within(r, logical) && r.Has(p)
    ensures p in logical && At(Cut(logical, r), r, p) == logical[p]
  {
    IndexInRange(r.Width(), r.Height(), p.x - r.x0, p.y - r.y0);
    DivModIndex(r.Width(), p.x - r.x0, p.y - r.y0);
  }

  /** Flushes the rectangles in order. */
  function Flush(f: Frame, rot: Rotation, res: Resolution, logical: Frame, rects: seq<Rect>): Frame
    requires forall r | r in rects :: Within(r, logical)
  {
    if rects == [] then f
    else
      var last := rects[|rects| - 1];
      Show(Flush(f, rot, res, logical, rects[..|rects| - 1]), rot, res, last, Cut(logical, last))
  }

  predicate Covered(rects: seq<Rect>, p: Point) {
    exists i :: 0 <= i < |rects| && rects[i].Has(p)
  }

  /** However the rectangles overlap: a covered pixel shows the logical frame, any other pixel is
      untouched. */
  lemma {:induction false} FlushShowsTheFrame(
    f: Frame, rot: Rotation, res: Resolution, logical: Frame, rects: seq<Rect>, q: Point)
    requires forall r | r in rects :: Within(r, logical)
    requires q in f
    ensures var p, g := Unrotate(rot, res, q), Flush(f, rot, res, logical, rects);
      && g.Keys == f.Keys
      && if Covered(rects, p) then p in logical && g[q] == logical[p] else g[q] == f[q]
  {
    hide Cut, At, Within, Unrotate;
    if rects != [] {
      var init, last := rects[..|rects| - 1], rects[|rects| - 1];
      FlushShowsTheFrame(f, rot, res, logical, init, q);
      var p := Unrotate(rot, res, q);
      if last.Has(p) {
        assert Covered(rects, p);
        CutShowsTheFrame(logical, last, p);
      } else {
        assert Covered(rects, p) == Covered(init, p);
      }
    }
  }

  /** All points of a width-by-height display. */
  function Points(w: nat, h: nat): set<Point> {
    set x, y | 0 <= x < w && 0 <= y < h :: Point(x, y)
  }

  /** The frame a display shows when a logical frame is rotated onto it. */
  function RotateFrame(rot: Rotation, res: Resolution, logical: Frame): Frame {
    map q | q in (set p | p in logical :: Rotate(rot, res, p)) ::
      RotateIsABijection(rot, res, Unrotate(rot, res, q));
      logical[Unrotate(rot, res, q)]
  }

  /** Any cover of the whole logical frame leaves the rotated frame on the panel. */
  lemma FullCoverRotatesTheFrame(f: Frame, rot: Rotation, res: Resolution, logical: Frame, rects: seq<Rect>)
    requires rot == Rotate90 || rot == Rotate270
    requires res.h >= 0 && res.v >= 0
    requires f.Keys == Points(res.h, res.v) && logical.Keys == Points(res.v, res.h)
    requires forall r | r in rects :: Within(r, logical)
    requires forall p | p in logical :: Covered(rects, p)
    ensures Flush(f, rot, res, logical, rects) == RotateFrame(rot, res, logical)
  {
    hide Flush, RotateFrame;
    FlushKeys(f, rot, res, logical, rects);
    forall q: Point
      ensures q in f <==> q in RotateFrame(rot, res, logical)
      ensures q in f ==> Flush(f, rot, res, logical, rects)[q] == RotateFrame(rot, res, logical)[q]
    {
      RotateFrameAt(rot, res, logical, q);
      if q in f {
        FlushShowsTheFrame(f, rot, res, logical, rects, q);
      }
    }
  }

  lemma {:induction false} FlushKeys(f: Frame, rot: Rotation, res: Resolution, logical: Frame, rects: seq<Rect>)
    requires forall r | r in rects :: Within(r, logical)
    ensures Flush(f, rot, res, logical, rects).Keys == f.Keys
  {
    if rects != [] {
      FlushKeys(f, rot, res, logical, rects[..|rects| - 1]);
    }
  }

  lemma RotateFrameAt(rot: Rotation, res: Resolution, logical: Frame, q: Point)
    ensures q in RotateFrame(rot, res, logical) <==> Unrotate(rot, res, q) in logical
    ensures q in RotateFrame(rot, res, logical) ==>
              RotateFrame(rot, res, logical)[q] == logical[Unrotate(rot, res, q)]
  {
    RotateIsABijection(rot, res, q);
  }

  /** On a square panel the two quarter turns undo each other. */
  lemma QuarterTurnsUndoEachOther(there: Rotation, back: Rotation, res: Resolution, logical: Frame)
    requires res.h == res.v
    requires (there == Rotate90 && back == Rotate270) || (there == Rotate270 && back == Rotate90)
    ensures RotateFrame(back, res, RotateFrame(there, res, logical)) == logical
  {
    hide RotateFrame;
    var returned := RotateFrame(back, res, RotateFrame(there, res, logical));
    forall q: Point
      ensures q in returned <==> q in logical
      ensures q in returned ==> returned[q] == logical[q]
    {
      TurnAndBackAt(there, back, res, logical, q);
    }
  }

  lemma TurnAndBackAt(there: Rotation, back: Rotation, res: Resolution, logical: Frame, q: Point)
    requires res.h == res.v
    requires (there == Rotate90 && back == Rotate270) || (there == Rotate270 && back == Rotate90)
    ensures var returned := RotateFrame(back, res, RotateFrame(there, res, logical));
      (q in returned <==> q in logical) && (q in returned ==> returned[q] == logical[q])
  {
    hide RotateFrame;
    RotateFrameAt(back, res, RotateFrame(there, res, logical), q);
    RotateFrameAt(there, res, logical, Unrotate(back, res, q));
    assert Unrotate(there, res, Unrotate(back, res, q)) == q;
  }

  /** On any other panel they do not: every pixel lands somewhere else. */
  lemma QuarterTurnsNeedASquarePanel(res: Resolution, p: Point)
    ensures Rotate(Rotate270, res, Rotate(Rotate90, res, p)) == p <==> res.h == res.v
  {
  }
}
