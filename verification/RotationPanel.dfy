/** The rotation-aware panel wrapper of components/esp32_s3_touch_amoled_1_75, with its DMA
    staging: a transfer may read its buffer at any time after it was queued. */
module RotationPanel {
  import opened Frames

  const STAGING_ROWS: nat := 4

  /** A queued bitmap transfer, read from its buffer when it completes. */
  datatype Transfer = Transfer(r: Rect, buf: array<Pixel>, off: nat)
  datatype OptTransfer = NoTransfer | Queued(t: Transfer)

  /** The panel driver. Sending a new command first drains the queue, so at most one transfer is
      outstanding; it completes whenever the hardware gets to it. */
  class Panel {
    var frame: Frame
    var pending: OptTransfer
    /** How many draws it was asked for, and which of them it takes. */
    var draws: nat
    const accepts: nat -> bool

    constructor (frame: Frame, accepts: nat -> bool)
      ensures Valid() && pending.NoTransfer? && this.frame == frame && this.accepts == accepts && draws == 0
    {
      this.frame, pending, draws, this.accepts := frame, NoTransfer, 0, accepts;
    }

    /** A draw was refused since the given count. */
    ghost predicate Refused(since: nat)
      reads this
    {
      exists k: nat | since <= k < draws :: !accepts(k)
    }

    ghost predicate Valid()
      reads this
    {
      pending.Queued? ==> pending.t.off + pending.t.r.Area() <= pending.t.buf.Length
    }

    ghost function Source(): set<object>
      reads this
    {
      if pending.Queued? then {pending.t.buf} else {}
    }

    /** The frame once nothing is outstanding. */
    ghost function Settled(): Frame
      reads this, Source()
      requires Valid()
    {
      if pending.NoTransfer? then frame
      else Blit(frame, pending.t.r, pending.t.buf[pending.t.off..pending.t.off + pending.t.r.Area()])
    }

    method Drain()
      requires Valid()
      modifies this
      ensures Valid() && pending.NoTransfer? && Settled() == old(Settled()) && draws == old(draws)
    {
      if pending.Queued? {
        frame := Blit(frame, pending.t.r, pending.t.buf[pending.t.off..pending.t.off + pending.t.r.Area()]);
        pending := NoTransfer;
      }
    }

    /** The hardware may or may not have completed the transfer by now. */
    method Elapse()
      requires Valid()
      modifies this
      ensures Valid() && Settled() == old(Settled()) && draws == old(draws)
      ensures pending == old(pending) || pending.NoTransfer?
    {
      if * {
        Drain();
      }
    }

    /** Drains the queue, then queues the new transfer; the driver may refuse it. */
    method DrawBitmap(r: Rect, buf: array<Pixel>, off: nat) returns (ok: bool)
      requires Valid() && off + r.Area() <= buf.Length
      modifies this
      ensures Valid() && ok == accepts(old(draws)) && draws == old(draws) + 1
      ensures !ok ==> pending.NoTransfer? && frame == old(Settled())
      ensures ok ==> pending == Queued(Transfer(r, buf, off)) && frame == old(Settled())
    {
      Drain();
      ok := accepts(draws);
      draws := draws + 1;
      if ok {
        pending := Queued(Transfer(r, buf, off));
      }
    }
  }

  // ----- turning a bitmap

  /** Row y of the turned bitmap: column y of the source, upwards for 90 degrees. */
  function Row90(src: seq<Pixel>, w: nat, h: nat, y: nat): seq<Pixel>
    requires y < w && |src| >= Product(w, h)
  {
    seq(h, x requires 0 <= x < h => IndexInRange(w, h, y, h - 1 - x); src[Index(w, y, h - 1 - x)])
  }

  /** Row y of the turned bitmap for 270 degrees: column w - 1 - y of the source, downwards. */
  function Row270(src: seq<Pixel>, w: nat, h: nat, y: nat): seq<Pixel>
    requires y < w && |src| >= Product(w, h)
  {
    seq(h, x requires 0 <= x < h => IndexInRange(w, h, w - 1 - y, x); src[Index(w, w - 1 - y, x)])
  }

  function TurnedRow(rot: Rotation, src: seq<Pixel>, w: nat, h: nat, y: nat): seq<Pixel>
    requires y < w && |src| >= Product(w, h)
  {
    if rot == Rotate90 then Row90(src, w, h, y) else Row270(src, w, h, y)
  }

  /** Row y of a bitmap of rows of h pixels. */
  ghost predicate RowIs(dst: seq<Pixel>, h: nat, y: nat, row: seq<Pixel>) {
    y * h + h <= |dst| && dst[y * h..y * h + h] == row
  }

  /** Rows 0 to n of the turned bitmap are in place, each h pixels long. */
  ghost predicate RowsDone(rot: Rotation, src: seq<Pixel>, w: nat, h: nat, dst: seq<Pixel>, n: nat)
    requires n <= w && |src| >= Product(w, h) && |dst| >= Product(w, h)
  {
    forall y: nat | y < n :: RowIs(dst, h, y, TurnedRow(rot, src, w, h, y))
  }

  lemma RowInRange(w: nat, h: nat, y: nat)
    requires y < w
    ensures y * h + h <= Product(w, h)
  {
    MulMono(y + 1, w, h);
  }

  lemma NextRowDone(
    rot: Rotation, src: seq<Pixel>, w: nat, h: nat, before: seq<Pixel>, after: seq<Pixel>, n: nat)
    requires n < w && |src| >= Product(w, h) && |before| == |after| >= Product(w, h)
    requires RowsDone(rot, src, w, h, before, n)
    requires n * h + h <= |after| && after[..n * h] == before[..n * h]
    requires after[n * h..n * h + h] == TurnedRow(rot, src, w, h, n)
    ensures RowsDone(rot, src, w, h, after, n + 1)
  {
    hide TurnedRow, Product;
    assert RowIs(after, h, n, TurnedRow(rot, src, w, h, n));
    hide RowIs;
    forall y: nat | y < n + 1 ensures RowIs(after, h, y, TurnedRow(rot, src, w, h, y)) {
      if y < n {
        EarlierRowKept(before, after, n, y, h, TurnedRow(rot, src, w, h, y));
      }
    }
  }

  lemma EarlierRowKept(before: seq<Pixel>, after: seq<Pixel>, n: nat, y: nat, h: nat, row: seq<Pixel>)
    requires y < n && n * h <= |before| == |after| && after[..n * h] == before[..n * h]
    requires RowIs(before, h, y, row)
    ensures RowIs(after, h, y, row)
  {
    MulMono(y + 1, n, h);
    var i := y * h;
    assert i + h == (y + 1) * h;
    SamePrefixSameSlice(before, after, n * h, i, i + h);
  }

  lemma SamePrefixSameSlice(a: seq<Pixel>, b: seq<Pixel>, k: nat, i: nat, j: nat)
    requires i <= j <= k <= |a| && k <= |b| && a[..k] == b[..k]
    ensures a[i..j] == b[i..j]
  {
    assert a[..k][i..j] == a[i..j] && b[..k][i..j] == b[i..j];
  }

  lemma SameSuffixSameSlice(a: seq<Pixel>, b: seq<Pixel>, k: nat, i: nat, j: nat)
    requires k <= i <= j <= |a| == |b| && a[k..] == b[k..]
    ensures a[i..j] == b[i..j]
  {
    assert a[k..][i - k..j - k] == a[i..j] && b[k..][i - k..j - k] == b[i..j];
  }

  method RotateRegion90(src: array<Pixel>, dst: array<Pixel>, w: nat, h: nat)
    requires src != dst && src.Length >= Product(w, h) && dst.Length >= Product(w, h)
    modifies dst
    ensures RowsDone(Rotate90, src[..], w, h, dst[..], w)
  {
    for dstY := 0 to w
      invariant RowsDone(Rotate90, src[..], w, h, dst[..], dstY)
    {
      RowInRange(w, h, dstY);
      ghost var before := dst[..];
      for dstX := 0 to h
        invariant dst[..dstY * h] == before[..dstY * h]
        invariant forall x | 0 <= x < dstX :: dst[dstY * h + x] == Row90(src[..], w, h, dstY)[x]
      {
        IndexInRange(w, h, dstY, h - 1 - dstX);
        dst[dstY * h + dstX] := src[Index(w, dstY, h - 1 - dstX)];
      }
      assert dst[dstY * h..dstY * h + h] == Row90(src[..], w, h, dstY);
      NextRowDone(Rotate90, src[..], w, h, before, dst[..], dstY);
    }
  }

  method RotateRegion270(src: array<Pixel>, dst: array<Pixel>, w: nat, h: nat)
    requires src != dst && src.Length >= Product(w, h) && dst.Length >= Product(w, h)
    modifies dst
    ensures RowsDone(Rotate270, src[..], w, h, dst[..], w)
  {
    for dstY := 0 to w
      invariant RowsDone(Rotate270, src[..], w, h, dst[..], dstY)
    {
      RowInRange(w, h, dstY);
      var srcX := w - 1 - dstY;
      ghost var before := dst[..];
      for dstX := 0 to h
        invariant dst[..dstY * h] == before[..dstY * h]
        invariant forall x | 0 <= x < dstX :: dst[dstY * h + x] == Row270(src[..], w, h, dstY)[x]
      {
        IndexInRange(w, h, srcX, dstX);
        dst[dstY * h + dstX] := src[Index(w, srcX, dstX)];
      }
      assert dst[dstY * h..dstY * h + h] == Row270(src[..], w, h, dstY);
      NextRowDone(Rotate270, src[..], w, h, before, dst[..], dstY);
    }
  }

  /** The rows written by either loop are the rotated rectangle. */
  lemma RowsDoneIsTurned(rot: Rotation, res: Resolution, r: Rect, src: seq<Pixel>, dst: seq<Pixel>)
    requires (rot == Rotate90 || rot == Rotate270) && !r.Empty()
    requires |src| >= r.Area() && |dst| >= r.Area()
    requires RowsDone(rot, src, r.Width(), r.Height(), dst, r.Width())
    ensures IsTurned(rot, res, r, src, dst)
  {
    RotatedArea(rot, res, r);
    forall p: Point | r.Has(p)
      ensures RotatedRect(rot, res, r).Has(Rotate(rot, res, p))
      ensures At(dst, RotatedRect(rot, res, r), Rotate(rot, res, p)) == At(src, r, p)
    {
      TurnedPixelFromRow(rot, res, r, src, dst, p);
    }
  }

  /** Column and row of the turned pixel, and the source pixel its row takes from there. */
  lemma TurnedPosition(rot: Rotation, res: Resolution, r: Rect, p: Point)
    requires (rot == Rotate90 || rot == Rotate270) && r.Has(p)
    ensures var t, q := RotatedRect(rot, res, r), Rotate(rot, res, p);
      var x, y := q.x - t.x0, q.y - t.y0;
      && t.Has(q) && t.Width() == r.Height() && 0 <= x < r.Height() && 0 <= y < r.Width()
      && (rot == Rotate90 ==> p.x - r.x0 == y && p.y - r.y0 == r.Height() - 1 - x)
      && (rot == Rotate270 ==> p.x - r.x0 == r.Width() - 1 - y && p.y - r.y0 == x)
  {
  }

  lemma TurnedRowAt(rot: Rotation, src: seq<Pixel>, w: nat, h: nat, x: nat, y: nat)
    requires (rot == Rotate90 || rot == Rotate270) && x < h && y < w && |src| >= Product(w, h)
    ensures var sx, sy := if rot == Rotate90 then y else w - 1 - y, if rot == Rotate90 then h - 1 - x else x;
      && |TurnedRow(rot, src, w, h, y)| == h && Index(w, sx, sy) < |src|
      && TurnedRow(rot, src, w, h, y)[x] == src[Index(w, sx, sy)]
  {
    IndexInRange(w, h, y, h - 1 - x);
    IndexInRange(w, h, w - 1 - y, x);
  }

  lemma DoneRowAt(rot: Rotation, src: seq<Pixel>, w: nat, h: nat, dst: seq<Pixel>, x: nat, y: nat)
    requires (rot == Rotate90 || rot == Rotate270) && x < h && y < w
    requires |src| >= Product(w, h) && |dst| >= Product(w, h) && RowsDone(rot, src, w, h, dst, w)
    ensures Index(h, x, y) < |dst| && x < |TurnedRow(rot, src, w, h, y)|
    ensures dst[Index(h, x, y)] == TurnedRow(rot, src, w, h, y)[x]
  {
    hide TurnedRow, Product;
    TurnedRowAt(rot, src, w, h, x, y);
    assert RowIs(dst, h, y, TurnedRow(rot, src, w, h, y));
    assert dst[y * h..y * h + h][x] == dst[y * h + x];
  }

  lemma TurnedPixelFromRow(rot: Rotation, res: Resolution, r: Rect, src: seq<Pixel>, dst: seq<Pixel>, p: Point)
    requires (rot == Rotate90 || rot == Rotate270) && r.Has(p)
    requires |src| >= r.Area() && |dst| >= r.Area() && |dst| >= RotatedRect(rot, res, r).Area()
    requires RowsDone(rot, src, r.Width(), r.Height(), dst, r.Width())
    ensures RotatedRect(rot, res, r).Has(Rotate(rot, res, p))
    ensures At(dst, RotatedRect(rot, res, r), Rotate(rot, res, p)) == At(src, r, p)
  {
    hide TurnedRow, RowsDone, RotatedRect, Rotate, Index, Product;
    var t, q := RotatedRect(rot, res, r), Rotate(rot, res, p);
    TurnedPosition(rot, res, r, p);
    DoneRowAt(rot, src, r.Width(), r.Height(), dst, q.x - t.x0, q.y - t.y0);
    TurnedRowAt(rot, src, r.Width(), r.Height(), q.x - t.x0, q.y - t.y0);
  }

  // ----- staged drawing

  /** The first n rows of a rectangle. */
  function TopRows(r: Rect, n: int): Rect {
    Rect(r.x0, r.y0, r.x1, r.y0 + n)
  }

  lemma TopArea(r: Rect, n: nat)
    requires !r.Empty() && n <= r.Height()
    ensures TopRows(r, n).Area() == n * r.Width() <= r.Area()
  {
    MulMono(n, r.Height(), r.Width());
    if n > 0 {
      assert TopRows(r, n).Area() == Product(r.Width(), n) == n * r.Width();
    }
  }

  /** Writing the next rows after the top ones is writing them all. */
  lemma BlitNextRows(f: Frame, r: Rect, src: seq<Pixel>, y: nat, rows: nat, part: seq<Pixel>)
    requires !r.Empty() && 0 < rows && y + rows <= r.Height() && |src| >= r.Area()
    requires y * r.Width() + rows * r.Width() <= |src|
    requires part == src[y * r.Width()..y * r.Width() + rows * r.Width()]
    ensures TopRows(r, y).Area() <= |src| && TopRows(r, y + rows).Area() <= |src|
    ensures var chunk := Rect(r.x0, r.y0 + y, r.x1, r.y0 + y + rows);
      chunk.Area() == |part| &&
      Blit(Blit(f, TopRows(r, y), src), chunk, part) == Blit(f, TopRows(r, y + rows), src)
  {
    TopArea(r, y);
    TopArea(r, y + rows);
    var w := r.Width();
    var chunk := ChunkRect(r, y, rows);
    assert chunk.Area() == Product(w, rows) == rows * w;
    forall p | p in f && chunk.Has(p)
      ensures At(part, chunk, p) == At(src, TopRows(r, y + rows), p)
    {
      PartIndex(w, rows, y, p.x - r.x0, p.y - r.y0 - y);
    }
  }

  lemma PartIndex(w: nat, rows: nat, y: nat, x: nat, dy: nat)
    requires x < w && dy < rows
    ensures Index(w, x, dy) < rows * w && Index(w, x, y + dy) == y * w + Index(w, x, dy)
  {
    IndexInRange(w, rows, x, dy);
    assert (y + dy) * w == y * w + dy * w;
  }

  function ChunkRect(r: Rect, y: int, rows: int): Rect {
    Rect(r.x0, r.y0 + y, r.x1, r.y0 + y + rows)
  }

  lemma BlitNothing(f: Frame, r: Rect, src: seq<Pixel>)
    ensures TopRows(r, 0).Area() == 0 && Blit(f, TopRows(r, 0), src) == f
  {
  }

  lemma BlitPrefix(f: Frame, r: Rect, src: seq<Pixel>)
    requires |src| >= r.Area()
    ensures Blit(f, r, src[..r.Area()]) == Blit(f, r, src)
  {
    forall p | p in f && r.Has(p)
      ensures At(src[..r.Area()], r, p) == At(src, r, p)
    {
      IndexInRange(r.Width(), r.Height(), p.x - r.x0, p.y - r.y0);
    }
  }

  lemma BlitIsShow(f: Frame, rot: Rotation, res: Resolution, r: Rect, src: seq<Pixel>)
    requires rot != Rotate90 && rot != Rotate270 && |src| >= r.Area()
    ensures Blit(f, r, src) == Show(f, rot, res, r, src)
  {
  }

  /** The logical pixels behind the first n rows sent to the panel: the top rows of an unrotated draw, the
      columns from the left at 90 degrees, from the right at 270. */
  function SentPart(rot: Rotation, r: Rect, n: int): Rect {
    match rot
    case Rotate90 => Rect(r.x0, r.y0, r.x0 + n, r.y1)
    case Rotate270 => Rect(r.x1 - n, r.y0, r.x1, r.y1)
    case _ => TopRows(r, n)
  }

  lemma TopRowsAt(r: Rect, n: nat, src: seq<Pixel>, q: Point)
    requires n <= r.Height() && |src| >= r.Area() && TopRows(r, n).Has(q)
    ensures r.Has(q) && TopRows(r, n).Area() <= r.Area() && At(src, TopRows(r, n), q) == At(src, r, q)
  {
    TopArea(r, n);
  }

  lemma SentRowsAreThePart(rot: Rotation, res: Resolution, r: Rect, n: nat, q: Point)
    requires n <= RotatedRect(rot, res, r).Height()
    ensures var p := Unrotate(rot, res, q);
      TopRows(RotatedRect(rot, res, r), n).Has(q) <==> r.Has(p) && SentPart(rot, r, n).Has(p)
  {
    RotatedRectIsTheImage(rot, res, r, q);
  }

  /** Rows of the turned bitmap are columns of the logical draw. */
  lemma TopRowsShowThePart(
    f: Frame, rot: Rotation, res: Resolution, r: Rect, src: seq<Pixel>, dst: seq<Pixel>, n: nat)
    requires |src| >= r.Area() && |dst| >= r.Area() && IsTurned(rot, res, r, src, dst)
    requires !r.Empty() && n <= RotatedRect(rot, res, r).Height()
    ensures |dst| >= TopRows(RotatedRect(rot, res, r), n).Area()
    ensures Blit(f, TopRows(RotatedRect(rot, res, r), n), dst) ==
            ShowPart(f, rot, res, r, SentPart(rot, r, n), src)
  {
    hide SentPart, RotatedRect, IsTurned, At;
    var turned := RotatedRect(rot, res, r);
    RotatedArea(rot, res, r);
    RotatedIsNotEmpty(rot, res, r);
    TopArea(turned, n);
    forall q | q in f
      ensures Blit(f, TopRows(turned, n), dst)[q] == ShowPart(f, rot, res, r, SentPart(rot, r, n), src)[q]
    {
      SentRowsAreThePart(rot, res, r, n, q);
      if TopRows(turned, n).Has(q) {
        TopRowsAt(turned, n, dst, q);
        TurnedPixel(rot, res, r, src, dst, q);
      }
    }
  }

  lemma RotatedIsNotEmpty(rot: Rotation, res: Resolution, r: Rect)
    ensures RotatedRect(rot, res, r).Empty() <==> r.Empty()
  {
  }

  lemma TurnedPixel(rot: Rotation, res: Resolution, r: Rect, src: seq<Pixel>, dst: seq<Pixel>, q: Point)
    requires |src| >= r.Area() && |dst| >= r.Area() && IsTurned(rot, res, r, src, dst)
    requires r.Has(Unrotate(rot, res, q))
    ensures |dst| >= RotatedRect(rot, res, r).Area() && RotatedRect(rot, res, r).Has(q)
    ensures At(dst, RotatedRect(rot, res, r), q) == At(src, r, Unrotate(rot, res, q))
  {
    RotatedArea(rot, res, r);
    RotateIsABijection(rot, res, q);
  }

  /** An unrotated bitmap is its own turned bitmap. */
  lemma UnturnedIsTurned(rot: Rotation, res: Resolution, r: Rect, src: seq<Pixel>)
    requires rot != Rotate90 && rot != Rotate270 && |src| >= r.Area()
    ensures IsTurned(rot, res, r, src, src)
  {
  }

  lemma NoPartShown(f: Frame, rot: Rotation, res: Resolution, r: Rect, src: seq<Pixel>)
    requires |src| >= r.Area()
    ensures ShowPart(f, rot, res, r, SentPart(rot, r, 0), src) == f
  {
  }

  /** A refused draw stops after some of its rows and shows exactly those. */
  ghost predicate Stopped(f0: Frame, f: Frame, rot: Rotation, res: Resolution, r: Rect, src: seq<Pixel>)
    requires |src| >= r.Area()
  {
    exists n: nat :: (n == 0 || n < RotatedRect(rot, res, r).Height())
      && f == ShowPart(f0, rot, res, r, SentPart(rot, r, n), src)
  }

  lemma RowsFit(r: Rect, y: nat, rows: nat)
    requires !r.Empty() && 0 < rows <= STAGING_ROWS && y + rows <= r.Height()
    ensures y * r.Width() + rows * r.Width() <= r.Area()
    ensures rows * r.Width() <= STAGING_ROWS * r.Width()
    ensures ChunkRect(r, y, rows).Area() == rows * r.Width()
  {
    var w := r.Width();
    MulMono(y + rows, r.Height(), w);
    MulMono(rows, STAGING_ROWS, w);
    assert (y + rows) * w == y * w + rows * w;
    assert Product(w, rows) == rows * w;
  }

  /** Everything the staging code relies on about one chunk of a draw. */
  predicate ChunkFits(r: Rect, y: int, rows: int, pixels: nat) {
    && !r.Empty() && 0 <= y && 0 < rows <= STAGING_ROWS
    && y * r.Width() + rows * r.Width() <= pixels
    && rows * r.Width() <= STAGING_ROWS * r.Width()
    && ChunkRect(r, y, rows).Area() == rows * r.Width()
  }

  /** The pixels of a chunk. */
  function ChunkPixels(src: seq<Pixel>, r: Rect, y: int, rows: int): seq<Pixel>
    requires ChunkFits(r, y, rows, |src|)
  {
    src[y * r.Width()..y * r.Width() + rows * r.Width()]
  }

  lemma NextChunk(f0: Frame, r: Rect, src: seq<Pixel>, y: nat, rows: nat)
    requires !r.Empty() && 0 < rows <= STAGING_ROWS && y + rows <= r.Height() && |src| >= r.Area()
    ensures ChunkFits(r, y, rows, |src|)
    ensures TopRows(r, y).Area() <= |src| && TopRows(r, y + rows).Area() <= |src|
    ensures var part := ChunkPixels(src, r, y, rows);
      && |part| >= ChunkRect(r, y, rows).Area()
      && Blit(Blit(f0, TopRows(r, y), src), ChunkRect(r, y, rows), part) == Blit(f0, TopRows(r, y + rows), src)
  {
    hide Blit;
    RowsFit(r, y, rows);
    BlitNextRows(f0, r, src, y, rows, src[y * r.Width()..y * r.Width() + rows * r.Width()]);
  }

  /** Pixel k lies in the given half of the staging buffer of a draw of this width. */
  predicate InHalf(half: nat, width: nat, k: nat) {
    half * (STAGING_ROWS * width) <= k < (half + 1) * (STAGING_ROWS * width)
  }

  /** Why a flush has to complete before the next one starts: the halves of the staging buffer
      depend on the width, so a transfer left over from a draw of width w1 shares pixels with the
      half the next draw, of width w2, fills first exactly when the widths differ the wrong way. */
  lemma LeftoverTransferCollides(w1: nat, w2: nat, next: nat)
    requires w1 > 0 && w2 > 0 && next < 2
    ensures (exists k: nat :: InHalf(1 - next, w1, k) && InHalf(next, w2, k))
            <==> if next == 0 then w2 > w1 else w1 > w2
  {
    if next == 0 && w2 > w1 {
      assert InHalf(1 - next, w1, STAGING_ROWS * w1) && InHalf(next, w2, STAGING_ROWS * w1);
    }
    if next == 1 && w1 > w2 {
      assert InHalf(1 - next, w1, STAGING_ROWS * w2) && InHalf(next, w2, STAGING_ROWS * w2);
    }
  }

  datatype EspErr = Ok | InvalidArg | NoMem | DrawFailed

  /** What a flush meets: where its bitmaps live, and whether the two buffers can be allocated. */
  datatype Conditions = Conditions(inPsram: bool, rotatedInPsram: bool, allocates: (bool, bool)) {
    predicate Allocates() { allocates.0 && allocates.1 }
  }

  /** Where the half of the staging buffer begins that is not filled next. */
  function OtherHalf(slot: nat, maxPixels: nat): nat {
    if slot == 0 then maxPixels else 0
  }

  class RotationPanelContext {
    const res: Resolution
    const target: Panel
    var rotation: Rotation
    var stagingBuffer: array?<Pixel>
    var stagingPixels: nat
    var rotatedBuffer: array?<Pixel>
    var rotatedPixels: nat
    var teSyncMode: bool
    var stagingSlot: nat

    ghost predicate Valid()
      reads this, target
    {
      && target.Valid() && stagingSlot < 2
      && (stagingBuffer != null ==> stagingBuffer.Length == stagingPixels)
      && (rotatedBuffer != null ==> rotatedBuffer.Length == rotatedPixels)
      && (stagingBuffer != null ==> stagingBuffer != rotatedBuffer)
    }

    ghost function Buffers(): set<object>
      reads this
    {
      (if stagingBuffer != null then {stagingBuffer} else {}) + (if rotatedBuffer != null then {rotatedBuffer} else {})
    }

    constructor (res: Resolution, target: Panel)
      requires target.Valid()
      ensures Valid() && this.res == res && this.target == target && rotation == Rotate0
      ensures Buffers() == {}
    {
      this.res, this.target := res, target;
      rotation, teSyncMode, stagingSlot := Rotate0, false, 0;
      stagingBuffer, stagingPixels, rotatedBuffer, rotatedPixels := null, 0, null, 0;
    }

    /** Grows the staging buffer if needed; `allocates` is the outcome of the heap allocation. */
    method EnsureBuffer(pixels: nat, allocates: bool) returns (ok: bool)
      requires Valid()
      modifies this`stagingBuffer, this`stagingPixels
      ensures Valid()
      ensures ok <==> allocates || (old(stagingBuffer) != null && old(stagingPixels) >= pixels)
      ensures ok ==> stagingBuffer != null && stagingPixels >= pixels
      ensures !ok ==> stagingBuffer == null
      ensures old(stagingBuffer) != null && old(stagingPixels) >= pixels ==>
                stagingBuffer == old(stagingBuffer) && stagingPixels == old(stagingPixels)
      ensures stagingBuffer != null ==> stagingBuffer == old(stagingBuffer) || fresh(stagingBuffer)
    {
      if stagingPixels >= pixels && stagingBuffer != null {
        return true;
      }
      stagingBuffer, stagingPixels := null, 0;
      if allocates {
        stagingBuffer := new Pixel[pixels];
        stagingPixels := pixels;
      }
      return stagingBuffer != null;
    }

    method EnsureRotatedBuffer(pixels: nat, allocates: bool) returns (ok: bool)
      requires Valid()
      modifies this`rotatedBuffer, this`rotatedPixels
      ensures Valid()
      ensures ok <==> allocates || (old(rotatedBuffer) != null && old(rotatedPixels) >= pixels)
      ensures ok ==> rotatedBuffer != null && rotatedPixels >= pixels
      ensures !ok ==> rotatedBuffer == null
      ensures old(rotatedBuffer) != null && old(rotatedPixels) >= pixels ==>
                rotatedBuffer == old(rotatedBuffer) && rotatedPixels == old(rotatedPixels)
      ensures rotatedBuffer != null ==> rotatedBuffer == old(rotatedBuffer) || fresh(rotatedBuffer)
    {
      if rotatedPixels >= pixels && rotatedBuffer != null {
        return true;
      }
      rotatedBuffer, rotatedPixels := null, 0;
      if allocates {
        rotatedBuffer := new Pixel[pixels];
        rotatedPixels := pixels;
      }
      return rotatedBuffer != null;
    }

    /** A transfer still outstanding reads the half of the staging buffer that is not next. */
    ghost predicate OtherHalfOnly(maxPixels: nat)
      reads this, target
    {
      target.pending.Queued? ==>
        && target.pending.t.buf == stagingBuffer
        && target.pending.t.off == OtherHalf(stagingSlot, maxPixels)
        && target.pending.t.r.Area() <= maxPixels
    }

    /** The chunked path: rows are copied into the two halves of the staging buffer in turn, while
        the transfer of the other half may still be outstanding. */
    method DrawChunks(r: Rect, src: array<Pixel>) returns (ok: bool, ghost rowsDrawn: nat)
      requires Valid() && target.pending.NoTransfer? && !r.Empty()
      requires src.Length >= r.Area() && src != stagingBuffer
      requires stagingBuffer != null && stagingPixels >= 2 * (STAGING_ROWS * r.Width())
      modifies this`stagingSlot, target, stagingBuffer
      ensures Valid() && rowsDrawn <= r.Height() && TopRows(r, rowsDrawn).Area() <= src.Length
      ensures ok <==> rowsDrawn == r.Height()
      ensures target.draws >= old(target.draws) && (ok <==> !target.Refused(old(target.draws)))
      ensures ok ==> target.draws == old(target.draws) + (r.Height() + 3) / 4
      ensures target.Settled() == Blit(old(target.frame), TopRows(r, rowsDrawn), src[..])
      ensures target.pending.NoTransfer? || target.pending.t.buf == stagingBuffer
    {
      hide Blit, ChunkFits, ChunkPixels, TopRows, ChunkRect;
      var height := r.Height();
      ghost var f0, pixels := target.frame, src[..];
      var y := 0;
      BlitNothing(f0, r, pixels);
      while y < height
        invariant 0 <= y <= height && Valid()
        invariant src[..] == pixels && TopRows(r, y).Area() <= src.Length
        invariant OtherHalfOnly(STAGING_ROWS * r.Width())
        invariant target.draws >= old(target.draws) && !target.Refused(old(target.draws))
        invariant target.draws == old(target.draws) + (y + 3) / 4 && (y == height || y % 4 == 0)
        invariant target.Settled() == Blit(f0, TopRows(r, y), pixels)
      {
        var rows := if height - y > STAGING_ROWS then STAGING_ROWS else height - y;
        NextChunk(f0, r, pixels, y, rows);
        ChunkCount(y, rows, height);
        var drawn := DrawChunk(r, src, y, rows);
        if !drawn {
          return false, y;
        }
        y := y + rows;
      }
      return true, height;
    }

    static lemma ChunkCount(y: nat, rows: nat, height: nat)
      requires y < height && y % 4 == 0 && rows == if height - y > 4 then 4 else height - y
      ensures (y + rows + 3) / 4 == (y + 3) / 4 + 1 && (y + rows == height || (y + rows) % 4 == 0)
    {
    }

    /** One chunk: whatever the hardware does in the meantime, once everything has settled the frame
        shows the chunk written over what it would have shown before. */
    method DrawChunk(r: Rect, src: array<Pixel>, y: nat, rows: nat) returns (ok: bool)
      requires ChunkFits(r, y, rows, src.Length)
      requires Valid() && OtherHalfOnly(STAGING_ROWS * r.Width())
      requires src != stagingBuffer
      requires stagingBuffer != null && stagingPixels >= 2 * (STAGING_ROWS * r.Width())
      modifies this`stagingSlot, target, stagingBuffer
      ensures Valid() && OtherHalfOnly(STAGING_ROWS * r.Width())
      ensures ok == target.accepts(old(target.draws)) && target.draws == old(target.draws) + 1
      ensures |ChunkPixels(src[..], r, y, rows)| >= ChunkRect(r, y, rows).Area()
      ensures target.Settled() ==
        if ok then Blit(old(target.Settled()), ChunkRect(r, y, rows), ChunkPixels(src[..], r, y, rows))
        else old(target.Settled())
    {
      hide Blit;
      var staging := StageRows(src, y * r.Width(), rows * r.Width(), STAGING_ROWS * r.Width());
      ok := target.DrawBitmap(ChunkRect(r, y, rows), stagingBuffer, staging);
    }

    /** Fills the next half; a transfer of the other half is not disturbed. */
    method StageRows(src: array<Pixel>, from: nat, count: nat, maxPixels: nat) returns (staging: nat)
      requires Valid() && OtherHalfOnly(maxPixels)
      requires src != stagingBuffer && from + count <= src.Length && count <= maxPixels
      requires stagingBuffer != null && stagingPixels >= 2 * maxPixels
      modifies this`stagingSlot, target, stagingBuffer
      ensures Valid() && staging == OtherHalf(stagingSlot, maxPixels)
      ensures staging + count <= stagingBuffer.Length
      ensures stagingBuffer[staging..staging + count] == src[from..from + count]
      ensures target.Settled() == old(target.Settled()) && target.draws == old(target.draws)
    {
      hide Blit, Product;
      target.Elapse();
      staging := if stagingSlot == 1 then maxPixels else 0;
      stagingSlot := 1 - stagingSlot;
      ghost var before := stagingBuffer[..];
      CopyRows(src, from, count, staging);
      if target.pending.Queued? {
        OtherHalfKept(before, stagingBuffer[..], maxPixels, staging, count, target.pending.t);
      }
    }

    /** Copying into one half leaves the bitmap of a transfer in the other half as it was. */
    static lemma OtherHalfKept(
      before: seq<Pixel>, after: seq<Pixel>, maxPixels: nat, staging: nat, copied: nat, t: Transfer)
      requires |before| == |after| >= 2 * maxPixels && copied <= maxPixels && t.r.Area() <= maxPixels
      requires (staging == 0 && t.off == maxPixels) || (staging == maxPixels && t.off == 0)
      requires after[..staging] == before[..staging] && after[staging + copied..] == before[staging + copied..]
      ensures after[t.off..t.off + t.r.Area()] == before[t.off..t.off + t.r.Area()]
    {
      var end := t.off + t.r.Area();
      if staging == 0 {
        SameSuffixSameSlice(before, after, copied, t.off, end);
      } else {
        SamePrefixSameSlice(before, after, staging, t.off, end);
      }
    }

    /** memcpy of some rows into a half of the staging buffer that no transfer is reading. */
    method CopyRows(src: array<Pixel>, from: nat, count: nat, staging: nat)
      requires stagingBuffer != null && src != stagingBuffer
      requires from + count <= src.Length && staging + count <= stagingBuffer.Length
      modifies stagingBuffer
      ensures stagingBuffer[staging..staging + count] == src[from..from + count]
      ensures stagingBuffer[..][..staging] == old(stagingBuffer[..])[..staging]
      ensures stagingBuffer[..][staging + count..] == old(stagingBuffer[..])[staging + count..]
    {
      forall k | 0 <= k < count {
        stagingBuffer[staging + k] := src[from + k];
      }
    }

    /** What a staged draw leaves on the panel: everything, nothing, or the rows drawn before the
        driver refused one. */
    ghost predicate Staged(f0: Frame, r: Rect, pixels: seq<Pixel>, err: EspErr)
      reads this, target, target.Source()
      requires Valid()
    {
      match err
      case Ok => !r.Empty() && |pixels| >= r.Area() && target.Settled() == Blit(f0, r, pixels)
      case InvalidArg => r.Empty() && target.Settled() == f0
      case NoMem => !r.Empty() && target.Settled() == f0
      case DrawFailed =>
        !r.Empty() && exists n: nat | n < r.Height() ::
          TopRows(r, n).Area() <= |pixels| && target.Settled() == Blit(f0, TopRows(r, n), pixels)
    }

    /** Draws through the staging buffer, in chunks if the source cannot be handed to DMA. */
    method DrawStaged(r: Rect, src: array<Pixel>, srcInPsram: bool, allocates: bool) returns (err: EspErr)
      requires Valid() && target.pending.NoTransfer?
      requires src.Length >= r.Area() && src != stagingBuffer
      modifies this`stagingBuffer, this`stagingPixels, this`stagingSlot, target
      modifies if stagingBuffer != null then {stagingBuffer} else {}
      ensures Valid() && src[..] == old(src[..])
      ensures stagingBuffer != null ==> stagingBuffer == old(stagingBuffer) || fresh(stagingBuffer)
      ensures Staged(old(target.frame), r, src[..], err)
      ensures target.draws >= old(target.draws) && (err == DrawFailed <==> target.Refused(old(target.draws)))
      ensures allocates ==> err != NoMem
      ensures (err == InvalidArg <==> r.x1 <= r.x0 || r.y1 <= r.y0)
      ensures var chunks := if (teSyncMode || srcInPsram) && r.Height() > 4 then (r.Height() + 3) / 4 else 1;
        err == Ok ==> target.draws == old(target.draws) + chunks
    {
      hide Blit;
      var width, height := r.Width(), r.Height();
      if width <= 0 || height <= 0 {
        return InvalidArg;
      }
      var useChunked := (teSyncMode || srcInPsram) && height > STAGING_ROWS;
      if useChunked {
        var ensured := EnsureBuffer(STAGING_ROWS * width * 2, allocates);
        if !ensured {
          return NoMem;
        }
        var drawn, rowsDrawn := DrawChunks(r, src);
        assert TopRows(r, height) == r;
        if !drawn {
          assert rowsDrawn < r.Height();
          return DrawFailed;
        }
        return Ok;
      }
      err := DrawWhole(r, src, allocates);
    }

    method DrawWhole(r: Rect, src: array<Pixel>, allocates: bool) returns (err: EspErr)
      requires Valid() && target.pending.NoTransfer? && !r.Empty()
      requires src.Length >= r.Area() && src != stagingBuffer
      modifies this`stagingBuffer, this`stagingPixels, target
      modifies if stagingBuffer != null then {stagingBuffer} else {}
      ensures Valid() && src[..] == old(src[..])
      ensures stagingBuffer != null ==> stagingBuffer == old(stagingBuffer) || fresh(stagingBuffer)
      ensures Staged(old(target.frame), r, src[..], err)
      ensures target.draws >= old(target.draws) && (err == DrawFailed <==> target.Refused(old(target.draws)))
      ensures allocates ==> err != NoMem
      ensures err == Ok ==> target.draws == old(target.draws) + 1
    {
      hide Blit;
      var pixels := r.Area();
      var ensured := EnsureBuffer(pixels, allocates);
      if !ensured {
        return NoMem;
      }
      forall k | 0 <= k < pixels {
        stagingBuffer[k] := src[k];
      }
      BlitPrefix(target.frame, r, src[..]);
      assert stagingBuffer[0..0 + pixels] == src[..][..pixels];
      var drawn := target.DrawBitmap(r, stagingBuffer, 0);
      if !drawn {
        BlitNothing(target.frame, r, src[..]);
        return DrawFailed;
      }
      return Ok;
    }

    /** What draw_bitmap leaves on the panel once it settles: the logical draw, nothing, or the part of it
        that was sent before the driver refused. */
    ghost predicate Drawn(f0: Frame, r: Rect, pixels: seq<Pixel>, err: EspErr)
      reads this, target, target.Source()
      requires Valid() && |pixels| >= r.Area()
    {
      match err
      case Ok => target.Settled() == Show(f0, rotation, res, r, pixels)
      case InvalidArg => r.Empty() && target.Settled() == f0
      case NoMem => target.Settled() == f0
      case DrawFailed => Stopped(f0, target.Settled(), rotation, res, r, pixels)
    }

    /** A staged draw of the turned bitmap draws the logical one. */
    lemma StagedIsDrawn(f0: Frame, r: Rect, src: seq<Pixel>, dst: seq<Pixel>, err: EspErr)
      requires Valid() && |src| >= r.Area() && |dst| >= r.Area()
      requires IsTurned(rotation, res, r, src, dst)
      requires Staged(f0, RotatedRect(rotation, res, r), dst, err)
      ensures Drawn(f0, r, src, err)
    {
      hide Blit, Show, ShowPart, IsTurned, RotatedRect, SentPart;
      RotatedIsNotEmpty(rotation, res, r);
      TurnedBlitIsShow(f0, rotation, res, r, src, dst);
      if err.DrawFailed? {
        var n: nat :| n < RotatedRect(rotation, res, r).Height()
          && TopRows(RotatedRect(rotation, res, r), n).Area() <= |dst|
          && target.Settled() == Blit(f0, TopRows(RotatedRect(rotation, res, r), n), dst);
        TopRowsShowThePart(f0, rotation, res, r, src, dst, n);
      }
    }

    /** The draw_bitmap of the wrapper: LVGL calls it with one flush rectangle at a time, once the
        previous flush has completed. */
    method DrawBitmap(r: Rect, color: array<Pixel>, inPsram: bool, rotatedInPsram: bool, allocates: (bool, bool))
      returns (err: EspErr)
      requires Valid() && target.pending.NoTransfer?
      requires color.Length >= r.Area() && color != stagingBuffer && color != rotatedBuffer
      modifies this, target, Buffers()
      ensures Valid() && rotation == old(rotation) && color[..] == old(color[..])
      ensures fresh(Buffers() - old(Buffers()))
      ensures Drawn(old(target.frame), r, color[..], err)
      ensures target.draws >= old(target.draws) && (err == DrawFailed <==> target.Refused(old(target.draws)))
      ensures allocates.0 && allocates.1 ==> err != NoMem
      ensures if inPsram || rotation in {Rotate90, Rotate270} then (err == InvalidArg <==> r.x1 <= r.x0 || r.y1 <= r.y0)
              else err in {Ok, DrawFailed}
    {
      hide Blit, Show, ShowPart, Staged, Drawn, IsTurned, RotatedRect, SentPart;
      if rotation != Rotate90 && rotation != Rotate270 {
        err := DrawUnrotated(r, color, inPsram, allocates.1);
      } else {
        err := DrawRotated(r, color, rotatedInPsram, allocates);
      }
    }

    method DrawUnrotated(r: Rect, color: array<Pixel>, inPsram: bool, allocates: bool) returns (err: EspErr)
      requires Valid() && target.pending.NoTransfer? && rotation != Rotate90 && rotation != Rotate270
      requires color.Length >= r.Area() && color != stagingBuffer
      modifies this`stagingBuffer, this`stagingPixels, this`stagingSlot, target
      modifies if stagingBuffer != null then {stagingBuffer} else {}
      ensures Valid() && color[..] == old(color[..])
      ensures stagingBuffer != null ==> stagingBuffer == old(stagingBuffer) || fresh(stagingBuffer)
      ensures Drawn(old(target.frame), r, color[..], err)
      ensures target.draws >= old(target.draws) && (err == DrawFailed <==> target.Refused(old(target.draws)))
      ensures allocates ==> err != NoMem
      ensures if inPsram then (err == InvalidArg <==> r.x1 <= r.x0 || r.y1 <= r.y0) else err in {Ok, DrawFailed}
    {
      hide Blit, Show, ShowPart, Staged, IsTurned, SentPart;
      ghost var f0, pixels := target.frame, color[..];
      if inPsram {
        err := DrawStaged(r, color, true, allocates);
        UnturnedIsTurned(rotation, res, r, pixels);
        StagedIsDrawn(f0, r, pixels, pixels, err);
        return;
      }
      BlitIsShow(f0, rotation, res, r, pixels);
      BlitPrefix(f0, r, pixels);
      assert color[0..0 + r.Area()] == pixels[..r.Area()];
      var drawn := target.DrawBitmap(r, color, 0);
      NoPartShown(f0, rotation, res, r, pixels);
      return if drawn then Ok else DrawFailed;
    }

    method DrawRotated(r: Rect, color: array<Pixel>, rotatedInPsram: bool, allocates: (bool, bool))
      returns (err: EspErr)
      requires Valid() && target.pending.NoTransfer? && (rotation == Rotate90 || rotation == Rotate270)
      requires color.Length >= r.Area() && color != stagingBuffer && color != rotatedBuffer
      modifies this, target, Buffers()
      ensures Valid() && rotation == old(rotation) && color[..] == old(color[..])
      ensures fresh(Buffers() - old(Buffers()))
      ensures Drawn(old(target.frame), r, color[..], err)
      ensures target.draws >= old(target.draws) && (err == DrawFailed <==> target.Refused(old(target.draws)))
      ensures allocates.0 && allocates.1 ==> err != NoMem
      ensures (err == InvalidArg <==> r.x1 <= r.x0 || r.y1 <= r.y0)
    {
      hide Blit, Show, ShowPart, Staged, IsTurned, RotatedRect, SentPart, RowsDone;
      if r.Empty() {
        return InvalidArg;
      }
      RotatedArea(rotation, res, r);
      ghost var f0, pixels := target.frame, color[..];
      var ensured := EnsureRotatedBuffer(r.Area(), allocates.0);
      if !ensured {
        return NoMem;
      }
      if rotation == Rotate90 {
        RotateRegion90(color, rotatedBuffer, r.Width(), r.Height());
      } else {
        RotateRegion270(color, rotatedBuffer, r.Width(), r.Height());
      }
      ghost var turned := rotatedBuffer[..];
      RowsDoneIsTurned(rotation, res, r, pixels, turned);
      err := DrawStaged(RotatedRect(rotation, res, r), rotatedBuffer, rotatedInPsram, allocates.1);
      StagedIsDrawn(f0, r, pixels, turned, err);
    }

    // ----- refreshing the display

    /** LVGL's refresh: the rectangles of a logical frame are drawn in turn, each after the flush before it
        has completed, up to the first one that fails. */
    method FlushAll(logical: Frame, rects: seq<Rect>, given: seq<Conditions>) returns (err: EspErr, done: nat)
      requires Valid() && target.pending.NoTransfer? && |given| == |rects|
      requires forall k :: 0 <= k < |rects| ==> Within(rects[k], logical)
      modifies this, target, Buffers()
      ensures Valid() && target.pending.NoTransfer? && rotation == old(rotation)
      ensures fresh(Buffers() - old(Buffers()))
      ensures done <= |rects| && (err == Ok <==> done == |rects|)
      ensures forall k :: 0 <= k < |rects| ==> Within(rects[k], logical)
      ensures var shown := Flush(old(target.frame), rotation, res, logical, rects[..done]);
        match err
        case Ok => target.frame == Flush(old(target.frame), rotation, res, logical, rects)
        case InvalidArg => rects[done].Empty() && target.frame == shown
        case NoMem => target.frame == shown && !given[done].Allocates()
        case DrawFailed => Stopped(shown, target.frame, rotation, res, rects[done], Cut(logical, rects[done]))
      ensures target.draws >= old(target.draws) && (err == DrawFailed <==> target.Refused(old(target.draws)))
    {
      hide Show, Flush, Cut, Within, Stopped, RotatedRect;
      ghost var f0 := target.frame;
      done := 0;
      err := Ok;
      assert Flush(f0, rotation, res, logical, rects[..0]) == f0 by { FlushNothing(f0, rotation, res, logical); }
      while done < |rects|
        invariant Valid() && target.pending.NoTransfer? && rotation == old(rotation)
        invariant fresh(Buffers() - old(Buffers()))
        invariant err == Ok && done <= |rects| && target.frame == Flush(f0, rotation, res, logical, rects[..done])
        invariant target.draws >= old(target.draws) && !target.Refused(old(target.draws))
      {
        var r := rects[done];
        FlushNext(f0, rotation, res, logical, rects, done);
        err := FlushOne(logical, r, given[done]);
        if err != Ok {
          return;
        }
        done := done + 1;
      }
      assert rects[..done] == rects;
    }

    /** One flush: the bitmap of the rectangle is drawn, and the panel settles before the next one. */
    method FlushOne(logical: Frame, r: Rect, given: Conditions) returns (err: EspErr)
      requires Valid() && target.pending.NoTransfer? && Within(r, logical)
      modifies this, target, Buffers()
      ensures Valid() && target.pending.NoTransfer? && rotation == old(rotation)
      ensures fresh(Buffers() - old(Buffers()))
      ensures Drawn(old(target.frame), r, Cut(logical, r), err)
      ensures target.draws >= old(target.draws) && (err == DrawFailed <==> target.Refused(old(target.draws)))
      ensures given.Allocates() ==> err != NoMem
    {
      hide Show, Cut, Within, Stopped, RotatedRect;
      var bitmap := Cut(logical, r);
      var color := new Pixel[|bitmap|](k requires 0 <= k < |bitmap| => bitmap[k]);
      assert color[..] == bitmap;
      err := DrawBitmap(r, color, given.inPsram, given.rotatedInPsram, given.allocates);
      target.Drain();
    }

    /** A refresh that covers the logical frame leaves exactly the rotated frame on the panel; it succeeds
        whenever memory is there and the driver takes the draws. */
    method Refresh(logical: Frame, rects: seq<Rect>, given: seq<Conditions>) returns (err: EspErr)
      requires Valid() && target.pending.NoTransfer? && (rotation == Rotate90 || rotation == Rotate270)
      requires res.h >= 0 && res.v >= 0 && |given| == |rects|
      requires target.frame.Keys == Points(res.h, res.v) && logical.Keys == Points(res.v, res.h)
      requires forall k :: 0 <= k < |rects| ==> Within(rects[k], logical)
      requires forall p | p in logical :: Covered(rects, p)
      modifies this, target, Buffers()
      ensures Valid() && target.pending.NoTransfer?
      ensures err == Ok ==> target.frame == RotateFrame(rotation, res, logical)
      ensures (forall k :: 0 <= k < |rects| ==> !rects[k].Empty() && given[k].Allocates())
              && (forall k: nat | old(target.draws) <= k :: target.accepts(k))
              ==> err == Ok
    {
      hide Flush, Cut, Within, RotateFrame, Points, Covered, Stopped;
      ghost var f0 := target.frame;
      var done;
      err, done := FlushAll(logical, rects, given);
      FullCoverRotatesTheFrame(f0, rotation, res, logical, rects);
    }
  }

  lemma FlushNothing(f: Frame, rot: Rotation, res: Resolution, logical: Frame)
    ensures Flush(f, rot, res, logical, []) == f
  {
  }

  lemma FlushNext(f: Frame, rot: Rotation, res: Resolution, logical: Frame, rects: seq<Rect>, n: nat)
    requires n < |rects| && forall k :: 0 <= k < |rects| ==> Within(rects[k], logical)
    ensures Flush(f, rot, res, logical, rects[..n + 1]) ==
            Show(Flush(f, rot, res, logical, rects[..n]), rot, res, rects[n], Cut(logical, rects[n]))
  {
    hide Show, Cut, Within;
    assert rects[..n + 1][..n] == rects[..n];
  }
}
