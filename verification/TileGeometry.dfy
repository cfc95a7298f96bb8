// Frames, tiles, how a tile is clipped against its frame, and which transfers a load request
// issues, with and without reuse of a previous tile.

module TileGeometry {
  import opened Dma
  import opened Options
  import opened Grids

  datatype Padding = ZeroPadding | ConstantPadding | EdgePadding

  /** A frame in system memory; `pitch` is framePitch * pixelRes and `pixWidth` pixelRes * numChannels. */
  datatype Frame = Frame(data: int, width: nat, height: nat, pitch: int, pixWidth: nat,
                         padLeft: nat, padRight: nat, padTop: nat, padBottom: nat,
                         padding: Padding, paddingVal: nat)
  {
    function Col(x: int): int { Times(x, pixWidth) }

    function Grid(): Grid { Grids.Grid(data, pitch, 0) }

    // The padded frame: what is in memory and may be read.
    function Extent(): Box { Box(0, 1, 0 - padTop, height + padBottom, Col(0 - padLeft), Col(width + padRight)) }

    predicate HasPixel(y: int, x: int) { 0 - padTop <= y < height + padBottom && 0 - padLeft <= x < width + padRight }
  }

  /** The fields of a tile that place it over its frame and in local memory. */
  datatype Place = Place(frame: Frame, x: int, y: int, width: nat, height: nat,
                         edgeLeft: nat, edgeRight: nat, edgeTop: nat, edgeBottom: nat,
                         pitch: int, data: int, bufLo: int, bufHi: int)
  {
    function X0(): int { x - edgeLeft }
    function X1(): int { x + (width - 1) + edgeRight }
    function Y0(): int { y - edgeTop }
    function Y1(): int { y + (height - 1) + edgeBottom }

    // The address of the tile's first byte, edges included.
    function EdgePtr(): int { data - (Times(edgeTop, pitch) + frame.Col(edgeLeft)) }

    function Grid(): Grid { Grids.Grid(EdgePtr() - Times(Y0(), pitch) - frame.Col(X0()), pitch, 0) }

    function Extent(): Box { Box(0, 1, Y0(), Y1() + 1, frame.Col(X0()), frame.Col(X1() + 1)) }

    function XSpan(): Span { Clip(X0(), X1(), frame.padLeft, frame.width, frame.padRight) }

    function YSpan(): Span { Clip(Y0(), Y1(), frame.padTop, frame.height, frame.padBottom) }

    // Some pixel of the tile lies in the padded frame.
    predicate Meets() { XSpan().a <= XSpan().b && YSpan().a <= YSpan().b }

    // The part of the tile that is loaded from the frame.
    function Clipped(): Box { Box(0, 1, YSpan().a, YSpan().b + 1, frame.Col(XSpan().a), frame.Col(XSpan().b + 1)) }

    // XV_TILE_IS_CONSISTENT
    predicate Consistent() {
      && pitch >= frame.Col(width + edgeLeft + edgeRight)
      && EdgePtr() >= bufLo
      && data - frame.Col(edgeLeft) + Times(height + edgeBottom, pitch) <= bufHi
    }
  }

  /** One axis of a tile clipped against the padded frame: positions a..b and what is missing on each side. */
  datatype Span = Span(a: int, b: int, extraLo: int, extraHi: int)

  function Clip(first: int, last: int, padLo: nat, size: nat, padHi: nat): Span {
    var lo, hi := 0 - padLo, size - 1 + padHi;
    var a := if first > size + padHi then size + padHi else first;
    var extraLo := if a < lo then lo - a else 0;
    var a' := if a < lo then lo else a;
    var b := if last < lo then lo - 1 else last;
    var extraHi := if b > hi then b - hi else 0;
    var b' := if b > hi then hi else b;
    Span(a', b', extraLo, extraHi)
  }

  // The clipped span is the intersection, it is empty exactly when tile and padded frame do not meet,
  // and when they meet the three parts add up to the tile.
  lemma ClipIsIntersection(first: int, last: int, padLo: nat, size: nat, padHi: nat, p: int)
    requires first <= last && size > 0
    ensures var s := Clip(first, last, padLo, size, padHi);
            && (s.a <= p <= s.b <==> first <= p <= last && 0 - padLo <= p < size + padHi)
            && (s.a <= s.b <==> first < size + padHi && 0 - padLo <= last)
            && (s.a <= s.b ==> s.extraLo + (s.b - s.a + 1) + s.extraHi == last - first + 1
                               && s.a == first + s.extraLo && s.b == last - s.extraHi
                               && s.a == (if first < 0 - padLo then 0 - padLo else first)
                               && s.b == (if last > size - 1 + padHi then size - 1 + padHi else last))
  {
  }

  /** A queued transfer, with the box it covers and whether it reads the previous tile. */
  datatype Op = Op(desc: Desc, fromPrev: bool, box: Box)

  function Copy2D(dst: int, src: int, rowSize: int, rows: int, srcPitch: int, dstPitch: int): Desc {
    Desc(dst, src, if rowSize < 0 then 0 else rowSize, if rows < 0 then 0 else rows, srcPitch, dstPitch, 1, 0, 0)
  }

  function RowsBox(f: Frame, y1: int, y2: int, x1: int, x2: int): Box {
    Box(0, 1, y1, y2 + 1, f.Col(x1), f.Col(x2 + 1))
  }

  // The pieces of rows y1..y2 that solveForX requests: left of the previous tile, shared with it, right of it.
  function LeftOp(f: Frame, pCurr: int, y1: int, y2: int, x1: int, px1: int, tp: int): Op {
    Op(Copy2D(pCurr, f.data + Times(y1, f.pitch) + f.Col(x1), f.Col(px1 - x1), y2 - y1 + 1, f.pitch, tp), false,
       RowsBox(f, y1, y2, x1, px1 - 1))
  }

  function SharedOp(f: Frame, dst: int, src: int, y1: int, y2: int, first: int, last: int, tp: int, ptp: int): Op {
    Op(Copy2D(dst, src, f.Col(last - first + 1), y2 - y1 + 1, ptp, tp), true, RowsBox(f, y1, y2, first, last))
  }

  function RightOp(f: Frame, pCurr: int, y1: int, y2: int, x1: int, x2: int, px2: int, tp: int): Op {
    Op(Copy2D(pCurr + f.Col(px2 - x1 + 1), f.data + Times(y1, f.pitch) + f.Col(px2 + 1), f.Col(x2 - px2), y2 - y1 + 1,
              f.pitch, tp),
       false, RowsBox(f, y1, y2, px2 + 1, x2))
  }

  // Rows y1..y2, all of which the previous tile holds in columns px1..px2.
  function SolveForX(f: Frame, pCurr: int, pPrev: int, y1: int, y2: int, x1: int, x2: int, px1: int, px2: int,
                     tp: int, ptp: int): seq<Op>
  {
    (if px1 <= x1 && px2 < x2 then
      [SharedOp(f, pCurr, pPrev + f.Col(x1 - px1), y1, y2, x1, px2, tp, ptp),
       RightOp(f, pCurr, y1, y2, x1, x2, px2, tp)]
    else [])
    + (if x1 < px1 && px2 < x2 then
      [LeftOp(f, pCurr, y1, y2, x1, px1, tp), SharedOp(f, pCurr + f.Col(px1 - x1), pPrev, y1, y2, px1, px2, tp, ptp),
       RightOp(f, pCurr, y1, y2, x1, x2, px2, tp)]
    else [])
    + (if x1 < px1 && x2 <= px2 then
      [LeftOp(f, pCurr, y1, y2, x1, px1, tp), SharedOp(f, pCurr + f.Col(px1 - x1), pPrev, y1, y2, px1, x2, tp, ptp)]
    else [])
    + (if px1 <= x1 && x2 <= px2 then
      [SharedOp(f, pCurr, pPrev + f.Col(x1 - px1), y1, y2, x1, x2, tp, ptp)]
    else [])
  }

  // Rows y1..y2 from the frame.
  function RowsOp(f: Frame, dst: int, src: int, y1: int, y2: int, x1: int, x2: int, tp: int): Op {
    Op(Copy2D(dst, src, f.Col(x2 - x1 + 1), y2 - y1 + 1, f.pitch, tp), false, RowsBox(f, y1, y2, x1, x2))
  }

  function BelowOp(f: Frame, dst: int, y1: int, y2: int, x1: int, x2: int, py2: int, tp: int): Op {
    RowsOp(f, dst + Times(py2 + 1 - y1, tp), f.data + (Times(py2 + 1, f.pitch) + f.Col(x1)), py2 + 1, y2, x1, x2, tp)
  }

  predicate Independent(q: Place, y1: int, y2: int, x1: int, x2: int) {
    q.Y1() < y1 || q.Y0() > y2 || q.X1() < x1 || q.X0() > x2
  }

  // Load rows y1..y2 and columns x1..x2, taking what the previous tile holds from it.
  function ReuseOps(f: Frame, prev: Option<Place>, dst: int, src: int, y1: int, y2: int, x1: int, x2: int,
                    tp: int): seq<Op> {
    match prev
    case None => [RowsOp(f, dst, src, y1, y2, x1, x2, tp)]
    case Some(q) =>
      var py1, py2, px1, px2, pPrev := q.Y0(), q.Y1(), q.X0(), q.X1(), q.EdgePtr();
      if Independent(q, y1, y2, x1, x2) then [RowsOp(f, dst, src, y1, y2, x1, x2, tp)]
      else
        (if py1 <= y1 && py2 < y2 then
          [BelowOp(f, dst, y1, y2, x1, x2, py2, tp)]
          + SolveForX(f, dst, pPrev + Times(y1 - py1, q.pitch), y1, py2, x1, x2, px1, px2, tp, q.pitch)
        else [])
        + (if y1 < py1 && py2 < y2 then
          // one row more than needed: row py1 is fetched here and overwritten by the overlapping part
          [RowsOp(f, dst, src, y1, py1, x1, x2, tp), BelowOp(f, dst, y1, y2, x1, x2, py2, tp)]
          + SolveForX(f, dst + Times(py1 - y1, tp), pPrev, py1, py2, x1, x2, px1, px2, tp, q.pitch)
        else [])
        + (if y1 < py1 && y2 <= py2 then
          [RowsOp(f, dst, src, y1, py1 - 1, x1, x2, tp)]
          + SolveForX(f, dst + Times(py1 - y1, tp), pPrev, py1, y2, x1, x2, px1, px2, tp, q.pitch)
        else [])
        + (if py1 <= y1 && y2 <= py2 then
          SolveForX(f, dst, pPrev + Times(y1 - py1, q.pitch), y1, y2, x1, x2, px1, px2, tp, q.pitch)
        else [])
  }

  // The transfers that load a tile meeting its frame.
  function LoadOps(p: Place, prev: Option<Place>): seq<Op> {
    var f, x1, x2, y1, y2 := p.frame, p.XSpan().a, p.XSpan().b, p.YSpan().a, p.YSpan().b;
    ReuseOps(f, prev, p.EdgePtr() + Times(p.YSpan().extraLo, p.pitch) + f.Col(p.XSpan().extraLo),
             f.data + (Times(y1, f.pitch) + f.Col(x1)), y1, y2, x1, x2, p.pitch)
  }

  // `op` copies its box, part of `clip`, from the frame, or from the previous tile, to the same coordinates of grid
  // `t`.
  ghost predicate Delivers(f: Frame, t: Grid, clip: Box, prev: Option<Place>, op: Op) {
    && op.box.NonEmpty() && op.box.Within(clip)
    && (op.fromPrev ==> prev.Some? && op.box.Within(prev.value.Extent()))
    && op.desc == BoxDesc(t, if op.fromPrev then prev.value.Grid() else f.Grid(), op.box)
  }

  ghost predicate AllDeliver(f: Frame, t: Grid, clip: Box, prev: Option<Place>, ops: seq<Op>) {
    forall op :: op in ops ==> Delivers(f, t, clip, prev, op)
  }

  // Every byte of `b` arrives with some operation.
  ghost predicate Cover(ops: seq<Op>, b: Box) {
    forall y, c :: b.Has(0, y, c) ==> Arrives(ops, y, c)
  }

  ghost predicate Arrives(ops: seq<Op>, y: int, c: int) {
    exists op :: op in ops && op.box.Has(0, y, c)
  }

  lemma TileAddress(p: Place, y: int, x: int)
    ensures p.EdgePtr() + Times(y - p.Y0(), p.pitch) + p.frame.Col(x - p.X0()) == p.Grid().At(0, y, p.frame.Col(x))
  {
    TimesAdd(p.Y0(), y - p.Y0(), p.pitch);
    TimesAdd(p.X0(), x - p.X0(), p.frame.pixWidth);
  }

  lemma ColOrder(f: Frame, a: int, b: int)
    requires a <= b
    ensures f.Col(a) <= f.Col(b) && f.Col(b) - f.Col(a) == f.Col(b - a)
  {
    if a < b { TimesMonotone(a, b, f.pixWidth); }
    TimesAdd(a, b - a, f.pixWidth);
  }

  // A transfer that starts at the tile's and the frame's address of (y1, x1) and has the size of the rectangle.
  lemma FrameOpDelivers(f: Frame, t: Grid, Y1: int, Y2: int, X1: int, X2: int, prev: Option<Place>,
                        dst: int, src: int, w: int, y1: int, y2: int, x1: int, x2: int)
    requires Y1 <= y1 <= y2 <= Y2 && X1 <= x1 <= x2 <= X2 && f.pixWidth > 0
    requires dst == t.At(0, y1, f.Col(x1)) && src == f.Grid().At(0, y1, f.Col(x1)) && w == f.Col(x2 - x1 + 1)
             && t.plane == 0
    ensures Delivers(f, t, RowsBox(f, Y1, Y2, X1, X2), prev,
                     Op(Copy2D(dst, src, w, y2 - y1 + 1, f.pitch, t.pitch), false, RowsBox(f, y1, y2, x1, x2)))
  {
    ColOrder(f, x1, x2 + 1); ColOrder(f, X1, x1); ColOrder(f, x2 + 1, X2 + 1);
    TimesMonotone(x1, x2 + 1, f.pixWidth);
  }

  lemma SharedOpDelivers(f: Frame, t: Grid, Y1: int, Y2: int, X1: int, X2: int, q: Place,
                         dst: int, src: int, y1: int, y2: int, x1: int, x2: int)
    requires Y1 <= y1 <= y2 <= Y2 && X1 <= x1 <= x2 <= X2 && f.pixWidth > 0
    requires q.frame == f && q.Y0() <= y1 && y2 <= q.Y1() && q.X0() <= x1 && x2 <= q.X1()
    requires dst == t.At(0, y1, f.Col(x1)) && src == q.Grid().At(0, y1, f.Col(x1)) && t.plane == 0
    ensures Delivers(f, t, RowsBox(f, Y1, Y2, X1, X2), Some(q), SharedOp(f, dst, src, y1, y2, x1, x2, t.pitch, q.pitch))
  {
    ColOrder(f, x1, x2 + 1); ColOrder(f, X1, x1); ColOrder(f, x2 + 1, X2 + 1);
    ColOrder(f, q.X0(), x1); ColOrder(f, x2 + 1, q.X1() + 1);
    TimesMonotone(x1, x2 + 1, f.pixWidth);
  }

  // The pieces of solveForX, and rows fetched from the frame, each start at the right addresses.
  lemma LeftOpDelivers(f: Frame, t: Grid, Y1: int, Y2: int, X1: int, X2: int, prev: Option<Place>, pCurr: int, y1: int,
                       y2: int, px1: int)
    requires Y1 <= y1 <= y2 <= Y2 && X1 < px1 <= X2 + 1 && f.pixWidth > 0 && pCurr == t.At(0, y1, f.Col(X1))
             && t.plane == 0
    ensures Delivers(f, t, RowsBox(f, Y1, Y2, X1, X2), prev, LeftOp(f, pCurr, y1, y2, X1, px1, t.pitch))
  {
    FrameOpDelivers(f, t, Y1, Y2, X1, X2, prev, pCurr, f.data + Times(y1, f.pitch) + f.Col(X1), f.Col(px1 - X1), y1,
                    y2, X1, px1 - 1);
  }

  lemma RightOpDelivers(f: Frame, t: Grid, Y1: int, Y2: int, X1: int, X2: int, prev: Option<Place>, pCurr: int,
                        y1: int, y2: int, px2: int)
    requires Y1 <= y1 <= y2 <= Y2 && X1 <= px2 < X2 && f.pixWidth > 0 && pCurr == t.At(0, y1, f.Col(X1)) && t.plane == 0
    ensures Delivers(f, t, RowsBox(f, Y1, Y2, X1, X2), prev, RightOp(f, pCurr, y1, y2, X1, X2, px2, t.pitch))
  {
    ColOrder(f, X1, px2 + 1);
    FrameOpDelivers(f, t, Y1, Y2, X1, X2, prev, pCurr + f.Col(px2 - X1 + 1),
                    f.data + Times(y1, f.pitch) + f.Col(px2 + 1), f.Col(X2 - px2),
                    y1, y2, px2 + 1, X2);
  }

  // The four cases of solveForX exclude each other and leave nothing out: exactly the pieces that exist are requested.
  lemma SolveForXCases(f: Frame, pCurr: int, pPrev: int, y1: int, y2: int, x1: int, x2: int, px1: int, px2: int,
                       tp: int, ptp: int)
    requires x1 <= x2 && px1 <= px2 && px1 <= x2 && x1 <= px2
    ensures var first, last := if px1 <= x1 then x1 else px1, if px2 < x2 then px2 else x2;
            SolveForX(f, pCurr, pPrev, y1, y2, x1, x2, px1, px2, tp, ptp) ==
              (if x1 < px1 then [LeftOp(f, pCurr, y1, y2, x1, px1, tp)] else [])
              + [SharedOp(f, pCurr + f.Col(first - x1), pPrev + f.Col(first - px1), y1, y2, first, last, tp, ptp)]
              + (if px2 < x2 then [RightOp(f, pCurr, y1, y2, x1, x2, px2, tp)] else [])
  {
  }

  lemma SolveForXDelivers(f: Frame, t: Grid, Y1: int, Y2: int, X1: int, X2: int, q: Place, pCurr: int, pPrev: int,
                          y1: int, y2: int)
    requires Y1 <= y1 <= y2 <= Y2 && X1 <= X2 && t.plane == 0 && f.pixWidth > 0
    requires q.frame == f && q.Y0() <= y1 && y2 <= q.Y1() && q.X0() <= q.X1() && q.X0() <= X2 && X1 <= q.X1()
    requires pCurr == t.At(0, y1, f.Col(X1)) && pPrev == q.Grid().At(0, y1, f.Col(q.X0()))
    ensures AllDeliver(f, t, RowsBox(f, Y1, Y2, X1, X2), Some(q),
                       SolveForX(f, pCurr, pPrev, y1, y2, X1, X2, q.X0(), q.X1(), t.pitch, q.pitch))
  {
    var px1, px2 := q.X0(), q.X1();
    var first, last := if px1 <= X1 then X1 else px1, if px2 < X2 then px2 else X2;
    ColOrder(f, X1, first); ColOrder(f, px1, first);
    if X1 < px1 { LeftOpDelivers(f, t, Y1, Y2, X1, X2, Some(q), pCurr, y1, y2, px1); }
    SharedOpDelivers(f, t, Y1, Y2, X1, X2, q, pCurr + f.Col(first - X1), pPrev + f.Col(first - px1), y1, y2, first,
                     last);
    if px2 < X2 { RightOpDelivers(f, t, Y1, Y2, X1, X2, Some(q), pCurr, y1, y2, px2); }
    SolveForXAll(op => Delivers(f, t, RowsBox(f, Y1, Y2, X1, X2), Some(q), op), f, pCurr, pPrev, y1, y2, X1, X2, px1,
                 px2, t.pitch, q.pitch);
  }

  // What holds of the pieces holds of every requested transfer.
  lemma SolveForXAll(P: Op -> bool, f: Frame, pCurr: int, pPrev: int, y1: int, y2: int, x1: int, x2: int, px1: int,
                     px2: int, tp: int, ptp: int)
    requires x1 <= x2 && px1 <= px2 && px1 <= x2 && x1 <= px2
    requires x1 < px1 ==> P(LeftOp(f, pCurr, y1, y2, x1, px1, tp))
    requires var first, last := if px1 <= x1 then x1 else px1, if px2 < x2 then px2 else x2;
             P(SharedOp(f, pCurr + f.Col(first - x1), pPrev + f.Col(first - px1), y1, y2, first, last, tp, ptp))
    requires px2 < x2 ==> P(RightOp(f, pCurr, y1, y2, x1, x2, px2, tp))
    ensures forall op :: op in SolveForX(f, pCurr, pPrev, y1, y2, x1, x2, px1, px2, tp, ptp) ==> P(op)
  {
    SolveForXCases(f, pCurr, pPrev, y1, y2, x1, x2, px1, px2, tp, ptp);
  }

  lemma SolveForXCovers(f: Frame, pCurr: int, pPrev: int, y1: int, y2: int, x1: int, x2: int, px1: int, px2: int,
                        tp: int, ptp: int)
    requires x1 <= x2 && px1 <= px2 && px1 <= x2 && x1 <= px2
    ensures Cover(SolveForX(f, pCurr, pPrev, y1, y2, x1, x2, px1, px2, tp, ptp), RowsBox(f, y1, y2, x1, x2))
  {
    var ops := SolveForX(f, pCurr, pPrev, y1, y2, x1, x2, px1, px2, tp, ptp);
    forall y, c | RowsBox(f, y1, y2, x1, x2).Has(0, y, c) ensures Arrives(ops, y, c) {
      SolveForXCases(f, pCurr, pPrev, y1, y2, x1, x2, px1, px2, tp, ptp);
      var i := if c < f.Col(px1) || px1 <= x1 then 0 else 1;
      var k := if px2 < x2 && f.Col(px2 + 1) <= c then |ops| - 1 else i;
      assert ops[k] in ops && ops[k].box.Has(0, y, c);
    }
  }

  // The five vertical cases exclude each other and leave nothing out: rows above and below the previous tile come
  // from the frame, the rows shared with it go to solveForX.
  lemma ReuseCases(f: Frame, q: Place, dst: int, src: int, y1: int, y2: int, x1: int, x2: int, tp: int)
    requires y1 <= y2 && x1 <= x2 && q.Y0() <= q.Y1() && q.X0() <= q.X1() && !Independent(q, y1, y2, x1, x2)
    ensures var py1, py2 := q.Y0(), q.Y1();
            var first, last := if py1 <= y1 then y1 else py1, if py2 < y2 then py2 else y2;
            ReuseOps(f, Some(q), dst, src, y1, y2, x1, x2, tp) ==
              (if y1 < py1 then [RowsOp(f, dst, src, y1, if py2 < y2 then py1 else py1 - 1, x1, x2, tp)] else [])
              + (if py2 < y2 then [BelowOp(f, dst, y1, y2, x1, x2, py2, tp)] else [])
              + SolveForX(f, dst + Times(first - y1, tp), q.EdgePtr() + Times(first - py1, q.pitch), first, last, x1,
                          x2, q.X0(), q.X1(), tp, q.pitch)
  {
  }

  lemma ReuseAll(P: Op -> bool, f: Frame, q: Place, dst: int, src: int, y1: int, y2: int, x1: int, x2: int, tp: int)
    requires y1 <= y2 && x1 <= x2 && q.Y0() <= q.Y1() && q.X0() <= q.X1() && !Independent(q, y1, y2, x1, x2)
    requires y1 < q.Y0() ==> P(RowsOp(f, dst, src, y1, if q.Y1() < y2 then q.Y0() else q.Y0() - 1, x1, x2, tp))
    requires q.Y1() < y2 ==> P(BelowOp(f, dst, y1, y2, x1, x2, q.Y1(), tp))
    requires var first, last := if q.Y0() <= y1 then y1 else q.Y0(), if q.Y1() < y2 then q.Y1() else y2;
             forall op ::
               op in SolveForX(f, dst + Times(first - y1, tp), q.EdgePtr() + Times(first - q.Y0(), q.pitch), first,
                               last, x1, x2, q.X0(), q.X1(), tp, q.pitch)
               ==> P(op)
    ensures forall op :: op in ReuseOps(f, Some(q), dst, src, y1, y2, x1, x2, tp) ==> P(op)
  {
    hide SolveForX, ReuseOps;
    ReuseCases(f, q, dst, src, y1, y2, x1, x2, tp);
  }

  lemma RowsOpDelivers(f: Frame, t: Grid, prev: Option<Place>, dst: int, src: int, y1: int, y2: int, x1: int, x2: int,
                       last: int)
    requires y1 <= last <= y2 && x1 <= x2 && t.plane == 0 && f.pixWidth > 0 && dst == t.At(0, y1, f.Col(x1))
             && src == f.Grid().At(0, y1, f.Col(x1))
    ensures Delivers(f, t, RowsBox(f, y1, y2, x1, x2), prev, RowsOp(f, dst, src, y1, last, x1, x2, t.pitch))
  {
    FrameOpDelivers(f, t, y1, y2, x1, x2, prev, dst, src, f.Col(x2 - x1 + 1), y1, last, x1, x2);
  }

  lemma BelowOpDelivers(f: Frame, t: Grid, prev: Option<Place>, dst: int, y1: int, y2: int, x1: int, x2: int, py2: int)
    requires y1 <= py2 < y2 && x1 <= x2 && t.plane == 0 && f.pixWidth > 0 && dst == t.At(0, y1, f.Col(x1))
    ensures Delivers(f, t, RowsBox(f, y1, y2, x1, x2), prev, BelowOp(f, dst, y1, y2, x1, x2, py2, t.pitch))
  {
    TimesAdd(y1, py2 + 1 - y1, t.pitch);
    FrameOpDelivers(f, t, y1, y2, x1, x2, prev, dst + Times(py2 + 1 - y1, t.pitch),
                    f.data + (Times(py2 + 1, f.pitch) + f.Col(x1)), f.Col(x2 - x1 + 1),
                    py2 + 1, y2, x1, x2);
  }

  lemma ReuseDelivers(f: Frame, t: Grid, prev: Option<Place>, dst: int, src: int, y1: int, y2: int, x1: int, x2: int)
    requires y1 <= y2 && x1 <= x2 && t.plane == 0 && f.pixWidth > 0 && dst == t.At(0, y1, f.Col(x1))
             && src == f.Grid().At(0, y1, f.Col(x1))
    requires prev.Some? ==>
               prev.value.frame == f && prev.value.X0() <= prev.value.X1() && prev.value.Y0() <= prev.value.Y1()
    ensures AllDeliver(f, t, RowsBox(f, y1, y2, x1, x2), prev, ReuseOps(f, prev, dst, src, y1, y2, x1, x2, t.pitch))
  {
    if prev == None || Independent(prev.value, y1, y2, x1, x2) {
      RowsOpDelivers(f, t, prev, dst, src, y1, y2, x1, x2, y2);
    } else {
      var q := prev.value;
      var first, last := if q.Y0() <= y1 then y1 else q.Y0(), if q.Y1() < y2 then q.Y1() else y2;
      if y1 < q.Y0() {
        RowsOpDelivers(f, t, prev, dst, src, y1, y2, x1, x2, if q.Y1() < y2 then q.Y0() else q.Y0() - 1);
      }
      if q.Y1() < y2 { BelowOpDelivers(f, t, prev, dst, y1, y2, x1, x2, q.Y1()); }
      TimesAdd(y1, first - y1, t.pitch);
      TileAddress(q, first, q.X0());
      SolveForXDelivers(f, t, y1, y2, x1, x2, q, dst + Times(first - y1, t.pitch),
                        q.EdgePtr() + Times(first - q.Y0(), q.pitch), first, last);
      ReuseAll(op => Delivers(f, t, RowsBox(f, y1, y2, x1, x2), prev, op), f, q, dst, src, y1, y2, x1, x2, t.pitch);
    }
  }

  lemma ArrivesConcat(a: seq<Op>, b: seq<Op>, y: int, c: int)
    ensures Arrives(a + b, y, c) <==> Arrives(a, y, c) || Arrives(b, y, c)
  {
    if Arrives(a, y, c) {
      var op :| op in a && op.box.Has(0, y, c);
      assert op in a + b;
    }
    if Arrives(b, y, c) {
      var op :| op in b && op.box.Has(0, y, c);
      assert op in a + b;
    }
  }

  lemma ArrivesAlone(op: Op, y: int, c: int)
    requires op.box.Has(0, y, c)
    ensures Arrives([op], y, c)
  {
    assert op in [op];
  }

  lemma ReuseCovers(f: Frame, prev: Option<Place>, dst: int, src: int, y1: int, y2: int, x1: int, x2: int, tp: int)
    requires y1 <= y2 && x1 <= x2
    requires prev.Some? ==> prev.value.X0() <= prev.value.X1() && prev.value.Y0() <= prev.value.Y1()
    ensures Cover(ReuseOps(f, prev, dst, src, y1, y2, x1, x2, tp), RowsBox(f, y1, y2, x1, x2))
  {
    hide SolveForX;
    var ops, whole := ReuseOps(f, prev, dst, src, y1, y2, x1, x2, tp), RowsBox(f, y1, y2, x1, x2);
    forall y, c | whole.Has(0, y, c) ensures Arrives(ops, y, c) {
      if prev == None || Independent(prev.value, y1, y2, x1, x2) {
        ArrivesAlone(ops[0], y, c);
      } else {
        var q := prev.value;
        var first, last := if q.Y0() <= y1 then y1 else q.Y0(), if q.Y1() < y2 then q.Y1() else y2;
        var above :=
          if y1 < q.Y0() then [RowsOp(f, dst, src, y1, if q.Y1() < y2 then q.Y0() else q.Y0() - 1, x1, x2, tp)] else [];
        var below := if q.Y1() < y2 then [BelowOp(f, dst, y1, y2, x1, x2, q.Y1(), tp)] else [];
        var pCurr, pPrev := dst + Times(first - y1, tp), q.EdgePtr() + Times(first - q.Y0(), q.pitch);
        var shared := SolveForX(f, pCurr, pPrev, first, last, x1, x2, q.X0(), q.X1(), tp, q.pitch);
        ReuseCases(f, q, dst, src, y1, y2, x1, x2, tp);
        ArrivesConcat(above + below, shared, y, c);
        ArrivesConcat(above, below, y, c);
        if y < first {
          ArrivesAlone(above[0], y, c);
        } else if y > last {
          ArrivesAlone(below[0], y, c);
        } else {
          SolveForXCovers(f, pCurr, pPrev, first, last, x1, x2, q.X0(), q.X1(), tp, q.pitch);
        }
      }
    }
  }

  // With or without a previous tile, the transfers of a load deliver the frame's bytes into the clipped rectangle
  // and nowhere else, and together they reach every byte of it.
  lemma LoadOpsDeliver(p: Place, prev: Option<Place>)
    requires p.Meets() && p.width > 0 && p.height > 0 && p.frame.width > 0 && p.frame.height > 0 && p.frame.pixWidth > 0
    requires prev.Some? ==> prev.value.frame == p.frame && prev.value.width > 0 && prev.value.height > 0
    ensures AllDeliver(p.frame, p.Grid(), p.Clipped(), prev, LoadOps(p, prev)) && Cover(LoadOps(p, prev), p.Clipped())
  {
    hide Clip, ReuseOps, Delivers;
    var f, x, y := p.frame, p.XSpan(), p.YSpan();
    ClipIsIntersection(p.X0(), p.X1(), f.padLeft, f.width, f.padRight, x.a);
    ClipIsIntersection(p.Y0(), p.Y1(), f.padTop, f.height, f.padBottom, y.a);
    TileAddress(p, y.a, x.a);
    var dst, src :=
      p.EdgePtr() + Times(y.extraLo, p.pitch) + f.Col(x.extraLo), f.data + (Times(y.a, f.pitch) + f.Col(x.a));
    ReuseDelivers(f, p.Grid(), prev, dst, src, y.a, y.b, x.a, x.b);
    ReuseCovers(f, prev, dst, src, y.a, y.b, x.a, x.b, p.pitch);
  }

  // Some byte the tile loads lies in the previous tile too.
  ghost predicate Shares(p: Place, q: Place) {
    exists y, c :: p.Clipped().Has(0, y, c) && q.Extent().Has(0, y, c)
  }

  // The comparisons of the code say whether the two tiles share a byte.
  lemma IndependentSharesNothing(p: Place, q: Place)
    requires p.Meets() && q.width > 0 && q.height > 0 && p.frame == q.frame && p.frame.pixWidth > 0
    ensures Independent(q, p.YSpan().a, p.YSpan().b, p.XSpan().a, p.XSpan().b) <==> !Shares(p, q)
  {
    var f, x1, x2, y1, y2 := p.frame, p.XSpan().a, p.XSpan().b, p.YSpan().a, p.YSpan().b;
    hide Clip;
    if q.X1() < x1 { ColOrder(f, q.X1() + 1, x1); }
    if q.X0() > x2 { ColOrder(f, x2 + 1, q.X0()); }
    if !Independent(q, y1, y2, x1, x2) {
      var y, x := if y1 < q.Y0() then q.Y0() else y1, if x1 < q.X0() then q.X0() else x1;
      ColOrder(f, x1, x); ColOrder(f, q.X0(), x);
      TimesMonotone(x, x2 + 1, f.pixWidth); TimesMonotone(x, q.X1() + 1, f.pixWidth);
      assert p.Clipped().Has(0, y, f.Col(x)) && q.Extent().Has(0, y, f.Col(x));
    }
  }

  // The last transfer to bring the byte reads the previous tile.
  ghost predicate FromPrevious(ops: seq<Op>, y: int, c: int) {
    exists k :: 0 <= k < |ops| && ops[k].fromPrev && ops[k].box.Has(0, y, c) && !Arrives(ops[k + 1..], y, c)
  }

  lemma FromPreviousIn(before: seq<Op>, op: Op, after: seq<Op>, y: int, c: int)
    requires op.fromPrev && op.box.Has(0, y, c) && !Arrives(after, y, c)
    ensures FromPrevious(before + [op] + after, y, c)
  {
    var ops := before + [op] + after;
    assert ops[|before|] == op && ops[|before| + 1..] == after;
  }

  lemma FromPreviousAfter(before: seq<Op>, ops: seq<Op>, y: int, c: int)
    requires FromPrevious(ops, y, c)
    ensures FromPrevious(before + ops, y, c)
  {
    var k :| 0 <= k < |ops| && ops[k].fromPrev && ops[k].box.Has(0, y, c) && !Arrives(ops[k + 1..], y, c);
    assert (before + ops)[|before| + k] == ops[k] && (before + ops)[|before| + k + 1..] == ops[k + 1..];
  }

  lemma SharedPiece(f: Frame, pCurr: int, pPrev: int, y1: int, y2: int, x1: int, x2: int, px1: int, px2: int, tp: int,
                    ptp: int, y: int, c: int)
    requires x1 <= x2 && px1 <= px2 && px1 <= x2 && x1 <= px2
    requires y1 <= y <= y2 && f.Col(x1) <= c < f.Col(x2 + 1) && f.Col(px1) <= c < f.Col(px2 + 1)
    ensures FromPrevious(SolveForX(f, pCurr, pPrev, y1, y2, x1, x2, px1, px2, tp, ptp), y, c)
  {
    var first, last := if px1 <= x1 then x1 else px1, if px2 < x2 then px2 else x2;
    var left := if x1 < px1 then [LeftOp(f, pCurr, y1, y2, x1, px1, tp)] else [];
    var right := if px2 < x2 then [RightOp(f, pCurr, y1, y2, x1, x2, px2, tp)] else [];
    var shared := SharedOp(f, pCurr + f.Col(first - x1), pPrev + f.Col(first - px1), y1, y2, first, last, tp, ptp);
    SolveForXCases(f, pCurr, pPrev, y1, y2, x1, x2, px1, px2, tp, ptp);
    assert !Arrives(right, y, c);
    assert shared.fromPrev && shared.box.Has(0, y, c);
    hide *;
    FromPreviousIn(left, shared, right, y, c);
  }

  // A byte of the clipped rectangle that lies in a previous tile sharing something with it.
  lemma SharedComesFromPrevious(f: Frame, q: Place, dst: int, src: int, y1: int, y2: int, x1: int, x2: int, tp: int,
                                y: int, c: int)
    requires y1 <= y2 && x1 <= x2 && q.Y0() <= q.Y1() && q.X0() <= q.X1() && !Independent(q, y1, y2, x1, x2)
    requires RowsBox(f, y1, y2, x1, x2).Has(0, y, c) && q.frame == f && q.Extent().Has(0, y, c)
    ensures FromPrevious(ReuseOps(f, Some(q), dst, src, y1, y2, x1, x2, tp), y, c)
  {
    var first, last := if q.Y0() <= y1 then y1 else q.Y0(), if q.Y1() < y2 then q.Y1() else y2;
    var above :=
      if y1 < q.Y0() then [RowsOp(f, dst, src, y1, if q.Y1() < y2 then q.Y0() else q.Y0() - 1, x1, x2, tp)] else [];
    var below := if q.Y1() < y2 then [BelowOp(f, dst, y1, y2, x1, x2, q.Y1(), tp)] else [];
    var pCurr, pPrev := dst + Times(first - y1, tp), q.EdgePtr() + Times(first - q.Y0(), q.pitch);
    ReuseCases(f, q, dst, src, y1, y2, x1, x2, tp);
    SharedPiece(f, pCurr, pPrev, first, last, x1, x2, q.X0(), q.X1(), tp, q.pitch, y, c);
    hide *;
    FromPreviousAfter(above + below, SolveForX(f, pCurr, pPrev, first, last, x1, x2, q.X0(), q.X1(), tp, q.pitch), y,
                      c);
  }

  // A transfer that reads the previous tile brings only bytes that tile has.
  lemma FromPreviousIsHeld(f: Frame, t: Grid, clip: Box, q: Place, ops: seq<Op>, y: int, c: int)
    requires AllDeliver(f, t, clip, Some(q), ops) && FromPrevious(ops, y, c)
    ensures q.Extent().Has(0, y, c)
  {
    hide BoxDesc, Place.Extent, Place.Grid, Frame.Grid;
    var k :| 0 <= k < |ops| && ops[k].fromPrev && ops[k].box.Has(0, y, c);
    assert ops[k] in ops;
    assert Delivers(f, t, clip, Some(q), ops[k]);
  }

  /** The last transfer to bring a byte reads the previous tile if and only if that tile has the byte. */
  lemma ReadsWhatPreviousHas(p: Place, q: Place, y: int, c: int)
    requires p.Meets() && p.width > 0 && p.height > 0 && p.frame.width > 0 && p.frame.height > 0 && p.frame.pixWidth > 0
    requires q.frame == p.frame && q.width > 0 && q.height > 0 && p.Clipped().Has(0, y, c)
    ensures FromPrevious(LoadOps(p, Some(q)), y, c) <==> q.Extent().Has(0, y, c)
  {
    if FromPrevious(LoadOps(p, Some(q)), y, c) {
      LoadOpsDeliver(p, Some(q));
      hide *;
      FromPreviousIsHeld(p.frame, p.Grid(), p.Clipped(), q, LoadOps(p, Some(q)), y, c);
    }
    if q.Extent().Has(0, y, c) { HeldIsFromPrevious(p, q, y, c); }
  }

  lemma HeldIsFromPrevious(p: Place, q: Place, y: int, c: int)
    requires p.Meets() && p.frame.pixWidth > 0 && q.frame == p.frame && q.width > 0 && q.height > 0
    requires p.Clipped().Has(0, y, c) && q.Extent().Has(0, y, c)
    ensures FromPrevious(LoadOps(p, Some(q)), y, c)
  {
    var f, x, s := p.frame, p.XSpan(), p.YSpan();
    assert Shares(p, q);
    IndependentSharesNothing(p, q);
    hide Clip, ReuseOps, Times, FromPrevious, Shares;
    SharedComesFromPrevious(f, q, p.EdgePtr() + Times(s.extraLo, p.pitch) + f.Col(x.extraLo),
                            f.data + (Times(s.a, f.pitch) + f.Col(x.a)), s.a, s.b, x.a, x.b, p.pitch, y, c);
  }

  // The previous tile is read only when it shares pixels with the clipped rectangle.
  lemma IndependentReadsFrameOnly(p: Place, q: Place, op: Op)
    requires Independent(q, p.YSpan().a, p.YSpan().b, p.XSpan().a, p.XSpan().b) && op in LoadOps(p, Some(q))
    ensures !op.fromPrev
  {
  }
}
