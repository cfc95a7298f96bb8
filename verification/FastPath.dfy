// The fast load with xvPadEdges for single-channel tiles over an unpadded frame: which tiles it fills
// as the regular path does, and what goes wrong for the others.

module FastPath {
  import opened Options
  import opened Dma
  import opened Modular
  import opened Grids
  import opened TileGeometry
  import opened TilePadding
  import opened TileRuns
  import opened TileRunsProofs

  // An unpadded frame with pixels of one, two or four bytes, whose rows do not overlap.
  predicate Simple(f: Frame) {
    f.padLeft == 0 && f.padRight == 0 && f.padTop == 0 && f.padBottom == 0 && f.pixWidth in {1, 2, 4}
      && f.pitch >= f.Col(f.width)
  }

  // ---- the transfers of the request ----

  function FastLoad(p: Place): Desc {
    var f, x, y := p.frame, p.XSpan(), p.YSpan();
    TileGeometry.Copy2D(p.EdgePtr() + Times(y.extraLo, p.pitch) + f.Col(x.extraLo),
                        f.data + (Times(y.a, f.pitch) + f.Col(x.a)),
           f.Col(x.b - x.a + 1), y.b - y.a + 1, f.pitch, p.pitch)
  }

  // The rows above, each a copy of the first row of the frame, side edges included.
  function TopDesc(p: Place): Desc {
    var src := p.data - Times(p.edgeTop - p.YSpan().extraLo, p.pitch) - p.frame.Col(p.edgeLeft);
    TileGeometry.Copy2D(src - Times(p.YSpan().extraLo, p.pitch), src, RowWidth(p), p.YSpan().extraLo, 0, p.pitch)
  }

  function BottomDesc(p: Place): Desc {
    var src := p.data - p.frame.Col(p.edgeLeft) + Times(p.height + p.edgeBottom - p.YSpan().extraHi - 1, p.pitch);
    TileGeometry.Copy2D(src + p.pitch, src, RowWidth(p), p.YSpan().extraHi, 0, p.pitch)
  }

  // Memory once the transfers of the fast request are done.
  function FastLoaded(p: Place, m: seq<byte>): seq<byte> {
    var m1 := FastLoad(p).Exec(m);
    var m2 := if p.frame.padding.EdgePadding? && p.YSpan().extraLo > 0 then TopDesc(p).Exec(m1) else m1;
    if p.frame.padding.EdgePadding? && p.YSpan().extraHi > 0 then BottomDesc(p).Exec(m2) else m2
  }

  // ---- xvPadEdges ----

  // As many of the repeated pixel's bytes as one vector store writes.
  function VectorBytes(pixel: seq<byte>, n: nat, vec: nat): (s: seq<byte>)
    ensures |s| <= vec && |s| <= Times(n, |pixel|)
  {
    var all := Repeat(pixel, n);
    if |all| <= vec then all else all[..vec]
  }

  // Columns from xa on, in every row, take the row's pixel.
  function SideFills(p: Place, xa: int, n: nat, vec: nat, pixels: seq<seq<byte>>): seq<Fill> {
    seq(|pixels|,
        r requires 0 <= r < |pixels| => Fill(RowStart(p, p.Y0() + r) + p.frame.Col(xa - p.X0()),
                                             VectorBytes(pixels[r], n, vec)))
  }

  function Rows(p: Place): nat { if p.Y1() < p.Y0() then 0 else p.Y1() - p.Y0() + 1 }

  // One pixel for each row of the tile.
  predicate PerRow(p: Place, pixels: seq<seq<byte>>) {
    |pixels| == Rows(p) && forall r :: 0 <= r < |pixels| ==> |pixels[r]| == p.frame.pixWidth
  }

  // The pixel of column `from` in row r of the tile.
  function SourcePixel(p: Place, m: seq<byte>, from: int, r: int): seq<byte> {
    Pixel(m, RowStart(p, p.Y0() + r) + p.frame.Col(from - p.X0()), p.frame.pixWidth)
  }

  function SourcePixels(p: Place, m: seq<byte>, from: int): seq<seq<byte>> {
    seq(Rows(p), r => SourcePixel(p, m, from, r))
  }

  // For four-byte pixels the right side loads its pixel into one register and stores another: what the left side
  // loaded last, or whatever was there.
  function Register(p: Place, m: seq<byte>, stale: seq<byte>): seq<byte> {
    if p.XSpan().extraLo > 0 then SourcePixel(p, m, p.XSpan().a, p.Y1() - p.Y0()) else stale
  }

  function PadEdgeLeft(p: Place, m: seq<byte>, vec: nat): seq<byte> {
    var n := p.XSpan().extraLo;
    if n <= 0 then m else WriteAll(m, SideFills(p, p.X0(), n, vec, SourcePixels(p, m, p.XSpan().a)))
  }

  // What the right side stores in each row.
  function RightPixels(p: Place, m: seq<byte>, stale: seq<byte>): seq<seq<byte>> {
    if p.frame.pixWidth == 4 then seq(Rows(p), _ => Register(p, m, stale)) else SourcePixels(p, m, p.XSpan().b)
  }

  function PadEdgeRight(p: Place, m: seq<byte>, vec: nat, stale: seq<byte>): seq<byte> {
    var n := p.XSpan().extraHi;
    if n <= 0 then m else WriteAll(m, SideFills(p, p.XSpan().b + 1, n, vec, RightPixels(p, m, stale)))
  }

  // Byte i of the constant: splat by the pixel's own width.
  function FastByte(f: Frame, i: int): byte {
    var v := if f.padding.ConstantPadding? then f.paddingVal else 0;
    if f.pixWidth == 1 then v % 256
    else if f.pixWidth == 2 then (if i % 2 == 1 then v / 256 % 256 else v % 256)
    else if i % 4 == 0 then v % 256 else if i % 4 == 1 then v / 256 % 256 else if i % 4 == 2 then v / 65536 % 256
    else v / 16777216 % 256
  }

  // The constant over rows ya..yb and columns xa..xb.
  function ConstantFills(p: Place, ya: int, yb: int, xa: int, xb: int): seq<Fill> {
    seq(if yb < ya then 0 else yb - ya, r => ConstantRow(p, ya + r, xa, xb))
  }

  function ConstantRow(p: Place, y: int, xa: int, xb: int): Fill {
    var n := p.frame.Col(xb - xa);
    Fill(RowStart(p, y) + p.frame.Col(xa - p.X0()), seq<byte>(if n < 0 then 0 else n, i => FastByte(p.frame, i)))
  }

  function StoreConstant(p: Place, m: seq<byte>, ya: int, yb: int, xa: int, xb: int): (m': seq<byte>)
    ensures |m'| == |m|
  {
    WriteAll(m, ConstantFills(p, ya, yb, xa, xb))
  }

  // Left and right over all rows, then top and bottom over all columns.
  function PadConstant(p: Place, m: seq<byte>): seq<byte> {
    var m1 := StoreConstant(p, m, p.Y0(), p.Y1() + 1, p.X0(), p.XSpan().a);
    var m2 := StoreConstant(p, m1, p.Y0(), p.Y1() + 1, p.XSpan().b + 1, p.X1() + 1);
    var m3 := StoreConstant(p, m2, p.Y0(), p.YSpan().a, p.X0(), p.X1() + 1);
    StoreConstant(p, m3, p.YSpan().b + 1, p.Y1() + 1, p.X0(), p.X1() + 1)
  }

  // The tile after the fast request and xvPadEdges; `vec` is the size of a vector store in bytes.
  function FastTile(p: Place, m: seq<byte>, vec: nat, stale: seq<byte>): seq<byte> {
    var loaded := FastLoaded(p, m);
    if p.frame.padding.EdgePadding? then PadEdgeRight(p, PadEdgeLeft(p, loaded, vec), vec, stale)
    else PadConstant(p, loaded)
  }

  // ---- the load ----

  lemma FastLoadIsLoad(p: Place)
    ensures LoadOps(p, None) ==
              [RowsOp(p.frame, p.EdgePtr() + Times(p.YSpan().extraLo, p.pitch) + p.frame.Col(p.XSpan().extraLo),
                                        p.frame.data + (Times(p.YSpan().a, p.frame.pitch) + p.frame.Col(p.XSpan().a)),
                                        p.YSpan().a, p.YSpan().b, p.XSpan().a, p.XSpan().b, p.pitch)]
    ensures LoadOps(p, None)[0].desc == FastLoad(p)
  {
  }

  // The load brings the clipped rectangle and leaves every other byte.
  lemma FastLoadEffect(p: Place, lo: int, m: seq<byte>)
    requires Safe(p, lo, |m|) && p.Meets()
    ensures var m' := FastLoad(p).Exec(m);
            && Loaded(m', p)
            && (forall y, x, k :: HasPx(p, y, x, k) && !InClip(p, y, x) ==>
                  ByteAt(m', Px(p, y, x, k)) == ByteAt(m, Px(p, y, x, k)))
            && (forall a :: 0 <= a < |m| && OffTile(p, a) ==> m'[a] == m[a])
  {
    var op, m' := LoadOps(p, None)[0], FastLoad(p).Exec(m);
    FastLoadIsLoad(p);
    LoadOpsDeliver(p, None);
    assert op in LoadOps(p, None);
    TransferEffect(p, None, op, lo, m, m');
    OnlyBufferFromOffTile(m, m', p);
    ClippedIsInside(p);
    assert op.box == p.Clipped();
    hide Times, Clip, InSystem, Place.Consistent, OffTile, FastLoad, LoadOps;
    forall y, c | p.Clipped().Has(0, y, c) ensures ByteAt(m', Cell(p, y, c)) == ByteAt(m', FrameCell(p.frame, y, c)) {
      FrameKept(m, m', p, p.frame, lo, y, c);
    }
    LoadedFromCells(m', p);
    forall y, x, k | HasPx(p, y, x, k) && !InClip(p, y, x)
      ensures ByteAt(m', Px(p, y, x, k)) == ByteAt(m, Px(p, y, x, k))
    {
      PxOutsideClip(p, y, x, k);
    }
  }

  lemma PxOutsideClip(p: Place, y: int, x: int, k: int)
    requires HasPx(p, y, x, k) && p.frame.pixWidth > 0
    ensures p.Extent().Has(0, y, p.frame.Col(x) + k) && Cell(p, y, p.frame.Col(x) + k) == Px(p, y, x, k)
    ensures p.Clipped().Has(0, y, p.frame.Col(x) + k) ==> InClip(p, y, x)
  {
    var f, s := p.frame, p.XSpan();
    ColOrder(f, p.X0(), x);
    TimesMonotone(x, p.X1() + 1, f.pixWidth);
    if x < s.a { TimesMonotone(x, s.a, f.pixWidth); } else if x > s.b { ColOrder(f, s.b + 1, x); }
  }

  // ---- rows by transfer ----

  // A transfer that repeats one row of the tile pads rows ya..yb with it.
  lemma RowTransferPads(p: Place, m: seq<byte>, ya: int, yb: int, from: int)
    requires Sound(p) && 0 <= p.bufLo && p.bufHi <= |m| && p.frame.padding.EdgePadding?
    requires p.Y0() <= ya < yb <= p.Y1() + 1 && p.Y0() <= from <= p.Y1() && !(ya <= from < yb)
    ensures var d := TileGeometry.Copy2D(RowStart(p, ya), RowStart(p, from), RowWidth(p), yb - ya, 0, p.pitch);
            d.Safe(|m|) && RowsPadded(p, m, d.Exec(m), ya, yb, from)
  {
    var d := TileGeometry.Copy2D(RowStart(p, ya), RowStart(p, from), RowWidth(p), yb - ya, 0, p.pitch);
    var rows := d.AllRows(1);
    TransferRows(p, |m|, ya, yb, from);
    hide Times, Px, RowStart, RowWidth, Place.Consistent;
    forall y, x, k | HasPx(p, y, x, k)
      ensures ByteAt(d.Exec(m), Px(p, y, x, k)) ==
                if !(ya <= y < yb) then ByteAt(m, Px(p, y, x, k)) else PadValue(p, ByteAt(m, Px(p, from, x, k)), k)
    {
      if ya <= y < yb {
        RowOfTransfer(p, m, d, ya, yb, from, y, x, k);
      } else {
        PxInRow(p, y, x, k);
        OtherRowKept(p, m, d, rows, ya, yb, from, y, Px(p, y, x, k));
      }
    }
    forall a | 0 <= a < |m| && OffTile(p, a) ensures d.Exec(m)[a] == m[a] {
      forall i | 0 <= i < |rows| ensures !(rows[i].dst <= a < rows[i].dst + d.rowSize) { assert !InRow(p, ya + i, a); }
      CopyRowsOutside(m, rows, d.rowSize, a);
    }
  }

  // The rows of the transfer: each of ya..yb from the same row, all in memory and apart.
  lemma TransferRows(p: Place, len: nat, ya: int, yb: int, from: int)
    requires Sound(p) && 0 <= p.bufLo && p.bufHi <= len
    requires p.Y0() <= ya < yb <= p.Y1() + 1 && p.Y0() <= from <= p.Y1() && !(ya <= from < yb)
    ensures var d := TileGeometry.Copy2D(RowStart(p, ya), RowStart(p, from), RowWidth(p), yb - ya, 0, p.pitch);
            && d.Safe(len) && 0 <= RowWidth(p)
            && forall i :: 0 <= i < |d.AllRows(1)| ==>
              0 <= i < yb - ya && d.AllRows(1)[i] == Row(RowStart(p, ya + i), RowStart(p, from))
  {
    RowsAreLaid(p, from);
    var d := TileGeometry.Copy2D(RowStart(p, ya), RowStart(p, from), RowWidth(p), yb - ya, 0, p.pitch);
    var rows := d.AllRows(1);
    hide Times, Px, RowStart, RowWidth;
    forall i | 0 <= i < |rows| ensures 0 <= i < yb - ya && rows[i] == Row(RowStart(p, ya + i), RowStart(p, from)) {
      var q, r := d.ListedRow(1, i);
      assert d.AllRows(0) == [];
      RowStep(p, ya, r);
    }
    forall i | 0 <= i < |rows| ensures Fits(len, rows[i].dst, d.rowSize) && Fits(len, rows[i].src, d.rowSize) {
      assert rows[i].dst == RowStart(p, ya + i);
      RowsAreLaid(p, ya + i);
    }
    forall i, j | 0 <= i < |rows| && 0 <= j < |rows|
      ensures Apart(rows[i].dst, rows[j].src, d.rowSize) && (i != j ==> Apart(rows[i].dst, rows[j].dst, d.rowSize))
    {
      assert rows[i].dst == RowStart(p, ya + i) && rows[j].dst == RowStart(p, ya + j);
      RowsAreLaid(p, ya + i); RowsAreLaid(p, ya + j); RowsAreLaid(p, from);
    }
  }

  // A pixel of a row the transfer has written.
  lemma RowOfTransfer(p: Place, m: seq<byte>, d: Desc, ya: int, yb: int, from: int, y: int, x: int, k: int)
    requires Sound(p) && p.Y0() <= ya <= y < yb <= p.Y1() + 1 && p.Y0() <= from <= p.Y1() && HasPx(p, y, x, k)
    requires d == TileGeometry.Copy2D(RowStart(p, ya), RowStart(p, from), RowWidth(p), yb - ya, 0, p.pitch)
             && d.Safe(|m|)
    ensures ByteAt(d.Exec(m), Px(p, y, x, k)) == ByteAt(m, Px(p, from, x, k))
  {
    var j := p.frame.Col(x - p.X0()) + k;
    PxInRow(p, y, x, k);
    PxInRow(p, from, x, k);
    TransferRowAt(p, d, ya, yb, from, y - ya);
    hide Times, Px, RowStart, RowWidth, Place.Consistent, Frame.Col, Desc.RowAt, TileGeometry.Copy2D, Desc.Exec,
      Desc.Safe;
    ExecInside(m, d, 0, y - ya, j);
  }

  lemma TransferRowAt(p: Place, d: Desc, ya: int, yb: int, from: int, r: nat)
    requires r < yb - ya
             && d == TileGeometry.Copy2D(RowStart(p, ya), RowStart(p, from), RowWidth(p), yb - ya, 0, p.pitch)
    ensures d.RowAt(0, r) == Row(RowStart(p, ya + r), RowStart(p, from)) && d.planes == 1 && d.rows == yb - ya
    ensures 0 <= RowWidth(p) ==> d.rowSize == RowWidth(p)
  {
    RowStep(p, ya, r);
    hide Times, RowStart, RowWidth;
  }

  lemma RowStep(p: Place, ya: int, r: nat)
    ensures RowStart(p, ya + r) == RowStart(p, ya) + r * p.pitch
  {
    TimesAdd(ya - p.Y0(), r, p.pitch);
    TimesIsProduct(r, p.pitch);
  }

  lemma OtherRowKept(p: Place, m: seq<byte>, d: Desc, rows: seq<Row>, ya: int, yb: int, from: int, y: int, a: int)
    requires Sound(p) && 0 <= p.bufLo && p.bufHi <= |m| && p.Y0() <= ya < yb <= p.Y1() + 1 && p.Y0() <= y <= p.Y1()
             && !(ya <= y < yb)
    requires d.planes == 1 && rows == d.AllRows(1) && d.rowSize == RowWidth(p) && InRow(p, y, a)
    requires forall i :: 0 <= i < |rows| ==> 0 <= i < yb - ya && rows[i].dst == RowStart(p, ya + i)
    ensures ByteAt(d.Exec(m), a) == ByteAt(m, a)
  {
    RowsAreLaid(p, y);
    forall i | 0 <= i < |rows| ensures !(rows[i].dst <= a < rows[i].dst + d.rowSize) {
      assert rows[i].dst == RowStart(p, ya + i);
      RowsAreLaid(p, ya + i);
    }
    CopyRowsOutside(m, rows, d.rowSize, a);
  }

  lemma NothingPadded(p: Place, m: seq<byte>, at: int, from: int)
    ensures RowsPadded(p, m, m, at, at, from) && ColumnsPadded(p, m, m, at, at, from)
  {
  }

  lemma TopIsRows(p: Place)
    requires Sound(p) && p.Meets()
    ensures var y := p.YSpan();
            && p.Y0() <= y.a <= y.b <= p.Y1() && y.extraLo == y.a - p.Y0() && y.extraHi == p.Y1() - y.b
            && TopDesc(p) ==
              TileGeometry.Copy2D(RowStart(p, p.Y0()), RowStart(p, y.a), RowWidth(p), y.a - p.Y0(), 0, p.pitch)
            && BottomDesc(p) ==
              TileGeometry.Copy2D(RowStart(p, y.b + 1), RowStart(p, y.b), RowWidth(p), p.Y1() - y.b, 0, p.pitch)
  {
    var y := p.YSpan();
    ClipIsIntersection(p.Y0(), p.Y1(), p.frame.padTop, p.frame.height, p.frame.padBottom, y.a);
    TimesAdd(p.edgeTop - y.extraLo, y.extraLo, p.pitch);
    TimesAdd(p.edgeTop, p.height + p.edgeBottom - y.extraHi - 1, p.pitch);
    TimesAdd(y.b - p.Y0(), 1, p.pitch);
    TimesIsProduct(1, p.pitch);
  }

  // After the request of an edge-padded tile: loaded, and rows above and below repeated.
  lemma EdgeRowsPadded(p: Place, lo: int, m: seq<byte>)
    requires Safe(p, lo, |m|) && p.Meets() && p.frame.padding.EdgePadding?
    ensures var y := p.YSpan();
            var m0 := FastLoad(p).Exec(m);
            var m1 := if y.extraLo > 0 then TopDesc(p).Exec(m0) else m0;
            RowsPadded(p, m0, m1, p.Y0(), y.a, y.a) && RowsPadded(p, m1, FastLoaded(p, m), y.b + 1, p.Y1() + 1, y.b)
  {
    var y := p.YSpan();
    var m0 := FastLoad(p).Exec(m);
    var m1 := if y.extraLo > 0 then TopDesc(p).Exec(m0) else m0;
    TopIsRows(p);
    hide Clip, Times, FastLoad, TopDesc, BottomDesc, InSystem, Place.Consistent, RowsPadded, RowStart, RowWidth;
    if y.extraLo > 0 { RowTransferPads(p, m0, p.Y0(), y.a, y.a); } else { NothingPadded(p, m0, p.Y0(), y.a); }
    if y.extraHi > 0 { RowTransferPads(p, m1, y.b + 1, p.Y1() + 1, y.b); } else { NothingPadded(p, m1, y.b + 1, y.b); }
  }

  // ---- columns by vector store ----

  // In every row the bytes of columns xa..xb within one vector are those of the row's pixel; no other byte changes.
  ghost predicate SidesStored(p: Place, m: seq<byte>, m': seq<byte>, xa: int, xb: int, vec: nat,
                              pixels: seq<seq<byte>>) {
    && |m'| == |m|
    && PerRow(p, pixels)
    && (forall y, x, k :: HasPx(p, y, x, k) ==>
          ByteAt(m', Px(p, y, x, k)) ==
            if xa <= x < xb && p.frame.Col(x - xa) + k < vec then pixels[y - p.Y0()][k] else ByteAt(m, Px(p, y, x, k)))
    && (forall a :: 0 <= a < |m| && OffTile(p, a) ==> m'[a] == m[a])
  }

  lemma SideFillsStore(p: Place, m: seq<byte>, xa: int, xb: int, vec: nat, pixels: seq<seq<byte>>)
    requires Sound(p) && 0 <= p.bufLo && p.bufHi <= |m| && p.X0() <= xa <= xb <= p.X1() + 1
    requires PerRow(p, pixels)
    ensures SidesStored(p, m, WriteAll(m, SideFills(p, xa, xb - xa, vec, pixels)), xa, xb, vec, pixels)
  {
    var ws := SideFills(p, xa, xb - xa, vec, pixels);
    SideFillsAt(p, m, ws, xa, xb, vec, pixels);
    hide Px, Times, WriteAll, RowWidth, SideFills, InRow, RowStart, VectorBytes, OffTile, Place.Consistent;
    SidesFilled(p, m, WriteAll(m, ws), ws, xa, xb, vec, pixels);
  }

  lemma SidesFilled(p: Place, m: seq<byte>, m': seq<byte>, ws: seq<Fill>, xa: int, xb: int, vec: nat,
                    pixels: seq<seq<byte>>)
    requires Sound(p) && p.X0() <= xa <= xb <= p.X1() + 1 && |m'| == |m| && |ws| == Rows(p) == |pixels|
    requires forall r :: 0 <= r < |pixels| ==> |pixels[r]| == p.frame.pixWidth
    requires forall i :: 0 <= i < |ws| ==>
               ws[i] == Fill(RowStart(p, p.Y0() + i) + p.frame.Col(xa - p.X0()), VectorBytes(pixels[i], xb - xa, vec))
    requires forall a :: 0 <= a < |m| && OffTile(p, a) ==> m'[a] == m[a]
    requires forall y, a :: p.Y0() <= y <= p.Y1() && InRow(p, y, a) ==>
               0 <= a < |m| && m'[a] ==
                 if ws[y - p.Y0()].Has(a) then ws[y - p.Y0()].bytes[a - ws[y - p.Y0()].dst] else m[a]
    ensures SidesStored(p, m, m', xa, xb, vec, pixels)
  {
    hide Px, Times, RowWidth, InRow, RowStart, VectorBytes, OffTile, Place.Consistent;
    forall y, x, k | HasPx(p, y, x, k)
      ensures ByteAt(m', Px(p, y, x, k)) ==
              if xa <= x < xb && p.frame.Col(x - xa) + k < vec then pixels[y - p.Y0()][k] else ByteAt(m, Px(p, y, x, k))
    {
      var w := ws[y - p.Y0()];
      PxInRow(p, y, x, k);
      assert w == Fill(RowStart(p, y) + p.frame.Col(xa - p.X0()), VectorBytes(pixels[y - p.Y0()], xb - xa, vec));
      RowOfSide(p, m, m', w, xa, xb, vec, pixels[y - p.Y0()], y, x, k);
    }
  }

  function StoreSize(p: Place, xa: int, xb: int, vec: nat): int {
    if p.frame.Col(xb - xa) <= vec then p.frame.Col(xb - xa) else vec
  }

  lemma SideFillsAt(p: Place, m: seq<byte>, ws: seq<Fill>, xa: int, xb: int, vec: nat, pixels: seq<seq<byte>>)
    requires Sound(p) && 0 <= p.bufLo && p.bufHi <= |m| && p.X0() <= xa <= xb <= p.X1() + 1
    requires PerRow(p, pixels)
    requires ws == SideFills(p, xa, xb - xa, vec, pixels)
    ensures |ws| == p.Y1() - p.Y0() + 1
    ensures forall i :: 0 <= i < |ws| ==>
              ws[i] == Fill(RowStart(p, p.Y0() + i) + p.frame.Col(xa - p.X0()), VectorBytes(pixels[i], xb - xa, vec))
    ensures forall a :: 0 <= a < |m| && OffTile(p, a) ==> WriteAll(m, ws)[a] == m[a]
    ensures forall y, a :: p.Y0() <= y <= p.Y1() && InRow(p, y, a) ==>
              0 <= a < |m| && WriteAll(m, ws)[a] ==
                if ws[y - p.Y0()].Has(a) then ws[y - p.Y0()].bytes[a - ws[y - p.Y0()].dst] else m[a]
  {
    hide *;
    StoreSizeFits(p, xa, xb, vec);
    SideFillIs(p, ws, xa, xb, vec, pixels);
    StackedFills(p, m, ws, p.Y0(), p.frame.Col(xa - p.X0()), StoreSize(p, xa, xb, vec));
  }

  lemma SideFillIs(p: Place, ws: seq<Fill>, xa: int, xb: int, vec: nat, pixels: seq<seq<byte>>)
    requires Sound(p) && xa <= xb && PerRow(p, pixels)
    requires ws == SideFills(p, xa, xb - xa, vec, pixels)
    ensures |ws| == |pixels| == p.Y1() - p.Y0() + 1
    ensures forall i :: 0 <= i < |ws| ==>
              ws[i] == Fill(RowStart(p, p.Y0() + i) + p.frame.Col(xa - p.X0()), VectorBytes(pixels[i], xb - xa, vec))
    ensures forall i :: 0 <= i < |ws| ==> |ws[i].bytes| == StoreSize(p, xa, xb, vec)
  {
    hide Times, RowStart, VectorBytes;
    forall i | 0 <= i < |ws| ensures |ws[i].bytes| == StoreSize(p, xa, xb, vec) {
      VectorSize(p, pixels[i], xa, xb, vec);
    }
  }

  lemma StoreSizeFits(p: Place, xa: int, xb: int, vec: nat)
    requires Sound(p) && p.X0() <= xa <= xb <= p.X1() + 1
    ensures 0 <= StoreSize(p, xa, xb, vec) && 0 <= p.frame.Col(xa - p.X0())
    ensures p.frame.Col(xa - p.X0()) + StoreSize(p, xa, xb, vec) <= RowWidth(p)
  {
    WidthOfRun(p, xa);
    WidthOfRun(p, xb);
    TimesAdd(xa - p.X0(), xb - xa, p.frame.pixWidth);
    ColOrder(p.frame, 0, xb - xa);
  }

  lemma VectorSize(p: Place, pixel: seq<byte>, xa: int, xb: int, vec: nat)
    requires xa <= xb && |pixel| == p.frame.pixWidth
    ensures |VectorBytes(pixel, xb - xa, vec)| == StoreSize(p, xa, xb, vec)
  {
  }

  // One pixel of a row that a store has passed over.
  lemma RowOfSide(p: Place, m: seq<byte>, m': seq<byte>, w: Fill, xa: int, xb: int, vec: nat, pixel: seq<byte>, y: int,
                  x: int, k: int)
    requires Sound(p) && p.X0() <= xa <= xb <= p.X1() + 1 && HasPx(p, y, x, k) && |m'| == |m|
             && |pixel| == p.frame.pixWidth
    requires w == Fill(RowStart(p, y) + p.frame.Col(xa - p.X0()), VectorBytes(pixel, xb - xa, vec))
    requires var a := Px(p, y, x, k); 0 <= a < |m| && m'[a] == if w.Has(a) then w.bytes[a - w.dst] else m[a]
    ensures ByteAt(m', Px(p, y, x, k)) ==
              if xa <= x < xb && p.frame.Col(x - xa) + k < vec then pixel[k] else ByteAt(m, Px(p, y, x, k))
  {
    PxInRow(p, y, x, k);
    RunOfColumns(p, xa, xb, x);
    if xa <= x < xb { RepeatAt(pixel, xb - xa, x - xa, k); }
    hide Px, RowStart, RowWidth;
  }

  // The spans of a tile that meets its frame.
  lemma Spans(p: Place)
    requires Sound(p) && p.Meets()
    ensures var x, y := p.XSpan(), p.YSpan();
            && p.X0() <= x.a <= x.b <= p.X1() && x.extraLo == x.a - p.X0() && x.extraHi == p.X1() - x.b
            && p.Y0() <= y.a <= y.b <= p.Y1() && y.extraLo == y.a - p.Y0() && y.extraHi == p.Y1() - y.b
  {
    ClipIsIntersection(p.X0(), p.X1(), p.frame.padLeft, p.frame.width, p.frame.padRight, p.XSpan().a);
    ClipIsIntersection(p.Y0(), p.Y1(), p.frame.padTop, p.frame.height, p.frame.padBottom, p.YSpan().a);
  }

  lemma NothingStored(p: Place, m: seq<byte>, at: int, vec: nat, pixels: seq<seq<byte>>)
    requires PerRow(p, pixels)
    ensures SidesStored(p, m, m, at, at, vec, pixels)
  {
  }

  lemma LeftStored(p: Place, lo: int, m: seq<byte>, vec: nat)
    requires Safe(p, lo, |m|) && p.Meets()
    ensures SidesStored(p, m, PadEdgeLeft(p, m, vec), p.X0(), p.XSpan().a, vec, SourcePixels(p, m, p.XSpan().a))
  {
    Spans(p);
    assert PerRow(p, SourcePixels(p, m, p.XSpan().a));
    hide Clip, SourcePixels, WriteAll, SideFills, SidesStored, Rows, Sound, Place.Meets, Place.X0, Place.X1,
      Place.XSpan;
    SideFromTo(p, m, p.X0(), p.XSpan().a, p.XSpan().extraLo, vec, SourcePixels(p, m, p.XSpan().a));
  }

  lemma RightPixelsSize(p: Place, m: seq<byte>, stale: seq<byte>)
    requires |stale| == 4
    ensures PerRow(p, RightPixels(p, m, stale))
  {
  }

  lemma RightStored(p: Place, lo: int, m: seq<byte>, vec: nat, stale: seq<byte>)
    requires Safe(p, lo, |m|) && p.Meets() && |stale| == 4
    ensures SidesStored(p, m, PadEdgeRight(p, m, vec, stale), p.XSpan().b + 1, p.X1() + 1, vec,
                        RightPixels(p, m, stale))
  {
    hide *;
    SafeIsSound(p, lo, |m|);
    RightPixelsSize(p, m, stale);
    RightSpan(p);
    RightFills(p, m, vec, stale);
    SideFromTo(p, m, p.XSpan().b + 1, p.X1() + 1, p.XSpan().extraHi, vec, RightPixels(p, m, stale));
  }

  lemma SafeIsSound(p: Place, lo: int, len: nat)
    requires Safe(p, lo, len)
    ensures Sound(p) && 0 <= p.bufLo && p.bufHi <= len
  {
  }

  lemma RightFills(p: Place, m: seq<byte>, vec: nat, stale: seq<byte>)
    requires p.XSpan().extraHi >= 0
    ensures PadEdgeRight(p, m, vec, stale) ==
            if p.XSpan().extraHi == 0 then m
            else WriteAll(m, SideFills(p, p.XSpan().b + 1, p.XSpan().extraHi, vec, RightPixels(p, m, stale)))
  {
    hide RightPixels, WriteAll, SideFills, Place.XSpan;
  }

  lemma RightSpan(p: Place)
    requires Sound(p) && p.Meets()
    ensures p.X0() <= p.XSpan().b + 1 && p.XSpan().b + 1 + p.XSpan().extraHi == p.X1() + 1 && p.XSpan().extraHi >= 0
  {
    Spans(p);
  }

  lemma SideFromTo(p: Place, m: seq<byte>, xa: int, xb: int, n: nat, vec: nat, pixels: seq<seq<byte>>)
    requires Sound(p) && 0 <= p.bufLo && p.bufHi <= |m| && p.X0() <= xa && xa + n == xb <= p.X1() + 1
    requires PerRow(p, pixels)
    ensures SidesStored(p, m, if n == 0 then m else WriteAll(m, SideFills(p, xa, n, vec, pixels)), xa, xb, vec, pixels)
  {
    hide *;
    assert n == xb - xa;
    if n == 0 { NothingStored(p, m, xa, vec, pixels); } else { SideFillsStore(p, m, xa, xb, vec, pixels); }
  }

  // The byte of a source pixel is the tile's byte.
  lemma SourcePixelAt(p: Place, m: seq<byte>, from: int, y: int, k: int)
    requires HasPx(p, y, from, k)
    ensures |SourcePixels(p, m, from)| == Rows(p) && 0 <= y - p.Y0() < Rows(p)
    ensures SourcePixels(p, m, from)[y - p.Y0()][k] == ByteAt(m, Px(p, y, from, k))
  {
    PxInRow(p, y, from, k);
  }

  // Within one vector a side store pads the columns.
  lemma StoredIsPadded(p: Place, m: seq<byte>, m': seq<byte>, xa: int, xb: int, from: int, vec: nat,
                       pixels: seq<seq<byte>>)
    requires SidesStored(p, m, m', xa, xb, vec, pixels) && p.frame.padding.EdgePadding?
             && p.X0() <= xa <= xb <= p.X1() + 1 && p.X0() <= from <= p.X1()
    requires p.frame.Col(xb - xa) <= vec
    requires xa < xb ==> forall y, k :: HasPx(p, y, from, k) ==> pixels[y - p.Y0()][k] == ByteAt(m, Px(p, y, from, k))
    ensures ColumnsPadded(p, m, m', xa, xb, from)
  {
    hide Px, Times, OffTile;
    forall y, x, k | HasPx(p, y, x, k)
      ensures ByteAt(m', Px(p, y, x, k)) ==
                if !(xa <= x < xb) then ByteAt(m, Px(p, y, x, k)) else PadValue(p, ByteAt(m, Px(p, y, from, k)), k)
    {
      if xa <= x < xb {
        TimesMonotone(x - xa, xb - xa, p.frame.pixWidth);
        assert HasPx(p, y, from, k);
      }
    }
  }

  // ---- when edge padding comes out right ----

  predicate EdgeFits(p: Place, vec: nat) {
    var x, y := p.XSpan(), p.YSpan();
    && p.frame.Col(x.extraLo) <= vec && p.frame.Col(x.extraHi) <= vec
    && (p.frame.pixWidth == 4 && x.extraHi > 0 ==> x.extraLo > 0 && x.a == x.b && y.a == y.b)
  }

  lemma LeftPads(p: Place, lo: int, m: seq<byte>, vec: nat)
    requires Safe(p, lo, |m|) && p.Meets() && p.frame.padding.EdgePadding? && p.frame.Col(p.XSpan().extraLo) <= vec
    ensures ColumnsPadded(p, m, PadEdgeLeft(p, m, vec), p.X0(), p.XSpan().a, p.XSpan().a)
  {
    Spans(p);
    LeftStored(p, lo, m, vec);
    var x := p.XSpan();
    hide Clip, Times, SidesStored, InSystem, Place.Consistent, Px, PadEdgeLeft, ColumnsPadded;
    forall y, k | HasPx(p, y, x.a, k) ensures SourcePixels(p, m, x.a)[y - p.Y0()][k] == ByteAt(m, Px(p, y, x.a, k)) {
      SourcePixelAt(p, m, x.a, y, k);
    }
    StoredIsPadded(p, m, PadEdgeLeft(p, m, vec), p.X0(), x.a, x.a, vec, SourcePixels(p, m, x.a));
  }

  lemma RightPads(p: Place, lo: int, m0: seq<byte>, m1: seq<byte>, m2: seq<byte>, left: seq<byte>, vec: nat,
                  stale: seq<byte>)
    requires Safe(p, lo, |left|) && |m2| == |left| && p.Meets() && p.frame.padding.EdgePadding? && |stale| == 4
             && EdgeFits(p, vec)
    requires RowsPadded(p, m0, m1, p.Y0(), p.YSpan().a, p.YSpan().a)
             && RowsPadded(p, m1, m2, p.YSpan().b + 1, p.Y1() + 1, p.YSpan().b)
    requires ColumnsPadded(p, m2, left, p.X0(), p.XSpan().a, p.XSpan().a)
    ensures ColumnsPadded(p, left, PadEdgeRight(p, left, vec, stale), p.XSpan().b + 1, p.X1() + 1, p.XSpan().b)
  {
    Spans(p);
    var x := p.XSpan();
    hide Clip, Times, RowsPadded, ColumnsPadded, SidesStored, InSystem, Place.Consistent, Px, PadEdgeRight, RightPixels;
    RightStored(p, lo, left, vec, stale);
    if x.extraHi > 0 { RightPixelsRight(p, lo, m0, m1, m2, left, vec, stale); }
    StoredIsPadded(p, left, PadEdgeRight(p, left, vec, stale), x.b + 1, p.X1() + 1, x.b, vec,
                   RightPixels(p, left, stale));
  }

  lemma OnlyLoaded(p: Place, lo: int, m: seq<byte>)
    requires Safe(p, lo, |m|) && p.Meets()
    ensures Loaded(FastLoad(p).Exec(m), p)
  {
    FastLoadEffect(p, lo, m);
  }

  lemma EdgeShows(p: Place, lo: int, m: seq<byte>, vec: nat, stale: seq<byte>)
    requires Safe(p, lo, |m|) && p.Meets() && p.frame.padding.EdgePadding? && |stale| == 4 && EdgeFits(p, vec)
    ensures Shows(FastTile(p, m, vec, stale), p)
  {
    var m0, m2 := FastLoad(p).Exec(m), FastLoaded(p, m);
    var m1 := if p.YSpan().extraLo > 0 then TopDesc(p).Exec(m0) else m0;
    var left := PadEdgeLeft(p, m2, vec);
    hide Clip, Times, RowsPadded, ColumnsPadded, Shows, Loaded, InSystem, Place.Consistent, OffTile, Px, EdgeFits,
         FastLoad, TopDesc, BottomDesc, PadEdgeLeft, PadEdgeRight;
    OnlyLoaded(p, lo, m);
    EdgeRowsPadded(p, lo, m);
    LeftPads(p, lo, m2, vec) by { assert p.frame.Col(p.XSpan().extraLo) <= vec by { FitsLeft(p, vec); } }
    PaddedLength(p, m2, left);
    RightPads(p, lo, m0, m1, m2, left, vec, stale);
    PaddingCompletes(p, lo, m0, m1, m2, left, PadEdgeRight(p, left, vec, stale));
  }

  lemma FitsLeft(p: Place, vec: nat)
    requires EdgeFits(p, vec)
    ensures p.frame.Col(p.XSpan().extraLo) <= vec
  {
  }

  lemma PaddedLength(p: Place, m: seq<byte>, m': seq<byte>)
    requires ColumnsPadded(p, m, m', p.X0(), p.XSpan().a, p.XSpan().a)
    ensures |m'| == |m|
  {
  }

  // When it fits, the right side stores each row's own pixel.
  lemma RightPixelsRight(p: Place, lo: int, m0: seq<byte>, m1: seq<byte>, m2: seq<byte>, left: seq<byte>, vec: nat,
                         stale: seq<byte>)
    requires Safe(p, lo, |m2|) && p.Meets() && p.frame.padding.EdgePadding? && |stale| == 4 && EdgeFits(p, vec)
             && p.XSpan().extraHi > 0
    requires RowsPadded(p, m0, m1, p.Y0(), p.YSpan().a, p.YSpan().a)
             && RowsPadded(p, m1, m2, p.YSpan().b + 1, p.Y1() + 1, p.YSpan().b)
    requires ColumnsPadded(p, m2, left, p.X0(), p.XSpan().a, p.XSpan().a)
    ensures |RightPixels(p, left, stale)| == Rows(p) && forall r :: 0 <= r < Rows(p) ==>
              |RightPixels(p, left, stale)[r]| == p.frame.pixWidth
    ensures forall y, k :: HasPx(p, y, p.XSpan().b, k) ==>
              RightPixels(p, left, stale)[y - p.Y0()][k] == ByteAt(left, Px(p, y, p.XSpan().b, k))
  {
    Spans(p);
    var x, s := p.XSpan(), p.YSpan();
    hide Clip, Times, Px, OffTile, SourcePixel, InSystem, Place.Consistent, PadValue;
    forall y, k | HasPx(p, y, x.b, k)
      ensures RightPixels(p, left, stale)[y - p.Y0()][k] == ByteAt(left, Px(p, y, x.b, k))
    {
      if p.frame.pixWidth == 4 {
        assert HasPx(p, p.Y1(), x.a, k) && HasPx(p, s.a, x.a, k);
        SourcePixelAt(p, left, x.a, p.Y1(), k);
        OneColumn(p, m0, m1, m2, left, y, k);
        OneColumn(p, m0, m1, m2, left, p.Y1(), k);
      } else {
        SourcePixelAt(p, left, x.b, y, k);
      }
    }
  }

  // Over a single frame pixel the tile's column is that pixel throughout.
  lemma OneColumn(p: Place, m0: seq<byte>, m1: seq<byte>, m2: seq<byte>, left: seq<byte>, y: int, k: int)
    requires Sound(p) && p.Meets() && p.frame.padding.EdgePadding? && p.YSpan().a == p.YSpan().b
             && HasPx(p, y, p.XSpan().a, k)
    requires RowsPadded(p, m0, m1, p.Y0(), p.YSpan().a, p.YSpan().a)
             && RowsPadded(p, m1, m2, p.YSpan().b + 1, p.Y1() + 1, p.YSpan().b)
    requires ColumnsPadded(p, m2, left, p.X0(), p.XSpan().a, p.XSpan().a)
    ensures ByteAt(left, Px(p, y, p.XSpan().a, k)) == ByteAt(m0, Px(p, p.YSpan().a, p.XSpan().a, k))
  {
    Spans(p);
    hide Clip, Times, Px, OffTile, Place.Consistent;
    assert HasPx(p, p.YSpan().a, p.XSpan().a, k);
  }

  // ---- constant padding ----

  // Rows ya..yb of columns xa..xb hold the constant; no other byte changes.
  ghost predicate RectStored(p: Place, m: seq<byte>, m': seq<byte>, ya: int, yb: int, xa: int, xb: int) {
    && |m'| == |m|
    && (forall y, x, k :: HasPx(p, y, x, k) ==>
          ByteAt(m', Px(p, y, x, k)) ==
            if ya <= y < yb && xa <= x < xb then FastByte(p.frame, k) else ByteAt(m, Px(p, y, x, k)))
    && (forall a :: 0 <= a < |m| && OffTile(p, a) ==> m'[a] == m[a])
  }

  lemma {:induction false} FourCol(n: nat, k: int)
    ensures (Times(n, 4) + k) % 4 == k % 4
  {
    if n > 0 { FourCol(n - 1, k); }
  }

  // The constant starts afresh with every pixel.
  lemma FastByteRepeats(f: Frame, n: nat, k: int)
    requires f.pixWidth in {1, 2, 4}
    ensures FastByte(f, f.Col(n) + k) == FastByte(f, k)
  {
    if f.pixWidth == 2 { EvenCol(n, 2, k); } else if f.pixWidth == 4 { FourCol(n, k); }
  }

  lemma ConstantFillsStore(p: Place, m: seq<byte>, ya: int, yb: int, xa: int, xb: int)
    requires Sound(p) && 0 <= p.bufLo && p.bufHi <= |m| && p.frame.pixWidth in {1, 2, 4}
    requires p.Y0() <= ya <= yb <= p.Y1() + 1 && p.X0() <= xa <= xb <= p.X1() + 1
    ensures RectStored(p, m, StoreConstant(p, m, ya, yb, xa, xb), ya, yb, xa, xb)
  {
    var ws := ConstantFills(p, ya, yb, xa, xb);
    var m' := WriteAll(m, ws);
    ConstantFillsAt(p, m, ws, ya, yb, xa, xb);
    hide Px, Times, WriteAll, RowWidth, RowStart, OffTile, Place.Consistent, FastByte, ConstantFills, InRow,
      ConstantRow;
    forall y, x, k | HasPx(p, y, x, k)
      ensures ByteAt(m', Px(p, y, x, k)) ==
                if ya <= y < yb && xa <= x < xb then FastByte(p.frame, k) else ByteAt(m, Px(p, y, x, k))
    {
      PxInRow(p, y, x, k);
      if ya <= y < yb {
        assert ws[y - ya] == ConstantRow(p, y, xa, xb);
        RowOfRect(p, m, m', ConstantRow(p, y, xa, xb), xa, xb, y, x, k);
      }
    }
  }

  lemma ConstantFillsAt(p: Place, m: seq<byte>, ws: seq<Fill>, ya: int, yb: int, xa: int, xb: int)
    requires Sound(p) && 0 <= p.bufLo && p.bufHi <= |m|
    requires p.Y0() <= ya <= yb <= p.Y1() + 1 && p.X0() <= xa <= xb <= p.X1() + 1
             && ws == ConstantFills(p, ya, yb, xa, xb)
    ensures |ws| == yb - ya && forall i :: 0 <= i < |ws| ==> ws[i] == ConstantRow(p, ya + i, xa, xb)
    ensures forall a :: 0 <= a < |m| && OffTile(p, a) ==> WriteAll(m, ws)[a] == m[a]
    ensures forall y, a :: p.Y0() <= y <= p.Y1() && InRow(p, y, a) ==>
              0 <= a < |m| && WriteAll(m, ws)[a] ==
                if ya <= y < ya + |ws| && ws[y - ya].Has(a) then ws[y - ya].bytes[a - ws[y - ya].dst] else m[a]
  {
    WidthOfRun(p, xa);
    WidthOfRun(p, xb);
    TimesAdd(xa - p.X0(), xb - xa, p.frame.pixWidth);
    ColOrder(p.frame, 0, xb - xa);
    assert p.frame.Col(xb - xa) >= 0;
    hide Px, Times, WriteAll, RowWidth, RowStart, OffTile, Place.Consistent, FastByte;
    forall i | 0 <= i < |ws|
      ensures ws[i] == ConstantRow(p, ya + i, xa, xb) && ws[i].dst == RowStart(p, ya + i) + p.frame.Col(xa - p.X0())
              && |ws[i].bytes| == p.frame.Col(xb - xa) {}
    StackedFills(p, m, ws, ya, p.frame.Col(xa - p.X0()), p.frame.Col(xb - xa));
  }

  // One pixel of a row the constant was stored into.
  lemma RowOfRect(p: Place, m: seq<byte>, m': seq<byte>, w: Fill, xa: int, xb: int, y: int, x: int, k: int)
    requires Sound(p) && p.X0() <= xa <= xb <= p.X1() + 1 && HasPx(p, y, x, k) && |m'| == |m|
             && p.frame.pixWidth in {1, 2, 4}
    requires w == ConstantRow(p, y, xa, xb)
    requires var a := Px(p, y, x, k); 0 <= a < |m| && m'[a] == if w.Has(a) then w.bytes[a - w.dst] else m[a]
    ensures ByteAt(m', Px(p, y, x, k)) == if xa <= x < xb then FastByte(p.frame, k) else ByteAt(m, Px(p, y, x, k))
  {
    PxInRow(p, y, x, k);
    RunOfColumns(p, xa, xb, x);
    if xa <= x < xb { FastByteRepeats(p.frame, x - xa, k); }
    hide Px, RowStart, RowWidth, FastByte;
  }

  lemma RectAt(p: Place, m: seq<byte>, m': seq<byte>, ya: int, yb: int, xa: int, xb: int, y: int, x: int, k: int)
    requires RectStored(p, m, m', ya, yb, xa, xb) && HasPx(p, y, x, k)
    ensures ByteAt(m', Px(p, y, x, k)) ==
              if ya <= y < yb && xa <= x < xb then FastByte(p.frame, k) else ByteAt(m, Px(p, y, x, k))
  {
  }

  lemma RectOutside(p: Place, m: seq<byte>, m': seq<byte>, ya: int, yb: int, xa: int, xb: int, a: int)
    requires RectStored(p, m, m', ya, yb, xa, xb) && 0 <= a < |m| && OffTile(p, a)
    ensures |m'| == |m| && m'[a] == m[a]
  {
  }

  // The constant everywhere outside the frame, the frame's pixels inside.
  lemma ConstantFinal(p: Place, lo: int, m: seq<byte>)
    requires Safe(p, lo, |m|) && p.Meets() && p.frame.pixWidth in {1, 2, 4}
    ensures var m' := PadConstant(p, m);
            && |m'| == |m|
            && (forall y, x, k :: HasPx(p, y, x, k) ==>
                  ByteAt(m', Px(p, y, x, k)) ==
                    if InClip(p, y, x) then ByteAt(m, Px(p, y, x, k)) else FastByte(p.frame, k))
            && (forall a :: 0 <= a < |m| && OffTile(p, a) ==> m'[a] == m[a])
  {
    Spans(p);
    FourStores(p, m, p.YSpan().a, p.YSpan().b, p.XSpan().a, p.XSpan().b);
  }

  lemma FourStores(p: Place, m: seq<byte>, y1: int, y2: int, x1: int, x2: int)
    requires Sound(p) && 0 <= p.bufLo && p.bufHi <= |m| && p.frame.pixWidth in {1, 2, 4}
    requires p.X0() <= x1 <= x2 <= p.X1() && p.Y0() <= y1 <= y2 <= p.Y1()
    ensures var m1 := StoreConstant(p, m, p.Y0(), p.Y1() + 1, p.X0(), x1);
            var m2 := StoreConstant(p, m1, p.Y0(), p.Y1() + 1, x2 + 1, p.X1() + 1);
            var m3 := StoreConstant(p, m2, p.Y0(), y1, p.X0(), p.X1() + 1);
            var m4 := StoreConstant(p, m3, y2 + 1, p.Y1() + 1, p.X0(), p.X1() + 1);
            && |m4| == |m|
            && (forall y, x, k :: HasPx(p, y, x, k) ==>
                  ByteAt(m4, Px(p, y, x, k)) ==
                    if y1 <= y <= y2 && x1 <= x <= x2 then ByteAt(m, Px(p, y, x, k)) else FastByte(p.frame, k))
            && (forall a :: 0 <= a < |m| && OffTile(p, a) ==> m4[a] == m[a])
  {
    hide *;
    var m1 := StoreConstant(p, m, p.Y0(), p.Y1() + 1, p.X0(), x1);
    var m2 := StoreConstant(p, m1, p.Y0(), p.Y1() + 1, x2 + 1, p.X1() + 1);
    var m3 := StoreConstant(p, m2, p.Y0(), y1, p.X0(), p.X1() + 1);
    ConstantFillsStore(p, m, p.Y0(), p.Y1() + 1, p.X0(), x1);
    ConstantFillsStore(p, m1, p.Y0(), p.Y1() + 1, x2 + 1, p.X1() + 1);
    ConstantFillsStore(p, m2, p.Y0(), y1, p.X0(), p.X1() + 1);
    ConstantFillsStore(p, m3, y2 + 1, p.Y1() + 1, p.X0(), p.X1() + 1);
    FourRects(p, m, m1, m2, m3, StoreConstant(p, m3, y2 + 1, p.Y1() + 1, p.X0(), p.X1() + 1), y1, y2, x1, x2);
  }

  lemma FourRects(p: Place, m: seq<byte>, m1: seq<byte>, m2: seq<byte>, m3: seq<byte>, m4: seq<byte>, y1: int, y2: int,
                  x1: int, x2: int)
    requires RectStored(p, m, m1, p.Y0(), p.Y1() + 1, p.X0(), x1)
             && RectStored(p, m1, m2, p.Y0(), p.Y1() + 1, x2 + 1, p.X1() + 1)
    requires RectStored(p, m2, m3, p.Y0(), y1, p.X0(), p.X1() + 1)
             && RectStored(p, m3, m4, y2 + 1, p.Y1() + 1, p.X0(), p.X1() + 1)
    ensures |m4| == |m|
    ensures forall y, x, k :: HasPx(p, y, x, k) ==>
              ByteAt(m4, Px(p, y, x, k)) ==
                if y1 <= y <= y2 && x1 <= x <= x2 then ByteAt(m, Px(p, y, x, k)) else FastByte(p.frame, k)
    ensures forall a :: 0 <= a < |m| && OffTile(p, a) ==> m4[a] == m[a]
  {
    assert |m4| == |m|;
    hide Px, OffTile, FastByte, RectStored, Times;
    forall y, x, k | HasPx(p, y, x, k)
      ensures ByteAt(m4, Px(p, y, x, k)) ==
                if y1 <= y <= y2 && x1 <= x <= x2 then ByteAt(m, Px(p, y, x, k)) else FastByte(p.frame, k)
    {
      RectAt(p, m, m1, p.Y0(), p.Y1() + 1, p.X0(), x1, y, x, k);
      RectAt(p, m1, m2, p.Y0(), p.Y1() + 1, x2 + 1, p.X1() + 1, y, x, k);
      RectAt(p, m2, m3, p.Y0(), y1, p.X0(), p.X1() + 1, y, x, k);
      RectAt(p, m3, m4, y2 + 1, p.Y1() + 1, p.X0(), p.X1() + 1, y, x, k);
    }
    forall a | 0 <= a < |m| && OffTile(p, a) ensures m4[a] == m[a] {
      RectOutside(p, m, m1, p.Y0(), p.Y1() + 1, p.X0(), x1, a);
      RectOutside(p, m1, m2, p.Y0(), p.Y1() + 1, x2 + 1, p.X1() + 1, a);
      RectOutside(p, m2, m3, p.Y0(), y1, p.X0(), p.X1() + 1, a);
      RectOutside(p, m3, m4, y2 + 1, p.Y1() + 1, p.X0(), p.X1() + 1, a);
    }
  }

  predicate NothingOutside(p: Place) {
    p.XSpan().extraLo <= 0 && p.XSpan().extraHi <= 0 && p.YSpan().extraLo <= 0 && p.YSpan().extraHi <= 0
  }

  // The regular path splats sixteen bits even for four-byte pixels.
  predicate ConstantFits(p: Place) {
    p.frame.pixWidth != 4 || !p.frame.padding.ConstantPadding?
      || p.frame.paddingVal / 65536 % 65536 == p.frame.paddingVal % 65536 || NothingOutside(p)
  }

  // The four bytes of a 32-bit value, and its halves by them.
  lemma FourBytes(v: nat)
    ensures v / 65536 % 65536 == v / 16777216 % 256 * 256 + v / 65536 % 256
    ensures v % 65536 == v / 256 % 256 * 256 + v % 256
  {
    var q1, b0 := v / 256, v % 256;
    var q2, b1 := q1 / 256, q1 % 256;
    var q3, b2 := q2 / 256, q2 % 256;
    assert v == 65536 * q2 + 256 * b1 + b0;
    assert q2 == 65536 * (q3 / 256) + 256 * (q3 % 256) + b2;
    assert v == 16777216 * q3 + 65536 * b2 + 256 * b1 + b0;
  }

  /** Each pixel of the constant is the padding value, cut to the pixel's size, lowest byte first; zero unless the mode
      is constant padding. */
  lemma FastConstantIs(f: Frame)
    requires f.pixWidth in {1, 2, 4}
    ensures var v := if f.padding.ConstantPadding? then f.paddingVal else 0;
            && (f.pixWidth == 1 ==> FastByte(f, 0) == v % 256)
            && (f.pixWidth == 2 ==> FastByte(f, 0) + 256 * FastByte(f, 1) == v % 65536)
            && (f.pixWidth == 4 ==> FastByte(f, 0) + 256 * FastByte(f, 1) + 65536 * FastByte(f, 2)
                                    + 16777216 * FastByte(f, 3) == v % 4294967296)
    ensures forall i: nat :: FastByte(f, i) == FastByte(f, i % f.pixWidth)
  {
    var v := if f.padding.ConstantPadding? then f.paddingVal else 0;
    FourDigits(v);
    FourBytes(v);
    assert f.pixWidth == 4 ==> FastByte(f, 0) == v % 256 && FastByte(f, 1) == v / 256 % 256
                               && FastByte(f, 2) == v / 65536 % 256 && FastByte(f, 3) == v / 16777216 % 256;
    forall i: nat ensures FastByte(f, i) == FastByte(f, i % f.pixWidth) { RepeatsByPixel(f, i); }
    hide FastByte;
  }

  lemma RepeatsByPixel(f: Frame, i: nat)
    requires f.pixWidth in {1, 2, 4}
    ensures FastByte(f, i) == FastByte(f, i % f.pixWidth)
  {
  }

  lemma FourDigits(v: nat)
    ensures v % 256 + 256 * (v / 256 % 256) + 65536 * (v / 65536 % 256) + 16777216 * (v / 16777216 % 256)
            == v % 4294967296
  {
    FourBytes(v);
    var q := v / 65536;
    assert v == 4294967296 * (q / 65536) + (65536 * (q % 65536) + v % 65536);
    ModIs(v, q / 65536, 65536 * (q % 65536) + v % 65536, 4294967296);
  }

  lemma SameConstant(f: Frame)
    requires f.pixWidth in {1, 2, 4} && !f.padding.EdgePadding?
    ensures (f.pixWidth != 4 || !f.padding.ConstantPadding?
             || f.paddingVal / 65536 % 65536 == f.paddingVal % 65536) <==>
            forall k :: 0 <= k < f.pixWidth ==> FastByte(f, k) == PadByte(f.padding, f.paddingVal, f.pixWidth, k)
  {
    if f.pixWidth == 4 && f.padding.ConstantPadding? {
      var v := f.paddingVal;
      FourBytes(v);
      var h0, h1, l0, l1 := v / 65536 % 256, v / 16777216 % 256, v % 256, v / 256 % 256;
      assert FastByte(f, 0) == l0 && FastByte(f, 1) == l1 && FastByte(f, 2) == h0 && FastByte(f, 3) == h1;
      assert PadByte(f.padding, v, 4, 0) == l0 && PadByte(f.padding, v, 4, 1) == l1 && PadByte(f.padding, v, 4, 2) == l0
             && PadByte(f.padding, v, 4, 3) == l1;
      hide FastByte, PadByte;
      forall k | 0 <= k < 4 ensures h0 == l0 && h1 == l1 ==> FastByte(f, k) == PadByte(f.padding, v, 4, k) {
        assert k == 0 || k == 1 || k == 2 || k == 3;
      }
    }
  }

  /** Constant and zero padding: the fast tile shows the extended frame, as the regular one does, exactly when the
      constant splats alike or nothing is outside the frame. */
  lemma ConstantShowsIff(p: Place, lo: int, m: seq<byte>, vec: nat, stale: seq<byte>)
    requires Safe(p, lo, |m|) && p.Meets() && p.frame.pixWidth in {1, 2, 4} && !p.frame.padding.EdgePadding?
    ensures Shows(FastTile(p, m, vec, stale), p) <==> ConstantFits(p)
  {
    var m0, m4, f := FastLoad(p).Exec(m), FastTile(p, m, vec, stale), p.frame;
    Spans(p);
    FastLoadEffect(p, lo, m);
    ConstantFinal(p, lo, m0);
    SameConstant(f);
    forall y, x, k | HasPx(p, y, x, k) && InClip(p, y, x)
      ensures ByteAt(m4, Px(p, y, x, k)) == Reference(m4, f, y, x, k)
    {
      FrameThere(p, lo, m0, m4, y, x, k);
    }
    OutsideIsPad(p);
    hide Clip, Times, Px, OffTile, Place.Consistent, InSystem, FastByte, PadByte, FastTile, FastLoad, Loaded;
    if ConstantFits(p) {
      forall y, x, k | HasPx(p, y, x, k) && !InClip(p, y, x)
        ensures ByteAt(m4, Px(p, y, x, k)) == Reference(m4, f, y, x, k)
      {
      }
    } else {
      var k :| 0 <= k < f.pixWidth && FastByte(f, k) != PadByte(f.padding, f.paddingVal, f.pixWidth, k);
      var x := if p.XSpan().extraLo > 0 then p.X0() else p.X1();
      var y := if p.YSpan().extraLo > 0 then p.Y0() else p.Y1();
      assert HasPx(p, y, x, k) && !InClip(p, y, x);
      assert ByteAt(m4, Px(p, y, x, k)) != Reference(m4, f, y, x, k);
    }
  }

  // Outside the clipped rectangle a tile pixel is outside the frame, and without edge padding its reference is the
  // constant.
  lemma OutsideIsPad(p: Place)
    requires Sound(p) && p.Meets() && !p.frame.padding.EdgePadding?
    ensures forall m, y, x, k :: HasPx(p, y, x, k) && !InClip(p, y, x) ==>
              Reference(m, p.frame, y, x, k) == PadByte(p.frame.padding, p.frame.paddingVal, p.frame.pixWidth, k)
  {
    hide PadByte, FramePx;
    forall m, y, x, k | HasPx(p, y, x, k) && !InClip(p, y, x)
      ensures Reference(m, p.frame, y, x, k) == PadByte(p.frame.padding, p.frame.paddingVal, p.frame.pixWidth, k)
    {
      ClipIsIntersection(p.X0(), p.X1(), p.frame.padLeft, p.frame.width, p.frame.padRight, x);
      ClipIsIntersection(p.Y0(), p.Y1(), p.frame.padTop, p.frame.height, p.frame.padBottom, y);
    }
  }

  // Inside it the loaded byte is the frame's, which is still in memory.
  lemma FrameThere(p: Place, lo: int, m0: seq<byte>, m4: seq<byte>, y: int, x: int, k: int)
    requires Safe(p, lo, |m0|) && p.Meets() && Loaded(m0, p) && HasPx(p, y, x, k) && InClip(p, y, x) && |m4| == |m0|
    requires ByteAt(m4, Px(p, y, x, k)) == ByteAt(m0, Px(p, y, x, k)) && forall a :: 0 <= a < |m0| && OffTile(p, a) ==>
               m4[a] == m0[a]
    ensures ByteAt(m4, Px(p, y, x, k)) == Reference(m4, p.frame, y, x, k)
  {
    var f := p.frame;
    ClipIsIntersection(p.X0(), p.X1(), f.padLeft, f.width, f.padRight, x);
    ClipIsIntersection(p.Y0(), p.Y1(), f.padTop, f.height, f.padBottom, y);
    FramePxInExtent(f, y, x, k);
    hide Clip, Times, Px, FramePx, Place.Consistent;
    OutsideBuffer(p, FramePx(f, y, x, k));
  }

  // ---- when edge padding goes wrong ----

  // A byte in a row of the frame is left alone by the repeated rows.
  lemma RowsKeep(p: Place, lo: int, m: seq<byte>, y: int, x: int, k: int)
    requires Safe(p, lo, |m|) && p.Meets() && p.frame.padding.EdgePadding? && HasPx(p, y, x, k)
             && p.YSpan().a <= y <= p.YSpan().b
    ensures |FastLoaded(p, m)| == |m|
            && ByteAt(FastLoaded(p, m), Px(p, y, x, k)) == ByteAt(FastLoad(p).Exec(m), Px(p, y, x, k))
  {
    var m0 := FastLoad(p).Exec(m);
    var m1 := if p.YSpan().extraLo > 0 then TopDesc(p).Exec(m0) else m0;
    hide Clip, Times, Px, OffTile, Place.Consistent, InSystem, FastLoad, FastLoaded, TopDesc, BottomDesc, RowsPadded;
    EdgeRowsPadded(p, lo, m);
    RowsAt(p, m0, m1, p.Y0(), p.YSpan().a, p.YSpan().a, y, x, k);
    RowsAt(p, m1, FastLoaded(p, m), p.YSpan().b + 1, p.Y1() + 1, p.YSpan().b, y, x, k);
  }

  // What the two sides do to a byte of the tile.
  lemma SidesDo(p: Place, lo: int, m: seq<byte>, vec: nat, stale: seq<byte>, y: int, x: int, k: int)
    requires Safe(p, lo, |m|) && p.Meets() && |stale| == 4 && HasPx(p, y, x, k)
    ensures var left, s := PadEdgeLeft(p, m, vec), p.XSpan();
            && |left| == |m| && |PadEdgeRight(p, left, vec, stale)| == |m|
            && (x >= s.a || p.frame.Col(x - p.X0()) + k >= vec ==>
                  ByteAt(left, Px(p, y, x, k)) == ByteAt(m, Px(p, y, x, k)))
            && |RightPixels(p, left, stale)| == Rows(p) && 0 <= y - p.Y0() < Rows(p)
            && |RightPixels(p, left, stale)[y - p.Y0()]| == p.frame.pixWidth
            && ByteAt(PadEdgeRight(p, left, vec, stale), Px(p, y, x, k)) ==
               if s.b < x && p.frame.Col(x - (s.b + 1)) + k < vec then RightPixels(p, left, stale)[y - p.Y0()][k]
               else ByteAt(left, Px(p, y, x, k))
  {
    var s, left := p.XSpan(), PadEdgeLeft(p, m, vec);
    hide Clip, Times, Px, OffTile, Place.Consistent, InSystem, PadEdgeLeft, PadEdgeRight, SourcePixels, RightPixels,
      SidesStored;
    LeftStored(p, lo, m, vec);
    SidesAt(p, m, left, p.X0(), s.a, vec, SourcePixels(p, m, s.a), y, x, k);
    RightStored(p, lo, left, vec, stale);
    SidesAt(p, left, PadEdgeRight(p, left, vec, stale), s.b + 1, p.X1() + 1, vec, RightPixels(p, left, stale), y, x, k);
  }

  lemma RowsAt(p: Place, m: seq<byte>, m': seq<byte>, ya: int, yb: int, from: int, y: int, x: int, k: int)
    requires RowsPadded(p, m, m', ya, yb, from) && HasPx(p, y, x, k) && !(ya <= y < yb)
    ensures |m'| == |m| && ByteAt(m', Px(p, y, x, k)) == ByteAt(m, Px(p, y, x, k))
  {
  }

  lemma SidesAt(p: Place, m: seq<byte>, m': seq<byte>, xa: int, xb: int, vec: nat, pixels: seq<seq<byte>>, y: int,
                x: int, k: int)
    requires SidesStored(p, m, m', xa, xb, vec, pixels) && HasPx(p, y, x, k)
    ensures |m'| == |m| && |pixels| == Rows(p) && 0 <= y - p.Y0() < |pixels| && |pixels[y - p.Y0()]| == p.frame.pixWidth
    ensures ByteAt(m', Px(p, y, x, k)) ==
              if xa <= x < xb && p.frame.Col(x - xa) + k < vec then pixels[y - p.Y0()][k] else ByteAt(m, Px(p, y, x, k))
  {
  }

  lemma EdgeElsewhere(p: Place, lo: int, m: seq<byte>, vec: nat, stale: seq<byte>, a: int)
    requires Safe(p, lo, |m|) && p.Meets() && p.frame.padding.EdgePadding? && |stale| == 4 && 0 <= a < |m|
             && OffTile(p, a)
    ensures |FastTile(p, m, vec, stale)| == |m| && FastTile(p, m, vec, stale)[a] == m[a]
  {
    var m0, m2 := FastLoad(p).Exec(m), FastLoaded(p, m);
    var m1 := if p.YSpan().extraLo > 0 then TopDesc(p).Exec(m0) else m0;
    var left := PadEdgeLeft(p, m2, vec);
    FastLoadEffect(p, lo, m);
    hide Clip, Times, Px, OffTile, Place.Consistent, InSystem, FastLoad, FastLoaded, PadEdgeLeft, PadEdgeRight,
      SourcePixels, RightPixels, TopDesc, BottomDesc,
         RowsPadded, SidesStored, Loaded;
    EdgeRowsPadded(p, lo, m);
    RowsElsewhere(p, m0, m1, p.Y0(), p.YSpan().a, p.YSpan().a, a);
    RowsElsewhere(p, m1, m2, p.YSpan().b + 1, p.Y1() + 1, p.YSpan().b, a);
    LeftStored(p, lo, m2, vec);
    SidesElsewhere(p, m2, left, p.X0(), p.XSpan().a, vec, SourcePixels(p, m2, p.XSpan().a), a);
    RightStored(p, lo, left, vec, stale);
    SidesElsewhere(p, left, PadEdgeRight(p, left, vec, stale), p.XSpan().b + 1, p.X1() + 1, vec,
                   RightPixels(p, left, stale), a);
  }

  lemma RowsElsewhere(p: Place, m: seq<byte>, m': seq<byte>, ya: int, yb: int, from: int, a: int)
    requires RowsPadded(p, m, m', ya, yb, from) && 0 <= a < |m| && OffTile(p, a)
    ensures |m'| == |m| && m'[a] == m[a]
  {
  }

  lemma SidesElsewhere(p: Place, m: seq<byte>, m': seq<byte>, xa: int, xb: int, vec: nat, pixels: seq<seq<byte>>,
                       a: int)
    requires SidesStored(p, m, m', xa, xb, vec, pixels) && 0 <= a < |m| && OffTile(p, a)
    ensures |m'| == |m| && m'[a] == m[a]
  {
  }

  // The reference of a tile byte, read from the memory before.
  lemma EdgeReference(p: Place, lo: int, m: seq<byte>, vec: nat, stale: seq<byte>, y: int, x: int, k: int)
    requires Safe(p, lo, |m|) && p.Meets() && p.frame.padding.EdgePadding? && |stale| == 4 && HasPx(p, y, x, k)
             && p.YSpan().a <= y <= p.YSpan().b
    ensures var x' := Clamp(x, p.XSpan().a, p.XSpan().b);
            Reference(FastTile(p, m, vec, stale), p.frame, y, x, k) == ByteAt(m, FramePx(p.frame, y, x', k))
              && OffTile(p, FramePx(p.frame, y, x', k))
            && 0 <= FramePx(p.frame, y, x', k) < |m|
  {
    var x' := Clamp(x, p.XSpan().a, p.XSpan().b);
    assert 0 <= k < p.frame.pixWidth && Sound(p) && p.X0() <= x <= p.X1();
    hide *;
    NearestColumn(p, y, x, x');
    EdgeFrameByte(p, lo, m, vec, stale, y, x', k);
    ReferenceIs(p, FastTile(p, m, vec, stale), y, x, x', k);
  }

  lemma ReferenceIs(p: Place, m: seq<byte>, y: int, x: int, x': int, k: int)
    requires p.frame.padding.EdgePadding?
    requires var f := p.frame;
             Clamp(y, 0 - f.padTop, f.height - 1 + f.padBottom) == y
               && Clamp(x, 0 - f.padLeft, f.width - 1 + f.padRight) == x'
    ensures Reference(m, p.frame, y, x, k) == ByteAt(m, FramePx(p.frame, y, x', k))
  {
  }

  // In a row of the frame the nearest column of the clipped rectangle is the nearest column of the frame.
  lemma NearestColumn(p: Place, y: int, x: int, x': int)
    requires Sound(p) && p.Meets() && p.X0() <= x <= p.X1() && p.YSpan().a <= y <= p.YSpan().b
             && x' == Clamp(x, p.XSpan().a, p.XSpan().b)
    ensures var f := p.frame;
            f.HasPixel(y, x') && Clamp(y, 0 - f.padTop, f.height - 1 + f.padBottom) == y
              && Clamp(x, 0 - f.padLeft, f.width - 1 + f.padRight) == x'
  {
    NearestPixel(p, y, x, y, x');
  }

  lemma EdgeFrameByte(p: Place, lo: int, m: seq<byte>, vec: nat, stale: seq<byte>, y: int, x: int, k: int)
    requires Safe(p, lo, |m|) && p.Meets() && p.frame.padding.EdgePadding? && |stale| == 4 && p.frame.HasPixel(y, x)
             && 0 <= k < p.frame.pixWidth
    ensures 0 <= FramePx(p.frame, y, x, k) < |m| && OffTile(p, FramePx(p.frame, y, x, k))
    ensures ByteAt(FastTile(p, m, vec, stale), FramePx(p.frame, y, x, k)) == ByteAt(m, FramePx(p.frame, y, x, k))
  {
    hide Clip, Times, Px, FramePx, OffTile, Place.Consistent, FastTile, InSystem;
    FrameAddress(p, lo, |m|, y, x, k);
    EdgeElsewhere(p, lo, m, vec, stale, FramePx(p.frame, y, x, k));
  }

  function Zeros(n: nat): seq<byte> { seq<byte>(n, _ => 0) }

  // More padding than one vector holds: the last byte keeps what was there.
  lemma VectorTooShort(p: Place, lo: int, len: nat, vec: nat, x: int) returns (m: seq<byte>)
    requires Safe(p, lo, len) && p.Meets() && p.frame.padding.EdgePadding?
    requires (p.frame.Col(p.XSpan().extraLo) > vec && x == p.XSpan().a - 1)
             || (p.frame.Col(p.XSpan().extraHi) > vec && x == p.X1())
    ensures |m| == len && !Shows(FastTile(p, m, vec, [0, 0, 0, 0]), p)
  {
    var y, k := p.YSpan().a, p.frame.pixWidth - 1;
    LastByte(p, lo, len, vec, x);
    hide Clip, Times, Px, FramePx, FastTile, FastLoad, OffTile, Place.Consistent, InSystem;
    m := Zeros(len)[Px(p, y, x, k) := 1];
    LastByteKept(p, lo, m, vec, x);
    EdgeReference(p, lo, m, vec, [0, 0, 0, 0], y, x, k);
    PxInBuffer(p, y, x, k);
    InBufferIsNotOff(p, y, x, k);
  }

  // A byte of the tile is not outside it.
  lemma InBufferIsNotOff(p: Place, y: int, x: int, k: int)
    requires HasPx(p, y, x, k)
    ensures !OffTile(p, Px(p, y, x, k))
  {
    PxInRow(p, y, x, k);
  }

  // The last byte of the side's padding lies beyond the first vector.
  lemma LastByte(p: Place, lo: int, len: nat, vec: nat, x: int)
    requires Safe(p, lo, len) && p.Meets()
    requires (p.frame.Col(p.XSpan().extraLo) > vec && x == p.XSpan().a - 1)
             || (p.frame.Col(p.XSpan().extraHi) > vec && x == p.X1())
    ensures var s, k := p.XSpan(), p.frame.pixWidth - 1;
            && HasPx(p, p.YSpan().a, x, k) && p.YSpan().a <= p.YSpan().b && !InClip(p, p.YSpan().a, x)
            && (x < s.a ==> p.frame.Col(x - p.X0()) + k >= vec) && (s.b < x ==> p.frame.Col(x - (s.b + 1)) + k >= vec)
            && 0 <= Px(p, p.YSpan().a, x, k) < len
  {
    Spans(p);
    var s, f := p.XSpan(), p.frame;
    assert s.extraLo == 0 ==> f.Col(s.extraLo) == 0;
    assert s.extraHi == 0 ==> f.Col(s.extraHi) == 0;
    hide Clip;
    assert x < s.a || s.b < x;
    TimesAdd(if x < s.a then x - p.X0() else x - (s.b + 1), 1, f.pixWidth);
    TimesIsProduct(1, f.pixWidth);
    PxInBuffer(p, p.YSpan().a, x, f.pixWidth - 1);
  }

  lemma LastByteKept(p: Place, lo: int, m: seq<byte>, vec: nat, x: int)
    requires Safe(p, lo, |m|) && p.Meets() && p.frame.padding.EdgePadding?
    requires (p.frame.Col(p.XSpan().extraLo) > vec && x == p.XSpan().a - 1)
             || (p.frame.Col(p.XSpan().extraHi) > vec && x == p.X1())
    ensures var a := Px(p, p.YSpan().a, x, p.frame.pixWidth - 1);
            ByteAt(FastTile(p, m, vec, [0, 0, 0, 0]), a) == ByteAt(m, a)
  {
    var y, k := p.YSpan().a, p.frame.pixWidth - 1;
    LastByte(p, lo, |m|, vec, x);
    Spans(p);
    FastLoadEffect(p, lo, m);
    hide Clip, Times, Px, FastTile, FastLoad, FastLoaded, PadEdgeLeft, PadEdgeRight, RightPixels, OffTile,
      Place.Consistent, InSystem, Loaded;
    RowsKeep(p, lo, m, y, x, k);
    SidesDo(p, lo, FastLoaded(p, m), vec, [0, 0, 0, 0], y, x, k);
  }

  lemma RowsFrom(p: Place, m: seq<byte>, m': seq<byte>, ya: int, yb: int, from: int, y: int, x: int, k: int)
    requires RowsPadded(p, m, m', ya, yb, from) && HasPx(p, y, x, k) && ya <= y < yb && p.frame.padding.EdgePadding?
    ensures ByteAt(m', Px(p, y, x, k)) == ByteAt(m, Px(p, from, x, k))
  {
  }

  // The last row's byte in a column of the frame is the frame's last row's.
  lemma LastRowByte(p: Place, lo: int, m: seq<byte>, x: int, k: int)
    requires Safe(p, lo, |m|) && p.Meets() && p.frame.padding.EdgePadding? && p.XSpan().a <= x <= p.XSpan().b
             && 0 <= k < p.frame.pixWidth
    ensures HasPx(p, p.Y1(), x, k)
            && ByteAt(FastLoaded(p, m), Px(p, p.Y1(), x, k)) == ByteAt(m, FramePx(p.frame, p.YSpan().b, x, k))
  {
    Spans(p);
    var m0, m2, y1, y2 := FastLoad(p).Exec(m), FastLoaded(p, m), p.YSpan().a, p.YSpan().b;
    var m1 := if p.YSpan().extraLo > 0 then TopDesc(p).Exec(m0) else m0;
    LoadedByte(p, lo, m, y2, x, k);
    hide Clip, Times, Px, OffTile, Place.Consistent, InSystem, FastLoad, FastLoaded, TopDesc, BottomDesc, RowsPadded,
      FramePx;
    EdgeRowsPadded(p, lo, m);
    RowsAt(p, m0, m1, p.Y0(), y1, y1, y2, x, k);
    if y2 < p.Y1() { RowsFrom(p, m1, m2, y2 + 1, p.Y1() + 1, y2, p.Y1(), x, k); } else {
      RowsAt(p, m1, m2, y2 + 1, p.Y1() + 1, y2, y2, x, k);
    }
  }

  lemma LoadedByte(p: Place, lo: int, m: seq<byte>, y: int, x: int, k: int)
    requires Safe(p, lo, |m|) && p.Meets() && HasPx(p, y, x, k) && InClip(p, y, x)
    ensures ByteAt(FastLoad(p).Exec(m), Px(p, y, x, k)) == ByteAt(m, FramePx(p.frame, y, x, k))
  {
    var f := p.frame;
    FastLoadEffect(p, lo, m);
    ClipIsIntersection(p.X0(), p.X1(), f.padLeft, f.width, f.padRight, x);
    ClipIsIntersection(p.Y0(), p.Y1(), f.padTop, f.height, f.padBottom, y);
    FramePxInExtent(f, y, x, k);
    PxInBuffer(p, y, x, k);
    OutsideBuffer(p, FramePx(f, y, x, k));
    hide Clip, Times, Px, FramePx, OffTile, FastLoad;
  }

  // Different pixels of an unpadded frame whose rows do not overlap have different addresses.
  lemma FramePixelsDiffer(f: Frame, y: int, x: int, y': int, x': int)
    requires Simple(f) && 0 <= x < f.width && 0 <= x' < f.width && y <= y' && (y, x) != (y', x')
    ensures FramePx(f, y, x, 0) != FramePx(f, y', x', 0)
  {
    if y == y' {
      if x < x' { TimesMonotone(x, x', f.pixWidth); } else { TimesMonotone(x', x, f.pixWidth); }
    } else {
      ColOrder(f, 0, f.width);
      ColOrder(f, 0, x');
      TimesMonotone(x, f.width, f.pixWidth);
      TimesMonotone(y, y', f.pitch);
    }
  }

  /** Four-byte pixels padded on the right: the wrong register is stored, so what was in it, or the last row's left
      pixel, appears in every row. */
  lemma WrongRegister(p: Place, lo: int, len: nat, vec: nat) returns (m: seq<byte>, stale: seq<byte>)
    requires Safe(p, lo, len) && p.Meets() && p.frame.padding.EdgePadding? && Simple(p.frame) && p.frame.pixWidth == 4
    requires p.XSpan().extraHi > 0 && p.frame.Col(p.XSpan().extraHi) <= vec
    requires !(p.XSpan().extraLo > 0 && p.XSpan().a == p.XSpan().b && p.YSpan().a == p.YSpan().b)
    ensures |m| == len && |stale| == 4 && !Shows(FastTile(p, m, vec, stale), p)
  {
    var s, y, f := p.XSpan(), p.YSpan().a, p.frame;
    RightPixelExists(p, lo, len);
    TimesMonotone(0, s.extraHi, 4);
    m, stale := Zeros(len), [1, 1, 1, 1];
    if s.extraLo > 0 {
      m := m[FramePx(f, y, s.b, 0) := 1];
      FramePixelsDiffer(f, y, s.b, p.YSpan().b, s.a);
    }
    hide Clip, Times, FramePx, FastTile, Place.Consistent, InSystem, Place.Meets, Place.XSpan, Place.YSpan, Sound,
      Shows;
    WrongPixel(p, lo, m, vec, stale);
  }

  lemma RightPixelExists(p: Place, lo: int, len: nat)
    requires Safe(p, lo, len) && p.Meets() && p.XSpan().extraHi > 0
    ensures p.frame.HasPixel(p.YSpan().a, p.XSpan().b) && p.frame.HasPixel(p.YSpan().b, p.XSpan().a)
    ensures p.XSpan().a <= p.XSpan().b && p.YSpan().a <= p.YSpan().b
    ensures 0 <= FramePx(p.frame, p.YSpan().a, p.XSpan().b, 0) < len
            && 0 <= FramePx(p.frame, p.YSpan().b, p.XSpan().a, 0) < len
  {
    Spans(p);
    NearestPixel(p, p.YSpan().a, p.XSpan().b, p.YSpan().a, p.XSpan().b);
    NearestPixel(p, p.YSpan().b, p.XSpan().a, p.YSpan().b, p.XSpan().a);
    hide Clip, FramePx, OffTile, InSystem, Place.Consistent;
    FrameAddress(p, lo, len, p.YSpan().a, p.XSpan().b, 0);
    FrameAddress(p, lo, len, p.YSpan().b, p.XSpan().a, 0);
  }

  // Where the register does not hold the row's last pixel the tile is wrong.
  lemma WrongPixel(p: Place, lo: int, m: seq<byte>, vec: nat, stale: seq<byte>)
    requires Safe(p, lo, |m|) && p.Meets() && p.frame.padding.EdgePadding? && p.frame.pixWidth == 4 && |stale| == 4
    requires p.XSpan().extraHi > 0 && vec > 0
    requires ByteAt(m, FramePx(p.frame, p.YSpan().a, p.XSpan().b, 0)) !=
             if p.XSpan().extraLo > 0 then ByteAt(m, FramePx(p.frame, p.YSpan().b, p.XSpan().a, 0)) else stale[0]
    ensures !Shows(FastTile(p, m, vec, stale), p)
  {
    RegisterStored(p, lo, m, vec, stale);
    RightPixelExists(p, lo, |m|);
    assert Clamp(p.XSpan().b + 1, p.XSpan().a, p.XSpan().b) == p.XSpan().b;
    hide Clip, Times, Px, FramePx, FastTile, OffTile, Place.Consistent, InSystem, Reference, Clamp, HasPx, Place.Meets,
      Place.XSpan, Place.YSpan, Sound;
    EdgeReference(p, lo, m, vec, stale, p.YSpan().a, p.XSpan().b + 1, 0);
  }

  // The first padded pixel on the right holds the register.
  lemma RegisterStored(p: Place, lo: int, m: seq<byte>, vec: nat, stale: seq<byte>)
    requires Safe(p, lo, |m|) && p.Meets() && p.frame.padding.EdgePadding? && p.frame.pixWidth == 4 && |stale| == 4
    requires p.XSpan().extraHi > 0 && vec > 0
    ensures var s := p.XSpan();
            && HasPx(p, p.YSpan().a, s.b + 1, 0)
            && ByteAt(FastTile(p, m, vec, stale), Px(p, p.YSpan().a, s.b + 1, 0)) ==
               if s.extraLo > 0 then ByteAt(m, FramePx(p.frame, p.YSpan().b, s.a, 0)) else stale[0]
  {
    Spans(p);
    var s, m2 := p.XSpan(), FastLoaded(p, m);
    assert p.frame.Col(0) == 0;
    RegisterIs(p, lo, m, vec, stale);
    RowsKeep(p, lo, m, p.YSpan().a, s.b + 1, 0);
    hide Clip, Times, Px, FramePx, OffTile, Place.Consistent, InSystem, FastLoaded, PadEdgeLeft, PadEdgeRight,
      Register, Place.Meets;
    SidesDo(p, lo, m2, vec, stale, p.YSpan().a, s.b + 1, 0);
  }

  lemma RegisterIs(p: Place, lo: int, m: seq<byte>, vec: nat, stale: seq<byte>)
    requires Safe(p, lo, |m|) && p.Meets() && p.frame.padding.EdgePadding? && p.frame.pixWidth == 4 && |stale| == 4
    ensures |FastLoaded(p, m)| == |m|
    ensures Register(p, PadEdgeLeft(p, FastLoaded(p, m), vec), stale)[0] ==
            if p.XSpan().extraLo > 0 then ByteAt(m, FramePx(p.frame, p.YSpan().b, p.XSpan().a, 0)) else stale[0]
  {
    Spans(p);
    var s, m2 := p.XSpan(), FastLoaded(p, m);
    RowsKeep(p, lo, m, p.YSpan().a, s.a, 0);
    hide Clip, Times, Px, FramePx, OffTile, Place.Consistent, InSystem, FastLoaded, PadEdgeLeft, Register;
    LastRowByte(p, lo, m, s.a, 0);
    LeftKeepsInside(p, lo, m2, vec, p.Y1(), s.a, 0);
    RegisterByte(p, PadEdgeLeft(p, m2, vec), stale);
  }

  lemma LeftKeepsInside(p: Place, lo: int, m: seq<byte>, vec: nat, y: int, x: int, k: int)
    requires Safe(p, lo, |m|) && p.Meets() && HasPx(p, y, x, k) && x >= p.XSpan().a
    ensures ByteAt(PadEdgeLeft(p, m, vec), Px(p, y, x, k)) == ByteAt(m, Px(p, y, x, k))
  {
    hide Clip, Times, Px, OffTile, Place.Consistent, InSystem, PadEdgeLeft, SourcePixels, SidesStored;
    LeftStored(p, lo, m, vec);
    SidesAt(p, m, PadEdgeLeft(p, m, vec), p.X0(), p.XSpan().a, vec, SourcePixels(p, m, p.XSpan().a), y, x, k);
  }

  lemma RegisterByte(p: Place, m: seq<byte>, stale: seq<byte>)
    requires Sound(p) && p.Meets() && p.frame.pixWidth == 4 && |stale| == 4
    ensures |Register(p, m, stale)| == 4
    ensures Register(p, m, stale)[0] ==
              if p.XSpan().extraLo > 0 then ByteAt(m, Px(p, p.Y1(), p.XSpan().a, 0)) else stale[0]
  {
    Spans(p);
    hide Clip, Times, Place.Consistent;
    PxInRow(p, p.Y1(), p.XSpan().a, 0);
  }

  // ---- the two directions together ----

  predicate FastAgrees(p: Place, vec: nat) {
    if p.frame.padding.EdgePadding? then EdgeFits(p, vec) else ConstantFits(p)
  }

  /** A tile meeting a simple frame is filled by the fast path with the extended frame, as the regular path fills it,
      when FastAgrees holds, whatever memory and the register hold; */
  lemma FastTileShows(p: Place, lo: int, m: seq<byte>, vec: nat, stale: seq<byte>)
    requires Safe(p, lo, |m|) && p.Meets() && Simple(p.frame) && |stale| == 4 && FastAgrees(p, vec)
    ensures Shows(FastTile(p, m, vec, stale), p)
  {
    hide Shows, FastTile, EdgeFits, ConstantFits, Place.Consistent, InSystem, Clip;
    if p.frame.padding.EdgePadding? { EdgeShows(p, lo, m, vec, stale); } else {
      ConstantShowsIff(p, lo, m, vec, stale);
    }
  }

  /** and otherwise there are contents for which it is not. */
  lemma FastTileFails(p: Place, lo: int, len: nat, vec: nat) returns (m: seq<byte>, stale: seq<byte>)
    requires Safe(p, lo, len) && p.Meets() && Simple(p.frame) && !FastAgrees(p, vec)
    ensures |m| == len && |stale| == 4 && !Shows(FastTile(p, m, vec, stale), p)
  {
    hide Shows, FastTile, ConstantFits, Place.Consistent, InSystem, Clip;
    stale := [0, 0, 0, 0];
    if !p.frame.padding.EdgePadding? {
      m := Zeros(len);
      ConstantShowsIff(p, lo, m, vec, stale);
    } else if p.frame.Col(p.XSpan().extraLo) > vec {
      m := VectorTooShort(p, lo, len, vec, p.XSpan().a - 1);
    } else if p.frame.Col(p.XSpan().extraHi) > vec {
      m := VectorTooShort(p, lo, len, vec, p.X1());
    } else {
      m, stale := WrongRegister(p, lo, len, vec);
    }
  }

  // Neither path touches memory outside the tile.
  lemma FastElsewhere(p: Place, lo: int, m: seq<byte>, vec: nat, stale: seq<byte>, a: int)
    requires Safe(p, lo, |m|) && p.Meets() && Simple(p.frame) && |stale| == 4 && 0 <= a < |m| && OffTile(p, a)
    ensures |FastTile(p, m, vec, stale)| == |m| && FastTile(p, m, vec, stale)[a] == m[a]
  {
    if p.frame.padding.EdgePadding? {
      EdgeElsewhere(p, lo, m, vec, stale, a);
    } else {
      FastLoadEffect(p, lo, m);
      ConstantFinal(p, lo, FastLoad(p).Exec(m));
      hide Clip, Times, Px, OffTile, Place.Consistent, InSystem, FastLoad, PadConstant, Loaded;
    }
  }

  // The regular path: the load, then the four stages of padding.
  ghost predicate RegularTile(p: Place, m: seq<byte>, m4: seq<byte>) {
    exists m1, m2, m3 ::
      Stages(p, p.YSpan().a, p.YSpan().b, p.XSpan().a, p.XSpan().b, ExecAll(m, LoadOps(p, None)), m1, m2, m3, m4)
  }

  lemma RegularShows(p: Place, lo: int, m: seq<byte>, m4: seq<byte>)
    requires Safe(p, lo, |m|) && p.Meets() && RegularTile(p, m, m4)
    ensures Shows(m4, p) && |m4| == |m| && forall a :: 0 <= a < |m| && OffTile(p, a) ==> m4[a] == m[a]
  {
    var m0 := FastLoad(p).Exec(m);
    FastLoadIsLoad(p);
    assert ExecAll(m, LoadOps(p, None)) == m0;
    FastLoadEffect(p, lo, m);
    hide Clip, Times, Px, OffTile, Place.Consistent, InSystem, FastLoad, Loaded, Stages, LoadOps, Shows;
    var m1, m2, m3 :| Stages(p, p.YSpan().a, p.YSpan().b, p.XSpan().a, p.XSpan().b, m0, m1, m2, m3, m4);
    PaddingCompletes(p, lo, m0, m1, m2, m3, m4);
  }

  /** The fast path and the regular one leave the same tile. */
  lemma FastEqualsRegular(p: Place, lo: int, m: seq<byte>, vec: nat, stale: seq<byte>, m4: seq<byte>)
    requires Safe(p, lo, |m|) && p.Meets() && Simple(p.frame) && |stale| == 4 && FastAgrees(p, vec)
             && RegularTile(p, m, m4)
    ensures forall y, x, k :: HasPx(p, y, x, k) ==>
              ByteAt(FastTile(p, m, vec, stale), Px(p, y, x, k)) == ByteAt(m4, Px(p, y, x, k))
  {
    FastTileShows(p, lo, m, vec, stale);
    RegularShows(p, lo, m, m4);
    hide Clip, Times, Px, OffTile, Place.Consistent, InSystem, FastTile, RegularTile, FastAgrees, Reference;
    forall y, x, k | HasPx(p, y, x, k)
      ensures ByteAt(FastTile(p, m, vec, stale), Px(p, y, x, k)) == ByteAt(m4, Px(p, y, x, k))
    {
      FrameSame(p, lo, m, vec, stale, m4, y, x, k);
    }
  }

  lemma FrameSame(p: Place, lo: int, m: seq<byte>, vec: nat, stale: seq<byte>, m4: seq<byte>, y: int, x: int, k: int)
    requires Safe(p, lo, |m|) && p.Meets() && Simple(p.frame) && |stale| == 4 && 0 <= k < p.frame.pixWidth
             && |m4| == |m|
    requires forall a :: 0 <= a < |m| && OffTile(p, a) ==> m4[a] == m[a]
    ensures Reference(FastTile(p, m, vec, stale), p.frame, y, x, k) == Reference(m4, p.frame, y, x, k)
  {
    var f := p.frame;
    var yy, xx := Clamp(y, 0 - f.padTop, f.height - 1 + f.padBottom), Clamp(x, 0 - f.padLeft, f.width - 1 + f.padRight);
    hide Clip, Times, Px, FramePx, OffTile, Place.Consistent, FastTile, InSystem, FastAgrees;
    FrameByteSame(p, lo, m, vec, stale, m4, yy, xx, k);
  }

  lemma FrameByteSame(p: Place, lo: int, m: seq<byte>, vec: nat, stale: seq<byte>, m4: seq<byte>, y: int, x: int,
                      k: int)
    requires Safe(p, lo, |m|) && p.Meets() && Simple(p.frame) && |stale| == 4 && 0 <= k < p.frame.pixWidth
             && |m4| == |m|
    requires p.frame.HasPixel(y, x) && forall a :: 0 <= a < |m| && OffTile(p, a) ==> m4[a] == m[a]
    ensures ByteAt(FastTile(p, m, vec, stale), FramePx(p.frame, y, x, k)) == ByteAt(m4, FramePx(p.frame, y, x, k))
  {
    hide Clip, Times, Px, FramePx, OffTile, Place.Consistent, FastTile, InSystem;
    FrameAddress(p, lo, |m|, y, x, k);
    FastElsewhere(p, lo, m, vec, stale, FramePx(p.frame, y, x, k));
  }

  // The frame's bytes are in memory and outside the tile.
  lemma FrameAddress(p: Place, lo: int, len: nat, y: int, x: int, k: int)
    requires Safe(p, lo, len) && p.frame.HasPixel(y, x) && 0 <= k < p.frame.pixWidth
    ensures 0 <= FramePx(p.frame, y, x, k) < len && OffTile(p, FramePx(p.frame, y, x, k))
  {
    FramePxInExtent(p.frame, y, x, k);
    OutsideBuffer(p, FramePx(p.frame, y, x, k));
    RowsAreLaid(p, p.Y0());
  }
}
