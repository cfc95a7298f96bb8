// A 3D tile that does not meet its frame: the first row is filled with padding, copied to the other rows of
// the first 2D tile, and that one to the others, each from the one before.

module Tile3DOutside {
  import opened Dma
  import opened Grids
  import opened TileGeometry
  import opened TilePadding
  import opened Tile3D
  import opened Tile3DPadding

  // Every byte of the region is padding: zero unless the padding is constant.
  ghost predicate PadsOn(m: seq<byte>, v: Volume, r: Region) {
    forall z, y, x, k :: r.Has(z, y, x) && 0 <= k < v.pixWidth ==>
      TileByte(m, v, z, y, x, k) == PadByte(v.padding, v.paddingVal, v.pixWidth, k)
  }

  /** Outside the frame the extended frame is padding, except where edge padding would clamp. */
  lemma OutsideIsPadding(m: seq<byte>, v: Volume)
    requires v.Sound() && !v.Meets()
    ensures !v.padding.EdgePadding? ==> (PadsOn(m, v, v.Whole()) <==> ShowsOn(m, v, v.Whole()))
  {
    forall z, y, x | v.Whole().Has(z, y, x) ensures !v.InFrame(z, y, x) {
      ClipIsIntersection(v.x.First(), v.x.Last(), v.x.padLo, v.x.frameSize, v.x.padHi, x);
      ClipIsIntersection(v.y.First(), v.y.Last(), v.y.padLo, v.y.frameSize, v.y.padHi, y);
      ClipIsIntersection(v.z.First(), v.z.Last(), v.z.padLo, v.z.frameSize, v.z.padHi, z);
    }
    hide Clip, Times, PadByte, TileByte;
    if !v.padding.EdgePadding? {
      forall z, y, x, k | v.Whole().Has(z, y, x) && 0 <= k < v.pixWidth
        ensures Reference3(m, v, z, y, x, k) == PadByte(v.padding, v.paddingVal, v.pixWidth, k) {}
    }
  }

  // Every byte of the tile outside the padded frame is padding, in numbers.
  ghost predicate PaddedOutside3(m: seq<byte>, v: Volume) {
    forall z, y, x, k :: v.Whole().Has(z, y, x) && !v.InFrame(z, y, x) && 0 <= k < v.pixWidth ==>
      IsPadding(v.padding, v.paddingVal, v.pixWidth, k, TileByte(m, v, z, y, x, k))
  }

  /** A tile that shows the extended frame, or that is all padding, is zero or the constant outside the padded frame. */
  lemma FilledIsPadding(m: seq<byte>, v: Volume)
    requires ShowsOn(m, v, v.Whole()) || PadsOn(m, v, v.Whole())
    ensures !v.padding.EdgePadding? ==> PaddedOutside3(m, v)
    ensures v.padding.EdgePadding? && PadsOn(m, v, v.Whole()) ==>
              forall z, y, x, k :: v.Whole().Has(z, y, x) && 0 <= k < v.pixWidth ==> TileByte(m, v, z, y, x, k) == 0
  {
    hide Times, TileByte;
    forall z, y, x, k | v.Whole().Has(z, y, x) && !v.InFrame(z, y, x) && 0 <= k < v.pixWidth
      ensures !v.padding.EdgePadding? ==>
                IsPadding(v.padding, v.paddingVal, v.pixWidth, k, TileByte(m, v, z, y, x, k))
    {
      assert v.padding.EdgePadding? || Reference3(m, v, z, y, x, k) == PadByte(v.padding, v.paddingVal, v.pixWidth, k);
    }
  }

  // The frame's pixels nearest to the tile's.
  function Nearest(v: Volume): Region {
    Region(Clamp(v.z.First(), v.z.Lo(), v.z.Hi()), Clamp(v.z.Last(), v.z.Lo(), v.z.Hi()),
           Clamp(v.y.First(), v.y.Lo(), v.y.Hi()), Clamp(v.y.Last(), v.y.Lo(), v.y.Hi()),
           Clamp(v.x.First(), v.x.Lo(), v.x.Hi()), Clamp(v.x.Last(), v.x.Lo(), v.x.Hi()))
  }

  ghost predicate BlackOn(m: seq<byte>, v: Volume, r: Region) {
    forall z, y, x, k :: r.Has(z, y, x) && 0 <= k < v.pixWidth ==> FrameByte(m, v, z, y, x, k) == 0
  }

  /** In edge mode a tile outside the frame that was filled with padding, which is then zero, shows the clamped frame if
      and only if the frame's nearest pixels are all zero. */
  lemma OutsideEdgeShowsIffBlack(m: seq<byte>, v: Volume)
    requires v.Sound() && !v.Meets() && v.padding.EdgePadding? && PadsOn(m, v, v.Whole())
    ensures ShowsOn(m, v, v.Whole()) <==> BlackOn(m, v, Nearest(v))
  {
    hide Clip, Times, TileByte, FrameByte;
    if ShowsOn(m, v, v.Whole()) {
      forall z, y, x, k | Nearest(v).Has(z, y, x) && 0 <= k < v.pixWidth ensures FrameByte(m, v, z, y, x, k) == 0 {
        var zz := Over(v.z, z);
        var yy := Over(v.y, y);
        var xx := Over(v.x, x);
        assert v.Whole().Has(zz, yy, xx);
        assert TileByte(m, v, zz, yy, xx, k) == 0;
      }
    }
    if BlackOn(m, v, Nearest(v)) {
      forall z, y, x, k | v.Whole().Has(z, y, x) && 0 <= k < v.pixWidth
        ensures TileByte(m, v, z, y, x, k) == Reference3(m, v, z, y, x, k)
      {
        NearestOf(v.z, z); NearestOf(v.y, y); NearestOf(v.x, x);
        assert Nearest(v).Has(Clamp(z, v.z.Lo(), v.z.Hi()), Clamp(y, v.y.Lo(), v.y.Hi()), Clamp(x, v.x.Lo(), v.x.Hi()));
      }
    }
  }

  // A position of the tile whose nearest one in the frame is c.
  lemma Over(a: Axis, c: int) returns (t: int)
    requires a.Sound() && Clamp(a.First(), a.Lo(), a.Hi()) <= c <= Clamp(a.Last(), a.Lo(), a.Hi())
    ensures a.First() <= t <= a.Last() && Clamp(t, a.Lo(), a.Hi()) == c
  {
    t := if c < a.First() then a.First() else if c > a.Last() then a.Last() else c;
  }

  lemma NearestOf(a: Axis, t: int)
    requires a.Sound() && a.First() <= t <= a.Last()
    ensures Clamp(a.First(), a.Lo(), a.Hi()) <= Clamp(t, a.Lo(), a.Hi()) <= Clamp(a.Last(), a.Lo(), a.Hi())
    ensures a.Lo() <= Clamp(t, a.Lo(), a.Hi()) <= a.Hi()
  {
  }

  // ---- the transfers ----

  // The first row: what the request stores itself.
  function FirstRow(v: Volume): Fill {
    Fill(v.EdgePtr(),
         seq<byte>(if v.RowBytes() < 0 then 0 else v.RowBytes(), j => PadByte(v.padding, v.paddingVal, v.pixWidth, j)))
  }

  // The first row to the other rows of the first 2D tile.
  function RowsDesc(v: Volume): Desc {
    Copy3(v.EdgePtr() + v.pitch, v.EdgePtr(), v.RowBytes(), v.Rows() - 1, 0, v.pitch, 0, 0, 1)
  }

  // The first 2D tile to the others.
  function StackDesc(v: Volume): Desc {
    Copy3(v.EdgePtr() + v.plane, v.EdgePtr(), v.RowBytes(), v.Rows(), v.pitch, v.pitch, v.plane, v.plane,
          v.Planes() - 1)
  }

  // The first n 2D tiles and the first row of the next.
  function Stacked(v: Volume, n: int): Region { v.Whole().(zb := v.z.First() + n - 1) }

  lemma PadExtends(m: seq<byte>, v: Volume, s: Grid, r: Region, from: Region, to: Region)
    requires v.Sound() && 0 <= v.bufLo && v.bufHi <= |m| && r.NonEmpty() && r.Within(v.Whole())
             && v.BoxOf(r).WellFormed()
    requires BoxDesc(v.TileGrid(), s, v.BoxOf(r)).Safe(|m|) && PadsOn(m, v, from) && to.Within(v.Whole())
    requires forall z, y, x, k :: r.Has(z, y, x) && 0 <= k < v.pixWidth ==>
               ByteAt(m, s.At(z, y, v.Col(x) + k)) == PadByte(v.padding, v.paddingVal, v.pixWidth, k)
    requires forall z, y, x :: to.Has(z, y, x) ==> from.Has(z, y, x) || r.Has(z, y, x)
    ensures PadsOn(BoxDesc(v.TileGrid(), s, v.BoxOf(r)).Exec(m), v, to)
  {
    var m' := BoxDesc(v.TileGrid(), s, v.BoxOf(r)).Exec(m);
    hide PadByte, BoxDesc;
    forall z, y, x, k | to.Has(z, y, x) && 0 <= k < v.pixWidth
      ensures TileByte(m', v, z, y, x, k) == PadByte(v.padding, v.paddingVal, v.pixWidth, k)
    {
      if r.Has(z, y, x) { InsideBoxMoved(m, v, s, r, z, y, x, k); } else { OutsideBoxKept(m, v, s, r, z, y, x, k); }
    }
  }

  // The tile's grid one 2D tile further down.
  function BelowGrid(v: Volume): Grid { ShiftedGrid(v.TileGrid(), 0 - v.plane) }

  lemma BelowAt(v: Volume, z: int, y: int, c: int)
    ensures BelowGrid(v).At(z, y, c) == v.TileGrid().At(z - 1, y, c)
  {
    TimesAdd(z - 1, 1, v.plane);
    TimesIsProduct(1, v.plane);
  }

  // The first row shows padding once it is stored.
  lemma FirstRowPads(m: seq<byte>, v: Volume)
    requires v.Sound() && 0 <= v.bufLo && v.bufHi <= |m|
    ensures var w := v.Whole();
            PadsOn(Write(m, FirstRow(v)), v, w.(zb := w.za, yb := w.ya))
              && SameOutside(m, Write(m, FirstRow(v)), v.bufLo, v.bufHi)
  {
    var w, m' := v.Whole(), Write(m, FirstRow(v));
    RowsFit3(v, w.za, w.ya);
    RowStartIs(v, w.za, w.ya);
    forall x, k | w.xa <= x <= w.xb && 0 <= k < v.pixWidth
      ensures TileByte(m', v, w.za, w.ya, x, k) == PadByte(v.padding, v.paddingVal, v.pixWidth, k)
    {
      var j := v.Col(x - w.xa) + k;
      TimesAdd(w.xa, x - w.xa, v.pixWidth);
      ColumnsInRow(v, w.za, w.ya, x, x + 1);
      PatternRepeats(v, x - w.xa, k);
      hide PadByte;
      assert v.TileGrid().At(w.za, w.ya, v.Col(x) + k) == v.EdgePtr() + j;
    }
  }

  // With a single plane the plane pitches do not matter.
  lemma OnePlaneExec(m: seq<byte>, d: Desc, e: Desc)
    requires d.planes == 1 && e == d.(srcPlanePitch := e.srcPlanePitch, dstPlanePitch := e.dstPlanePitch)
    ensures e.Exec(m) == d.Exec(m)
  {
    assert d.AllRows(0) == [] && e.AllRows(0) == [];
    forall i | 0 <= i < d.rows ensures d.RowAt(0, i) == e.RowAt(0, i) {}
    assert d.PlaneRows(0, d.rows) == e.PlaneRows(0, d.rows);
    assert d.AllRows(1) == d.PlaneRows(0, d.rows) && e.AllRows(1) == e.PlaneRows(0, d.rows);
  }

  lemma NoRows(m: seq<byte>, d: Desc)
    requires d.planes == 1 && d.rows == 0
    ensures d.Exec(m) == m
  {
    assert d.AllRows(0) == [];
    assert d.AllRows(1) == [];
  }

  // The other rows of the first 2D tile.
  function OtherRows(v: Volume): Region { var w := v.Whole(); w.(zb := w.za, ya := w.ya + 1) }

  lemma RowsAreBox(v: Volume)
    requires v.Sound() && v.y.First() < v.y.Last()
    ensures var r, s := OtherRows(v), OneRowGrid(v.TileGrid(), v.y.First());
            && r.NonEmpty() && r.Within(v.Whole()) && v.BoxOf(r).WellFormed()
            && BoxDesc(v.TileGrid(), s, v.BoxOf(r)) == RowsDesc(v).(srcPlanePitch := v.plane, dstPlanePitch := v.plane)
  {
    var r, s, w := OtherRows(v), OneRowGrid(v.TileGrid(), v.y.First()), v.Whole();
    RowStartIs(v, w.za, w.ya);
    RowStartIs(v, w.za, w.ya + 1);
    TimesIsProduct(1, v.pitch);
    TimesZero(w.ya + 1);
    assert Times(0, v.plane) == 0 && Times(0, v.pitch) == 0;
    hide Times, Clip, Copy3;
    BoxOfRegion(v, r, s, v.EdgePtr() + v.pitch, v.EdgePtr(), v.RowBytes(), v.Rows() - 1, 1);
    assert Copy3(v.EdgePtr() + v.pitch, v.EdgePtr(), v.RowBytes(), v.Rows() - 1, 0, v.pitch, v.plane, v.plane, 1)
           == RowsDesc(v).(srcPlanePitch := v.plane, dstPlanePitch := v.plane) by { SamePitches(v); }
  }

  lemma SamePitches(v: Volume)
    ensures Copy3(v.EdgePtr() + v.pitch, v.EdgePtr(), v.RowBytes(), v.Rows() - 1, 0, v.pitch, v.plane, v.plane, 1)
            == RowsDesc(v).(srcPlanePitch := v.plane, dstPlanePitch := v.plane)
  {
  }

  // Rows read from one row of the tile, or from the 2D tile before.
  lemma OtherSource(v: Volume, len: nat, s: Grid, r: Region, dz: int)
    requires v.Sound() && 0 <= v.bufLo && v.bufHi <= len && r.NonEmpty() && r.Within(v.Whole()) && r.za == r.zb
             && r.xa == v.x.First() && r.xb == v.x.Last()
    requires (dz == 0 && r.ya > v.y.First() && s == OneRowGrid(v.TileGrid(), v.y.First()))
             || (dz == 1 && r.za > v.z.First() && s == BelowGrid(v))
    ensures GoodSource(v, len, s, v.BoxOf(r))
    ensures forall z, y, c :: RowIn(v, z, y) && z == r.za ==>
              s.At(z, y, c) == v.TileGrid().At(z - dz, if dz == 0 then v.y.First() else y, c)
  {
    var b, t := v.BoxOf(r), v.TileGrid();
    forall z, y, c | RowIn(v, z, y) && z == r.za
      ensures s.At(z, y, c) == t.At(z - dz, if dz == 0 then v.y.First() else y, c)
    {
      if dz == 0 { TimesZero(y); } else { BelowAt(v, z, y, c); }
    }
    ColumnsInRow(v, r.za, r.ya, r.xa, r.xb + 1);
    hide Times, Clip;
    forall z, y | b.HasRow(z, y) ensures Fits(len, s.At(z, y, b.c0), b.c1 - b.c0) {
      RowsFit3(v, z - dz, if dz == 0 then v.y.First() else y);
      ColumnsInRow(v, z - dz, if dz == 0 then v.y.First() else y, r.xa, r.xb + 1);
    }
    forall z, y, z', y' | b.HasRow(z, y) && b.HasRow(z', y')
      ensures Apart(t.At(z, y, b.c0), s.At(z', y', b.c0), b.c1 - b.c0)
    {
      RowsApart3(v, r, z, y, z' - dz, if dz == 0 then v.y.First() else y', t.At(z, y, b.c0), s.At(z', y', b.c0));
    }
  }

  lemma RowsShow(m: seq<byte>, v: Volume)
    requires v.Sound() && 0 <= v.bufLo && v.bufHi <= |m|
             && PadsOn(m, v, v.Whole().(zb := v.z.First(), yb := v.y.First()))
    ensures PadsOn(RowsDesc(v).Exec(m), v, Stacked(v, 1)) && SameOutside(m, RowsDesc(v).Exec(m), v.bufLo, v.bufHi)
  {
    if v.y.First() == v.y.Last() {
      NoRows(m, RowsDesc(v));
    } else {
      var r, s, d := OtherRows(v), OneRowGrid(v.TileGrid(), v.y.First()), RowsDesc(v);
      var first := v.Whole().(zb := v.z.First(), yb := v.y.First());
      RowsAreBox(v);
      OtherSource(v, |m|, s, r, 0);
      OnePlaneExec(m, d, d.(srcPlanePitch := v.plane, dstPlanePitch := v.plane));
      TransferIsSafe(v, |m|, s, r);
      OutsideBufferKept(m, v, s, r);
      forall z, y, x, k | r.Has(z, y, x) && 0 <= k < v.pixWidth
        ensures ByteAt(m, s.At(z, y, v.Col(x) + k)) == PadByte(v.padding, v.paddingVal, v.pixWidth, k)
      {
        assert RowIn(v, z, y) && first.Has(z, v.y.First(), x);
        assert TileByte(m, v, z, v.y.First(), x, k) == PadByte(v.padding, v.paddingVal, v.pixWidth, k);
      }
      hide Times, Clip, RowsDesc, PadByte, OneRowGrid;
      PadExtends(m, v, s, r, first, Stacked(v, 1));
    }
  }

  // ---- the stack, one 2D tile at a time ----

  lemma {:induction false} SameRows(d: Desc, n: nat, p: nat)
    ensures d.(planes := n).AllRows(p) == d.AllRows(p)
  {
    if p > 0 {
      SameRows(d, n, p - 1);
      var e, q := d.(planes := n), p - 1;
      forall i | 0 <= i < d.rows ensures e.RowAt(q, i) == d.RowAt(q, i) {}
      assert e.PlaneRows(q, d.rows) == d.PlaneRows(q, d.rows);
    }
  }

  // One more plane is one more transfer.
  lemma NextPlane(m: seq<byte>, d: Desc, p: nat, e: Desc)
    requires e == d.(dst := d.dst + p * d.dstPlanePitch, src := d.src + p * d.srcPlanePitch, planes := 1)
    ensures d.(planes := p + 1).Exec(m) == e.Exec(d.(planes := p).Exec(m))
  {
    SameRows(d, p + 1, p + 1);
    SameRows(d, p, p);
    OnePlaneRows(d, p, e);
    hide CopyRows, Desc.RowAt, Desc.PlaneRows;
    CopyRowsAppend(m, d.AllRows(p), d.PlaneRows(p, d.rows), d.rowSize);
  }

  lemma OnePlaneRows(d: Desc, p: nat, e: Desc)
    requires e == d.(dst := d.dst + p * d.dstPlanePitch, src := d.src + p * d.srcPlanePitch, planes := 1)
    ensures e.AllRows(1) == d.PlaneRows(p, d.rows)
  {
    assert e.AllRows(0) == [];
    forall i | 0 <= i < d.rows ensures e.RowAt(0, i) == d.RowAt(p, i) {}
    assert e.PlaneRows(0, d.rows) == d.PlaneRows(p, d.rows);
  }

  // The plane after the first n, filled from the one before.
  lemma PlaneIsBox(v: Volume, n: nat)
    requires v.Sound() && 0 < n < v.Planes()
    ensures var z := v.z.First() + n;
            var r, d := v.Whole().(za := z, zb := z), StackDesc(v);
            && r.NonEmpty() && r.Within(v.Whole()) && v.BoxOf(r).WellFormed()
            && BoxDesc(v.TileGrid(), BelowGrid(v), v.BoxOf(r)) ==
               d.(dst := d.dst + (n - 1) * d.dstPlanePitch, src := d.src + (n - 1) * d.srcPlanePitch, planes := 1)
  {
    var z := v.z.First() + n;
    var r, d := v.Whole().(za := z, zb := z), StackDesc(v);
    RowStartIs(v, z, v.y.First());
    RowStartIs(v, z - 1, v.y.First());
    BelowAt(v, z, v.y.First(), v.Col(v.x.First()));
    TimesAdd(n - 1, 1, v.plane);
    TimesIsProduct(1, v.plane);
    TimesIsProduct(n - 1, v.plane);
    PitchesPositive(v);
    hide Times, Clip;
    BoxOfRegion(v, r, BelowGrid(v), d.dst + (n - 1) * d.dstPlanePitch, d.src + (n - 1) * d.srcPlanePitch, v.RowBytes(),
                v.Rows(), 1);
  }

  lemma PlaneShows(m: seq<byte>, v: Volume, n: nat)
    requires v.Sound() && 0 <= v.bufLo && v.bufHi <= |m| && 0 < n < v.Planes() && PadsOn(m, v, Stacked(v, n))
    ensures var d := StackDesc(v);
            var m' := d.(dst := d.dst + (n - 1) * d.dstPlanePitch, src := d.src + (n - 1) * d.srcPlanePitch,
                         planes := 1).Exec(m);
            PadsOn(m', v, Stacked(v, n + 1)) && SameOutside(m, m', v.bufLo, v.bufHi)
  {
    var z, w := v.z.First() + n, v.Whole();
    var r := w.(za := z, zb := z);
    PlaneIsBox(v, n);
    OtherSource(v, |m|, BelowGrid(v), r, 1);
    TransferIsSafe(v, |m|, BelowGrid(v), r);
    OutsideBufferKept(m, v, BelowGrid(v), r);
    hide Times, Clip, StackDesc, PadByte, BelowGrid;
    forall z', y, x, k | r.Has(z', y, x) && 0 <= k < v.pixWidth
      ensures ByteAt(m, BelowGrid(v).At(z', y, v.Col(x) + k)) == PadByte(v.padding, v.paddingVal, v.pixWidth, k)
    {
      assert RowIn(v, z', y) && Stacked(v, n).Has(z' - 1, y, x);
      assert TileByte(m, v, z' - 1, y, x, k) == PadByte(v.padding, v.paddingVal, v.pixWidth, k);
    }
    PadExtends(m, v, BelowGrid(v), r, Stacked(v, n), Stacked(v, n + 1));
  }

  lemma {:induction false} PlanesShow(m: seq<byte>, v: Volume, p: nat)
    requires v.Sound() && 0 <= v.bufLo && v.bufHi <= |m| && p < v.Planes() && PadsOn(m, v, Stacked(v, 1))
    ensures var m' := StackDesc(v).(planes := p).Exec(m);
            PadsOn(m', v, Stacked(v, p + 1)) && SameOutside(m, m', v.bufLo, v.bufHi)
  {
    var d := StackDesc(v);
    if p == 0 {
      assert d.(planes := 0).AllRows(0) == [];
    } else {
      PlanesShow(m, v, p - 1);
      var m1 := d.(planes := p - 1).Exec(m);
      var e := d.(dst := d.dst + (p - 1) * d.dstPlanePitch, src := d.src + (p - 1) * d.srcPlanePitch, planes := 1);
      NextPlane(m, d, p - 1, e);
      PlaneShows(m1, v, p);
      SameOutsideTwice(m, m1, e.Exec(m1), v.bufLo, v.bufHi);
    }
  }

  /** The second transfer fills the whole tile with padding. */
  lemma StackShows(m: seq<byte>, v: Volume)
    requires v.Sound() && 0 <= v.bufLo && v.bufHi <= |m| && PadsOn(m, v, Stacked(v, 1))
    ensures PadsOn(StackDesc(v).Exec(m), v, v.Whole()) && SameOutside(m, StackDesc(v).Exec(m), v.bufLo, v.bufHi)
  {
    PlanesShow(m, v, v.Planes() - 1);
    assert Stacked(v, v.Planes()) == v.Whole();
    assert StackDesc(v).(planes := v.Planes() - 1) == StackDesc(v);
  }
}
