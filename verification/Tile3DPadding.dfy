// What the load and the padding transfers of a 3D tile do to memory: each one extends the part of the
// tile that shows the frame's image, and none writes outside the tile's buffer.

module Tile3DPadding {
  import opened Dma
  import opened Grids
  import opened TileGeometry
  import opened TilePadding
  import opened Tile3D

  // ---- the tile's rows in its buffer ----

  function RowStart3(v: Volume, z: int, y: int): int { v.TileGrid().At(z, y, v.Col(v.x.First())) }

  predicate RowIn(v: Volume, z: int, y: int) { v.z.First() <= z <= v.z.Last() && v.y.First() <= y <= v.y.Last() }

  lemma RowStartIs(v: Volume, z: int, y: int)
    ensures RowStart3(v, z, y) == v.EdgePtr() + Times(z - v.z.First(), v.plane) + Times(y - v.y.First(), v.pitch)
  {
    TileAddress3(v, z - v.z.First(), y - v.y.First(), 0);
    TimesAdd(v.z.edgeLo - (z - v.z.First()), z - v.z.First(), v.plane);
    TimesAdd(v.y.edgeLo - (y - v.y.First()), y - v.y.First(), v.pitch);
  }

  lemma TimesOrder(a: int, b: int, pitch: int)
    requires a <= b && 0 <= pitch
    ensures Times(a, pitch) <= Times(b, pitch)
  {
    if a < b { TimesMonotone(a, b, pitch); }
  }

  // Rows follow each other without meeting, and a whole 2D tile ends before the next begins.
  lemma RowsOrdered3(v: Volume, z: int, y: int, z': int, y': int)
    requires v.Sound() && RowIn(v, z, y) && RowIn(v, z', y') && (z < z' || (z == z' && y < y'))
    ensures RowStart3(v, z, y) + v.RowBytes() <= RowStart3(v, z', y')
  {
    RowStartIs(v, z, y);
    RowStartIs(v, z', y');
    PitchesPositive(v);
    var dy, dy', dz, dz' := y - v.y.First(), y' - v.y.First(), z - v.z.First(), z' - v.z.First();
    if z == z' {
      TimesMonotone(dy, dy', v.pitch);
    } else {
      TimesMonotone(dy, v.Rows(), v.pitch);
      TimesMonotone(dz, dz', v.plane);
      TimesOrder(0, dy', v.pitch);
    }
  }

  lemma PitchesPositive(v: Volume)
    requires v.Sound()
    ensures 0 <= v.RowBytes() <= v.pitch && Times(v.Rows(), v.pitch) <= v.plane && 0 <= v.plane
  {
    TimesOrder(0, v.x.size + v.x.edgeLo + v.x.edgeHi, v.pixWidth);
    TimesOrder(0, v.Rows(), v.pitch);
  }

  lemma RowsFit3(v: Volume, z: int, y: int)
    requires v.Sound() && RowIn(v, z, y)
    ensures v.bufLo <= RowStart3(v, z, y) && RowStart3(v, z, y) + v.RowBytes() <= v.bufHi && 0 <= v.RowBytes()
  {
    RowStartIs(v, z, y);
    PitchesPositive(v);
    var dy, dz := y - v.y.First(), z - v.z.First();
    TimesOrder(0, dy, v.pitch);
    TimesOrder(0, dz, v.plane);
    TimesMonotone(dy, v.Rows(), v.pitch);
    TimesMonotone(dz, v.Planes(), v.plane);
    TimesAdd(v.z.edgeLo, v.z.size + v.z.edgeHi, v.plane);
  }

  // Columns of a row, in order.
  lemma ColumnsInRow(v: Volume, z: int, y: int, a: int, b: int)
    requires v.Sound() && v.x.First() <= a <= b <= v.x.Last() + 1
    ensures RowStart3(v, z, y) <= v.TileGrid().At(z, y, v.Col(a)) <= v.TileGrid().At(z, y, v.Col(b)) <= RowStart3(v, z,
                y) + v.RowBytes()
    ensures a < b ==> v.Col(a) + v.pixWidth <= v.Col(b)
  {
    TimesOrder(v.x.First(), a, v.pixWidth);
    TimesOrder(a, b, v.pixWidth);
    TimesOrder(b, v.x.Last() + 1, v.pixWidth);
    TimesAdd(v.x.First(), v.x.size + v.x.edgeLo + v.x.edgeHi, v.pixWidth);
    if a < b { TimesMonotone(a, b, v.pixWidth); }
  }

  // ---- memory ----

  // Bytes outside lo..hi are the same.
  ghost predicate SameOutside(m: seq<byte>, m': seq<byte>, lo: int, hi: int) {
    |m'| == |m| && forall a :: 0 <= a < |m| && !(lo <= a < hi) ==> m'[a] == m[a]
  }

  // The tile's buffer is in memory and the padded frame lies above `local`, where no buffer does.
  ghost predicate Setting(v: Volume, local: int, len: nat) {
    && v.Sound() && 0 <= v.bufLo && v.bufHi <= local <= len
    && forall z, y, x, k :: v.InFrame(z, y, x) && 0 <= k < v.pixWidth ==> local <= FrameAt(v, z, y, x, k) < len
  }

  lemma ReferenceSame(m: seq<byte>, m': seq<byte>, v: Volume, local: int, z: int, y: int, x: int, k: int)
    requires Setting(v, local, |m|) && SameOutside(m, m', v.bufLo, v.bufHi) && 0 <= k < v.pixWidth
    ensures Reference3(m', v, z, y, x, k) == Reference3(m, v, z, y, x, k)
  {
    var zz, yy, xx := Clamp(z, v.z.Lo(), v.z.Hi()), Clamp(y, v.y.Lo(), v.y.Hi()), Clamp(x, v.x.Lo(), v.x.Hi());
    assert v.InFrame(zz, yy, xx);
    assert local <= FrameAt(v, zz, yy, xx, k) < |m|;
  }

  // A pixel outside the written box keeps its byte.
  lemma OutsideBoxKept(m: seq<byte>, v: Volume, s: Grid, r: Region, z: int, y: int, x: int, k: int)
    requires v.Sound() && 0 <= v.bufLo && v.bufHi <= |m| && r.NonEmpty() && r.Within(v.Whole())
             && v.BoxOf(r).WellFormed()
    requires v.Whole().Has(z, y, x) && 0 <= k < v.pixWidth && !r.Has(z, y, x)
    ensures TileByte(BoxDesc(v.TileGrid(), s, v.BoxOf(r)).Exec(m), v, z, y, x, k) == TileByte(m, v, z, y, x, k)
  {
    var t, b := v.TileGrid(), v.BoxOf(r);
    var a := t.At(z, y, v.Col(x) + k);
    RowsFit3(v, z, y);
    ColumnsInRow(v, z, y, x, x + 1);
    forall z', y' | b.HasRow(z', y') ensures !(t.At(z', y', b.c0) <= a < t.At(z', y', b.c1)) {
      ColumnsInRow(v, z', y', r.xa, r.xb + 1);
      if z' == z && y' == y {
        if x < r.xa { ColumnsInRow(v, z, y, x, r.xa); } else { ColumnsInRow(v, z, y, r.xb + 1, x); }
      } else if z' < z || (z' == z && y' < y) {
        RowsOrdered3(v, z', y', z, y);
      } else {
        RowsOrdered3(v, z, y, z', y');
      }
    }
    MoveOutside(m, t, s, b, a);
  }

  // A byte outside the tile's buffer is kept.
  lemma OutsideBufferKept(m: seq<byte>, v: Volume, s: Grid, r: Region)
    requires v.Sound() && r.NonEmpty() && r.Within(v.Whole()) && v.BoxOf(r).WellFormed()
    ensures SameOutside(m, BoxDesc(v.TileGrid(), s, v.BoxOf(r)).Exec(m), v.bufLo, v.bufHi)
  {
    var t, b := v.TileGrid(), v.BoxOf(r);
    forall a | 0 <= a < |m| && !(v.bufLo <= a < v.bufHi) ensures BoxDesc(t, s, b).Exec(m)[a] == m[a] {
      forall z, y | b.HasRow(z, y) ensures !(t.At(z, y, b.c0) <= a < t.At(z, y, b.c1)) {
        RowsFit3(v, z, y);
        ColumnsInRow(v, z, y, r.xa, r.xb + 1);
      }
      MoveOutside(m, t, s, b, a);
    }
  }

  // Every byte of the box is read from where the image is.
  ghost predicate Feeds(m: seq<byte>, v: Volume, s: Grid, r: Region) {
    forall z, y, x, k :: r.Has(z, y, x) && 0 <= k < v.pixWidth ==>
      ByteAt(m, s.At(z, y, v.Col(x) + k)) == Reference3(m, v, z, y, x, k)
  }

  /** A transfer fed with the image extends the region that shows it. */
  lemma Extends(m: seq<byte>, v: Volume, local: int, s: Grid, r: Region, from: Region, to: Region)
    requires Setting(v, local, |m|) && r.NonEmpty() && r.Within(v.Whole()) && v.BoxOf(r).WellFormed()
    requires BoxDesc(v.TileGrid(), s, v.BoxOf(r)).Safe(|m|) && Feeds(m, v, s, r)
    requires ShowsOn(m, v, from) && from.Within(v.Whole())
    requires forall z, y, x :: to.Has(z, y, x) ==> from.Has(z, y, x) || r.Has(z, y, x)
    ensures ShowsOn(BoxDesc(v.TileGrid(), s, v.BoxOf(r)).Exec(m), v, to)
    ensures SameOutside(m, BoxDesc(v.TileGrid(), s, v.BoxOf(r)).Exec(m), v.bufLo, v.bufHi)
  {
    var m' := BoxDesc(v.TileGrid(), s, v.BoxOf(r)).Exec(m);
    OutsideBufferKept(m, v, s, r);
    forall z, y, x, k | to.Has(z, y, x) && 0 <= k < v.pixWidth
      ensures TileByte(m', v, z, y, x, k) == Reference3(m', v, z, y, x, k)
    {
      ReferenceSame(m, m', v, local, z, y, x, k);
      if r.Has(z, y, x) { InsideBoxMoved(m, v, s, r, z, y, x, k); } else { OutsideBoxKept(m, v, s, r, z, y, x, k); }
    }
  }

  lemma InsideBoxMoved(m: seq<byte>, v: Volume, s: Grid, r: Region, z: int, y: int, x: int, k: int)
    requires v.Sound() && r.Within(v.Whole()) && v.BoxOf(r).WellFormed()
             && BoxDesc(v.TileGrid(), s, v.BoxOf(r)).Safe(|m|)
    requires r.Has(z, y, x) && 0 <= k < v.pixWidth
    ensures TileByte(BoxDesc(v.TileGrid(), s, v.BoxOf(r)).Exec(m), v, z, y, x, k) == ByteAt(m, s.At(z, y, v.Col(x) + k))
  {
    ColumnsInRow(v, z, y, r.xa, x);
    ColumnsInRow(v, z, y, x, x + 1);
    ColumnsInRow(v, z, y, x + 1, r.xb + 1);
    MoveInside(m, v.TileGrid(), s, v.BoxOf(r), z, y, v.Col(x) + k);
  }

  // ---- the transfers are safe ----

  // The rows a transfer reads are in memory and apart from those it writes.
  ghost predicate GoodSource(v: Volume, len: nat, s: Grid, b: Box) {
    && b.WellFormed()
    && (forall z, y :: b.HasRow(z, y) ==> Fits(len, s.At(z, y, b.c0), b.c1 - b.c0))
    && (forall z, y, z', y' :: b.HasRow(z, y) && b.HasRow(z', y') ==>
          Apart(v.TileGrid().At(z, y, b.c0), s.At(z', y', b.c0), b.c1 - b.c0))
  }

  lemma TransferIsSafe(v: Volume, len: nat, s: Grid, r: Region)
    requires v.Sound() && 0 <= v.bufLo && v.bufHi <= len && r.NonEmpty() && r.Within(v.Whole())
             && GoodSource(v, len, s, v.BoxOf(r))
    ensures BoxDesc(v.TileGrid(), s, v.BoxOf(r)).Safe(len)
  {
    var t, b := v.TileGrid(), v.BoxOf(r);
    forall z, y | b.HasRow(z, y) ensures Fits(len, t.At(z, y, b.c0), b.c1 - b.c0) {
      RowsFit3(v, z, y);
      ColumnsInRow(v, z, y, r.xa, r.xb + 1);
    }
    forall z, y, z', y' | b.HasRow(z, y) && b.HasRow(z', y') && (z, y) != (z', y')
      ensures Apart(t.At(z, y, b.c0), t.At(z', y', b.c0), b.c1 - b.c0)
    {
      RowsApart3(v, r, z, y, z', y', t.At(z, y, b.c0), t.At(z', y', b.c0));
    }
    BoxIsSafe(len, t, s, b);
  }

  // The same columns of two different rows.
  lemma RowsApart3(v: Volume, r: Region, z: int, y: int, z': int, y': int, a: int, a': int)
    requires v.Sound() && r.NonEmpty() && r.Within(v.Whole()) && RowIn(v, z, y) && RowIn(v, z', y')
             && (z, y) != (z', y')
    requires a == v.TileGrid().At(z, y, v.Col(r.xa)) && a' == v.TileGrid().At(z', y', v.Col(r.xa))
    ensures 0 <= v.Col(r.xb + 1) - v.Col(r.xa) && Apart(a, a', v.Col(r.xb + 1) - v.Col(r.xa))
  {
    ColumnsInRow(v, z, y, r.xa, r.xb + 1);
    ColumnsInRow(v, z', y', r.xa, r.xb + 1);
    if z < z' || (z == z' && y < y') { RowsOrdered3(v, z, y, z', y'); } else { RowsOrdered3(v, z', y', z, y); }
  }

  lemma LoadSource(v: Volume, local: int, len: nat)
    requires Setting(v, local, len) && v.Meets()
    ensures v.Inner().Within(v.Whole()) && GoodSource(v, len, v.FrameGrid(), v.BoxOf(v.Inner()))
  {
    var r, b, s := v.Inner(), v.BoxOf(v.Inner()), v.FrameGrid();
    LoadIsBox(v);
    AxisParts(v.x); AxisParts(v.y); AxisParts(v.z);
    TimesAdd(r.xb, 1, v.pixWidth);
    TimesIsProduct(1, v.pixWidth);
    forall z, y | b.HasRow(z, y) ensures local <= s.At(z, y, b.c0) && Fits(len, s.At(z, y, b.c0), b.c1 - b.c0) {
      assert v.InFrame(z, y, r.xa) && v.InFrame(z, y, r.xb);
      assert local <= FrameAt(v, z, y, r.xa, 0) && FrameAt(v, z, y, r.xb, v.pixWidth - 1) < len;
      RowsFit3(v, z, y);
      assert FrameAt(v, z, y, r.xb, v.pixWidth - 1) == s.At(z, y, b.c0) + (b.c1 - b.c0) - 1;
    }
    forall z, y, z', y' | b.HasRow(z, y) && b.HasRow(z', y')
      ensures Apart(v.TileGrid().At(z, y, b.c0), s.At(z', y', b.c0), b.c1 - b.c0)
    {
      RowsFit3(v, z, y);
      ColumnsInRow(v, z, y, r.xa, r.xb + 1);
    }
  }

  lemma TempSource(v: Volume, len: nat, temp: int, r: Region)
    requires v.Sound() && r.NonEmpty() && r.Within(v.Whole())
    requires var n := v.Col(r.xb + 1) - v.Col(r.xa);
             0 <= temp && temp + n <= len && (temp + n <= v.bufLo || v.bufHi <= temp)
    ensures GoodSource(v, len, TempGrid(temp, v.Col(r.xa)), v.BoxOf(r))
  {
    var b, s := v.BoxOf(r), TempGrid(temp, v.Col(r.xa));
    ColumnsInRow(v, r.za, r.ya, r.xa, r.xb + 1);
    forall z, y | b.HasRow(z, y) ensures s.At(z, y, b.c0) == temp { TempAt(temp, v.Col(r.xa), z, y, b.c0); }
    forall z, y, z', y' | b.HasRow(z, y) && b.HasRow(z', y')
      ensures Apart(v.TileGrid().At(z, y, b.c0), s.At(z', y', b.c0), b.c1 - b.c0)
    {
      RowsFit3(v, z, y);
      ColumnsInRow(v, z, y, r.xa, r.xb + 1);
    }
  }

  lemma FaceParts(v: Volume, i: nat)
    requires v.Sound() && v.Meets() && i < FACES && Extra(v, i) > 0
    ensures var r := Face(v.Whole(), v.Inner(), i);
            r.NonEmpty() && r.Within(v.Whole()) && forall z, y, x :: r.Has(z, y, x) ==> !v.InFrame(z, y, x)
  {
    AxisParts(v.x); AxisParts(v.y); AxisParts(v.z);
    hide Clip, Times;
  }

  lemma FaceGrows(v: Volume, i: nat, z: int, y: int, x: int)
    requires v.Sound() && v.Meets() && i < FACES
    ensures Grown(v.Whole(), v.Inner(), i).Within(v.Whole())
    ensures Grown(v.Whole(), v.Inner(), i + 1).Has(z, y, x) <==>
            Grown(v.Whole(), v.Inner(), i).Has(z, y, x) || Face(v.Whole(), v.Inner(), i).Has(z, y, x)
    ensures Extra(v, i) <= 0 ==> Grown(v.Whole(), v.Inner(), i + 1) == Grown(v.Whole(), v.Inner(), i)
  {
    AxisParts(v.x); AxisParts(v.y); AxisParts(v.z);
    hide Clip, Times;
  }

  lemma RepeatSource(v: Volume, len: nat, i: nat)
    requires v.Sound() && 0 <= v.bufLo && v.bufHi <= len && v.Meets() && 2 <= i < FACES && Extra(v, i) > 0
    ensures GoodSource(v, len, RepeatGrid(v, i), v.BoxOf(Face(v.Whole(), v.Inner(), i)))
  {
    var n, r := v.Inner(), Face(v.Whole(), v.Inner(), i);
    var b, s, t := v.BoxOf(r), RepeatGrid(v, i), v.TileGrid();
    FaceParts(v, i);
    AxisParts(v.x); AxisParts(v.y); AxisParts(v.z);
    ColumnsInRow(v, r.za, r.ya, r.xa, r.xb + 1);
    hide Clip, Times;
    forall z, y | b.HasRow(z, y)
      ensures s.At(z, y, b.c0) == t.At(SourceZ(n, i, z), SourceY(n, i, y), b.c0)
              && Fits(len, s.At(z, y, b.c0), b.c1 - b.c0)
    {
      RepeatGridAt(v, i, z, y, b.c0);
      RowsFit3(v, SourceZ(n, i, z), SourceY(n, i, y));
      ColumnsInRow(v, SourceZ(n, i, z), SourceY(n, i, y), r.xa, r.xb + 1);
    }
    forall z, y, z', y' | b.HasRow(z, y) && b.HasRow(z', y')
      ensures Apart(t.At(z, y, b.c0), s.At(z', y', b.c0), b.c1 - b.c0)
    {
      RowsApart3(v, r, z, y, SourceZ(n, i, z'), SourceY(n, i, y'), t.At(z, y, b.c0), s.At(z', y', b.c0));
    }
  }

  lemma ColumnSource(v: Volume, len: nat, i: nat, j: nat)
    requires v.Sound() && 0 <= v.bufLo && v.bufHi <= len && v.Meets() && i < 2 && j < Extra(v, i)
    ensures ColumnRegion(v.Inner(), i, j).NonEmpty() && ColumnRegion(v.Inner(), i, j).Within(v.Whole())
    ensures GoodSource(v, len, ColumnGrid(v, i, j), v.BoxOf(ColumnRegion(v.Inner(), i, j)))
  {
    var n, r := v.Inner(), ColumnRegion(v.Inner(), i, j);
    var b, s, t := v.BoxOf(r), ColumnGrid(v, i, j), v.TileGrid();
    var x := if i == 0 then n.xa else n.xb;
    AxisParts(v.x); AxisParts(v.y); AxisParts(v.z);
    TimesAdd(r.xa, 1, v.pixWidth);
    TimesAdd(x, 1, v.pixWidth);
    TimesIsProduct(1, v.pixWidth);
    ColumnsInRow(v, r.za, r.ya, r.xa, r.xa + 1);
    hide Clip, Times;
    forall z, y | b.HasRow(z, y)
      ensures s.At(z, y, b.c0) == t.At(z, y, v.Col(x)) && Fits(len, s.At(z, y, b.c0), b.c1 - b.c0)
    {
      ColumnAt(v, i, j, z, y, r.xa, 0);
      RowsFit3(v, z, y);
      ColumnsInRow(v, z, y, x, x + 1);
    }
    forall z, y, z', y' | b.HasRow(z, y) && b.HasRow(z', y')
      ensures Apart(t.At(z, y, b.c0), s.At(z', y', b.c0), b.c1 - b.c0)
    {
      PixelsApart(v, z, y, r.xa, z', y', x);
    }
  }

  // Two different pixels.
  lemma PixelsApart(v: Volume, z: int, y: int, x: int, z': int, y': int, x': int)
    requires v.Sound() && v.Whole().Has(z, y, x) && v.Whole().Has(z', y', x') && x != x'
    ensures Apart(v.TileGrid().At(z, y, v.Col(x)), v.TileGrid().At(z', y', v.Col(x')), v.pixWidth)
  {
    ColumnsInRow(v, z, y, x, x + 1);
    ColumnsInRow(v, z', y', x', x' + 1);
    if z < z' || (z == z' && y < y') { RowsOrdered3(v, z, y, z', y'); }
    else if z' < z || y' < y { RowsOrdered3(v, z', y', z, y); }
    else if x < x' { ColumnsInRow(v, z, y, x, x'); }
    else { ColumnsInRow(v, z, y, x', x); }
  }

  // ---- the transfers carry the image ----

  lemma LoadFeeds(m: seq<byte>, v: Volume)
    requires v.Sound() && v.Meets()
    ensures Feeds(m, v, v.FrameGrid(), v.Inner())
  {
    AxisParts(v.x); AxisParts(v.y); AxisParts(v.z);
    hide Clip, Times;
    forall z, y, x, k | v.Inner().Has(z, y, x) && 0 <= k < v.pixWidth
      ensures ByteAt(m, v.FrameGrid().At(z, y, v.Col(x) + k)) == Reference3(m, v, z, y, x, k) {}
  }

  // The temporary row holds the padding pattern.
  ghost predicate Patterned(m: seq<byte>, v: Volume, temp: int, n: int) {
    forall j :: 0 <= j < n ==> ByteAt(m, temp + j) == PadByte(v.padding, v.paddingVal, v.pixWidth, j)
  }

  lemma TempFeeds(m: seq<byte>, v: Volume, i: nat, temp: int)
    requires v.Sound() && v.Meets() && i < FACES && Extra(v, i) > 0 && !v.padding.EdgePadding?
             && Patterned(m, v, temp, TempSize(v, i))
    ensures var r := Face(v.Whole(), v.Inner(), i); Feeds(m, v, TempGrid(temp, v.Col(r.xa)), r)
  {
    var r := Face(v.Whole(), v.Inner(), i);
    FaceParts(v, i);
    AxisParts(v.x);
    assert TempSize(v, i) == v.Col(r.xb + 1 - r.xa);
    hide Clip, Times, PadByte, TempSize, Extra, Face;
    forall z, y, x, k | r.Has(z, y, x) && 0 <= k < v.pixWidth
      ensures ByteAt(m, TempGrid(temp, v.Col(r.xa)).At(z, y, v.Col(x) + k)) == Reference3(m, v, z, y, x, k)
    {
      var j := v.Col(x - r.xa) + k;
      TimesAdd(r.xa, x - r.xa, v.pixWidth);
      TimesOrder(0, x - r.xa, v.pixWidth);
      TimesMonotone(x - r.xa, r.xb + 1 - r.xa, v.pixWidth);
      TempAt(temp, v.Col(r.xa), z, y, v.Col(x) + k);
      assert ByteAt(m, temp + j) == PadByte(v.padding, v.paddingVal, v.pixWidth, j);
      PatternRepeats(v, x - r.xa, k);
    }
  }

  // The pattern starts afresh with every pixel.
  lemma PatternRepeats(v: Volume, n: int, k: int)
    ensures PadByte(v.padding, v.paddingVal, v.pixWidth, v.Col(n) + k) ==
              PadByte(v.padding, v.paddingVal, v.pixWidth, k)
  {
    if v.pixWidth % 2 == 0 { EvenCol(n, v.pixWidth, k); }
  }

  // Beyond a face that needs padding the extended frame repeats the face's layer.
  lemma EdgeRepeats(m: seq<byte>, v: Volume, i: nat, z: int, y: int, x: int, k: int)
    requires v.Sound() && v.Meets() && i < FACES && Extra(v, i) > 0 && v.padding.EdgePadding?
    requires Face(v.Whole(), v.Inner(), i).Has(z, y, x)
    ensures var n := v.Inner();
            var x' := if i == 0 then n.xa else if i == 1 then n.xb else x;
            && Grown(v.Whole(), n, i).Has(SourceZ(n, i, z), SourceY(n, i, y), x')
            && Reference3(m, v, SourceZ(n, i, z), SourceY(n, i, y), x', k) == Reference3(m, v, z, y, x, k)
  {
    AxisParts(v.x); AxisParts(v.y); AxisParts(v.z);
    hide Clip, Times, FrameByte;
  }

  lemma RepeatFeeds(m: seq<byte>, v: Volume, i: nat)
    requires v.Sound() && v.Meets() && 2 <= i < FACES && Extra(v, i) > 0 && v.padding.EdgePadding?
    requires ShowsOn(m, v, Grown(v.Whole(), v.Inner(), i))
    ensures Feeds(m, v, RepeatGrid(v, i), Face(v.Whole(), v.Inner(), i))
  {
    var n, r := v.Inner(), Face(v.Whole(), v.Inner(), i);
    hide Clip, Times, Extra, Face, Grown, Reference3, RepeatGrid;
    forall z, y, x, k | r.Has(z, y, x) && 0 <= k < v.pixWidth
      ensures ByteAt(m, RepeatGrid(v, i).At(z, y, v.Col(x) + k)) == Reference3(m, v, z, y, x, k)
    {
      EdgeRepeats(m, v, i, z, y, x, k);
      RepeatGridAt(v, i, z, y, v.Col(x) + k);
      assert TileByte(m, v, SourceZ(n, i, z), SourceY(n, i, y), x, k) ==
               Reference3(m, v, SourceZ(n, i, z), SourceY(n, i, y), x, k);
    }
  }

  lemma ColumnFeeds(m: seq<byte>, v: Volume, i: nat, j: nat)
    requires v.Sound() && v.Meets() && i < 2 && j < Extra(v, i) && v.padding.EdgePadding?
    requires ShowsOn(m, v, Grown(v.Whole(), v.Inner(), i))
    ensures Feeds(m, v, ColumnGrid(v, i, j), ColumnRegion(v.Inner(), i, j))
  {
    var n, r := v.Inner(), ColumnRegion(v.Inner(), i, j);
    var x' := if i == 0 then n.xa else n.xb;
    forall z, y, x, k | r.Has(z, y, x) && 0 <= k < v.pixWidth
      ensures ByteAt(m, ColumnGrid(v, i, j).At(z, y, v.Col(x) + k)) == Reference3(m, v, z, y, x, k)
    {
      AxisParts(v.x); AxisParts(v.y); AxisParts(v.z);
      hide Clip, Times, Reference3, ColumnGrid;
      EdgeRepeats(m, v, i, z, y, x, k);
      ColumnAt(v, i, j, z, y, x, k);
      assert TileByte(m, v, z, y, x', k) == Reference3(m, v, z, y, x', k);
    }
  }

  // ---- the stages ----

  /** The load shows the image on the part inside the frame. */
  lemma LoadShows(m: seq<byte>, v: Volume, local: int)
    requires Setting(v, local, |m|) && v.Meets()
    ensures ShowsOn(LoadDesc(v).Exec(m), v, Grown(v.Whole(), v.Inner(), 0))
            && SameOutside(m, LoadDesc(v).Exec(m), v.bufLo, v.bufHi)
    ensures LoadDesc(v).Safe(|m|)
  {
    var nothing := v.Inner().(xb := v.Inner().xa - 1);
    LoadIsBox(v);
    LoadSource(v, local, |m|);
    LoadFeeds(m, v);
    TransferIsSafe(v, |m|, v.FrameGrid(), v.Inner());
    hide Clip, Times, Setting, GoodSource, LoadDesc, BoxDesc;
    assert nothing.Within(v.Whole());
    Extends(m, v, local, v.FrameGrid(), v.Inner(), nothing, v.Inner());
  }

  // A temporary row outside the tile's buffer.
  ghost predicate TempOk(v: Volume, len: nat, temp: int, n: int) {
    0 <= temp && temp + n <= len && (temp + n <= v.bufLo || v.bufHi <= temp)
  }

  /** A face padded with a constant from a temporary row: the image reaches over the face. */
  lemma ConstantFace(m: seq<byte>, v: Volume, local: int, i: nat, temp: int)
    requires Setting(v, local, |m|) && v.Meets() && i < FACES && Extra(v, i) > 0 && !v.padding.EdgePadding?
    requires TempOk(v, |m|, temp, TempSize(v, i)) && Patterned(m, v, temp, TempSize(v, i))
    requires ShowsOn(m, v, Grown(v.Whole(), v.Inner(), i))
    ensures ConstantDesc(v, i, temp).Safe(|m|)
    ensures ShowsOn(ConstantDesc(v, i, temp).Exec(m), v, Grown(v.Whole(), v.Inner(), i + 1))
    ensures SameOutside(m, ConstantDesc(v, i, temp).Exec(m), v.bufLo, v.bufHi)
  {
    var w, n, r := v.Whole(), v.Inner(), Face(v.Whole(), v.Inner(), i);
    ConstantIsBox(v, i, temp);
    FaceParts(v, i);
    TempWidth(v, i);
    forall z, y, x { FaceGrows(v, i, z, y, x); }
    hide Clip, Times, Extra, Face, Grown, TempSize, ConstantDesc, TempGrid, BoxDesc, Reference3;
    TempSource(v, |m|, temp, r);
    TempFeeds(m, v, i, temp);
    TransferIsSafe(v, |m|, TempGrid(temp, v.Col(r.xa)), r);
    Extends(m, v, local, TempGrid(temp, v.Col(r.xa)), r, Grown(w, n, i), Grown(w, n, i + 1));
  }

  lemma TempWidth(v: Volume, i: nat)
    requires v.Sound() && v.Meets() && i < FACES && Extra(v, i) > 0
    ensures var r := Face(v.Whole(), v.Inner(), i); TempSize(v, i) == v.Col(r.xb + 1) - v.Col(r.xa)
  {
    AxisParts(v.x);
    var r := Face(v.Whole(), v.Inner(), i);
    TimesAdd(r.xa, r.xb + 1 - r.xa, v.pixWidth);
  }

  lemma RepeatFace(m: seq<byte>, v: Volume, local: int, i: nat)
    requires Setting(v, local, |m|) && v.Meets() && 2 <= i < FACES && Extra(v, i) > 0 && v.padding.EdgePadding?
    requires ShowsOn(m, v, Grown(v.Whole(), v.Inner(), i))
    ensures RepeatDesc(v, i).Safe(|m|)
    ensures ShowsOn(RepeatDesc(v, i).Exec(m), v, Grown(v.Whole(), v.Inner(), i + 1))
    ensures SameOutside(m, RepeatDesc(v, i).Exec(m), v.bufLo, v.bufHi)
  {
    var w, n, r := v.Whole(), v.Inner(), Face(v.Whole(), v.Inner(), i);
    RepeatIsBox(v, i);
    FaceParts(v, i);
    forall z, y, x { FaceGrows(v, i, z, y, x); }
    RepeatSource(v, |m|, i);
    RepeatFeeds(m, v, i);
    hide Clip, Times, Extra, Face, Grown, RepeatDesc, RepeatGrid, BoxDesc, Reference3;
    TransferIsSafe(v, |m|, RepeatGrid(v, i), r);
    Extends(m, v, local, RepeatGrid(v, i), r, Grown(w, n, i), Grown(w, n, i + 1));
  }

  lemma SameOutsideTwice(a: seq<byte>, b: seq<byte>, c: seq<byte>, lo: int, hi: int)
    requires SameOutside(a, b, lo, hi) && SameOutside(b, c, lo, hi)
    ensures SameOutside(a, c, lo, hi)
  {
  }

  lemma ShowsPart(m: seq<byte>, v: Volume, whole: Region, part: Region)
    requires ShowsOn(m, v, whole) && part.Within(whole)
    ensures ShowsOn(m, v, part)
  {
    hide Reference3, TileByte;
    forall z, y, x, k | part.Has(z, y, x) && 0 <= k < v.pixWidth
      ensures TileByte(m, v, z, y, x, k) == Reference3(m, v, z, y, x, k)
    {
      assert whole.Has(z, y, x);
    }
  }

  // The left or right face once its first j columns are done.
  function Partly(v: Volume, i: nat, j: nat): Region {
    var g := Grown(v.Whole(), v.Inner(), i);
    if i == 0 then g.(xa := v.Inner().xa - j) else g.(xb := v.Inner().xb + j)
  }

  lemma PartlyParts(v: Volume, i: nat, j: nat, z: int, y: int, x: int)
    requires v.Sound() && v.Meets() && i < 2 && j <= Extra(v, i)
    ensures Partly(v, i, j).Within(v.Whole()) && Grown(v.Whole(), v.Inner(), i).Within(Partly(v, i, j))
    ensures Partly(v, i, 0) == Grown(v.Whole(), v.Inner(), i)
    ensures j == Extra(v, i) ==> Partly(v, i, j) == Grown(v.Whole(), v.Inner(), i + 1)
    ensures Partly(v, i, j + 1).Has(z, y, x) ==>
              Partly(v, i, j).Has(z, y, x) || ColumnRegion(v.Inner(), i, j).Has(z, y, x)
  {
    AxisParts(v.x); AxisParts(v.y); AxisParts(v.z);
    hide Clip, Times;
  }

  lemma ColumnShows(m: seq<byte>, v: Volume, local: int, i: nat, j: nat)
    requires Setting(v, local, |m|) && v.Meets() && i < 2 && j < Extra(v, i) && v.padding.EdgePadding?
             && ShowsOn(m, v, Partly(v, i, j))
    ensures ColumnDesc(v, i, j).Safe(|m|) && ShowsOn(ColumnDesc(v, i, j).Exec(m), v, Partly(v, i, j + 1))
    ensures SameOutside(m, ColumnDesc(v, i, j).Exec(m), v.bufLo, v.bufHi)
  {
    var r := ColumnRegion(v.Inner(), i, j);
    ColumnIsBox(v, i, j);
    ColumnSource(v, |m|, i, j);
    forall z, y, x { PartlyParts(v, i, j, z, y, x); }
    hide Clip, Times, Partly, Grown, ColumnDesc, BoxDesc, Extra, ColumnGrid, ColumnRegion, Reference3;
    ShowsPart(m, v, Partly(v, i, j), Grown(v.Whole(), v.Inner(), i));
    ColumnFeeds(m, v, i, j);
    TransferIsSafe(v, |m|, ColumnGrid(v, i, j), r);
    Extends(m, v, local, ColumnGrid(v, i, j), r, Partly(v, i, j), Partly(v, i, j + 1));
  }

  lemma {:induction false} ColumnsShow(m: seq<byte>, v: Volume, local: int, i: nat, j: nat)
    requires Setting(v, local, |m|) && v.Meets() && i < 2 && j <= Extra(v, i) && v.padding.EdgePadding?
    requires ShowsOn(m, v, Grown(v.Whole(), v.Inner(), i))
    ensures var m' := ExecAll3(m, EdgeDescs(v, i)[..j]);
            ShowsOn(m', v, Partly(v, i, j)) && SameOutside(m, m', v.bufLo, v.bufHi)
  {
    var ds := EdgeDescs(v, i);
    PartlyParts(v, i, 0, 0, 0, 0);
    if j > 0 {
      ColumnsShow(m, v, local, i, j - 1);
      assert ds[..j][..j - 1] == ds[..j - 1] && ds[..j][j - 1] == ColumnDesc(v, i, j - 1);
      hide Clip, Times, Partly, Grown, ColumnDesc, Extra, ShowsOn, SameOutside, EdgeDescs, Setting;
      var m1 := ExecAll3(m, ds[..j - 1]);
      ColumnShows(m1, v, local, i, j - 1);
      SameOutsideTwice(m, m1, ColumnDesc(v, i, j - 1).Exec(m1), v.bufLo, v.bufHi);
    }
  }

  /** A face padded by repeating the frame's edge: the image reaches over the face. */
  lemma EdgeFace(m: seq<byte>, v: Volume, local: int, i: nat)
    requires Setting(v, local, |m|) && v.Meets() && i < FACES && Extra(v, i) > 0 && v.padding.EdgePadding?
    requires ShowsOn(m, v, Grown(v.Whole(), v.Inner(), i))
    ensures var m' := ExecAll3(m, EdgeDescs(v, i));
            ShowsOn(m', v, Grown(v.Whole(), v.Inner(), i + 1)) && SameOutside(m, m', v.bufLo, v.bufHi)
  {
    var ds := EdgeDescs(v, i);
    assert ds[..|ds|] == ds;
    if i < 2 {
      ColumnsShow(m, v, local, i, Extra(v, i));
      PartlyParts(v, i, Extra(v, i), 0, 0, 0);
    } else {
      RepeatFace(m, v, local, i);
      assert ds[..0] == [] && ds == [RepeatDesc(v, i)];
      hide Clip, Times, Grown, RepeatDesc, Extra, ShowsOn, SameOutside;
      assert ExecAll3(m, []) == m;
    }
  }

  lemma EdgeIsSafe(v: Volume, len: nat, i: nat, d: Desc)
    requires v.Sound() && 0 <= v.bufLo && v.bufHi <= len && v.Meets() && i < FACES && Extra(v, i) > 0
             && d in EdgeDescs(v, i)
    ensures d.Safe(len)
  {
    if i < 2 {
      var j :| 0 <= j < Extra(v, i) && d == ColumnDesc(v, i, j);
      ColumnIsBox(v, i, j);
      ColumnSource(v, len, i, j);
      TransferIsSafe(v, len, ColumnGrid(v, i, j), ColumnRegion(v.Inner(), i, j));
    } else {
      RepeatIsBox(v, i);
      FaceParts(v, i);
      RepeatSource(v, len, i);
      TransferIsSafe(v, len, RepeatGrid(v, i), Face(v.Whole(), v.Inner(), i));
    }
  }
}
