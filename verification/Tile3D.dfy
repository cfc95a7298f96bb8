// 3D tiles: where a tile lies over its frame, the image it should show, and the transfers that load it
// and pad it face by face.

module Tile3D {
  import opened Dma
  import opened Grids
  import opened TileGeometry
  import opened TilePadding

  /** One axis of a tile over its padded frame. */
  datatype Axis = Axis(pos: int, size: nat, edgeLo: nat, edgeHi: nat, frameSize: nat, padLo: nat, padHi: nat) {
    function First(): int { pos - edgeLo }
    function Last(): int { pos + (size - 1) + edgeHi }
    function Lo(): int { 0 - padLo }
    function Hi(): int { frameSize - 1 + padHi }
    function Clipped(): Span { Clip(First(), Last(), padLo, frameSize, padHi) }
    predicate Sound() { size > 0 && frameSize > 0 }
  }

  /** A 3D tile and its frame. `pitch` and `plane` are the distances of rows and of 2D tiles, in bytes. */
  datatype Volume = Volume(x: Axis, y: Axis, z: Axis, pixWidth: nat,
                           frameData: int, framePitch: int, framePlane: int,
                           data: int, pitch: int, plane: int, bufLo: int, bufHi: int,
                           padding: Padding, paddingVal: nat)
  {
    function Col(n: int): int { Times(n, pixWidth) }

    function FrameGrid(): Grid { Grids.Grid(frameData, framePitch, framePlane) }

    function EdgePtr(): int { data - (Times(z.edgeLo, plane) + Times(y.edgeLo, pitch) + Col(x.edgeLo)) }

    function TileGrid(): Grid {
      Grids.Grid(EdgePtr() - Times(z.First(), plane) - Times(y.First(), pitch) - Col(x.First()), pitch, plane)
    }

    function RowBytes(): int { Col(x.size + x.edgeLo + x.edgeHi) }

    function Rows(): int { y.edgeLo + y.size + y.edgeHi }

    function Planes(): int { z.edgeLo + z.size + z.edgeHi }

    predicate Meets() {
      z.Clipped().a <= z.Clipped().b && y.Clipped().a <= y.Clipped().b && x.Clipped().a <= x.Clipped().b
    }

    // XV_TILE_IS_CONSISTENT_3D
    predicate Consistent() {
      && pitch >= RowBytes() && plane >= Times(Rows(), pitch) && EdgePtr() >= bufLo
      && data - Col(x.edgeLo) - Times(y.edgeLo, pitch) + Times(z.size + z.edgeHi, plane) <= bufHi
    }

    predicate Sound() { x.Sound() && y.Sound() && z.Sound() && pixWidth > 0 && Consistent() }

    function Whole(): Region { Region(z.First(), z.Last(), y.First(), y.Last(), x.First(), x.Last()) }

    // The part of the tile inside the padded frame.
    function Inner(): Region {
      Region(z.Clipped().a, z.Clipped().b, y.Clipped().a, y.Clipped().b, x.Clipped().a, x.Clipped().b)
    }

    function BoxOf(r: Region): Box { Box(r.za, r.zb + 1, r.ya, r.yb + 1, Col(r.xa), Col(r.xb + 1)) }

    predicate InFrame(zz: int, yy: int, xx: int) {
      z.Lo() <= zz <= z.Hi() && y.Lo() <= yy <= y.Hi() && x.Lo() <= xx <= x.Hi()
    }
  }

  /** Pixels of planes za..zb, rows ya..yb, columns xa..xb, ends included. */
  datatype Region = Region(za: int, zb: int, ya: int, yb: int, xa: int, xb: int) {
    predicate Has(z: int, y: int, x: int) { za <= z <= zb && ya <= y <= yb && xa <= x <= xb }
    predicate NonEmpty() { za <= zb && ya <= yb && xa <= xb }
    predicate Within(r: Region) { r.za <= za && zb <= r.zb && r.ya <= ya && yb <= r.yb && r.xa <= xa && xb <= r.xb }
  }

  // ---- the image ----

  // Byte k of pixel (z, y, x) of the frame extended over all of space.
  function Reference3(m: seq<byte>, v: Volume, z: int, y: int, x: int, k: int): byte {
    if v.InFrame(z, y, x) || v.padding.EdgePadding? then
      FrameByte(m, v, Clamp(z, v.z.Lo(), v.z.Hi()), Clamp(y, v.y.Lo(), v.y.Hi()), Clamp(x, v.x.Lo(), v.x.Hi()), k)
    else PadByte(v.padding, v.paddingVal, v.pixWidth, k)
  }

  function FrameAt(v: Volume, z: int, y: int, x: int, k: int): int { v.FrameGrid().At(z, y, v.Col(x) + k) }

  function FrameByte(m: seq<byte>, v: Volume, z: int, y: int, x: int, k: int): byte {
    ByteAt(m, FrameAt(v, z, y, x, k))
  }

  function TileByte(m: seq<byte>, v: Volume, z: int, y: int, x: int, k: int): byte {
    ByteAt(m, v.TileGrid().At(z, y, v.Col(x) + k))
  }

  // Every byte of the region is that of the extended frame.
  ghost predicate ShowsOn(m: seq<byte>, v: Volume, r: Region) {
    forall z, y, x, k :: r.Has(z, y, x) && 0 <= k < v.pixWidth ==>
      TileByte(m, v, z, y, x, k) == Reference3(m, v, z, y, x, k)
  }

  // ---- the six faces ----

  // Left, right, top, bottom, front, back: the order in which the ready check pads them.
  const FACES := 6

  // Whether face i is to be padded: the request's *_EDGE_PADDING_NEEDED bit.
  function Extra(v: Volume, i: nat): int {
    if i == 0 then v.x.Clipped().extraLo else if i == 1 then v.x.Clipped().extraHi
    else if i == 2 then v.y.Clipped().extraLo else if i == 3 then v.y.Clipped().extraHi
    else if i == 4 then v.z.Clipped().extraLo else v.z.Clipped().extraHi
  }

  // What holds the image once the first i faces are done; `w` is the whole tile and `n` its part inside the frame.
  function Grown(w: Region, n: Region, i: nat): Region {
    Region(if i >= 5 then w.za else n.za, if i >= 6 then w.zb else n.zb,
           if i >= 3 then w.ya else n.ya, if i >= 4 then w.yb else n.yb,
           if i >= 1 then w.xa else n.xa, if i >= 2 then w.xb else n.xb)
  }

  // The pixels face i adds.
  function Face(w: Region, n: Region, i: nat): Region {
    if i == 0 then Region(n.za, n.zb, n.ya, n.yb, w.xa, n.xa - 1)
    else if i == 1 then Region(n.za, n.zb, n.ya, n.yb, n.xb + 1, w.xb)
    else if i == 2 then Region(n.za, n.zb, w.ya, n.ya - 1, w.xa, w.xb)
    else if i == 3 then Region(n.za, n.zb, n.yb + 1, w.yb, w.xa, w.xb)
    else if i == 4 then Region(w.za, n.za - 1, w.ya, w.yb, w.xa, w.xb)
    else Region(n.zb + 1, w.zb, w.ya, w.yb, w.xa, w.xb)
  }

  // ---- the transfers, with the program's own addresses ----

  function Copy3(dst: int, src: int, rowSize: int, rows: int, srcPitch: int, dstPitch: int, srcPlane: int,
                 dstPlane: int, planes: int): Desc {
    Desc(dst, src, if rowSize < 0 then 0 else rowSize, if rows < 0 then 0 else rows, srcPitch, dstPitch,
         if planes < 0 then 0 else planes, srcPlane, dstPlane)
  }

  // The load of the part inside the frame.
  function LoadDesc(v: Volume): Desc {
    var x, y, z := v.x.Clipped(), v.y.Clipped(), v.z.Clipped();
    Copy3(v.EdgePtr() + Times(y.extraLo, v.pitch) + v.Col(x.extraLo) + Times(z.extraLo, v.plane),
          v.frameData + v.Col(x.a) + Times(y.a, v.framePitch) + Times(z.a, v.framePlane),
          v.Col(x.b - x.a + 1), y.b - y.a + 1, v.framePitch, v.pitch, v.framePlane, v.plane, z.b - z.a + 1)
  }

  // Bytes of the temporary row a face needs when it is filled with a constant.
  function TempSize(v: Volume, i: nat): int {
    if i < 2 then v.Col(Extra(v, i)) else v.Col(v.x.size + v.x.edgeHi + v.x.edgeLo)
  }

  // Where face i is written.
  function FaceDst(v: Volume, i: nat): int {
    var x, y, z := v.x.Clipped(), v.y.Clipped(), v.z.Clipped();
    if i == 0 then v.data - v.Col(v.x.edgeLo) - Times(v.y.edgeLo - y.extraLo, v.pitch) - Times(v.z.edgeLo - z.extraLo,
        v.plane)
    else if i == 1 then v.data - Times(v.y.edgeLo - y.extraLo, v.pitch) - Times(v.z.edgeLo - z.extraLo, v.plane)
      + v.Col(x.b - v.x.pos + 1)
    else if i == 2 then v.data - Times(v.y.edgeLo, v.pitch) - Times(v.z.edgeLo - z.extraLo, v.plane) - v.Col(v.x.edgeLo)
    else if i == 3 then v.data
      + Times(v.y.size + v.y.edgeHi - y.extraHi, v.pitch) - v.Col(v.x.edgeLo) - Times(v.z.edgeLo - z.extraLo, v.plane)
    else if i == 4 then v.data - Times(v.y.edgeLo, v.pitch) - v.Col(v.x.edgeLo) - Times(v.z.edgeLo, v.plane)
    else v.data - Times(v.y.edgeLo, v.pitch) - v.Col(v.x.edgeLo) + Times(v.z.size + v.z.edgeHi - z.extraHi, v.plane)
  }

  // Rows and 2D tiles of face i.
  function FaceRows(v: Volume, i: nat): int {
    if i < 2 then v.y.Clipped().b - v.y.Clipped().a + 1 else if i < 4 then Extra(v, i) else v.Rows()
  }

  function FacePlanes(v: Volume, i: nat): int {
    if i < 4 then v.z.Clipped().b - v.z.Clipped().a + 1 else Extra(v, i)
  }

  // Face i from the temporary row.
  function ConstantDesc(v: Volume, i: nat, temp: int): Desc {
    Copy3(FaceDst(v, i), temp, TempSize(v, i), FaceRows(v, i), 0, v.pitch, 0, v.plane, FacePlanes(v, i))
  }

  // Where the pixels are that edge padding repeats.
  function EdgeSrc(v: Volume, i: nat): int {
    var x, y, z := v.x.Clipped(), v.y.Clipped(), v.z.Clipped();
    if i == 0 then v.data - v.Col(v.x.edgeLo - x.extraLo) - Times(v.y.edgeLo - y.extraLo,
                                                                  v.pitch) - Times(v.z.edgeLo - z.extraLo, v.plane)
    else if i == 1 then v.data - Times(v.y.edgeLo - y.extraLo, v.pitch) - Times(v.z.edgeLo - z.extraLo, v.plane)
      + v.Col(v.x.size + v.x.edgeHi - x.extraHi - 1)
    else if i == 2 then v.data - Times(v.y.edgeLo - y.extraLo, v.pitch) - Times(v.z.edgeLo - z.extraLo,
                                                                                v.plane) - v.Col(v.x.edgeLo)
    else if i == 3 then v.data
      + Times(v.y.size + v.y.edgeHi - y.extraHi - 1, v.pitch) - v.Col(v.x.edgeLo) - Times(v.z.edgeLo - z.extraLo,
          v.plane)
    else if i == 4 then v.data - Times(v.y.edgeLo, v.pitch) - v.Col(v.x.edgeLo) - Times(v.z.edgeLo - z.extraLo, v.plane)
    else v.data - Times(v.y.edgeLo, v.pitch) - v.Col(v.x.edgeLo) + Times(v.z.size + v.z.edgeHi - z.extraHi - 1, v.plane)
  }

  // The j-th column (from 0) of a left or right face, copied from the outermost column of the frame.
  function ColumnDesc(v: Volume, i: nat, j: nat): Desc {
    var step := v.Col(j + 1);
    Copy3(if i == 0 then EdgeSrc(v, i) - step else EdgeSrc(v, i) + step, EdgeSrc(v, i), v.pixWidth, FaceRows(v, i),
          v.pitch, v.pitch, v.plane, v.plane, FacePlanes(v, i))
  }

  // A top, bottom, front or back face, every row or every 2D tile from the outermost one.
  function RepeatDesc(v: Volume, i: nat): Desc {
    Copy3(FaceDst(v, i), EdgeSrc(v, i), TempSize(v, i), FaceRows(v, i), if i < 4 then 0 else v.pitch, v.pitch,
          if i < 4 then v.plane else 0, v.plane, FacePlanes(v, i))
  }

  // The transfers that edge-pad face i.
  function EdgeDescs(v: Volume, i: nat): seq<Desc> {
    if i < 2 then seq(if Extra(v, i) < 0 then 0 else Extra(v, i), j requires 0 <= j => ColumnDesc(v, i, j))
    else [RepeatDesc(v, i)]
  }

  // Transfers done in order.
  function ExecAll3(m: seq<byte>, ds: seq<Desc>): (m': seq<byte>)
    ensures |m'| == |m|
  {
    if ds == [] then m else ds[|ds| - 1].Exec(ExecAll3(m, ds[..|ds| - 1]))
  }

  // ---- the transfers are boxes of the tile's grid ----

  lemma TimesZero(n: int)
    ensures Times(n, 0) == 0
  {
    TimesIsProduct(n, 0);
  }

  // The parts of an axis of a tile that meets its frame.
  lemma AxisParts(a: Axis)
    requires a.Sound() && a.Clipped().a <= a.Clipped().b
    ensures var s := a.Clipped();
            && a.First() <= s.a <= s.b <= a.Last() && a.Lo() <= s.a && s.b <= a.Hi()
            && s.extraLo == s.a - a.First() && s.extraHi == a.Last() - s.b
            && (s.extraLo > 0 ==> s.a == a.Lo()) && (s.extraHi > 0 ==> s.b == a.Hi())
  {
  }

  // The address of a tile pixel, by steps from the tile's data pointer.
  lemma TileAddress3(v: Volume, dz: int, dy: int, dx: int)
    ensures v.TileGrid().At(v.z.First() + dz, v.y.First() + dy, v.Col(v.x.First() + dx)) ==
            v.data - Times(v.z.edgeLo - dz, v.plane) - Times(v.y.edgeLo - dy, v.pitch) - v.Col(v.x.edgeLo - dx)
  {
    TimesAdd(v.z.First(), dz, v.plane);
    TimesAdd(v.z.edgeLo - dz, dz, v.plane);
    TimesAdd(v.y.First(), dy, v.pitch);
    TimesAdd(v.y.edgeLo - dy, dy, v.pitch);
    TimesAdd(v.x.First(), dx, v.pixWidth);
    TimesAdd(v.x.edgeLo - dx, dx, v.pixWidth);
  }

  lemma NegativeTimes(n: int, pitch: int)
    ensures Times(0 - n, pitch) == 0 - Times(n, pitch)
  {
    TimesAdd(n, 0 - n, pitch);
  }

  // Where the pixels repeated by edge padding start: the outermost layer that face i touches.
  function Layer(n: Region, face: Region, i: nat): Region {
    if i == 0 then face.(xa := n.xa, xb := n.xa) else if i == 1 then face.(xa := n.xb, xb := n.xb)
    else if i == 2 then face.(ya := n.ya, yb := n.ya) else if i == 3 then face.(ya := n.yb, yb := n.yb)
    else if i == 4 then face.(za := n.za, zb := n.za) else face.(za := n.zb, zb := n.zb)
  }

  function Corner(v: Volume, r: Region): int { v.TileGrid().At(r.za, r.ya, v.Col(r.xa)) }

  lemma FaceDstIs(v: Volume, i: nat)
    requires v.x.Sound() && v.y.Sound() && v.z.Sound() && v.Meets() && i < FACES
    ensures FaceDst(v, i) == Corner(v, Face(v.Whole(), v.Inner(), i))
  {
    AxisParts(v.x); AxisParts(v.y); AxisParts(v.z);
    var r := Face(v.Whole(), v.Inner(), i);
    TileAddress3(v, r.za - v.z.First(), r.ya - v.y.First(), r.xa - v.x.First());
    NegativeTimes(v.x.edgeLo - (r.xa - v.x.First()), v.pixWidth);
    NegativeTimes(v.y.edgeLo - (r.ya - v.y.First()), v.pitch);
    NegativeTimes(v.z.edgeLo - (r.za - v.z.First()), v.plane);
    hide Clip, Times;
  }

  lemma EdgeSrcIs(v: Volume, i: nat)
    requires v.x.Sound() && v.y.Sound() && v.z.Sound() && v.Meets() && i < FACES
    ensures EdgeSrc(v, i) == Corner(v, Layer(v.Inner(), Face(v.Whole(), v.Inner(), i), i))
  {
    AxisParts(v.x); AxisParts(v.y); AxisParts(v.z);
    var r := Layer(v.Inner(), Face(v.Whole(), v.Inner(), i), i);
    TileAddress3(v, r.za - v.z.First(), r.ya - v.y.First(), r.xa - v.x.First());
    NegativeTimes(v.x.edgeLo - (r.xa - v.x.First()), v.pixWidth);
    NegativeTimes(v.y.edgeLo - (r.ya - v.y.First()), v.pitch);
    NegativeTimes(v.z.edgeLo - (r.za - v.z.First()), v.plane);
    hide Clip, Times;
  }

  // A transfer written with the right corners and counts is the box of the region.
  lemma BoxOfRegion(v: Volume, r: Region, s: Grid, dst: int, src: int, rowSize: int, rows: int, planes: int)
    requires r.za <= r.zb + 1 && r.ya <= r.yb + 1 && r.xa <= r.xb + 1
    requires dst == Corner(v, r) && src == s.At(r.za, r.ya, v.Col(r.xa))
    requires rowSize == v.Col(r.xb + 1 - r.xa) && rows == r.yb + 1 - r.ya && planes == r.zb + 1 - r.za
    ensures v.BoxOf(r).WellFormed()
    ensures Copy3(dst, src, rowSize, rows, s.pitch, v.pitch, s.plane, v.plane, planes) ==
              BoxDesc(v.TileGrid(), s, v.BoxOf(r))
  {
    TimesAdd(r.xa, r.xb + 1 - r.xa, v.pixWidth);
    if r.xa < r.xb + 1 { TimesMonotone(r.xa, r.xb + 1, v.pixWidth); }
  }

  // The rows of the temporary buffer, all the same row.
  function TempGrid(temp: int, c0: int): Grid { Grids.Grid(temp - c0, 0, 0) }

  lemma TempAt(temp: int, c0: int, z: int, y: int, c: int)
    ensures TempGrid(temp, c0).At(z, y, c) == temp + c - c0
  {
    TimesZero(z); TimesZero(y);
  }

  lemma ConstantIsBox(v: Volume, i: nat, temp: int)
    requires v.x.Sound() && v.y.Sound() && v.z.Sound() && v.Meets() && i < FACES && Extra(v, i) > 0
    ensures var r := Face(v.Whole(), v.Inner(), i);
            r.NonEmpty() && v.BoxOf(r).WellFormed()
              && ConstantDesc(v, i, temp) == BoxDesc(v.TileGrid(), TempGrid(temp, v.Col(r.xa)), v.BoxOf(r))
  {
    AxisParts(v.x); AxisParts(v.y); AxisParts(v.z);
    var r := Face(v.Whole(), v.Inner(), i);
    FaceDstIs(v, i);
    TempAt(temp, v.Col(r.xa), r.za, r.ya, v.Col(r.xa));
    hide Clip, Times, FaceDst, Corner, Copy3;
    BoxOfRegion(v, r, TempGrid(temp, v.Col(r.xa)), FaceDst(v, i), temp, TempSize(v, i), FaceRows(v, i),
                FacePlanes(v, i));
  }

  // The tile's own grid read elsewhere: dx columns aside, or always at one row or plane.
  function ShiftedGrid(t: Grid, dx: int): Grid { t.(base := t.base + dx) }

  function OneRowGrid(t: Grid, y: int): Grid { Grids.Grid(t.base + Times(y, t.pitch), 0, t.plane) }

  function OnePlaneGrid(t: Grid, z: int): Grid { Grids.Grid(t.base + Times(z, t.plane), t.pitch, 0) }

  // The plane and row whose pixel is repeated at plane z and row y of face i.
  function SourceZ(n: Region, i: nat, z: int): int { if i == 4 then n.za else if i == 5 then n.zb else z }

  function SourceY(n: Region, i: nat, y: int): int { if i == 2 then n.ya else if i == 3 then n.yb else y }

  // The grid edge padding of a top, bottom, front or back face reads.
  function RepeatGrid(v: Volume, i: nat): Grid {
    var n := v.Inner();
    if i == 2 then OneRowGrid(v.TileGrid(), n.ya) else if i == 3 then OneRowGrid(v.TileGrid(), n.yb)
    else if i == 4 then OnePlaneGrid(v.TileGrid(), n.za) else OnePlaneGrid(v.TileGrid(), n.zb)
  }

  lemma RepeatGridAt(v: Volume, i: nat, z: int, y: int, c: int)
    requires 2 <= i < FACES
    ensures var n, t := v.Inner(), v.TileGrid();
            RepeatGrid(v, i).At(z, y, c) ==
              t.At(SourceZ(n, i, z), SourceY(n, i, y), c)
  {
    TimesZero(z); TimesZero(y);
    hide Clip, Times;
  }

  lemma RepeatIsBox(v: Volume, i: nat)
    requires v.x.Sound() && v.y.Sound() && v.z.Sound() && v.Meets() && 2 <= i < FACES && Extra(v, i) > 0
    ensures var r := Face(v.Whole(), v.Inner(), i);
            r.NonEmpty() && v.BoxOf(r).WellFormed()
              && RepeatDesc(v, i) == BoxDesc(v.TileGrid(), RepeatGrid(v, i), v.BoxOf(r))
  {
    AxisParts(v.x); AxisParts(v.y); AxisParts(v.z);
    var r := Face(v.Whole(), v.Inner(), i);
    FaceDstIs(v, i);
    EdgeSrcIs(v, i);
    RepeatGridAt(v, i, r.za, r.ya, v.Col(r.xa));
    hide Clip, Times, FaceDst, EdgeSrc, Copy3;
    BoxOfRegion(v, r, RepeatGrid(v, i), FaceDst(v, i), EdgeSrc(v, i), TempSize(v, i), FaceRows(v, i), FacePlanes(v, i));
  }

  // Column j of a left or right face, counted outwards.
  function ColumnRegion(n: Region, i: nat, j: nat): Region {
    if i == 0 then n.(xa := n.xa - (j + 1), xb := n.xa - (j + 1)) else n.(xa := n.xb + j + 1, xb := n.xb + j + 1)
  }

  function ColumnGrid(v: Volume, i: nat, j: nat): Grid {
    ShiftedGrid(v.TileGrid(), if i == 0 then v.Col(j + 1) else 0 - v.Col(j + 1))
  }

  lemma ColumnAt(v: Volume, i: nat, j: nat, z: int, y: int, x: int, k: int)
    requires i < 2
    ensures ColumnGrid(v, i, j).At(z, y, v.Col(x) + k) ==
              v.TileGrid().At(z, y, v.Col(if i == 0 then x + j + 1 else x - (j + 1)) + k)
  {
    TimesAdd(x, j + 1, v.pixWidth);
    TimesAdd(x - (j + 1), j + 1, v.pixWidth);
    hide Clip, Times;
  }

  lemma ColumnIsBox(v: Volume, i: nat, j: nat)
    requires v.x.Sound() && v.y.Sound() && v.z.Sound() && v.Meets() && i < 2 && j < Extra(v, i)
    ensures var r := ColumnRegion(v.Inner(), i, j);
            r.NonEmpty() && v.BoxOf(r).WellFormed()
              && ColumnDesc(v, i, j) == BoxDesc(v.TileGrid(), ColumnGrid(v, i, j), v.BoxOf(r))
  {
    AxisParts(v.x); AxisParts(v.y); AxisParts(v.z);
    var r := ColumnRegion(v.Inner(), i, j);
    EdgeSrcIs(v, i);
    ColumnAt(v, i, j, r.za, r.ya, r.xa, 0);
    TimesAdd(r.xa, j + 1, v.pixWidth);
    TimesAdd(r.xa - (j + 1), j + 1, v.pixWidth);
    TimesIsProduct(1, v.pixWidth);
    var dst := if i == 0 then EdgeSrc(v, i) - v.Col(j + 1) else EdgeSrc(v, i) + v.Col(j + 1);
    hide Clip, Times, EdgeSrc, Copy3;
    assert dst == Corner(v, r);
    BoxOfRegion(v, r, ColumnGrid(v, i, j), dst, EdgeSrc(v, i), v.pixWidth, FaceRows(v, i), FacePlanes(v, i));
  }

  lemma LoadIsBox(v: Volume)
    requires v.x.Sound() && v.y.Sound() && v.z.Sound() && v.Meets()
    ensures v.Inner().NonEmpty() && v.BoxOf(v.Inner()).WellFormed()
    ensures LoadDesc(v) == BoxDesc(v.TileGrid(), v.FrameGrid(), v.BoxOf(v.Inner()))
  {
    AxisParts(v.x); AxisParts(v.y); AxisParts(v.z);
    var r := v.Inner();
    var x, y, z := v.x.Clipped(), v.y.Clipped(), v.z.Clipped();
    TileAddress3(v, z.extraLo, y.extraLo, x.extraLo);
    TimesAdd(v.x.edgeLo - x.extraLo, x.extraLo, v.pixWidth);
    TimesAdd(v.y.edgeLo - y.extraLo, y.extraLo, v.pitch);
    TimesAdd(v.z.edgeLo - z.extraLo, z.extraLo, v.plane);
    hide Clip, Times, Copy3;
    BoxOfRegion(v, r, v.FrameGrid(),
                v.EdgePtr() + Times(y.extraLo, v.pitch) + v.Col(x.extraLo) + Times(z.extraLo, v.plane),
                v.frameData + v.Col(x.a) + Times(y.a, v.framePitch)
                  + Times(z.a, v.framePlane), v.Col(x.b - x.a + 1), y.b - y.a + 1, z.b - z.a + 1);
  }
}
