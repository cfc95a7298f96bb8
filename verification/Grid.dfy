// Pixel rectangles in memory. A grid gives the address of byte column `c` of row `y` of plane `z`,
// in the frame's own coordinates; frames, tiles and temporary rows are all grids.

module Grids {
  import opened Dma

  // `n` pitches, as a sum: what advancing a row pointer `n` times adds to it.
  function Times(n: int, pitch: int): int
    decreases if n < 0 then -n else n
  {
    if n == 0 then 0 else if n > 0 then Times(n - 1, pitch) + pitch else Times(n + 1, pitch) - pitch
  }

  lemma {:induction false} TimesIsProduct(n: int, pitch: int)
    ensures Times(n, pitch) == n * pitch
    decreases if n < 0 then -n else n
  {
    if n > 0 { TimesIsProduct(n - 1, pitch); } else if n < 0 { TimesIsProduct(n + 1, pitch); }
  }

  lemma TimesAdd(a: int, b: int, pitch: int)
    ensures Times(a + b, pitch) == Times(a, pitch) + Times(b, pitch)
  {
    TimesIsProduct(a + b, pitch); TimesIsProduct(a, pitch); TimesIsProduct(b, pitch);
  }

  lemma {:induction false} TimesMonotone(a: int, b: int, pitch: int)
    requires a < b && 0 <= pitch
    ensures Times(a, pitch) + pitch <= Times(b, pitch)
    decreases b - a
  {
    if a + 1 < b { TimesMonotone(a, b - 1, pitch); }
    TimesAdd(b - 1, 1, pitch);
  }

  datatype Grid = Grid(base: int, pitch: int, plane: int) {
    function At(z: int, y: int, c: int): int { base + Times(z, plane) + Times(y, pitch) + c }
  }

  /** Planes z0..z1, rows y0..y1, byte columns c0..c1, upper ends excluded. */
  datatype Box = Box(z0: int, z1: int, y0: int, y1: int, c0: int, c1: int) {
    predicate Has(z: int, y: int, c: int) { z0 <= z < z1 && y0 <= y < y1 && c0 <= c < c1 }

    predicate HasRow(z: int, y: int) { z0 <= z < z1 && y0 <= y < y1 }

    predicate NonEmpty() { z0 < z1 && y0 < y1 && c0 < c1 }

    predicate WellFormed() { z0 <= z1 && y0 <= y1 && c0 <= c1 }

    predicate Within(b: Box) { b.z0 <= z0 && z1 <= b.z1 && b.y0 <= y0 && y1 <= b.y1 && b.c0 <= c0 && c1 <= b.c1 }
  }

  // The transfer that copies box `b` from grid `s` to the same coordinates of grid `t`.
  function BoxDesc(t: Grid, s: Grid, b: Box): Desc
    requires b.WellFormed()
  {
    Desc(t.At(b.z0, b.y0, b.c0), s.At(b.z0, b.y0, b.c0), b.c1 - b.c0, b.y1 - b.y0, s.pitch, t.pitch,
         b.z1 - b.z0, s.plane, t.plane)
  }

  lemma BoxRow(t: Grid, s: Grid, b: Box, p: nat, r: nat)
    requires b.WellFormed()
    ensures BoxDesc(t, s, b).RowAt(p, r) == Row(t.At(b.z0 + p, b.y0 + r, b.c0), s.At(b.z0 + p, b.y0 + r, b.c0))
  {
    TimesAdd(b.z0, p, t.plane); TimesAdd(b.z0, p, s.plane); TimesAdd(b.y0, r, t.pitch); TimesAdd(b.y0, r, s.pitch);
    TimesIsProduct(p, t.plane); TimesIsProduct(p, s.plane); TimesIsProduct(r, t.pitch); TimesIsProduct(r, s.pitch);
  }

  ghost predicate SafeBox(len: nat, t: Grid, s: Grid, b: Box) {
    && b.WellFormed()
    && (forall z, y :: b.HasRow(z, y) ==>
          Fits(len, t.At(z, y, b.c0), b.c1 - b.c0) && Fits(len, s.At(z, y, b.c0), b.c1 - b.c0))
    && (forall z, y, z', y' :: b.HasRow(z, y) && b.HasRow(z', y') ==>
          Apart(t.At(z, y, b.c0), s.At(z', y', b.c0), b.c1 - b.c0))
    && (forall z, y, z', y' :: b.HasRow(z, y) && b.HasRow(z', y') && (z, y) != (z', y') ==>
          Apart(t.At(z, y, b.c0), t.At(z', y', b.c0), b.c1 - b.c0))
  }

  lemma BoxIsSafe(len: nat, t: Grid, s: Grid, b: Box)
    requires SafeBox(len, t, s, b)
    ensures BoxDesc(t, s, b).Safe(len)
  {
    var d := BoxDesc(t, s, b);
    var rows := d.AllRows(d.planes);
    forall i | 0 <= i < |rows| ensures Fits(len, rows[i].dst, d.rowSize) && Fits(len, rows[i].src, d.rowSize) {
      var p, r := d.ListedRow(d.planes, i);
      BoxRow(t, s, b, p, r);
      assert b.HasRow(b.z0 + p, b.y0 + r);
    }
    forall i, j | 0 <= i < |rows| && 0 <= j < |rows|
      ensures Apart(rows[i].dst, rows[j].src, d.rowSize) && (i != j ==> Apart(rows[i].dst, rows[j].dst, d.rowSize))
    {
      var p, r := d.ListedRow(d.planes, i);
      var p', r' := d.ListedRow(d.planes, j);
      BoxRow(t, s, b, p, r);
      BoxRow(t, s, b, p', r');
      assert b.HasRow(b.z0 + p, b.y0 + r) && b.HasRow(b.z0 + p', b.y0 + r');
    }
  }

  // Byte (z, y, c) of the box arrives; no other byte changes.
  lemma MoveInside(m: seq<byte>, t: Grid, s: Grid, b: Box, z: int, y: int, c: int)
    requires b.WellFormed() && BoxDesc(t, s, b).Safe(|m|) && b.Has(z, y, c)
    ensures 0 <= t.At(z, y, c) < |m| && 0 <= s.At(z, y, c) < |m|
    ensures BoxDesc(t, s, b).Exec(m)[t.At(z, y, c)] == m[s.At(z, y, c)]
  {
    var d := BoxDesc(t, s, b);
    BoxRow(t, s, b, z - b.z0, y - b.y0);
    ExecInside(m, d, z - b.z0, y - b.y0, c - b.c0);
  }

  lemma MoveOutside(m: seq<byte>, t: Grid, s: Grid, b: Box, a: int)
    requires b.WellFormed() && 0 <= a < |m|
    requires forall z, y :: b.HasRow(z, y) ==> !(t.At(z, y, b.c0) <= a < t.At(z, y, b.c1))
    ensures BoxDesc(t, s, b).Exec(m)[a] == m[a]
  {
    var d := BoxDesc(t, s, b);
    var rows := d.AllRows(d.planes);
    forall i | 0 <= i < |rows| ensures !(rows[i].dst <= a < rows[i].dst + d.rowSize) {
      var p, r := d.ListedRow(d.planes, i);
      BoxRow(t, s, b, p, r);
      assert b.HasRow(b.z0 + p, b.y0 + r);
    }
    CopyRowsOutside(m, rows, d.rowSize, a);
  }
}
