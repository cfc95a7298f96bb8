// The iDMA engine: what one 2D or 3D transfer request does to memory.
// Memory is one flat buffer of bytes; a request names rows by address and pitch.

module Dma {

  type byte = x: int | 0 <= x < 256

  /** One memcpy of a transfer: the row at `dst` is filled from the row at `src`. */
  datatype Row = Row(dst: int, src: int)

  predicate Fits(len: nat, a: int, n: nat) { 0 <= a <= len - n }

  predicate Apart(a: int, b: int, n: nat) { a + n <= b || b + n <= a }

  // Memory after memcpy(dst, src, n); a copy that does not fit is no copy.
  function CopyRow(m: seq<byte>, row: Row, n: nat): (m': seq<byte>)
    ensures |m'| == |m|
  {
    if Fits(|m|, row.dst, n) && Fits(|m|, row.src, n) then
      seq(|m|, a requires 0 <= a < |m| => if row.dst <= a < row.dst + n then m[a - row.dst + row.src] else m[a])
    else m
  }

  // Memory after the rows have been copied in order.
  function CopyRows(m: seq<byte>, rows: seq<Row>, n: nat): (m': seq<byte>)
    ensures |m'| == |m|
  {
    if rows == [] then m else CopyRow(CopyRows(m, rows[..|rows| - 1], n), rows[|rows| - 1], n)
  }

  // Every row is in memory, no row that is read meets one that is written, and no two written rows meet.
  ghost predicate SafeRows(len: nat, rows: seq<Row>, n: nat) {
    && (forall i :: 0 <= i < |rows| ==> Fits(len, rows[i].dst, n) && Fits(len, rows[i].src, n))
    && (forall i, j :: 0 <= i < |rows| && 0 <= j < |rows| ==> Apart(rows[i].dst, rows[j].src, n))
    && (forall i, j :: 0 <= i < |rows| && 0 <= j < |rows| && i != j ==> Apart(rows[i].dst, rows[j].dst, n))
  }

  lemma {:induction false} CopyRowsOutside(m: seq<byte>, rows: seq<Row>, n: nat, a: int)
    requires 0 <= a < |m|
    requires forall i :: 0 <= i < |rows| ==> !(rows[i].dst <= a < rows[i].dst + n)
    ensures CopyRows(m, rows, n)[a] == m[a]
  {
    if rows != [] { CopyRowsOutside(m, rows[..|rows| - 1], n, a); }
  }

  lemma SafePrefix(len: nat, rows: seq<Row>, n: nat, k: nat)
    requires SafeRows(len, rows, n) && k <= |rows|
    ensures SafeRows(len, rows[..k], n)
  {
  }

  lemma CopyRowAt(m: seq<byte>, row: Row, n: nat, a: int)
    requires 0 <= a < |m| && Fits(|m|, row.dst, n) && Fits(|m|, row.src, n)
    ensures row.dst <= a < row.dst + n ==> 0 <= a - row.dst + row.src < |m|
    ensures CopyRow(m, row, n)[a] == if row.dst <= a < row.dst + n then m[a - row.dst + row.src] else m[a]
  {
  }

  lemma LastRow(m: seq<byte>, rows: seq<Row>, n: nat)
    requires rows != []
    ensures CopyRows(m, rows, n) == CopyRow(CopyRows(m, rows[..|rows| - 1], n), rows[|rows| - 1], n)
  {
    hide CopyRow;
  }

  lemma {:induction false} CopyRowsInside(m: seq<byte>, rows: seq<Row>, n: nat, i: nat, k: nat)
    requires SafeRows(|m|, rows, n) && i < |rows| && k < n
    ensures Fits(|m|, rows[i].dst, n) && Fits(|m|, rows[i].src, n)
    ensures CopyRows(m, rows, n)[rows[i].dst + k] == m[rows[i].src + k]
  {
    var last, m1 := |rows| - 1, CopyRows(m, rows[..|rows| - 1], n);
    hide CopyRows, CopyRow;
    LastRow(m, rows, n);
    CopyRowAt(m1, rows[last], n, rows[i].dst + k);
    if i < last {
      assert Apart(rows[i].dst, rows[last].dst, n);
      SafePrefix(|m|, rows, n, last);
      CopyRowsInside(m, rows[..last], n, i, k);
    } else {
      forall j | 0 <= j < last ensures !(rows[j].dst <= rows[i].src + k < rows[j].dst + n) {
        assert Apart(rows[j].dst, rows[i].src, n);
      }
      CopyRowsOutside(m, rows[..last], n, rows[i].src + k);
    }
  }

  /** One transfer: `planes` 2D copies of `rows` rows of `rowSize` bytes each. */
  datatype Desc = Desc(dst: int, src: int, rowSize: nat, rows: nat, srcPitch: int, dstPitch: int,
                       planes: nat, srcPlanePitch: int, dstPlanePitch: int)
  {
    function RowAt(p: int, r: int): Row {
      Row(dst + p * dstPlanePitch + r * dstPitch, src + p * srcPlanePitch + r * srcPitch)
    }

    // The first `r` rows of plane `p`.
    function PlaneRows(p: nat, r: nat): seq<Row> {
      seq(r, i => RowAt(p, i))
    }

    // The rows of the first `p` planes, in the order the engine copies them.
    function AllRows(p: nat): seq<Row> {
      if p == 0 then [] else AllRows(p - 1) + PlaneRows(p - 1, rows)
    }

    // Row `r` of plane `p` is copied right after the planes before it and the rows before it.
    lemma {:induction false} RowIsListed(n: nat, p: nat, r: nat)
      requires p < n && r < rows
      ensures |AllRows(p)| + rows <= |AllRows(n)| && AllRows(n)[|AllRows(p)| + r] == RowAt(p, r)
    {
      if p < n - 1 { RowIsListed(n - 1, p, r); }
    }

    // Every listed row is a row of some plane.
    lemma {:induction false} ListedRow(n: nat, i: nat) returns (p: nat, r: nat)
      requires i < |AllRows(n)|
      ensures p < n && r < rows && i == |AllRows(p)| + r && AllRows(n)[i] == RowAt(p, r)
    {
      if i < |AllRows(n - 1)| {
        p, r := ListedRow(n - 1, i);
      } else {
        p, r := n - 1, i - |AllRows(n - 1)|;
      }
    }

    // Memory after the whole transfer.
    function Exec(m: seq<byte>): (m': seq<byte>) { CopyRows(m, AllRows(planes), rowSize) }

    ghost predicate Safe(len: nat) { SafeRows(len, AllRows(planes), rowSize) }
  }

  // A byte of row `r` of plane `p` arrives.
  lemma ExecInside(m: seq<byte>, d: Desc, p: nat, r: nat, k: nat)
    requires d.Safe(|m|) && p < d.planes && r < d.rows && k < d.rowSize
    ensures var row := d.RowAt(p, r);
            && Fits(|m|, row.dst, d.rowSize) && Fits(|m|, row.src, d.rowSize)
            && d.Exec(m)[row.dst + k] == m[row.src + k]
  {
    d.RowIsListed(d.planes, p, r);
    CopyRowsInside(m, d.AllRows(d.planes), d.rowSize, |d.AllRows(p)| + r, k);
  }

  method MemCpy(mem: array<byte>, dst: int, src: int, n: nat)
    requires Fits(mem.Length, dst, n) && Fits(mem.Length, src, n) && Apart(dst, src, n)
    modifies mem
    ensures mem[..] == CopyRow(old(mem[..]), Row(dst, src), n)
  {
    for i := 0 to n
      invariant forall a :: 0 <= a < mem.Length ==>
                  mem[a] == if dst <= a < dst + i then old(mem[a - dst + src]) else old(mem[a])
    {
      mem[dst + i] := mem[src + i];
    }
  }

  lemma {:induction false} CopyRowsAppend(m: seq<byte>, rows: seq<Row>, more: seq<Row>, n: nat)
    ensures CopyRows(m, rows + more, n) == CopyRows(CopyRows(m, rows, n), more, n)
  {
    if more == [] {
      assert rows + more == rows;
    } else {
      var last := |more| - 1;
      CopyRowsAppend(m, rows, more[..last], n);
      assert (rows + more)[..|rows| + last] == rows + more[..last];
    }
  }

  method Copy2D(mem: array<byte>, d: Desc, p: nat)
    requires SafeRows(mem.Length, d.PlaneRows(p, d.rows), d.rowSize)
    modifies mem
    ensures mem[..] == CopyRows(old(mem[..]), d.PlaneRows(p, d.rows), d.rowSize)
  {
    var dstPtr, srcPtr := d.dst + p * d.dstPlanePitch, d.src + p * d.srcPlanePitch;
    for indx := 0 to d.rows
      invariant Row(dstPtr, srcPtr) == d.RowAt(p, indx)
      invariant mem[..] == CopyRows(old(mem[..]), d.PlaneRows(p, indx), d.rowSize)
    {
      var row := d.PlaneRows(p, d.rows)[indx];
      assert d.PlaneRows(p, indx + 1)[..indx] == d.PlaneRows(p, indx);
      MemCpy(mem, dstPtr, srcPtr, d.rowSize);
      dstPtr, srcPtr := dstPtr + d.dstPitch, srcPtr + d.srcPitch;
    }
  }

  lemma PlaneIsSafe(len: nat, d: Desc, p: nat)
    requires d.Safe(len) && p < d.planes
    ensures SafeRows(len, d.PlaneRows(p, d.rows), d.rowSize)
  {
    var all, plane, k := d.AllRows(d.planes), d.PlaneRows(p, d.rows), |d.AllRows(p)|;
    forall r: nat | r < d.rows ensures k + r < |all| && plane[r] == all[k + r] { d.RowIsListed(d.planes, p, r); }
  }

  method Copy3D(mem: array<byte>, d: Desc)
    requires d.Safe(mem.Length)
    modifies mem
    ensures mem[..] == d.Exec(old(mem[..]))
  {
    for indx := 0 to d.planes
      invariant mem[..] == CopyRows(old(mem[..]), d.AllRows(indx), d.rowSize)
    {
      PlaneIsSafe(mem.Length, d, indx);
      Copy2D(mem, d, indx);
      CopyRowsAppend(old(mem[..]), d.AllRows(indx), d.PlaneRows(indx, d.rows), d.rowSize);
    }
  }
}
