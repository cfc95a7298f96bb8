// The xvmem heap as lists of address ranges: first fit with alignment, address-ordered coalescing free.

module HeapSpec {
  import opened Modular

  const MIN_ALLOC_SIZE := 4

  /** A range of `len` bytes from `lo`. */
  datatype Range = Range(lo: int, len: int) {
    function End(): int { lo + len }

    predicate Has(b: int) { lo <= b < lo + len }
  }

  // ---- the free list ----

  ghost predicate Holds(f: seq<Range>, b: int) { exists i :: 0 <= i < |f| && f[i].Has(b) }

  // Strictly ascending ranges of at least one byte, no two of them touching.
  ghost predicate Canonical(f: seq<Range>) {
    && (forall i :: 0 <= i < |f| ==> f[i].len > 0)
    && (forall i, j :: 0 <= i < j < |f| ==> f[i].End() < f[j].lo)
  }

  function Sum(f: seq<Range>): int { if f == [] then 0 else f[0].len + Sum(f[1..]) }

  lemma {:induction false} SumAppend(a: seq<Range>, b: seq<Range>)
    ensures Sum(a + b) == Sum(a) + Sum(b)
  {
    if a == [] {
      assert a + b == b;
    } else {
      assert (a + b)[1..] == a[1..] + b;
      SumAppend(a[1..], b);
    }
  }

  // A canonical list is determined by the bytes it holds.
  lemma {:induction false} CanonicalIsUnique(f: seq<Range>, g: seq<Range>)
    requires Canonical(f) && Canonical(g) && forall b :: Holds(f, b) <==> Holds(g, b)
    ensures f == g
    decreases |f|
  {
    if f == [] {
      if g != [] { assert g[0].Has(g[0].lo); assert Holds(g, g[0].lo); }
    } else {
      assert f[0].Has(f[0].lo) && Holds(f, f[0].lo);
      assert g != [];
      FirstMatches(f, g);
      FirstMatches(g, f);
      forall b ensures Holds(f[1..], b) <==> Holds(g[1..], b) {
        TailHolds(f, b);
        TailHolds(g, b);
      }
      CanonicalIsUnique(f[1..], g[1..]);
    }
  }

  lemma TailHolds(f: seq<Range>, b: int)
    requires Canonical(f) && f != []
    ensures Holds(f[1..], b) <==> Holds(f, b) && !f[0].Has(b)
  {
    if Holds(f[1..], b) {
      var i :| 0 <= i < |f[1..]| && f[1..][i].Has(b);
      assert f[i + 1].Has(b) && f[0].End() < f[i + 1].lo;
    }
    if Holds(f, b) && !f[0].Has(b) {
      var i :| 0 <= i < |f| && f[i].Has(b);
      assert f[1..][i - 1].Has(b);
    }
  }

  lemma GapAfterFirst(f: seq<Range>)
    requires Canonical(f) && f != []
    ensures !Holds(f, f[0].End())
  {
    forall i | 0 <= i < |f| ensures !f[i].Has(f[0].End()) {}
  }

  // The first range starts no later and, starting together, reaches as far.
  lemma FirstMatches(f: seq<Range>, g: seq<Range>)
    requires Canonical(f) && Canonical(g) && f != [] && g != [] && forall b :: Holds(f, b) <==> Holds(g, b)
    ensures g[0].lo <= f[0].lo
    ensures f[0].lo == g[0].lo ==> f[0].len <= g[0].len
  {
    assert f[0].Has(f[0].lo) && Holds(f, f[0].lo);
    var i :| 0 <= i < |g| && g[i].Has(f[0].lo);
    assert g[0].lo <= g[i].lo;
    GapAfterFirst(g);
    HoldsOne(f, 0, g[0].End());
  }

  // ---- allocation ----

  // Bytes needed from a range that starts at `lo` to hold `size` bytes at a multiple of `align`.
  function Needed(lo: int, size: int, align: int): int
    requires align > 0
  {
    size + ((lo + align - 1) / align * align - lo)
  }

  predicate FitsIn(r: Range, size: int, align: int)
    requires align > 0
  {
    Needed(r.lo, size, align) <= r.len
  }

  // The lowest-address range that fits.
  ghost predicate FirstFit(f: seq<Range>, size: int, align: int, i: nat)
    requires align > 0
  {
    i < |f| && FitsIn(f[i], size, align) && forall j :: 0 <= j < i ==> !FitsIn(f[j], size, align)
  }

  predicate Splits(r: Range, size: int, align: int)
    requires align > 0
  {
    r.len - Needed(r.lo, size, align) > MIN_ALLOC_SIZE
  }

  // What is taken from the chosen range: the part needed, or all of it when little would remain.
  function Taken(r: Range, size: int, align: int): Range
    requires align > 0
  {
    if Splits(r, size, align) then Range(r.lo, Needed(r.lo, size, align)) else r
  }

  function FreeAfterAlloc(f: seq<Range>, i: nat, size: int, align: int): seq<Range>
    requires align > 0 && i < |f|
  {
    if Splits(f[i], size,
              align) then f[i := Range(f[i].lo + Needed(f[i].lo, size, align), f[i].len - Needed(f[i].lo, size, align))]
    else f[..i] + f[i + 1..]
  }

  function AlignedAddress(r: Range, size: int, align: int): int
    requires align > 0
  {
    r.lo + (Needed(r.lo, size, align) - size)
  }

  // The result is aligned and its `size` bytes lie in what was taken.
  lemma AllocatedIsAligned(r: Range, size: int, align: int)
    requires align > 0 && size > 0 && FitsIn(r, size, align)
    ensures AlignedAddress(r, size, align) % align == 0
    ensures r.lo <= AlignedAddress(r, size, align)
            && AlignedAddress(r, size, align) + size <= Taken(r, size, align).End() <= r.End()
    ensures 0 < Taken(r, size, align).len
  {
    var k := (r.lo + align - 1) / align;
    assert (k * align) % align == 0 by { MultipleOf(k, align); }
    assert k * align >= r.lo;
  }

  // ---- the same in addresses ----

  predicate Aligned(p: int, align: int)
    requires align > 0
  {
    p % align == 0
  }

  // The lowest aligned address from `lo` on.
  predicate FirstAligned(lo: int, align: int, p: int)
    requires align > 0
  {
    Aligned(p, align) && lo <= p < lo + align
  }

  // `size` bytes at some aligned address lie in the range.
  ghost predicate Room(r: Range, size: int, align: int)
    requires align > 0
  {
    exists p :: Aligned(p, align) && r.lo <= p && p + size <= r.End()
  }

  lemma FirstAlignedIs(lo: int, size: int, align: int)
    requires align > 0
    ensures FirstAligned(lo, align, lo + Needed(lo, size, align) - size)
  {
    var x := lo + align - 1;
    MultipleOf(x / align, align);
    assert x == x / align * align + x % align;
  }

  lemma FirstIsLowest(lo: int, align: int, p: int, q: int)
    requires align > 0 && FirstAligned(lo, align, p) && Aligned(q, align) && lo <= q
    ensures p <= q
  {
    if q < p { MultipleGap(q, p, align); }
  }

  /** A range fits exactly when it has room, what is given out is its lowest aligned address, and it is split exactly
      when more than four bytes lie behind the `size` bytes from there. */
  lemma FitsIffRoom(r: Range, size: int, align: int)
    requires align > 0
    ensures FitsIn(r, size, align) <==> Room(r, size, align)
    ensures FirstAligned(r.lo, align, AlignedAddress(r, size, align))
    ensures Splits(r, size, align) <==> r.End() - (AlignedAddress(r, size, align) + size) > 4
  {
    FirstAlignedIs(r.lo, size, align);
    var p := AlignedAddress(r, size, align);
    hide Needed;
    if FitsIn(r, size, align) { assert Aligned(p, align) && r.lo <= p && p + size <= r.End(); }
    if q :| Aligned(q, align) && r.lo <= q && q + size <= r.End() { FirstIsLowest(r.lo, align, p, q); }
  }

  lemma NeedsAtLeast(lo: int, size: int, align: int)
    requires align > 0
    ensures Needed(lo, size, align) >= size
  {
    assert (lo + align - 1) / align * align >= lo;
  }

  // ---- replacing a stretch of the list ----

  ghost predicate HoldsIn(f: seq<Range>, a: int, b: int, x: int) {
    exists i :: a <= i < b && 0 <= i < |f| && f[i].Has(x)
  }

  function Spliced(f: seq<Range>, a: nat, b: nat, mid: seq<Range>, i: nat): Range
    requires a <= b <= |f| && i < a + |mid| + |f| - b
  {
    if i < a then f[i] else if i < a + |mid| then mid[i - a] else f[i - a - |mid| + b]
  }

  // `g` is `f` with the ranges at a..b replaced by `mid`, which keeps clear of the neighbours.
  ghost predicate Splice(f: seq<Range>, a: nat, b: nat, mid: seq<Range>, g: seq<Range>) {
    && a <= b <= |f| && |mid| <= 1 && |g| == a + |mid| + |f| - b
    && (forall i {:trigger g[i]} :: 0 <= i < |g| ==> g[i] == Spliced(f, a, b, mid, i))
    && (mid != [] ==> mid[0].len > 0 && (a > 0 ==> f[a - 1].End() < mid[0].lo) && (b < |f| ==> mid[0].End() < f[b].lo))
  }

  lemma SpliceIsCanonical(f: seq<Range>, a: nat, b: nat, mid: seq<Range>, g: seq<Range>)
    requires Canonical(f) && Splice(f, a, b, mid, g)
    ensures Canonical(g)
  {
    forall i | 0 <= i < |g| ensures g[i].len > 0 { assert g[i] == Spliced(f, a, b, mid, i); }
    forall i, j | 0 <= i < j < |g| ensures g[i].End() < g[j].lo { SplicedInOrder(f, a, b, mid, g, i, j); }
    hide Splice;
  }

  lemma SplicedInOrder(f: seq<Range>, a: nat, b: nat, mid: seq<Range>, g: seq<Range>, i: nat, j: nat)
    requires Canonical(f) && Splice(f, a, b, mid, g) && i < j < |g|
    ensures g[i].End() < g[j].lo
  {
    assert g[i] == Spliced(f, a, b, mid, i) && g[j] == Spliced(f, a, b, mid, j);
    var m := j - |mid| - a + b;
    if i < a && j == a && mid != [] {
      assert i == a - 1 || f[i].End() < f[a - 1].lo;
    } else if i == a && mid != [] {
      assert m == b || f[b].End() < f[m].lo;
    }
  }

  lemma SpliceKeeps(f: seq<Range>, a: nat, b: nat, mid: seq<Range>, g: seq<Range>, x: int)
    requires Canonical(f) && Splice(f, a, b, mid, g) && Holds(g, x)
    ensures Holds(mid, x) || (Holds(f, x) && !HoldsIn(f, a, b, x))
  {
    hide Canonical;
    var i :| 0 <= i < |g| && g[i].Has(x);
    if a <= i < a + |mid| {
      assert mid[i - a].Has(x);
    } else {
      var k := if i < a then i else i - a - |mid| + b;
      assert f[k].Has(x);
      OnlyHolder(f, k, x);
    }
  }

  lemma SpliceHolds(f: seq<Range>, a: nat, b: nat, mid: seq<Range>, g: seq<Range>, x: int)
    requires Canonical(f) && Splice(f, a, b, mid, g)
    ensures Holds(g, x) <==> Holds(mid, x) || (Holds(f, x) && !HoldsIn(f, a, b, x))
  {
    hide Canonical;
    if Holds(g, x) { SpliceKeeps(f, a, b, mid, g, x); }
    if Holds(mid, x) {
      var i :| 0 <= i < |mid| && mid[i].Has(x);
      assert g[a + i].Has(x);
    }
    if Holds(f, x) && !HoldsIn(f, a, b, x) {
      var k :| 0 <= k < |f| && f[k].Has(x);
      assert g[if k < a then k else k - b + a + |mid|].Has(x);
    }
  }

  // All that replacing a stretch does.
  lemma SpliceEffect(f: seq<Range>, a: nat, b: nat, mid: seq<Range>, g: seq<Range>)
    requires Canonical(f) && a <= b <= |f| && |mid| <= 1 && g == f[..a] + mid + f[b..]
    requires mid != [] ==>
               mid[0].len > 0 && (a > 0 ==> f[a - 1].End() < mid[0].lo) && (b < |f| ==> mid[0].End() < f[b].lo)
    ensures Canonical(g) && Sum(g) == Sum(f) - Sum(f[a..b]) + Sum(mid)
    ensures forall x :: Holds(g, x) <==> Holds(mid, x) || (Holds(f, x) && !HoldsIn(f, a, b, x))
  {
    hide *;
    IsSplice(f, a, b, mid, g);
    SpliceIsCanonical(f, a, b, mid, g);
    SpliceSum(f, a, b, mid);
    forall x ensures Holds(g, x) <==> Holds(mid, x) || (Holds(f, x) && !HoldsIn(f, a, b, x)) {
      SpliceHolds(f, a, b, mid, g, x);
    }
  }

  lemma IsSplice(f: seq<Range>, a: nat, b: nat, mid: seq<Range>, g: seq<Range>)
    requires a <= b <= |f| && |mid| <= 1 && g == f[..a] + mid + f[b..]
    requires mid != [] ==>
               mid[0].len > 0 && (a > 0 ==> f[a - 1].End() < mid[0].lo) && (b < |f| ==> mid[0].End() < f[b].lo)
    ensures Splice(f, a, b, mid, g)
  {
    forall i {:trigger g[i]} | 0 <= i < |g| ensures g[i] == Spliced(f, a, b, mid, i) {
      assert g[i] == if i < a then f[i] else if i < a + |mid| then mid[i - a] else f[b..][i - a - |mid|];
    }
  }

  lemma OnlyHolder(f: seq<Range>, k: nat, x: int)
    requires Canonical(f) && k < |f| && f[k].Has(x)
    ensures forall i :: 0 <= i < |f| && f[i].Has(x) ==> i == k
  {
    forall i | 0 <= i < |f| && i != k ensures !f[i].Has(x) {
      if i < k { assert f[i].End() < f[k].lo; } else { assert f[k].End() < f[i].lo; }
    }
  }

  lemma SpliceSum(f: seq<Range>, a: nat, b: nat, mid: seq<Range>)
    requires a <= b <= |f|
    ensures Sum(f[..a] + mid + f[b..]) == Sum(f) - Sum(f[a..b]) + Sum(mid)
  {
    SumAppend(f[..a] + mid, f[b..]);
    SumAppend(f[..a], mid);
    assert f == f[..a] + (f[a..b] + f[b..]);
    SumAppend(f[..a], f[a..b] + f[b..]);
    SumAppend(f[a..b], f[b..]);
  }

  // Exactly the taken bytes leave the free list, which stays canonical.
  lemma AllocTakes(f: seq<Range>, i: nat, size: int, align: int)
    requires Canonical(f) && align > 0 && size > 0 && i < |f| && FitsIn(f[i], size, align)
    ensures Canonical(FreeAfterAlloc(f, i, size, align))
    ensures forall b :: Holds(FreeAfterAlloc(f, i, size, align), b) <==> Holds(f, b) && !Taken(f[i], size, align).Has(b)
    ensures Sum(FreeAfterAlloc(f, i, size, align)) == Sum(f) - Taken(f[i], size, align).len
  {
    hide *;
    var n := Needed(f[i].lo, size, align);
    assert n > 0 by { NeedsAtLeast(f[i].lo, size, align); }
    if Splits(f[i], size, align) {
      TakesPart(f, i, size, align);
      TakeFront(f, i, n);
    } else {
      TakesWhole(f, i, size, align);
      TakeAll(f, i);
    }
  }

  lemma TakesPart(f: seq<Range>, i: nat, size: int, align: int)
    requires align > 0 && i < |f| && Splits(f[i], size, align)
    ensures var n := Needed(f[i].lo, size, align);
            && n < f[i].len && Taken(f[i], size, align) == Range(f[i].lo, n)
            && FreeAfterAlloc(f, i, size, align) == f[i := Range(f[i].lo + n, f[i].len - n)]
  {
    hide Needed;
  }

  lemma TakesWhole(f: seq<Range>, i: nat, size: int, align: int)
    requires align > 0 && i < |f| && !Splits(f[i], size, align)
    ensures Taken(f[i], size, align) == f[i] && FreeAfterAlloc(f, i, size, align) == f[..i] + f[i + 1..]
  {
    hide Needed;
  }

  lemma TakeFront(f: seq<Range>, i: nat, n: int)
    requires Canonical(f) && i < |f| && 0 < n < f[i].len
    ensures var g := f[i := Range(f[i].lo + n, f[i].len - n)];
            && Canonical(g) && Sum(g) == Sum(f) - n
            && forall b :: Holds(g, b) <==> Holds(f, b) && !Range(f[i].lo, n).Has(b)
  {
    var mid := [Range(f[i].lo + n, f[i].len - n)];
    var g := f[i := mid[0]];
    KeepsClear(f, i, i + 1);
    hide Canonical, Holds, HoldsIn, Sum;
    assert f[i..i + 1] == [f[i]];
    assert g == f[..i] + mid + f[i + 1..];
    SpliceEffect(f, i, i + 1, mid, g);
    SumOne(f[i]);
    SumOne(mid[0]);
    forall b ensures Holds(g, b) <==> Holds(f, b) && !Range(f[i].lo, n).Has(b) {
      HoldsOne(f, i, b);
      HoldsAlone(mid, b);
    }
  }

  lemma TakeAll(f: seq<Range>, i: nat)
    requires Canonical(f) && i < |f|
    ensures var g := f[..i] + f[i + 1..];
            && Canonical(g) && Sum(g) == Sum(f) - f[i].len
            && forall b :: Holds(g, b) <==> Holds(f, b) && !f[i].Has(b)
  {
    hide Canonical, Holds, HoldsIn, Sum;
    var g := f[..i] + f[i + 1..];
    assert g == f[..i] + [] + f[i + 1..];
    assert f[i..i + 1] == [f[i]];
    SpliceEffect(f, i, i + 1, [], g);
    SumOne(f[i]);
    SumNone();
    forall b ensures Holds(g, b) <==> Holds(f, b) && !f[i].Has(b) {
      HoldsOne(f, i, b);
      HoldsNone(b);
    }
  }

  lemma SumOne(r: Range)
    ensures Sum([r]) == r.len
  {
    assert [r][1..] == [];
  }

  lemma SumNone()
    ensures Sum([]) == 0
  {
  }

  lemma KeepsClear(f: seq<Range>, a: nat, b: nat)
    requires Canonical(f) && a <= b <= |f|
    ensures forall j :: 0 <= j < |f| ==>
              f[j].len > 0 && (j < a && a < |f| ==> f[j].End() < f[a].lo)
                && (b <= j && 0 < b ==> f[b - 1].End() < f[j].lo)
  {
  }

  // A range of the list holds a byte alone.
  lemma HoldsOne(f: seq<Range>, i: nat, x: int)
    requires i < |f|
    ensures HoldsIn(f, i, i + 1, x) <==> f[i].Has(x)
    ensures f[i].Has(x) ==> Holds(f, x)
  {
  }

  lemma HoldsAlone(f: seq<Range>, x: int)
    requires |f| == 1
    ensures Holds(f, x) <==> f[0].Has(x)
  {
  }

  lemma HoldsNone(x: int)
    ensures !Holds([], x)
  {
  }

  // ---- free ----

  // The first position whose range starts no earlier than `lo`.
  function Position(f: seq<Range>, lo: int): (k: nat)
    ensures k <= |f| && (forall j :: 0 <= j < k ==> f[j].lo < lo) && (k < |f| ==> lo <= f[k].lo)
  {
    if f == [] || lo <= f[0].lo then 0 else 1 + Position(f[1..], lo)
  }

  predicate MergesPrev(f: seq<Range>, r: Range, k: nat)
    requires k <= |f|
  {
    k > 0 && f[k - 1].End() == r.lo
  }

  predicate MergesNext(f: seq<Range>, r: Range, k: nat)
    requires k <= |f|
  {
    k < |f| && r.End() == f[k].lo
  }

  // xvmem_add_block_to_free_list on ranges: insert in address order, joining the neighbours it touches.
  function Insert(f: seq<Range>, r: Range): seq<Range> { InsertAt(f, r, Position(f, r.lo)) }

  function InsertAt(f: seq<Range>, r: Range, k: nat): seq<Range>
    requires k <= |f|
  {
    if MergesPrev(f, r, k) then
      var p := Range(f[k - 1].lo, f[k - 1].len + r.len);
      if MergesNext(f, r, k) then f[..k - 1] + [Range(p.lo, p.len + f[k].len)] + f[k + 1..]
      else f[..k - 1] + [p] + f[k..]
    else if MergesNext(f, r, k) then f[..k] + [Range(r.lo, r.len + f[k].len)] + f[k + 1..]
    else f[..k] + [r] + f[k..]
  }

  // Freeing adds exactly the bytes of the block and keeps the list canonical.
  lemma InsertAdds(f: seq<Range>, r: Range)
    requires Canonical(f) && r.len > 0 && forall b :: r.Has(b) ==> !Holds(f, b)
    ensures Canonical(Insert(f, r)) && Sum(Insert(f, r)) == Sum(f) + r.len
    ensures forall b :: Holds(Insert(f, r), b) <==> Holds(f, b) || r.Has(b)
  {
    hide Canonical, Holds, HoldsIn, Sum, Position;
    var k := Position(f, r.lo);
    NeighboursApart(f, r, k);
    var a, b := if MergesPrev(f, r, k) then k - 1 else k, if MergesNext(f, r, k) then k + 1 else k;
    var lo, hi := if MergesPrev(f, r, k) then f[k - 1].lo else r.lo, if MergesNext(f, r, k) then f[k].End()
    else r.End();
    var mid := [Range(lo, hi - lo)];
    assert Insert(f, r) == f[..a] + mid + f[b..];
    OuterNeighbours(f, k);
    SpliceEffect(f, a, b, mid, Insert(f, r));
    SumOne(mid[0]);
    SumBetween(f, r, k, a, b);
    forall x ensures Holds(Insert(f, r), x) <==> Holds(f, x) || r.Has(x) {
      HoldsAlone(mid, x);
      HoldsBetween(f, r, k, a, b, x);
    }
  }

  lemma OuterNeighbours(f: seq<Range>, k: nat)
    requires Canonical(f) && k <= |f|
    ensures k > 1 ==> f[k - 2].End() < f[k - 1].lo
    ensures k + 1 < |f| ==> f[k].End() < f[k + 1].lo
    ensures 0 < k < |f| ==> f[k - 1].End() < f[k].lo
  {
  }

  // The neighbours that are joined.
  lemma HoldsBetween(f: seq<Range>, r: Range, k: nat, a: nat, b: nat, x: int)
    requires k <= |f| && a == (if MergesPrev(f, r, k) then k - 1 else k)
             && b == (if MergesNext(f, r, k) then k + 1 else k)
    ensures HoldsIn(f, a, b, x) <==> (MergesPrev(f, r, k) && f[k - 1].Has(x)) || (MergesNext(f, r, k) && f[k].Has(x))
    ensures HoldsIn(f, a, b, x) ==> Holds(f, x)
  {
    if HoldsIn(f, a, b, x) {
      var i :| a <= i < b && 0 <= i < |f| && f[i].Has(x);
      assert i == k - 1 || i == k;
    }
  }

  lemma SumBetween(f: seq<Range>, r: Range, k: nat, a: nat, b: nat)
    requires k <= |f| && a == (if MergesPrev(f, r, k) then k - 1 else k)
             && b == (if MergesNext(f, r, k) then k + 1 else k)
    ensures Sum(f[a..b]) ==
              (if MergesPrev(f, r, k) then f[k - 1].len else 0) + (if MergesNext(f, r, k) then f[k].len else 0)
  {
    var prev, next := if MergesPrev(f, r, k) then [f[k - 1]] else [], if MergesNext(f, r, k) then [f[k]] else [];
    assert f[a..b] == prev + next;
    SumAppend(prev, next);
  }

  lemma NeighboursApart(f: seq<Range>, r: Range, k: nat)
    requires Canonical(f) && r.len > 0 && (forall b :: r.Has(b) ==> !Holds(f, b)) && k == Position(f, r.lo)
    ensures k > 0 ==> f[k - 1].End() <= r.lo && f[k - 1].len > 0
    ensures k < |f| ==> r.End() <= f[k].lo && f[k].len > 0
  {
    if k > 0 { HoldsOne(f, k - 1, r.lo); assert r.Has(r.lo); }
    if k < |f| { HoldsOne(f, k, f[k].lo); assert f[k].Has(f[k].lo); }
  }

  // ---- round trips ----

  // Freeing what was just allocated restores the free list, range by range.
  lemma AllocThenFree(f: seq<Range>, i: nat, size: int, align: int)
    requires Canonical(f) && align > 0 && size > 0 && i < |f| && FitsIn(f[i], size, align)
    ensures Insert(FreeAfterAlloc(f, i, size, align), Taken(f[i], size, align)) == f
  {
    hide Canonical, Insert, Needed, Holds;
    var g, r := FreeAfterAlloc(f, i, size, align), Taken(f[i], size, align);
    AllocTakes(f, i, size, align);
    AllocatedIsAligned(f[i], size, align);
    forall b | r.Has(b) ensures Holds(f, b) { TakenWasFree(f, i, r, b); }
    InsertAdds(g, r);
    CanonicalIsUnique(Insert(g, r), f);
  }

  lemma TakenWasFree(f: seq<Range>, i: nat, r: Range, b: int)
    requires i < |f| && f[i].lo <= r.lo && r.End() <= f[i].End() && r.Has(b)
    ensures Holds(f, b)
  {
    assert f[i].Has(b);
  }

  // Freeing two blocks in either order gives the same list.
  lemma FreesCommute(f: seq<Range>, r: Range, q: Range)
    requires Canonical(f) && r.len > 0 && q.len > 0
    requires forall b :: (r.Has(b) ==> !Holds(f, b) && !q.Has(b)) && (q.Has(b) ==> !Holds(f, b))
    ensures Insert(Insert(f, r), q) == Insert(Insert(f, q), r)
  {
    hide Canonical, Insert, Holds;
    InsertAdds(f, r);
    InsertAdds(f, q);
    InsertAdds(Insert(f, r), q);
    InsertAdds(Insert(f, q), r);
    CanonicalIsUnique(Insert(Insert(f, r), q), Insert(Insert(f, q), r));
  }
}
