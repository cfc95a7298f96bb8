// The xvmem heap as a value: its free ranges, its live buffers, and what alloc and free do to them.

module Heaps {
  import opened Options
  import opened HeapSpec

  // The xvmem_status_t values this heap returns.
  datatype Status = Ok | PoolNull | PoolSize | IllegalAlign | AllocFailed

  // A block of the allocated list: the range it takes from the pool and the address given to the user.
  datatype Live = Live(range: Range, ptr: int)

  // `live` is in list order, latest first; `headers` is the number of block headers.
  datatype Heap = Heap(pool: Range, headers: nat, free: seq<Range>, live: seq<Live>)

  datatype Outcome = Outcome(heap: Heap, ptr: Option<int>, status: Status)

  predicate PowerOfTwo(n: int) {
    n == 1 || (n > 1 && n % 2 == 0 && PowerOfTwo(n / 2))
  }

  // The index of the first range that fits, or the length of the list.
  function FirstFitting(f: seq<Range>, size: int, align: int): (i: nat)
    requires align > 0
    ensures i <= |f| && (forall j :: 0 <= j < i ==> !FitsIn(f[j], size, align))
            && (i < |f| ==> FirstFit(f, size, align, i))
  {
    hide FitsIn;
    if f == [] || FitsIn(f[0], size, align) then 0 else 1 + FirstFitting(f[1..], size, align)
  }

  // A block must be split but every header is in use.
  predicate OutOfHeaders(h: Heap, r: Range, size: int, align: int)
    requires align > 0
  {
    Splits(r, size, align) && |h.free| + |h.live| >= h.headers
  }

  function Alloc(h: Heap, size: int, align: int): Outcome
    requires align > 0
  {
    if !PowerOfTwo(align) then Outcome(h, None, IllegalAlign)
    else
      var i := FirstFitting(h.free, size, align);
      if i == |h.free| || OutOfHeaders(h, h.free[i], size, align) then Outcome(h, None, AllocFailed)
      else Outcome(Take(h, i, size, align), Some(AlignedAddress(h.free[i], size, align)), Ok)
  }

  function Take(h: Heap, i: nat, size: int, align: int): Heap
    requires align > 0 && i < |h.free|
  {
    h.(free := FreeAfterAlloc(h.free, i, size, align),
       live := [Live(Taken(h.free[i], size, align), AlignedAddress(h.free[i], size, align))] + h.live)
  }

  // The first live buffer with this address, or the length of the list.
  function Find(live: seq<Live>, ptr: int): (k: nat)
    ensures k <= |live| && (forall j :: 0 <= j < k ==> live[j].ptr != ptr) && (k < |live| ==> live[k].ptr == ptr)
  {
    if live == [] || live[0].ptr == ptr then 0 else 1 + Find(live[1..], ptr)
  }

  // A null or unknown address frees nothing.
  function Free(h: Heap, ptr: int): Heap {
    var k := Find(h.live, ptr);
    if ptr == 0 || k == |h.live| then h
    else h.(free := Insert(h.free, h.live[k].range), live := h.live[..k] + h.live[k + 1..])
  }

  // ---- the invariant ----

  ghost predicate Apart(r: Range, q: Range) { r.End() <= q.lo || q.End() <= r.lo }

  ghost predicate InLive(live: seq<Live>, b: int) { exists k :: 0 <= k < |live| && live[k].range.Has(b) }

  function LiveSum(live: seq<Live>): int { if live == [] then 0 else live[0].range.len + LiveSum(live[1..]) }

  // Live buffers overlap nowhere and each address lies in its own range.
  ghost predicate LiveApart(live: seq<Live>) {
    && (forall k :: 0 <= k < |live| ==> live[k].range.Has(live[k].ptr))
    && (forall j, k :: 0 <= j < k < |live| ==> Apart(live[j].range, live[k].range))
  }

  // Every byte of the pool, and no other, is free or in a live buffer, and never both.
  ghost predicate Partition(h: Heap) {
    forall b :: (h.pool.Has(b) <==> Holds(h.free, b) || InLive(h.live, b)) && !(Holds(h.free, b) && InLive(h.live, b))
  }

  ghost predicate Good(h: Heap) {
    && h.pool.lo > 0 && Canonical(h.free) && LiveApart(h.live) && Partition(h)
    && |h.free| + |h.live| <= h.headers
    && Sum(h.free) + LiveSum(h.live) == h.pool.len
  }

  // ---- alloc keeps it ----

  lemma InPrepended(l: Live, live: seq<Live>, b: int)
    ensures InLive([l] + live, b) <==> l.range.Has(b) || InLive(live, b)
  {
    if InLive(live, b) {
      var k :| 0 <= k < |live| && live[k].range.Has(b);
      assert ([l] + live)[k + 1].range.Has(b);
    }
    if l.range.Has(b) { assert ([l] + live)[0].range.Has(b); }
  }

  // A range all of whose bytes are free is apart from every live buffer.
  lemma FreeIsApart(h: Heap, r: Range, k: nat)
    requires LiveApart(h.live) && Partition(h) && k < |h.live| && r.len > 0 && forall b :: r.Has(b) ==> Holds(h.free, b)
    ensures Apart(r, h.live[k].range)
  {
    hide Holds;
    var q := h.live[k].range;
    var b := if r.lo <= q.lo then q.lo else r.lo;
    assert q.Has(h.live[k].ptr);
    if q.Has(b) { assert InLive(h.live, b); }
  }

  // The chosen range was free throughout.
  lemma TakenIsFree(f: seq<Range>, i: nat, size: int, align: int)
    requires align > 0 && size > 0 && i < |f| && FitsIn(f[i], size, align)
    ensures forall b :: Taken(f[i], size, align).Has(b) ==> Holds(f, b)
  {
    AllocatedIsAligned(f[i], size, align);
    hide Holds, FitsIn, Needed, Splits;
    var r := Taken(f[i], size, align);
    assert r.lo == f[i].lo;
    forall b | r.Has(b) ensures Holds(f, b) { TakenWasFree(f, i, r, b); }
  }

  lemma TakeKeeps(h: Heap, i: nat, size: int, align: int)
    requires Good(h) && align > 0 && size > 0 && i < |h.free| && FitsIn(h.free[i], size, align)
    requires !OutOfHeaders(h, h.free[i], size, align)
    ensures Good(Take(h, i, size, align))
  {
    var f, r, p := h.free, Taken(h.free[i], size, align), AlignedAddress(h.free[i], size, align);
    var g := FreeAfterAlloc(f, i, size, align);
    assert |g| + 1 <= |f| + (if Splits(f[i], size, align) then 1 else 0) by { hide Splits, Needed; }
    AllocTakes(f, i, size, align);
    TakenIsFree(f, i, size, align);
    AllocatedIsAligned(f[i], size, align);
    assert r.Has(p) by { hide FitsIn, Needed, Splits, Holds, Canonical, LiveApart, Partition,
      FreeAfterAlloc; assert r.lo == f[i].lo; }
    hide FitsIn, Needed, Splits, Holds, Canonical, FreeAfterAlloc, AlignedAddress, Taken, InLive;
    var live := [Live(r, p)] + h.live;
    forall k | 0 <= k < |h.live| ensures Apart(r, h.live[k].range) { FreeIsApart(h, r, k); }
    assert live[1..] == h.live;
    forall b { InPrepended(Live(r, p), h.live, b); }
  }

  lemma AllocKeeps(h: Heap, size: int, align: int)
    requires Good(h) && align > 0 && size > 0
    ensures Good(Alloc(h, size, align).heap)
  {
    hide Good, FitsIn, Take, PowerOfTwo, OutOfHeaders;
    var i := FirstFitting(h.free, size, align);
    if i < |h.free| && !OutOfHeaders(h, h.free[i], size, align) { TakeKeeps(h, i, size, align); }
  }

  // ---- free keeps it ----

  lemma InLiveSplit(live: seq<Live>, k: nat, b: int)
    requires LiveApart(live) && k < |live|
    ensures InLive(live[..k] + live[k + 1..], b) <==> InLive(live, b) && !live[k].range.Has(b)
  {
    var rest := live[..k] + live[k + 1..];
    if InLive(rest, b) {
      var j :| 0 <= j < |rest| && rest[j].range.Has(b);
      var i := if j < k then j else j + 1;
      assert rest[j] == live[i];
      assert live[i].range.Has(b);
    }
    if InLive(live, b) && !live[k].range.Has(b) {
      var j :| 0 <= j < |live| && live[j].range.Has(b);
      var i := if j < k then j else j - 1;
      assert rest[i] == live[j];
      assert rest[i].range.Has(b);
    }
  }

  lemma {:induction false} LiveSumWithout(live: seq<Live>, k: nat)
    requires k < |live|
    ensures LiveSum(live[..k] + live[k + 1..]) == LiveSum(live) - live[k].range.len
  {
    if k == 0 {
      assert live[..0] + live[1..] == live[1..];
    } else {
      assert (live[..k] + live[k + 1..])[1..] == live[1..][..k - 1] + live[1..][k..];
      LiveSumWithout(live[1..], k - 1);
    }
  }

  lemma WithoutApart(live: seq<Live>, k: nat)
    requires LiveApart(live) && k < |live|
    ensures LiveApart(live[..k] + live[k + 1..])
  {
    hide Apart;
    var rest := live[..k] + live[k + 1..];
    forall j | 0 <= j < |rest| ensures rest[j] == live[if j < k then j else j + 1] {}
  }

  lemma InsertCount(f: seq<Range>, r: Range)
    ensures |Insert(f, r)| <= |f| + 1
  {
  }

  lemma LiveIsNotFree(h: Heap, k: nat)
    requires Partition(h) && k < |h.live|
    ensures forall b :: h.live[k].range.Has(b) ==> InLive(h.live, b) && !Holds(h.free, b)
  {
    forall b | h.live[k].range.Has(b) ensures InLive(h.live, b) && !Holds(h.free, b) { assert InLive(h.live, b); }
  }

  lemma FreeKeeps(h: Heap, ptr: int)
    requires Good(h)
    ensures Good(Free(h, ptr))
  {
    hide Holds, Insert, Canonical, Find, InLive, Sum, LiveSum;
    var k := Find(h.live, ptr);
    if ptr != 0 && k < |h.live| {
      var r := h.live[k].range;
      assert r.Has(ptr);
      LiveIsNotFree(h, k);
      InsertAdds(h.free, r);
      InsertCount(h.free, r);
      WithoutApart(h.live, k);
      LiveSumWithout(h.live, k);
      forall b { InLiveSplit(h.live, k, b); }
      hide LiveApart;
    }
  }

  // ---- what alloc promises ----

  // The i-th free block is the first that has room.
  ghost predicate FirstRoom(f: seq<Range>, size: int, align: int, i: nat)
    requires align > 0
  {
    i < |f| && Room(f[i], size, align) && forall j :: 0 <= j < i ==> !Room(f[j], size, align)
  }

  // Where the part taken from a block ends, when `p` is given out: behind the `size` bytes when more than four bytes
  // lie there, else with the block.
  function TakenEnd(r: Range, size: int, p: int): int { if r.End() - (p + size) > 4 then p + size else r.End() }

  // The first free block with room serves the request at its lowest aligned address. What is taken heads the live
  // buffers and leaves the free list; all other bytes stay free.
  ghost predicate Serves(h: Heap, g: Heap, size: int, align: int, p: int, i: nat)
    requires align > 0
  {
    && FirstRoom(h.free, size, align, i) && FirstAligned(h.free[i].lo, align, p) && p + size <= h.free[i].End()
    && g.pool == h.pool && g.headers == h.headers
    && var r, e := h.free[i], TakenEnd(h.free[i], size, p);
    && g.live == [Live(Range(r.lo, e - r.lo), p)] + h.live
    && forall b :: Holds(g.free, b) <==> Holds(h.free, b) && !(r.lo <= b < e)
  }

  // The block must be split and every header is in use.
  ghost predicate NoHeader(h: Heap, r: Range, size: int, align: int)
    requires align > 0
  {
    |h.free| + |h.live| >= h.headers && forall p :: FirstAligned(r.lo, align, p) ==> r.End() - (p + size) > 4
  }

  lemma NoHeaderIs(h: Heap, r: Range, size: int, align: int)
    requires align > 0
    ensures NoHeader(h, r, size, align) <==> OutOfHeaders(h, r, size, align)
  {
    FitsIffRoom(r, size, align);
    var q := AlignedAddress(r, size, align);
    hide AlignedAddress, Splits;
    forall p | FirstAligned(r.lo, align, p) ensures p == q {
      FirstIsLowest(r.lo, align, p, q);
      FirstIsLowest(r.lo, align, q, p);
    }
  }

  lemma FirstFitIsRoom(f: seq<Range>, size: int, align: int, i: nat)
    requires align > 0
    ensures FirstFit(f, size, align, i) <==> FirstRoom(f, size, align, i)
  {
    hide FitsIn, Room;
    forall j | 0 <= j < |f| ensures FitsIn(f[j], size, align) <==> Room(f[j], size, align) {
      FitsIffRoom(f[j], size, align);
    }
  }

  lemma TakenEnds(r: Range, size: int, align: int)
    requires align > 0
    ensures var p := AlignedAddress(r, size, align);
            Taken(r, size, align) == Range(r.lo, TakenEnd(r, size, p) - r.lo)
  {
    FitsIffRoom(r, size, align);
    hide Needed;
  }

  lemma TakeServes(h: Heap, i: nat, size: int, align: int)
    requires Canonical(h.free) && align > 0 && size > 0 && FirstFit(h.free, size, align, i)
    ensures Serves(h, Take(h, i, size, align), size, align, AlignedAddress(h.free[i], size, align), i)
  {
    hide Needed, Splits, FitsIn, Holds, Canonical, Room, FirstAligned, FreeAfterAlloc, Taken, FirstRoom, TakenEnd;
    var r := h.free[i];
    var p, t := AlignedAddress(r, size, align), Taken(r, size, align);
    hide AlignedAddress;
    AllocatedIsAligned(r, size, align);
    FirstFitIsRoom(h.free, size, align, i);
    FitsIffRoom(r, size, align);
    TakenEnds(r, size, align);
    AllocTakes(h.free, i, size, align);
    forall b ensures t.Has(b) <==> r.lo <= b < TakenEnd(r, size, p) {}
  }

  /** A successful allocation serves the request from the first block with room: `size` aligned bytes that were free, in
      the pool and in no live buffer. */
  lemma AllocReturnsFirstFit(h: Heap, size: int, align: int)
    requires Good(h) && align > 0 && size > 0 && Alloc(h, size, align).status == Ok
    ensures var p := Alloc(h, size, align).ptr.value;
            && p % align == 0
            && (exists i: nat :: Serves(h, Alloc(h, size, align).heap, size, align, p, i))
            && forall b :: p <= b < p + size ==> Holds(h.free, b) && h.pool.Has(b) && !InLive(h.live, b)
  {
    var i := FirstFitting(h.free, size, align);
    var p := AlignedAddress(h.free[i], size, align);
    AllocatedIsAligned(h.free[i], size, align);
    TakenIsFree(h.free, i, size, align);
    TakeServes(h, i, size, align);
    hide AlignedAddress, Needed, Splits, FitsIn, Holds, Canonical, InLive, Serves, Take, FirstFit;
    forall b | p <= b < p + size ensures Holds(h.free, b) {
      assert h.free[i].lo == Taken(h.free[i], size, align).lo;
      assert Taken(h.free[i], size, align).Has(b);
    }
  }

  // Some block has room, and the first that has need not be split or leaves a header for the rest.
  ghost predicate Servable(h: Heap, size: int, align: int)
    requires align > 0
  {
    exists i: nat :: FirstRoom(h.free, size, align, i) && !NoHeader(h, h.free[i], size, align)
  }

  lemma ServableIs(h: Heap, size: int, align: int)
    requires align > 0
    ensures var k := FirstFitting(h.free, size, align);
            Servable(h, size, align) <==> k < |h.free| && !OutOfHeaders(h, h.free[k], size, align)
  {
    hide FitsIn, OutOfHeaders, Room, NoHeader;
    var k := FirstFitting(h.free, size, align);
    if i: nat :| FirstRoom(h.free, size, align, i) {
      FirstFitIsRoom(h.free, size, align, i);
      assert i == k;
    }
    if k < |h.free| {
      FirstFitIsRoom(h.free, size, align, k);
      NoHeaderIs(h, h.free[k], size, align);
    }
  }

  /** Failure: exactly when the alignment is no power of two, no block has room, or the first that has must be split and
      no header is left; the heap is then unchanged. */
  lemma AllocFailsExactly(h: Heap, size: int, align: int)
    requires align > 0
    ensures Alloc(h, size, align).status == IllegalAlign <==> !PowerOfTwo(align)
    ensures Alloc(h, size, align).status == AllocFailed <==> PowerOfTwo(align) && !Servable(h, size, align)
    ensures Alloc(h, size, align).status != Ok ==> Alloc(h, size, align).heap == h && Alloc(h, size, align).ptr == None
    ensures Alloc(h, size, align).status in {Ok, IllegalAlign, AllocFailed}
  {
    hide FitsIn, PowerOfTwo, OutOfHeaders, Take, Servable;
    ServableIs(h, size, align);
  }

  /** Freeing what was just allocated restores the heap: the same ranges, the same live buffers. */
  lemma AllocThenFreeRestores(h: Heap, size: int, align: int)
    requires Good(h) && align > 0 && size > 0 && Alloc(h, size, align).status == Ok
    ensures Free(Alloc(h, size, align).heap, Alloc(h, size, align).ptr.value) == h
  {
    var i := FirstFitting(h.free, size, align);
    TakeKeeps(h, i, size, align);
    AllocThenFree(h.free, i, size, align);
    var h', p := Take(h, i, size, align), AlignedAddress(h.free[i], size, align);
    assert p > 0 by {
      AllocReturnsFirstFit(h, size, align);
      assert h.pool.Has(p);
    }
    hide FitsIn, FreeAfterAlloc, Taken, AlignedAddress, Insert, Good, OutOfHeaders;
    assert Find(h'.live, p) == 0;
    assert h'.live[..0] + h'.live[1..] == h.live;
  }

  // ---- whole runs ----

  datatype Call = AllocCall(size: int, align: int) | FreeCall(ptr: int)

  ghost predicate Proper(calls: seq<Call>) {
    forall c :: c in calls ==> c.AllocCall? ==> c.size > 0 && c.align > 0
  }

  function After(h: Heap, calls: seq<Call>): Heap
    requires Proper(calls)
    decreases |calls|
  {
    if calls == [] then h else
      assert calls[0] in calls;
      match calls[0]
      case AllocCall(size, align) => After(Alloc(h, size, align).heap, calls[1..])
      case FreeCall(ptr) => After(Free(h, ptr), calls[1..])
  }

  /** Every reachable heap is partitioned, coalesced and balanced. */
  lemma {:induction false} RunsKeep(h: Heap, calls: seq<Call>)
    requires Good(h) && Proper(calls)
    ensures Good(After(h, calls))
    decreases |calls|
  {
    hide Good, Alloc, Free;
    if calls != [] {
      assert calls[0] in calls;
      match calls[0]
      case AllocCall(size, align) => AllocKeeps(h, size, align); RunsKeep(Alloc(h, size, align).heap, calls[1..]);
      case FreeCall(ptr) => FreeKeeps(h, ptr); RunsKeep(Free(h, ptr), calls[1..]);
    }
  }

  // xvmem_init: the whole pool free, or the block headers live at its start.
  function Initial(pool: Range, headers: nat, headerBytes: Option<int>): Heap {
    match headerBytes
    case None => Heap(pool, headers, [pool], [])
    case Some(n) => Heap(pool, headers, [Range(pool.lo + n, pool.len - n)], [Live(Range(pool.lo, n), pool.lo)])
  }

  lemma InitialIsGood(pool: Range, headers: nat, headerBytes: Option<int>)
    requires pool.lo > 0 && pool.len > 0 && headers >= 1
    requires headerBytes.Some? ==> 0 < headerBytes.value < pool.len && headers >= 2
    ensures Good(Initial(pool, headers, headerBytes))
  {
    var h := Initial(pool, headers, headerBytes);
    SumOne(h.free[0]);
    assert LiveSum([]) == 0;
    assert h.live != [] ==> h.live[1..] == [];
    forall b
      ensures Holds(h.free, b) <==> h.free[0].Has(b)
      ensures InLive(h.live, b) <==> h.live != [] && h.live[0].range.Has(b)
    {
      HoldsAlone(h.free, b);
    }
    hide Holds, InLive;
  }

  // `kept` is at the end of the allocated list.
  ghost predicate EndsWith(live: seq<Live>, kept: seq<Live>) {
    |kept| <= |live| && live[|live| - |kept|..] == kept
  }

  function FreeAll(h: Heap, ptrs: seq<int>): Heap
    decreases |ptrs|
  {
    if ptrs == [] then h else FreeAll(Free(h, ptrs[0]), ptrs[1..])
  }

  lemma EndKept(live: seq<Live>, kept: seq<Live>, k: nat)
    requires k < |live| && EndsWith(live, kept) && live[k] !in kept
    ensures EndsWith(live[..k] + live[k + 1..], kept)
  {
    var n := |live| - |kept|;
    forall j | n <= j < |live| ensures live[j] in kept { assert live[j] == kept[j - n]; }
    assert (live[..k] + live[k + 1..])[n - 1..] == live[n..];
  }

  lemma FreeKeepsEnd(h: Heap, kept: seq<Live>, ptr: int)
    requires EndsWith(h.live, kept) && (forall l :: l in kept ==> l.ptr != ptr)
    ensures EndsWith(Free(h, ptr).live, kept)
    ensures Free(h, ptr).pool == h.pool && Free(h, ptr).headers == h.headers
    ensures forall l :: l in Free(h, ptr).live ==> l in h.live
  {
    hide EndsWith, Insert;
    var k := Find(h.live, ptr);
    if ptr != 0 && k < |h.live| { EndKept(h.live, kept, k); }
  }

  // An address freed is gone from the list, whatever the rest of the run does.
  lemma Freed(h: Heap, ptr: int)
    requires Good(h)
    ensures forall l :: l in Free(h, ptr).live ==> l.ptr != ptr
  {
    hide Partition, Canonical, Insert;
    var k := Find(h.live, ptr);
    if k < |h.live| {
      assert h.live[k].range.Has(ptr) && InLive(h.live, ptr);
      PoolHas(h, ptr);
      forall j | k < j < |h.live| ensures h.live[j].ptr != ptr {
        assert h.live[j].range.Has(h.live[j].ptr) && Apart(h.live[k].range, h.live[j].range);
      }
    }
  }

  lemma PoolHas(h: Heap, b: int)
    requires Good(h) && InLive(h.live, b)
    ensures h.pool.Has(b) && b > 0
  {
  }

  lemma {:induction false} FreeAllLeaves(h: Heap, kept: seq<Live>, ptrs: seq<int>)
    requires Good(h) && EndsWith(h.live, kept) && forall l :: l in kept ==> l.ptr !in ptrs
    ensures var g := FreeAll(h, ptrs);
            && Good(g) && EndsWith(g.live, kept) && g.pool == h.pool && g.headers == h.headers
            && (forall l :: l in g.live ==> l in h.live && l.ptr !in ptrs)
    decreases |ptrs|
  {
    hide Good, EndsWith, Free;
    if ptrs != [] {
      FreeKeeps(h, ptrs[0]);
      FreeKeepsEnd(h, kept, ptrs[0]);
      Freed(h, ptrs[0]);
      FreeAllLeaves(Free(h, ptrs[0]), kept, ptrs[1..]);
    }
  }

  lemma FirstIsNotKept(live: seq<Live>, kept: seq<Live>)
    requires LiveApart(live) && EndsWith(live, kept) && |live| > |kept|
    ensures live[0] !in kept
  {
    var n := |live| - |kept|;
    forall j | 0 <= j < |kept| ensures kept[j] != live[0] {
      assert kept[j] == live[n + j];
      assert live[0].range.Has(live[0].ptr) && Apart(live[0].range, live[n + j].range);
    }
  }

  lemma OnlyKept(h: Heap, kept: seq<Live>)
    requires Good(h) && EndsWith(h.live, kept) && forall l :: l in h.live ==> l in kept
    ensures h.live == kept
  {
    hide Partition, Canonical;
    if |h.live| > |kept| {
      assert h.live[0] in h.live;
      FirstIsNotKept(h.live, kept);
    }
  }

  // The live buffers determine the free list.
  lemma LiveDetermines(h: Heap, g: Heap)
    requires Good(h) && Good(g) && h.pool == g.pool && h.live == g.live
    ensures h.free == g.free
  {
    hide Holds, InLive;
    CanonicalIsUnique(h.free, g.free);
  }

  /** From any reachable heap, freeing every live buffer in any order gives back the initial free block. */
  lemma FreeingAllRestores(start: Heap, h: Heap, ptrs: seq<int>)
    requires Good(start) && Good(h) && h.pool == start.pool && h.headers == start.headers
             && EndsWith(h.live, start.live)
    requires forall l :: l in start.live ==> l.ptr !in ptrs
    requires forall l :: l in h.live ==> l in start.live || l.ptr in ptrs
    ensures FreeAll(h, ptrs) == start
  {
    hide Good, EndsWith, FreeAll;
    FreeAllLeaves(h, start.live, ptrs);
    var g := FreeAll(h, ptrs);
    OnlyKept(g, start.live);
    LiveDetermines(g, start);
  }

  // No call but a free of a kept address disturbs the end of the allocated list.
  lemma {:induction false} RunsKeepEnd(h: Heap, calls: seq<Call>, kept: seq<Live>)
    requires Proper(calls) && EndsWith(h.live, kept) && forall l, c :: l in kept && c in calls && c.FreeCall? ==>
               l.ptr != c.ptr
    ensures EndsWith(After(h, calls).live, kept) && After(h, calls).pool == h.pool
            && After(h, calls).headers == h.headers
    decreases |calls|
  {
    hide Free, FirstFitting, FreeAfterAlloc;
    if calls != [] {
      var c := calls[0];
      assert c in calls;
      match c
      case AllocCall(size, align) => RunsKeepEnd(Alloc(h, size, align).heap, calls[1..], kept);
      case FreeCall(ptr) => FreeKeepsEnd(h, kept, ptr); RunsKeepEnd(Free(h, ptr), calls[1..], kept);
    }
  }

  /** After any run, freeing all that is live in any order gives back the initial free block. */
  lemma RunThenFreeAll(start: Heap, calls: seq<Call>, ptrs: seq<int>)
    requires Good(start) && Proper(calls)
    requires forall l, c :: l in start.live && c in calls && c.FreeCall? ==> l.ptr != c.ptr
    requires forall l :: l in start.live ==> l.ptr !in ptrs
    requires forall l :: l in After(start, calls).live ==> l in start.live || l.ptr in ptrs
    ensures FreeAll(After(start, calls), ptrs) == start
  {
    RunsKeep(start, calls);
    RunsKeepEnd(start, calls, start.live);
    hide Good, After, FreeAll;
    FreeingAllRestores(start, After(start, calls), ptrs);
  }
}
