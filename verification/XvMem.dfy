// The xvmem heap as the program keeps it: linked block headers, a bit per header, two byte counters.
// The array of header records is held as one array per field.

module XvMems {
  import opened Counting
  import opened Options
  import opened HeapSpec
  import opened Heaps

  const MAX_ADDRESS := 0xffff_ffff
  const NULL := -1
  const DEFAULT_NUM_BLOCKS := 32
  const BLOCK_STRUCT_SIZE := 16

  // ---- linked lists of header indices ----

  function Node(head: int, list: seq<int>, k: nat): int
    requires k <= |list|
  {
    if k == 0 then head else list[k - 1]
  }

  function NodeAfter(list: seq<int>, tail: int, k: nat): int
    requires k <= |list|
  {
    if k < |list| then list[k] else tail
  }

  ghost predicate Chain(next: seq<int>, head: int, list: seq<int>, tail: int) {
    forall k {:trigger Node(head, list, k)} :: 0 <= k <= |list| ==>
      0 <= Node(head, list, k) < |next| && next[Node(head, list, k)] == NodeAfter(list, tail, k)
  }

  function Without<T>(list: seq<T>, k: nat): seq<T>
    requires k < |list|
  {
    list[..k] + list[k + 1..]
  }

  function With(list: seq<int>, k: nat, x: int): seq<int>
    requires k <= |list|
  {
    list[..k] + [x] + list[k..]
  }

  lemma ChainFrame(next: seq<int>, next': seq<int>, head: int, list: seq<int>, tail: int)
    requires Chain(next, head, list, tail) && |next'| == |next|
    requires forall i :: 0 <= i < |next| && (i == head || i in list) ==> next'[i] == next[i]
    ensures Chain(next', head, list, tail)
  {
    hide NodeAfter;
  }

  // Taking the k-th node out.
  lemma Unlink(next: seq<int>, head: int, list: seq<int>, tail: int, k: nat)
    requires Chain(next, head, list, tail) && Distinct([head] + list) && k < |list|
    ensures Node(head, list, k) == Node(head, list, k) && 0 <= Node(head, list, k) < |next| && 0 <= list[k] < |next|
    ensures Chain(next[Node(head, list, k) := next[list[k]]], head, Without(list, k), tail)
  {
    var p := Node(head, list, k);
    assert Node(head, list, k + 1) == list[k];
    var next', list' := next[p := next[list[k]]], Without(list, k);
    forall j {:trigger Node(head, list', j)} | 0 <= j <= |list'|
      ensures 0 <= Node(head, list', j) < |next'| && next'[Node(head, list', j)] == NodeAfter(list', tail, j)
    {
      var i := if j <= k then j else j + 1;
      assert Node(head, list', j) == Node(head, list, i) == ([head] + list)[i];
      assert p == ([head] + list)[k];
      assert NodeAfter(list', tail, j) == if j < k then list[j] else NodeAfter(list, tail, j + 1);
    }
  }

  // Putting x in as the k-th node.
  lemma LinkIn(next: seq<int>, head: int, list: seq<int>, tail: int, k: nat, x: int)
    requires Chain(next, head, list, tail) && Distinct([head] + list) && k <= |list|
    requires 0 <= x < |next| && x != head && x !in list
    ensures 0 <= Node(head, list, k) < |next|
    ensures Chain(next[x := next[Node(head, list, k)]][Node(head, list, k) := x], head, With(list, k, x), tail)
  {
    var p := Node(head, list, k);
    var next', list' := next[x := next[p]][p := x], With(list, k, x);
    forall j {:trigger Node(head, list', j)} | 0 <= j <= |list'|
      ensures 0 <= Node(head, list', j) < |next'| && next'[Node(head, list', j)] == NodeAfter(list', tail, j)
    {
      if j <= k {
        assert Node(head, list', j) == Node(head, list, j) == ([head] + list)[j];
        assert p == ([head] + list)[k];
      } else if j > k + 1 {
        assert Node(head, list', j) == Node(head, list, j - 1) == ([head] + list)[j - 1];
        assert p == ([head] + list)[k];
      }
    }
  }

  // ---- both lists and the bits ----

  // Every header is on the free list, on the allocated list, in `loose`, or marked unused, and only one of these.
  // The free sentinels are numbered n and n + 1, the head of the allocated list n + 2.
  ghost predicate Linked(next: seq<int>, bits: seq<bool>, n: nat, free: seq<int>, alloc: seq<int>, loose: set<int>) {
    && |next| == n + 3 && |bits| == 32 && n <= 32
    && Distinct(free) && Distinct(alloc) && Indices(free, n) && Indices(alloc, n)
    && Chain(next, n, free, n + 1) && Chain(next, n + 2, alloc, NULL)
    && (forall x :: x in free ==> x !in alloc && x !in loose)
    && (forall x :: x in loose ==> 0 <= x < n && x !in alloc)
    && (forall i :: 0 <= i < n ==> (bits[i] <==> i !in free && i !in alloc && i !in loose))
  }

  ghost predicate Indices(list: seq<int>, n: nat) { forall i :: 0 <= i < |list| ==> 0 <= list[i] < n }

  lemma WithoutKeeps(list: seq<int>, k: nat)
    requires Distinct(list) && k < |list|
    ensures Distinct(Without(list, k)) && forall x :: x in Without(list, k) <==> x in list && x != list[k]
  {
    var r := Without(list, k);
    forall x | x in list && x != list[k] ensures x in r {
      var i :| 0 <= i < |list| && list[i] == x;
      assert r[if i < k then i else i - 1] == x;
    }
  }

  lemma WithKeeps(list: seq<int>, k: nat, x: int)
    requires Distinct(list) && k <= |list| && x !in list
    ensures Distinct(With(list, k, x)) && forall y :: y in With(list, k, x) <==> y in list || y == x
  {
    var r := With(list, k, x);
    assert r[k] == x;
    forall y | y in list ensures y in r {
      var i :| 0 <= i < |list| && list[i] == y;
      assert r[if i < k then i else i + 1] == y;
    }
  }

  lemma HeadDistinct(list: seq<int>, n: nat, head: int)
    requires Distinct(list) && Indices(list, n) && head >= n
    ensures Distinct([head] + list)
  {
  }

  lemma RemoveFree(next: seq<int>, bits: seq<bool>, n: nat, free: seq<int>, alloc: seq<int>, loose: set<int>, k: nat)
    requires Linked(next, bits, n, free, alloc, loose) && k < |free|
    ensures 0 <= Node(n, free, k) < |next|
    ensures Linked(next[Node(n, free, k) := next[free[k]]], bits, n, Without(free, k), alloc, loose + {free[k]})
  {
    HeadDistinct(free, n, n);
    Unlink(next, n, free, n + 1, k);
    WithoutKeeps(free, k);
    hide Chain;
    ChainFrame(next, next[Node(n, free, k) := next[free[k]]], n + 2, alloc, NULL);
  }

  lemma AddFree(next: seq<int>, bits: seq<bool>, n: nat, free: seq<int>, alloc: seq<int>, loose: set<int>, k: nat,
                x: int)
    requires Linked(next, bits, n, free, alloc, loose) && k <= |free| && x in loose
    ensures 0 <= Node(n, free, k) < |next|
    ensures Linked(next[x := next[Node(n, free, k)]][Node(n, free, k) := x], bits, n, With(free, k, x), alloc,
                   loose - {x})
  {
    HeadDistinct(free, n, n);
    LinkIn(next, n, free, n + 1, k, x);
    WithKeeps(free, k, x);
    hide Chain;
    ChainFrame(next, next[x := next[Node(n, free, k)]][Node(n, free, k) := x], n + 2, alloc, NULL);
  }

  lemma RemoveAlloc(next: seq<int>, bits: seq<bool>, n: nat, free: seq<int>, alloc: seq<int>, loose: set<int>, k: nat)
    requires Linked(next, bits, n, free, alloc, loose) && k < |alloc|
    ensures 0 <= Node(n + 2, alloc, k) < |next|
    ensures Linked(next[Node(n + 2, alloc, k) := next[alloc[k]]], bits, n, free, Without(alloc, k), loose + {alloc[k]})
  {
    HeadDistinct(alloc, n, n + 2);
    Unlink(next, n + 2, alloc, NULL, k);
    WithoutKeeps(alloc, k);
    hide Chain;
    ChainFrame(next, next[Node(n + 2, alloc, k) := next[alloc[k]]], n, free, n + 1);
  }

  lemma AddAlloc(next: seq<int>, bits: seq<bool>, n: nat, free: seq<int>, alloc: seq<int>, loose: set<int>, x: int)
    requires Linked(next, bits, n, free, alloc, loose) && x in loose
    ensures Linked(next[x := next[n + 2]][n + 2 := x], bits, n, free, [x] + alloc, loose - {x})
  {
    HeadDistinct(alloc, n, n + 2);
    LinkIn(next, n + 2, alloc, NULL, 0, x);
    WithKeeps(alloc, 0, x);
    assert With(alloc, 0, x) == [x] + alloc;
    hide Chain;
    ChainFrame(next, next[x := next[n + 2]][n + 2 := x], n, free, n + 1);
  }

  // Toggling a header's bit makes an unused header loose, and a loose one unused.
  lemma Toggle(next: seq<int>, bits: seq<bool>, n: nat, free: seq<int>, alloc: seq<int>, loose: set<int>, x: nat)
    requires Linked(next, bits, n, free, alloc, loose) && x < n && (bits[x] || x in loose)
    ensures Linked(next, bits[x := !bits[x]], n, free, alloc, if bits[x] then loose + {x} else loose - {x})
  {
    hide Chain;
  }

  lemma LinkedFacts(next: seq<int>, bits: seq<bool>, n: nat, free: seq<int>, alloc: seq<int>, loose: set<int>)
    requires Linked(next, bits, n, free, alloc, loose)
    ensures |next| == n + 3 && |bits| == 32 && Indices(free, n) && Indices(alloc, n)
    ensures forall x :: x in free ==> x !in alloc && x !in loose
    ensures forall x :: x in loose ==> 0 <= x < n && x !in alloc
    ensures forall i :: 0 <= i < n && bits[i] ==> i !in free && i !in alloc && i !in loose
    ensures Distinct(free) && Distinct(alloc)
  {
  }

  lemma LinkedIndices(next: seq<int>, bits: seq<bool>, n: nat, free: seq<int>, alloc: seq<int>, loose: set<int>)
    requires Linked(next, bits, n, free, alloc, loose)
    ensures |next| == n + 3 && Indices(free, n) && Indices(alloc, n)
  {
  }

  // An unused header takes the place of the k-th free block, which is then loose.
  lemma TakeHeader(next: seq<int>, bits: seq<bool>, n: nat, free: seq<int>, alloc: seq<int>, k: nat, x: int)
    requires Linked(next, bits, n, free, alloc, {}) && k < |free| && 0 <= x < n && bits[x]
    ensures 0 <= Node(n, free, k) < |next| && 0 <= free[k] < n && x !in free && x !in alloc && x != Node(n, free, k)
    ensures Linked(next[x := next[free[k]]][Node(n, free, k) := x], bits[x := false], n, free[k := x], alloc, {free[k]})
  {
    LinkedFacts(next, bits, n, free, alloc, {});
    hide Linked, Chain;
    RemoveFree(next, bits, n, free, alloc, {}, k);
    var p, c, rest := Node(n, free, k), free[k], Without(free, k);
    var out := next[p := next[c]];
    assert {} + {c} == {c} && {c} + {x} == {c, x} && {c, x} - {x} == {c};
    Toggle(out, bits, n, rest, alloc, {c}, x);
    AddFree(out, bits[x := false], n, rest, alloc, {c, x}, k, x);
    assert Node(n, rest, k) == p;
    assert With(rest, k, x) == free[k := x];
    assert out[x := out[p]][p := x] == next[x := next[c]][p := x];
  }

  // The k-th free block leaves the list and its header becomes unused.
  lemma DropHeader(next: seq<int>, bits: seq<bool>, n: nat, free: seq<int>, alloc: seq<int>, k: nat)
    requires Linked(next, bits, n, free, alloc, {}) && k < |free|
    ensures 0 <= Node(n, free, k) < |next| && 0 <= free[k] < n && !bits[free[k]]
    ensures Linked(next[Node(n, free, k) := next[free[k]]], bits[free[k] := true], n, Without(free, k), alloc, {})
  {
    LinkedFacts(next, bits, n, free, alloc, {});
    assert free[k] in free;
    hide Linked, Chain;
    RemoveFree(next, bits, n, free, alloc, {}, k);
    var c := free[k];
    assert {} + {c} == {c} && {c} - {c} == {};
    Toggle(next[Node(n, free, k) := next[c]], bits, n, Without(free, k), alloc, {c}, c);
  }

  // A loose block takes the place of the k-th free block, whose header becomes unused.
  lemma ReplaceHeader(next: seq<int>, bits: seq<bool>, n: nat, free: seq<int>, alloc: seq<int>, k: nat, x: int)
    requires Linked(next, bits, n, free, alloc, {x}) && k < |free|
    ensures 0 <= Node(n, free, k) < |next| && 0 <= free[k] < n && 0 <= x < n && x != Node(n, free, k) && !bits[free[k]]
    ensures Linked(next[x := next[free[k]]][Node(n, free, k) := x], bits[free[k] := true], n, free[k := x], alloc, {})
  {
    LinkedFacts(next, bits, n, free, alloc, {x});
    assert free[k] in free;
    hide Linked, Chain;
    RemoveFree(next, bits, n, free, alloc, {x}, k);
    var p, c, rest := Node(n, free, k), free[k], Without(free, k);
    var out := next[p := next[c]];
    assert {x} + {c} == {x, c} && {x, c} - {x} == {c} && {c} - {c} == {};
    AddFree(out, bits, n, rest, alloc, {x, c}, k, x);
    assert Node(n, rest, k) == p;
    assert With(rest, k, x) == free[k := x];
    assert out[x := out[p]][p := x] == next[x := next[c]][p := x];
    Toggle(next[x := next[c]][p := x], bits, n, free[k := x], alloc, {c}, c);
  }

  lemma NextIs(next: seq<int>, bits: seq<bool>, n: nat, free: seq<int>, alloc: seq<int>, loose: set<int>, k: nat)
    requires Linked(next, bits, n, free, alloc, loose) && k <= |free|
    ensures 0 <= Node(n, free, k) < n + 1 && next[Node(n, free, k)] == NodeAfter(free, n + 1, k)
    ensures Node(n, free, k) == n <==> k == 0
  {
    assert k > 0 ==> free[k - 1] in free;
  }

  lemma IsLoose(next: seq<int>, bits: seq<bool>, n: nat, free: seq<int>, alloc: seq<int>, loose: set<int>, x: int)
    requires Linked(next, bits, n, free, alloc, loose) && x in loose
    ensures !bits[x]
  {
  }

  lemma PairLinked(next: seq<int>, bits: seq<bool>, n: nat)
    requires |next| == n + 3 && |bits| == 32 && 2 <= n <= 32 && forall i :: 0 <= i < n ==> (bits[i] <==> i >= 2)
    requires next[n] == 1 && next[1] == n + 1 && next[n + 2] == 0 && next[0] == NULL
    ensures Linked(next, bits, n, [1], [0], {})
  {
  }

  // A header is left exactly when the lists are shorter than the array.
  lemma HeadersLeft(next: seq<int>, bits: seq<bool>, n: nat, free: seq<int>, alloc: seq<int>)
    requires Linked(next, bits, n, free, alloc, {})
    ensures |free| + |alloc| <= n
    ensures |free| + |alloc| == n <==> forall i :: 0 <= i < n ==> !bits[i]
  {
    hide Chain;
    var both := free + alloc;
    assert Distinct(both) by {
      forall i, j | 0 <= i < j < |both| ensures both[i] != both[j] {
        if i < |free| <= j { assert both[i] in free && both[j] in alloc; }
      }
    }
    AllListed(both, n);
    forall i | 0 <= i < n ensures i in both <==> !bits[i] {}
  }

  // ---- ranges of listed blocks ----

  function Ranges(size: seq<int>, buffer: seq<int>, list: seq<int>): (r: seq<Range>)
    requires |size| == |buffer| && forall i :: 0 <= i < |list| ==> 0 <= list[i] < |size|
    ensures |r| == |list| && forall i :: 0 <= i < |r| ==> r[i] == Range(buffer[list[i]], size[list[i]])
  {
    seq(|list|, i requires 0 <= i < |list| => Range(buffer[list[i]], size[list[i]]))
  }

  function Lives(size: seq<int>, buffer: seq<int>, aligned: seq<int>, list: seq<int>): (r: seq<Live>)
    requires |size| == |buffer| == |aligned| && forall i :: 0 <= i < |list| ==> 0 <= list[i] < |size|
    ensures |r| == |list| && forall i :: 0 <= i < |r| ==>
              r[i] == Live(Range(buffer[list[i]], size[list[i]]), aligned[list[i]])
  {
    seq(|list|, i requires 0 <= i < |list| => Live(Range(buffer[list[i]], size[list[i]]), aligned[list[i]]))
  }

  // The k-th block cut in two, the upper part in header x.
  lemma Divided(size: seq<int>, buffer: seq<int>, aligned: seq<int>, free: seq<int>, alloc: seq<int>, n: nat, k: nat,
                x: int, part: int)
    requires |size| == |buffer| == |aligned| >= n && Indices(free, n) && Indices(alloc, n) && 0 <= x < n
    requires Distinct(free) && k < |free| && x !in free && x !in alloc && free[k] !in alloc
    ensures Indices(free[k := x], n)
    ensures var c := free[k];
            var size', buffer', aligned' :=
              size[x := size[c] - part][c := part], buffer[x := buffer[c] + part], aligned[x := buffer[c] + part];
            && Ranges(size', buffer', free[k := x]) ==
              Ranges(size, buffer, free)[k := Range(buffer[c] + part, size[c] - part)]
            && Lives(size', buffer', aligned', alloc) == Lives(size, buffer, aligned, alloc)
  {
    var c := free[k];
    LivesFrame(size, buffer, aligned, size[x := size[c] - part][c := part], buffer[x := buffer[c] + part],
               aligned[x := buffer[c] + part], alloc);
  }

  // Another size for the k-th free block.
  lemma Resized(size: seq<int>, buffer: seq<int>, aligned: seq<int>, free: seq<int>, alloc: seq<int>, n: nat, k: nat,
                v: int)
    requires |size| == |buffer| == |aligned| >= n && Indices(free, n) && Indices(alloc, n) && Distinct(free)
             && k < |free| && free[k] !in alloc
    ensures Ranges(size[free[k] := v], buffer, free) == Ranges(size, buffer, free)[k := Range(buffer[free[k]], v)]
    ensures Lives(size[free[k] := v], buffer, aligned, alloc) == Lives(size, buffer, aligned, alloc)
  {
    LivesFrame(size, buffer, aligned, size[free[k] := v], buffer, aligned, alloc);
  }

  // The k-th free block joined to the one before it: the links, the bits and what the lists mean.
  lemma Merged(next: seq<int>, bits: seq<bool>, size: seq<int>, buffer: seq<int>, aligned: seq<int>, n: nat,
               free: seq<int>, alloc: seq<int>, k: nat, v: int)
    requires Linked(next, bits, n, free, alloc, {}) && 0 < k < |free| && |size| == |buffer| == |aligned| == n + 3
    ensures Indices(free, n) && Indices(alloc, n) && Indices(Without(free, k), n)
    ensures 0 <= free[k - 1] < n && 0 <= free[k] < n && free[k] != free[k - 1] && !bits[free[k]]
    ensures Linked(next[free[k - 1] := next[free[k]]], bits[free[k] := true], n, Without(free, k), alloc, {})
    ensures Ranges(size[free[k - 1] := v], buffer, Without(free, k)) ==
              Without(Ranges(size, buffer, free)[k - 1 := Range(buffer[free[k - 1]], v)], k)
    ensures Lives(size[free[k - 1] := v], buffer, aligned, alloc) == Lives(size, buffer, aligned, alloc)
  {
    LinkedFacts(next, bits, n, free, alloc, {});
    assert free[k - 1] in free && Node(n, free, k) == free[k - 1];
    hide Linked, Chain;
    DropHeader(next, bits, n, free, alloc, k);
    LinkedIndices(next[free[k - 1] := next[free[k]]], bits[free[k] := true], n, Without(free, k), alloc, {});
    Resized(size, buffer, aligned, free, alloc, n, k - 1, v);
    hide Distinct;
    RangesWithout(size[free[k - 1] := v], buffer, free, k);
  }

  lemma RangesWithout(size: seq<int>, buffer: seq<int>, free: seq<int>, k: nat)
    requires |size| == |buffer| && k < |free| && forall i :: 0 <= i < |free| ==> 0 <= free[i] < |size|
    ensures forall i :: 0 <= i < |Without(free, k)| ==> 0 <= Without(free, k)[i] < |size|
    ensures Ranges(size, buffer, Without(free, k)) == Without(Ranges(size, buffer, free), k)
  {
  }

  // The loose header x, with another size, in place of the k-th free block.
  lemma Replaced(size: seq<int>, buffer: seq<int>, aligned: seq<int>, free: seq<int>, alloc: seq<int>, n: nat, k: nat,
                 x: int, v: int)
    requires |size| == |buffer| == |aligned| >= n && Indices(free, n) && Indices(alloc, n) && 0 <= x < n
    requires k < |free| && x !in free && x !in alloc
    ensures Indices(free[k := x], n)
    ensures Ranges(size[x := v], buffer, free[k := x]) == Ranges(size, buffer, free)[k := Range(buffer[x], v)]
    ensures Lives(size[x := v], buffer, aligned, alloc) == Lives(size, buffer, aligned, alloc)
  {
    LivesFrame(size, buffer, aligned, size[x := v], buffer, aligned, alloc);
  }

  lemma LivesFrame(size: seq<int>, buffer: seq<int>, aligned: seq<int>, size': seq<int>, buffer': seq<int>,
                   aligned': seq<int>, alloc: seq<int>)
    requires |size| == |buffer| == |aligned| == |size'| == |buffer'| == |aligned'| && Indices(alloc, |size|)
    requires forall x :: x in alloc ==> size'[x] == size[x] && buffer'[x] == buffer[x] && aligned'[x] == aligned[x]
    ensures Lives(size', buffer', aligned', alloc) == Lives(size, buffer, aligned, alloc)
  {
    forall i | 0 <= i < |alloc| ensures alloc[i] in alloc {}
  }

  // ---- alignment ----

  function Pow2(k: nat): nat { if k == 0 then 1 else 2 * Pow2(k - 1) }

  ghost predicate IsPower(n: int) { exists k :: Pow2(k) == n }

  /** The alignments that are accepted are the powers of two. */
  lemma PowersAre(n: int)
    requires n > 0
    ensures PowerOfTwo(n) <==> IsPower(n)
  {
    if k :| Pow2(k) == n { PowIsPower(k); }
    if PowerOfTwo(n) { var k := PowerIsPow(n); }
  }

  lemma {:induction false} PowIsPower(k: nat)
    ensures Pow2(k) > 0 && PowerOfTwo(Pow2(k))
  {
    hide PowerOfTwo;
    PowerOfOne();
    if k > 0 {
      PowIsPower(k - 1);
      TwiceIsPower(Pow2(k - 1));
    }
  }

  lemma PowerOfOne()
    ensures PowerOfTwo(1)
  {
  }

  lemma TwiceIsPower(p: int)
    requires PowerOfTwo(p)
    ensures p > 0 && PowerOfTwo(2 * p)
  {
    assert 2 * p % 2 == 0 && 2 * p / 2 == p;
  }

  lemma {:induction false} PowerIsPow(n: int) returns (k: nat)
    requires PowerOfTwo(n)
    ensures Pow2(k) == n
  {
    if n == 1 { k := 0; } else {
      k := PowerIsPow(n / 2);
      k := k + 1;
    }
  }

  method FindMsBit(n: int) returns (bits: nat)
    requires PowerOfTwo(n)
    ensures Pow2(bits) == n
  {
    var m := n;
    bits := 0;
    while m != 0 && m % 2 == 0
      invariant PowerOfTwo(m) && Pow2(bits) * m == n
      decreases m
    {
      assert Pow2(bits + 1) * (m / 2) == Pow2(bits) * m by { assert m == 2 * (m / 2); Regroup(Pow2(bits), m / 2); }
      m := m / 2;
      bits := bits + 1;
    }
  }

  lemma Regroup(p: int, h: int)
    ensures 2 * p * h == p * (2 * h)
  {
  }

  method ComputeNewSize(buffer: int, size: int, align: int) returns (newSize: int)
    requires PowerOfTwo(align)
    ensures newSize == Needed(buffer, size, align)
  {
    var p := FindMsBit(align);
    var alignedBlock := (buffer + align - 1) / Pow2(p) * Pow2(p);
    newSize := size + (alignedBlock - buffer);
  }

  lemma NeedsAtMost(lo: int, size: int, align: int)
    requires align > 0
    ensures Needed(lo, size, align) <= size + align - 1
  {
    var x := lo + align - 1;
    assert x == x / align * align + x % align;
  }

  // ---- the manager ----

  class XvMem {
    const pool: Range
    const headers: nat // _num_blocks
    const next: array<int>
    const size: array<int>
    const buffer: array<int>
    const aligned: array<int>
    const bits: array<bool> // _block_free_bitvec[0]: set when the header is unused
    var freeBytes: int
    var allocatedBytes: int
    ghost var free: seq<int>
    ghost var alloc: seq<int>

    // The three list sentinels follow the headers.
    function FreeHead(): int { headers }

    function FreeTail(): int { headers + 1 }

    function AllocHead(): int { headers + 2 }

    ghost predicate Sizes()
      reads this
    {
      && next.Length == size.Length == buffer.Length == aligned.Length == headers + 3
      && bits.Length == 32 && 1 <= headers <= 32
      && next != size && next != buffer && next != aligned && size != buffer && size != aligned && buffer != aligned
    }

    // Everything but what the ranges mean; the headers in `loose` are on neither list and not marked unused.
    ghost predicate Shape(loose: set<int>)
      reads this, next, size, buffer, bits
    {
      && Sizes() && Linked(next[..], bits[..], headers, free, alloc, loose)
      && size[FreeTail()] == MAX_ADDRESS && buffer[FreeTail()] == MAX_ADDRESS
    }

    ghost function View(): Heap
      requires Sizes() && Indices(free, headers) && Indices(alloc, headers)
      reads this, size, buffer, aligned
    {
      Heap(pool, headers, Ranges(size[..], buffer[..], free), Lives(size[..], buffer[..], aligned[..], alloc))
    }

    ghost predicate Valid()
      reads this, next, size, buffer, aligned, bits
    {
      && Shape({}) && Good(View()) && pool.End() <= MAX_ADDRESS
      && freeBytes == Sum(View().free) && allocatedBytes == LiveSum(View().live)
    }

    // The first block is the whole pool, or the headers themselves with the rest of the pool in the second block.
    constructor (pool: Range, headers: nat, headerBytes: Option<int>)
      requires 1 <= headers <= 32 && 0 < pool.lo && 0 < pool.len && pool.End() <= MAX_ADDRESS
      requires headerBytes.Some? ==> 0 < headerBytes.value < pool.len && headers >= 2
      ensures Valid() && View() == Initial(pool, headers, headerBytes)
      ensures fresh(next) && fresh(size) && fresh(buffer) && fresh(aligned) && fresh(bits)
    {
      this.pool, this.headers := pool, headers;
      next := new int[headers + 3];
      size := new int[headers + 3](_ => 0);
      buffer := new int[headers + 3](_ => 0);
      aligned := new int[headers + 3](_ => 0);
      bits := new bool[32](i => i >= (if headerBytes.None? then 1 else 2));
      new;
      size[FreeTail()], buffer[FreeTail()], aligned[FreeTail()] := MAX_ADDRESS, MAX_ADDRESS, MAX_ADDRESS;
      hide Good, Sum, LiveSum;
      InitialIsGood(pool, headers, headerBytes);
      InitialSums(pool, headers, headerBytes);
      if headerBytes.None? { PlaceWhole(); } else { PlaceHeaders(headerBytes.value); }
      hide Initial;
    }

    method PlaceWhole()
      requires Sizes() && size[FreeTail()] == MAX_ADDRESS && buffer[FreeTail()] == MAX_ADDRESS
      requires forall i :: 0 <= i < headers ==> (bits[i] <==> i >= 1)
      modifies this, next, size, buffer, aligned
      ensures Shape({}) && View() == Initial(pool, headers, None) && freeBytes == pool.len && allocatedBytes == 0
    {
      size[0], buffer[0], aligned[0] := pool.len, pool.lo, pool.lo;
      next[FreeHead()], next[FreeTail()], next[0] := 0, NULL, FreeTail();
      next[AllocHead()] := NULL;
      freeBytes, allocatedBytes := pool.len, 0;
      free, alloc := [0], [];
    }

    method PlaceHeaders(bytes: int)
      requires Sizes() && headers >= 2 && size[FreeTail()] == MAX_ADDRESS && buffer[FreeTail()] == MAX_ADDRESS
      requires forall i :: 0 <= i < headers ==> (bits[i] <==> i >= 2)
      modifies this, next, size, buffer, aligned
      ensures Shape({}) && View() == Initial(pool, headers, Some(bytes)) && freeBytes == pool.len - bytes
              && allocatedBytes == bytes
    {
      size[0], buffer[0], aligned[0] := bytes, pool.lo, pool.lo;
      next[AllocHead()], next[0] := 0, NULL;
      size[1], buffer[1] := pool.len - size[0], buffer[0] + size[0];
      aligned[1] := buffer[1];
      next[FreeHead()], next[FreeTail()], next[1] := 1, NULL, FreeTail();
      PairLinked(next[..], bits[..], headers);
      hide Linked;
      freeBytes, allocatedBytes := size[1], size[0];
      free, alloc := [1], [0];
    }

    // With no header given the headers are placed at the start of the pool.
    static method Init(buf: int, bytes: int, numBlocks: nat, external: bool) returns (status: Status, m: XvMem?)
      requires 0 <= buf && 0 < bytes && buf + bytes <= MAX_ADDRESS && (external ==> 1 <= numBlocks <= 32)
      ensures status == if buf == 0 then PoolNull else if !external && bytes < 520 then PoolSize else Ok
      ensures status != Ok <==> m == null
      ensures m != null ==> fresh(m) && m.Valid()
      ensures m != null ==> m.View() == Initial(Range(buf, bytes), if external then numBlocks else 32,
                                                if external then None else Some(516))
      ensures m != null && external ==> m.View().free == [Range(buf, bytes)] && m.View().live == []
      ensures m != null && !external ==>
                && m.View().free == [Range(buf + 516, bytes - 516)]
                && m.View().live == [Live(Range(buf, 516), buf)]
    {
      if buf == 0 { return PoolNull, null; }
      var n := if external then numBlocks else DEFAULT_NUM_BLOCKS;
      var words := (n + 31) / 32;
      var headerSize := BLOCK_STRUCT_SIZE * n + words * 4;
      if !external && bytes < headerSize + MIN_ALLOC_SIZE { return PoolSize, null; }
      m := new XvMem(Range(buf, bytes), n, if external then None else Some(headerSize));
      status := Ok;
    }

    // leading_zero_count from position 0: the lowest unused header, or the number of bits in use when there is none.
    method LeadingZeroCount() returns (index: nat)
      requires Sizes()
      ensures index < headers ==> bits[index]
      ensures index >= headers ==> forall i :: 0 <= i < headers ==> !bits[i]
      ensures index < headers ==> forall i :: 0 <= i < index ==> !bits[i]
    {
      index := 0;
      while index < 32 && !bits[index]
        invariant index <= 32 && forall i :: 0 <= i < index ==> !bits[i]
      {
        index := index + 1;
      }
      if index == 32 { index := headers; }
    }

    method ToggleBit(i: int)
      requires bits.Length == 32 && 0 <= i < 32
      modifies bits
      ensures bits[..] == old(bits[..])[i := !old(bits[i])]
    {
      bits[i] := !bits[i];
    }

    method Divide(index: int, curr: int, newSize: int)
      requires Sizes() && 0 <= index < headers && 0 <= curr < headers && index != curr
      modifies size, buffer, aligned
      ensures size[..] == old(size[..])[index := old(size[curr]) - newSize][curr := newSize]
      ensures buffer[..] == old(buffer[..])[index := old(buffer[curr]) + newSize]
      ensures aligned[..] == old(aligned[..])[index := old(buffer[curr]) + newSize]
    {
      size[index], buffer[index] := size[curr] - newSize, buffer[curr] + newSize;
      aligned[index] := buffer[index];
      size[curr] := newSize;
    }

    // Moves what is over in the block at `curr` to the unused header `index`, which replaces it on the free list.
    method UseHeader(index: int, prev: int, curr: int, ghost k: nat, newSize: int)
      requires Shape({}) && k < |free| && prev == Node(FreeHead(), free, k) && curr == free[k]
      requires 0 <= index < headers && bits[index]
      modifies `free, next, size, buffer, aligned, bits
      ensures Shape({curr}) && aligned[curr] == old(aligned[curr]) && buffer[curr] == old(buffer[curr])
              && size[curr] == newSize
      ensures View() ==
                old(View()).(free :=
                             old(View().free)[k := Range(old(buffer[curr]) + newSize, old(size[curr]) - newSize)])
    {
      hide Linked, Chain, Distinct;
      LinkedFacts(next[..], bits[..], headers, free, alloc, {});
      TakeHeader(next[..], bits[..], headers, free, alloc, k, index);
      Divided(size[..], buffer[..], aligned[..], free, alloc, headers, k, index, newSize);
      ToggleBit(index);
      Divide(index, curr, newSize);
      next[index] := next[curr];
      next[prev] := index;
      free := free[k := index];
    }

    // Splits the block at `curr` when a header is left.
    method SplitOff(prev: int, curr: int, ghost k: nat, newSize: int) returns (ok: bool)
      requires Shape({}) && k < |free| && prev == Node(FreeHead(), free, k) && curr == free[k]
      modifies `free, next, size, buffer, aligned, bits
      ensures ok <==> |old(free)| + |alloc| < headers
      ensures !ok ==> Shape({}) && View() == old(View())
      ensures ok ==>
                Shape({curr}) && aligned[curr] == old(aligned[curr]) && buffer[curr] == old(buffer[curr])
                  && size[curr] == newSize
      ensures ok ==>
                View() == old(View()).(free :=
                                       old(View().free)[k :=
                                                        Range(old(buffer[curr]) + newSize, old(size[curr]) - newSize)])
    {
      hide Linked;
      LinkedFacts(next[..], bits[..], headers, free, alloc, {});
      HeadersLeft(next[..], bits[..], headers, free, alloc);
      var index := LeadingZeroCount();
      if index >= headers { return false; }
      UseHeader(index, prev, curr, k, newSize);
      ok := true;
    }

    // Takes the block at `curr` out of the free list.
    method Drop(prev: int, curr: int, ghost k: nat)
      requires Shape({}) && k < |free| && prev == Node(FreeHead(), free, k) && curr == free[k]
      modifies `free, next
      ensures Shape({curr})
      ensures View() == old(View()).(free := old(View().free)[..k] + old(View().free)[k + 1..])
    {
      hide Linked;
      LinkedFacts(next[..], bits[..], headers, free, alloc, {});
      RemoveFree(next[..], bits[..], headers, free, alloc, {}, k);
      assert {} + {curr} == {curr};
      LinkedFacts(next[..][prev := next[curr]], bits[..], headers, Without(free, k), alloc, {curr});
      next[prev] := next[curr];
      free := Without(free, k);
    }

    // Takes the block at `curr` from the free list, leaving there what is over when that is enough to keep.
    method Carve(prev: int, curr: int, ghost k: nat, newSize: int, ghost bytes: int,
                 ghost align: int) returns (ok: bool)
      requires Shape({}) && k < |free| && prev == Node(FreeHead(), free, k) && curr == free[k]
      requires align > 0 && newSize == Needed(buffer[curr], bytes, align)
      modifies `free, next, size, buffer, aligned, bits
      ensures ok <==> !OutOfHeaders(old(View()), old(View().free[k]), bytes, align)
      ensures !ok ==> Shape({}) && View() == old(View())
      ensures ok ==> Shape({curr}) && aligned[curr] == old(aligned[curr])
      ensures ok ==> View() == old(View()).(free := FreeAfterAlloc(old(View().free), k, bytes, align))
      ensures ok ==> Range(buffer[curr], size[curr]) == Taken(old(View().free[k]), bytes, align)
      ensures ok <==> old(size[curr]) - newSize <= 4 || |old(free)| + |alloc| < headers
      ensures ok ==> size[curr] == if old(size[curr]) - newSize > 4 then newSize else old(size[curr])
    {
      hide Linked, Needed;
      LinkedFacts(next[..], bits[..], headers, free, alloc, {});
      if size[curr] - newSize > MIN_ALLOC_SIZE {
        ok := SplitOff(prev, curr, k, newSize);
      } else {
        Drop(prev, curr, k);
        ok := true;
      }
    }

    // Puts a loose block at the beginning of the allocated list.
    method PushAllocated(curr: int)
      requires Shape({curr})
      modifies `alloc, next
      ensures Shape({})
      ensures View() == old(View()).(live := [Live(Range(buffer[curr], size[curr]), aligned[curr])] + old(View().live))
    {
      hide Linked;
      LinkedFacts(next[..], bits[..], headers, free, alloc, {curr});
      AddAlloc(next[..], bits[..], headers, free, alloc, {curr}, curr);
      assert {curr} - {curr} == {};
      LinkedFacts(next[..][curr := next[AllocHead()]][AllocHead() := curr], bits[..], headers, free, [curr] + alloc,
                  {});
      next[curr] := next[AllocHead()];
      next[AllocHead()] := curr;
      alloc := [curr] + alloc;
    }

    // Walks the free list to the last block that starts below the loose block x.
    method FindPlace(x: int) returns (block: int, ghost k: nat)
      requires Shape({x}) && 0 <= x < headers && buffer[x] <= MAX_ADDRESS
      ensures k == Position(View().free, buffer[x]) && block == Node(FreeHead(), free, k)
    {
      ghost var f := View().free;
      block, k := FreeHead(), 0;
      assert Node(FreeHead(), free, 0) == block;
      while buffer[next[block]] < buffer[x]
        invariant k <= |free| && block == Node(FreeHead(), free, k)
        invariant 0 <= next[block] < headers + 3 && next[block] == NodeAfter(free, FreeTail(), k)
        invariant forall j :: 0 <= j < k ==> f[j].lo < buffer[x]
        decreases |free| - k
      {
        assert Node(FreeHead(), free, k + 1) == next[block];
        block, k := next[block], k + 1;
      }
      PositionIs(f, buffer[x], k);
    }

    // Joins the loose block x to the free block before it.
    method JoinPrev(block: int, x: int, ghost k: nat)
      requires Shape({x}) && 0 < k <= |free| && block == free[k - 1] && 0 <= x < headers
      modifies size, bits
      ensures Shape({})
      ensures View() ==
                old(View()).(free := old(View().free)[k - 1 := Range(buffer[block], old(size[block]) + old(size[x]))])
    {
      hide Linked;
      LinkedFacts(next[..], bits[..], headers, free, alloc, {x});
      assert block in free && {x} - {x} == {};
      Toggle(next[..], bits[..], headers, free, alloc, {x}, x);
      Resized(size[..], buffer[..], aligned[..], free, alloc, headers, k - 1, size[block] + size[x]);
      assert !bits[x] by { IsLoose(next[..], bits[..], headers, free, alloc, {x}, x); }
      size[block] := size[block] + size[x];
      ToggleBit(x);
    }

    // Joins the k-th free block to the one before it.
    method JoinNextToPrev(block: int, ghost k: nat)
      requires Shape({}) && 0 < k < |free| && block == free[k - 1] && next[block] == free[k]
      modifies `free, next, size, bits
      ensures Shape({})
      ensures View() ==
                old(View()).(free :=
                             Without(old(View().free)[k - 1 :=
                                                      Range(buffer[block], old(size[block]) + old(size[free[k]]))], k))
    {
      hide Linked, Chain, Ranges, Lives, Without, Distinct;
      LinkedIndices(next[..], bits[..], headers, free, alloc, {});
      Merged(next[..], bits[..], size[..], buffer[..], aligned[..], headers, free, alloc, k,
             size[block] + size[free[k]]);
      var after := next[block];
      ToggleBit(after);
      size[block] := size[block] + size[after];
      next[block] := next[after];
      free := Without(free, k);
    }

    // Joins the k-th free block to the loose block x, which takes its place.
    method JoinNext(block: int, x: int, ghost k: nat)
      requires Shape({x}) && k < |free| && block == Node(FreeHead(), free, k) && 0 <= x < headers
      modifies `free, next, size, bits
      ensures Shape({})
      ensures View() == old(View()).(free := old(View().free)[k := Range(buffer[x], old(size[x]) + old(size[free[k]]))])
    {
      hide Linked, Chain;
      LinkedFacts(next[..], bits[..], headers, free, alloc, {x});
      assert free[k] in free;
      ReplaceHeader(next[..], bits[..], headers, free, alloc, k, x);
      ghost var next1, bits1 := next[..][x := next[free[k]]][block := x], bits[..][free[k] := true];
      LinkedFacts(next1, bits1, headers, free[k := x], alloc, {});
      assert next[block] == free[k] by { NextIs(next[..], bits[..], headers, free, alloc, {x}, k); }
      var after := next[block];
      Replaced(size[..], buffer[..], aligned[..], free, alloc, headers, k, x, size[x] + size[after]);
      ToggleBit(after);
      size[x] := size[x] + size[after];
      next[x] := next[after];
      next[block] := x;
      free := free[k := x];
    }

    // Puts the loose block x into the free list as it is.
    method PutBetween(block: int, x: int, ghost k: nat)
      requires Shape({x}) && k <= |free| && block == Node(FreeHead(), free, k) && 0 <= x < headers
      modifies `free, next
      ensures Shape({})
      ensures View() ==
                old(View()).(free := old(View().free)[..k] + [Range(buffer[x], size[x])] + old(View().free)[k..])
    {
      hide Linked;
      LinkedFacts(next[..], bits[..], headers, free, alloc, {x});
      assert {x} - {x} == {};
      AddFree(next[..], bits[..], headers, free, alloc, {x}, k, x);
      LinkedFacts(next[..][x := next[block]][block := x], bits[..], headers, With(free, k, x), alloc, {});
      next[x] := next[block];
      next[block] := x;
      free := With(free, k, x);
    }

    // Whether x, joined to the block before it, touches the block after it, and what inserting it gives.
    lemma TouchesBoth(block: int, x: int, k: nat)
      requires Shape({x}) && 0 < k <= |free| && block == free[k - 1] && 0 <= x < headers
      requires buffer[block] + size[block] == buffer[x]
      ensures Indices(free, headers) && Indices(alloc, headers) && 0 <= next[block] < headers + 3
      ensures var f, n := View().free, size[block] + size[x];
              var joined := f[k - 1 := Range(buffer[block], n)];
              && |f| == |free|
              && if next[block] != FreeTail() && buffer[block] + n == buffer[next[block]] then
                && k < |free| && next[block] == free[k]
                && InsertAt(f, Range(buffer[x], size[x]), k) ==
                  Without(joined[k - 1 := Range(buffer[block], n + size[free[k]])], k)
              else InsertAt(f, Range(buffer[x], size[x]), k) == joined
    {
      hide Linked, Chain, InsertAt, Lives, Distinct, Without;
      LinkedIndices(next[..], bits[..], headers, free, alloc, {x});
      NextIs(next[..], bits[..], headers, free, alloc, {x}, k);
      ghost var f := View().free;
      assert |f| == |free| && f[k - 1] == Range(buffer[block], size[block]);
      assert k < |f| ==> f[k] == Range(buffer[free[k]], size[free[k]]) && 0 <= free[k] < headers;
      hide Ranges;
      ghost var touches := next[block] != FreeTail() && buffer[block] + size[block] + size[x] == buffer[next[block]];
      PrevCases(f, Range(buffer[x], size[x]), k, buffer[block], size[block] + size[x], touches,
                if touches then size[free[k]] else 0);
    }

    // The loose block x touches the free block before it.
    method AddToPrev(block: int, x: int, ghost k: nat)
      requires Shape({x}) && 0 < k <= |free| && block == free[k - 1] && 0 <= x < headers
      requires buffer[block] + size[block] == buffer[x]
      modifies `free, next, size, bits
      ensures Shape({})
      ensures View() == old(View()).(free := InsertAt(old(View().free), old(Range(buffer[x], size[x])), k))
    {
      hide Linked, Chain, InsertAt, MergesNext, Ranges, Lives, Distinct;
      LinkedIndices(next[..], bits[..], headers, free, alloc, {x});
      TouchesBoth(block, x, k);
      JoinPrev(block, x, k);
      if next[block] != FreeTail() && buffer[block] + size[block] == buffer[next[block]] {
        JoinNextToPrev(block, k);
      }
    }

    // Whether x touches the block after it, as the links show it, and what inserting it gives.
    lemma TouchesNext(block: int, x: int, k: nat)
      requires Shape({x}) && k <= |free| && block == Node(FreeHead(), free, k) && 0 <= x < headers
      requires k > 0 ==> buffer[block] + size[block] != buffer[x]
      ensures Indices(free, headers) && Indices(alloc, headers) && 0 <= next[block] < headers + 3
      ensures var f, r := View().free, Range(buffer[x], size[x]);
              && |f| == |free|
              && if next[block] != FreeTail() && buffer[x] + size[x] == buffer[next[block]] then
                k < |free| && InsertAt(f, r, k) == f[k := Range(buffer[x], size[x] + size[free[k]])]
              else InsertAt(f, r, k) == f[..k] + [r] + f[k..]
    {
      hide Linked, Chain, InsertAt, Lives, Distinct;
      LinkedIndices(next[..], bits[..], headers, free, alloc, {x});
      NextIs(next[..], bits[..], headers, free, alloc, {x}, k);
      ghost var f := View().free;
      assert |f| == |free|;
      assert k > 0 ==> block == free[k - 1] && f[k - 1] == Range(buffer[block], size[block]);
      assert k < |f| ==> f[k] == Range(buffer[free[k]], size[free[k]]) && 0 <= free[k] < headers;
      hide Ranges;
      InsertApart(f, Range(buffer[x], size[x]), k);
    }

    // The loose block x does not touch the free block before it.
    method AddApart(block: int, x: int, ghost k: nat)
      requires Shape({x}) && k <= |free| && block == Node(FreeHead(), free, k) && 0 <= x < headers
      requires k > 0 ==> buffer[block] + size[block] != buffer[x]
      modifies `free, next, size, bits
      ensures Shape({})
      ensures View() == old(View()).(free := InsertAt(old(View().free), old(Range(buffer[x], size[x])), k))
    {
      hide Linked, Chain, InsertAt, MergesNext, Ranges, Lives, Distinct;
      LinkedIndices(next[..], bits[..], headers, free, alloc, {x});
      TouchesNext(block, x, k);
      if next[block] != FreeTail() && buffer[x] + size[x] == buffer[next[block]] {
        JoinNext(block, x, k);
      } else {
        PutBetween(block, x, k);
      }
    }

    method AddBlockToFreeList(x: int)
      requires Shape({x}) && 0 <= x < headers && buffer[x] <= MAX_ADDRESS
      modifies `free, next, size, bits
      ensures Shape({})
      ensures View() == old(View()).(free := Insert(old(View().free), old(Range(buffer[x], size[x]))))
    {
      hide Linked, InsertAt;
      LinkedFacts(next[..], bits[..], headers, free, alloc, {x});
      var block;
      ghost var k;
      block, k := FindPlace(x);
      NextIs(next[..], bits[..], headers, free, alloc, {x}, k);
      if block != FreeHead() && buffer[block] + size[block] == buffer[x] {
        AddToPrev(block, x, k);
      } else {
        AddApart(block, x, k);
      }
    }

    // Walks the free list to the first block that fits, or to the tail.
    method FindBlock(bytes: int, align: int) returns (prev: int, curr: int, newSize: int, ghost k: nat)
      requires Shape({}) && PowerOfTwo(align) && bytes > 0 && align > 0 && bytes + align <= MAX_ADDRESS
      ensures k == FirstFitting(View().free, bytes, align)
      ensures prev == Node(FreeHead(), free, k) && curr == NodeAfter(free, FreeTail(), k)
      ensures newSize == Needed(buffer[curr], bytes, align)
    {
      ghost var f := View().free;
      prev, curr, k := FreeHead(), next[FreeHead()], 0;
      assert Node(FreeHead(), free, 0) == prev;
      NeedsAtMost(MAX_ADDRESS, bytes, align);
      newSize := ComputeNewSize(buffer[curr], bytes, align);
      hide Needed;
      while size[curr] < newSize
        invariant k <= |free| && prev == Node(FreeHead(), free, k) && curr == NodeAfter(free, FreeTail(), k)
        invariant newSize == Needed(buffer[curr], bytes, align)
        invariant forall j :: 0 <= j < k ==> !FitsIn(f[j], bytes, align)
        decreases |free| - k
      {
        assert Node(FreeHead(), free, k + 1) == curr;
        prev, curr := curr, next[curr];
        newSize := ComputeNewSize(buffer[curr], bytes, align);
        k := k + 1;
      }
      FirstFittingIs(f, bytes, align, k);
    }

    // Walks the allocated list to the block with this address.
    method FindLive(p: int) returns (prev: int, block: int, ghost k: nat)
      requires Shape({})
      ensures k == Find(View().live, p)
      ensures prev == Node(AllocHead(), alloc, k) && block == NodeAfter(alloc, NULL, k)
      ensures block != NULL ==> block in alloc && aligned[block] == p
      ensures block == NULL ==> forall i :: 0 <= i < |alloc| ==> aligned[alloc[i]] != p
    {
      ghost var live := View().live;
      prev, block, k := AllocHead(), next[AllocHead()], 0;
      assert Node(AllocHead(), alloc, 0) == prev;
      while block != NULL && aligned[block] != p
        invariant k <= |alloc| && prev == Node(AllocHead(), alloc, k) && block == NodeAfter(alloc, NULL, k)
        invariant forall j :: 0 <= j < k ==> live[j].ptr != p
        decreases |alloc| - k
      {
        assert Node(AllocHead(), alloc, k + 1) == block;
        prev, block := block, next[block];
        k := k + 1;
      }
      FindIs(live, p, k);
    }

    method Unlist(prev: int, block: int, ghost k: nat)
      requires Shape({}) && k < |alloc| && prev == Node(AllocHead(), alloc, k) && block == alloc[k]
      modifies `alloc, next
      ensures Shape({block})
      ensures View() == old(View()).(live := old(View().live)[..k] + old(View().live)[k + 1..])
    {
      hide Linked;
      LinkedFacts(next[..], bits[..], headers, free, alloc, {});
      RemoveAlloc(next[..], bits[..], headers, free, alloc, {}, k);
      assert {} + {block} == {block};
      LinkedFacts(next[..][prev := next[block]], bits[..], headers, free, Without(alloc, k), {block});
      next[prev] := next[block];
      alloc := Without(alloc, k);
    }

    method Free(p: int)
      requires Valid()
      modifies this, next, size, bits
      ensures Valid()
      ensures View() == Heaps.Free(old(View()), p)
    {
      hide Linked, Good, Sum, LiveSum, Insert;
      LinkedFacts(next[..], bits[..], headers, free, alloc, {});
      FreeOutcome(View(), p);
      if p == 0 { return; }
      var prev, block;
      ghost var k;
      prev, block, k := FindLive(p);
      if block == NULL { return; }
      Unlist(prev, block, k);
      freeBytes := freeBytes + size[block];
      allocatedBytes := allocatedBytes - size[block];
      AddBlockToFreeList(block);
    }

    // Gives out the block the walk stopped at.
    method Serve(prev: int, curr: int, ghost k: nat, newSize: int, bytes: int,
                 align: int) returns (r: Option<int>, status: Status)
      requires Valid() && bytes > 0 && align > 0 && bytes + align <= MAX_ADDRESS && PowerOfTwo(align)
      requires k == FirstFitting(View().free, bytes, align) < |free| && curr == free[k]
      requires prev == Node(FreeHead(), free, k) && newSize == Needed(buffer[curr], bytes, align)
      modifies this, next, size, buffer, aligned, bits
      ensures Valid()
      ensures Outcome(View(), r, status) == Heaps.Alloc(old(View()), bytes, align)
    {
      hide Linked, Needed, Good, PowerOfTwo, FitsIn, OutOfHeaders, FreeAfterAlloc, Taken, Sum, LiveSum, Heaps.Alloc;
      LinkedFacts(next[..], bits[..], headers, free, alloc, {});
      ghost var h, aligned0 := View(), aligned[..];
      AllocFails(h, bytes, align);
      assert curr in free;
      AllocSucceeds(h, k, bytes, align);
      aligned[curr] := buffer[curr] + (newSize - bytes);
      LivesFrame(size[..], buffer[..], aligned0, size[..], buffer[..], aligned[..], alloc);
      var ok := Carve(prev, curr, k, newSize, bytes, align);
      if !ok { return None, AllocFailed; }
      PushAllocated(curr);
      freeBytes := freeBytes - size[curr];
      allocatedBytes := allocatedBytes + size[curr];
      return Some(aligned[curr]), Ok;
    }

    /** The first free block with room serves the request; Promised says what that comes to. */
    method Alloc(bytes: int, align: int) returns (r: Option<int>, status: Status)
      requires Valid() && bytes > 0 && align > 0 && bytes + align <= MAX_ADDRESS
      modifies this, next, size, buffer, aligned, bits
      ensures Valid()
      ensures Outcome(View(), r, status) == Heaps.Alloc(old(View()), bytes, align)
      ensures Promised(old(View()), Outcome(View(), r, status), bytes, align)
    {
      AllocPromises(View(), bytes, align);
      hide Linked, Needed, Good, PowerOfTwo, FitsIn, OutOfHeaders, FreeAfterAlloc, Taken, Sum, LiveSum, Heaps.Alloc,
        Promised;
      LinkedFacts(next[..], bits[..], headers, free, alloc, {});
      AllocFails(View(), bytes, align);
      if !PowerOfTwo(align) { return None, IllegalAlign; }
      var prev, curr, newSize;
      ghost var k;
      prev, curr, newSize, k := FindBlock(bytes, align);
      if curr == FreeTail() { return None, AllocFailed; }
      r, status := Serve(prev, curr, k, newSize, bytes, align);
    }
  }

  // What an allocation comes to, in addresses.
  ghost predicate Promised(h: Heap, o: Outcome, size: int, align: int)
    requires align > 0
  {
    && o.status in {Ok, IllegalAlign, AllocFailed}
    && (o.status == Ok ==> o.ptr.Some? && exists i: nat :: Serves(h, o.heap, size, align, o.ptr.value, i))
    && (o.status == IllegalAlign <==> !IsPower(align))
    && (o.status == AllocFailed <==> IsPower(align) && !Servable(h, size, align))
    && (o.status != Ok ==> o.ptr == None && o.heap == h)
  }

  lemma AllocPromises(h: Heap, size: int, align: int)
    requires Good(h) && align > 0 && size > 0
    ensures Promised(h, Heaps.Alloc(h, size, align), size, align)
  {
    assert Heaps.Alloc(h, size, align).status == Ok ==> Heaps.Alloc(h, size, align).ptr.Some?;
    hide Good, Heaps.Alloc, Serves, Servable, PowerOfTwo, IsPower;
    AllocFailsExactly(h, size, align);
    PowersAre(align);
    if Heaps.Alloc(h, size, align).status == Ok { AllocReturnsFirstFit(h, size, align); }
  }

  lemma AllocFails(h: Heap, size: int, align: int)
    requires align > 0
    ensures var i := FirstFitting(h.free, size, align);
            && (!PowerOfTwo(align) ==> Heaps.Alloc(h, size, align) == Outcome(h, None, IllegalAlign))
            && (PowerOfTwo(align) && (i == |h.free| || OutOfHeaders(h, h.free[i], size, align)) ==>
                  Heaps.Alloc(h, size, align) == Outcome(h, None, AllocFailed))
  {
    hide PowerOfTwo, OutOfHeaders;
  }

  lemma InitialSums(pool: Range, headers: nat, headerBytes: Option<int>)
    ensures var h := Initial(pool, headers, headerBytes);
            && Sum(h.free) == (if headerBytes.None? then pool.len else pool.len - headerBytes.value)
            && LiveSum(h.live) == (if headerBytes.None? then 0 else headerBytes.value)
  {
    var h := Initial(pool, headers, headerBytes);
    SumOne(h.free[0]);
    assert h.live != [] ==> h.live[1..] == [];
  }

  // The new heap, and both counters moving by the size of the block taken.
  lemma AllocSucceeds(h: Heap, k: nat, size: int, align: int)
    requires Good(h) && align > 0 && size > 0 && PowerOfTwo(align) && k == FirstFitting(h.free, size, align) < |h.free|
    ensures var p := h.free[k].lo + (Needed(h.free[k].lo, size, align) - size);
            var r := Taken(h.free[k], size, align);
            var g := h.(free := FreeAfterAlloc(h.free, k, size, align), live := [Live(r, p)] + h.live);
            !OutOfHeaders(h, h.free[k], size, align) ==>
              && Heaps.Alloc(h, size, align) == Outcome(g, Some(p), Ok)
              && Good(g) && Sum(g.free) == Sum(h.free) - r.len && LiveSum(g.live) == LiveSum(h.live) + r.len
  {
    hide PowerOfTwo, OutOfHeaders, FitsIn, Needed, Good, FreeAfterAlloc, Taken, Heaps.Alloc, FirstFit, Canonical, Sum,
      LiveSum;
    GoodIsCanonical(h);
    FoundFits(h.free, size, align);
    AllocIsTake(h, k, size, align);
    AllocKeeps(h, size, align);
    AllocTakes(h.free, k, size, align);
    LiveSumFirst(Live(Taken(h.free[k], size, align), AlignedAddress(h.free[k], size, align)), h.live);
  }

  lemma FoundFits(f: seq<Range>, size: int, align: int)
    requires align > 0 && FirstFitting(f, size, align) < |f|
    ensures FitsIn(f[FirstFitting(f, size, align)], size, align)
  {
    hide FitsIn;
  }

  lemma GoodIsCanonical(h: Heap)
    requires Good(h)
    ensures Canonical(h.free)
  {
  }

  lemma AllocIsTake(h: Heap, k: nat, size: int, align: int)
    requires align > 0 && PowerOfTwo(align) && k == FirstFitting(h.free, size, align) < |h.free|
    ensures !OutOfHeaders(h, h.free[k], size, align) ==>
              Heaps.Alloc(h, size, align) ==
                Outcome(Take(h, k, size, align), Some(AlignedAddress(h.free[k], size, align)), Ok)
  {
    hide PowerOfTwo, OutOfHeaders, FitsIn, Take, FirstFit;
  }

  lemma LiveSumFirst(l: Live, live: seq<Live>)
    ensures LiveSum([l] + live) == LiveSum(live) + l.range.len
  {
    assert ([l] + live)[1..] == live;
  }

  lemma {:induction false} PositionIs(f: seq<Range>, lo: int, k: nat)
    requires k <= |f| && (forall j :: 0 <= j < k ==> f[j].lo < lo) && (k < |f| ==> lo <= f[k].lo)
    ensures Position(f, lo) == k
  {
    if k > 0 { PositionIs(f[1..], lo, k - 1); }
  }

  lemma InsertToPrev(f: seq<Range>, r: Range, k: nat)
    requires k <= |f| && MergesPrev(f, r, k)
    ensures var lo, len := f[k - 1].lo, f[k - 1].len + r.len;
            var joined := f[k - 1 := Range(lo, len)];
            InsertAt(f, r, k) ==
              if MergesNext(f, r, k) then Without(joined[k - 1 := Range(lo, len + f[k].len)], k) else joined
  {
    var lo, len := f[k - 1].lo, f[k - 1].len + r.len;
    if MergesNext(f, r, k) {
      assert f[k - 1 := Range(lo, len)][k - 1 := Range(lo, len + f[k].len)] == f[k - 1 := Range(lo, len + f[k].len)];
    }
  }

  // The same with the joined block's start and length, and the next block's, given.
  lemma PrevCases(f: seq<Range>, r: Range, k: nat, lo: int, n: int, touches: bool, len: int)
    requires 0 < k <= |f| && f[k - 1].lo == lo && f[k - 1].End() == r.lo && n == f[k - 1].len + r.len
    requires (touches <==> k < |f| && lo + n == f[k].lo) && (touches ==> len == f[k].len)
    ensures var joined := f[k - 1 := Range(lo, n)];
            InsertAt(f, r, k) == if touches then Without(joined[k - 1 := Range(lo, n + len)], k) else joined
  {
    InsertToPrev(f, r, k);
    hide InsertAt, Without;
  }

  lemma InsertApart(f: seq<Range>, r: Range, k: nat)
    requires k <= |f| && !MergesPrev(f, r, k)
    ensures InsertAt(f, r, k) ==
              if MergesNext(f, r, k) then f[k := Range(r.lo, r.len + f[k].len)] else f[..k] + [r] + f[k..]
  {
  }

  // The new heap, both counters moving by the size of the block, which starts inside the pool.
  lemma FreeOutcome(h: Heap, ptr: int)
    requires Good(h)
    ensures Good(Heaps.Free(h, ptr))
    ensures var k := Find(h.live, ptr);
            ptr != 0 && k < |h.live| ==>
              var g := Heaps.Free(h, ptr);
              && g == h.(free := Insert(h.free, h.live[k].range), live := h.live[..k] + h.live[k + 1..])
              && Sum(g.free) == Sum(h.free) + h.live[k].range.len
              && LiveSum(g.live) == LiveSum(h.live) - h.live[k].range.len
              && h.live[k].range.lo <= h.pool.End()
  {
    FreeKeeps(h, ptr);
    var k := Find(h.live, ptr);
    if ptr != 0 && k < |h.live| {
      hide Insert, Canonical, Sum, LiveSum;
      LiveIsNotFree(h, k);
      InsertAdds(h.free, h.live[k].range);
      LiveSumWithout(h.live, k);
      assert h.live[k].range.Has(h.live[k].range.lo);
    }
  }

  lemma {:induction false} FindIs(live: seq<Live>, p: int, k: nat)
    requires k <= |live| && (forall j :: 0 <= j < k ==> live[j].ptr != p) && (k < |live| ==> live[k].ptr == p)
    ensures Find(live, p) == k
  {
    if k > 0 { FindIs(live[1..], p, k - 1); }
  }

  lemma {:induction false} FirstFittingIs(f: seq<Range>, size: int, align: int, k: nat)
    requires align > 0 && k <= |f| && (forall j :: 0 <= j < k ==> !FitsIn(f[j], size, align))
    requires k < |f| ==> FitsIn(f[k], size, align)
    ensures FirstFitting(f, size, align) == k
  {
    hide FitsIn;
    if k > 0 { FirstFittingIs(f[1..], size, align, k - 1); }
  }
}
