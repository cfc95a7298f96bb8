// The request and the ready check of a 3D tile as a staged machine: each finished transfer lets the check start the
// next face, until no face is left; temporary rows come from the heap and go back to it.

module Tile3DRuns {
  import opened Options
  import opened Dma
  import opened Grids
  import opened TileGeometry
  import opened TilePadding
  import opened Tile3D
  import opened Tile3DPadding
  import opened Tile3DOutside
  import HeapSpec
  import Heaps

  /** The status bits: transfer ongoing, each face's needed and ongoing bits, and those of a tile outside the frame. */
  datatype Flags = Flags(dma: bool, needed: seq<bool>, ongoing: seq<bool>, dummyNeeded: bool, dummyOngoing: bool) {
    predicate Zero() { !dma && needed == NO_FACE && ongoing == NO_FACE && !dummyNeeded && !dummyOngoing }

    predicate Valid() { |needed| == FACES && |ongoing| == FACES }
  }

  const NO_FACE: seq<bool> := [false, false, false, false, false, false]
  const IDLE := Flags(false, NO_FACE, NO_FACE, false, false)
  const ALIGNMENT := 64

  /** The tile at the head of the queue: memory, heap, its status, its temporary row, and the transfers under way. */
  datatype State3 = State3(mem: seq<byte>, heap: Heaps.Heap, flags: Flags, temp: Option<int>, ops: seq<Desc>)

  function Pattern(v: Volume, n: int): seq<byte> {
    seq<byte>(if n < 0 then 0 else n, j => PadByte(v.padding, v.paddingVal, v.pixWidth, j))
  }

  // ---- the request ----

  function Request3(v: Volume, s: State3): State3 {
    if v.Meets() then
      s.(ops := [LoadDesc(v)],
         flags := Flags(true, seq(FACES, i requires 0 <= i => Extra(v, i) > 0), NO_FACE, false, false))
    else
      s.(mem := Write(s.mem, FirstRow(v)), ops := [RowsDesc(v)], flags := Flags(true, NO_FACE, NO_FACE, true, false))
  }

  // ---- the ready check, once the transfers under way are done ----

  // Start padding face i.
  function Start(v: Volume, s: State3, i: nat): State3
    requires s.flags.Valid() && i < FACES
  {
    var flags := s.flags.(dma := true, ongoing := s.flags.ongoing[i := true]);
    if v.padding.EdgePadding? then s.(ops := EdgeDescs(v, i), flags := flags)
    else
      var a := Heaps.Alloc(s.heap, TempSize(v, i), ALIGNMENT);
      if a.ptr.None? then s
      else
        s.(mem := Write(s.mem, Fill(a.ptr.value, Pattern(v, TempSize(v, i)))), heap := a.heap,
           temp := Some(a.ptr.value),
           ops := [ConstantDesc(v, i, a.ptr.value)], flags := flags)
  }

  // Face i is done: clear its bits and give its temporary row back.
  function Finish(s: State3, i: nat): State3
    requires s.flags.Valid() && i < FACES
  {
    s.(flags := s.flags.(needed := s.flags.needed[i := false], ongoing := s.flags.ongoing[i := false]),
       heap := if s.temp.Some? then Heaps.Free(s.heap, s.temp.value) else s.heap, temp := None)
  }

  // The check from face i on.
  function Advance3(v: Volume, s: State3, i: nat): State3
    requires s.flags.Valid() && i <= FACES
    decreases FACES - i
  {
    if i == FACES then Outside(v, s)
    else if !s.flags.needed[i] then Advance3(v, s, i + 1)
    else if s.flags.ongoing[i] then Advance3(v, Finish(s, i), i + 1)
    else Start(v, s, i)
  }

  // The part of the check for a tile outside the frame.
  function Outside(v: Volume, s: State3): State3 {
    if !s.flags.dummyNeeded then s
    else if s.flags.dummyOngoing || v.Planes() - 1 <= 0 then s.(flags := IDLE)
    else s.(ops := [StackDesc(v)], flags := Flags(true, NO_FACE, NO_FACE, true, true))
  }

  // The transfers under way finish and the check runs.
  function Complete(v: Volume, s: State3): State3
    requires s.flags.Valid()
  {
    Advance3(v, s.(mem := ExecAll3(s.mem, s.ops), ops := [], flags := s.flags.(dma := false)), 0)
  }

  // ---- the invariant ----

  // Free heap bytes are local memory outside the tile's buffer, and every temporary row can be allocated.
  ghost predicate HeapOk(v: Volume, local: int, heap: Heaps.Heap) {
    && Heaps.Good(heap)
    && (forall b :: HeapSpec.Holds(heap.free, b) ==> 0 <= b < local && !(v.bufLo <= b < v.bufHi))
    && (v.padding.EdgePadding? || forall i :: 0 <= i < FACES && Extra(v, i) > 0 ==>
          Heaps.Alloc(heap, TempSize(v, i), 64).status.Ok?)
  }

  // Which faces from i on need padding.
  function NeededFrom(v: Volume, i: nat): (b: seq<bool>)
    ensures |b| == FACES
  {
    seq(FACES, j requires 0 <= j => j >= i && Extra(v, j) > 0)
  }

  function CountFrom(v: Volume, i: nat): nat
    decreases FACES - i
  {
    if i >= FACES then 0 else (if Extra(v, i) > 0 then 1 else 0) + CountFrom(v, i + 1)
  }

  // Bytes that are neither the tile's nor free in the heap are those of `m0`.
  ghost predicate Undisturbed(v: Volume, heap: Heaps.Heap, m0: seq<byte>, m: seq<byte>) {
    |m| == |m0| && forall a :: 0 <= a < |m0| && !(v.bufLo <= a < v.bufHi) && !HeapSpec.Holds(heap.free, a) ==>
      m[a] == m0[a]
  }

  // Faces before i are done, none is ongoing, and the heap is as it was.
  ghost predicate Between(v: Volume, heap: Heaps.Heap, s: State3, i: nat) {
    s.temp == None && s.heap == heap && s.ops == []
      && s.flags == Flags(false, NeededFrom(v, i), NO_FACE, false, false) &&
    ShowsOn(s.mem, v, Grown(v.Whole(), v.Inner(), i))
  }

  // Face i is being padded.
  ghost predicate AtFace(v: Volume, heap: Heaps.Heap, s: State3, i: nat) {
    && i < FACES && Extra(v, i) > 0 && ShowsOn(s.mem, v, Grown(v.Whole(), v.Inner(), i))
    && s.flags == Flags(true, NeededFrom(v, i), NO_FACE[i := true], false, false)
    && if v.padding.EdgePadding? then s.temp == None && s.heap == heap && s.ops == EdgeDescs(v, i)
       else
         var a := Heaps.Alloc(heap, TempSize(v, i), 64);
         && a.status.Ok? && s.heap == a.heap && a.ptr.Some? && s.temp == Some(a.ptr.value)
         && s.ops == [ConstantDesc(v, i, a.ptr.value)] && Patterned(s.mem, v, a.ptr.value, TempSize(v, i))
  }

  /** Where the machine is: loading, padding a face, filling a tile outside the frame in its two steps, or done. */
  datatype Phase = Loading | Padding(face: nat) | FillingRows | FillingStack | Done

  ghost predicate InPhase(v: Volume, heap: Heaps.Heap, s: State3, p: Phase) {
    match p
    case Loading => v.Meets() && s.temp == None && s.heap == heap && s.ops == [LoadDesc(v)]
                    && s.flags == Flags(true, NeededFrom(v, 0), NO_FACE, false, false)
    case Padding(i) => v.Meets() && AtFace(v, heap, s, i)
    case FillingRows => !v.Meets() && s.temp == None && s.heap == heap && s.ops == [RowsDesc(v)]
                        && s.flags == Flags(true, NO_FACE, NO_FACE, true, false)
                        && PadsOn(s.mem, v, v.Whole().(zb := v.z.First(), yb := v.y.First()))
    case FillingStack => !v.Meets() && s.temp == None && s.heap == heap && s.ops == [StackDesc(v)] && v.Planes() > 1
                         && s.flags == Flags(true, NO_FACE, NO_FACE, true, true) && PadsOn(s.mem, v, Stacked(v, 1))
    case Done => s.temp == None && s.heap == heap && s.ops == [] && s.flags == IDLE && Filled(v, s.mem)
  }

  // The whole tile shows the extended frame, or is padding when it lies outside.
  ghost predicate Filled(v: Volume, m: seq<byte>) {
    if v.Meets() then ShowsOn(m, v, v.Whole()) else PadsOn(m, v, v.Whole())
  }

  // Completions still to come.
  function Remaining(v: Volume, p: Phase): nat {
    match p
    case Loading => 1 + CountFrom(v, 0)
    case Padding(i) => CountFrom(v, i)
    case FillingRows => if v.Planes() > 1 then 2 else 1
    case FillingStack => 1
    case Done => 0
  }

  ghost predicate Inv3(v: Volume, local: int, heap: Heaps.Heap, m0: seq<byte>, s: State3, p: Phase) {
    && Setting(v, local, |s.mem|) && HeapOk(v, local, heap) && s.flags.Valid() && InPhase(v, heap, s, p)
    && Undisturbed(v, heap, m0, s.mem)
  }

  // ---- starting a face ----

  lemma TempPositive(v: Volume, i: nat)
    requires v.Sound() && v.Meets() && i < FACES && Extra(v, i) > 0
    ensures TempSize(v, i) > 0 && v.bufLo < v.bufHi
  {
    TempWidth(v, i);
    FaceParts(v, i);
    var r := Face(v.Whole(), v.Inner(), i);
    ColumnsInRow(v, r.za, r.ya, r.xa, r.xb + 1);
    RowsFit3(v, r.za, r.ya);
  }

  // What is allocated was free, so it lies outside the buffer, and freeing it restores the heap.
  lemma AllocOutside(heap: Heaps.Heap, n: int, lo: int, hi: int, local: int)
    requires Heaps.Good(heap) && n > 0 && lo < hi && Heaps.Alloc(heap, n, ALIGNMENT).status.Ok?
    requires forall b :: HeapSpec.Holds(heap.free, b) ==> 0 <= b < local && !(lo <= b < hi)
    ensures var a := Heaps.Alloc(heap, n, ALIGNMENT);
            && a.ptr.Some? && Heaps.Free(a.heap, a.ptr.value) == heap
            && 0 <= a.ptr.value && a.ptr.value + n <= local && (a.ptr.value + n <= lo || hi <= a.ptr.value)
            && (forall b :: a.ptr.value <= b < a.ptr.value + n ==> HeapSpec.Holds(heap.free, b))
  {
    Heaps.AllocReturnsFirstFit(heap, n, ALIGNMENT);
    Heaps.AllocThenFreeRestores(heap, n, ALIGNMENT);
    var p := Heaps.Alloc(heap, n, ALIGNMENT).ptr.value;
    hide Heaps.Alloc, Heaps.Free, Heaps.Good, HeapSpec.Holds, HeapSpec.FirstFit;
    assert HeapSpec.Holds(heap.free, p) && HeapSpec.Holds(heap.free, p + n - 1);
    assert p <= lo < p + n ==> HeapSpec.Holds(heap.free, lo);
  }

  lemma TempIsOk(v: Volume, local: int, len: nat, heap: Heaps.Heap, i: nat)
    requires Setting(v, local, len) && HeapOk(v, local, heap) && v.Meets() && i < FACES && Extra(v, i) > 0
             && !v.padding.EdgePadding?
    ensures var a := Heaps.Alloc(heap, TempSize(v, i), ALIGNMENT);
            && a.status.Ok? && a.ptr.Some? && TempOk(v, len, a.ptr.value, TempSize(v, i))
            && a.ptr.value + TempSize(v, i) <= local
            && (forall b :: a.ptr.value <= b < a.ptr.value + TempSize(v, i) ==> HeapSpec.Holds(heap.free, b))
            && Heaps.Free(a.heap, a.ptr.value) == heap
  {
    TempPositive(v, i);
    hide Heaps.Alloc, Heaps.Free, Heaps.Good, TempSize, Extra, HeapSpec.Holds, Clip, Times;
    AllocOutside(heap, TempSize(v, i), v.bufLo, v.bufHi, local);
  }
}
