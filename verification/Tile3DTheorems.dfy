// Every finished transfer brings a 3D tile one step nearer to done; when its status is zero the tile shows the
// extended frame and its temporary rows are back in the heap.

module Tile3DTheorems {
  import opened Options
  import opened Dma
  import opened Grids
  import opened TileGeometry
  import opened TilePadding
  import opened Tile3D
  import opened Tile3DPadding
  import opened Tile3DOutside
  import opened Tile3DRuns
  import HeapSpec
  import Heaps

  // ---- the temporary row ----

  // A write outside the tile's buffer and below the frame leaves the image.
  lemma WriteElsewhere(m: seq<byte>, v: Volume, local: int, f: Fill, r: Region)
    requires Setting(v, local, |m|) && TempOk(v, |m|, f.dst, |f.bytes|) && f.dst + |f.bytes| <= local
    requires ShowsOn(m, v, r) && r.Within(v.Whole())
    ensures ShowsOn(Write(m, f), v, r)
  {
    forall z, y, x, k | r.Has(z, y, x) && 0 <= k < v.pixWidth
      ensures TileByte(Write(m, f), v, z, y, x, k) == Reference3(Write(m, f), v, z, y, x, k)
    {
      RowsFit3(v, z, y);
      ColumnsInRow(v, z, y, x, x + 1);
      FrameElsewhere(m, v, local, f, z, y, x, k);
      hide Reference3, Write;
      assert TileByte(m, v, z, y, x, k) == Reference3(m, v, z, y, x, k);
      WriteAt(m, f, v.TileGrid().At(z, y, v.Col(x) + k));
    }
  }

  lemma WriteAt(m: seq<byte>, f: Fill, a: int)
    requires !f.Has(a)
    ensures ByteAt(Write(m, f), a) == ByteAt(m, a)
  {
  }

  lemma FrameElsewhere(m: seq<byte>, v: Volume, local: int, f: Fill, z: int, y: int, x: int, k: int)
    requires Setting(v, local, |m|) && f.dst + |f.bytes| <= local && 0 <= k < v.pixWidth
    ensures Reference3(Write(m, f), v, z, y, x, k) == Reference3(m, v, z, y, x, k)
  {
    var zz, yy, xx := Clamp(z, v.z.Lo(), v.z.Hi()), Clamp(y, v.y.Lo(), v.y.Hi()), Clamp(x, v.x.Lo(), v.x.Hi());
    assert v.InFrame(zz, yy, xx);
    assert local <= FrameAt(v, zz, yy, xx, k) < |m|;
  }

  lemma PatternWritten(m: seq<byte>, v: Volume, temp: int, n: int)
    requires 0 <= temp && temp + n <= |m|
    ensures Patterned(Write(m, Fill(temp, Pattern(v, n))), v, temp, n)
  {
    hide PadByte;
  }

  lemma StillUndisturbed(v: Volume, heap: Heaps.Heap, m0: seq<byte>, m: seq<byte>, m': seq<byte>)
    requires Undisturbed(v, heap, m0, m) && SameOutside(m, m', v.bufLo, v.bufHi)
    ensures Undisturbed(v, heap, m0, m')
  {
    hide HeapSpec.Holds;
  }

  lemma TempUndisturbed(v: Volume, heap: Heaps.Heap, m0: seq<byte>, m: seq<byte>, f: Fill)
    requires Undisturbed(v, heap, m0, m) && forall b :: f.Has(b) ==> HeapSpec.Holds(heap.free, b)
    ensures Undisturbed(v, heap, m0, Write(m, f))
  {
    hide HeapSpec.Holds;
    forall a | 0 <= a < |m0| && !(v.bufLo <= a < v.bufHi) && !HeapSpec.Holds(heap.free, a)
      ensures Write(m, f)[a] == m0[a]
    {
      assert !f.Has(a);
    }
  }

  // ---- starting and advancing ----

  ghost predicate Ready(v: Volume, local: int, heap: Heaps.Heap, m0: seq<byte>, s: State3) {
    Setting(v, local, |s.mem|) && HeapOk(v, local, heap) && s.flags.Valid() && v.Meets()
      && Undisturbed(v, heap, m0, s.mem)
  }

  lemma StartKeeps(v: Volume, local: int, heap: Heaps.Heap, m0: seq<byte>, s: State3, i: nat)
    requires Ready(v, local, heap, m0, s) && i < FACES && Extra(v, i) > 0 && Between(v, heap, s, i)
    ensures Inv3(v, local, heap, m0, Start(v, s, i), Padding(i))
  {
    hide Extra, Grown, ShowsOn, HeapOk, Heaps.Alloc, Undisturbed, Setting, TempSize, Patterned, Write, Pattern,
      EdgeDescs, ConstantDesc, NeededFrom;
    if !v.padding.EdgePadding? { RowWritten(v, local, heap, m0, s.mem, i); }
  }

  // Allocating and filling the temporary row leaves the image as it is.
  lemma RowWritten(v: Volume, local: int, heap: Heaps.Heap, m0: seq<byte>, m: seq<byte>, i: nat)
    requires Setting(v, local, |m|) && HeapOk(v, local, heap) && v.Meets() && i < FACES && Extra(v, i) > 0
             && !v.padding.EdgePadding?
    requires ShowsOn(m, v, Grown(v.Whole(), v.Inner(), i)) && Undisturbed(v, heap, m0, m)
    ensures var a := Heaps.Alloc(heap, TempSize(v, i), ALIGNMENT);
            && a.status.Ok? && a.ptr.Some?
            && var m' := Write(m, Fill(a.ptr.value, Pattern(v, TempSize(v, i))));
            && Patterned(m', v, a.ptr.value, TempSize(v, i)) && ShowsOn(m', v, Grown(v.Whole(), v.Inner(), i))
            && Undisturbed(v, heap, m0, m')
  {
    FaceGrows(v, i, 0, 0, 0);
    TempPositive(v, i);
    hide Extra, Grown, ShowsOn, HeapOk, Heaps.Alloc, Undisturbed, Setting, TempSize;
    TempIsOk(v, local, |m|, heap, i);
    var p := Heaps.Alloc(heap, TempSize(v, i), ALIGNMENT).ptr.value;
    var f := Fill(p, Pattern(v, TempSize(v, i)));
    PatternWritten(m, v, p, TempSize(v, i));
    WriteElsewhere(m, v, local, f, Grown(v.Whole(), v.Inner(), i));
    TempUndisturbed(v, heap, m0, m, f);
    hide Patterned, Write;
  }

  // The first face from i on that needs padding, or the end.
  function NextPhase(v: Volume, i: nat): Phase
    requires i <= FACES
    decreases FACES - i
  {
    if i == FACES then Done else if Extra(v, i) > 0 then Padding(i) else NextPhase(v, i + 1)
  }

  lemma NextRemains(v: Volume, i: nat)
    requires i <= FACES
    ensures Remaining(v, NextPhase(v, i)) == CountFrom(v, i)
    decreases FACES - i
  {
    hide Extra;
    if i < FACES { NextRemains(v, i + 1); }
  }

  lemma NeededStep(v: Volume, i: nat)
    requires i < FACES
    ensures NeededFrom(v, i)[i] == (Extra(v, i) > 0)
    ensures Extra(v, i) <= 0 ==> NeededFrom(v, i + 1) == NeededFrom(v, i)
    ensures NeededFrom(v, i)[i := false] == NeededFrom(v, i + 1)
    ensures NO_FACE[i := true][i := false] == NO_FACE
  {
    hide Extra;
  }

  lemma {:induction false} AdvanceFrom(v: Volume, local: int, heap: Heaps.Heap, m0: seq<byte>, s: State3, i: nat)
    requires Ready(v, local, heap, m0, s) && i <= FACES && Between(v, heap, s, i)
    ensures Inv3(v, local, heap, m0, Advance3(v, s, i), NextPhase(v, i))
    decreases FACES - i
  {
    if i == FACES {
      hide Extra, ShowsOn, HeapOk, Undisturbed, Setting;
      assert NeededFrom(v, FACES) == NO_FACE;
    } else {
      NeededStep(v, i);
      FaceGrows(v, i, 0, 0, 0);
      hide Extra, ShowsOn, HeapOk, Undisturbed, Setting, Grown, Start, InPhase;
      if Extra(v, i) > 0 {
        StartKeeps(v, local, heap, m0, s, i);
      } else {
        AdvanceFrom(v, local, heap, m0, s, i + 1);
      }
    }
  }

  // Faces that need nothing are passed over.
  lemma {:induction false} SkipTo(v: Volume, s: State3, k: nat, i: nat)
    requires s.flags.Valid() && k <= i <= FACES && forall j :: k <= j < i ==> !s.flags.needed[j]
    ensures Advance3(v, s, k) == Advance3(v, s, i)
    decreases i - k
  {
    hide Start, Finish, Outside;
    if k < i { SkipTo(v, s, k + 1, i); }
  }

  // ---- one completion ----

  // The transfers under way have finished.
  function Arrived(s: State3): State3 { s.(mem := ExecAll3(s.mem, s.ops), ops := [], flags := s.flags.(dma := false)) }

  lemma OneTransfer(m: seq<byte>, d: Desc)
    ensures ExecAll3(m, [d]) == d.Exec(m)
  {
    assert [d][..0] == [];
  }

  lemma LoadingCompletes(v: Volume, local: int, heap: Heaps.Heap, m0: seq<byte>, s: State3)
    requires Inv3(v, local, heap, m0, s, Loading)
    ensures Inv3(v, local, heap, m0, Complete(v, s), NextPhase(v, 0))
  {
    OneTransfer(s.mem, LoadDesc(v));
    LoadShows(s.mem, v, local);
    hide Extra, ShowsOn, HeapOk, Undisturbed, Setting, Grown, Advance3, LoadDesc, ExecAll3;
    StillUndisturbed(v, heap, m0, s.mem, Arrived(s).mem);
    SettingSame(v, local, s.mem, Arrived(s).mem);
    AdvanceFrom(v, local, heap, m0, Arrived(s), 0);
  }

  lemma SettingSame(v: Volume, local: int, m: seq<byte>, m': seq<byte>)
    requires Setting(v, local, |m|) && |m'| == |m|
    ensures Setting(v, local, |m'|)
  {
  }

  // The transfers of a face finish.
  lemma FaceArrives(v: Volume, local: int, heap: Heaps.Heap, m0: seq<byte>, s: State3, i: nat)
    requires Inv3(v, local, heap, m0, s, Padding(i))
    ensures Ready(v, local, heap, m0, Arrived(s)) && ShowsOn(Arrived(s).mem, v, Grown(v.Whole(), v.Inner(), i + 1))
  {
    hide Extra, ShowsOn, HeapOk, Undisturbed, Grown, ConstantDesc, ExecAll3, EdgeDescs, TempSize, Heaps.Alloc;
    if v.padding.EdgePadding? {
      EdgeFace(s.mem, v, local, i);
    } else {
      var p := s.temp.value;
      OneTransfer(s.mem, ConstantDesc(v, i, p));
      TempIsOk(v, local, |s.mem|, heap, i);
      ConstantFace(s.mem, v, local, i, p);
    }
    StillUndisturbed(v, heap, m0, s.mem, Arrived(s).mem);
  }

  // The check clears the face's bits and gives the row back.
  lemma FaceFinishes(v: Volume, local: int, heap: Heaps.Heap, m0: seq<byte>, s: State3, i: nat)
    requires Inv3(v, local, heap, m0, s, Padding(i))
    ensures i < FACES && Arrived(s).flags.Valid() && Arrived(s).flags.needed[i] && Arrived(s).flags.ongoing[i]
    ensures forall j :: 0 <= j < i ==> !Arrived(s).flags.needed[j]
    ensures Between(v, heap, Finish(Arrived(s), i), i + 1) && Ready(v, local, heap, m0, Finish(Arrived(s), i))
  {
    FaceArrives(v, local, heap, m0, s, i);
    NeededStep(v, i);
    if !v.padding.EdgePadding? { TempIsOk(v, local, |s.mem|, heap, i); }
    hide Extra, ShowsOn, HeapOk, Undisturbed, Setting, Grown, ExecAll3, EdgeDescs, ConstantDesc, Heaps.Alloc,
      Heaps.Free, TempSize;
  }

  lemma PaddingCompletes3(v: Volume, local: int, heap: Heaps.Heap, m0: seq<byte>, s: State3, i: nat)
    requires Inv3(v, local, heap, m0, s, Padding(i))
    ensures Inv3(v, local, heap, m0, Complete(v, s), NextPhase(v, i + 1))
  {
    FaceArrives(v, local, heap, m0, s, i);
    FaceFinishes(v, local, heap, m0, s, i);
    var a := Arrived(s);
    hide Ready, InPhase, Between, Extra, ExecAll3, Finish, Start, Outside, Inv3;
    SkipTo(v, a, 0, i);
    assert Advance3(v, a, i) == Advance3(v, Finish(a, i), i + 1);
    AdvanceFrom(v, local, heap, m0, Finish(a, i), i + 1);
  }

  lemma FillingCompletes(v: Volume, local: int, heap: Heaps.Heap, m0: seq<byte>, s: State3, p: Phase)
    requires Inv3(v, local, heap, m0, s, p) && (p.FillingRows? || p.FillingStack?)
    ensures Inv3(v, local, heap, m0, Complete(v, s), if p.FillingRows? && v.Planes() > 1 then FillingStack else Done)
  {
    if p.FillingRows? {
      OneTransfer(s.mem, RowsDesc(v));
      RowsShow(s.mem, v);
    } else {
      OneTransfer(s.mem, StackDesc(v));
      StackShows(s.mem, v);
    }
    hide Extra, PadsOn, HeapOk, Undisturbed, Setting, ExecAll3, RowsDesc, StackDesc;
    StillUndisturbed(v, heap, m0, s.mem, Arrived(s).mem);
    SkipTo(v, Arrived(s), 0, FACES);
    assert v.Planes() <= 1 ==> Stacked(v, 1) == v.Whole();
  }

  function PhaseAfter(v: Volume, p: Phase): Phase
    requires p != Done && (p.Padding? ==> p.face < FACES)
  {
    match p
    case Loading => NextPhase(v, 0)
    case Padding(i) => NextPhase(v, i + 1)
    case FillingRows => if v.Planes() > 1 then FillingStack else Done
    case FillingStack => Done
  }

  /** Each completion keeps the invariant and takes exactly one off what remains. */
  lemma CompletionStep(v: Volume, local: int, heap: Heaps.Heap, m0: seq<byte>, s: State3, p: Phase)
    requires Inv3(v, local, heap, m0, s, p) && p != Done
    ensures (p.Padding? ==> p.face < FACES) && Inv3(v, local, heap, m0, Complete(v, s), PhaseAfter(v, p))
    ensures Remaining(v, PhaseAfter(v, p)) == Remaining(v, p) - 1
  {
    hide Complete, Setting, HeapOk, Undisturbed;
    match p
    case Loading =>
      LoadingCompletes(v, local, heap, m0, s);
      NextRemains(v, 0);
    case Padding(i) =>
      PaddingCompletes3(v, local, heap, m0, s, i);
      NextRemains(v, i + 1);
    case _ =>
      FillingCompletes(v, local, heap, m0, s, p);
  }

  // ---- whole runs ----

  /** A request puts the tile into its first phase, with one completion to come for the load and one for each face to
      pad, or at most two for a tile outside the frame. */
  lemma RequestStarts(v: Volume, local: int, s: State3)
    requires Setting(v, local, |s.mem|) && HeapOk(v, local, s.heap) && s.temp == None
    ensures var p := if v.Meets() then Loading else FillingRows;
            Inv3(v, local, s.heap, s.mem, Request3(v, s), p)
  {
    if v.Meets() {
      hide Setting, HeapOk, Extra, LoadDesc;
    } else {
      FirstRowPads(s.mem, v);
      hide Setting, HeapOk, PadsOn, Write, RowsDesc;
      StillUndisturbed(v, s.heap, s.mem, s.mem, Write(s.mem, FirstRow(v)));
      SettingSame(v, local, s.mem, Write(s.mem, FirstRow(v)));
    }
  }

  ghost predicate Following(v: Volume, trace: seq<State3>) {
    && |trace| > 0 && (forall i :: 0 <= i < |trace| ==> trace[i].flags.Valid())
    && forall i :: 0 < i < |trace| ==> trace[i] == Complete(v, trace[i - 1])
  }

  function PhaseAt(v: Volume, k: nat): Phase {
    if k == 0 then (if v.Meets() then Loading else FillingRows)
    else
      var p := PhaseAt(v, k - 1);
      if p == Done || (p.Padding? && p.face >= FACES) then Done else PhaseAfter(v, p)
  }

  lemma {:induction false} RunIn3(v: Volume, local: int, s: State3, trace: seq<State3>, k: nat)
    requires Setting(v, local, |s.mem|) && HeapOk(v, local, s.heap) && s.temp == None
    requires Following(v, trace) && trace[0] == Request3(v, s) && k < |trace| && k <= Remaining(v, PhaseAt(v, 0))
    ensures Inv3(v, local, s.heap, s.mem, trace[k], PhaseAt(v, k))
            && Remaining(v, PhaseAt(v, k)) == Remaining(v, PhaseAt(v, 0)) - k
  {
    hide Setting, HeapOk, Complete, Request3, Inv3;
    if k == 0 {
      RequestStarts(v, local, s);
    } else {
      RunIn3(v, local, s, trace, k - 1);
      OnlyDoneIsOver(v, PhaseAt(v, k - 1), local, s.heap, s.mem, trace[k - 1]);
      CompletionStep(v, local, s.heap, s.mem, trace[k - 1], PhaseAt(v, k - 1));
    }
  }

  lemma OnlyDoneIsOver(v: Volume, p: Phase, local: int, heap: Heaps.Heap, m0: seq<byte>, s: State3)
    requires Inv3(v, local, heap, m0, s, p)
    ensures Remaining(v, p) == 0 <==> p == Done
    ensures p.Padding? ==> p.face < FACES
    ensures s.flags.Zero() <==> p == Done
  {
    hide Setting, HeapOk, Undisturbed, ShowsOn, PadsOn, Extra, LoadDesc, RowsDesc, StackDesc, EdgeDescs, ConstantDesc,
      Filled;
  }

  lemma CompletedIsPadding(v: Volume, m: seq<byte>)
    ensures Filled(v, m) && !v.padding.EdgePadding? ==> PaddedOutside3(m, v)
  {
    hide ShowsOn, PadsOn, PaddedOutside3;
    if Filled(v, m) { FilledIsPadding(m, v); }
  }

  /** After a request, the status is not zero before the count of completions and zero right at it: one for the load and
      one for each padded face, or at most two for a tile outside the frame. The tile then shows the extended frame, or
      padding outside it; every temporary row is back in the heap; and nothing else in memory has changed. */
  lemma TileIsCompleted(v: Volume, local: int, s: State3, trace: seq<State3>)
    requires Setting(v, local, |s.mem|) && HeapOk(v, local, s.heap) && s.temp == None
    requires Following(v, trace) && trace[0] == Request3(v, s)
    requires |trace| == 1 + if v.Meets() then 1 + CountFrom(v, 0) else if v.Planes() > 1 then 2 else 1
    ensures forall k :: 0 <= k < |trace| - 1 ==> !trace[k].flags.Zero()
    ensures var t := trace[|trace| - 1];
            && t.flags.Zero() && Filled(v, t.mem) && t.heap == s.heap && t.temp == None
            && Undisturbed(v, s.heap, s.mem, t.mem)
            && (!v.padding.EdgePadding? ==> PaddedOutside3(t.mem, v))
  {
    CompletedIsPadding(v, trace[|trace| - 1].mem);
    hide Setting, HeapOk, Complete, Request3, Undisturbed, Filled, CountFrom, PaddedOutside3;
    forall k | 0 <= k < |trace| ensures trace[k].flags.Zero() <==> k == |trace| - 1 {
      RunIn3(v, local, s, trace, k);
      OnlyDoneIsOver(v, PhaseAt(v, k), local, s.heap, s.mem, trace[k]);
    }
    RunIn3(v, local, s, trace, |trace| - 1);
  }

  /** So a tile outside the frame in edge mode shows the clamped frame at the end if and only if the frame's nearest
      pixels were all zero at the request: for a frame that is nowhere zero it does not. */
  lemma OutsideEdgeTileIsBlack(v: Volume, local: int, s: State3, trace: seq<State3>)
    requires Setting(v, local, |s.mem|) && HeapOk(v, local, s.heap) && s.temp == None
    requires Following(v, trace) && trace[0] == Request3(v, s)
    requires !v.Meets() && v.padding.EdgePadding? && |trace| == if v.Planes() > 1 then 3 else 2
    ensures ShowsOn(trace[|trace| - 1].mem, v, v.Whole()) <==> BlackOn(s.mem, v, Nearest(v))
    ensures (forall a :: 0 <= a < |s.mem| ==> s.mem[a] != 0) ==> !ShowsOn(trace[|trace| - 1].mem, v, v.Whole())
  {
    TileIsCompleted(v, local, s, trace);
    var m := trace[|trace| - 1].mem;
    OutsideEdgeShowsIffBlack(m, v);
    hide Setting, Following, Request3, ShowsOn, PadsOn, HeapOk, Undisturbed, BlackOn;
    FrameIsUndisturbed(v, local, s.heap, s.mem, m);
  }

  // The frame's nearest pixels are what they were.
  lemma FrameIsUndisturbed(v: Volume, local: int, heap: Heaps.Heap, m0: seq<byte>, m: seq<byte>)
    requires Setting(v, local, |m0|) && HeapOk(v, local, heap) && Undisturbed(v, heap, m0, m)
    ensures BlackOn(m, v, Nearest(v)) <==> BlackOn(m0, v, Nearest(v))
    ensures (forall a :: 0 <= a < |m0| ==> m0[a] != 0) ==> !BlackOn(m0, v, Nearest(v))
  {
    NearestIsFrame(v);
    RowsFit3(v, v.z.First(), v.y.First());
    forall z, y, x, k | Nearest(v).Has(z, y, x) && 0 <= k < v.pixWidth
      ensures 0 <= FrameAt(v, z, y, x, k) < |m0| && FrameByte(m0, v, z, y, x, k) == m0[FrameAt(v, z, y, x, k)]
      ensures FrameByte(m, v, z, y, x, k) == FrameByte(m0, v, z, y, x, k)
    {
      assert v.InFrame(z, y, x);
      var a := FrameAt(v, z, y, x, k);
      assert local <= a < |m0|;
      FrameIsNotFree(v, local, heap, a);
      assert m[a] == m0[a];
    }
    hide FrameAt, FrameByte, HeapOk, Setting;
    var n := Nearest(v);
    assert n.Has(n.za, n.ya, n.xa);
    if forall a :: 0 <= a < |m0| ==> m0[a] != 0 { assert FrameByte(m0, v, n.za, n.ya, n.xa, 0) != 0; }
  }

  lemma NearestIsFrame(v: Volume)
    requires v.Sound()
    ensures var n := Nearest(v);
            && n.NonEmpty() && v.pixWidth > 0
            && forall z, y, x :: n.Has(z, y, x) ==> v.InFrame(z, y, x)
  {
    hide Times;
  }

  lemma FrameIsNotFree(v: Volume, local: int, heap: Heaps.Heap, a: int)
    requires HeapOk(v, local, heap) && local <= a
    ensures !HeapSpec.Holds(heap.free, a)
  {
  }
}
