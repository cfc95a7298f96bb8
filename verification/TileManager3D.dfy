// The 3D request and ready check as they run, for the tile at the head of the queue.

module TileManagers3D {
  import opened Options
  import opened Dma
  import opened TileGeometry
  import opened TilePadding
  import opened Tile3D
  import opened Tile3DOutside
  import opened Tile3DRuns
  import Heaps

  class TileManager3D {
    const v: Volume
    var mem: seq<byte>
    var heap: Heaps.Heap
    var status: Flags
    var pTemp: Option<int>
    var dma: seq<Desc> // transfers under way for the tile

    ghost function View(): State3
      reads this
    {
      State3(mem, heap, status, pTemp, dma)
    }

    /** xvReqTileTransferInMultiChannel3D */
    method ReqTileTransferIn3D()
      requires status.Valid()
      modifies this
      ensures View() == Request3(v, old(View())) && status.Valid()
    {
      if v.Meets() {
        var needed := NO_FACE;
        for i := 0 to FACES
          invariant |needed| == FACES && forall j :: 0 <= j < FACES ==> needed[j] == (j < i && Extra(v, j) > 0)
        {
          needed := needed[i := Extra(v, i) > 0];
        }
        assert needed == seq(FACES, i requires 0 <= i => Extra(v, i) > 0);
        dma := [LoadDesc(v)];
        status := Flags(true, needed, NO_FACE, false, false);
      } else {
        mem := Write(mem, FirstRow(v));
        dma := [RowsDesc(v)];
        status := Flags(true, NO_FACE, NO_FACE, true, false);
      }
    }

    // Frees the temporary row if there is one.
    method FreeTemp()
      modifies `heap, `pTemp
      ensures heap == (if old(pTemp).Some? then Heaps.Free(old(heap), old(pTemp).value) else old(heap)) && pTemp == None
    {
      if pTemp.Some? {
        heap := Heaps.Free(heap, pTemp.value);
        pTemp := None;
      }
    }

    method StartFace(i: nat)
      requires status.Valid() && i < FACES
      modifies this
      ensures View() == Start(v, old(View()), i) && status.Valid()
      ensures !v.padding.EdgePadding? && Heaps.Alloc(old(heap), TempSize(v, i), 64).ptr.None? ==> View() == old(View())
    {
      if v.padding.EdgePadding? {
        dma := EdgeDescs(v, i);
      } else {
        var bytes := TempSize(v, i);
        var a := Heaps.Alloc(heap, bytes, ALIGNMENT);
        if a.ptr.None? { return; }
        heap, pTemp := a.heap, Some(a.ptr.value);
        mem := Write(mem, Fill(a.ptr.value, Pattern(v, bytes)));
        dma := [ConstantDesc(v, i, a.ptr.value)];
      }
      status := status.(dma := true, ongoing := status.ongoing[i := true]);
    }

    /** xvCheckTileReadyMultiChannel3D; `done` says whether the transfer under way has finished. */
    method CheckTileReady3D(done: bool) returns (ready: bool)
      requires status.Valid()
      modifies this
      ensures status.Valid()
      ensures View() == if old(status).Zero() || !done then old(View()) else Complete(v, old(View()))
      ensures ready <==> status.Zero()
    {
      if status.Zero() { return true; }
      if !done { return false; }
      mem, dma, status := ExecAll3(mem, dma), [], status.(dma := false);
      ghost var start := View();
      var i := 0;
      while i < FACES
        invariant i <= FACES && status.Valid() && Advance3(v, View(), i) == Advance3(v, start, 0)
      {
        if status.needed[i] {
          if status.ongoing[i] {
            status := status.(needed := status.needed[i := false], ongoing := status.ongoing[i := false]);
            FreeTemp();
          } else {
            StartFace(i);
            return status.Zero();
          }
        }
        i := i + 1;
      }
      if status.dummyNeeded {
        if status.dummyOngoing || v.Planes() - 1 <= 0 {
          status := IDLE;
        } else {
          dma := [StackDesc(v)];
          status := Flags(true, NO_FACE, NO_FACE, true, true);
        }
      }
      ready := status.Zero();
    }
  }
}
