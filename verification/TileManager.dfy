// The tile manager object: byte memory, tile table, request ring and DMA channel, updated in place.

module TileManagers {
  import opened Options
  import opened Dma
  import opened Grids
  import opened TileGeometry
  import opened TilePadding
  import opened TileRuns
  import opened TileRunsProofs

  // ---- padding one tile ----

  lemma NoRowsPadded(p: Place, m: seq<byte>, ya: int, from: int)
    ensures RowsPadded(p, m, m, ya, ya, from)
  {
  }

  lemma NoColumnsPadded(p: Place, m: seq<byte>, xa: int, from: int)
    ensures ColumnsPadded(p, m, m, xa, xa, from)
  {
  }

  // The writers' start addresses, as the code computes them from the tile's data pointer.
  lemma PadAddresses(p: Place, y: int, x: int)
    requires Sound(p)
    ensures RowStart(p, p.Y0()) == p.data - (Times(p.edgeTop, p.pitch) + p.frame.Col(p.edgeLeft))
    ensures RowStart(p, y) ==
              p.data - (Times(p.edgeTop, p.pitch) + p.frame.Col(p.edgeLeft)) + Times(y - p.Y0(), p.pitch)
    ensures RowStart(p, y + 1) == p.data + Times(y - p.y + 1, p.pitch) - p.frame.Col(p.edgeLeft)
    ensures RowStart(p, y) == RowStart(p, y + 1) - p.pitch
    ensures p.EdgePtr() + p.frame.Col(x + 1 - p.X0()) == p.data - Times(p.edgeTop, p.pitch) + p.frame.Col(x - p.x + 1)
    ensures p.EdgePtr() + p.frame.Col(x - p.X0()) == p.EdgePtr() + p.frame.Col(x + 1 - p.X0()) - p.frame.pixWidth
    ensures 0 <= RowWidth(p) == p.frame.Col(p.edgeLeft + p.width + p.edgeRight)
  {
    RowsAreLaid(p, p.Y0());
    TimesAdd(y - p.y + 1, p.edgeTop, p.pitch);
    TimesAdd(y - p.Y0(), 1, p.pitch);
    TimesAdd(x - p.x + 1, p.edgeLeft, p.frame.pixWidth);
    TimesAdd(x - p.X0(), 1, p.frame.pixWidth);
    TimesIsProduct(1, p.pitch);
    TimesIsProduct(1, p.frame.pixWidth);
  }

  // A tile that meets its frame: pad the sides its status names, in the order top, bottom, left, right.
  method PadEdges(mem: array<byte>, p: Place, status: Status, ghost lo: int)
    requires Safe(p, lo, mem.Length) && p.Meets() && status == StatusOf(p)
    modifies mem
    ensures PadResult(old(mem[..]), mem[..], p)
  {
    hide Clip, Place.Consistent, InSystem, Times, RowsPadded, ColumnsPadded, PadByte, RowWidth, RowStart, Frame.Col,
      Place.EdgePtr, Shows, Loaded, OffTile, Px;
    var f := p.frame;
    ghost var y1, y2, x1, x2 := p.YSpan().a, p.YSpan().b, p.XSpan().a, p.XSpan().b;
    ClipIsIntersection(p.X0(), p.X1(), f.padLeft, f.width, f.padRight, x1);
    ClipIsIntersection(p.Y0(), p.Y1(), f.padTop, f.height, f.padBottom, y1);
    PadAddresses(p, y1, x1);
    PadAddresses(p, y2, x2);
    ghost var m0 := mem[..];
    var copyRowBytes := f.Col(p.edgeLeft + p.width + p.edgeRight);
    var copyHeight := p.edgeTop + p.height + p.edgeBottom;
    if status.top {
      var extraEdgeTop := 0 - f.padTop - (p.y - p.edgeTop);
      var dst := p.data - (Times(p.edgeTop, p.pitch) + f.Col(p.edgeLeft));
      PadRows(mem, p, dst + Times(extraEdgeTop, p.pitch), dst, copyRowBytes, p.Y0(), y1, y1, extraEdgeTop);
    } else {
      NoRowsPadded(p, m0, p.Y0(), y1);
    }
    ghost var m1 := mem[..];
    if status.bottom {
      var last := f.height - 1 + f.padBottom;
      var extraEdgeBottom := p.y + (p.height - 1) + p.edgeBottom - last;
      var dst := p.data + Times(last - p.y + 1, p.pitch) - f.Col(p.edgeLeft);
      PadRows(mem, p, dst - p.pitch, dst, copyRowBytes, y2 + 1, p.Y1() + 1, y2, extraEdgeBottom);
    } else {
      NoRowsPadded(p, m1, y2 + 1, y2);
    }
    ghost var m2 := mem[..];
    if status.left {
      var extraEdgeLeft := 0 - f.padLeft - (p.x - p.edgeLeft);
      var dst := p.data - (Times(p.edgeTop, p.pitch) + f.Col(p.edgeLeft));
      LeftAddresses(p, x1);
      PadColumns(mem, p, dst + f.Col(extraEdgeLeft), dst, p.X0(), x1, x1, extraEdgeLeft, copyHeight);
    } else {
      NoColumnsPadded(p, m2, p.X0(), x1);
    }
    ghost var m3 := mem[..];
    if status.right {
      var last := f.width - 1 + f.padRight;
      var extraEdgeRight := p.x + (p.width - 1) + p.edgeRight - last;
      var dst := p.data - Times(p.edgeTop, p.pitch) + f.Col(last - p.x + 1);
      PadColumns(mem, p, dst - f.pixWidth, dst, x2 + 1, p.X1() + 1, x2, extraEdgeRight, copyHeight);
    } else {
      NoColumnsPadded(p, m3, x2 + 1, x2);
    }
    PaddingCompletes(p, lo, m0, m1, m2, m3, mem[..]);
  }

  lemma LeftAddresses(p: Place, x1: int)
    ensures p.EdgePtr() == p.data - (Times(p.edgeTop, p.pitch) + p.frame.Col(p.edgeLeft))
            && p.EdgePtr() == p.EdgePtr() + p.frame.Col(p.X0() - p.X0())
  {
  }

  // A tile disjoint from its frame becomes constant, unless the frame asks for edge padding.
  method PadWhole(mem: array<byte>, p: Place, ghost lo: int)
    requires Safe(p, lo, mem.Length) && !p.Meets()
    modifies mem
    ensures PadResult(old(mem[..]), mem[..], p)
  {
    hide Clip, Place.Consistent, InSystem, Times, PadByte, RowWidth, RowStart, Frame.Col, Place.EdgePtr, OffTile, Px,
      FramePx;
    var f := p.frame;
    PadAddresses(p, p.Y0(), p.X0());
    forall y, x, k | HasPx(p, y, x, k) ensures !f.HasPixel(y, x) && !InClip(p, y, x) {
      ClipIsIntersection(p.X0(), p.X1(), f.padLeft, f.width, f.padRight, x);
      ClipIsIntersection(p.Y0(), p.Y1(), f.padTop, f.height, f.padBottom, y);
    }
    if !f.padding.EdgePadding? {
      PadRows(mem, p, 0, p.data - (Times(p.edgeTop, p.pitch) + f.Col(p.edgeLeft)),
              f.Col(p.edgeLeft + p.width + p.edgeRight),
              p.Y0(), p.Y1() + 1, p.Y0(), p.height + p.edgeTop + p.edgeBottom);
    }
  }

  // ---- the manager ----

  const MAX_NUM_DMA_QUEUE_LENGTH := 32

  // The queued tiles, oldest first.
  function Window(ring: seq<nat>, start: nat, pending: nat): seq<nat>
    requires |ring| == MAX_NUM_DMA_QUEUE_LENGTH
  {
    seq(pending, i requires 0 <= i < pending => ring[(start + i) % MAX_NUM_DMA_QUEUE_LENGTH])
  }

  // Storing behind the window appends to it exactly when fewer than 32 requests are pending: the code does not check.
  lemma RingPushIsExact(ring: seq<nat>, start: nat, pending: nat, t: nat)
    requires |ring| == MAX_NUM_DMA_QUEUE_LENGTH && start < MAX_NUM_DMA_QUEUE_LENGTH
             && pending <= MAX_NUM_DMA_QUEUE_LENGTH
    requires t !in Window(ring, start, pending)
    ensures Window(ring[(start + pending) % MAX_NUM_DMA_QUEUE_LENGTH := t], start, pending + 1) ==
              Window(ring, start, pending) + [t]
            <==> pending < MAX_NUM_DMA_QUEUE_LENGTH
  {
    var w, w' :=
      Window(ring, start, pending), Window(ring[(start + pending) % MAX_NUM_DMA_QUEUE_LENGTH := t], start, pending + 1);
    if pending < MAX_NUM_DMA_QUEUE_LENGTH {
      forall i | 0 <= i < pending ensures w'[i] == w[i] {}
      assert w' == w + [t];
    } else {
      assert w[0] in w && w[0] != t && (w + [t])[0] == w[0];
      assert (start + pending) % MAX_NUM_DMA_QUEUE_LENGTH == (start + 0) % MAX_NUM_DMA_QUEUE_LENGTH;
      assert w'[0] == t;
    }
  }

  lemma WindowPops(ring: seq<nat>, start: nat, pending: nat, n: nat)
    requires |ring| == MAX_NUM_DMA_QUEUE_LENGTH && n <= pending
    ensures Window(ring, (start + n) % MAX_NUM_DMA_QUEUE_LENGTH, pending - n) == Window(ring, start, pending)[n..]
  {
    var first := (start + n) % MAX_NUM_DMA_QUEUE_LENGTH;
    forall i | 0 <= i < pending - n
      ensures Window(ring, first, pending - n)[i] == Window(ring, start, pending)[n..][i]
    {
      assert (first + i) % MAX_NUM_DMA_QUEUE_LENGTH == (start + (n + i)) % MAX_NUM_DMA_QUEUE_LENGTH;
    }
  }

  // The run h' goes on from h with steps of the engine and the retiring of finished tiles only.
  ghost predicate Continues(h: seq<State>, h': seq<State>) {
    h != [] && h <= h' && OnlyProgress(h', |h| - 1)
  }

  class TileManager {
    const mem: array<byte>
    const tiles: array<Tile>
    const tileProcQueue: array<nat>
    var tileDMAstartIndex: nat
    var tileDMApendingCount: nat
    // the DMA channel: transfers not finished yet, and how many were ever issued
    var dma: seq<Pending>
    var issued: int
    // where system memory starts, the tiles left alone since their request, and the run so far
    ghost const lo: int
    ghost var intact: set<nat>
    ghost var history: seq<State>

    ghost predicate Shape()
      reads this
    {
      && tileProcQueue.Length == MAX_NUM_DMA_QUEUE_LENGTH && mem as object != tileProcQueue
      && tileDMAstartIndex < MAX_NUM_DMA_QUEUE_LENGTH && tileDMApendingCount <= MAX_NUM_DMA_QUEUE_LENGTH
    }

    ghost function Queue(): seq<nat>
      requires Shape()
      reads this, tileProcQueue
    {
      Window(tileProcQueue[..], tileDMAstartIndex, tileDMApendingCount)
    }

    ghost function StateWith(queue: seq<nat>): State
      reads this, mem, tiles
    {
      State(mem[..], tiles[..], queue, dma, issued, intact)
    }

    // The fields are the last state of a run of the state machine.
    ghost predicate ValidWith(queue: seq<nat>)
      reads this, mem, tiles
    {
      Run(history, lo) && history[|history| - 1] == StateWith(queue)
    }

    ghost predicate Valid()
      reads this, mem, tiles, tileProcQueue
    {
      Shape() && ValidWith(Queue())
    }

    // Since the run was `h`, only the engine and the retiring of finished tiles moved.
    ghost predicate Since(h: seq<State>)
      reads this`history
    {
      Continues(h, history)
    }

    // Tile u still waits for a transfer.
    ghost predicate Waits(u: nat)
      reads this`dma, this`issued, tiles
      requires u < tiles.Length
    {
      !tiles[u].status.dummy && tiles[u].dmaIndex > issued - |dma|
    }

    // All tiles free, nothing queued, nothing outstanding.
    constructor (mem: array<byte>, tiles: array<Tile>, ghost lo: int)
      requires Init(State(mem[..], tiles[..], [], [], 0, {}), lo)
      ensures Valid() && Queue() == [] && this.mem == mem && this.tiles == tiles && fresh(tileProcQueue)
      ensures StateWith([]) == State(mem[..], tiles[..], [], [], 0, {})
    {
      this.mem, this.tiles, this.lo := mem, tiles, lo;
      tileProcQueue := new nat[MAX_NUM_DMA_QUEUE_LENGTH](i => 0);
      tileDMAstartIndex, tileDMApendingCount, dma, issued, intact := 0, 0, [], 0, {};
      history := [State(mem[..], tiles[..], [], [], 0, {})];
      new;
      EmptyWindow(tileProcQueue[..], 0);
    }

    ghost method Record(queue: seq<nat>)
      requires Run(history, lo) && Next(history[|history| - 1], StateWith(queue), lo)
      modifies this`history
      ensures ValidWith(queue) && history == old(history) + [StateWith(queue)]
      ensures Progress(old(history)[|old(history)| - 1], StateWith(queue)) ==> Since(old(history))
    {
      hide Next, Progress;
      history := history + [StateWith(queue)];
      forall i | 0 <= i < |history| - 1 ensures Next(history[i], history[i + 1], lo) {}
    }

    lemma SinceBefore(h: seq<State>, h': seq<State>)
      requires Since(h') && Continues(h, h')
      ensures Since(h)
    {
      hide Progress;
      forall i | |h| - 1 <= i < |history| - 1 ensures Progress(history[i], history[i + 1]) {
        if i < |h'| - 1 { assert Progress(h'[i], h'[i + 1]); }
      }
    }

    // XV_TILE_UPDATE_DIMENSIONS on a free tile
    method UpdateDimensions(t: nat, x: int, y: int, w: nat, h: nat, p: int)
      requires Valid() && t < tiles.Length && tiles[t].Free()
      requires Safe(tiles[t].place.(x := x, y := y, width := w, height := h, pitch := p), lo, mem.Length)
      modifies this`intact, this`history, tiles
      ensures Valid() && Queue() == old(Queue())
      ensures tiles[..] ==
                old(tiles[..])[t :=
                               old(tiles[t]).(place :=
                                              old(tiles[t]).place.(x := x, y := y, width := w, height := h,
                                                                   pitch := p))]
      ensures intact == old(intact) - {t}
    {
      hide Run, Next, Window, Safe;
      ghost var s := StateWith(Queue());
      RunKeeps(history, lo);
      tiles[t] := tiles[t].(place := tiles[t].place.(x := x, y := y, width := w, height := h, pitch := p));
      intact := intact - {t};
      TouchIsNext(s, StateWith(Queue()), t);
      Record(Queue());
    }

    lemma TouchIsNext(s: State, s': State, t: nat)
      requires Inv(s, lo) && Touch(s, s', t) && Safe(s'.tiles[t].place, lo, |s'.mem|)
      ensures Next(s, s', lo)
    {
      hide Clip, Safe, QueueOk, LinksOk, DmaOk, WillLoad, SourcesReady, ReadyTilesShow;
      assert PlacesOk(s', lo);
    }

    /** Clip the tile, record what is reused and hand its transfers to the channel; RequestDoes says what that comes to.
        */
    method Load(t: nat, pPrevTile: Option<nat>)
      requires CanRequest(StateWith([]), t, pPrevTile)
      modifies tiles, this`dma, this`issued
      ensures tiles[..] == Request(old(StateWith([])), t, pPrevTile).tiles
      ensures dma == Request(old(StateWith([])), t, pPrevTile).dma
              && issued == Request(old(StateWith([])), t, pPrevTile).issued
      ensures old(SoundRequest(StateWith([]), t, pPrevTile)) ==>
                RequestDoes(old(StateWith([])), State(mem[..], tiles[..], [t], dma, issued, intact + {t}), t, pPrevTile)
    {
      ghost var s := StateWith([]);
      if SoundRequest(s, t, pPrevTile) { RequestIs(s, t, pPrevTile); }
      RequestFrame(s, t, pPrevTile);
      LoadFields(t, pPrevTile);
      assert SoundRequest(s, t, pPrevTile) ==>
          Request(s, t, pPrevTile) == State(mem[..], tiles[..], [t], dma, issued, intact + {t});
      hide *;
    }

    method LoadFields(t: nat, pPrevTile: Option<nat>)
      requires CanRequest(StateWith([]), t, pPrevTile)
      modifies tiles, this`dma, this`issued
      ensures tiles[..] == Request(old(StateWith([])), t, pPrevTile).tiles
      ensures dma == Request(old(StateWith([])), t, pPrevTile).dma
              && issued == Request(old(StateWith([])), t, pPrevTile).issued
    {
      ghost var s := StateWith([]);
      hide Clip, LoadOps, Place.Meets, Independent, StatusOf, Place.Consistent;
      var p := tiles[t].place;
      var dmaIndex, prev, link: Option<nat> := DUMMY_DMA_INDEX, None, None;
      if p.Meets() {
        if pPrevTile.Some? {
          var q := tiles[pPrevTile.value].place;
          prev := Some(q);
          if !Independent(q, p.YSpan().a, p.YSpan().b, p.XSpan().a, p.XSpan().b) { link := pPrevTile; }
        }
        var ops := LoadOps(p, prev);
        assert Issued(s, t, pPrevTile) == seq(|ops|, i requires 0 <= i < |ops| => Pending(t, ops[i]));
        dma := dma + seq(|ops|, i requires 0 <= i < |ops| => Pending(t, ops[i]));
        issued := issued + |ops|;
        dmaIndex := issued;
      }
      assert link == if Reuses(s, t, pPrevTile) then pPrevTile else None;
      tiles[t] := Tile(p, StatusOf(p), dmaIndex, 0, link);
      if link.Some? { tiles[link.value] := tiles[link.value].(reuseCount := tiles[link.value].reuseCount + 1); }
    }

    method Enqueue(t: nat)
      requires Shape() && t !in Queue() && tileDMApendingCount < MAX_NUM_DMA_QUEUE_LENGTH
      modifies this`tileDMApendingCount, tileProcQueue
      ensures Shape() && Queue() == old(Queue()) + [t]
    {
      var tileIndex := (tileDMAstartIndex + tileDMApendingCount) % MAX_NUM_DMA_QUEUE_LENGTH;
      RingPushIsExact(tileProcQueue[..], tileDMAstartIndex, tileDMApendingCount, t);
      tileDMApendingCount := tileDMApendingCount + 1;
      tileProcQueue[tileIndex] := t;
      assert tileProcQueue[..] == old(tileProcQueue[..])[tileIndex := t];
    }

    lemma RequestIgnoresQueue(s: State, queue: seq<nat>, t: nat, prev: Option<nat>)
      requires CanRequest(s, t, prev)
      ensures CanRequest(s.(queue := queue), t, prev)
      ensures Request(s, t, prev) == Request(s.(queue := queue), t, prev).(queue := s.queue + [t])
    {
      hide Clip, LoadOps, Place.Meets, Independent, StatusOf;
      assert Issued(s, t, prev) == Issued(s.(queue := queue), t, prev);
    }

    /** xvReqTileTransferInMultiChannel: the previous tile is recorded, gains a reader and is read exactly when the two
        tiles share a byte of the frame. */
    method ReqTileTransferIn(t: nat, pPrevTile: Option<nat>)
      requires Valid() && CanRequest(StateWith(Queue()), t, pPrevTile) && tiles[t].Free()
      requires tileDMApendingCount < MAX_NUM_DMA_QUEUE_LENGTH
      modifies this, tiles, tileProcQueue
      ensures Valid()
      ensures StateWith(Queue()) == Request(old(StateWith(Queue())), t, pPrevTile)
      ensures RequestDoes(old(StateWith(Queue())), StateWith(Queue()), t, pPrevTile)
    {
      hide Request, Run, Next, Window, CanRequest, RequestDoes;
      ghost var s := StateWith(Queue());
      RunKeeps(history, lo);
      InvIsSound(s, lo, t, pPrevTile);
      RequestIs(s, t, pPrevTile);
      assert t < |s.tiles| && t !in Queue()
             && CanRequest(StateWith([]), t,
                           pPrevTile) by { FreeIsNotQueued(s, t, pPrevTile); RequestIgnoresQueue(s, [], t, pPrevTile); }
      RequestIgnoresQueue(s, [], t, pPrevTile);
      RequestFrame(s, t, pPrevTile);
      RequestIsNext(s, t, pPrevTile);
      Load(t, pPrevTile);
      Enqueue(t);
      intact := intact + {t};
      assert StateWith(Queue()) == Request(s, t, pPrevTile);
      Record(Queue());
    }

    lemma FreeIsNotQueued(s: State, t: nat, prev: Option<nat>)
      requires Inv(s, lo) && CanRequest(s, t, prev)
      ensures t < |s.tiles| && t !in s.queue
    {
      hide PlacesOk, LinksOk, DmaOk, WillLoad, SourcesReady, ReadyTilesShow;
    }

    lemma RequestFrame(s: State, t: nat, prev: Option<nat>)
      requires CanRequest(s, t, prev)
      ensures var s' := Request(s, t, prev); s'.mem == s.mem && s'.queue == s.queue + [t] && s'.intact == s.intact + {t}
    {
    }

    lemma RequestIsNext(s: State, t: nat, prev: Option<nat>)
      requires CanRequest(s, t, prev) && s.tiles[t].Free()
      ensures Next(s, Request(s, t, prev), lo)
    {
      hide Request, CanRequest;
    }

    // idma_desc_done: the engine may finish any number of transfers before it answers.
    method DescDone(index: int, ghost queue: seq<nat>) returns (done: bool)
      requires ValidWith(queue)
      modifies mem, this`dma, this`history
      ensures ValidWith(queue) && done == (index <= issued - |dma|)
      ensures Since(old(history))
    {
      hide Run, Next, Desc.Exec, Desc.Safe, Progress;
      var progress: nat := *;
      ghost var before := history;
      SinceNow(queue);
      while progress > 0 && dma != []
        invariant ValidWith(queue) && Since(before)
      {
        ghost var s, h := StateWith(queue), history;
        RunKeeps(history, lo);
        OldestIsSafe(s, lo);
        AdvanceIsNext(s);
        Copy3D(mem, dma[0].op.desc);
        dma := dma[1..];
        assert StateWith(queue) == Advance(s);
        Record(queue);
        SinceBefore(before, h);
        progress := progress - 1;
      }
      done := index <= issued - |dma|;
    }

    lemma AdvanceIsNext(s: State)
      requires s.dma != []
      ensures Next(s, Advance(s), lo) && Progress(s, Advance(s))
    {
    }

    lemma RetireIsNext(s: State, s': State)
      requires HeadDone(s) && Retire(s, s')
      ensures Next(s, s', lo) && Progress(s, s')
    {
    }

    // Pad the oldest queued tile and give it back to the user.
    method RetireTile(u: nat, ghost queue: seq<nat>)
      requires ValidWith(queue) && queue != [] && queue[0] == u < tiles.Length && !Waits(u)
      modifies mem, tiles, this`history
      ensures ValidWith(queue[1..]) && tiles[u].status.Idle()
      ensures Since(old(history))
    {
      hide Run, Next, PadResult, Safe, StatusOf, Place.Meets, Progress, Inv, OnlyProgress;
      ghost var s := StateWith(queue);
      RunKeeps(history, lo);
      HeadFacts(s);
      if !tiles[u].status.dummy {
        PadEdges(mem, tiles[u].place, tiles[u].status, lo);
        if tiles[u].prev.Some? {
          var q := tiles[u].prev.value;
          tiles[q] := tiles[q].(reuseCount := tiles[q].reuseCount - 1);
          tiles[u] := tiles[u].(prev := None);
        }
      } else {
        PadWhole(mem, tiles[u].place, lo);
      }
      tiles[u] := tiles[u].(status := IdleStatus);
      assert tiles[..] == AddReuse(s.tiles[u := s.tiles[u].(status := IdleStatus, prev := None)], s.tiles[u].prev, -1);
      assert Retire(s, StateWith(queue[1..]));
      RetireIsNext(s, StateWith(queue[1..]));
      Record(queue[1..]);
    }

    lemma HeadFacts(s: State)
      requires Inv(s, lo) && HeadDone(s)
      ensures var t := s.queue[0];
              && Safe(s.tiles[t].place, lo, |s.mem|) && s.tiles[t].status == StatusOf(s.tiles[t].place)
              && (s.tiles[t].status.dummy <==> !s.tiles[t].place.Meets())
              && (s.tiles[t].prev.Some? ==>
                    !s.tiles[t].status.dummy && s.tiles[t].prev.value < |s.tiles| && s.tiles[t].prev.value != t)
    {
      hide Clip, Safe, DmaOk, WillLoad, SourcesReady, ReadyTilesShow;
    }

    lemma QueuedTilesExist(s: State)
      requires Inv(s, lo)
      ensures forall t :: t in s.queue ==> t < |s.tiles|
    {
      hide Clip, Safe, PlacesOk, LinksOk, DmaOk, WillLoad, SourcesReady, ReadyTilesShow;
    }

    lemma QueueFacts()
      requires Valid()
      ensures |Queue()| == tileDMApendingCount
      ensures forall i :: 0 <= i < |Queue()| ==> Queue()[i] < tiles.Length
    {
      hide Run, Next, Inv;
      RunKeeps(history, lo);
      QueuedTilesExist(StateWith(Queue()));
      assert forall i :: 0 <= i < |Queue()| ==> Queue()[i] in Queue();
    }

    method RetireIfDone(u: nat, ghost queue: seq<nat>) returns (done: bool)
      requires ValidWith(queue) && queue != [] && queue[0] == u < tiles.Length
      modifies mem, tiles, this`dma, this`history
      ensures Since(old(history))
      ensures if done then ValidWith(queue[1..]) && tiles[u].status.Idle() else ValidWith(queue) && Waits(u)
    {
      hide ValidWith, OnlyProgress;
      ghost var before := history;
      done := true;
      if !tiles[u].status.dummy { done := DescDone(tiles[u].dmaIndex, queue); }
      ghost var h := history;
      if done {
        RetireTile(u, queue);
        if h != before { SinceBefore(before, h); }
      }
    }

    // Move the front of the queue past the retired tiles. When none is left the start index may be anything.
    method Drop(index: nat, doneCount: nat, ghost queue: seq<nat>)
      requires Shape() && queue == Queue() && doneCount <= tileDMApendingCount && ValidWith(queue[doneCount..])
      requires index < MAX_NUM_DMA_QUEUE_LENGTH
      requires doneCount < tileDMApendingCount ==> index == (tileDMAstartIndex + doneCount) % MAX_NUM_DMA_QUEUE_LENGTH
      modifies this`tileDMAstartIndex, this`tileDMApendingCount
      ensures Valid() && Queue() == queue[doneCount..]
    {
      hide Run, Window;
      WindowSize(tileProcQueue[..], tileDMAstartIndex, tileDMApendingCount);
      WindowPops(tileProcQueue[..], tileDMAstartIndex, tileDMApendingCount, doneCount);
      EmptyWindow(tileProcQueue[..], index);
      tileDMAstartIndex := index;
      tileDMApendingCount := tileDMApendingCount - doneCount;
    }

    // Where the loop over the queue stopped after retiring n tiles: at the end, behind the tile asked about, or at a
    // tile that waits.
    ghost predicate Stopped(queue: seq<nat>, n: nat, pTile: nat)
      reads this`dma, this`issued, tiles
    {
      && n <= |queue| && (forall i :: 0 <= i < n - 1 ==> queue[i] != pTile)
      && (|| n == |queue| || (n > 0 && queue[n - 1] == pTile)
          || (queue[n] < tiles.Length && Waits(queue[n]) && forall i :: 0 <= i < n ==> queue[i] != pTile))
    }

    // The loop over the queue: retire finished tiles, stop at the first unfinished one or after the one asked about.
    method RetireFront(pTile: nat) returns (index: nat, doneCount: nat)
      requires Valid() && pTile < tiles.Length
      modifies mem, tiles, this`dma, this`history
      ensures doneCount <= tileDMApendingCount && index < MAX_NUM_DMA_QUEUE_LENGTH
      ensures doneCount < tileDMApendingCount ==> index == (tileDMAstartIndex + doneCount) % MAX_NUM_DMA_QUEUE_LENGTH
      ensures |Queue()| == tileDMApendingCount && ValidWith(Queue()[doneCount..]) && Since(old(history))
      ensures Stopped(Queue(), doneCount, pTile)
    {
      hide Window, ValidWith, OnlyProgress, Waits, StateWith, Progress, Run, Shows, RetiredPrefix, LastRetired, Inv,
        Continues;
      ghost var queue, before := Queue(), history;
      QueueFacts();
      SinceNow(queue);
      doneCount, index := 0, tileDMAstartIndex;
      var loopInd := 0;
      while loopInd < tileDMApendingCount
        invariant doneCount == loopInd <= tileDMApendingCount && index < MAX_NUM_DMA_QUEUE_LENGTH
                  && (loopInd == 0 ==> index == tileDMAstartIndex)
        invariant ValidWith(queue[doneCount..]) && Since(before)
        invariant forall i :: 0 <= i < doneCount ==> queue[i] != pTile
      {
        index := (tileDMAstartIndex + loopInd) % MAX_NUM_DMA_QUEUE_LENGTH;
        var pTile1 := tileProcQueue[index];
        assert pTile1 ==
                 queue[loopInd] by { WindowAt(tileProcQueue[..], tileDMAstartIndex, tileDMApendingCount, loopInd); }
        ghost var h := history;
        var done := RetireIfDone(pTile1, queue[doneCount..]);
        SinceBefore(before, h);
        if !done {
          break;
        }
        NextOfQueue(queue, doneCount);
        doneCount := doneCount + 1;
        if pTile1 == pTile {
          index := (index + 1) % MAX_NUM_DMA_QUEUE_LENGTH;
          break;
        }
        loopInd := loopInd + 1;
      }
    }

    lemma NextOfQueue(queue: seq<nat>, n: nat)
      requires n < |queue|
      ensures queue[n..][1..] == queue[n + 1..] && ((tileDMAstartIndex + n) % MAX_NUM_DMA_QUEUE_LENGTH + 1)
              % MAX_NUM_DMA_QUEUE_LENGTH == (tileDMAstartIndex + n + 1) % MAX_NUM_DMA_QUEUE_LENGTH
    {
    }

    lemma SinceNow(queue: seq<nat>)
      requires ValidWith(queue)
      ensures Since(history) && history[|history| - 1] == StateWith(queue)
    {
    }

    predicate LastRetired(queue: seq<nat>, rest: seq<nat>, t: nat) {
      |rest| < |queue| && queue[|queue| - |rest| - 1] == t
    }

    /** xvCheckTileReadyMultiChannel: the engine advances and a prefix of the queue is retired, up to the tile asked
        about if it is finished, else up to the first tile that waits; a tile reported ready shows its frame. */
    method CheckTileReady(pTile: nat) returns (ready: bool)
      requires Valid() && pTile < tiles.Length
      modifies this, mem, tiles
      ensures Valid() && Since(old(history)) && RetiredPrefix(old(StateWith(Queue())), StateWith(Queue()))
      ensures ready <==> tiles[pTile].status.Idle()
      ensures !ready ==> Queue() != [] && Queue()[0] < tiles.Length && Waits(Queue()[0])
      ensures !ready ==> exists i :: 0 <= i < |dma| && dma[i].owner == Queue()[0]
      ensures ready && pTile in old(Queue()) ==> LastRetired(old(Queue()), Queue(), pTile)
      ensures pTile !in old(Queue()) ==> ready && Queue() == old(Queue()) && mem[..] == old(mem[..])
      ensures ready && pTile in intact
              && (tiles[pTile].place.Meets() || !tiles[pTile].place.frame.padding.EdgePadding?) ==>
                Shows(mem[..], tiles[pTile].place)
      ensures ready && pTile in intact && !tiles[pTile].place.frame.padding.EdgePadding? ==>
                PaddedOutside(mem[..], tiles[pTile].place)
    {
      hide Place.Meets, Shows, Window, ValidWith, OnlyProgress, Waits, RetiredPrefix, PaddedOutside;
      ghost var before := history;
      SinceNow(Queue());
      IdleIffNotQueued(pTile);
      if !tiles[pTile].status.Idle() {
        ghost var queue := Queue();
        var index, doneCount := RetireFront(pTile);
        Drop(index, doneCount, queue);
      }
      ready := tiles[pTile].status.Idle();
      IdleIffNotQueued(pTile);
      RetiredSince(before);
      if ready {
        ReadyShows(pTile);
        if pTile in intact && !tiles[pTile].place.frame.padding.EdgePadding? {
          ShowsPadding(mem[..], tiles[pTile].place);
        }
      } else {
        FrontWaits();
      }
    }

    lemma FrontWaits()
      requires Valid() && Queue() != [] && Queue()[0] < tiles.Length && Waits(Queue()[0])
      ensures exists i :: 0 <= i < |dma| && dma[i].owner == Queue()[0]
    {
      hide Next, Init, Window;
      RunKeeps(history, lo);
      WaitsForOwn(StateWith(Queue()), lo, Queue()[0]);
    }

    lemma IdleIffNotQueued(t: nat)
      requires Valid() && t < tiles.Length
      ensures Run(history, lo) && (tiles[t].status.Idle() <==> t !in Queue())
      ensures forall i, j :: 0 <= i < j < |Queue()| ==> Queue()[i] != Queue()[j]
    {
      hide PlacesOk, LinksOk, DmaOk, WillLoad, SourcesReady, ReadyTilesShow, Next, Init, Window;
      RunKeeps(history, lo);
    }

    lemma RetiredSince(h: seq<State>)
      requires Valid() && Since(h)
      ensures RetiredPrefix(h[|h| - 1], StateWith(Queue()))
    {
      hide OnlyProgress, Init, Next, RetiredPrefix, Window;
      ProgressRetiresPrefix(history, lo, |h| - 1, |history| - 1);
    }

    lemma ReadyShows(t: nat)
      requires Valid() && t < tiles.Length && tiles[t].status.Idle()
      ensures t in intact && (tiles[t].place.Meets() || !tiles[t].place.frame.padding.EdgePadding?) ==>
                Shows(mem[..], tiles[t].place)
    {
      hide Run, Shows, Place.Meets, Next, Window;
      if t in intact { ReadyTileShowsExtendedFrame(history, lo, t); }
    }
  }

  lemma WindowSize(ring: seq<nat>, start: nat, pending: nat)
    requires |ring| == MAX_NUM_DMA_QUEUE_LENGTH
    ensures |Window(ring, start, pending)| == pending
  {
  }

  lemma WindowAt(ring: seq<nat>, start: nat, pending: nat, i: nat)
    requires |ring| == MAX_NUM_DMA_QUEUE_LENGTH && i < pending
    ensures |Window(ring, start, pending)| == pending
            && Window(ring, start, pending)[i] == ring[(start + i) % MAX_NUM_DMA_QUEUE_LENGTH]
  {
  }

  lemma EmptyWindow(ring: seq<nat>, start: nat)
    requires |ring| == MAX_NUM_DMA_QUEUE_LENGTH
    ensures Window(ring, start, 0) == []
  {
  }
}
