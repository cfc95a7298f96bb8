// Runs of the 2D tile manager in which a promise fails: a tile outside the frame in edge mode, a requested tile that is
// still being read, and a ring without room.

module TileWitness {
  import opened Options
  import opened Dma
  import opened Grids
  import opened TileGeometry
  import opened TilePadding
  import opened TileRuns
  import opened TileRunsProofs
  import opened TileManagers

  // Free tiles at these places, and nothing requested yet.
  function FreeTiles(m: seq<byte>, places: seq<Place>): State {
    State(m, seq(|places|, i requires 0 <= i < |places| => Tile(places[i], IdleStatus, 0, 0, None)), [], [], 0, {})
  }

  // ---- a tile outside the frame in edge mode ----

  /** Retiring a tile outside the frame in edge mode leaves memory as it is, so it shows the extended frame exactly when
      it did before. */
  lemma OutsideEdgeTileIsLeft(s: State, s': State)
    requires HeadDone(s) && Retire(s, s')
    requires var p := s.tiles[s.queue[0]].place; !p.Meets() && p.frame.padding.EdgePadding?
    ensures s'.mem == s.mem
  {
  }

  /** For every such tile there is a run at whose end the tile is requested, ready and left alone and does not show the
      extended frame: ReadyTileShowsExtendedFrame holds of a place exactly when the tile meets the frame or the mode
      is not edge padding. */
  lemma OutsideEdgeTileIsStale(p: Place, lo: int, len: nat) returns (states: seq<State>)
    requires Safe(p, lo, len) && !p.Meets() && p.frame.padding.EdgePadding?
    ensures Run(states, lo)
    ensures var s := states[|states| - 1];
            |s.tiles| == 1 && s.tiles[0].place == p && 0 in s.intact && s.tiles[0].status.Idle() && !Shows(s.mem, p)
  {
    var a := Px(p, p.Y0(), p.X0(), 0);
    CornerIsApart(p, lo, len);
    var m := seq<byte>(len, i => if i == a then 1 else 0);
    hide Px, Place.Meets, Clip, Safe, FramePx, Place.Consistent, InSystem;
    assert !Shows(m, p) by { assert HasPx(p, p.Y0(), p.X0(), 0); }
    var s0 := FreeTiles(m, [p]);
    var s1 := Request(s0, 0, None);
    var s2 := s1.(queue := [],
                  tiles := AddReuse(s1.tiles[0 := s1.tiles[0].(status := IdleStatus, prev := None)], None, -1));
    hide Shows, Loaded, OffTile, HasPx;
    assert CanRequest(s0, 0, None);
    assert s1.queue == [0] && s1.queue[1..] == [] && s1.tiles[0].prev == None;
    assert PadResult(m, m, p);
    assert HeadDone(s1);
    assert Retire(s1, s2);
    states := [s0, s1, s2];
  }

  // The tile's first byte is in memory, and it is not the frame's byte the extended frame has there.
  lemma CornerIsApart(p: Place, lo: int, len: nat)
    requires Safe(p, lo, len)
    ensures HasPx(p, p.Y0(), p.X0(), 0) && 0 <= Px(p, p.Y0(), p.X0(), 0) < len
    ensures var f := p.frame;
            FramePx(f, Clamp(p.Y0(), 0 - f.padTop, f.height - 1 + f.padBottom),
                    Clamp(p.X0(), 0 - f.padLeft, f.width - 1 + f.padRight), 0)
            != Px(p, p.Y0(), p.X0(), 0)
  {
    var f := p.frame;
    PxInBuffer(p, p.Y0(), p.X0(), 0);
    FramePxInExtent(f, Clamp(p.Y0(), 0 - f.padTop, f.height - 1 + f.padBottom),
                    Clamp(p.X0(), 0 - f.padLeft, f.width - 1 + f.padRight), 0);
  }

  // ---- tiles of one pixel over a frame of one pixel ----

  function Pixel1(n: nat): Frame { Frame(n, 1, 1, 1, 1, 0, 0, 0, 0, ZeroPadding, 0) }

  // The i-th of n tiles, each in its own byte; the frame is the byte behind them.
  function Spot(n: nat, i: nat): Place { Place(Pixel1(n), 0, 0, 1, 1, 0, 0, 0, 0, 1, i, i, i + 1) }

  function Spots(n: nat): State { FreeTiles(seq(n + 1, _ => 0), seq(n, i requires 0 <= i => Spot(n, i))) }

  lemma SpotIsSafe(n: nat, i: nat)
    requires i < n
    ensures Safe(Spot(n, i), n, n + 1) && Spot(n, i).Meets()
    ensures Spot(n, i).XSpan() == Span(0, 0, 0, 0) && Spot(n, i).YSpan() == Span(0, 0, 0, 0)
  {
    var p, f := Spot(n, i), Pixel1(n);
    assert p.XSpan() == Span(0, 0, 0, 0) && p.YSpan() == Span(0, 0, 0, 0);
    SmallTimes();
    hide Times, Clip;
    forall y, c | f.Extent().Has(0, y, c) ensures FrameCell(f, y, c) == n { assert y == 0 && c == 0; }
  }

  lemma SmallTimes()
    ensures Times(0, 1) == 0 && Times(1, 1) == 1 && Times(0, 0) == 0
  {
    TimesIsProduct(0, 1); TimesIsProduct(1, 1); TimesIsProduct(0, 0);
  }

  lemma SpotsStart(n: nat)
    ensures Init(Spots(n), n)
  {
    forall i | 0 <= i < n ensures Safe(Spot(n, i), n, n + 1) { SpotIsSafe(n, i); }
    hide Safe;
  }

  // A tile inside its frame needs no padding.
  lemma InsideNeedsNoPadding(m: seq<byte>, p: Place)
    requires p.XSpan() == Span(0, 0, 0, 0) && p.YSpan() == Span(0, 0, 0, 0) && p.X0() == p.X1() == p.Y0() == p.Y1() == 0
    requires p.frame.width == p.frame.height == 1
             && p.frame.padLeft == p.frame.padRight == p.frame.padTop == p.frame.padBottom == 0
    ensures PadResult(m, m, p)
  {
    hide Px, FramePx, Clip, Times, OffTile;
  }

  // ---- a requested tile that is still being read ----

  lemma SpotTiles(n: nat)
    ensures var s := Spots(n);
            && |s.tiles| == n && s.queue == [] && s.dma == [] && s.issued == 0 && s.intact == {}
            && forall i :: 0 <= i < n ==> s.tiles[i] == Tile(Spot(n, i), IdleStatus, 0, 0, None)
  {
    hide Spot;
  }

  lemma LoadIsOne(p: Place)
    ensures |LoadOps(p, None)| == 1
  {
    hide Clip, Times, RowsOp, Place.XSpan, Place.YSpan;
  }

  // The first request queues one transfer.
  lemma FirstRequest(s: State, p: Place)
    requires |s.tiles| == 2 && s.tiles[0] == Tile(p, IdleStatus, 0, 0, None) && p.Meets()
    requires s.queue == [] && s.dma == [] && s.issued == 0 && s.intact == {}
    ensures CanRequest(s, 0, None)
    ensures var s' := Request(s, 0, None);
            && |s'.dma| == 1 && s'.issued == 1 && s'.queue == [0] && s'.intact == {0} && |s'.tiles| == 2
            && s'.tiles[0] == Tile(p, StatusOf(p), 1, 0, None) && s'.tiles[1] == s.tiles[1]
  {
    hide Clip, LoadOps, Place.Meets, StatusOf, Safe, Place.XSpan, Place.YSpan;
    LoadIsOne(p);
  }

  lemma RetiresSo(s: State, s': State)
    requires |s.tiles| == 2 && s.queue == [0] && s.queue[1..] == [] && s.dma == [] && s.issued == 1
    requires s.tiles[0].dmaIndex == 1 && s.tiles[0].prev == None && PadResult(s.mem, s.mem, s.tiles[0].place)
    requires s' == s.(queue := [], tiles := s.tiles[0 := s.tiles[0].(status := IdleStatus, prev := None)])
    ensures HeadDone(s) && Retire(s, s')
  {
    hide PadResult;
  }

  lemma SpotPosition(n: nat, i: nat)
    ensures var p := Spot(n, i);
            && p.X0() == p.X1() == p.Y0() == p.Y1() == 0 && p.frame == Pixel1(n)
            && p.frame.width == p.frame.height == 1
            && p.frame.padLeft == p.frame.padRight == p.frame.padTop == p.frame.padBottom == 0
  {
  }

  // The first of two tiles requested, loaded and retired.
  lemma FirstRetired() returns (states: seq<State>)
    ensures Run(states, 2)
    ensures var s := states[|states| - 1];
            && |s.tiles| == 2 && s.queue == [] && s.intact == {0}
            && (forall i :: 0 <= i < 2 ==> s.tiles[i].place == Spot(2, i) && s.tiles[i].status.Idle())
  {
    hide Clip, Safe, PadResult, Spots, Request, Init, Advance, Retire, HeadDone, CanRequest, StatusOf, Spot,
      Place.Meets,
         Place.XSpan, Place.YSpan, Place.X0, Place.X1, Place.Y0, Place.Y1;
    var s0 := Spots(2);
    SpotsStart(2);
    SpotTiles(2);
    SpotIsSafe(2, 0);
    FirstRequest(s0, Spot(2, 0));
    var s1 := Request(s0, 0, None);
    var s2 := Advance(s1);
    AdvanceIs(s1);
    var s3 := s2.(queue := [], tiles := s2.tiles[0 := s2.tiles[0].(status := IdleStatus, prev := None)]);
    SpotPosition(2, 0);
    InsideNeedsNoPadding(s2.mem, Spot(2, 0));
    assert s2.queue[1..] == [];
    RetiresSo(s2, s3);
    assert s0.tiles[0].Free();
    assert Next(s0, s1, 2) && Next(s1, s2, 2) && Next(s2, s3, 2);
    states := [s0, s1, s2, s3];
  }

  lemma AdvanceIs(s: State)
    requires s.dma != []
    ensures Advance(s).tiles == s.tiles && Advance(s).queue == s.queue && Advance(s).dma == s.dma[1..]
    ensures Advance(s).issued == s.issued && Advance(s).intact == s.intact
  {
    hide Desc.Exec;
  }

  /** A run that ends with an idle tile being read: the first tile is requested, loaded and retired, and the second is
      requested reusing it. Requesting the first tile again is possible then, and makes its count 0 with one reader. */
  lemma ReaderIsForgotten() returns (states: seq<State>)
    ensures Run(states, 2)
    ensures var s := states[|states| - 1];
            && CanRequest(s, 0, None) && s.tiles[0].reuseCount == 1
            && var s' := Request(s, 0, None); 0 == s'.tiles[0].reuseCount != Readers(s'.tiles, s'.queue, 0)
  {
    hide Clip, Safe, Place.Meets, Place.XSpan, Place.YSpan, Request, Init, Independent, Inv, Spot, Reuses;
    states := FirstRetired();
    var s := states[|states| - 1];
    RunKeeps(states, 2);
    SpotsOverlap();
    BothIdle(s, Spot(2, 0), Spot(2, 1));
    var s' := Request(s, 1, Some(0));
    RequestTable(s, 1, Some(0));
    RunExtends(states, s', 1, Some(0), 2);
    states := states + [s'];
    RunKeeps(states, 2);
    RequestTable(s', 0, None);
    ReuseCountIsExactIffFree(s', 2, 0, None);
  }

  lemma RunExtends(states: seq<State>, s': State, t: nat, prev: Option<nat>, lo: int)
    requires Run(states, lo)
    requires var s := states[|states| - 1]; CanRequest(s, t, prev) && s.tiles[t].Free() && s' == Request(s, t, prev)
    ensures Run(states + [s'], lo)
  {
    hide Request, Init, CanRequest;
    assert Next(states[|states| - 1], s', lo);
    hide Next;
    var more := states + [s'];
    forall i | 0 <= i < |more| - 1 ensures Next(more[i], more[i + 1], lo) {}
  }

  // Nobody reads either tile, and the second overlaps the first.
  lemma BothIdle(s: State, p: Place, q: Place)
    requires Inv(s, 2) && |s.tiles| == 2 && s.queue == [] && s.intact == {0}
    requires s.tiles[0].place == p && s.tiles[1].place == q && s.tiles[0].status.Idle() && s.tiles[1].status.Idle()
    requires p.frame == q.frame && q.Meets() && !Independent(p, q.YSpan().a, q.YSpan().b, q.XSpan().a, q.XSpan().b)
    ensures s.tiles[0].Free() && s.tiles[1].Free() && CanRequest(s, 1, Some(0)) && Reuses(s, 1, Some(0))
  {
    hide Clip, Safe, Place.XSpan, Place.YSpan, Place.Meets, Independent, PlacesOk, DmaOk, WillLoad, SourcesReady,
      ReadyTilesShow, QueueOk;
  }

  lemma SpotsOverlap()
    ensures var p, q := Spot(2, 0), Spot(2, 1);
            p.frame == q.frame && q.Meets() && !Independent(p, q.YSpan().a, q.YSpan().b, q.XSpan().a, q.XSpan().b)
  {
    hide *;
    SpotIsSafe(2, 1);
    SpotPosition(2, 0);
    SpotPosition(2, 1);
    MeetAtZero(Spot(2, 0));
  }

  lemma MeetAtZero(p: Place)
    requires p.X0() == p.X1() == p.Y0() == p.Y1() == 0
    ensures !Independent(p, 0, 0, 0, 0)
  {
  }

  // ---- a ring without room ----

  // k of n tiles requested, in order.
  lemma {:induction false} Requests(n: nat, k: nat) returns (states: seq<State>)
    requires k <= n
    ensures Run(states, n)
    ensures var s := states[|states| - 1];
            && |s.tiles| == n && |s.queue| == k && (forall t :: t in s.queue ==> t < k)
            && forall i :: k <= i < n ==> s.tiles[i] == Tile(Spot(n, i), IdleStatus, 0, 0, None)
  {
    hide Request, Init, Spots, Next, StatusOf, Reuses, Spot;
    SpotsStart(n);
    SpotTiles(n);
    if k == 0 {
      states := [Spots(n)];
    } else {
      states := Requests(n, k - 1);
      var s := states[|states| - 1];
      RequestTable(s, k - 1, None);
      var s' := Request(s, k - 1, None);
      RunExtends(states, s', k - 1, None, n);
      states := states + [s'];
    }
  }

  /** A run with 32 pending requests and a further free tile: whatever the ring that holds them, storing that tile does
      not append it. */
  lemma RingIsFull() returns (states: seq<State>)
    ensures Run(states, 33)
    ensures var s := states[|states| - 1];
            && |s.queue| == MAX_NUM_DMA_QUEUE_LENGTH && CanRequest(s, 32, None) && s.tiles[32].Free()
            && forall ring, start: nat | |ring| == MAX_NUM_DMA_QUEUE_LENGTH && start < MAX_NUM_DMA_QUEUE_LENGTH
                 && Window(ring, start, MAX_NUM_DMA_QUEUE_LENGTH) == s.queue ::
                 Window(ring[(start + MAX_NUM_DMA_QUEUE_LENGTH) % MAX_NUM_DMA_QUEUE_LENGTH := 32], start,
                        MAX_NUM_DMA_QUEUE_LENGTH + 1) != s.queue + [32]
  {
    states := Requests(33, 32);
    var s := states[|states| - 1];
    hide Run, Window;
    forall ring, start: nat | |ring| == MAX_NUM_DMA_QUEUE_LENGTH && start < MAX_NUM_DMA_QUEUE_LENGTH
      && Window(ring, start, MAX_NUM_DMA_QUEUE_LENGTH) == s.queue
      ensures Window(ring[(start + MAX_NUM_DMA_QUEUE_LENGTH) % MAX_NUM_DMA_QUEUE_LENGTH := 32], start,
                     MAX_NUM_DMA_QUEUE_LENGTH + 1) != s.queue + [32]
    {
      RingPushIsExact(ring, start, MAX_NUM_DMA_QUEUE_LENGTH, 32);
    }
  }
}
