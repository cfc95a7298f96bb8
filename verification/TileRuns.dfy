// The 2D tile manager as a state machine: requests queue transfers, the DMA engine carries them out in order at
// its own pace, ready-checks pad and retire tiles, and the user reuses tiles that are idle and not being read.

module TileRuns {
  import opened Options
  import opened Dma
  import opened Grids
  import opened TileGeometry
  import opened TilePadding

  datatype Status = Status(ongoing: bool, left: bool, right: bool, top: bool, bottom: bool, dummy: bool) {
    // status == 0
    predicate Idle() { this == IdleStatus }
  }

  const IdleStatus := Status(false, false, false, false, false, false)

  const DUMMY_DMA_INDEX := -2

  datatype Tile = Tile(place: Place, status: Status, dmaIndex: int, reuseCount: int, prev: Option<nat>) {
    predicate Free() { status.Idle() && reuseCount == 0 }
  }

  /** A transfer handed to the engine, with the tile it was issued for. */
  datatype Pending = Pending(owner: nat, op: Op)

  /** `intact` is history: the tiles requested and not touched by the user since. */
  datatype State = State(mem: seq<byte>, tiles: seq<Tile>, queue: seq<nat>, dma: seq<Pending>, issued: int,
                         intact: set<nat>) {
    function Completed(): int { issued - |dma| }
  }

  // ---- steps ----

  function StatusOf(p: Place): Status {
    Status(true, p.XSpan().extraLo > 0, p.XSpan().extraHi > 0, p.YSpan().extraLo > 0, p.YSpan().extraHi > 0, !p.Meets())
  }

  // What the code takes for granted: an idle tile, and a previous tile of the same frame that holds, or will hold,
  // what it loaded.
  predicate CanRequest(s: State, t: nat, prev: Option<nat>) {
    && t < |s.tiles| && s.tiles[t].status.Idle()
    && (prev.Some? ==> prev.value < |s.tiles| && prev.value != t && prev.value in s.intact
                       && s.tiles[prev.value].place.frame == s.tiles[t].place.frame)
  }

  function PlaceOf(s: State, t: Option<nat>): Option<Place> {
    if t.Some? && t.value < |s.tiles| then Some(s.tiles[t.value].place) else None
  }

  // The previous tile is recorded only when some of it is copied.
  predicate Reuses(s: State, t: nat, prev: Option<nat>)
    requires CanRequest(s, t, prev)
  {
    var p := s.tiles[t].place;
    prev.Some? && p.Meets()
      && !Independent(s.tiles[prev.value].place, p.YSpan().a, p.YSpan().b, p.XSpan().a, p.XSpan().b)
  }

  function Issued(s: State, t: nat, prev: Option<nat>): seq<Pending>
    requires CanRequest(s, t, prev)
  {
    var p := s.tiles[t].place;
    if p.Meets() then var ops :=
      LoadOps(p, PlaceOf(s, prev)); seq(|ops|, i requires 0 <= i < |ops| => Pending(t, ops[i])) else []
  }

  function AddReuse(tiles: seq<Tile>, q: Option<nat>, d: int): (r: seq<Tile>)
    ensures |r| == |tiles|
  {
    if q.Some? && q.value < |tiles| then tiles[q.value := tiles[q.value].(reuseCount := tiles[q.value].reuseCount + d)]
    else tiles
  }

  // xvReqTileTransferInMultiChannel
  function Request(s: State, t: nat, prev: Option<nat>): State
    requires CanRequest(s, t, prev)
  {
    var p, ops, link := s.tiles[t].place, Issued(s, t, prev), if Reuses(s, t, prev) then prev else None;
    var tile := Tile(p, StatusOf(p), if p.Meets() then s.issued + |ops| else DUMMY_DMA_INDEX, 0, link);
    State(s.mem, AddReuse(s.tiles[t := tile], link, 1), s.queue + [t], s.dma + ops, s.issued + |ops|, s.intact + {t})
  }

  // The engine finishes its oldest transfer.
  function Advance(s: State): State
    requires s.dma != []
  {
    s.(mem := s.dma[0].op.desc.Exec(s.mem), dma := s.dma[1..])
  }

  // What padding a tile does to memory.
  ghost predicate PadResult(m: seq<byte>, m': seq<byte>, p: Place) {
    && |m'| == |m|
    && (forall a :: 0 <= a < |m| && OffTile(p, a) ==> m'[a] == m[a])
    && (forall y, x, k :: HasPx(p, y, x, k) && InClip(p, y, x) ==>
          ByteAt(m', Px(p, y, x, k)) == ByteAt(m, Px(p, y, x, k)))
    && (Loaded(m, p) && (p.Meets() || !p.frame.padding.EdgePadding?) ==> Shows(m', p))
    && (!p.Meets() && p.frame.padding.EdgePadding? ==> m' == m)
  }

  // The transfers of the oldest queued tile are done, or it needs none.
  predicate HeadDone(s: State) {
    && s.queue != [] && s.queue[0] < |s.tiles|
    && var tile := s.tiles[s.queue[0]]; tile.status.dummy || tile.dmaIndex <= s.Completed()
  }

  // One round of the loop in xvCheckTileReadyMultiChannel.
  ghost predicate Retire(s: State, s': State)
    requires HeadDone(s)
  {
    var t := s.queue[0];
    && PadResult(s.mem, s'.mem, s.tiles[t].place)
    && s' == s.(mem := s'.mem, queue := s.queue[1..],
                tiles := AddReuse(s.tiles[t := s.tiles[t].(status := IdleStatus, prev := None)], s.tiles[t].prev, -1))
  }

  // The user moves a free tile, or writes to its buffer.
  ghost predicate Touch(s: State, s': State, t: nat) {
    && t < |s.tiles| == |s'.tiles| && s.tiles[t].Free()
    && |s'.mem| == |s.mem|
    && (forall a :: 0 <= a < |s.mem| && !(s.tiles[t].place.bufLo <= a < s.tiles[t].place.bufHi) ==>
          s'.mem[a] == s.mem[a])
    && s' == s.(mem := s'.mem, tiles := s.tiles[t := s.tiles[t].(place := s'.tiles[t].place)], intact := s.intact - {t})
    && s'.tiles[t].place.bufLo == s.tiles[t].place.bufLo && s'.tiles[t].place.bufHi == s.tiles[t].place.bufHi
  }

  // ---- invariant ----

  predicate BuffersApart(p: Place, q: Place) { p.bufHi <= q.bufLo || q.bufHi <= p.bufLo }

  ghost predicate PlacesOk(s: State, lo: int) {
    && (forall t :: 0 <= t < |s.tiles| ==> Safe(s.tiles[t].place, lo, |s.mem|))
    && (forall t, q :: 0 <= t < |s.tiles| && 0 <= q < |s.tiles| && t != q ==>
          BuffersApart(s.tiles[t].place, s.tiles[q].place))
  }

  ghost predicate QueueOk(s: State) {
    && (forall t :: t in s.queue ==> t < |s.tiles| && t in s.intact)
    && (forall i, j :: 0 <= i < j < |s.queue| ==> s.queue[i] != s.queue[j])
    && (forall t: nat :: t < |s.tiles| ==> (t in s.queue <==> !s.tiles[t].status.Idle()))
    && (forall t :: t in s.queue ==> s.tiles[t].status == StatusOf(s.tiles[t].place))
    && (forall t :: t in s.intact ==> t < |s.tiles|)
  }

  // How many queued tiles name `q` as their previous tile.
  function Readers(tiles: seq<Tile>, queue: seq<nat>, q: nat): nat {
    if queue == [] then 0
    else (if queue[0] < |tiles| && tiles[queue[0]].prev == Some(q) then 1 else 0) + Readers(tiles, queue[1..], q)
  }

  ghost predicate LinksOk(s: State) {
    && (forall t: nat :: t < |s.tiles| && s.tiles[t].prev.Some? ==>
          t in s.queue && !s.tiles[t].status.dummy &&
          var q := s.tiles[t].prev.value;
          q < |s.tiles| && q != t && q in s.intact && s.tiles[q].place.frame == s.tiles[t].place.frame)
    && (forall q: nat :: q < |s.tiles| ==> s.tiles[q].reuseCount == Readers(s.tiles, s.queue, q))
  }

  ghost predicate DmaOk(s: State) {
    && 0 <= s.Completed()
    && (forall i :: 0 <= i < |s.dma| ==> PendingOk(s, i))
    && (forall t :: t in s.queue && t < |s.tiles| ==> s.tiles[t].dmaIndex <= s.issued && LastIsOutstanding(s, t))
  }

  // A tile that waits does so for a transfer of its own: the one its index names.
  ghost predicate LastIsOutstanding(s: State, t: nat)
    requires t < |s.tiles|
  {
    var i := s.tiles[t].dmaIndex - s.Completed() - 1;
    0 <= i ==> i < |s.dma| && s.dma[i].owner == t
  }

  ghost predicate PendingOk(s: State, i: nat)
    requires i < |s.dma|
  {
    var t, op := s.dma[i].owner, s.dma[i].op;
    && t in s.queue && t < |s.tiles| && !s.tiles[t].status.dummy
    && s.Completed() + 1 + i <= s.tiles[t].dmaIndex
    && Delivers(s.tiles[t].place.frame, s.tiles[t].place.Grid(), s.tiles[t].place.Clipped(),
                PlaceOf(s, s.tiles[t].prev), op)
  }

  // Byte (y, c) of tile `t` is the frame's, or one of the first `n` outstanding transfers will bring it.
  ghost predicate Good(s: State, t: nat, y: int, c: int, n: nat)
    requires t < |s.tiles|
  {
    || ByteAt(s.mem, Cell(s.tiles[t].place, y, c)) == ByteAt(s.mem, FrameCell(s.tiles[t].place.frame, y, c))
    || Comes(s.dma, t, y, c, n)
  }

  ghost predicate Comes(dma: seq<Pending>, t: nat, y: int, c: int, n: nat) {
    exists i :: 0 <= i < n && i < |dma| && dma[i].owner == t && dma[i].op.box.Has(0, y, c)
  }

  ghost predicate WillLoad(s: State) {
    forall t, y, c :: t in s.intact && t < |s.tiles| && s.tiles[t].place.Clipped().Has(0, y, c) ==>
      Good(s, t, y, c, |s.dma|)
  }

  ghost predicate SourcesReady(s: State) {
    forall i, y, c :: 0 <= i < |s.dma| && s.dma[i].op.fromPrev && s.dma[i].op.box.Has(0, y, c) ==>
      SourceReady(s, i, y, c)
  }

  ghost predicate SourceReady(s: State, i: nat, y: int, c: int)
    requires i < |s.dma|
  {
    var t := s.dma[i].owner;
    t < |s.tiles| && s.tiles[t].prev.Some? && s.tiles[t].prev.value < |s.tiles|
      && Good(s, s.tiles[t].prev.value, y, c, i)
  }

  ghost predicate ReadyTilesShow(s: State) {
    forall t :: t in s.intact && t < |s.tiles| && s.tiles[t].status.Idle() ==> ShowsIfDefined(s, t)
  }

  ghost predicate ShowsIfDefined(s: State, t: nat)
    requires t < |s.tiles|
  {
    var p := s.tiles[t].place;
    p.Meets() || !p.frame.padding.EdgePadding? ==> Shows(s.mem, p)
  }

  ghost predicate Inv(s: State, lo: int) {
    PlacesOk(s, lo) && QueueOk(s) && LinksOk(s) && DmaOk(s) && WillLoad(s) && SourcesReady(s) && ReadyTilesShow(s)
  }
}
