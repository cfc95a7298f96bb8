// Every step of the tile manager keeps its invariant; over any run, a tile reported ready and left alone shows
// the extended frame.

module TileRunsProofs {
  import opened Options
  import opened Dma
  import opened Grids
  import opened TileGeometry
  import opened TilePadding
  import opened TileRuns

  // ---- cells of a tile in memory ----

  lemma CellInRow(p: Place, y: int, c: int)
    requires p.Extent().Has(0, y, c) && p.width > 0
    ensures Cell(p, y, c) == RowStart(p, y) + c - p.frame.Col(p.X0()) && InRow(p, y, Cell(p, y, c))
  {
    TimesAdd(p.Y0(), y - p.Y0(), p.pitch);
    ColOrder(p.frame, p.X0(), p.X1() + 1);
  }

  lemma CellInBuffer(p: Place, y: int, c: int)
    requires p.Extent().Has(0, y, c) && Sound(p)
    ensures p.bufLo <= Cell(p, y, c) < p.bufHi
  {
    CellInRow(p, y, c);
    RowsAreLaid(p, y);
  }

  lemma ClippedIsInside(p: Place)
    requires Sound(p) && p.Meets()
    ensures p.Clipped().Within(p.Extent()) && p.Clipped().Within(p.frame.Extent())
  {
    var f, x, y := p.frame, p.XSpan(), p.YSpan();
    ClipIsIntersection(p.X0(), p.X1(), f.padLeft, f.width, f.padRight, x.a);
    ClipIsIntersection(p.Y0(), p.Y1(), f.padTop, f.height, f.padBottom, y.a);
    ColOrder(f, p.X0(), x.a); ColOrder(f, x.b + 1, p.X1() + 1);
    ColOrder(f, 0 - f.padLeft, x.a); ColOrder(f, x.b + 1, f.width + f.padRight);
  }

  // A byte that lies in the tile and in the padded frame is one the tile loads.
  lemma SharedCellIsClipped(p: Place, y: int, c: int)
    requires Sound(p) && p.Extent().Has(0, y, c) && p.frame.Extent().Has(0, y, c)
    ensures p.Meets() && p.Clipped().Has(0, y, c)
  {
    var f := p.frame;
    if p.X0() >= f.width + f.padRight { ColOrder(f, f.width + f.padRight, p.X0()); }
    if p.X1() + 1 <= 0 - f.padLeft { ColOrder(f, p.X1() + 1, 0 - f.padLeft); }
    ClipIsIntersection(p.X0(), p.X1(), f.padLeft, f.width, f.padRight, p.X0());
    ClipIsIntersection(p.Y0(), p.Y1(), f.padTop, f.height, f.padBottom, y);
  }

  lemma LoadedFromCells(m: seq<byte>, p: Place)
    requires forall y, c :: p.Clipped().Has(0, y, c) ==> ByteAt(m, Cell(p, y, c)) == ByteAt(m, FrameCell(p.frame, y, c))
    ensures Loaded(m, p)
  {
    forall y, x, k | HasPx(p, y, x, k) && InClip(p, y, x)
      ensures ByteAt(m, Px(p, y, x, k)) == ByteAt(m, FramePx(p.frame, y, x, k))
    {
      ColOrder(p.frame, p.XSpan().a, x);
      TimesMonotone(x, p.XSpan().b + 1, p.frame.pixWidth);
      assert p.Clipped().Has(0, y, p.frame.Col(x) + k);
    }
  }

  // ---- one transfer ----

  // The grid a transfer reads from.
  function SourceGrid(p: Place, prev: Option<Place>, op: Op): Grid
    requires op.fromPrev ==> prev.Some?
  {
    if op.fromPrev then prev.value.Grid() else p.frame.Grid()
  }

  // A row of a box inside a tile lies inside the tile's row.
  lemma RowOfBox(p: Place, b: Box, z: int, y: int)
    requires Sound(p) && b.NonEmpty() && b.Within(p.Extent()) && b.HasRow(z, y)
    ensures z == 0 && RowStart(p, y) <= p.Grid().At(z, y, b.c0)
            && p.Grid().At(z, y, b.c1) <= RowStart(p, y) + RowWidth(p)
    ensures p.bufLo <= RowStart(p, y) && RowStart(p, y) + RowWidth(p) <= p.bufHi
  {
    CellInRow(p, y, b.c0);
    CellInRow(p, y, b.c1 - 1);
    RowsAreLaid(p, y);
  }

  lemma RowOfFrameBox(f: Frame, b: Box, z: int, y: int, lo: int, len: nat)
    requires InSystem(f, lo, len) && b.NonEmpty() && b.Within(f.Extent()) && b.HasRow(z, y)
    ensures z == 0 && lo <= f.Grid().At(z, y, b.c0) && f.Grid().At(z, y, b.c1) <= len
  {
    assert lo <= FrameCell(f, y, b.c0) && FrameCell(f, y, b.c1 - 1) < len;
  }

  lemma TransferIsSafe(p: Place, prev: Option<Place>, op: Op, lo: int, len: nat)
    requires Safe(p, lo, len) && p.Meets() && Delivers(p.frame, p.Grid(), p.Clipped(), prev, op)
    requires prev.Some? ==> Safe(prev.value, lo, len) && BuffersApart(p, prev.value)
    ensures SafeBox(len, p.Grid(), SourceGrid(p, prev, op), op.box)
  {
    hide Times, Clip, InSystem, RowStart, RowWidth, Place.Consistent, BoxDesc;
    var t, s, b := p.Grid(), SourceGrid(p, prev, op), op.box;
    ClippedIsInside(p);
    forall z, y | b.HasRow(z, y)
      ensures z == 0 && p.bufLo <= t.At(z, y, b.c0) && t.At(z, y, b.c1) <= p.bufHi
      ensures if op.fromPrev then prev.value.bufLo <= s.At(z, y, b.c0) && s.At(z, y, b.c1) <= prev.value.bufHi
              else lo <= s.At(z, y, b.c0) && s.At(z, y, b.c1) <= len
    {
      RowOfBox(p, b, z, y);
      if op.fromPrev { RowOfBox(prev.value, b, z, y); } else { RowOfFrameBox(p.frame, b, z, y, lo, len); }
    }
    forall z, y, z', y' | b.HasRow(z, y) && b.HasRow(z', y') && (z, y) != (z', y')
      ensures Apart(t.At(z, y, b.c0), t.At(z', y', b.c0), b.c1 - b.c0)
    {
      BoxRowsApart(p, b, z, y, z', y');
    }
    hide Delivers, Sound, Place.Meets, Place.Extent;
  }

  // Two rows of a box inside a tile.
  lemma BoxRowsApart(p: Place, b: Box, z: int, y: int, z': int, y': int)
    requires Sound(p) && b.NonEmpty() && b.Within(p.Extent()) && b.HasRow(z, y) && b.HasRow(z', y')
             && (z, y) != (z', y')
    ensures Apart(p.Grid().At(z, y, b.c0), p.Grid().At(z', y', b.c0), b.c1 - b.c0)
  {
    RowOfBox(p, b, z, y); RowOfBox(p, b, z', y');
    RowsAreLaid(p, y); RowsAreLaid(p, y');
    hide RowStart, RowWidth, Times, Place.Consistent, Place.EdgePtr;
  }

  // The transfer brings its box and changes no other byte of the tile, and none outside it.
  lemma TransferEffect(p: Place, prev: Option<Place>, op: Op, lo: int, m: seq<byte>, m': seq<byte>)
    requires Safe(p, lo, |m|) && p.Meets() && Delivers(p.frame, p.Grid(), p.Clipped(), prev, op)
    requires prev.Some? ==> Safe(prev.value, lo, |m|) && BuffersApart(p, prev.value)
    requires m' == op.desc.Exec(m)
    ensures forall y, c :: op.box.Has(0, y, c) ==>
              ByteAt(m', Cell(p, y, c)) ==
                ByteAt(m, if op.fromPrev then Cell(prev.value, y, c) else FrameCell(p.frame, y, c))
    ensures forall y, c :: p.Extent().Has(0, y, c) && !op.box.Has(0, y, c) ==>
              ByteAt(m', Cell(p, y, c)) == ByteAt(m, Cell(p, y, c))
    ensures forall a :: 0 <= a < |m| && OffTile(p, a) ==> m'[a] == m[a]
  {
    hide Times, Clip, InSystem, RowStart, RowWidth, Place.Consistent;
    var t, s, b := p.Grid(), SourceGrid(p, prev, op), op.box;
    TransferIsSafe(p, prev, op, lo, |m|);
    BoxIsSafe(|m|, t, s, b);
    ClippedIsInside(p);
    forall y, c | b.Has(0, y, c)
      ensures ByteAt(m', Cell(p, y, c)) ==
                ByteAt(m, if op.fromPrev then Cell(prev.value, y, c) else FrameCell(p.frame, y, c))
    {
      MoveInside(m, t, s, b, 0, y, c);
    }
    forall a | 0 <= a < |m| && OffTile(p, a) ensures m'[a] == m[a] {
      forall z, y | b.HasRow(z, y) ensures !(t.At(z, y, b.c0) <= a < t.At(z, y, b.c1)) {
        RowOfBox(p, b, z, y);
        assert !InRow(p, y, a);
      }
      MoveOutside(m, t, s, b, a);
    }
    forall y, c | p.Extent().Has(0, y, c) && !b.Has(0, y, c)
      ensures ByteAt(m', Cell(p, y, c)) == ByteAt(m, Cell(p, y, c))
    {
      CellInBuffer(p, y, c);
      forall z, y' | b.HasRow(z, y') ensures !(t.At(z, y', b.c0) <= Cell(p, y, c) < t.At(z, y', b.c1)) {
        CellInRow(p, y, c);
        RowOfBox(p, b, z, y');
        RowsAreLaid(p, y); RowsAreLaid(p, y');
      }
      MoveOutside(m, t, s, b, Cell(p, y, c));
    }
  }

  // ---- what a change to one tile's buffer leaves alone ----

  ghost predicate OnlyBuffer(m: seq<byte>, m': seq<byte>, p: Place) {
    |m'| == |m| && forall a :: 0 <= a < |m| && !(p.bufLo <= a < p.bufHi) ==> m'[a] == m[a]
  }

  lemma OnlyBufferFromOffTile(m: seq<byte>, m': seq<byte>, p: Place)
    requires Sound(p) && |m'| == |m| && forall a :: 0 <= a < |m| && OffTile(p, a) ==> m'[a] == m[a]
    ensures OnlyBuffer(m, m', p)
  {
    forall a | 0 <= a < |m| && !(p.bufLo <= a < p.bufHi) ensures m'[a] == m[a] { OutsideBuffer(p, a); }
  }

  lemma FrameKept(m: seq<byte>, m': seq<byte>, p: Place, f: Frame, lo: int, y: int, c: int)
    requires OnlyBuffer(m, m', p) && Safe(p, lo, |m|) && InSystem(f, lo, |m|) && f.Extent().Has(0, y, c)
    ensures ByteAt(m', FrameCell(f, y, c)) == ByteAt(m, FrameCell(f, y, c))
  {
    assert lo <= FrameCell(f, y, c) < |m|;
  }

  lemma OtherTileKept(m: seq<byte>, m': seq<byte>, p: Place, q: Place, lo: int, y: int, c: int)
    requires OnlyBuffer(m, m', p) && Safe(p, lo, |m|) && Safe(q, lo, |m|) && BuffersApart(p, q)
             && q.Extent().Has(0, y, c)
    ensures ByteAt(m', Cell(q, y, c)) == ByteAt(m, Cell(q, y, c))
  {
    CellInBuffer(q, y, c);
  }

  lemma ImageKept(m: seq<byte>, m': seq<byte>, p: Place, q: Place, lo: int)
    requires OnlyBuffer(m, m', p) && Safe(p, lo, |m|) && Safe(q, lo, |m|) && BuffersApart(p, q) && Shows(m, q)
    ensures Shows(m', q)
  {
    hide Px, FramePx, Times, PadByte, Place.Consistent;
    var f := q.frame;
    forall y, x, k | HasPx(q, y, x, k) ensures ByteAt(m', Px(q, y, x, k)) == Reference(m', f, y, x, k) {
      PxInBuffer(q, y, x, k);
      if f.HasPixel(y, x) || f.padding.EdgePadding? {
        var yy, xx :=
          Clamp(y, 0 - f.padTop, f.height - 1 + f.padBottom), Clamp(x, 0 - f.padLeft, f.width - 1 + f.padRight);
        FramePxInExtent(f, yy, xx, k);
        FrameKept(m, m', p, f, lo, yy, f.Col(xx) + k);
      }
    }
  }

  // ---- the engine advances ----

  // The oldest outstanding transfer stays inside memory and copies between rows that do not meet.
  lemma OldestIsSafe(s: State, lo: int)
    requires Inv(s, lo) && s.dma != []
    ensures s.dma[0].op.desc.Safe(|s.mem|)
  {
    hide Times, Clip, InSystem, RowStart, RowWidth, Place.Consistent, WillLoad, SourcesReady, ReadyTilesShow, Desc.Safe;
    assert PendingOk(s, 0);
    var t, op := s.dma[0].owner, s.dma[0].op;
    var p, prev := s.tiles[t].place, PlaceOf(s, s.tiles[t].prev);
    TransferIsSafe(p, prev, op, lo, |s.mem|);
    BoxIsSafe(|s.mem|, p.Grid(), SourceGrid(p, prev, op), op.box);
  }

  // What the invariant says of the oldest outstanding transfer and its effect.
  lemma OldestTransfer(s: State, lo: int)
    requires Inv(s, lo) && s.dma != []
    ensures var t, op := s.dma[0].owner, s.dma[0].op;
            && t < |s.tiles| && t in s.queue && op.box.Within(s.tiles[t].place.Clipped())
            && OnlyBuffer(s.mem, Advance(s).mem, s.tiles[t].place)
            && (forall y, c :: op.box.Has(0, y, c) ==>
                  ByteAt(Advance(s).mem, Cell(s.tiles[t].place, y, c)) ==
                    ByteAt(s.mem, FrameCell(s.tiles[t].place.frame, y, c)))
            && (forall y, c :: s.tiles[t].place.Extent().Has(0, y, c) && !op.box.Has(0, y, c) ==>
                  ByteAt(Advance(s).mem, Cell(s.tiles[t].place, y, c)) == ByteAt(s.mem, Cell(s.tiles[t].place, y, c)))
  {
    hide Times, Clip, InSystem, RowStart, RowWidth, Place.Consistent, WillLoad, ReadyTilesShow, Delivers;
    assert PendingOk(s, 0);
    var t, op := s.dma[0].owner, s.dma[0].op;
    var p, prev := s.tiles[t].place, PlaceOf(s, s.tiles[t].prev);
    assert Delivers(p.frame, p.Grid(), p.Clipped(), prev, op);
    TransferEffect(p, prev, op, lo, s.mem, Advance(s).mem);
    OnlyBufferFromOffTile(s.mem, Advance(s).mem, p);
    InClipOf(p, prev, op);
    forall y, c | op.box.Has(0, y, c)
      ensures ByteAt(Advance(s).mem, Cell(p, y, c)) == ByteAt(s.mem, FrameCell(p.frame, y, c))
    {
      if op.fromPrev {
        assert SourceReady(s, 0, y, c);
        assert !Comes(s.dma, s.tiles[t].prev.value, y, c, 0);
      }
    }
  }

  lemma InClipOf(p: Place, prev: Option<Place>, op: Op)
    requires Delivers(p.frame, p.Grid(), p.Clipped(), prev, op)
    ensures op.box.Within(p.Clipped())
  {
  }

  // A byte that was on its way among the first `n` transfers has arrived, or is among the first n - 1 that remain.
  lemma GoodAfterAdvance(s: State, lo: int, t: nat, y: int, c: int, n: nat)
    requires Inv(s, lo) && s.dma != [] && t < |s.tiles| && s.tiles[t].place.Meets()
             && s.tiles[t].place.Clipped().Has(0, y, c)
    requires Good(s, t, y, c, n) && n <= |s.dma|
    ensures Good(Advance(s), t, y, c, if n == 0 then 0 else n - 1)
  {
    hide Times, Clip, InSystem, Place.Consistent, WillLoad, ReadyTilesShow, SourcesReady, DmaOk, LinksOk, QueueOk;
    var s', u, op := Advance(s), s.dma[0].owner, s.dma[0].op;
    OldestTransfer(s, lo);
    var p, q := s.tiles[u].place, s.tiles[t].place;
    ClippedIsInside(q);
    FrameKept(s.mem, s'.mem, p, q.frame, lo, y, c);
    if u == t {
      FrameKept(s.mem, s'.mem, p, p.frame, lo, y, c);
      assert op.box.Has(0, y, c) ==> ByteAt(s'.mem, Cell(q, y, c)) == ByteAt(s'.mem, FrameCell(q.frame, y, c));
    } else {
      OtherTileKept(s.mem, s'.mem, p, q, lo, y, c);
    }
    if Comes(s.dma, t, y, c, n) && !(u == t && op.box.Has(0, y, c)) {
      var i :| 0 <= i < n && i < |s.dma| && s.dma[i].owner == t && s.dma[i].op.box.Has(0, y, c);
      assert s'.dma[i - 1] == s.dma[i];
      assert Comes(s'.dma, t, y, c, n - 1);
    }
  }

  lemma SourceIsClipped(s: State, lo: int, i: nat, y: int, c: int)
    requires Inv(s, lo) && i < |s.dma| && s.dma[i].op.fromPrev && s.dma[i].op.box.Has(0, y, c)
    ensures var t := s.dma[i].owner;
            t < |s.tiles| && s.tiles[t].prev.Some? && s.tiles[t].prev.value < |s.tiles|
            && var q := s.tiles[s.tiles[t].prev.value].place; q.Meets() && q.Clipped().Has(0, y, c)
  {
    hide Times, Clip, InSystem, Place.Consistent, WillLoad, ReadyTilesShow, BoxDesc;
    assert PendingOk(s, i);
    var t := s.dma[i].owner;
    var p, q := s.tiles[t].place, s.tiles[s.tiles[t].prev.value].place;
    ClippedIsInside(p);
    SharedCellIsClipped(q, y, c);
  }

  lemma AdvanceKeepsDma(s: State)
    requires DmaOk(s) && s.dma != []
    ensures DmaOk(Advance(s))
  {
    hide Delivers, Desc.Exec;
    var s' := Advance(s);
    forall i | 0 <= i < |s'.dma| ensures PendingOk(s', i) { assert PendingOk(s, i + 1); }
    forall t | t in s'.queue && t < |s'.tiles| ensures LastIsOutstanding(s', t) { assert LastIsOutstanding(s, t); }
  }

  lemma AdvanceKeepsContent(s: State, lo: int)
    requires Inv(s, lo) && s.dma != []
    ensures WillLoad(Advance(s)) && SourcesReady(Advance(s)) && ReadyTilesShow(Advance(s))
  {
    hide Times, Clip, InSystem, Place.Consistent, Good, Delivers, Shows, Safe, StatusOf, BuffersApart, DmaOk, LinksOk;
    var s' := Advance(s);
    OldestTransfer(s, lo);
    forall t, y, c | t in s'.intact && t < |s'.tiles| && s'.tiles[t].place.Clipped().Has(0, y, c)
      ensures Good(s', t, y, c, |s'.dma|)
    {
      ClippedMeets(s.tiles[t].place, y, c);
      GoodAfterAdvance(s, lo, t, y, c, |s.dma|);
    }
    forall i, y, c | 0 <= i < |s'.dma| && s'.dma[i].op.fromPrev && s'.dma[i].op.box.Has(0, y, c)
      ensures SourceReady(s', i, y, c)
    {
      SourceIsClipped(s, lo, i + 1, y, c);
      assert SourceReady(s, i + 1, y, c);
      GoodAfterAdvance(s, lo, s.tiles[s.dma[i + 1].owner].prev.value, y, c, i + 1);
    }
    forall t | t in s'.intact && t < |s'.tiles| && s'.tiles[t].status.Idle() ensures ShowsIfDefined(s', t) {
      assert ShowsIfDefined(s, t);
      var p, q := s.tiles[s.dma[0].owner].place, s.tiles[t].place;
      if q.Meets() || !q.frame.padding.EdgePadding? { ImageKept(s.mem, s'.mem, p, q, lo); }
    }
  }

  lemma AdvanceKeeps(s: State, lo: int)
    requires Inv(s, lo) && s.dma != []
    ensures Inv(Advance(s), lo)
  {
    AdvanceKeepsDma(s);
    AdvanceKeepsContent(s, lo);
    hide Safe, BuffersApart, DmaOk, WillLoad, SourcesReady, ReadyTilesShow, Readers, StatusOf, Desc.Exec;
  }

  lemma ClippedMeets(p: Place, y: int, c: int)
    requires p.Clipped().Has(0, y, c)
    ensures p.Meets()
  {
    if p.XSpan().b + 1 <= p.XSpan().a { ColOrder(p.frame, p.XSpan().b + 1, p.XSpan().a); }
  }

  // ---- counting readers ----

  lemma {:induction false} ReadersAppend(tiles: seq<Tile>, queue: seq<nat>, t: nat, q: nat)
    ensures Readers(tiles, queue + [t], q) ==
              Readers(tiles, queue, q) + (if t < |tiles| && tiles[t].prev == Some(q) then 1 else 0)
  {
    if queue == [] {
      assert [t][1..] == [] && queue + [t] == [t];
    } else {
      assert (queue + [t])[1..] == queue[1..] + [t];
      ReadersAppend(tiles, queue[1..], t, q);
    }
  }

  lemma {:induction false} ReadersSame(tiles: seq<Tile>, tiles': seq<Tile>, queue: seq<nat>, q: nat)
    requires |tiles| == |tiles'| && forall u: nat :: u in queue && u < |tiles| ==> tiles[u].prev == tiles'[u].prev
    ensures Readers(tiles, queue, q) == Readers(tiles', queue, q)
  {
    if queue != [] { ReadersSame(tiles, tiles', queue[1..], q); }
  }

  lemma {:induction false} ReaderIsCounted(tiles: seq<Tile>, queue: seq<nat>, t: nat, q: nat)
    requires t in queue && t < |tiles| && tiles[t].prev == Some(q)
    ensures Readers(tiles, queue, q) > 0
  {
    if queue[0] != t { ReaderIsCounted(tiles, queue[1..], t, q); }
  }

  // ---- a request ----

  // What a request changes in the tile table.
  ghost predicate Requested(s: State, s': State, t: nat, link: Option<nat>) {
    && t < |s.tiles| == |s'.tiles| && s'.queue == s.queue + [t] && s'.intact == s.intact + {t} && |s'.mem| == |s.mem|
    && (forall u: nat :: u < |s.tiles| ==> s'.tiles[u].place == s.tiles[u].place)
    && (forall u: nat :: u < |s.tiles| && u != t ==>
          s'.tiles[u] == s.tiles[u].(reuseCount := s.tiles[u].reuseCount + if link == Some(u) then 1 else 0))
    && s'.tiles[t].prev == link && s'.tiles[t].status == StatusOf(s.tiles[t].place) && s'.tiles[t].reuseCount == 0
  }

  lemma RequestTable(s: State, t: nat, prev: Option<nat>)
    requires CanRequest(s, t, prev)
    ensures Requested(s, Request(s, t, prev), t, if Reuses(s, t, prev) then prev else None)
  {
    hide Clip, LoadOps, Place.Meets, Issued, StatusOf, Independent;
  }

  lemma RequestKeepsTables(s: State, s': State, lo: int, t: nat, link: Option<nat>)
    requires Inv(s, lo) && t < |s.tiles| && s.tiles[t].Free() && Requested(s, s', t, link)
    requires link.Some? ==>
               s.tiles[t].place.Meets() && link.value < |s.tiles| && link.value != t && link.value in s.intact
                 && s.tiles[link.value].place.frame == s.tiles[t].place.frame
    ensures PlacesOk(s', lo) && QueueOk(s') && LinksOk(s')
  {
    hide Clip, Safe, DmaOk, WillLoad, SourcesReady, ReadyTilesShow, Place.Meets, BuffersApart;
    assert t !in s.queue;
    assert PlacesOk(s', lo);
    assert QueueOk(s') by { hide LinksOk, PlacesOk; }
    forall q: nat | q < |s.tiles| ensures s'.tiles[q].reuseCount == Readers(s'.tiles, s'.queue, q) {
      ReadersAppend(s'.tiles, s.queue, t, q);
      ReadersSame(s.tiles, s'.tiles, s.queue, q);
    }
  }

  lemma IssuedIsOk(s: State, lo: int, t: nat, prev: Option<nat>, i: nat)
    requires Inv(s, lo) && CanRequest(s, t, prev) && i < |Issued(s, t, prev)|
    ensures var s', pend := Request(s, t, prev), Issued(s, t, prev)[i];
            && pend.owner == t && s.tiles[t].place.Meets()
            && Delivers(s.tiles[t].place.frame, s.tiles[t].place.Grid(), s.tiles[t].place.Clipped(),
                        PlaceOf(s', s'.tiles[t].prev), pend.op)
  {
    hide Clip, LoadOps, WillLoad, SourcesReady, ReadyTilesShow, DmaOk, Place.Consistent, InSystem;
    var p, pp, op := s.tiles[t].place, PlaceOf(s, prev), Issued(s, t, prev)[i].op;
    LoadOpsDeliver(p, pp);
    assert op in LoadOps(p, pp);
    assert Delivers(p.frame, p.Grid(), p.Clipped(), pp, op);
    if prev.Some? && !Reuses(s, t, prev) { IndependentReadsFrameOnly(p, pp.value, op); }
  }

  // Transfers on their way stay on their way when more are queued behind them.
  lemma ComesStill(dma: seq<Pending>, more: seq<Pending>, t: nat, y: int, c: int, n: nat)
    requires n <= |dma| && Comes(dma, t, y, c, n)
    ensures forall k: nat :: n <= k ==> Comes(dma + more, t, y, c, k)
  {
    var i :| 0 <= i < n && i < |dma| && dma[i].owner == t && dma[i].op.box.Has(0, y, c);
    assert (dma + more)[i] == dma[i];
  }

  lemma RequestKeepsDma(s: State, lo: int, t: nat, prev: Option<nat>)
    requires Inv(s, lo) && CanRequest(s, t, prev) && s.tiles[t].Free()
    ensures DmaOk(Request(s, t, prev))
  {
    hide Clip, Safe, LoadOps, WillLoad, SourcesReady, ReadyTilesShow, Delivers, Issued, Independent, PlacesOk, LinksOk,
      Request, Reuses, StatusOf, LastIsOutstanding;
    var s', ops := Request(s, t, prev), Issued(s, t, prev);
    RequestTable(s, t, prev);
    assert s'.dma == s.dma + ops && s'.issued == s.issued + |ops| && s'.Completed() == s.Completed()
           && s'.tiles[t].dmaIndex <= s'.issued
           && (s.tiles[t].place.Meets() ==> s'.tiles[t].dmaIndex == s'.issued) by { RequestDma(s, t, prev); }
    forall i | 0 <= i < |s'.dma| ensures PendingOk(s', i) {
      if i < |s.dma| {
        assert PendingOk(s, i);
        assert s'.dma[i] == s.dma[i];
      } else {
        assert s'.dma[i] == ops[i - |s.dma|];
        IssuedIsOk(s, lo, t, prev, i - |s.dma|);
        NotDummy(s.tiles[t].place);
      }
    }
    forall u | u in s'.queue && u < |s'.tiles| ensures LastIsOutstanding(s', u) { RequestWaits(s, lo, t, prev, u); }
  }

  lemma RequestWaits(s: State, lo: int, t: nat, prev: Option<nat>, u: nat)
    requires Inv(s, lo) && CanRequest(s, t, prev) && s.tiles[t].Free() && u in s.queue + [t] && u < |s.tiles|
    ensures |Request(s, t, prev).tiles| == |s.tiles| && LastIsOutstanding(Request(s, t, prev), u)
  {
    assert Sound(s.tiles[t].place) && (prev.Some? ==> Sound(s.tiles[prev.value].place));
    assert 0 <= s.Completed() <= s.issued;
    assert u != t ==> LastIsOutstanding(s, u);
    hide Inv, LastIsOutstanding, Request, CanRequest, Reuses, StatusOf, Issued, Sound;
    RequestTable(s, t, prev);
    RequestDma(s, t, prev);
    if u == t { LastIsOwn(s, t, prev); } else { StillOutstanding(s, Request(s, t, prev), u); }
  }

  lemma StillOutstanding(s: State, s': State, u: nat)
    requires u < |s.tiles| == |s'.tiles| && LastIsOutstanding(s, u) && s'.tiles[u].dmaIndex == s.tiles[u].dmaIndex
    requires s'.Completed() == s.Completed() && s.dma <= s'.dma
    ensures LastIsOutstanding(s', u)
  {
  }

  // The last transfer of a request is the one its index names.
  lemma LastIsOwn(s: State, t: nat, prev: Option<nat>)
    requires CanRequest(s, t, prev) && 0 <= s.issued && 0 <= s.Completed()
    requires Sound(s.tiles[t].place) && (prev.Some? ==> Sound(s.tiles[prev.value].place))
    ensures LastIsOutstanding(Request(s, t, prev), t)
  {
    var s', ops, p := Request(s, t, prev), Issued(s, t, prev), s.tiles[t].place;
    RequestDma(s, t, prev);
    RequestTable(s, t, prev);
    if p.Meets() { SomethingIssued(p, PlaceOf(s, prev)); }
    hide Clip, LoadOps, Independent, StatusOf, Place.Meets, Request, Sound;
  }

  lemma SomethingIssued(p: Place, prev: Option<Place>)
    requires Sound(p) && p.Meets() && (prev.Some? ==> Sound(prev.value) && prev.value.frame == p.frame)
    ensures LoadOps(p, prev) != []
  {
    LoadOpsDeliver(p, prev);
    hide LoadOps, Delivers, Clip;
    TimesMonotone(p.XSpan().a, p.XSpan().b + 1, p.frame.pixWidth);
    assert p.Clipped().Has(0, p.YSpan().a, p.frame.Col(p.XSpan().a));
    assert Arrives(LoadOps(p, prev), p.YSpan().a, p.frame.Col(p.XSpan().a));
  }

  lemma NotDummy(p: Place)
    ensures StatusOf(p).dummy == !p.Meets() && !StatusOf(p).Idle()
  {
  }

  lemma RequestDma(s: State, t: nat, prev: Option<nat>)
    requires CanRequest(s, t, prev) && 0 <= s.issued
    ensures var s', ops := Request(s, t, prev), Issued(s, t, prev);
            && s'.dma == s.dma + ops && s'.issued == s.issued + |ops| && s'.Completed() == s.Completed()
            && s'.tiles[t].dmaIndex <= s'.issued && (s.tiles[t].place.Meets() ==> s'.tiles[t].dmaIndex == s'.issued)
  {
    hide Clip, LoadOps, Independent, StatusOf, Place.Meets;
  }

  lemma RequestKeepsContent(s: State, lo: int, t: nat, prev: Option<nat>)
    requires Inv(s, lo) && CanRequest(s, t, prev) && s.tiles[t].Free()
    ensures WillLoad(Request(s, t, prev)) && SourcesReady(Request(s, t, prev)) && ReadyTilesShow(Request(s, t, prev))
  {
    hide Clip, Safe, LoadOps, Delivers, Issued, Independent, PlacesOk, Request, Reuses, StatusOf, Shows, Times, Comes;
    var s', ops := Request(s, t, prev), Issued(s, t, prev);
    RequestTable(s, t, prev);
    RequestDma(s, t, prev);
    assert s'.mem == s.mem by { RequestMem(s, t, prev); }
    forall u, y, c | u in s'.intact && u < |s'.tiles| && s'.tiles[u].place.Clipped().Has(0, y, c)
      ensures Good(s', u, y, c, |s'.dma|)
    {
      if u == t {
        IssuedReach(s, lo, t, prev, y, c);
      } else {
        assert Good(s, u, y, c, |s.dma|);
        if Comes(s.dma, u, y, c, |s.dma|) { ComesStill(s.dma, ops, u, y, c, |s.dma|); }
      }
    }
    forall i, y, c | 0 <= i < |s'.dma| && s'.dma[i].op.fromPrev && s'.dma[i].op.box.Has(0, y, c)
      ensures SourceReady(s', i, y, c)
    {
      if i < |s.dma| {
        SourceIsClipped(s, lo, i, y, c);
        assert SourceReady(s, i, y, c);
        assert PendingOk(s, i);
        var q := s.tiles[s.dma[i].owner].prev.value;
        if Comes(s.dma, q, y, c, i) { ComesStill(s.dma, ops, q, y, c, i); }
      } else {
        NewSource(s, lo, t, prev, i - |s.dma|, y, c);
        var q := prev.value;
        assert Good(s, q, y, c, |s.dma|);
        if Comes(s.dma, q, y, c, |s.dma|) { ComesStill(s.dma, ops, q, y, c, |s.dma|); }
      }
    }
    forall u | u in s'.intact && u < |s'.tiles| && s'.tiles[u].status.Idle() ensures ShowsIfDefined(s', u) {
      NotDummy(s.tiles[t].place);
      assert ShowsIfDefined(s, u);
    }
  }

  lemma RequestMem(s: State, t: nat, prev: Option<nat>)
    requires CanRequest(s, t, prev)
    ensures Request(s, t, prev).mem == s.mem
  {
  }

  // The new transfers reach the whole clipped rectangle.
  lemma IssuedReach(s: State, lo: int, t: nat, prev: Option<nat>, y: int, c: int)
    requires Inv(s, lo) && CanRequest(s, t, prev) && s.tiles[t].place.Clipped().Has(0, y, c)
    ensures Comes(s.dma + Issued(s, t, prev), t, y, c, |s.dma| + |Issued(s, t, prev)|)
  {
    hide Clip, LoadOps, Delivers, Place.Consistent, InSystem;
    var p, pp, ops := s.tiles[t].place, PlaceOf(s, prev), Issued(s, t, prev);
    ClippedMeets(p, y, c);
    LoadOpsDeliver(p, pp);
    assert Arrives(LoadOps(p, pp), y, c);
    var op :| op in LoadOps(p, pp) && op.box.Has(0, y, c);
    var i :| 0 <= i < |LoadOps(p, pp)| && LoadOps(p, pp)[i] == op;
    assert (s.dma + ops)[|s.dma| + i] == Pending(t, op);
  }

  // A new transfer that reads the previous tile reads bytes that tile loads.
  lemma NewSource(s: State, lo: int, t: nat, prev: Option<nat>, i: nat, y: int, c: int)
    requires Inv(s, lo) && CanRequest(s, t, prev) && i < |Issued(s, t, prev)|
    requires Issued(s, t, prev)[i].op.fromPrev && Issued(s, t, prev)[i].op.box.Has(0, y, c)
    ensures Reuses(s, t, prev) && prev.Some? && Issued(s, t, prev)[i].owner == t
            && s.tiles[prev.value].place.Clipped().Has(0, y, c)
  {
    hide Clip, LoadOps, Place.Consistent, InSystem, BoxDesc;
    var p, q, op := s.tiles[t].place, PlaceOf(s, prev), Issued(s, t, prev)[i].op;
    LoadOpsDeliver(p, q);
    assert op in LoadOps(p, q);
    assert Delivers(p.frame, p.Grid(), p.Clipped(), q, op);
    ClippedIsInside(p);
    SharedCellIsClipped(q.value, y, c);
    if !Reuses(s, t, prev) { IndependentReadsFrameOnly(p, q.value, op); }
  }

  lemma RequestKeeps(s: State, lo: int, t: nat, prev: Option<nat>)
    requires Inv(s, lo) && CanRequest(s, t, prev) && s.tiles[t].Free()
    ensures Inv(Request(s, t, prev), lo)
  {
    hide Clip, Place.Meets, Independent, Request, StatusOf, Safe, PlacesOk, QueueOk, LinksOk, DmaOk, WillLoad,
      SourcesReady, ReadyTilesShow;
    RequestTable(s, t, prev);
    RequestKeepsTables(s, Request(s, t, prev), lo, t, if Reuses(s, t, prev) then prev else None);
    RequestKeepsDma(s, lo, t, prev);
    RequestKeepsContent(s, lo, t, prev);
  }

  // What a request comes to, in terms of the pixels alone. The previous tile is recorded, gains a reader and is read by
  // one of the new transfers exactly when the two tiles share a byte of the frame.
  ghost predicate RequestDoes(s: State, s': State, t: nat, prev: Option<nat>)
    requires t < |s.tiles| == |s'.tiles| && (prev.Some? ==> prev.value < |s.tiles|)
  {
    var p, f, n := s.tiles[t].place, s.tiles[t].place.frame, |s.dma|;
    var shared := prev.Some? && Shares(p, s.tiles[prev.value].place);
    && s'.mem == s.mem && s'.queue == s.queue + [t] && s'.intact == s.intact + {t}
    && s.dma <= s'.dma && s'.issued - s.issued == |s'.dma| - n
    && (forall i :: n <= i < |s'.dma| ==> s'.dma[i].owner == t)
    && (shared <==> exists i :: n <= i < |s'.dma| && s'.dma[i].op.fromPrev)
    && (forall u: nat :: u < |s.tiles| && u != t ==>
          s'.tiles[u] == s.tiles[u].(reuseCount := s.tiles[u].reuseCount + if shared && u == prev.value then 1 else 0))
    && s'.tiles[t].place == p && s'.tiles[t].reuseCount == 0 && s'.tiles[t].prev == (if shared then prev else None)
    && s'.tiles[t].status == Status(true, p.X0() < 0 - f.padLeft, p.X1() >= f.width + f.padRight,
                                    p.Y0() < 0 - f.padTop, p.Y1() >= f.height + f.padBottom, Apart2D(p))
    && s'.tiles[t].dmaIndex == (if Apart2D(p) then -2 else s'.issued)
  }

  // No pixel of the tile lies in the padded frame.
  predicate Apart2D(p: Place) {
    var f := p.frame;
    || p.X1() < 0 - f.padLeft || p.X0() >= f.width + f.padRight
    || p.Y1() < 0 - f.padTop || p.Y0() >= f.height + f.padBottom
  }

  lemma MeetsUnlessApart(p: Place)
    requires Sound(p)
    ensures p.Meets() <==> !Apart2D(p)
    ensures StatusOf(p) == Status(true, p.X0() < 0 - p.frame.padLeft, p.X1() >= p.frame.width + p.frame.padRight,
                                  p.Y0() < 0 - p.frame.padTop, p.Y1() >= p.frame.height + p.frame.padBottom, Apart2D(p))
  {
    ClipIsIntersection(p.X0(), p.X1(), p.frame.padLeft, p.frame.width, p.frame.padRight, p.X0());
    ClipIsIntersection(p.Y0(), p.Y1(), p.frame.padTop, p.frame.height, p.frame.padBottom, p.Y0());
  }

  lemma ReusesIffShares(p: Place, q: Place)
    requires Sound(p) && Sound(q) && p.frame == q.frame
    ensures p.Meets() && !Independent(q, p.YSpan().a, p.YSpan().b, p.XSpan().a, p.XSpan().b) <==> Shares(p, q)
  {
    hide Clip, Place.Consistent;
    if p.Meets() {
      IndependentSharesNothing(p, q);
    } else {
      forall y, c ensures !p.Clipped().Has(0, y, c) { if p.Clipped().Has(0, y, c) { ClippedMeets(p, y, c); } }
    }
  }

  // Some transfer reads the previous tile exactly when the two tiles share a byte.
  lemma ReadsIffShares(p: Place, prev: Option<Place>)
    requires Sound(p) && p.Meets() && (prev.Some? ==> Sound(prev.value) && prev.value.frame == p.frame)
    ensures prev.Some? && Shares(p, prev.value) <==>
            exists k :: 0 <= k < |LoadOps(p, prev)| && LoadOps(p, prev)[k].fromPrev
  {
    var ops := LoadOps(p, prev);
    LoadOpsDeliver(p, prev);
    hide LoadOps, Clip, Place.Consistent, Independent;
    if k :| 0 <= k < |ops| && ops[k].fromPrev {
      assert ops[k] in ops;
      var b := ops[k].box;
      assert Delivers(p.frame, p.Grid(), p.Clipped(), prev, ops[k]);
      assert p.Clipped().Has(0, b.y0, b.c0) && prev.value.Extent().Has(0, b.y0, b.c0);
    }
    if prev.Some? && Shares(p, prev.value) {
      var y, c :| p.Clipped().Has(0, y, c) && prev.value.Extent().Has(0, y, c);
      ReadsWhatPreviousHas(p, prev.value, y, c);
    }
  }

  lemma IssuedReads(s: State, t: nat, prev: Option<nat>)
    requires CanRequest(s, t, prev) && 0 <= s.issued && Sound(s.tiles[t].place)
    requires prev.Some? ==> Sound(s.tiles[prev.value].place)
    ensures var s', n := Request(s, t, prev), |s.dma|;
            && s.dma <= s'.dma && s'.issued - s.issued == |s'.dma| - n
            && (forall i :: n <= i < |s'.dma| ==> s'.dma[i].owner == t)
            && (Reuses(s, t, prev) <==> exists i :: n <= i < |s'.dma| && s'.dma[i].op.fromPrev)
  {
    var s', ops := Request(s, t, prev), Issued(s, t, prev);
    RequestDma(s, t, prev);
    IssuedIs(s, t, prev);
    ReusesReads(s, t, prev);
    hide *;
    assert forall i :: |s.dma| <= i < |s'.dma| ==> s'.dma[i] == ops[i - |s.dma|];
    if k :| 0 <= k < |ops| && ops[k].op.fromPrev { assert s'.dma[|s.dma| + k].op.fromPrev; }
  }

  lemma IssuedIs(s: State, t: nat, prev: Option<nat>)
    requires CanRequest(s, t, prev)
    ensures forall i :: 0 <= i < |Issued(s, t, prev)| ==> Issued(s, t, prev)[i].owner == t
  {
    hide LoadOps, Place.Meets;
  }

  lemma ReusesReads(s: State, t: nat, prev: Option<nat>)
    requires CanRequest(s, t, prev) && Sound(s.tiles[t].place) && (prev.Some? ==> Sound(s.tiles[prev.value].place))
    ensures Reuses(s, t, prev) <==> exists k :: 0 <= k < |Issued(s, t, prev)| && Issued(s, t, prev)[k].op.fromPrev
  {
    var p := s.tiles[t].place;
    var all, ops := LoadOps(p, PlaceOf(s, prev)), Issued(s, t, prev);
    ReusesAre(s, t, prev);
    if p.Meets() { ReadsIffShares(p, PlaceOf(s, prev)); }
    hide LoadOps, Clip, Independent, Shares, Sound;
    if p.Meets() {
      assert |ops| == |all| && forall k :: 0 <= k < |all| ==> ops[k].op == all[k];
      if k :| 0 <= k < |all| && all[k].fromPrev { assert ops[k].op.fromPrev; }
    }
  }

  // The tiles of a request are not empty and fit their buffers.
  predicate SoundRequest(s: State, t: nat, prev: Option<nat>) {
    && 0 <= s.issued && t < |s.tiles| && Sound(s.tiles[t].place)
    && (prev.Some? ==> prev.value < |s.tiles| && Sound(s.tiles[prev.value].place))
  }

  lemma InvIsSound(s: State, lo: int, t: nat, prev: Option<nat>)
    requires Inv(s, lo) && CanRequest(s, t, prev)
    ensures SoundRequest(s, t, prev)
  {
    hide QueueOk, LinksOk, WillLoad, SourcesReady, ReadyTilesShow, PendingOk, LastIsOutstanding;
  }

  /** Every request does what its pixels say. */
  lemma RequestIs(s: State, t: nat, prev: Option<nat>)
    requires CanRequest(s, t, prev) && SoundRequest(s, t, prev)
    ensures |Request(s, t, prev).tiles| == |s.tiles| && RequestDoes(s, Request(s, t, prev), t, prev)
  {
    var p := s.tiles[t].place;
    RequestTable(s, t, prev);
    RequestMem(s, t, prev);
    IssuedReads(s, t, prev);
    MeetsUnlessApart(p);
    RequestIndex(s, t, prev);
    ReusesAre(s, t, prev);
    hide Shares, Sound, Request, Reuses, Apart2D, Place.Meets, StatusOf, CanRequest;
  }

  lemma ReusesAre(s: State, t: nat, prev: Option<nat>)
    requires CanRequest(s, t, prev) && Sound(s.tiles[t].place) && (prev.Some? ==> Sound(s.tiles[prev.value].place))
    ensures Reuses(s, t, prev) <==> prev.Some? && Shares(s.tiles[t].place, s.tiles[prev.value].place)
  {
    hide Clip, Shares, Independent, Sound;
    if prev.Some? { ReusesIffShares(s.tiles[t].place, s.tiles[prev.value].place); }
  }

  lemma RequestIndex(s: State, t: nat, prev: Option<nat>)
    requires CanRequest(s, t, prev)
    ensures var s' := Request(s, t, prev);
            s'.tiles[t].place == s.tiles[t].place
              && s'.tiles[t].dmaIndex == if s.tiles[t].place.Meets() then s'.issued else DUMMY_DMA_INDEX
  {
    hide Clip, LoadOps, Independent, StatusOf, Place.Meets;
  }

  // The code resets the count of a requested tile without looking at it, so the count stays the number of readers
  // exactly when nobody was reading the tile.
  lemma ReuseCountIsExactIffFree(s: State, lo: int, t: nat, prev: Option<nat>)
    requires Inv(s, lo) && CanRequest(s, t, prev)
    ensures var s' := Request(s, t, prev);
            s'.tiles[t].reuseCount == Readers(s'.tiles, s'.queue, t) <==> s.tiles[t].reuseCount == 0
  {
    hide Clip, Issued, StatusOf, Place.Meets, Independent, PlacesOk, DmaOk, WillLoad, SourcesReady, ReadyTilesShow;
    var s' := Request(s, t, prev);
    RequestTable(s, t, prev);
    ReadersAppend(s'.tiles, s.queue, t, t);
    ReadersSame(s.tiles, s'.tiles, s.queue, t);
  }

  // ---- retiring a tile ----

  lemma {:induction false} ColSplit(f: Frame, a: int, b: int, c: int) returns (x: int, k: int)
    requires a <= b && f.Col(a) <= c < f.Col(b)
    ensures a <= x < b && 0 <= k < f.pixWidth && c == f.Col(x) + k
    decreases b - a
  {
    TimesAdd(b - 1, 1, f.pixWidth);
    if f.Col(b - 1) <= c { x, k := b - 1, c - f.Col(b - 1); } else { x, k := ColSplit(f, a, b - 1, c); }
  }

  lemma NothingOutstanding(s: State, lo: int)
    requires Inv(s, lo) && HeadDone(s)
    ensures forall i :: 0 <= i < |s.dma| ==> s.dma[i].owner != s.queue[0]
  {
    hide PlacesOk, LinksOk, WillLoad, SourcesReady, ReadyTilesShow, Delivers, QueueOk;
    forall i | 0 <= i < |s.dma| ensures s.dma[i].owner != s.queue[0] { assert PendingOk(s, i); }
  }

  /** A queued tile that meets its frame waits for its index exactly as long as one of its transfers is outstanding. */
  lemma WaitsIffOutstanding(s: State, lo: int, t: nat)
    requires Inv(s, lo) && t in s.queue && t < |s.tiles| && s.tiles[t].place.Meets()
    ensures s.tiles[t].dmaIndex > s.Completed() <==> exists i :: 0 <= i < |s.dma| && s.dma[i].owner == t
  {
    hide PlacesOk, LinksOk, WillLoad, SourcesReady, ReadyTilesShow, Delivers, QueueOk, Clip;
    assert LastIsOutstanding(s, t);
    forall i | 0 <= i < |s.dma| && s.dma[i].owner == t ensures s.tiles[t].dmaIndex > s.Completed() {
      assert PendingOk(s, i);
    }
  }

  lemma WaitsForOwn(s: State, lo: int, t: nat)
    requires Inv(s, lo) && t in s.queue && t < |s.tiles| && !s.tiles[t].status.dummy
             && s.tiles[t].dmaIndex > s.Completed()
    ensures exists i :: 0 <= i < |s.dma| && s.dma[i].owner == t
  {
    hide PlacesOk, LinksOk, WillLoad, SourcesReady, ReadyTilesShow, Clip;
    WaitsIffOutstanding(s, lo, t);
  }

  // A tile is loaded by the time its transfers are done.
  lemma HeadIsLoaded(s: State, lo: int)
    requires Inv(s, lo) && HeadDone(s)
    ensures Loaded(s.mem, s.tiles[s.queue[0]].place)
  {
    hide PlacesOk, LinksOk, SourcesReady, ReadyTilesShow, DmaOk, Clip, Loaded;
    var t := s.queue[0];
    var p := s.tiles[t].place;
    NothingOutstanding(s, lo);
    forall y, c | p.Clipped().Has(0, y, c)
      ensures ByteAt(s.mem, Cell(p, y, c)) == ByteAt(s.mem, FrameCell(p.frame, y, c))
    {
      assert Good(s, t, y, c, |s.dma|);
    }
    LoadedFromCells(s.mem, p);
  }

  // Padding leaves what was loaded.
  lemma PaddingKeepsClipped(m: seq<byte>, m': seq<byte>, p: Place, y: int, c: int)
    requires PadResult(m, m', p) && Sound(p) && p.Clipped().Has(0, y, c)
    ensures ByteAt(m', Cell(p, y, c)) == ByteAt(m, Cell(p, y, c))
  {
    hide Clip, Shows, Loaded, OffTile, Times;
    ClippedMeets(p, y, c);
    ClippedIsInside(p);
    var x, k := ColSplit(p.frame, p.XSpan().a, p.XSpan().b + 1, c);
    ClipIsIntersection(p.X0(), p.X1(), p.frame.padLeft, p.frame.width, p.frame.padRight, x);
    assert HasPx(p, y, x, k) && InClip(p, y, x) && Px(p, y, x, k) == Cell(p, y, c);
  }

  // What retiring changes in the tile table.
  ghost predicate Retired(s: State, s': State) {
    && s.queue != [] && s.queue[0] < |s.tiles| == |s'.tiles| && s'.queue == s.queue[1..] && |s'.mem| == |s.mem|
    && s'.intact == s.intact && s'.dma == s.dma && s'.issued == s.issued
    && var t := s.queue[0];
    && (forall u: nat :: u < |s.tiles| ==>
          s'.tiles[u] ==
            s.tiles[u].(status := s'.tiles[u].status, prev := s'.tiles[u].prev,
                        reuseCount := s.tiles[u].reuseCount - if s.tiles[t].prev == Some(u) then 1 else 0))
    && (forall u: nat :: u < |s.tiles| && u != t ==>
          s'.tiles[u].prev == s.tiles[u].prev && s'.tiles[u].status == s.tiles[u].status)
    && s'.tiles[t].prev == None && s'.tiles[t].status.Idle()
  }

  lemma RetireTable(s: State, s': State)
    requires HeadDone(s) && Retire(s, s') && s.tiles[s.queue[0]].prev != Some(s.queue[0])
    ensures Retired(s, s')
  {
    hide PadResult;
    assert |s'.mem| == |s.mem| by { PadLength(s, s'); }
  }

  lemma RetireKeepsQueue(s: State, s': State)
    requires QueueOk(s) && Retired(s, s')
    ensures QueueOk(s') && s.queue[0] !in s'.queue && forall u :: u in s'.queue ==> u in s.queue
  {
    assert s.queue[0] !in s'.queue && forall u :: u in s'.queue ==> u in s.queue;
    forall u: nat | u < |s'.tiles| ensures u in s'.queue <==> !s'.tiles[u].status.Idle() {
      assert u in s.queue <==> u == s.queue[0] || u in s'.queue;
    }
    forall u | u in s'.queue ensures s'.tiles[u].status == StatusOf(s'.tiles[u].place) {
      assert u != s.queue[0] && s.tiles[u].status == StatusOf(s.tiles[u].place);
    }
    hide StatusOf;
  }

  lemma RetireKeepsTables(s: State, s': State, lo: int)
    requires Inv(s, lo) && Retired(s, s')
    ensures PlacesOk(s', lo) && QueueOk(s') && LinksOk(s')
  {
    hide Clip, Safe, DmaOk, WillLoad, SourcesReady, ReadyTilesShow, Place.Meets, BuffersApart;
    assert PlacesOk(s', lo) by { hide QueueOk, LinksOk; }
    hide PlacesOk;
    RetireKeepsQueue(s, s');
    forall u: nat | u < |s.tiles| ensures s'.tiles[u].reuseCount == Readers(s'.tiles, s'.queue, u) {
      ReadersSame(s.tiles, s'.tiles, s'.queue, u);
    }
  }

  lemma RetireKeepsDma(s: State, s': State, lo: int)
    requires Inv(s, lo) && HeadDone(s) && Retired(s, s')
    ensures DmaOk(s')
  {
    hide Clip, PlacesOk, WillLoad, SourcesReady, ReadyTilesShow, Place.Meets, Delivers, HeadDone;
    NothingOutstanding(s, lo);
    forall i | 0 <= i < |s'.dma| ensures PendingOk(s', i) { assert PendingOk(s, i); }
    forall t | t in s'.queue && t < |s'.tiles| ensures LastIsOutstanding(s', t) { assert LastIsOutstanding(s, t); }
  }

  lemma PadLength(s: State, s': State)
    requires HeadDone(s) && Retire(s, s')
    ensures |s'.mem| == |s.mem|
  {
  }

  // The table entries that content depends on are unchanged.
  lemma GoodAfterPadding(s: State, s': State, lo: int, p: Place, u: nat, y: int, c: int, n: nat)
    requires PlacesOk(s, lo) && |s'.tiles| == |s.tiles| && u < |s.tiles| && s'.tiles[u].place == s.tiles[u].place
             && s'.dma == s.dma
    requires OnlyBuffer(s.mem, s'.mem, p) && Safe(p, lo, |s.mem|) && PadResult(s.mem, s'.mem, p)
    requires s.tiles[u].place == p || BuffersApart(p, s.tiles[u].place)
    requires s.tiles[u].place.Clipped().Has(0, y, c) && Good(s, u, y, c, n)
    ensures Good(s', u, y, c, n)
  {
    hide Clip, InSystem, PadResult, Place.Consistent, Comes, Times;
    var q := s.tiles[u].place;
    ClippedMeets(q, y, c);
    ClippedIsInside(q);
    FrameKept(s.mem, s'.mem, p, q.frame, lo, y, c);
    if q == p { PaddingKeepsClipped(s.mem, s'.mem, p, y, c); } else { OtherTileKept(s.mem, s'.mem, p, q, lo, y, c); }
  }

  lemma RetireKeepsContent(s: State, s': State, lo: int)
    requires Inv(s, lo) && HeadDone(s) && Retire(s, s')
    ensures WillLoad(s') && SourcesReady(s') && ReadyTilesShow(s')
  {
    hide Clip, Safe, DmaOk, Place.Meets, PadResult, Delivers, Good, Shows, OnlyBuffer, Loaded, InSystem;
    var t := s.queue[0];
    var p := s.tiles[t].place;
    HeadIsLoaded(s, lo);
    PadIsLocal(s, s', lo);
    forall u: nat | u < |s.tiles|
      ensures s'.tiles[u].place == s.tiles[u].place
              && (u != t ==> s'.tiles[u].status == s.tiles[u].status && s'.tiles[u].prev == s.tiles[u].prev) {}
    forall u, y, c | u in s'.intact && u < |s'.tiles| && s'.tiles[u].place.Clipped().Has(0, y, c)
      ensures Good(s', u, y, c, |s'.dma|)
    {
      GoodAfterPadding(s, s', lo, p, u, y, c, |s.dma|);
    }
    forall i, y, c | 0 <= i < |s'.dma| && s'.dma[i].op.fromPrev && s'.dma[i].op.box.Has(0, y, c)
      ensures SourceReady(s', i, y, c)
    {
      assert SourceReady(s, i, y, c);
      SourceIsClipped(s, lo, i, y, c);
      NothingOutstanding(s, lo);
      GoodAfterPadding(s, s', lo, p, s.tiles[s.dma[i].owner].prev.value, y, c, i);
    }
    forall u | u in s'.intact && u < |s'.tiles| && s'.tiles[u].status.Idle() ensures ShowsIfDefined(s', u) {
      if u == t {
        PadShows(s, s', lo);
      } else {
        assert ShowsIfDefined(s, u);
        var q := s.tiles[u].place;
        if q.Meets() || !q.frame.padding.EdgePadding? { ImageKept(s.mem, s'.mem, p, q, lo); }
      }
    }
  }

  lemma PadIsLocal(s: State, s': State, lo: int)
    requires Inv(s, lo) && HeadDone(s) && Retire(s, s')
    ensures var p := s.tiles[s.queue[0]].place; OnlyBuffer(s.mem, s'.mem, p) && PadResult(s.mem, s'.mem, p)
  {
    hide Clip, DmaOk, WillLoad, SourcesReady, ReadyTilesShow, OffTile, Shows, Loaded;
    OnlyBufferFromOffTile(s.mem, s'.mem, s.tiles[s.queue[0]].place);
  }

  lemma PadShows(s: State, s': State, lo: int)
    requires Inv(s, lo) && HeadDone(s) && Retire(s, s')
    ensures s'.tiles[s.queue[0]].place == s.tiles[s.queue[0]].place ==> ShowsIfDefined(s', s.queue[0])
  {
    hide Clip, DmaOk, WillLoad, SourcesReady, ReadyTilesShow, OffTile, Shows, Loaded;
    HeadIsLoaded(s, lo);
  }

  lemma RetireKeeps(s: State, s': State, lo: int)
    requires Inv(s, lo) && HeadDone(s) && Retire(s, s')
    ensures Inv(s', lo)
  {
    hide PlacesOk, DmaOk, WillLoad, SourcesReady, ReadyTilesShow, Retire, Retired, Readers;
    RetireTable(s, s');
    RetireKeepsTables(s, s', lo);
    RetireKeepsDma(s, s', lo);
    RetireKeepsContent(s, s', lo);
  }

  // ---- the user touches a free tile ----

  // A free tile is read by no outstanding transfer: that is what the reuse count is for.
  lemma FreeTileIsUnread(s: State, lo: int, t: nat)
    requires Inv(s, lo) && t < |s.tiles| && s.tiles[t].Free()
    ensures forall i :: 0 <= i < |s.dma| ==>
              s.dma[i].owner != t && (s.dma[i].owner < |s.tiles| ==> s.tiles[s.dma[i].owner].prev != Some(t))
  {
    hide PlacesOk, WillLoad, SourcesReady, ReadyTilesShow, Delivers;
    forall i | 0 <= i < |s.dma|
      ensures s.dma[i].owner != t && (s.dma[i].owner < |s.tiles| ==> s.tiles[s.dma[i].owner].prev != Some(t))
    {
      assert PendingOk(s, i);
      if s.tiles[s.dma[i].owner].prev == Some(t) { ReaderIsCounted(s.tiles, s.queue, s.dma[i].owner, t); }
    }
  }

  lemma TouchKeepsTables(s: State, s': State, lo: int, t: nat)
    requires Inv(s, lo) && Touch(s, s', t) && PlacesOk(s', lo)
    ensures QueueOk(s') && LinksOk(s')
  {
    hide Clip, PlacesOk, WillLoad, SourcesReady, ReadyTilesShow, Place.Meets, DmaOk;
    assert QueueOk(s') by { hide LinksOk; }
    forall u: nat | u < |s.tiles| && s.tiles[u].prev == Some(t) ensures false {
      ReaderIsCounted(s.tiles, s.queue, u, t);
    }
    forall u: nat | u < |s.tiles| ensures s'.tiles[u].reuseCount == Readers(s'.tiles, s'.queue, u) {
      ReadersSame(s.tiles, s'.tiles, s'.queue, u);
    }
  }

  lemma TouchKeepsDma(s: State, s': State, lo: int, t: nat)
    requires Inv(s, lo) && Touch(s, s', t)
    ensures DmaOk(s')
  {
    hide Clip, PlacesOk, WillLoad, SourcesReady, ReadyTilesShow, Place.Meets, Delivers;
    FreeTileIsUnread(s, lo, t);
    hide LinksOk;
    forall i | 0 <= i < |s'.dma| ensures PendingOk(s', i) { assert PendingOk(s, i); }
    forall u | u in s'.queue && u < |s'.tiles| ensures LastIsOutstanding(s', u) { assert LastIsOutstanding(s, u); }
  }

  lemma GoodAfterTouch(s: State, s': State, lo: int, t: nat, u: nat, y: int, c: int, n: nat)
    requires PlacesOk(s, lo) && Touch(s, s', t) && u < |s.tiles| && u != t
    requires s.tiles[u].place.Clipped().Has(0, y, c) && Good(s, u, y, c, n)
    ensures Good(s', u, y, c, n)
  {
    hide Clip, InSystem, Place.Consistent, Comes, Times;
    var p, q := s.tiles[t].place, s.tiles[u].place;
    ClippedMeets(q, y, c);
    ClippedIsInside(q);
    FrameKept(s.mem, s'.mem, p, q.frame, lo, y, c);
    OtherTileKept(s.mem, s'.mem, p, q, lo, y, c);
  }

  lemma TouchKeeps(s: State, s': State, lo: int, t: nat)
    requires Inv(s, lo) && Touch(s, s', t) && PlacesOk(s', lo)
    ensures Inv(s', lo)
  {
    hide Clip, Safe, DmaOk, Place.Meets, Delivers, Good, Shows, InSystem, QueueOk, LinksOk;
    TouchKeepsTables(s, s', lo, t);
    TouchKeepsDma(s, s', lo, t);
    FreeTileIsUnread(s, lo, t);
    forall u, y, c | u in s'.intact && u < |s'.tiles| && s'.tiles[u].place.Clipped().Has(0, y, c)
      ensures Good(s', u, y, c, |s'.dma|)
    {
      GoodAfterTouch(s, s', lo, t, u, y, c, |s.dma|);
    }
    forall i, y, c | 0 <= i < |s'.dma| && s'.dma[i].op.fromPrev && s'.dma[i].op.box.Has(0, y, c)
      ensures SourceReady(s', i, y, c)
    {
      assert SourceReady(s, i, y, c);
      SourceIsClipped(s, lo, i, y, c);
      GoodAfterTouch(s, s', lo, t, s.tiles[s.dma[i].owner].prev.value, y, c, i);
    }
    forall u | u in s'.intact && u < |s'.tiles| && s'.tiles[u].status.Idle() ensures ShowsIfDefined(s', u) {
      assert ShowsIfDefined(s, u);
      var p, q := s.tiles[t].place, s.tiles[u].place;
      if q.Meets() || !q.frame.padding.EdgePadding? { ImageKept(s.mem, s'.mem, p, q, lo); }
    }
  }

  // ---- runs ----

  ghost predicate Init(s: State, lo: int) {
    PlacesOk(s, lo) && s.queue == [] && s.dma == [] && 0 <= s.issued && s.intact == {}
    && forall t :: 0 <= t < |s.tiles| ==> s.tiles[t].Free() && s.tiles[t].prev == None
  }

  ghost predicate Next(s: State, s': State, lo: int) {
    || (exists t: nat, prev: Option<nat> :: CanRequest(s, t, prev) && s.tiles[t].Free() && s' == Request(s, t, prev))
    || (s.dma != [] && s' == Advance(s))
    || (HeadDone(s) && Retire(s, s'))
    || (PlacesOk(s', lo) && exists t :: Touch(s, s', t))
  }

  ghost predicate Run(states: seq<State>, lo: int) {
    states != [] && Init(states[0], lo) && forall i :: 0 <= i < |states| - 1 ==> Next(states[i], states[i + 1], lo)
  }

  lemma NextKeeps(s: State, s': State, lo: int)
    requires Inv(s, lo) && Next(s, s', lo)
    ensures Inv(s', lo)
  {
    hide Inv, Request, Touch, Retire, PlacesOk, HeadDone, Advance;
    if s.dma != [] && s' == Advance(s) {
      AdvanceKeeps(s, lo);
    } else if HeadDone(s) && Retire(s, s') {
      RetireKeeps(s, s', lo);
    } else if t: nat, prev: Option<nat> :| CanRequest(s, t, prev) && s.tiles[t].Free() && s' == Request(s, t, prev) {
      RequestKeeps(s, lo, t, prev);
    } else {
      var t :| Touch(s, s', t);
      TouchKeeps(s, s', lo, t);
    }
  }

  // In every state of every run the invariant holds.
  lemma {:induction false} RunKeeps(states: seq<State>, lo: int)
    requires Run(states, lo)
    ensures Inv(states[|states| - 1], lo)
  {
    hide Next, Inv;
    if |states| == 1 {
      InitIsOk(states[0], lo);
    } else {
      RunKeeps(states[..|states| - 1], lo);
      NextKeeps(states[|states| - 2], states[|states| - 1], lo);
    }
  }

  lemma InitIsOk(s: State, lo: int)
    requires Init(s, lo)
    ensures Inv(s, lo)
  {
    hide PlacesOk;
  }

  // ---- what a ready-check may do ----

  ghost predicate Progress(s: State, s': State) {
    || (s.dma != [] && s' == Advance(s))
    || (HeadDone(s) && Retire(s, s'))
  }

  // From step `from` on, only the engine and the retiring of finished tiles moved.
  ghost predicate OnlyProgress(states: seq<State>, from: nat) {
    forall i :: from <= i < |states| - 1 ==> Progress(states[i], states[i + 1])
  }

  // Tiles stay where they are; a prefix of the queue is retired, its tiles are idle, all others keep their status.
  ghost predicate RetiredPrefix(s: State, s': State) {
    && |s.tiles| == |s'.tiles| && s'.intact == s.intact && s'.issued == s.issued
    && |s'.queue| <= |s.queue| && s'.queue == s.queue[|s.queue| - |s'.queue|..]
    && |s'.dma| <= |s.dma| && s'.dma == s.dma[|s.dma| - |s'.dma|..]
    && forall t: nat :: t < |s.tiles| ==> KeptOrRetired(s, s', t)
  }

  ghost predicate KeptOrRetired(s: State, s': State, t: nat)
    requires t < |s.tiles| == |s'.tiles|
  {
    && s'.tiles[t].place == s.tiles[t].place
    && s'.tiles[t].status == if t in s.queue && t !in s'.queue then IdleStatus else s.tiles[t].status
  }

  // That is all a run of such steps does.
  lemma {:induction false} ProgressRetiresPrefix(states: seq<State>, lo: int, from: nat, to: nat)
    requires Run(states, lo) && OnlyProgress(states, from) && from <= to < |states|
    ensures RetiredPrefix(states[from], states[to])
  {
    hide RetiredPrefix, Progress, Init, Next, Inv;
    if from == to {
      NothingRetired(states[from]);
    } else {
      ProgressRetiresPrefix(states, lo, from, to - 1);
      assert Progress(states[to - 1], states[to]);
      RunKeeps(states[..to], lo);
      OneProgress(states[to - 1], states[to], lo);
      RetiredTwice(states[from], states[to - 1], states[to]);
    }
  }

  lemma NothingRetired(s: State)
    ensures RetiredPrefix(s, s)
  {
  }

  lemma RetiredTwice(s: State, s': State, s'': State)
    requires RetiredPrefix(s, s') && RetiredPrefix(s', s'')
    ensures RetiredPrefix(s, s'')
  {
    forall t: nat | t < |s.tiles| ensures KeptOrRetired(s, s'', t) {
      assert KeptOrRetired(s, s', t) && KeptOrRetired(s', s'', t);
    }
  }

  lemma OneProgress(s: State, s': State, lo: int)
    requires Inv(s, lo) && Progress(s, s')
    ensures RetiredPrefix(s, s')
  {
    hide Clip, Safe, DmaOk, WillLoad, SourcesReady, ReadyTilesShow, PlacesOk, PadResult;
    if HeadDone(s) && Retire(s, s') { RetireTable(s, s'); }
  }

  // Whatever the order of requests, reuse, DMA progress, ready-checks and user writes: a tile that was requested,
  // reported ready and left alone since shows its frame, extended over the tile's edges.
  lemma ReadyTileShowsExtendedFrame(states: seq<State>, lo: int, t: nat)
    requires Run(states, lo)
    requires var s := states[|states| - 1]; t < |s.tiles| && t in s.intact && s.tiles[t].status.Idle()
    ensures var s := states[|states| - 1]; var p := s.tiles[t].place;
            p.Meets() || !p.frame.padding.EdgePadding? ==> Shows(s.mem, p)
  {
    hide Next, Shows, Place.Meets;
    RunKeeps(states, lo);
    assert ShowsIfDefined(states[|states| - 1], t);
  }

  // ---- reuse refines the plain load ----

  function ExecAll(m: seq<byte>, ops: seq<Op>): (m': seq<byte>)
    ensures |m'| == |m|
    decreases |ops|
  {
    if ops == [] then m else ExecAll(ops[0].desc.Exec(m), ops[1..])
  }

  // The previous tile holds the frame's bytes wherever the two tiles and the frame overlap.
  ghost predicate Holds(m: seq<byte>, p: Place, prev: Option<Place>) {
    prev.Some? ==> forall y, c :: p.Clipped().Has(0, y, c) && prev.value.Extent().Has(0, y, c) ==>
      ByteAt(m, Cell(prev.value, y, c)) == ByteAt(m, FrameCell(p.frame, y, c))
  }

  lemma {:induction false} ExecAllBrings(p: Place, prev: Option<Place>, ops: seq<Op>, lo: int, m: seq<byte>)
    requires Safe(p, lo, |m|) && p.Meets() && AllDeliver(p.frame, p.Grid(), p.Clipped(), prev, ops) && Holds(m, p, prev)
    requires prev.Some? ==> Safe(prev.value, lo, |m|) && BuffersApart(p, prev.value) && prev.value.frame == p.frame
    ensures forall a :: 0 <= a < |m| && OffTile(p, a) ==> ExecAll(m, ops)[a] == m[a]
    ensures forall y, c :: p.Extent().Has(0, y, c) ==>
              ByteAt(ExecAll(m, ops), Cell(p, y, c)) ==
                ByteAt(m, if Arrives(ops, y, c) then FrameCell(p.frame, y, c) else Cell(p, y, c))
    decreases |ops|
  {
    hide Clip, Place.Consistent, InSystem, OffTile, Times;
    if ops != [] {
      var m1, rest := ops[0].desc.Exec(m), ops[1..];
      assert ops[0] in ops && forall op :: op in rest ==> op in ops;
      TransferEffect(p, prev, ops[0], lo, m, m1);
      OnlyBufferFromOffTile(m, m1, p);
      ClippedIsInside(p);
      forall y, c | p.Clipped().Has(0, y, c)
        ensures ByteAt(m1, FrameCell(p.frame, y, c)) == ByteAt(m, FrameCell(p.frame, y, c))
      {
        FrameKept(m, m1, p, p.frame, lo, y, c);
      }
      assert Holds(m1, p, prev) by {
        if prev.Some? {
          forall y, c | p.Clipped().Has(0, y, c) && prev.value.Extent().Has(0, y, c)
            ensures ByteAt(m1, Cell(prev.value, y, c)) == ByteAt(m1, FrameCell(p.frame, y, c))
          {
            OtherTileKept(m, m1, p, prev.value, lo, y, c);
          }
        }
      }
      ExecAllBrings(p, prev, rest, lo, m1);
      forall y, c | p.Extent().Has(0, y, c)
        ensures ByteAt(ExecAll(m, ops), Cell(p, y, c)) ==
                  ByteAt(m, if Arrives(ops, y, c) then FrameCell(p.frame, y, c) else Cell(p, y, c))
      {
        FirstOrRest(ops, y, c);
        if Arrives(ops, y, c) { ArrivesInClip(p, prev, ops, y, c); }
      }
    }
  }

  lemma FirstOrRest(ops: seq<Op>, y: int, c: int)
    requires ops != []
    ensures Arrives(ops, y, c) <==> ops[0].box.Has(0, y, c) || Arrives(ops[1..], y, c)
  {
    assert ops == [ops[0]] + ops[1..];
    ArrivesConcat([ops[0]], ops[1..], y, c);
    if ops[0].box.Has(0, y, c) { ArrivesAlone(ops[0], y, c); }
  }

  lemma ArrivesInClip(p: Place, prev: Option<Place>, ops: seq<Op>, y: int, c: int)
    requires AllDeliver(p.frame, p.Grid(), p.Clipped(), prev, ops) && Arrives(ops, y, c)
    ensures p.Clipped().Has(0, y, c)
  {
    var op :| op in ops && op.box.Has(0, y, c);
    InClipOf(p, prev, op);
  }

  // Loading with reuse leaves all of memory as the one full copy would.
  lemma ReuseRefinesPlainLoad(p: Place, q: Place, lo: int, m: seq<byte>)
    requires Safe(p, lo, |m|) && p.Meets() && Safe(q, lo, |m|) && BuffersApart(p, q) && q.frame == p.frame
             && Holds(m, p, Some(q))
    ensures ExecAll(m, LoadOps(p, Some(q))) == ExecAll(m, LoadOps(p, None))
  {
    hide Clip, LoadOps, Place.Consistent, InSystem, Times, ExecAll, Delivers, Holds;
    var ops, plain := LoadOps(p, Some(q)), LoadOps(p, None);
    LoadOpsDeliver(p, Some(q));
    LoadOpsDeliver(p, None);
    assert Holds(m, p, None) by { NothingHeld(m, p); }
    ExecAllBrings(p, Some(q), ops, lo, m);
    ExecAllBrings(p, None, plain, lo, m);
    forall a | 0 <= a < |m| ensures ExecAll(m, ops)[a] == ExecAll(m, plain)[a] {
      if !OffTile(p, a) {
        var y :| p.Y0() <= y <= p.Y1() && InRow(p, y, a);
        var c := a - RowStart(p, y) + p.frame.Col(p.X0());
        assert p.Extent().Has(0, y, c) by { ColOrder(p.frame, p.X0(), p.X1() + 1); }
        CellInRow(p, y, c);
        if Arrives(ops, y, c) { ArrivesInClip(p, Some(q), ops, y, c); }
        if Arrives(plain, y, c) { ArrivesInClip(p, None, plain, y, c); }
      }
    }
  }

  lemma NothingHeld(m: seq<byte>, p: Place)
    ensures Holds(m, p, None)
  {
  }
}
