// The line ring over time: what the lines stand for, who writes them, and what every step of either driver keeps.

module LineRuns {
  import opened Options
  import opened LineFifo
  import opened Modular

  /** The handler with what it means. The FIFO's lines are numbered over the whole run; `consumerLine` and
      `producerLine` are the numbers of the first lines of the two sides' frames. The writer has a count of its own,
      whatever the FIFO does: it writes line after line around the ring, `next` is the line it writes next and `ahead`
      how many it has written since it last announced an entry. Line n of the FIFO stands for the writer's line
      n + shift. `ring` holds the writer's line last written at each index, -1 before the first; line 0 goes to index
      `start`. `due` lists the writer's lines the reader asked for, `delivered` what it found. With `post` the writer
      is the task and the reader the hardware. */
  datatype World = World(post: bool, h: Handler, start: nat, consumerLine: nat, producerLine: nat,
                         ring: seq<int>, next: nat, ahead: nat, shift: int, due: seq<int>, delivered: seq<int>)
  {
    function Read(): int
      requires h.Sides()
    {
      consumerLine + h.fifo[h.consumer].head
    }

    function Written(): int
      requires h.Sides()
    {
      producerLine + h.fifo[h.producer].tail
    }

    function Announced(): int { next - ahead }

    // Where the FIFO expects its line n, and where the writer puts its line n.
    function At(n: int): int
      requires h.base.depth > 0
    {
      Index(start + n, h.base.depth)
    }

    // The FIFO's line n is found where the FIFO expects it.
    predicate InPlace(n: int)
      requires h.base.depth > 0
    {
      0 <= At(n) < |ring| && ring[At(n)] == n + shift
    }

    // The writer's line x is still where the writer put it.
    predicate Holds(x: int)
      requires h.base.depth > 0
    {
      0 <= At(x) < |ring| && ring[At(x)] == x
    }

    // The FIFO and the writer agree on the index of a line.
    predicate InStep()
      requires h.base.depth > 0
    {
      shift % h.base.depth == 0
    }

    // The unread lines and those written ahead fit into the ring together.
    predicate Roomy()
      requires h.Sides()
    {
      Written() + ahead - Read() <= h.base.depth
    }
  }

  function Index(n: int, d: int): int
    requires d > 0
  {
    n % d
  }

  predicate Whole(lines: int, entry: int)
    requires entry > 0
  {
    lines % entry == 0
  }

  // Whole entries in a frame, and a ring no longer than a frame.
  predicate Suits(b: Info) {
    0 < b.entry && 0 < b.depth <= b.frame && Whole(b.frame, b.entry) && b.last == b.entry && b.used == b.frame
  }

  ghost predicate SideOk(f: Fifo, b: Info, start: nat, first: nat)
    requires b.depth > 0 && b.entry > 0
  {
    f.depth == b.depth && f.max == b.frame && f.offset == Index(start + first, b.depth) && f.head <= f.tail <= f.max
      && Whole(f.tail, b.entry)
  }

  // The ring without its contents: the consumer is in the producer's frame or exactly one behind.
  ghost predicate Linked(w: World) {
    && w.h.Sides() && Suits(w.h.base)
    && (var h, b, c, p := w.h, w.h.base, w.h.consumer, w.h.producer;
        && h.info[c] == b && h.info[p] == b
        && SideOk(h.fifo[c], b, w.start, w.consumerLine) && SideOk(h.fifo[p], b, w.start, w.producerLine)
        && h.fifo[p].tail < b.frame && Whole(w.producerLine, b.entry)
        && (c == p ==> w.producerLine == w.consumerLine)
        && (c != p ==>
              w.producerLine == w.consumerLine + b.frame && h.fifo[c].tail == b.frame && h.fifo[c].head < b.frame
                && h.fifo[p].head == 0)
        && w.Written() - w.Read() <= b.depth
        && (h.status == EHW_OK ==> !h.fifo[c].overflow && !h.fifo[p].overflow)
        && (h.status == EHW_RECOVERY_DONE ==> c == p && h.fifo[p] == NewFifo(b, h.fifo[p].offset))
        && h.status != EHW_ERROR_FRAME_SWITCH_FAIL)
  }

  // Every cell holds a line that belongs there, or none yet.
  ghost predicate Placed(w: World)
    requires w.h.base.depth > 0
  {
    forall k :: 0 <= k < |w.ring| ==> w.ring[k] == -1 || (w.ring[k] >= 0 && w.At(w.ring[k]) == k)
  }

  // The writer's last lines are where it put them.
  ghost predicate Latest(w: World)
    requires w.h.base.depth > 0
  {
    forall x :: 0 <= x < w.next && w.next - w.h.base.depth <= x ==> w.Holds(x)
  }

  // The writer's lines from the first unread one on that it has not yet come round to again.
  predicate InReach(w: World, x: int)
    requires w.h.Sides()
  {
    w.Read() + w.shift <= x < w.next && w.next - w.h.base.depth <= x
  }

  ghost predicate Writing(w: World)
    requires Linked(w)
  {
    && |w.ring| == w.h.base.depth && w.ahead <= w.h.base.entry && w.ahead <= w.next
    && (if w.post
        then w.start == 0 && Whole(w.h.base.depth, w.h.base.entry) && w.shift == 0 && w.Announced() == w.Written()
             && (w.h.status == EHW_RECOVERY_DONE ==> w.ahead == 0)
        else Placed(w) && Latest(w))
    && (w.h.status == EHW_OK ==> Following(w))
  }

  // In the normal status the FIFO's count is the writer's, shifted, and what can still be there is there.
  ghost predicate Following(w: World)
    requires Linked(w)
  {
    && w.Written() + w.shift == w.Announced() && 0 <= w.Read() + w.shift
    && forall x :: InReach(w, x) ==> w.Holds(x)
  }

  // All lines asked for so far are before this one.
  function Limit(w: World): int
    requires w.h.Sides()
  {
    if w.h.status == EHW_OK then w.Read() + w.shift else w.Announced()
  }

  // The lines asked for are numbered upwards without repetition.
  ghost predicate InOrder(w: World)
    requires w.h.Sides()
  {
    && |w.delivered| == |w.due|
    && (forall i :: 0 <= i < |w.due| ==> w.due[i] < Limit(w))
    && (forall i, j :: 0 <= i < j < |w.due| ==> w.due[i] < w.due[j])
  }

  ghost predicate Inv(w: World) { Linked(w) && Writing(w) && InOrder(w) }

  // ---- the unread lines ----

  /** The unread lines of both sides sit at distinct indices, at most a ring of them. */
  lemma UnreadAreApart(w: World, m: int, n: int)
    requires Linked(w) && w.Read() <= m < n < w.Written()
    ensures w.Written() - w.Read() <= w.h.base.depth
    ensures w.At(m) != w.At(n)
  {
    ModApart(w.start + m, w.start + n, w.h.base.depth);
  }

  // Line i of a side is at the index the code computes from its head or tail.
  lemma IndexOf(f: Fifo, b: Info, start: nat, first: nat, i: nat)
    requires b.depth > 0 && b.entry > 0 && SideOk(f, b, start, first)
    ensures (i + f.offset) % f.depth == Index(start + first + i, b.depth)
  {
    ModAdd(start + first, i, b.depth);
  }

  lemma AtInRing(w: World, n: int)
    requires w.h.base.depth > 0
    ensures 0 <= w.At(n) < w.h.base.depth
  {
  }

  lemma SameRemainder(x: int, y: int, d: int)
    requires d > 0
    ensures x % d == (x + y) % d <==> y % d == 0
  {
    ModAdd(x, y, d);
    ModAdd(y, x % d, d);
    if y % d == 0 {
      Small(x % d, d);
    } else {
      var m, n := x % d, y % d;
      if m + n < d { Small(m + n, d); } else { ModIs(m + n, 1, m + n - d, d); }
      ModAdd(y, m, d);
    }
  }

  // The last line before `top` that goes to the index of line x.
  lemma LastAt(w: World, x: int, top: int) returns (m: int)
    requires w.h.base.depth > 0 && x < top
    ensures top - w.h.base.depth <= m < top && x <= m && w.At(m) == w.At(x)
    ensures m == x <==> top - w.h.base.depth <= x
  {
    var d := w.h.base.depth;
    var q, r := (top - 1 - x) / d, (top - 1 - x) % d;
    m := top - 1 - r;
    Products(q, d);
    MultipleOf(q, d);
    SameRemainder(w.start + x, q * d, d);
    assert m == x + q * d;
    hide *;
  }

  lemma ReadIsBehind(w: World)
    requires Linked(w)
    ensures w.Read() <= w.Written()
  {
    hide Index, Whole;
  }

  /** An unread line is where the FIFO expects it if and only if the FIFO is in step with the writer and the writer has
      not come round to the line's place again. */
  lemma LineInPlace(w: World, n: int)
    requires Inv(w) && w.h.status == EHW_OK && w.Read() <= n < w.Written()
    ensures w.InPlace(n) <==> w.InStep() && w.next - w.h.base.depth <= n + w.shift
  {
    AtInRing(w, n);
    SameRemainder(w.start + n, w.shift, w.h.base.depth);
    if w.InStep() {
      var m := LastAt(w, n + w.shift, w.next);
      assert InReach(w, m) && w.Holds(m);
    }
    hide Linked, InOrder, Whole;
  }

  /** All unread lines are where the FIFO expects them if and only if there are none, or the FIFO is in step and the
      lines written ahead fit beside them. */
  lemma UnreadInPlace(w: World)
    requires Inv(w) && w.h.status == EHW_OK
    ensures (forall n :: w.Read() <= n < w.Written() ==> w.InPlace(n)) <==>
            w.Read() == w.Written() || (w.InStep() && w.Roomy())
  {
    ReadIsBehind(w);
    forall n | w.Read() <= n < w.Written()
      ensures w.InPlace(n) <==> w.InStep() && w.next - w.h.base.depth <= n + w.shift
    {
      LineInPlace(w, n);
    }
    assert w.Read() < w.Written() ==> (w.InPlace(w.Read()) <==> w.InStep() && w.Roomy());
    hide Linked, InOrder, Index;
  }

  // ---- what the writer does ----

  // The next line around the ring, whatever the FIFO holds.
  function WroteLine(w: World): World
    requires w.h.base.depth > 0 && |w.ring| == w.h.base.depth
  {
    AtInRing(w, w.next);
    w.(ring := w.ring[w.At(w.next) := w.next], next := w.next + 1, ahead := w.ahead + 1)
  }

  /** The writer may come round to unread lines: what it writes is known all the same. */
  lemma WriteKeeps(w: World)
    requires Inv(w) && w.ahead < w.h.base.entry && (w.post ==> w.h.status == EHW_OK)
    ensures Inv(WroteLine(w)) && WroteLine(w).Read() == w.Read() && WroteLine(w).Written() == w.Written()
  {
    var g := WroteLine(w);
    AtInRing(w, w.next);
    forall x | x < g.next && g.next - g.h.base.depth <= x && (x == w.next || w.Holds(x)) ensures g.Holds(x) {
      AtInRing(w, x);
      if x < w.next { ModApart(w.start + x, w.start + w.next, w.h.base.depth); }
    }
    if w.h.status == EHW_OK {
      forall x | InReach(g, x) ensures g.Holds(x) { assert x < w.next ==> InReach(w, x) && w.Holds(x); }
    }
    if !w.post {
      forall x | 0 <= x < g.next && g.next - g.h.base.depth <= x ensures g.Holds(x) {
        assert x < w.next ==> w.Holds(x);
      }
    }
    hide Index, Whole;
  }

  // With the same ring, start and count the cells hold the same.
  lemma SameCells(w: World, g: World)
    requires w.h.base.depth > 0 && g.h.base == w.h.base && g.ring == w.ring && g.start == w.start && g.next == w.next
    ensures Placed(w) ==> Placed(g)
    ensures Latest(w) ==> Latest(g)
    ensures forall x :: w.Holds(x) ==> g.Holds(x)
  {
    hide Index;
    if Placed(w) {
      forall k | 0 <= k < |g.ring| ensures g.ring[k] == -1 || (g.ring[k] >= 0 && g.At(g.ring[k]) == k) {
        assert w.ring[k] == -1 || w.At(w.ring[k]) == k;
      }
    }
    if Latest(w) {
      forall x | 0 <= x < g.next && g.next - g.h.base.depth <= x ensures g.Holds(x) { assert w.Holds(x); }
    }
  }

  // ---- what a push announces ----

  predicate CanPush(w: World) { w.ahead == w.h.base.entry || (w.post && w.h.status != EHW_OK) }

  // A refused entry is written again by the task; the hardware goes on.
  function Pushed(w: World, element: nat): World
    requires w.h.Sides() && w.h.fifo[w.h.producer].depth > 0 && w.ahead <= w.next
  {
    var (h', ok) := Push(w.h, element);
    w.(h := h', ahead := 0, next := if w.post && !ok then w.next - w.ahead else w.next,
       producerLine := if ok && h'.producer != w.h.producer then w.producerLine + w.h.base.frame else w.producerLine)
  }

  // A frame further on, the first line moves by a frame.
  lemma NextFrame(w: World)
    requires Linked(w)
    ensures NextOffset(w.h) == Index(w.start + w.producerLine + w.h.base.frame, w.h.base.depth)
    ensures Whole(0, w.h.base.entry) && Whole(w.producerLine + w.h.base.frame, w.h.base.entry)
  {
    MultipleAdd(w.producerLine, w.h.base.frame, w.h.base.entry);
    ModAdd(w.start + w.producerLine, w.h.base.frame, w.h.base.depth);
    Small(0, w.h.base.entry);
  }

  // One more entry fits in the frame.
  lemma NextEntryFits(w: World)
    requires Linked(w)
    ensures var h := w.h;
            h.fifo[h.producer].tail + h.base.entry <= h.base.frame
              && Whole(h.fifo[h.producer].tail + h.base.entry, h.base.entry)
  {
    var h := w.h;
    MultipleGap(h.fifo[h.producer].tail, h.base.frame, h.base.entry);
    ModIs(h.base.entry, 1, 0, h.base.entry);
    MultipleAdd(h.fifo[h.producer].tail, h.base.entry, h.base.entry);
  }

  lemma PushLinked(w: World, element: nat)
    requires Linked(w) && w.ahead <= w.next
    ensures Linked(Pushed(w, element))
  {
    NextFrame(w);
    NextEntryFits(w);
    hide Index, Whole, NextOffset;
    var (h', ok) := Push(w.h, element);
    if ok && h'.producer != w.h.producer { PushSwitchesEmptied(w, element); }
  }

  /** A frame is completed only when the consumer has left the other side: the switch resets nothing unread. */
  lemma PushSwitchesEmptied(w: World, element: nat)
    requires Linked(w) && Push(w.h, element).1 && Push(w.h, element).0.producer != w.h.producer
    ensures w.h.consumer == w.h.producer
  {
    hide Index, Whole, NextOffset, NewFifo;
  }

  // The element count is one the code takes: between one and two entries, or anything for the last entry of a frame.
  predicate Accepts(w: World, element: nat)
    requires w.h.Sides()
  {
    var entry, f := w.h.base.entry, w.h.fifo[w.h.producer];
    entry <= element <= 2 * entry || f.tail == f.max - entry
  }

  /** A push is taken exactly in the normal status, with an acceptable count, when the entry fits beside the unread
      lines; otherwise the status says what was wrong. */
  lemma PushIsTaken(w: World, element: nat)
    requires Linked(w)
    ensures var fits, (h', ok) := w.Written() + w.h.base.entry - w.Read() <= w.h.base.depth, Push(w.h, element);
            && (ok <==> w.h.status == EHW_OK && Accepts(w, element) && fits)
            && h'.status == if w.h.status != EHW_OK || ok then w.h.status
                            else if Accepts(w, element) then EHW_ERROR_OVER_FLOW else EHW_ERROR_PARMA_INVALID
  {
    hide Index, Whole, NextOffset;
  }

  // What a push does to the counts.
  lemma PushMoves(w: World, element: nat)
    requires Linked(w) && w.ahead <= w.next
    ensures var g, ok := Pushed(w, element), Push(w.h, element).1;
            && g.h.Sides() && g.Read() == w.Read() && g.h.base == w.h.base
            && (ok ==> w.h.status == g.h.status == EHW_OK && g.Written() == w.Written() + w.h.base.entry)
            && (!ok ==> g.h.status != EHW_OK && g.Written() == w.Written())
  {
    hide Index, Whole, NextOffset;
    if Push(w.h, element).1 && Push(w.h, element).0.producer != w.h.producer { PushSwitchesEmptied(w, element); }
  }

  /** A push that is taken announces the entry just written and leaves every unread line where it is; one that is
      refused announces nothing. */
  lemma PushKeeps(w: World, element: nat)
    requires Inv(w) && CanPush(w)
    ensures Inv(Pushed(w, element)) && Pushed(w, element).ring == w.ring
    ensures Pushed(w, element).Read() == w.Read()
    ensures Pushed(w, element).Written() == w.Written() + if Push(w.h, element).1 then w.h.base.entry else 0
  {
    var g := Pushed(w, element);
    PushLinked(w, element);
    PushMoves(w, element);
    ReadIsBehind(w);
    hide Linked, Index, Push, Whole;
    if !w.post { SameCells(w, g); }
    if g.h.status == EHW_OK {
      forall x | InReach(g, x) ensures g.Holds(x) { assert InReach(w, x) && w.Holds(x); }
    }
  }

  // ---- what a pop reads ----

  // The lines a segment of the ring holds.
  function Held(ring: seq<int>, s: Segment): seq<int>
    requires s.first + s.lines <= |ring|
  {
    ring[s.first..s.first + s.lines]
  }

  // The index of the i-th line of two segments.
  function Place(s: Segment, t: Segment, i: nat): nat {
    if i < s.lines then s.first + i else t.first + (i - s.lines)
  }

  /** The segments to take lie inside the buffer and are the next unread lines in order. */
  lemma SegmentsAreNext(w: World, lines: nat)
    requires Linked(w) && EntryToPop(w.h, lines).Some?
    ensures var (s, t) := EntryToPop(w.h, lines).value;
            && s.first + s.lines <= w.h.base.depth && t.first + t.lines <= w.h.base.depth && s.lines + t.lines == lines
            && forall i :: 0 <= i < lines ==> Place(s, t, i) == w.At(w.Read() + i)
  {
    TakeFits(w, lines);
    var (s, t) := EntryToPop(w.h, lines).value;
    forall i | 0 <= i < lines ensures Place(s, t, i) == w.At(w.Read() + i) { TakeIndex(w, lines, i); }
  }

  lemma TakeFits(w: World, lines: nat)
    requires Linked(w) && EntryToPop(w.h, lines).Some?
    ensures var (s, t) := EntryToPop(w.h, lines).value;
            s.first + s.lines <= w.h.base.depth && t.first + t.lines <= w.h.base.depth && s.lines + t.lines == lines
  {
    hide Index, Whole;
  }

  lemma TakeIndex(w: World, lines: nat, i: nat)
    requires Linked(w) && EntryToPop(w.h, lines).Some? && i < lines
    ensures var (s, t) := EntryToPop(w.h, lines).value; Place(s, t, i) == w.At(w.Read() + i)
  {
    var f, d := w.h.fifo[w.h.consumer], w.h.base.depth;
    var start := (f.head + f.offset) % d;
    IndexOf(f, w.h.base, w.start, w.consumerLine, f.head);
    ModAdd(w.start + w.Read(), i, d);
    if start + i < d { Small(start + i, d); } else { ModIs(start + i, 1, start + i - d, d); }
    hide Linked;
  }

  function Numbers(from: int, count: nat): (r: seq<int>)
    ensures |r| == count && forall i :: 0 <= i < count ==> r[i] == from + i
  {
    seq(count, i => from + i)
  }

  // How many lines a take of `lines` gets.
  function Got(w: World, lines: nat): nat
    requires w.h.Sides() && w.h.fifo[w.h.consumer].depth > 0
  {
    if w.h.status == EHW_OK && EntryToPop(w.h, lines).Some? then lines else 0
  }

  // The reader moves on to the other side with the last line of a frame.
  function Moved(w: World, lines: nat): World
    requires w.h.Sides()
  {
    var h' := Pop(w.h, lines).0;
    w.(h := h', consumerLine := if h'.consumer != w.h.consumer then w.producerLine else w.consumerLine)
  }

  // A take: the lines are read through the segments and popped.
  function Taken(w: World, lines: nat): World
    requires Linked(w) && |w.ring| == w.h.base.depth
  {
    var moved := Moved(w, lines);
    if w.h.status == EHW_OK && EntryToPop(w.h, lines).Some? then
      SegmentsAreNext(w, lines);
      var (s, t) := EntryToPop(w.h, lines).value;
      moved.(due := w.due + Numbers(w.Read() + w.shift, lines),
             delivered := w.delivered + Held(w.ring, s) + Held(w.ring, t))
    else moved
  }

  // What the ring holds at the places of n lines.
  function Found(w: World, from: int, n: nat): (r: seq<int>)
    requires w.h.base.depth > 0
    ensures |r| == n
  {
    seq(n, i => if 0 <= w.At(from + i) < |w.ring| then w.ring[w.At(from + i)] else -1)
  }

  // It is what belongs there exactly when each line is in place.
  lemma FoundIsRight(w: World, from: int, n: nat)
    requires w.h.base.depth > 0 && |w.ring| == w.h.base.depth
    ensures Found(w, from, n) == Numbers(from + w.shift, n) <==> forall k :: from <= k < from + n ==> w.InPlace(k)
  {
    var f, r := Found(w, from, n), Numbers(from + w.shift, n);
    forall k | from <= k < from + n ensures w.InPlace(k) <==> f[k - from] == r[k - from] { AtInRing(w, k); }
    if forall k :: from <= k < from + n ==> w.InPlace(k) {
      forall i | 0 <= i < n ensures f[i] == r[i] { assert w.InPlace(from + i); }
    }
  }

  lemma TakeLinked(w: World, lines: nat)
    requires Linked(w) && |w.ring| == w.h.base.depth
    ensures Linked(Taken(w, lines)) && Taken(w, lines).h.status == w.h.status && Taken(w, lines).h.base == w.h.base
    ensures Taken(w, lines).Written() == w.Written()
    ensures Taken(w, lines).Read() == w.Read() + Got(w, lines)
  {
    PopLinked(w, lines);
    hide Index, Whole, Held, Pop, EntryToPop, Got, Moved, Numbers;
    SameCounts(Moved(w, lines), Taken(w, lines));
  }

  lemma PopLinked(w: World, lines: nat)
    requires Linked(w)
    ensures var g := Moved(w, lines);
            && Linked(g) && g.h.status == w.h.status && g.h.base == w.h.base
            && g.Written() == w.Written() && g.Read() == w.Read() + Got(w, lines)
  {
    hide Index, Whole;
  }

  lemma SameCounts(w: World, g: World)
    requires Linked(w) && g.h == w.h && g.start == w.start && g.consumerLine == w.consumerLine
             && g.producerLine == w.producerLine
    ensures Linked(g) && g.Read() == w.Read() && g.Written() == w.Written()
  {
    hide Index, Whole;
  }

  /** A take reads the unread lines' places, in order, whatever is there; asking for more than there are reads nothing.
      */
  lemma TakeReads(w: World, lines: nat)
    requires Inv(w)
    ensures Taken(w, lines).due == w.due + Numbers(w.Read() + w.shift, Got(w, lines))
    ensures Taken(w, lines).delivered == w.delivered + Found(w, w.Read(), Got(w, lines))
  {
    if w.h.status == EHW_OK && EntryToPop(w.h, lines).Some? {
      SegmentsHold(w, lines);
      hide Linked, Writing, InOrder, EntryToPop, Pop, Found, Held, Index;
    } else {
      hide Linked, Writing, InOrder, Pop;
      assert Numbers(w.Read() + w.shift, 0) == [] && Found(w, w.Read(), 0) == [];
    }
  }

  lemma SegmentsHold(w: World, lines: nat)
    requires Linked(w) && |w.ring| == w.h.base.depth && EntryToPop(w.h, lines).Some?
    ensures var (s, t) := EntryToPop(w.h, lines).value;
            && s.first + s.lines <= |w.ring| && t.first + t.lines <= |w.ring|
            && forall before: seq<int> ::
              before + Held(w.ring, s) + Held(w.ring, t) == before + Found(w, w.Read(), lines)
  {
    SegmentsAreNext(w, lines);
    var (s, t) := EntryToPop(w.h, lines).value;
    HeldAt(w.ring, s, t);
    var f, h := Found(w, w.Read(), lines), Held(w.ring, s) + Held(w.ring, t);
    forall i | 0 <= i < lines ensures f[i] == h[i] { AtInRing(w, w.Read() + i); }
    assert f == h;
    hide *;
    forall before: seq<int> ensures before + Held(w.ring, s) + Held(w.ring, t) == before + f {
      assert before + Held(w.ring, s) + Held(w.ring, t) == before + (Held(w.ring, s) + Held(w.ring, t));
    }
  }

  /** A take delivers exactly the lines that are due if and only if it gets none, or the FIFO is in step and the lines
      written ahead fit beside the unread ones. */
  lemma TakeIsRight(w: World, lines: nat)
    requires Inv(w)
    ensures Found(w, w.Read(), Got(w, lines)) == Numbers(w.Read() + w.shift, Got(w, lines)) <==>
            Got(w, lines) == 0 || (w.InStep() && w.Roomy())
  {
    var n := Got(w, lines);
    FoundIsRight(w, w.Read(), n);
    if n > 0 {
      forall k | w.Read() <= k < w.Read() + n
        ensures k < w.Written() && (w.InPlace(k) <==> w.InStep() && w.next - w.h.base.depth <= k + w.shift)
      {
        TakenIsUnread(w, lines, k - w.Read());
        LineInPlace(w, k);
      }
      assert w.InPlace(w.Read()) <==> w.InStep() && w.Roomy();
      hide Linked, InOrder, EntryToPop, Found, Index;
    }
  }

  lemma TooMany(h: Handler, lines: nat)
    requires h.Sides() && h.status == EHW_OK && 0 < h.fifo[h.consumer].Unread() < lines
             && h.fifo[h.consumer].tail <= h.fifo[h.consumer].max
    requires h.fifo[h.consumer].head <= h.info[h.consumer].frame
    ensures Pop(h, lines) == (h, true)
  {
    assert h.fifo[h.consumer := h.fifo[h.consumer]] == h.fifo;
  }

  lemma HeldAt(ring: seq<int>, s: Segment, t: Segment)
    requires s.first + s.lines <= |ring| && t.first + t.lines <= |ring|
    ensures |Held(ring, s) + Held(ring, t)| == s.lines + t.lines
    ensures forall i :: 0 <= i < s.lines + t.lines ==> (Held(ring, s) + Held(ring, t))[i] == ring[Place(s, t, i)]
  {
  }

  lemma TakenIsUnread(w: World, lines: nat, i: nat)
    requires Linked(w) && EntryToPop(w.h, lines).Some? && i < lines
    ensures w.Read() + i < w.Written()
  {
    hide Index, Whole;
  }

  lemma TakeKeeps(w: World, lines: nat)
    requires Inv(w)
    ensures Inv(Taken(w, lines))
  {
    TakeReads(w, lines);
    TakeLinked(w, lines);
    TakeStays(w, lines);
    ReadIsBehind(Taken(w, lines));
    TakeMoves(w, Taken(w, lines), Got(w, lines));
  }

  // Reading on from n lines further.
  lemma TakeMoves(w: World, g: World, n: nat)
    requires Inv(w) && Linked(g) && g.h.base == w.h.base && g.h.status == w.h.status && (n > 0 ==> w.h.status == EHW_OK)
    requires g.Written() == w.Written() && g.Read() == w.Read() + n
    requires g.ring == w.ring && g.start == w.start && g.shift == w.shift && g.next == w.next && g.ahead == w.ahead
             && g.post == w.post
    requires g.due == w.due + Numbers(w.Read() + w.shift, n) && |g.delivered| == |w.delivered| + n
    ensures Inv(g)
  {
    assert w.h.Sides() && g.h.Sides() && w.h.base.depth > 0;
    hide Linked, Index, Whole;
    SameCells(w, g);
    if g.h.status == EHW_OK {
      forall x | InReach(g, x) ensures g.Holds(x) { assert InReach(w, x) && w.Holds(x); }
      hide Placed, Latest, World.Holds;
      Extended(w.due, w.Read() + w.shift, n, g.due);
    } else {
      assert g.due == w.due;
    }
  }

  // Numbers from the bound on, added at the end, keep the order.
  lemma Extended(log: seq<int>, from: int, n: nat, log': seq<int>)
    requires (forall i :: 0 <= i < |log| ==> log[i] < from) && (forall i, j :: 0 <= i < j < |log| ==> log[i] < log[j])
    requires log' == log + Numbers(from, n)
    ensures forall i :: 0 <= i < |log'| ==> log'[i] < from + n
    ensures forall i, j :: 0 <= i < j < |log'| ==> log'[i] < log'[j]
  {
    forall i | 0 <= i < |log'| ensures log'[i] == if i < |log| then log[i] else from + (i - |log|) {}
  }

  lemma TakeStays(w: World, lines: nat)
    requires Linked(w) && |w.ring| == w.h.base.depth
    ensures var g := Taken(w, lines);
            && g.ring == w.ring && g.start == w.start && g.shift == w.shift && g.next == w.next && g.ahead == w.ahead
            && g.post == w.post && (Got(w, lines) == 0 ==> g.due == w.due)
  {
    hide Linked, Held;
  }

  // ---- recovery ----

  // A reset drops what is unread; the producer's next line starts the next frame. The task writes on from there, the
  // hardware from wherever it is.
  function ResetTo(w: World, h': Handler): World
    requires w.h.Sides()
  {
    var line := w.producerLine + w.h.base.frame;
    w.(h := h', consumerLine := line, producerLine := line, next := if w.post then line else w.next,
       ahead := if w.post then 0 else w.ahead)
  }

  // Back in the normal status the FIFO's next line stands for the one the writer announces next.
  function Resumed(w: World): World
    requires w.h.Sides()
  {
    if w.h.status == EHW_OK then w.(shift := w.Announced() - w.Written()) else w
  }

  // A step of the recovery: the status, the counter, and a reset of the FIFO if there is one.
  function Updated(w: World, h': Handler, reset: bool): World
    requires w.h.Sides() && h'.Sides()
  {
    if reset then ResetTo(w, h') else if w.h.status != EHW_OK then Resumed(w.(h := h')) else w.(h := h')
  }

  lemma ResetKeeps(w: World, status: int, currentN: nat)
    requires Inv(w) && w.h.status != EHW_OK && status !in {EHW_OK, EHW_ERROR_FRAME_SWITCH_FAIL}
    ensures Inv(ResetTo(w, Reset(w.h).(status := status, currentN := currentN)))
    ensures ResetTo(w, Reset(w.h)).Read() >= w.Read()
  {
    var g := ResetTo(w, Reset(w.h).(status := status, currentN := currentN));
    ResetLinked(w, status, currentN);
    ResetMoves(w);
    assert w.h.Sides() && w.h.base.depth > 0;
    hide Linked, Index, Whole, NextOffset, Placed, Latest;
    if !w.post { SameCells(w, g); }
  }

  lemma ResetLinked(w: World, status: int, currentN: nat)
    requires Linked(w) && w.h.status != EHW_OK && status !in {EHW_OK, EHW_ERROR_FRAME_SWITCH_FAIL}
    ensures var g := ResetTo(w, Reset(w.h).(status := status, currentN := currentN));
            Linked(g) && g.Read() == g.Written() == w.producerLine + w.h.base.frame
  {
    NextFrame(w);
    hide Index, Whole, NextOffset;
  }

  // The next frame begins after all that was written.
  lemma ResetMoves(w: World)
    requires Linked(w)
    ensures w.Read() <= w.Written() <= w.producerLine + w.h.base.frame
  {
    hide Index, Whole;
  }

  // Only the status and the counter change; the status becomes normal only when a recovery is done.
  lemma StatusKeeps(w: World, h': Handler)
    requires Inv(w) && h' == w.h.(status := h'.status, currentN := h'.currentN)
    requires h'.status != EHW_ERROR_FRAME_SWITCH_FAIL
    requires h'.status == EHW_OK ==> w.h.status in {EHW_OK, EHW_RECOVERY_DONE}
    requires h'.status == EHW_RECOVERY_DONE ==> w.h.status == EHW_RECOVERY_DONE
    ensures Inv(Updated(w, h', false)) && Updated(w, h', false).Read() == w.Read()
    ensures w.post || h'.status != EHW_OK || w.h.status == EHW_OK ==> Updated(w, h', false) == w.(h := h')
  {
    hide Index, Whole;
    var g := Updated(w, h', false);
    ReadIsBehind(w);
    SameCells(w, g);
    if g.h.status == EHW_OK {
      forall x | InReach(g, x) ensures g.Holds(x) { assert w.h.status == EHW_OK ==> InReach(w, x) && w.Holds(x); }
    }
  }

  // ---- runs ----

  /** What can happen. To the ISP's handler: the hardware writes a line, raises a line interrupt (with the element count
      and the counter the interrupt computes) once an entry is written, or ends a frame; the task looks up, takes or
      moves the recovery on. To the post-ISP's: the task writes a line, pushes an entry once it is written, or moves the
      recovery on; the hardware finishes an entry or a frame. Outside the normal status the task may write anything. */
  datatype Event = Writes | Line(element: nat, count: nat) | IspFrame | LookUp | Take(lines: nat) | IspUpdated
                 | Scribbles(ring: seq<int>) | PostPushed(element: nat) | PostEntry | PostFrame | PostUpdated

  predicate Enabled(w: World, e: Event) {
    match e
    case Writes => w.ahead < w.h.base.entry && (w.post ==> w.h.status == EHW_OK)
    case Line(_, _) => !w.post && CanPush(w)
    case PostPushed(_) => w.post && CanPush(w)
    case Scribbles(ring) => w.post && w.h.status != EHW_OK && |ring| == |w.ring|
    case IspFrame | LookUp | Take(_) | IspUpdated => !w.post
    case PostEntry | PostFrame | PostUpdated => w.post
  }

  ghost function Step(w: World, e: Event): World
    requires Inv(w)
  {
    var reset := w.h.status == EHW_RECOVERYING;
    match e
    case Writes => WroteLine(w)
    case Line(element, count) => var g := Pushed(w, element); g.(h := g.h.(currentN := count))
    case PostPushed(element) => Pushed(w, element).(h := PostPush(w.h, element).0)
    case Scribbles(ring) => w.(ring := ring)
    case Take(lines) => Taken(w, lines)
    case LookUp => w.(h := NextEntry(w.h).0)
    case IspUpdated => Updated(w, IspUpdate(w.h), reset)
    case IspFrame => Updated(w, IspFrameDone(w.h), reset)
    case PostUpdated => Updated(w, PostUpdate(w.h), reset)
    case PostFrame => Updated(w, PostFrameEnd(w.h), reset)
    case PostEntry => if w.h.status == EHW_OK then Taken(w, PostPopLines(w.h)) else w.(h := PostEntryDone(w.h))
  }

  // A handler whose counter alone differs.
  lemma CounterKeeps(w: World, n: nat)
    requires Inv(w)
    ensures Inv(w.(h := w.h.(currentN := n)))
  {
    hide Index, Whole;
    var g := w.(h := w.h.(currentN := n));
    SameCells(w, g);
    if w.h.status == EHW_OK {
      forall x | InReach(g, x) ensures g.Holds(x) { assert InReach(w, x) && w.Holds(x); }
    }
  }

  /** Every step of either driver, interrupt or task, keeps the invariant. */
  lemma StepKeeps(w: World, e: Event)
    requires Inv(w) && Enabled(w, e)
    ensures Inv(Step(w, e))
  {
    match e
    case Writes => WriteKeeps(w);
    case Line(element, count) => PushKeeps(w, element); CounterKeeps(Pushed(w, element), count);
    case PostPushed(element) =>
      PushKeeps(w, element);
      CounterKeeps(Pushed(w, element), PostPush(w.h, element).0.currentN);
      hide Linked, Writing, InOrder, Push, Index;
    case Scribbles(ring) => hide Index;
    case Take(lines) => TakeKeeps(w, lines);
    case LookUp => hide Linked, Writing, InOrder; StatusKeeps(w, NextEntry(w.h).0);
    case PostEntry => PostEntryKeeps(w);
    case _ => UpdateKeeps(w, e);
  }

  lemma PostEntryKeeps(w: World)
    requires Inv(w)
    ensures Inv(Step(w, PostEntry))
  {
    if w.h.status == EHW_OK {
      TakeKeeps(w, PostPopLines(w.h));
    } else {
      hide Linked, Writing, InOrder;
      CounterKeeps(w, PostEntryDone(w.h).currentN);
    }
  }

  lemma UpdateKeeps(w: World, e: Event)
    requires Inv(w) && (e.IspFrame? || e.IspUpdated? || e.PostFrame? || e.PostUpdated?)
    ensures Inv(Step(w, e))
  {
    hide Writing, InOrder, Index;
    var h' := if e.IspFrame? then IspFrameDone(w.h) else if e.IspUpdated? then IspUpdate(w.h)
              else if e.PostFrame? then PostFrameEnd(w.h) else PostUpdate(w.h);
    if w.h.status == EHW_RECOVERYING {
      ResetKeeps(w, h'.status, h'.currentN);
      hide Linked, Reset;
    } else {
      hide Linked, Reset;
      StatusKeeps(w, h');
    }
  }

  ghost predicate Run(trace: seq<World>, events: seq<Event>) {
    && |trace| == |events| + 1
    && forall i :: 0 <= i < |events| ==> Follows(trace[i], events[i], trace[i + 1])
  }

  ghost predicate Follows(w: World, e: Event, w': World) { Inv(w) ==> Enabled(w, e) && w' == Step(w, e) }

  /** Over every run, with the writer going on through every overflow and recovery: the consumer is at most a frame
      behind, the mismatch status is never set, the lines asked for ascend without repetition, and in the normal status
      the unread lines are where the FIFO expects them exactly under the condition of UnreadInPlace. */
  lemma {:induction false} RunsKeep(trace: seq<World>, events: seq<Event>)
    requires Run(trace, events) && Inv(trace[0])
    ensures forall i :: 0 <= i < |trace| ==> Inv(trace[i])
    decreases |events|
  {
    hide Inv, Step, Enabled;
    if |events| > 0 {
      assert Follows(trace[0], events[0], trace[1]);
      StepKeeps(trace[0], events[0]);
      assert forall i :: 0 <= i < |trace[1..]| ==> trace[1..][i] == trace[i + 1];
      RunsKeep(trace[1..], events[1..]);
      forall i | 0 <= i < |trace| ensures Inv(trace[i]) { if i > 0 { assert Inv(trace[1..][i - 1]); } }
    }
  }
}
