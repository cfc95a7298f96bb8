// The promises of the line ring: delivery, recovery, and exactly which configurations keep them.

module LineTheorems {
  import opened Options
  import opened LineFifo
  import opened LineRuns
  import opened Modular

  // ---- the start ----

  function Fresh(base: Info): Handler {
    var none := Info(0, 0, 0, 0, 0, 0, 0);
    var empty := Fifo(0, 0, 0, 0, 0, false);
    Handler(0, 0, EHW_OK, 0, [base, none], [NewFifo(base, 0), empty], base)
  }

  // Nothing written, announced or read yet.
  function Outset(h: Handler, post: bool): World
    requires h.Sides()
  {
    World(post, h, 0, 0, 0, seq(h.base.depth, _ => -1), 0, 0, 0, [], [])
  }

  /** Configuring a zeroed handler starts the invariant, when a frame is whole entries and the ring no longer than a
      frame, and for the post-ISP whole entries too. */
  lemma ConfiguredIsGood(h: Handler, hor: nat, ver: nat, entry: nat, addr: int, size: nat, line: nat, post: bool)
    requires h.Sides() && h.status == EHW_OK && entry > 0 && line > 0
             && BaseInfo(hor, ver, entry, addr, size, line, post).Some?
    requires ver % entry == 0 && 0 < size / line <= ver && (post ==> size / line % entry == 0)
    ensures var base := BaseInfo(hor, ver, entry, addr, size, line, post).value;
            Configured(h, base).Sides() && Inv(Outset(Configured(h, base), post))
  {
    Small(0, size / line);
    Small(0, entry);
  }

  // ---- delivery ----

  // The step takes lines only while the FIFO is in step and has room for the lines written ahead.
  ghost predicate TakesInPlace(w: World, e: Event) {
    Inv(w) && (e.Take? || e.PostEntry?) ==>
      Got(w, if e.Take? then e.lines else PostPopLines(w.h)) == 0 || (w.InStep() && w.Roomy())
  }

  /** When every take finds the FIFO in step and with room, all that was delivered is what was due, through every
      overflow and recovery; by TakeIsRight the first take for which this fails delivers something else. */
  lemma {:induction false} DeliveredIsDue(trace: seq<World>, events: seq<Event>, i: nat)
    requires Run(trace, events) && Inv(trace[0]) && trace[0].delivered == trace[0].due && i < |trace|
    requires forall k :: 0 <= k < |events| ==> TakesInPlace(trace[k], events[k])
    ensures Inv(trace[i]) && trace[i].delivered == trace[i].due
  {
    RunsKeep(trace, events);
    if i > 0 {
      DeliveredIsDue(trace, events, i - 1);
      hide Inv, Step, Enabled;
      assert Follows(trace[i - 1], events[i - 1], trace[i]);
      StepDelivers(trace[i - 1], events[i - 1]);
    }
  }

  lemma StepDelivers(w: World, e: Event)
    requires Inv(w) && Enabled(w, e) && TakesInPlace(w, e) && w.delivered == w.due
    ensures Step(w, e).delivered == Step(w, e).due
  {
    if e.Take? || (e.PostEntry? && w.h.status == EHW_OK) {
      var lines := if e.Take? then e.lines else PostPopLines(w.h);
      TakeReads(w, lines);
      TakeIsRight(w, lines);
    }
    hide Linked, Writing, InOrder, Push, Taken, Index;
  }

  /** Until a recovery begins the lines asked for are 0, 1, 2, ... up to the next one to read, each once. */
  lemma {:induction false} EveryLineOnce(trace: seq<World>, events: seq<Event>, i: nat)
    requires Run(trace, events) && Inv(trace[0]) && i < |trace|
    requires trace[0].due == [] && trace[0].Read() == 0 && trace[0].shift == 0
    requires forall k :: 0 <= k < |trace| ==> trace[k].h.status !in {EHW_RECOVERYING, EHW_RECOVERY_DONE}
    ensures Inv(trace[i]) && trace[i].shift == 0 && trace[i].due == Numbers(0, trace[i].Read())
  {
    RunsKeep(trace, events);
    if i > 0 {
      EveryLineOnce(trace, events, i - 1);
      hide Inv, Step, Enabled;
      assert Follows(trace[i - 1], events[i - 1], trace[i]);
      StepAsks(trace[i - 1], events[i - 1]);
    }
  }

  lemma StepAsks(w: World, e: Event)
    requires Inv(w) && Enabled(w, e) && w.h.status !in {EHW_RECOVERYING, EHW_RECOVERY_DONE}
    requires w.shift == 0 && w.due == Numbers(0, w.Read())
    ensures Inv(Step(w, e)) && Step(w, e).shift == 0 && Step(w, e).due == Numbers(0, Step(w, e).Read())
  {
    StepKeeps(w, e);
    if e.Line? || e.PostPushed? {
      PushAsks(w, e.element);
    } else if e.Take? || (e.PostEntry? && w.h.status == EHW_OK) {
      TakeAsks(w, if e.Take? then e.lines else PostPopLines(w.h));
    }
    hide Linked, Writing, InOrder, Push, Taken, Pushed, Index;
  }

  lemma TakeAsks(w: World, lines: nat)
    requires Inv(w) && w.shift == 0 && w.due == Numbers(0, w.Read())
    ensures var g := Taken(w, lines); g.h.Sides() && g.shift == 0 && g.due == Numbers(0, g.Read())
  {
    ReadIsCount(w);
    TakeReads(w, lines);
    TakeLinked(w, lines);
    TakeStays(w, lines);
    hide Linked, Writing, InOrder, Taken, Index;
  }

  lemma ReadIsCount(w: World)
    requires Linked(w)
    ensures w.Read() >= 0
  {
  }

  lemma PushAsks(w: World, element: nat)
    requires Linked(w) && w.ahead <= w.next
    ensures var g := Pushed(w, element); g.h.Sides() && g.Read() == w.Read() && g.due == w.due && g.shift == w.shift
  {
    PushMoves(w, element);
    hide Linked, Push, Index;
  }

  // ---- when the ring is longer than a frame ----

  // Whole entries in a frame, nothing said of the ring.
  predicate WholeEntries(b: Info) {
    0 < b.entry && 0 < b.frame && Whole(b.frame, b.entry) && b.last == b.entry && b.used == b.frame && 0 < b.depth
  }

  // Entries in a frame.
  function Entries(b: Info): (q: nat)
    requires b.entry > 0
  {
    b.frame / b.entry
  }

  // k pushes of an entry.
  function PushTimes(h: Handler, k: nat): (r: Handler)
    requires h.Sides() && h.base.depth > 0 && h.fifo[h.producer].depth > 0
    ensures r.Sides() && r.base == h.base && r.fifo[r.producer].depth > 0
  {
    if k == 0 then h else Push(PushTimes(h, k - 1), h.base.entry).0
  }

  // The producer's side is new and `other` lines of its buffer are still unread on the other side.
  ghost predicate Starting(h: Handler, other: nat) {
    && h.Sides() && h.status == EHW_OK && WholeEntries(h.base) && h.info[h.producer] == h.base
    && h.fifo[h.producer] == NewFifo(h.base, h.fifo[h.producer].offset) && OtherUnread(h) == other
  }

  predicate IsTimes(lines: int, k: int, entry: int) { lines == k * entry }

  lemma TimesDown(lines: int, k: nat, entry: int)
    requires IsTimes(lines, k, entry) && entry > 0
    ensures k == 0 ==> lines == 0
    ensures k > 0 ==> lines >= entry && IsTimes(lines - entry, k - 1, entry)
  {
    Distribute(k, 1, entry);
    Products(k, entry);
  }

  lemma {:induction false} PushesFill(h: Handler, other: nat, k: nat, tail: nat)
    requires Starting(h, other) && IsTimes(tail, k, h.base.entry) && tail < h.base.frame && tail + other <= h.base.depth
    ensures PushTimes(h, k) == h.(fifo := h.fifo[h.producer := h.fifo[h.producer].(tail := tail)])
  {
    TimesDown(tail, k, h.base.entry);
    hide IsTimes, Push;
    if k == 0 {
      assert h.fifo[h.producer := h.fifo[h.producer]] == h.fifo;
    } else {
      PushesFill(h, other, k - 1, tail - h.base.entry);
      OnePush(h, other, tail - h.base.entry);
    }
  }

  lemma OnePush(h: Handler, other: nat, tail: nat)
    requires Starting(h, other) && tail + h.base.entry < h.base.frame && tail + h.base.entry + other <= h.base.depth
    ensures var p, f := h.producer, h.fifo[h.producer];
            Push(h.(fifo := h.fifo[p := f.(tail := tail)]), h.base.entry).0 ==
              h.(fifo := h.fifo[p := f.(tail := tail + h.base.entry)])
  {
    hide Whole;
  }

  // The push that completes a frame.
  lemma LastPush(h: Handler, other: nat)
    requires Starting(h, other) && h.base.frame + other <= h.base.depth && h.base.entry <= h.base.frame
    ensures var p, f := h.producer, h.fifo[h.producer];
            var filled := h.(fifo := h.fifo[p := f.(tail := h.base.frame - h.base.entry)]);
            var (g, ok) := Push(filled, h.base.entry);
            && ok && g.producer == 1 - p && g.consumer == h.consumer && g.status == EHW_OK && g.base == h.base
            && g.info == h.info[1 - p := h.base] && g.fifo[p] == f.(tail := h.base.frame)
            && g.fifo[1 - p] == NewFifo(h.base, g.fifo[1 - p].offset)
  {
    hide NextOffset;
  }

  lemma WholeCount(b: Info)
    requires WholeEntries(b)
    ensures Entries(b) > 0 && IsTimes(b.frame - b.entry, Entries(b) - 1, b.entry) && b.entry <= b.frame
  {
    Distribute(Entries(b), 1, b.entry);
    Products(Entries(b), b.entry);
  }

  // All the entries of a frame but one.
  lemma AllButOne(h: Handler, other: nat, q: nat)
    requires Starting(h, other) && h.base.frame + other <= h.base.depth && q == Entries(h.base)
    ensures q > 0 && h.base.entry <= h.base.frame
    ensures PushTimes(h, q - 1) ==
              h.(fifo := h.fifo[h.producer := h.fifo[h.producer].(tail := h.base.frame - h.base.entry)])
  {
    WholeCount(h.base);
    hide *;
    PushesFill(h, other, q - 1, h.base.frame - h.base.entry);
  }

  // A frame is pushed, all its lines but one are popped, and all entries of the next frame but one are pushed.
  function AboutToLap(base: Info): (h: Handler)
    requires WholeEntries(base)
    ensures h.Sides() && h.base == base && h.fifo[h.producer].depth > 0
  {
    WholeCount(base);
    PushTimes(Pop(PushTimes(Fresh(base), Entries(base)), base.frame - 1).0, Entries(base) - 1)
  }

  // The producer completes its frame, restarting the consumer's side while a line there is unread.
  ghost predicate Laps(h: Handler)
    requires h.Sides() && h.fifo[h.producer].depth > 0
  {
    var (g, ok) := Push(h, h.base.entry);
    && h.consumer != h.producer && h.fifo[h.consumer].Unread() == 1
    && ok && g.producer == h.consumer == g.consumer && g.Sides() && g.fifo[h.consumer].Unread() == 0
  }

  /** In a ring longer than a frame the producer can lap: with one line of a frame still unread it completes the next
      frame and that line is lost. PushSwitchesEmptied excludes this in a ring no longer than a frame. */
  lemma LongerRingLaps(base: Info)
    requires WholeEntries(base) && base.depth > base.frame
    ensures Laps(AboutToLap(base))
  {
    var h0 := Fresh(base);
    FirstFrame(base);
    var h1 := PushTimes(h0, Entries(base));
    OneLeft(h1, base);
    LapFrom(Pop(h1, base.frame - 1).0);
    hide PushTimes, Push, Pop, Entries, Whole, Laps, Fresh;
  }

  lemma FirstFrame(base: Info)
    requires WholeEntries(base) && base.depth > base.frame
    ensures var h := PushTimes(Fresh(base), Entries(base));
            && h.producer == 1 && h.consumer == 0 && h.status == EHW_OK && h.info == [base, base]
            && h.fifo[0] == Fifo(0, base.frame, base.depth, base.frame, 0, false)
            && h.fifo[1] == NewFifo(base, h.fifo[1].offset)
  {
    var h0 := Fresh(base);
    AllButOne(h0, 0, Entries(base));
    LastPush(h0, 0);
    hide Push, Entries, Whole, OtherUnread;
    assert PushTimes(h0, Entries(base)) == Push(PushTimes(h0, Entries(base) - 1), base.entry).0;
  }

  lemma LapFrom(h: Handler)
    requires Starting(h, 1) && h.base.frame + 1 <= h.base.depth && h.producer == 1 && h.consumer == 0
             && h.fifo[0].Unread() == 1
    ensures Entries(h.base) > 0 && Laps(PushTimes(h, Entries(h.base) - 1))
  {
    AllButOne(h, 1, Entries(h.base));
    LastPush(h, 1);
    hide Push, Entries, Whole, OtherUnread, PushTimes;
  }

  lemma OneLeft(h: Handler, base: Info)
    requires h.Sides() && WholeEntries(base) && h.base == base && h.producer == 1 && h.consumer == 0
             && h.status == EHW_OK
    requires h.info == [base, base] && h.fifo[0] == Fifo(0, base.frame, base.depth, base.frame, 0, false)
    requires h.fifo[1] == NewFifo(base, h.fifo[1].offset)
    ensures var g := Pop(h, base.frame - 1).0;
            Starting(g, 1) && g.base == base && g.producer == 1 && g.consumer == 0 && g.fifo[0].Unread() == 1
  {
  }

  // A push keeps whole entries on a side whose frame is not whole entries, so the frame does not end.
  lemma FragmentPush(h: Handler, base: Info)
    requires h.Sides() && 0 < base.entry && 0 < base.depth && h.base == base && h.fifo[h.producer].depth > 0
    requires h.producer == 0 && h.info[0] == base && h.fifo[0].max == base.frame
    requires Whole(h.fifo[0].tail, base.entry) && !Whole(base.frame, base.entry)
    ensures var g := Push(h, base.entry).0;
            g.producer == 0 && g.info[0] == base && g.fifo[0].max == base.frame && Whole(g.fifo[0].tail, base.entry)
  {
    ModIs(base.entry, 1, 0, base.entry);
    MultipleAdd(h.fifo[0].tail, base.entry, base.entry);
    hide Whole;
  }

  /** A frame with a shorter last entry is never completed: whole entries step over its end. */
  lemma {:induction false} FragmentNeverCompletes(base: Info, k: nat)
    requires 0 < base.entry && 0 < base.depth && !Whole(base.frame, base.entry)
    ensures var h := PushTimes(Fresh(base), k);
            h.producer == 0 && h.info[0] == base && h.fifo[0].max == base.frame && Whole(h.fifo[0].tail, base.entry)
  {
    if k > 0 {
      FragmentNeverCompletes(base, k - 1);
      hide Whole, Push;
      FragmentPush(PushTimes(Fresh(base), k - 1), base);
    } else {
      Small(0, base.entry);
    }
  }

  // ---- the post-ISP's entries ----

  /** Where the post-ISP's task writes next: at the index behind the lines pushed, if whole entries lie before it in the
      ring; an entry, or the frame's last one when only that is missing. Otherwise the status says so. */
  lemma PostEntryIs(h: Handler)
    requires h.Sides() && h.fifo[h.producer].depth > 0 && h.info[h.producer].entry > 0
    ensures var f, i, (g, s) := h.fifo[h.producer], h.info[h.producer], PostNextEntry(h);
            var first := (f.offset + f.tail) % f.depth;
            && (s.Some? <==> first % i.entry == 0) && g == (if s.Some? then h else h.(status := -40))
            && (s.Some? ==> s.value == Segment(first, if f.tail + i.last == f.max then i.last else i.entry))
  {
  }

  /** When the ring is a whole number of entries, every entry the task is given to write lies inside the buffer, at the
      place of the next lines. */
  lemma PostEntryInBuffer(w: World)
    requires Linked(w) && w.start == 0 && w.h.base.depth % w.h.base.entry == 0
    ensures var (h, s) := PostNextEntry(w.h);
            h == w.h && s.Some? && s.value.first == w.At(w.Written()) && s.value.lines == w.h.base.entry
            && s.value.first + s.value.lines <= w.h.base.depth
  {
    var f, b := w.h.fifo[w.h.producer], w.h.base;
    IndexOf(f, b, 0, w.producerLine, f.tail);
    MultipleAdd(w.producerLine, f.tail, b.entry);
    RemainderIsMultiple(w.Written(), b.depth, b.entry);
    MultipleGap(w.Written() % b.depth, b.depth, b.entry);
  }

  /** When it is not, an entry crosses the end of the buffer: after as many entries as fit, with no error reported. */
  lemma PostEntryCrosses(base: Info)
    requires WholeEntries(base) && base.depth <= base.frame && base.depth % base.entry != 0
    ensures var h := PushTimes(Fresh(base), base.depth / base.entry);
            h.info[h.producer].entry > 0 && h.status == EHW_OK &&
            var (g, s) := PostNextEntry(h);
            g == h && s.Some? && s.value.first + s.value.lines > base.depth
  {
    var q := base.depth / base.entry;
    var tail := base.depth - base.depth % base.entry;
    Cut(base.depth, base.entry);
    hide IsTimes, Push, Whole;
    PushesFill(Fresh(base), 0, q, tail);
  }

  // As many entries as fit.
  lemma Cut(depth: int, entry: int)
    requires depth > 0 && entry > 0 && depth % entry != 0
    ensures var tail := depth - depth % entry;
            IsTimes(tail, depth / entry, entry) && 0 <= tail < depth < tail + entry && tail % depth == tail
              && tail % entry == 0
  {
    var tail := depth - depth % entry;
    MultipleOf(depth / entry, entry);
    Small(tail, depth);
  }

  // ---- the post-ISP's overflow ----

  /** A post-ISP overflow is never left by the steps of the driver: its status update has no way out of it. */
  lemma {:induction false} PostOverflowIsFinal(trace: seq<World>, events: seq<Event>, i: nat)
    requires Run(trace, events) && Inv(trace[0]) && trace[0].post && trace[0].h.status == EHW_ERROR_OVER_FLOW
             && i < |trace|
    ensures trace[i].post && trace[i].h.status == EHW_ERROR_OVER_FLOW && trace[i].h.base == trace[0].h.base
  {
    RunsKeep(trace, events);
    if i > 0 {
      PostOverflowIsFinal(trace, events, i - 1);
      var e := events[i - 1];
      hide Linked, Writing, InOrder, Run, Index;
      assert Follows(trace[i - 1], e, trace[i]);
    }
  }
}
