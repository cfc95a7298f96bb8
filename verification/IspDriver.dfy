// The ISP and post-ISP drivers as they run: one handler whose fields the interrupts and the task update, and the lines
// those fields stand for.

module IspDrivers {
  import opened Options
  import opened LineFifo
  import opened LineRuns
  import opened LineTheorems
  import opened Modular

  /** Sisp_buffer: lines of the frame buffer to read or write. */
  datatype Buffer = Buffer(lines: nat, lineSize: nat, address: int, size: int)

  const NO_BUFFER := Buffer(0, 0, 0, 0)

  // The ring holds what it held, and nothing was asked for.
  predicate SameLines(w: World, w': World) {
    w'.ring == w.ring && w'.due == w.due && w'.delivered == w.delivered && w'.start == w.start && w'.post == w.post
  }

  // n more lines are unread.
  predicate Adds(w: World, w': World, n: nat)
    requires w.h.Sides() && w'.h.Sides()
  {
    SameLines(w, w') && w'.Read() == w.Read() && w'.Written() == w.Written() + n
  }

  // The next n unread lines are asked for, and what is at their places is delivered.
  predicate Reads(w: World, w': World, n: nat)
    requires w.h.Sides() && w'.h.Sides() && w.h.base.depth > 0
  {
    && w'.Read() == w.Read() + n && w'.Written() == w.Written()
    && w'.due == w.due + Numbers(w.Read() + w.shift, n) && w'.delivered == w.delivered + Found(w, w.Read(), n)
    && w'.ring == w.ring && w'.start == w.start && w'.post == w.post
  }

  // Nothing is unread any more; the next line is the first of the next frame.
  predicate Drops(w: World, w': World)
    requires w.h.Sides() && w'.h.Sides()
  {
    SameLines(w, w') && w'.Read() == w'.Written() == w.producerLine + w.h.base.frame
  }

  // The FIFO's next line stands for the one the writer announces next.
  predicate Resumes(w: World)
    requires w.h.Sides()
  {
    w.Read() == w.Written() && w.Written() + w.shift == w.Announced()
  }

  // Whether an entry is taken.
  predicate Takes(w: World, element: nat)
    requires w.h.Sides()
  {
    w.h.status == EHW_OK && Accepts(w, element) && w.Written() + w.h.base.entry - w.Read() <= w.h.base.depth
  }

  // How many lines a pop in the normal status reads.
  function Popped(w: World, lines: nat): nat
    requires w.h.Sides()
  {
    var unread := w.h.fifo[w.h.consumer].Unread();
    if w.h.status == EHW_OK && 0 < unread && lines <= unread then lines else 0
  }

  lemma PushDoes(w: World, element: nat)
    requires Inv(w) && CanPush(w)
    ensures var g := Pushed(w, element);
            && g.h.status in {w.h.status, EHW_ERROR_OVER_FLOW, EHW_ERROR_PARMA_INVALID}
            && (w.h.status != EHW_OK ==> g.h == w.h && g.producerLine == w.producerLine)
            && Inv(g) && g.h.base == w.h.base && (g.h, Takes(w, element)) == Push(w.h, element)
            && Adds(w, g, if Takes(w, element) then w.h.base.entry else 0)
            && (g.h.status == EHW_ERROR_OVER_FLOW && w.h.status == EHW_OK <==>
                w.h.status == EHW_OK && !Takes(w, element) && Accepts(w, element))
  {
    PushKeeps(w, element);
    PushIsTaken(w, element);
    assert w.h.status != EHW_OK ==> Push(w.h, element) == (w.h, false);
    hide Linked, Writing, InOrder, Push;
  }

  lemma TakeDoes(w: World, lines: nat)
    requires Inv(w)
    ensures var g := Taken(w, lines);
            && Inv(g) && g.h == Pop(w.h, lines).0 && g.h.base == w.h.base && g.h.status == w.h.status
            && Reads(w, g, Popped(w, lines))
  {
    TakeKeeps(w, lines);
    TakeReads(w, lines);
    TakeLinked(w, lines);
    TakeStays(w, lines);
    GotIsPopped(w, lines);
    hide Linked, Writing, InOrder, Pop, EntryToPop, Got, Popped;
  }

  lemma GotIsPopped(w: World, lines: nat)
    requires Linked(w)
    ensures Got(w, lines) == Popped(w, lines)
  {
    hide Index, Whole;
  }

  class LineHandler {
    var consumer: nat // customer_ping_pong_flag
    var producer: nat // produce_ping_pong_flag
    var status: int
    var currentN: nat
    var info: seq<Info>
    var fifo: seq<Fifo>
    var base: Info
    ghost var world: World

    ghost function View(): Handler
      reads this
    {
      Handler(consumer, producer, status, currentN, info, fifo, base)
    }

    // Both flags name a side, and the producer's side has a ring.
    predicate Sized()
      reads this
    {
      |info| == 2 && |fifo| == 2 && consumer < 2 && producer < 2 && fifo[producer].depth > 0 && base.depth > 0
    }

    // The fields are the handler of a world that keeps the invariant.
    ghost predicate Valid()
      reads this
    {
      world.h == View() && Inv(world)
    }

    lemma ValidIsSized()
      requires Valid()
      ensures Sized() && fifo[consumer].depth == base.depth
    {
    }

    // isp_initialize and post_isp_initialize: the handler is zeroed.
    constructor ()
      ensures status == EHW_OK && consumer == producer == 0 && |info| == |fifo| == 2
    {
      consumer, producer, status, currentN := 0, 0, EHW_OK, 0;
      base := Info(0, 0, 0, 0, 0, 0, 0);
      info := [Info(0, 0, 0, 0, 0, 0, 0), Info(0, 0, 0, 0, 0, 0, 0)];
      fifo := [Fifo(0, 0, 0, 0, 0, false), Fifo(0, 0, 0, 0, 0, false)];
    }

    /** The writer, hardware or task, writes its next line, whatever the FIFO holds. */
    ghost method WriteLine()
      requires Valid() && world.ahead < base.entry && (world.post ==> status == EHW_OK)
      modifies `world
      ensures Valid() && world == WroteLine(old(world))
    {
      WriteKeeps(world);
      world := WroteLine(world);
    }

    // The world's part of a push, a pop, and a change of the counter.
    ghost method AnnounceEntry(element: nat)
      requires Valid() && CanPush(world)
      modifies `world
      ensures Inv(world) && (world.h, Takes(old(world), element)) == Push(old(View()), element)
      ensures Adds(old(world), world, if Takes(old(world), element) then base.entry else 0)
      ensures status != EHW_OK ==> world.h == View() && world.producerLine == old(world.producerLine)
      ensures status == EHW_OK ==> world.h.status in {EHW_OK, EHW_ERROR_OVER_FLOW, EHW_ERROR_PARMA_INVALID}
      ensures status == EHW_OK ==>
                (world.h.status == EHW_ERROR_OVER_FLOW <==> !Takes(old(world), element) && Accepts(old(world), element))
    {
      PushDoes(world, element);
      world := Pushed(world, element);
    }

    ghost method TakeLines(lines: nat)
      requires Valid()
      modifies `world
      ensures Inv(world) && world.h == Pop(old(View()), lines).0 && world.h.status == status
      ensures Reads(old(world), world, Popped(old(world), lines))
    {
      TakeDoes(world, lines);
      world := Taken(world, lines);
    }

    ghost method CountOn()
      requires Inv(world) && View() == world.h.(currentN := currentN)
      modifies `world
      ensures Valid() && Adds(old(world), world, 0) && world == old(world).(h := View())
    {
      CounterKeeps(world, currentN);
      world := world.(h := View());
    }

    // Every entry of a frame is whole.
    lemma WholeEntries()
      requires Valid()
      ensures info[consumer].entry == info[consumer].last == base.entry
    {
    }

    method PushFifo(side: nat, element: nat, other: int) returns (ok: bool)
      requires Sized() && side < 2
      modifies `fifo
      ensures ok <==> old(fifo)[side].tail + element + other - old(fifo)[side].head <= old(fifo)[side].depth
      ensures fifo ==
                old(fifo)[side := if ok then old(fifo)[side].(tail := old(fifo)[side].tail + element)
                          else old(fifo)[side].(overflow := true)]
    {
      var f := fifo[side];
      if f.tail + element + other - f.head > f.depth {
        fifo := fifo[side := f.(overflow := true)];
        return false;
      }
      fifo := fifo[side := f.(tail := f.tail + element)];
      return true;
    }

    // The frame is complete: the other side takes the next one.
    method StartOtherSide()
      requires Sized()
      modifies `producer, `info, `fifo
      ensures View() == SwitchProducer(old(View())) && Sized()
    {
      var side, index := producer, 0;
      if !SwitchBuffer(info[side], base) {
        index := (fifo[side].offset + info[side].used) % fifo[side].depth;
      }
      side := 1 - side;
      info := info[side := base];
      producer := side;
      fifo := fifo[side := NewFifo(base, index)];
    }

    // ispc_push_new_line on the fields alone.
    method PushLine(element: nat) returns (ok: bool)
      requires Sized()
      modifies `producer, `status, `info, `fifo
      ensures (View(), ok) == Push(old(View()), element) && Sized()
    {
      hide SwitchProducer;
      var side := producer;
      if status != EHW_OK { return false; }
      if element < info[side].entry || element > info[side].entry * 2 {
        if fifo[side].tail != fifo[side].max - info[side].entry {
          status := EHW_ERROR_PARMA_INVALID;
          return false;
        }
      }
      var other := 0;
      if producer != consumer && info[side].addr == info[consumer].addr {
        other := fifo[consumer].tail - fifo[consumer].head;
      }
      ok := PushFifo(side, info[side].entry, other);
      if !ok {
        status := EHW_ERROR_OVER_FLOW;
        return;
      }
      if fifo[side].tail == fifo[side].max {
        StartOtherSide();
      }
    }

    /** A push of the entry just written is taken exactly in the normal status, with an acceptable count, when the entry
        fits beside the unread lines; then its lines are unread too, and every unread line is where it was. */
    method PushNewLine(element: nat) returns (ok: bool)
      requires Sized()
      modifies this
      ensures (View(), ok) == Push(old(View()), element) && Sized()
      ensures PushDone(old(View()), element, View(), ok)
      ensures old(Valid()) && CanPush(old(world)) ==>
                && Valid() && Adds(old(world), world, if ok then base.entry else 0)
                && (ok <==> Takes(old(world), element))
                && (old(status) == EHW_OK ==>
                      status in {EHW_OK, EHW_ERROR_OVER_FLOW, EHW_ERROR_PARMA_INVALID}
                      && (status == EHW_ERROR_OVER_FLOW <==> !ok && Accepts(old(world), element)))
                && (old(status) != EHW_OK ==> View() == old(View()) && world.producerLine == old(world.producerLine))
    {
      PushIs(View(), element);
      hide Inv, Adds, Takes, Accepts, PushDone, Push;
      if Valid() && CanPush(world) { AnnounceEntry(element); }
      ok := PushLine(element);
    }

    /** A pop in the normal status reads the next lines, as many as asked for if there are as many, else none; what it
        finds is what is due under the condition of TakeIsRight. */
    method PopNewLine(lines: nat) returns (ok: bool)
      requires Sized()
      modifies this
      ensures (View(), ok) == Pop(old(View()), lines) && Sized()
      ensures PopDone(old(View()), lines, View(), ok)
      ensures old(Valid()) ==>
                && Valid() && status == old(status)
                && Reads(old(world), world, Popped(old(world), lines))
    {
      PopIs(View(), lines);
      hide Inv, Reads, Popped, PopDone;
      if Valid() { TakeLines(lines); }
      var side := consumer;
      if status != EHW_OK || fifo[side].tail == fifo[side].head { return false; }
      fifo := fifo[side := PopFifo(fifo[side], lines)];
      if fifo[side].head > info[side].frame {
        status := EHW_ERROR_POP_FAIL;
        return false;
      }
      if fifo[side].head == fifo[side].max {
        consumer := 1 - side;
        if consumer != producer {
          status := EHW_ERROR_FRAME_SWITCH_FAIL;
          return false;
        }
      }
      return true;
    }

    /** The buffers to read, when as many lines as asked for are unread: inside the frame buffer, as many lines in all,
        the i-th at the place where the FIFO expects the i-th unread line. */
    method GetEntryToPop(lines: nat) returns (ok: bool, first: Buffer, second: Buffer)
      requires Sized() && fifo[consumer].depth > 0
      ensures ok <==> 0 < fifo[consumer].Unread() && lines <= fifo[consumer].Unread() && lines <= fifo[consumer].depth
      ensures ok <==> EntryToPop(View(), lines).Some?
      ensures !ok ==> first == second == NO_BUFFER
      ensures ok ==>
                Inside(first, info[consumer], fifo[consumer].depth)
                  && (second.lines > 0 ==> Inside(second, info[consumer], fifo[consumer].depth))
      ensures ok ==> first.lines + second.lines == lines
                     && forall i :: 0 <= i < lines ==>
                       LineAddress(first, second, i) ==
                         info[consumer].addr + NextIndex(fifo[consumer], i) * info[consumer].lineSize
      ensures ok && Valid() ==> forall i :: 0 <= i < lines ==>
                LineAddress(first, second, i) == base.addr + world.At(world.Read() + i) * base.lineSize
    {
      hide Inv, LineAddress, NextIndex;
      var f, i := fifo[consumer], info[consumer];
      ok, first, second := false, NO_BUFFER, NO_BUFFER;
      if f.tail == f.head || lines > f.depth || lines > f.Unread() { return; }
      var start := (f.head + f.offset) % f.depth;
      ok := true;
      if f.depth >= start + lines {
        first := Buffer(lines, i.lineSize, i.addr + start * i.lineSize, lines * i.lineSize);
        InsideBuffer(i, start, lines, f.depth);
      } else {
        var upper := f.depth - start;
        first := Buffer(upper, i.lineSize, i.addr + start * i.lineSize, upper * i.lineSize);
        second := Buffer(lines - upper, i.lineSize, i.addr, (lines - upper) * i.lineSize);
        InsideBuffer(i, start, upper, f.depth);
        InsideBuffer(i, 0, lines - upper, f.depth);
      }
      EntryAddresses(View(), lines, first, second);
      if Valid() { ExpectedPlaces(); }
    }

    lemma ExpectedPlaces()
      requires Valid()
      ensures Sized() && info[consumer] == base
      ensures forall i: nat :: NextIndex(fifo[consumer], i) == world.At(world.Read() + i)
    {
      var f := fifo[consumer];
      forall i: nat ensures NextIndex(f, i) == world.At(world.Read() + i) {
        IndexOf(f, base, world.start, world.consumerLine, f.head);
        ModAdd(f.head + f.offset, i, f.depth);
        ModAdd(world.start + world.Read(), i, f.depth);
      }
    }

    /** isp_get_next_entry: in the normal status an entry's lines are handed out when as many are unread, else as many
        as the last entry has; when fewer are unread the status says so. With whole entries in a frame that is an entry,
        the next unread lines in order, or nothing. */
    method GetNextEntry() returns (ok: bool, first: Buffer, second: Buffer)
      requires Sized() && fifo[consumer].depth > 0
      modifies `status, `world
      ensures View() == NextEntry(old(View())).0 && (ok <==> NextEntry(old(View())).1.Some?)
      ensures var f, i := fifo[consumer], info[consumer];
              var n := if i.entry <= f.Unread() then i.entry else i.last;
              && (ok <==> old(status) == 0 && f.Unread() != 0 && n <= f.Unread())
              && (ok ==> NextEntry(old(View())).1 == Some(n))
              && (status == if old(status) == 0 && !ok && f.Unread() != 0 then -38 else old(status))
              && (ok && n <= f.depth && f.Unread() > 0 ==>
                    first.lines + second.lines == n
                    && forall j :: 0 <= j < n ==>
                      LineAddress(first, second, j) == i.addr + NextIndex(f, j) * i.lineSize)
              && (ok && n > f.depth ==> first == second == NO_BUFFER)
      ensures old(Valid()) && !old(world).post ==>
                && Valid() && Adds(old(world), world, 0)
                && (ok <==> old(status) == 0 && base.entry <= fifo[consumer].Unread())
                && (ok ==> first.lines + second.lines == base.entry
                           && forall j :: 0 <= j < base.entry ==>
                             LineAddress(first, second, j) == base.addr + world.At(world.Read() + j) * base.lineSize)
    {
      hide LineAddress, NextIndex, Inv, Adds;
      ghost var good := Valid() && !world.post;
      if good { LookUpKeeps(); }
      ok, first, second := LookForEntry();
      if good { ExpectedPlaces(); }
    }

    // isp_get_next_entry on the fields alone.
    method LookForEntry() returns (ok: bool, first: Buffer, second: Buffer)
      requires Sized() && fifo[consumer].depth > 0
      modifies `status
      ensures View() == NextEntry(old(View())).0 && (ok <==> NextEntry(old(View())).1.Some?)
      ensures var f, i := fifo[consumer], info[consumer];
              var n := if i.entry <= f.Unread() then i.entry else i.last;
              && (ok <==> old(status) == 0 && f.Unread() != 0 && n <= f.Unread())
              && (ok ==> NextEntry(old(View())).1 == Some(n))
              && (status == if old(status) == 0 && !ok && f.Unread() != 0 then -38 else old(status))
              && (ok && n <= f.depth && f.Unread() > 0 ==>
                    first.lines + second.lines == n
                    && forall j :: 0 <= j < n ==>
                      LineAddress(first, second, j) == i.addr + NextIndex(f, j) * i.lineSize)
              && (ok && n > f.depth ==> first == second == NO_BUFFER)
    {
      hide LineAddress, NextIndex, Inv;
      var f, i := fifo[consumer], info[consumer];
      ok, first, second := false, NO_BUFFER, NO_BUFFER;
      if status != EHW_OK || f.tail == f.head { return; }
      var lines;
      if f.head + i.entry <= f.tail {
        lines := i.entry;
      } else if f.head + i.last <= f.tail {
        lines := i.last;
      } else {
        status := EHW_ERROR_POP_FAIL;
        return;
      }
      var found;
      found, first, second := GetEntryToPop(lines);
      ok := true;
    }

    // The world's part of a look-up.
    ghost method LookUpKeeps()
      requires Valid() && !world.post
      modifies `world
      ensures Inv(world) && world.h == NextEntry(old(View())).0 && Adds(old(world), world, 0)
      ensures info[consumer] == base && base.last == base.entry && 0 < base.entry
              && fifo[consumer].Unread() <= base.depth && fifo[consumer].depth == base.depth
    {
      StepKeeps(world, LookUp);
      world := Step(world, LookUp);
    }

    /** A reset drops exactly what is unread: the FIFO is empty at the first line of the next frame, on one side. */
    method FifoReset()
      requires Sized()
      modifies this
      ensures View() == Reset(old(View())) && Sized()
      ensures ResetDone(old(View()), View()) && status == old(status) && currentN == old(currentN)
      ensures old(Valid()) && old(status) != EHW_OK ==> Valid() && Drops(old(world), world) && consumer == producer
    {
      if Valid() && status != EHW_OK {
        ResetKeeps(world, status, currentN);
        ResetLinked(world, status, currentN);
        world := ResetTo(world, Reset(View()));
      }
      var side := producer;
      consumer := side;
      var index := (fifo[side].offset + info[side].used) % fifo[side].depth;
      info := info[side := base];
      fifo := fifo[side := NewFifo(base, index)];
    }

    /** From recovering to done, dropping what is unread; from done to normal, where the FIFO's next line stands for the
        hardware's next; from anything else to recovering, where nothing moves. */
    method IspRecoveryStateUpdate()
      requires Sized()
      modifies this
      ensures View() == IspUpdate(old(View())) && Sized()
      ensures currentN == old(currentN)
      ensures if old(status) == 2 then status == 3 && ResetDone(old(View()), View())
              else View() == old(View()).(status := if old(status) == 3 then 0 else 2)
      ensures old(Valid()) && !old(world).post ==>
                && Valid()
                && if old(status) == EHW_RECOVERYING then status == EHW_RECOVERY_DONE && Drops(old(world), world)
                  else if old(status) == EHW_RECOVERY_DONE then status ==
                    EHW_OK && Adds(old(world), world, 0) && Resumes(world)
                  else status == EHW_RECOVERYING && Adds(old(world), world, 0)
    {
      ghost var w, good := world, Valid() && !world.post;
      if status == EHW_RECOVERYING {
        FifoReset();
        status := EHW_RECOVERY_DONE;
      } else if status == EHW_RECOVERY_DONE {
        status := EHW_OK;
      } else {
        status := EHW_RECOVERYING;
      }
      if good {
        UpdateKeeps(w, IspUpdated);
        world := Step(w, IspUpdated);
      }
    }

    /** isp_interrupt_handler: a line interrupt with the hardware's line counter, raised when the hardware has written
        an entry, then a frame-done interrupt. Nothing the ring holds and nothing delivered changes; the entry is unread
        if it is taken; a recovery that is done ends, one under way drops what is unread. */
    method IspInterruptHandler(nLines: bool, lineEntry: nat, frameDone: bool)
      requires Sized()
      modifies this
      ensures Sized()
      ensures var h := old(View());
              var pushed :=
                if nLines then Push(h, (lineEntry - h.fifo[h.producer].tail) % 0x1_0000).0.(currentN := lineEntry)
                else h;
              pushed.Sides() && pushed.fifo[pushed.producer].depth > 0 && View() ==
                if frameDone then IspFrameDone(pushed) else pushed
      ensures currentN == if nLines then lineEntry else old(currentN)
      ensures !nLines && frameDone && old(status) == 2 ==> status == 2 && ResetDone(old(View()), View())
      ensures !nLines && frameDone && old(status) == 3 ==> View() == old(View()).(status := 0)
      ensures !nLines && (!frameDone || old(status) !in {2, 3}) ==> View() == old(View())
      ensures old(Valid()) && !old(world).post && (nLines ==> CanPush(old(world))) ==>
                && Valid() && SameLines(old(world), world)
                && if old(status) == 0 then
                     var element := (lineEntry - old(fifo[producer].tail)) % 0x1_0000;
                     var taken := nLines && Takes(old(world), element);
                     && Adds(old(world), world, if taken then base.entry else 0)
                     && status == if taken || !nLines then 0 else if Accepts(old(world), element) then -39 else -40
                   else if old(status) == 2 then
                     status == 2 && if frameDone then Drops(old(world), world) else Adds(old(world), world, 0)
                   else if old(status) == 3 then
                     Adds(old(world), world, 0)
                       && if frameDone then status == 0 && Resumes(world) else status == 3
                   else Adds(old(world), world, 0) && status == old(status)
    {
      hide Inv, Push, Reset, IspUpdate, Takes, Accepts;
      ghost var good := Valid() && !world.post && (nLines ==> CanPush(world));
      if nLines {
        var _ := PushNewLine((lineEntry - fifo[producer].tail) % 0x1_0000);
        currentN := lineEntry;
        if good { CountOn(); }
      }
      if frameDone {
        if status == EHW_RECOVERY_DONE {
          IspRecoveryStateUpdate();
        } else if status == EHW_RECOVERYING {
          FifoReset();
        }
      }
    }

    /** As for the ISP, except that an overflow is left as it is. */
    method PostRecoveryStateUpdate()
      requires Sized()
      modifies this
      ensures View() == PostUpdate(old(View())) && Sized()
      ensures if old(status) == 2 then status == 3 && currentN == 0 && ResetDone(old(View()), View())
              else if old(status) == -39 then View() == old(View())
              else if old(status) == 3 then View() == old(View()).(status := 0)
              else View() == old(View()).(status := 2, currentN := old(currentN) + old(base.entry))
      ensures old(Valid()) && old(world).post ==>
                && Valid()
                && if old(status) == EHW_RECOVERYING then status ==
                  EHW_RECOVERY_DONE && Drops(old(world), world) && currentN == 0
                  else if old(status) == EHW_RECOVERY_DONE then status ==
                    EHW_OK && Adds(old(world), world, 0) && Resumes(world)
                  else if old(status) == EHW_ERROR_OVER_FLOW then status ==
                    EHW_ERROR_OVER_FLOW && Adds(old(world), world, 0)
                  else status == EHW_RECOVERYING && Adds(old(world), world, 0) && currentN == old(currentN) + base.entry
    {
      ghost var w, good := world, Valid() && world.post;
      if status == EHW_RECOVERYING {
        FifoReset();
        currentN := 0;
        status := EHW_RECOVERY_DONE;
      } else if status == EHW_ERROR_OVER_FLOW {
      } else if status == EHW_RECOVERY_DONE {
        status := EHW_OK;
      } else {
        currentN := currentN + base.entry;
        status := EHW_RECOVERYING;
      }
      if good {
        UpdateKeeps(w, PostUpdated);
        world := Step(w, PostUpdated);
      }
    }

    /** The hardware's entry: with whole entries in a frame it is always `entry` lines, or none when fewer are unread.
        */
    method PostPopEntry() returns (ok: bool)
      requires Sized()
      modifies this
      ensures View() == Pop(old(View()), PostPopLines(old(View()))).0 && Sized()
      ensures var f, i := old(fifo[consumer]), old(info[consumer]);
              PopDone(old(View()), if f.head + i.last == f.max then i.last else i.entry, View(), ok)
      ensures old(Valid()) ==>
                && Valid() && status == old(status)
                && Reads(old(world), world, Popped(old(world), old(base.entry)))
    {
      hide Inv, Pop, Reads, Popped;
      if Valid() { WholeEntries(); }
      var lines := info[consumer].entry;
      if fifo[consumer].head == fifo[consumer].max - info[consumer].last {
        lines := info[consumer].last;
      }
      ok := PopNewLine(lines);
    }

    /** post_isp_interrupt_handler: an entry done, then the end of a frame. In the normal status the hardware has read
        an entry; the end of a frame under recovery drops what is unread. */
    method PostIspInterruptHandler(entryDone: bool, frameEnd: bool)
      requires Sized()
      modifies this
      ensures Sized()
      ensures var h := old(View());
              var done := if entryDone then PostEntryDone(h) else h;
              done.Sides() && done.fifo[done.producer].depth > 0 && View() ==
                if frameEnd then PostFrameEnd(done) else done
      ensures old(status) == 2 && frameEnd ==> status == 3 && currentN == 0 && ResetDone(old(View()), View())
      ensures old(status) == 2 && !frameEnd ==>
                View() == old(View()).(currentN := old(currentN) + if entryDone && old(currentN < base.frame)
                                                                    then old(base.entry) else 0)
      ensures old(status) !in {0, 2} ==> View() == old(View())
      ensures old(status) == 0 && !entryDone ==> View() == old(View())
      ensures old(Valid()) && old(world).post ==>
                && Valid()
                && if old(status) == 0 then
                     status == 0
                       && Reads(old(world), world, if entryDone then Popped(old(world), old(base.entry)) else 0)
                   else if old(status) == 2 then
                     if frameEnd then status == 3 && Drops(old(world), world)
                     else status == 2 && Adds(old(world), world, 0)
                   else status == old(status) && Adds(old(world), world, 0)
    {
      hide Inv, Pop, Reset, PostUpdate, Popped, Found;
      ghost var good := Valid() && world.post;
      if entryDone {
        if status == EHW_OK {
          var _ := PostPopEntry();
        } else if status == EHW_RECOVERYING && currentN < base.frame {
          currentN := currentN + base.entry;
          if good { CountOn(); }
        }
      }
      if frameEnd && status == EHW_RECOVERYING {
        PostRecoveryStateUpdate();
      }
    }

    /** The task's entry, once written: pushed as PushNewLine says; the counter is then the lines pushed of the frame.
        */
    method PostPushEntry(element: nat) returns (ok: bool)
      requires Sized()
      modifies this
      ensures (View(), ok) == PostPush(old(View()), element) && Sized()
      ensures PushDone(old(View()), element, View().(currentN := old(currentN)), ok)
      ensures currentN == if ok then fifo[producer].tail else old(currentN)
      ensures old(Valid()) && old(world).post && CanPush(old(world)) ==>
                && Valid() && Adds(old(world), world, if ok then base.entry else 0)
                && (ok <==> Takes(old(world), element))
                && (ok ==> currentN == world.Written() - world.producerLine)
    {
      hide Inv, Push, Takes, Accepts;
      ghost var good := Valid() && world.post && CanPush(world);
      ok := PushNewLine(element);
      if ok { currentN := fifo[producer].tail; }
      if good { CountOn(); }
    }

    /** isp_handler_config and post_isp_handler_config: valid parameters start the handler with nothing written or read,
        on one side, ready to run when a frame is whole entries and the ring no longer than a frame (and for the
        post-ISP whole entries too); invalid ones only set the status. */
    method Config(hor: nat, ver: nat, entry: nat, addr: int, bufferSize: nat, lineSize: nat,
                  post: bool) returns (r: int)
      requires |info| == 2 && |fifo| == 2 && consumer < 2 && producer < 2 && entry > 0 && lineSize > 0
      modifies this
      ensures var b := BaseInfo(hor, ver, entry, addr, bufferSize, lineSize, post);
              if b.Some? then r == EHW_OK && View() == Configured(old(View()), b.value)
              else r == EHW_ERROR_PARMA_INVALID && View() == old(View()).(status := r)
      ensures r == if hor > 4096 || ver > 3192 || entry > 8191 || bufferSize % lineSize != 0 || addr == 0 then -40
                   else 0
      ensures r != 0 ==> View() == old(View()).(status := r)
      ensures r == 0 ==>
                && status == old(status) && currentN == old(currentN) && consumer == producer == 0
                && Begins(View(), 0, 0) && OtherKept(old(View()), View(), 0)
                && base.lineSize == lineSize && base.addr == addr && base.entry == entry && base.frame == ver
                && base.depth == bufferSize / lineSize && LastEntry(ver, entry, base.last)
                && if post then RoundedUp(ver, entry, base.used) else base.used == ver
      ensures r == EHW_OK && old(status) == EHW_OK && ver % entry == 0 && 0 < bufferSize / lineSize <= ver
              && (post ==> bufferSize / lineSize % entry == 0) ==>
                && Valid() && world.post == post && world.Read() == world.Written() == world.Announced() == 0
                && world.due == [] && world.delivered == [] && base.depth == bufferSize / lineSize && base.frame == ver
    {
      if hor > MAX_HORIZONTAL || ver > MAX_VERTICAL || entry > LINES_MASK || bufferSize % lineSize != 0 || addr == 0 {
        status := EHW_ERROR_PARMA_INVALID;
        return status;
      }
      if status == EHW_OK && ver % entry == 0 && 0 < bufferSize / lineSize <= ver && (post ==>
          bufferSize / lineSize % entry == 0) {
        ConfiguredIsGood(View(), hor, ver, entry, addr, bufferSize, lineSize, post);
        world := Outset(Configured(View(), BaseInfo(hor, ver, entry, addr, bufferSize, lineSize, post).value), post);
      }
      LastEntries(ver, entry);
      var fragment := ver % entry;
      var last := if fragment == 0 then entry else fragment;
      base := Info(entry, ver, last, lineSize, bufferSize / lineSize, if post then ver - last + entry else ver, addr);
      consumer, producer := 0, 0;
      info := info[0 := base];
      fifo := fifo[0 := NewFifo(base, 0)];
      return EHW_OK;
    }
  }

  // The buffer's bytes lie in the frame buffer.
  ghost predicate Inside(b: Buffer, i: Info, depth: nat) {
    b.lineSize == i.lineSize && b.size == b.lines * i.lineSize && i.addr <= b.address
      && b.address + b.size <= i.addr + depth * i.lineSize
  }

  // The buffer is the segment's lines.
  predicate Matches(b: Buffer, s: Segment, i: Info) {
    b.lines == s.lines && b.lineSize == i.lineSize && b.address == i.addr + s.first * i.lineSize
  }

  // The address of the i-th line of two buffers.
  function LineAddress(a: Buffer, b: Buffer, i: nat): int {
    if i < a.lines then a.address + i * a.lineSize else b.address + (i - a.lines) * b.lineSize
  }

  // The lines of the last entry of a frame: what the whole entries before it leave.
  predicate LastEntry(frame: nat, entry: nat, last: int)
    requires entry > 0
  {
    0 < last <= entry && (frame - last) % entry == 0
  }

  // As many lines as whole entries need for the frame.
  predicate RoundedUp(frame: nat, entry: nat, used: int)
    requires entry > 0
  {
    frame <= used < frame + entry && used % entry == 0
  }

  lemma LastEntries(frame: nat, entry: nat)
    requires entry > 0
    ensures var last := if frame % entry == 0 then entry else frame % entry;
            LastEntry(frame, entry, last) && RoundedUp(frame, entry, frame - last + entry)
  {
    var q, r := frame / entry, frame % entry;
    Distribute(q, 1, entry);
    hide LastEntry, RoundedUp;
    if r == 0 { EntriesAre(frame, entry, entry, q - 1); } else { EntriesAre(frame, entry, r, q); }
  }

  // q entries and the last one.
  lemma EntriesAre(frame: nat, entry: nat, last: int, q: int)
    requires 0 < last <= entry && frame == q * entry + last
    ensures LastEntry(frame, entry, last) && RoundedUp(frame, entry, frame - last + entry)
  {
    Distribute(q, 1, entry);
    ModIs(frame - last, q, 0, entry);
    ModIs(frame - last + entry, q + 1, 0, entry);
  }

  // The index of the i-th unread line.
  function NextIndex(f: Fifo, i: int): int
    requires f.depth > 0
  {
    (f.head + f.offset + i) % f.depth
  }

  // Buffers that are the segments of an entry hold the next unread lines in order.
  lemma EntryAddresses(h: Handler, lines: nat, a: Buffer, b: Buffer)
    requires h.Sides() && h.fifo[h.consumer].depth > 0 && EntryToPop(h, lines).Some?
    requires var (s, t) := EntryToPop(h, lines).value;
             && Matches(a, s, h.info[h.consumer]) && b.lines == t.lines
             && (t.lines > 0 ==> Matches(b, t, h.info[h.consumer]))
    ensures forall i :: 0 <= i < lines ==>
              LineAddress(a, b, i) ==
                h.info[h.consumer].addr + NextIndex(h.fifo[h.consumer], i) * h.info[h.consumer].lineSize
  {
    var (s, t) := EntryToPop(h, lines).value;
    var f, info := h.fifo[h.consumer], h.info[h.consumer];
    var start := (f.head + f.offset) % f.depth;
    forall i | 0 <= i < lines ensures LineAddress(a, b, i) == info.addr + NextIndex(f, i) * info.lineSize {
      ModAdd(f.head + f.offset, i, f.depth);
      if start + i < f.depth { Small(start + i, f.depth); } else {
        ModIs(start + i, 1, start + i - f.depth, f.depth);
      }
      assert Place(s, t, i) == NextIndex(f, i);
      hide NextIndex, EntryToPop;
      Distribute(s.first, i, info.lineSize);
      Distribute(t.first, i - s.lines, info.lineSize);
    }
  }

  lemma InsideBuffer(i: Info, first: nat, lines: nat, depth: nat)
    requires first + lines <= depth
    ensures Inside(Buffer(lines, i.lineSize, i.addr + first * i.lineSize, lines * i.lineSize), i, depth)
  {
    var rest := depth - first - lines;
    assert depth * i.lineSize == first * i.lineSize + lines * i.lineSize + rest * i.lineSize;
  }
}
