// The line ring shared by the ISP, the post-ISP and the tasks: two ping-pong FIFOs over one buffer,
// with the status codes of the recovery protocol.

module LineFifo {
  import opened Options

  const EHW_ERROR_PARMA_INVALID := -40
  const EHW_ERROR_OVER_FLOW := -39
  const EHW_ERROR_POP_FAIL := -38
  const EHW_ERROR_FRAME_SWITCH_FAIL := -37
  const EHW_OK := 0
  const EHW_RECOVERYING := 2
  const EHW_RECOVERY_DONE := 3

  const MAX_HORIZONTAL := 4096
  const MAX_VERTICAL := 3192
  const LINES_MASK := 0x1FFF

  /** Sisp_control_info: lines per entry, per frame, in the last entry, per buffer, and used per frame. */
  datatype Info = Info(entry: nat, frame: nat, last: nat, lineSize: nat, depth: nat, used: nat, addr: int)

  /** Sfifo; head and tail count lines of one frame, `offset` is where its first line sits in the ring. */
  datatype Fifo = Fifo(head: nat, tail: nat, depth: nat, max: nat, offset: nat, overflow: bool) {
    function Unread(): int { tail - head }
  }

  /** Sisp_handler; the two sides are indices 0 and 1. */
  datatype Handler = Handler(consumer: nat, producer: nat, status: int, currentN: nat, info: seq<Info>,
                             fifo: seq<Fifo>, base: Info) {
    predicate Sides() {
      |info| == 2 && |fifo| == 2 && consumer < 2 && producer < 2
    }
  }

  // ispc_switch_buffer
  predicate SwitchBuffer(info: Info, base: Info) {
    info.addr != base.addr || info.frame != base.frame || info.last != base.last
  }

  function NewFifo(base: Info, offset: nat): Fifo { Fifo(0, 0, base.depth, base.frame, offset, false) }

  // The unread lines of the other side that live in the same buffer.
  function OtherUnread(h: Handler): int
    requires h.Sides()
  {
    if h.producer != h.consumer && h.info[h.producer].addr == h.info[h.consumer].addr then h.fifo[h.consumer].Unread()
    else 0
  }

  // ispc_push_new_line
  function Push(h: Handler, element: nat): (Handler, bool)
    requires h.Sides() && h.fifo[h.producer].depth > 0
  {
    var p, info, f := h.producer, h.info[h.producer], h.fifo[h.producer];
    if h.status != EHW_OK then (h, false)
    else if (element < info.entry || element > 2 * info.entry) && f.tail != f.max - info.entry then
      (h.(status := EHW_ERROR_PARMA_INVALID), false)
    else if f.tail + info.entry + OtherUnread(h) - f.head > f.depth then
      (h.(status := EHW_ERROR_OVER_FLOW, fifo := h.fifo[p := f.(overflow := true)]), false)
    else
      var pushed := h.(fifo := h.fifo[p := f.(tail := f.tail + info.entry)]);
      (if f.tail + info.entry == f.max then SwitchProducer(pushed) else pushed, true)
  }

  // The producer's frame is complete: the other side starts the next frame.
  function SwitchProducer(h: Handler): Handler
    requires h.Sides() && h.fifo[h.producer].depth > 0
  {
    var p := 1 - h.producer;
    var offset := if SwitchBuffer(h.info[h.producer], h.base) then 0 else NextOffset(h);
    h.(producer := p, info := h.info[p := h.base], fifo := h.fifo[p := NewFifo(h.base, offset)])
  }

  function NextOffset(h: Handler): nat
    requires h.Sides() && h.fifo[h.producer].depth > 0
  {
    (h.fifo[h.producer].offset + h.info[h.producer].used) % h.fifo[h.producer].depth
  }

  // pop_fifo: its result is 0 or 1, so the callers' test for a negative one never sees a failure.
  function PopFifo(f: Fifo, lines: nat): Fifo {
    if f.tail == f.head || f.overflow || f.head + lines > f.tail then f else f.(head := f.head + lines)
  }

  // ispc_pop_new_line
  function Pop(h: Handler, lines: nat): (Handler, bool)
    requires h.Sides()
  {
    var c, f := h.consumer, h.fifo[h.consumer];
    if h.status != EHW_OK || f.tail == f.head then (h, false)
    else
      var f' := PopFifo(f, lines);
      var popped := h.(fifo := h.fifo[c := f']);
      if f'.head > h.info[c].frame then (popped.(status := EHW_ERROR_POP_FAIL), false)
      else if f'.head != f'.max then (popped, true)
      else if 1 - c != h.producer then (popped.(consumer := 1 - c, status := EHW_ERROR_FRAME_SWITCH_FAIL), false)
      else (popped.(consumer := 1 - c), true)
  }

  // isp_fifo_reset and post_isp_fifo_reset: both flags to the producer's side, which starts the next frame empty.
  function Reset(h: Handler): Handler
    requires h.Sides() && h.fifo[h.producer].depth > 0
  {
    var p := h.producer;
    h.(consumer := p, info := h.info[p := h.base], fifo := h.fifo[p := NewFifo(h.base, NextOffset(h))])
  }

  // isp_recovery_state_update
  function IspUpdate(h: Handler): Handler
    requires h.Sides() && h.fifo[h.producer].depth > 0
  {
    if h.status == EHW_RECOVERYING then Reset(h).(status := EHW_RECOVERY_DONE)
    else if h.status == EHW_RECOVERY_DONE then h.(status := EHW_OK)
    else h.(status := EHW_RECOVERYING)
  }

  // The frame-done part of isp_interrupt_handler.
  function IspFrameDone(h: Handler): Handler
    requires h.Sides() && h.fifo[h.producer].depth > 0
  {
    if h.status == EHW_RECOVERY_DONE then IspUpdate(h)
    else if h.status == EHW_RECOVERYING then Reset(h)
    else h
  }

  // post_isp_recovery_state_update; each trigger is an entry added to currentN.
  function PostUpdate(h: Handler): Handler
    requires h.Sides() && h.fifo[h.producer].depth > 0
  {
    if h.status == EHW_RECOVERYING then Reset(h).(status := EHW_RECOVERY_DONE, currentN := 0)
    else if h.status == EHW_ERROR_OVER_FLOW then h
    else if h.status == EHW_RECOVERY_DONE then h.(status := EHW_OK)
    else h.(status := EHW_RECOVERYING, currentN := h.currentN + h.base.entry)
  }

  // The entry part of post_isp_interrupt_handler.
  function PostEntryDone(h: Handler): Handler
    requires h.Sides()
  {
    if h.status == EHW_OK then Pop(h, PostPopLines(h)).0
    else if h.status == EHW_RECOVERYING && h.currentN < h.base.frame then h.(currentN := h.currentN + h.base.entry)
    else h
  }

  // post_isp_pop_entry: a whole entry, or the last entry of the frame.
  function PostPopLines(h: Handler): nat
    requires h.Sides()
  {
    if h.fifo[h.consumer].head == h.fifo[h.consumer].max - h.info[h.consumer].last then h.info[h.consumer].last
    else h.info[h.consumer].entry
  }

  // The frame-end part of post_isp_interrupt_handler.
  function PostFrameEnd(h: Handler): Handler
    requires h.Sides() && h.fifo[h.producer].depth > 0
  {
    if h.status == EHW_RECOVERYING then PostUpdate(h) else h
  }

  // post_isp_push_entry
  function PostPush(h: Handler, element: nat): (Handler, bool)
    requires h.Sides() && h.fifo[h.producer].depth > 0
  {
    var (pushed, ok) := Push(h, element);
    if ok && pushed.Sides() then (pushed.(currentN := pushed.fifo[pushed.producer].tail), true) else (pushed, ok)
  }

  // ---- what a push, a pop and a reset come to, for every handler ----

  // A side is new: it starts a frame of the current configuration, empty, its first line at index `offset`.
  predicate Begins(h: Handler, side: nat, offset: int)
    requires h.Sides() && side < 2
  {
    h.info[side] == h.base && h.fifo[side] == Fifo(0, 0, h.base.depth, h.base.frame, h.fifo[side].offset, false)
      && h.fifo[side].offset == offset
  }

  // The other side is as it was.
  predicate OtherKept(h: Handler, g: Handler, side: nat)
    requires h.Sides() && g.Sides() && side < 2
  {
    g.info[1 - side] == h.info[1 - side] && g.fifo[1 - side] == h.fifo[1 - side]
  }

  // The count is between one and two entries, or the entry is the frame's last.
  predicate CountOk(h: Handler, element: nat)
    requires h.Sides()
  {
    var entry, f := h.info[h.producer].entry, h.fifo[h.producer];
    entry <= element <= 2 * entry || f.tail + entry == f.max
  }

  // What is unread of the producer's own frame, of the other side's frame if it lies in the same buffer, and the new
  // entry fit into the ring.
  predicate HasRoom(h: Handler)
    requires h.Sides()
  {
    var p, c := h.producer, h.consumer;
    var both := p != c && h.info[p].addr == h.info[c].addr;
    h.fifo[p].Unread() + (if both then h.fifo[c].Unread() else 0) + h.info[p].entry <= h.fifo[p].depth
  }

  // The configuration now in force has the same buffer, frame and last entry.
  predicate SameBuffer(i: Info, base: Info) { i.addr == base.addr && i.frame == base.frame && i.last == base.last }

  // A push is taken exactly in the normal status, with a count that is right and room in the ring. It adds an entry; if
  // that completes the frame, the other side begins the next one where this one ends, or at the start of a new buffer.
  predicate PushDone(h: Handler, element: nat, g: Handler, ok: bool)
    requires h.Sides() && g.Sides() && h.fifo[h.producer].depth > 0
  {
    var p, i, f := h.producer, h.info[h.producer], h.fifo[h.producer];
    && (ok <==> h.status == 0 && CountOk(h, element) && HasRoom(h))
    && g.base == h.base && g.consumer == h.consumer && g.currentN == h.currentN && g.info[p] == i
    && (h.status != 0 ==> g == h)
    && (h.status == 0 && !ok ==>
          && g.producer == p && OtherKept(h, g, p)
          && (if CountOk(h, element) then g.status == -39 && g.fifo[p] == f.(overflow := true)
              else g.status == -40 && g.fifo[p] == f))
    && (ok ==>
          && g.status == 0 && g.fifo[p] == f.(tail := f.tail + i.entry)
          && if f.tail + i.entry != f.max then g.producer == p && OtherKept(h, g, p)
             else g.producer == 1 - p
                  && Begins(g, 1 - p, if SameBuffer(i, h.base) then (f.offset + i.used) % f.depth else 0))
  }

  lemma PushIs(h: Handler, element: nat)
    requires h.Sides() && h.fifo[h.producer].depth > 0
    ensures var (g, ok) := Push(h, element); g.Sides() && PushDone(h, element, g, ok)
  {
  }

  // A pop reads the lines asked for if there are as many, else none, and says it succeeded all the same. After the last
  // line of a frame the consumer goes to the other side, where the producer has to be.
  predicate PopDone(h: Handler, lines: nat, g: Handler, ok: bool)
    requires h.Sides() && g.Sides()
  {
    var c, f := h.consumer, h.fifo[h.consumer];
    var head := if f.overflow || lines > f.Unread() then f.head else f.head + lines;
    if h.status != 0 || f.Unread() == 0 then g == h && !ok
    else
      && g.producer == h.producer && g.currentN == h.currentN && g.base == h.base && g.info == h.info
      && g.fifo[c] == f.(head := head) && g.fifo[1 - c] == h.fifo[1 - c]
      && (head > h.info[c].frame ==> !ok && g.status == -38 && g.consumer == c)
      && (head <= h.info[c].frame && head != f.max ==> ok && g.status == 0 && g.consumer == c)
      && (head <= h.info[c].frame && head == f.max ==>
            g.consumer == 1 - c && (ok <==> h.producer == 1 - c) && g.status == if ok then 0 else -37)
  }

  lemma PopIs(h: Handler, lines: nat)
    requires h.Sides()
    ensures var (g, ok) := Pop(h, lines); g.Sides() && PopDone(h, lines, g, ok)
  {
  }

  // After a reset both flags are on the producer's side, which begins the next frame where the one given up would have
  // ended.
  predicate ResetDone(h: Handler, g: Handler)
    requires h.Sides() && g.Sides() && h.fifo[h.producer].depth > 0
  {
    var p := h.producer;
    && g.consumer == g.producer == p && g.base == h.base && OtherKept(h, g, p)
    && Begins(g, p, (h.fifo[p].offset + h.info[p].used) % h.fifo[p].depth)
  }

  lemma ResetIs(h: Handler)
    requires h.Sides() && h.fifo[h.producer].depth > 0
    ensures Reset(h).Sides() && ResetDone(h, Reset(h)) && Reset(h).status == h.status && Reset(h).currentN == h.currentN
  {
  }

  // ---- reading the ring ----

  /** A run of `lines` lines of the ring from index `first`. */
  datatype Segment = Segment(first: nat, lines: nat)

  // ispc_get_entry_to_pop: one segment, or two when the lines wrap around the end of the buffer.
  function EntryToPop(h: Handler, lines: nat): Option<(Segment, Segment)>
    requires h.Sides() && h.fifo[h.consumer].depth > 0
  {
    var f := h.fifo[h.consumer];
    if f.tail == f.head || lines > f.depth || lines > f.Unread() then None
    else
      var start := (f.head + f.offset) % f.depth;
      if f.depth >= start + lines then Some((Segment(start, lines), Segment(0, 0)))
      else Some((Segment(start, f.depth - start), Segment(0, lines - (f.depth - start))))
  }

  // isp_get_next_entry: how many lines to take; a negative test hides a failing lookup there too.
  function NextEntry(h: Handler): (Handler, Option<nat>)
    requires h.Sides()
  {
    var f, info := h.fifo[h.consumer], h.info[h.consumer];
    if h.status != EHW_OK || f.tail == f.head then (h, None)
    else if f.head + info.entry <= f.tail then (h, Some(info.entry))
    else if f.head + info.last <= f.tail then (h, Some(info.last))
    else (h.(status := EHW_ERROR_POP_FAIL), None)
  }

  // post_isp_get_next_entry: where the task writes the next entry.
  function PostNextEntry(h: Handler): (Handler, Option<Segment>)
    requires h.Sides() && h.fifo[h.producer].depth > 0 && h.info[h.producer].entry > 0
  {
    var f, info := h.fifo[h.producer], h.info[h.producer];
    var index := (f.tail + f.offset) % f.depth;
    if index % info.entry != 0 then (h.(status := EHW_ERROR_PARMA_INVALID), None)
    else (h, Some(Segment(index, if f.tail == f.max - info.last then info.last else info.entry)))
  }

  // ---- configuration ----

  // ispc_base_info_update followed by the `used` line of each configuration.
  function BaseInfo(hor: nat, ver: nat, entry: nat, addr: int, bufferSize: nat, lineSize: nat, post: bool): Option<Info>
    requires entry > 0 && lineSize > 0
  {
    if hor > MAX_HORIZONTAL || ver > MAX_VERTICAL || entry > LINES_MASK || bufferSize % lineSize != 0 || addr == 0 then
      None
    else
      var last := if ver % entry == 0 then entry else ver % entry;
      var used := if post then ver - last + entry else ver;
      Some(Info(entry, ver, last, lineSize, bufferSize / lineSize, used, addr))
  }

  // isp_handler_config and post_isp_handler_config; only side 0 is filled in.
  function Configured(h: Handler, base: Info): Handler
    requires h.Sides()
  {
    h.(base := base, consumer := 0, producer := 0, info := h.info[0 := base], fifo := h.fifo[0 := NewFifo(base, 0)])
  }
}
