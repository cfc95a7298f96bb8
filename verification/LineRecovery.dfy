// Recovery after an overflow, with the hardware writing on all the while: when the lines the FIFO offers are the ones
// the hardware wrote there.

module LineRecovery {
  import opened LineFifo
  import opened LineRuns
  import opened Modular

  /** `frames` counts the frames the hardware finished, `line` the lines of the current one it has announced, `missed`
      the frames that finished while the task had not yet left the overflow status. */
  datatype Timed = Timed(w: World, frames: nat, line: nat, missed: nat)

  /** The hardware writes a frame line by line, interrupts when an entry is complete, and reports the frame done; the
      task takes lines, and after an overflow moves the recovery on (its `update_state` calls, which it makes only in
      the overflow and recovering statuses). */
  datatype Tick = HardwareWrites | LineInterrupt | FrameInterrupt | TaskTakes(lines: nat) | TaskUpdates

  // The handler's push argument: the hardware's line counter less the lines pushed, in 16 bits.
  function Element(t: Timed): nat
    requires t.w.h.Sides()
  {
    (t.line + t.w.h.base.entry - t.w.h.fifo[t.w.h.producer].tail) % 0x1_0000
  }

  predicate Possible(t: Timed, e: Tick) {
    match e
    case HardwareWrites => t.w.ahead < t.w.h.base.entry && t.line + t.w.ahead < t.w.h.base.frame
    case LineInterrupt => t.w.ahead == t.w.h.base.entry
    case FrameInterrupt => t.line == t.w.h.base.frame
    case TaskTakes(_) => true
    case TaskUpdates => t.w.h.status in {EHW_ERROR_OVER_FLOW, EHW_RECOVERYING}
  }

  function EventOf(t: Timed, e: Tick): Event
    requires t.w.h.Sides()
  {
    match e
    case HardwareWrites => Writes
    case LineInterrupt => Line(Element(t), t.line + t.w.h.base.entry)
    case FrameInterrupt => IspFrame
    case TaskTakes(lines) => Take(lines)
    case TaskUpdates => IspUpdated
  }

  ghost function After(t: Timed, e: Tick): Timed
    requires Inv(t.w)
  {
    var t' := t.(w := Step(t.w, EventOf(t, e)));
    match e
    case LineInterrupt => t'.(line := t.line + t.w.h.base.entry)
    case FrameInterrupt =>
      t'.(line := 0, frames := t.frames + 1, missed := t.missed + if t.w.h.status == EHW_ERROR_OVER_FLOW then 1 else 0)
    case _ => t'
  }

  // The hardware's count is its frames and lines; the producer's frame is the hardware's, less the frames missed, one
  // more once it is complete.
  ghost predicate Synced(t: Timed) {
    && Inv(t.w) && !t.w.post && t.w.Announced() == t.frames * t.w.h.base.frame + t.line
    && t.line + t.w.ahead <= t.w.h.base.frame <= 0xFFFF && t.missed <= t.frames && Whole(t.line, t.w.h.base.entry)
    && (var h, frame, k, tail := t.w.h, t.w.h.base.frame, t.frames - t.missed, t.w.h.fifo[t.w.h.producer].tail;
        && h.status in {EHW_OK, EHW_ERROR_OVER_FLOW, EHW_RECOVERYING, EHW_RECOVERY_DONE}
        && (h.status == EHW_OK ==>
              if t.line < frame then t.w.producerLine == k * frame && tail == t.line
              else t.w.producerLine == (k + 1) * frame && tail == 0)
        && (h.status in {EHW_ERROR_OVER_FLOW, EHW_RECOVERYING} ==> t.w.producerLine == k * frame)
        && (h.status == EHW_RECOVERY_DONE ==> t.w.producerLine == (k + 1) * frame))
  }

  // ---- every tick keeps it ----

  lemma WriteStaysInStep(t: Timed)
    requires Synced(t) && Possible(t, HardwareWrites)
    ensures Synced(After(t, HardwareWrites))
  {
    StepKeeps(t.w, Writes);
    hide Linked, Writing, InOrder, Whole, Index;
  }

  lemma LineStaysInStep(t: Timed)
    requires Synced(t) && Possible(t, LineInterrupt)
    ensures Synced(After(t, LineInterrupt))
  {
    var entry := t.w.h.base.entry;
    ModIs(entry, 1, 0, entry);
    MultipleAdd(t.line, entry, entry);
    StepKeeps(t.w, EventOf(t, LineInterrupt));
    PushMoves(t.w, Element(t));
    if t.w.h.status == EHW_OK { LinePushed(t); }
    hide Linked, Writing, InOrder, Whole, Index;
  }

  // An entry in the normal status: pushed, completing the frame or not, or refused as an overflow.
  lemma LinePushed(t: Timed)
    requires Synced(t) && Possible(t, LineInterrupt) && t.w.h.status == EHW_OK
    ensures var t' := After(t, LineInterrupt);
            var h, w', k := t'.w.h, t'.w, t.frames - t.missed;
            && h.Sides() && h.base == t.w.h.base && h.status in {EHW_OK, EHW_ERROR_OVER_FLOW}
            && (h.status == EHW_OK ==>
                  if t'.line < h.base.frame then w'.producerLine == k * h.base.frame && h.fifo[h.producer].tail ==
                    t'.line
                  else w'.producerLine == (k + 1) * h.base.frame && h.fifo[h.producer].tail == 0)
            && (h.status == EHW_ERROR_OVER_FLOW ==> w'.producerLine == k * h.base.frame)
  {
    var h := t.w.h;
    NextEntryFits(t.w);
    Distribute(t.frames - t.missed, 1, h.base.frame);
    assert Element(t) == h.base.entry by { Small(h.base.entry, 0x1_0000); }
    hide Element, Writing, InOrder, Index, NextOffset, Whole;
  }

  lemma UpdateStaysInStep(t: Timed, e: Tick)
    requires Synced(t) && Possible(t, e) && (e.FrameInterrupt? || e.TaskUpdates?)
    ensures Synced(After(t, e))
  {
    var h := t.w.h;
    StepKeeps(t.w, EventOf(t, e));
    Small(0, h.base.entry);
    Distribute(t.frames - t.missed, 1, h.base.frame);
    Distribute(t.frames, 1, h.base.frame);
    hide Writing, InOrder, Index, NextOffset, Whole;
  }

  lemma TakeStaysInStep(t: Timed, lines: nat)
    requires Synced(t)
    ensures Synced(After(t, TaskTakes(lines)))
  {
    TakeKeeps(t.w, lines);
    TakeLinked(t.w, lines);
    TakeStays(t.w, lines);
    TakeLeavesProducer(t.w, lines);
    hide Linked, Writing, InOrder, Taken, Whole;
  }

  lemma TakeLeavesProducer(w: World, lines: nat)
    requires Inv(w)
    ensures var g := Taken(w, lines);
            && g.h.Sides() && g.h.base == w.h.base && g.producerLine == w.producerLine && g.h.producer == w.h.producer
            && g.h.fifo[g.h.producer].tail == w.h.fifo[w.h.producer].tail
  {
    hide Writing, InOrder, Index, Held;
  }

  lemma StaysInStep(t: Timed, e: Tick)
    requires Synced(t) && Possible(t, e)
    ensures Synced(After(t, e))
  {
    match e
    case HardwareWrites => WriteStaysInStep(t);
    case LineInterrupt => LineStaysInStep(t);
    case TaskTakes(lines) => TakeStaysInStep(t, lines);
    case _ => UpdateStaysInStep(t, e);
  }

  ghost predicate Passes(t: Timed, e: Tick, t': Timed) { Inv(t.w) ==> Possible(t, e) && t' == After(t, e) }

  ghost predicate History(trace: seq<Timed>, ticks: seq<Tick>) {
    && |trace| == |ticks| + 1
    && forall i :: 0 <= i < |ticks| ==> Passes(trace[i], ticks[i], trace[i + 1])
  }

  lemma {:induction false} HistoryInStep(trace: seq<Timed>, ticks: seq<Tick>, i: nat)
    requires History(trace, ticks) && Synced(trace[0]) && i < |trace|
    ensures Synced(trace[i])
  {
    if i > 0 {
      HistoryInStep(trace, ticks, i - 1);
      hide Inv, Possible, After;
      assert Passes(trace[i - 1], ticks[i - 1], trace[i]);
      StaysInStep(trace[i - 1], ticks[i - 1]);
    }
  }

  // ---- what it means for the lines ----

  // In the normal status line n of the FIFO stands for the hardware's line that many missed frames further on.
  lemma ShiftIsMissed(t: Timed)
    requires Synced(t) && t.w.h.status == EHW_OK
    ensures t.w.shift == t.missed * t.w.h.base.used
  {
    Distribute(t.frames, t.missed, t.w.h.base.frame);
    Distribute(t.frames - t.missed, 1, t.w.h.base.frame);
    hide Index, Whole;
  }

  /** Over every run of the hardware and the task, in the normal status: an unread line is the one the hardware wrote if
      and only if the frames that ended during an unnoticed overflow fill whole rings, so always when there were none,
      and the hardware has not come round to the line again. */
  lemma LineIsTheHardwares(trace: seq<Timed>, ticks: seq<Tick>, i: nat, n: int)
    requires History(trace, ticks) && Synced(trace[0]) && i < |trace| && trace[i].w.h.status == EHW_OK
    requires trace[i].w.h.Sides() && trace[i].w.Read() <= n < trace[i].w.Written()
    ensures var t, b := trace[i], trace[i].w.h.base;
            && b.depth > 0 && 0 <= t.w.At(n) < |t.w.ring|
            && (t.w.ring[t.w.At(n)] == n + t.missed * b.used <==>
                (t.missed * b.used) % b.depth == 0 && t.w.next - b.depth <= n + t.missed * b.used)
  {
    HistoryInStep(trace, ticks, i);
    ShiftIsMissed(trace[i]);
    LineInPlace(trace[i].w, n);
    AtInRing(trace[i].w, n);
    hide Linked, InOrder, Index;
  }

  /** All unread lines are the hardware's if and only if there are none, or the missed frames fill whole rings and the
      lines written ahead of their interrupt fit beside the unread ones. */
  lemma RingIsIntact(trace: seq<Timed>, ticks: seq<Tick>, i: nat)
    requires History(trace, ticks) && Synced(trace[0]) && i < |trace| && trace[i].w.h.status == EHW_OK
    ensures var t, w, b := trace[i], trace[i].w, trace[i].w.h.base;
            && w.h.Sides() && b.depth > 0 && w.shift == t.missed * b.used
            && ((forall n :: w.Read() <= n < w.Written() ==> w.InPlace(n)) <==>
                w.Read() == w.Written()
                || ((t.missed * b.used) % b.depth == 0 && w.Written() + w.ahead - w.Read() <= b.depth))
  {
    HistoryInStep(trace, ticks, i);
    ShiftIsMissed(trace[i]);
    UnreadInPlace(trace[i].w);
    hide Writing, InOrder, Index, Whole;
  }

  /** At the start of a frame with the status back to normal, the active side is where the hardware writes under the
      same condition. Both flags then agree and nothing stale is left. */
  lemma RecoveryResynchronises(trace: seq<Timed>, ticks: seq<Tick>, i: nat)
    requires History(trace, ticks) && Synced(trace[0]) && i < |trace| && trace[i].line == 0
             && trace[i].w.h.status == EHW_OK
    ensures var t, h := trace[i], trace[i].w.h;
            && h.Sides() && h.base.depth > 0 && h.fifo[h.producer].head <= h.fifo[h.producer].tail == 0
            && (h.fifo[h.producer].offset == Index(t.w.start + t.frames * h.base.used, h.base.depth) <==>
                (t.missed * h.base.used) % h.base.depth == 0)
  {
    HistoryInStep(trace, ticks, i);
    var t, h := trace[i], trace[i].w.h;
    Distribute(t.frames, t.missed, h.base.frame);
    SameRemainder(t.w.start + t.w.producerLine, t.missed * h.base.frame, h.base.depth);
    hide Writing, InOrder, Whole;
  }

  /** The frame interrupt that ends a recovery: both flags agree, the ring is empty and starts where the next frame
      will, as far as the FIFO knows. */
  lemma RecoveryEndsEmpty(t: Timed)
    requires Synced(t) && t.line == t.w.h.base.frame && t.w.h.status == EHW_RECOVERY_DONE
    ensures var t' := After(t, FrameInterrupt);
            var h := t'.w.h;
            && h.status == EHW_OK && h.Sides() && h.consumer == h.producer && h.fifo[h.consumer].Unread() == 0
            && t'.missed == t.missed && t'.w.producerLine == (t'.frames - t'.missed) * h.base.used
            && h.fifo[h.producer].offset == Index(t'.w.start + t'.w.producerLine, h.base.depth)
  {
    hide Writing, InOrder, Index, Whole;
  }
}
