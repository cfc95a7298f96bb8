// Runs in which the line ring goes wrong: a recovery that comes back out of step, and a line overwritten before the
// push that would have refused it.

module LineWitness {
  import opened LineFifo
  import opened LineRuns
  import opened LineRecovery
  import opened LineTheorems
  import opened Modular

  // A configured handler at work on its first side.
  function OneSided(base: Info, status: int, currentN: nat, f: Fifo): Handler {
    Fresh(base).(status := status, currentN := currentN, fifo := Fresh(base).fifo[0 := f])
  }

  // A configured handler starts in step.
  lemma OutsetIsSynced(base: Info)
    requires Suits(base) && base.frame <= 0xFFFF
    ensures Fresh(base).Sides() && Synced(Timed(Outset(Fresh(base), false), 0, 0, 0))
  {
    Small(0, base.entry);
    Small(0, base.depth);
    var w := Outset(Fresh(base), false);
    hide Index, Whole;
    assert Placed(w) && Latest(w);
  }

  // ---- a recovery out of step ----

  // Entries of one line, frames of three, a ring of two.
  const SHORT_RING := Info(1, 3, 1, 1, 2, 3, 1)

  function At(status: int, currentN: nat, tail: nat, offset: nat, overflow: bool, first: nat, ring: seq<int>,
              next: nat, ahead: nat,
              shift: int, frames: nat, line: nat, missed: nat): Timed
  {
    var h := OneSided(SHORT_RING, status, currentN, Fifo(0, tail, 2, 3, offset, overflow));
    Timed(World(false, h, 0, first, first, ring, next, ahead, shift, [], []), frames, line, missed)
  }

  const LOST_START := At(EHW_OK, 0, 0, 0, false, 0, [-1, -1], 0, 0, 0, 0, 0, 0)
  const LOST_END := At(EHW_OK, 1, 1, 1, false, 3, [6, 5], 7, 0, 3, 2, 1, 1)

  // The task takes nothing: the third line of the first frame overflows, the frame ends before the task notices, the
  // recovery takes the second frame, and the third frame's first line is pushed.
  const LOST: seq<Timed> := [
    LOST_START,
    At(EHW_OK, 0, 0, 0, false, 0, [0, -1], 1, 1, 0, 0, 0, 0),
    At(EHW_OK, 1, 1, 0, false, 0, [0, -1], 1, 0, 0, 0, 1, 0),
    At(EHW_OK, 1, 1, 0, false, 0, [0, 1], 2, 1, 0, 0, 1, 0),
    At(EHW_OK, 2, 2, 0, false, 0, [0, 1], 2, 0, 0, 0, 2, 0),
    At(EHW_OK, 2, 2, 0, false, 0, [2, 1], 3, 1, 0, 0, 2, 0),
    At(EHW_ERROR_OVER_FLOW, 3, 2, 0, true, 0, [2, 1], 3, 0, 0, 0, 3, 0),
    At(EHW_ERROR_OVER_FLOW, 3, 2, 0, true, 0, [2, 1], 3, 0, 0, 1, 0, 1),
    At(EHW_RECOVERYING, 3, 2, 0, true, 0, [2, 1], 3, 0, 0, 1, 0, 1),
    At(EHW_RECOVERY_DONE, 3, 0, 1, false, 3, [2, 1], 3, 0, 0, 1, 0, 1),
    At(EHW_RECOVERY_DONE, 3, 0, 1, false, 3, [2, 3], 4, 1, 0, 1, 0, 1),
    At(EHW_RECOVERY_DONE, 1, 0, 1, false, 3, [2, 3], 4, 0, 0, 1, 1, 1),
    At(EHW_RECOVERY_DONE, 1, 0, 1, false, 3, [4, 3], 5, 1, 0, 1, 1, 1),
    At(EHW_RECOVERY_DONE, 2, 0, 1, false, 3, [4, 3], 5, 0, 0, 1, 2, 1),
    At(EHW_RECOVERY_DONE, 2, 0, 1, false, 3, [4, 5], 6, 1, 0, 1, 2, 1),
    At(EHW_RECOVERY_DONE, 3, 0, 1, false, 3, [4, 5], 6, 0, 0, 1, 3, 1),
    At(EHW_OK, 3, 0, 1, false, 3, [4, 5], 6, 0, 3, 2, 0, 1),
    At(EHW_OK, 3, 0, 1, false, 3, [6, 5], 7, 1, 3, 2, 0, 1),
    LOST_END]

  const LOST_TICKS: seq<Tick> := [
    HardwareWrites, LineInterrupt, HardwareWrites, LineInterrupt, HardwareWrites, LineInterrupt, FrameInterrupt,
    TaskUpdates, TaskUpdates,
    HardwareWrites, LineInterrupt, HardwareWrites, LineInterrupt, HardwareWrites, LineInterrupt, FrameInterrupt,
    HardwareWrites, LineInterrupt]

  /** A run from a configured handler that is back in the normal status with a frame missed and not whole rings of lines
      with it: the unread line the FIFO offers is not the one the hardware wrote there. */
  lemma RecoveryOutOfStep() returns (trace: seq<Timed>, ticks: seq<Tick>)
    ensures |trace| == 19 && trace[0] == LOST_START && trace[18] == LOST_END
    ensures LOST_END.w.h.status == EHW_OK && (LOST_END.missed * SHORT_RING.used) % SHORT_RING.depth != 0
    ensures LOST_END.w.Read() == 3 && LOST_END.w.Written() == 4 && !LOST_END.w.InPlace(3)
    ensures LOST_START.w == Outset(Fresh(SHORT_RING), false)
    ensures Synced(LOST_START) && History(trace, ticks)
  {
    trace, ticks := LOST, LOST_TICKS;
    LostStarts();
    hide Synced, Passes;
    forall i | 0 <= i < |ticks| ensures Passes(trace[i], ticks[i], trace[i + 1]) { LostPasses(i); }
  }

  lemma LostPasses(i: nat)
    requires i < 18
    ensures Passes(LOST[i], LOST_TICKS[i], LOST[i + 1])
  {
    hide Passes;
    if i < 7 { LostOverflows(i); }
    else if i < 9 { LostRecovers(i); }
    else if i < 15 { LostGoesOn(i); }
    else { LostReturns(i); }
  }

  lemma LostStarts()
    ensures LOST_START.w == Outset(Fresh(SHORT_RING), false) && Synced(LOST_START)
  {
    hide Synced, Inv;
    LostStartIs();
    OutsetIsSynced(SHORT_RING);
    hide LOST_START, Outset, Fresh;
  }

  lemma LostStartIs()
    ensures LOST_START == Timed(Outset(Fresh(SHORT_RING), false), 0, 0, 0) && Suits(SHORT_RING)
  {
    assert LOST_START.w.ring == seq(2, _ => -1);
  }

  lemma LostOverflows(i: nat)
    requires i < 7
    ensures Passes(LOST[i], LOST_TICKS[i], LOST[i + 1])
  {
    hide Inv;
  }

  lemma LostRecovers(i: nat)
    requires 7 <= i < 9
    ensures Passes(LOST[i], LOST_TICKS[i], LOST[i + 1])
  {
    hide Inv;
  }

  lemma LostGoesOn(i: nat)
    requires 9 <= i < 15
    ensures Passes(LOST[i], LOST_TICKS[i], LOST[i + 1])
  {
    hide Inv;
  }

  lemma LostReturns(i: nat)
    requires 15 <= i < 18
    ensures Passes(LOST[i], LOST_TICKS[i], LOST[i + 1])
  {
    hide Inv;
  }

  // ---- a line overwritten in the normal status ----

  // One line, which is the frame and the ring.
  const ONE_LINE := Info(1, 1, 1, 1, 1, 1, 1)

  // The second side at work, the first frame's line still unread.
  const SECOND_SIDE := Fresh(ONE_LINE).(producer := 1, currentN := 1, info := [ONE_LINE, ONE_LINE],
                                        fifo := [Fifo(0, 1, 1, 1, 0, false), Fifo(0, 0, 1, 1, 0, false)])

  const TORN_START := Timed(World(false, Fresh(ONE_LINE), 0, 0, 0, [-1], 0, 0, 0, [], []), 0, 0, 0)
  const TORN_END := Timed(World(false, SECOND_SIDE, 0, 0, 1, [1], 2, 1, 0, [], []), 1, 0, 0)

  // The first frame's line is pushed and not taken; the second frame's is written over it.
  const TORN: seq<Timed> := [
    TORN_START,
    Timed(World(false, Fresh(ONE_LINE), 0, 0, 0, [0], 1, 1, 0, [], []), 0, 0, 0),
    Timed(World(false, SECOND_SIDE, 0, 0, 1, [0], 1, 0, 0, [], []), 0, 1, 0),
    Timed(World(false, SECOND_SIDE, 0, 0, 1, [0], 1, 0, 0, [], []), 1, 0, 0),
    TORN_END]

  const TORN_TICKS: seq<Tick> := [HardwareWrites, LineInterrupt, FrameInterrupt, HardwareWrites]

  /** A run from a configured handler, with no overflow yet and the FIFO in step, in which the hardware has written over
      an unread line: the push that will refuse the entry comes only with the interrupt. */
  lemma OverwrittenBeforeRefused() returns (trace: seq<Timed>, ticks: seq<Tick>)
    ensures |trace| == 5 && trace[0] == TORN_START && trace[4] == TORN_END
    ensures TORN_END.w.h.status == EHW_OK && TORN_END.missed == 0 && TORN_END.w.InStep() && !TORN_END.w.Roomy()
    ensures TORN_END.w.Read() == 0 && TORN_END.w.Written() == 1 && !TORN_END.w.InPlace(0)
    ensures Push(TORN_END.w.h, Element(TORN_END)).0.status == EHW_ERROR_OVER_FLOW
    ensures TORN_START.w == Outset(Fresh(ONE_LINE), false)
    ensures Synced(TORN_START) && History(trace, ticks)
  {
    trace, ticks := TORN, TORN_TICKS;
    TornStarts();
    hide Synced, Passes;
    forall i | 0 <= i < |ticks| ensures Passes(trace[i], ticks[i], trace[i + 1]) { TornPasses(i); }
  }

  lemma TornStarts()
    ensures TORN_START.w == Outset(Fresh(ONE_LINE), false) && Synced(TORN_START)
  {
    hide Synced, Inv;
    TornStartIs();
    OutsetIsSynced(ONE_LINE);
    hide TORN_START, Outset, Fresh;
  }

  lemma TornStartIs()
    ensures TORN_START == Timed(Outset(Fresh(ONE_LINE), false), 0, 0, 0) && Suits(ONE_LINE)
  {
    assert TORN_START.w.ring == seq(1, _ => -1);
  }

  lemma TornPasses(i: nat)
    requires i < 4
    ensures Passes(TORN[i], TORN_TICKS[i], TORN[i + 1])
  {
    hide Inv;
  }
}
