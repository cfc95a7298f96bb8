// The ready bitmap: a bit per priority in eight rows, a bit per row that is not empty, and the table that
// turns a byte into the number of its lowest bit.

module ReadyTables {

  /** A byte as its bits, lowest first. */
  type Bits = s: seq<bool> | |s| == 8 witness [false, false, false, false, false, false, false, false]

  const NO_BITS: Bits := [false, false, false, false, false, false, false, false]
  const IDLE_PRIO := 15

  // task_ummap, sixteen entries to the row.
  const UMMAP: seq<seq<nat>> := [
    [0, 0, 1, 0, 2, 0, 1, 0, 3, 0, 1, 0, 2, 0, 1, 0],
    [4, 0, 1, 0, 2, 0, 1, 0, 3, 0, 1, 0, 2, 0, 1, 0],
    [5, 0, 1, 0, 2, 0, 1, 0, 3, 0, 1, 0, 2, 0, 1, 0],
    [4, 0, 1, 0, 2, 0, 1, 0, 3, 0, 1, 0, 2, 0, 1, 0],
    [6, 0, 1, 0, 2, 0, 1, 0, 3, 0, 1, 0, 2, 0, 1, 0],
    [4, 0, 1, 0, 2, 0, 1, 0, 3, 0, 1, 0, 2, 0, 1, 0],
    [5, 0, 1, 0, 2, 0, 1, 0, 3, 0, 1, 0, 2, 0, 1, 0],
    [4, 0, 1, 0, 2, 0, 1, 0, 3, 0, 1, 0, 2, 0, 1, 0],
    [7, 0, 1, 0, 2, 0, 1, 0, 3, 0, 1, 0, 2, 0, 1, 0],
    [4, 0, 1, 0, 2, 0, 1, 0, 3, 0, 1, 0, 2, 0, 1, 0],
    [5, 0, 1, 0, 2, 0, 1, 0, 3, 0, 1, 0, 2, 0, 1, 0],
    [4, 0, 1, 0, 2, 0, 1, 0, 3, 0, 1, 0, 2, 0, 1, 0],
    [6, 0, 1, 0, 2, 0, 1, 0, 3, 0, 1, 0, 2, 0, 1, 0],
    [4, 0, 1, 0, 2, 0, 1, 0, 3, 0, 1, 0, 2, 0, 1, 0],
    [5, 0, 1, 0, 2, 0, 1, 0, 3, 0, 1, 0, 2, 0, 1, 0],
    [4, 0, 1, 0, 2, 0, 1, 0, 3, 0, 1, 0, 2, 0, 1, 0]
  ]

  function Nibble(a: bool, b: bool, c: bool, d: bool): (n: nat)
    ensures n < 16
  {
    (if a then 1 else 0) + (if b then 2 else 0) + (if c then 4 else 0) + (if d then 8 else 0)
  }

  function Unmap(b: Bits): nat { UMMAP[Nibble(b[4], b[5], b[6], b[7])][Nibble(b[0], b[1], b[2], b[3])] }

  /** The table gives the lowest bit of every byte that has one. */
  lemma UnmapIsLowest(b: Bits)
    requires b != NO_BITS
    ensures Unmap(b) < 8 && b[Unmap(b)] && forall i :: 0 <= i < Unmap(b) ==> !b[i]
  {
    if b[0] || b[1] || b[2] || b[3] {
      LowNibble(b);
    } else {
      HighNibble(b);
    }
  }

  lemma LowNibble(b: Bits)
    requires b[0] || b[1] || b[2] || b[3]
    ensures Unmap(b) == if b[0] then 0 else if b[1] then 1 else if b[2] then 2 else 3
  {
    var n := Nibble(b[0], b[1], b[2], b[3]);
    assert UMMAP[Nibble(b[4], b[5], b[6], b[7])][1..] == [0, 1, 0, 2, 0, 1, 0, 3, 0, 1, 0, 2, 0, 1, 0];
    assert UMMAP[Nibble(b[4], b[5], b[6], b[7])][n] == [0, 1, 0, 2, 0, 1, 0, 3, 0, 1, 0, 2, 0, 1, 0][n - 1];
  }

  lemma HighNibble(b: Bits)
    requires !b[0] && !b[1] && !b[2] && !b[3] && (b[4] || b[5] || b[6] || b[7])
    ensures Unmap(b) == if b[4] then 4 else if b[5] then 5 else if b[6] then 6 else 7
  {
  }

  /** g_task_rdy_grp and g_task_rdy_Tbl. */
  datatype Table = Table(grp: Bits, rows: seq<Bits>) {
    predicate Has(p: nat) { |rows| == 8 && p < 64 && rows[p / 8][p % 8] }

    // A row's group bit is set exactly when the row is not empty.
    ghost predicate Valid() { |rows| == 8 && forall r :: 0 <= r < 8 ==> (grp[r] <==> rows[r] != NO_BITS) }
  }

  // (pri >> 3) & 7 and pri & 7
  function Msb(pri: nat): nat { pri / 8 % 8 }

  function Set(t: Table, pri: nat): Table
    requires |t.rows| == 8
  {
    Table(t.grp[Msb(pri) := true], t.rows[Msb(pri) := t.rows[Msb(pri)][pri % 8 := true]])
  }

  // `done` is the task's emptiness check, when it has one.
  function Clear(t: Table, pri: nat, done: bool): Table
    requires |t.rows| == 8
  {
    if !done then t
    else
      var row: Bits := t.rows[Msb(pri)][pri % 8 := false];
      Table(if row == NO_BITS then t.grp[Msb(pri) := false] else t.grp, t.rows[Msb(pri) := row])
  }

  lemma SomeBit(b: Bits, i: nat)
    requires i < 8 && b[i]
    ensures b != NO_BITS
  {
  }

  /** Setting and clearing refine adding to and removing from the set of ready priorities. */
  lemma SetAdds(t: Table, pri: nat, p: nat)
    requires t.Valid() && pri < 64 && p < 64
    ensures Set(t, pri).Valid() && (Set(t, pri).Has(p) <==> t.Has(p) || p == pri)
  {
    SomeBit(t.rows[pri / 8][pri % 8 := true], pri % 8);
  }

  lemma ClearRemoves(t: Table, pri: nat, done: bool, p: nat)
    requires t.Valid() && pri < 64 && p < 64
    ensures Clear(t, pri, done).Valid() && (Clear(t, pri, done).Has(p) <==> t.Has(p) && !(done && p == pri))
  {
    var t', r, b := Clear(t, pri, done), pri / 8, pri % 8;
    assert Msb(pri) == r;
    assert t'.Valid();
    assert done ==> t'.rows == t.rows[r := t.rows[r][b := false]];
    assert p / 8 == r && p % 8 == b ==> p == pri;
  }

  // The priorities an interrupt sets between the two reads.
  function SetAll(t: Table, pris: seq<nat>): (r: Table)
    requires |t.rows| == 8
    ensures |r.rows| == 8
  {
    if pris == [] then t else Set(SetAll(t, pris[..|pris| - 1]), pris[|pris| - 1])
  }

  lemma {:induction false} SetAllAdds(t: Table, pris: seq<nat>, p: nat)
    requires t.Valid() && p < 64 && forall q :: q in pris ==> q < 64
    ensures SetAll(t, pris).Valid() && (SetAll(t, pris).Has(p) <==> t.Has(p) || p in pris)
  {
    if pris != [] {
      var first, last := pris[..|pris| - 1], pris[|pris| - 1];
      assert pris == first + [last];
      assert last in pris;
      forall q | q in first ensures q < 64 { assert q in pris; }
      SetAllAdds(t, first, p);
      SetAdds(SetAll(t, first), last, p);
    }
  }

  // get_ready_task: the row from the group as first read, the bit from the row as read later.
  function Select(before: Table, after: Table): nat
    requires |after.rows| == 8 && before.grp != NO_BITS
  {
    UnmapIsLowest(before.grp);
    8 * Unmap(before.grp) + Unmap(after.rows[Unmap(before.grp)])
  }

  /** The selected priority is ready, and no priority that was ready when the group was read is more urgent, even when
      interrupts set bits between the two reads. */
  lemma SelectIsMostUrgent(t: Table, pris: seq<nat>, p: nat)
    requires t.Valid() && t.grp != NO_BITS && (forall q :: q in pris ==> q < 64) && p < 64
    ensures var after := SetAll(t, pris);
            && Select(t, after) < 64 && after.Has(Select(t, after)) && (t.Has(p) ==> Select(t, after) <= p)
  {
    hide Unmap, SetAll;
    var after, r := SetAll(t, pris), Unmap(t.grp);
    UnmapIsLowest(t.grp);
    UnmapIsLowest(t.rows[r]);
    SetAllKeeps(t, pris, r, Unmap(t.rows[r]));
    SomeBit(after.rows[r], Unmap(t.rows[r]));
    UnmapIsLowest(after.rows[r]);
    RowBit(after, r, Unmap(after.rows[r]));
    if t.Has(p) {
      SetAllKeeps(t, pris, p / 8, p % 8);
      SomeBit(t.rows[p / 8], p % 8);
      assert r <= p / 8;
    }
  }

  // A bit that was set is set after more are.
  lemma SetAllKeeps(t: Table, pris: seq<nat>, r: nat, b: nat)
    requires t.Valid() && (forall q :: q in pris ==> q < 64) && r < 8 && b < 8 && t.rows[r][b]
    ensures SetAll(t, pris).rows[r][b]
  {
    RowBit(t, r, b);
    RowBit(SetAll(t, pris), r, b);
    SetAllAdds(t, pris, 8 * r + b);
  }

  lemma RowBit(t: Table, r: nat, b: nat)
    requires |t.rows| == 8 && r < 8 && b < 8
    ensures t.Has(8 * r + b) <==> t.rows[r][b]
  {
  }

  // ---- runs ----

  datatype Step = Ready(pri: nat) | Done(pri: nat, empty: bool)

  // The idle task's emptiness check always says no.
  predicate Allowed(e: Step) {
    match e
    case Ready(pri) => pri < 64
    case Done(pri, empty) => pri < 64 && (pri == IDLE_PRIO ==> !empty)
  }

  function Take(t: Table, e: Step): (r: Table)
    requires |t.rows| == 8
    ensures |r.rows| == 8
  {
    match e
    case Ready(pri) => Set(t, pri)
    case Done(pri, empty) => Clear(t, pri, empty)
  }

  function After(t: Table, steps: seq<Step>): (r: Table)
    requires |t.rows| == 8
    ensures |r.rows| == 8
  {
    if steps == [] then t else Take(After(t, steps[..|steps| - 1]), steps[|steps| - 1])
  }

  const EMPTY := Table(NO_BITS, [NO_BITS, NO_BITS, NO_BITS, NO_BITS, NO_BITS, NO_BITS, NO_BITS, NO_BITS])

  /** After boot has set the idle priority, over any run the group bits stay in step and the idle bit stays set, so
      there is always a task to select. */
  lemma {:induction false} IdleStaysReady(steps: seq<Step>)
    requires forall e :: e in steps ==> Allowed(e)
    ensures var t := After(Set(EMPTY, IDLE_PRIO), steps); t.Valid() && t.Has(IDLE_PRIO) && t.grp != NO_BITS
  {
    if steps == [] {
      SetAdds(EMPTY, IDLE_PRIO, IDLE_PRIO);
    } else {
      var last := steps[|steps| - 1];
      IdleStaysReady(steps[..|steps| - 1]);
      var t := After(Set(EMPTY, IDLE_PRIO), steps[..|steps| - 1]);
      assert last in steps;
      match last
      case Ready(pri) => SetAdds(t, pri, IDLE_PRIO);
      case Done(pri, empty) => ClearRemoves(t, pri, empty, IDLE_PRIO);
    }
    var t := After(Set(EMPTY, IDLE_PRIO), steps);
    SomeBit(t.rows[1], 7);
    SomeBit(t.grp, 1);
  }

  class ReadyTable {
    var grp: Bits
    var tbl: array<Bits>

    ghost function View(): Table
      reads this, tbl
    {
      Table(grp, tbl[..])
    }

    /** The priority joins the ready ones. */
    method SetReadyTask(pri: nat)
      requires tbl.Length == 8
      modifies `grp, tbl
      ensures View() == Set(old(View()), pri)
      ensures old(View().Valid()) && pri < 64 ==>
                View().Valid() && forall p :: 0 <= p < 64 ==> (View().Has(p) <==> old(View()).Has(p) || p == pri)
    {
      if View().Valid() && pri < 64 {
        SetAdds(View(), pri, pri);
        forall p | 0 <= p < 64 { SetAdds(View(), pri, p); }
      }
      var lsb, msb := pri % 8, pri / 8 % 8;
      tbl[msb] := tbl[msb][lsb := true];
      grp := grp[msb := true];
    }

    /** The priority leaves the ready ones, when its task has nothing left to do. */
    method ClrReadyTask(pri: nat, done: bool)
      requires tbl.Length == 8
      modifies `grp, tbl
      ensures View() == Clear(old(View()), pri, done)
      ensures old(View().Valid()) && pri < 64 ==>
                View().Valid() && forall p :: 0 <= p < 64 ==>
                  (View().Has(p) <==> old(View()).Has(p) && !(done && p == pri))
    {
      if View().Valid() && pri < 64 {
        ClearRemoves(View(), pri, done, pri);
        forall p | 0 <= p < 64 { ClearRemoves(View(), pri, done, p); }
      }
      var lsb, msb := pri % 8, pri / 8 % 8;
      if !done { return; }
      tbl[msb] := tbl[msb][lsb := false];
      if tbl[msb] == NO_BITS { grp := grp[msb := false]; }
    }

    /** `between` are the priorities interrupts set between reading the group and reading the row. */
    method GetReadyTask(between: seq<nat>) returns (pri: nat)
      requires tbl.Length == 8 && View().Valid() && grp != NO_BITS && forall p :: p in between ==> p < 64
      modifies `grp, tbl
      ensures View() == SetAll(old(View()), between) && View().Valid()
      ensures pri < 64 && View().Has(pri)
      ensures forall p :: 0 <= p < 64 && old(View()).Has(p) ==> pri <= p
    {
      ghost var before := View();
      UnmapIsLowest(grp);
      var msb := Unmap(grp);
      for i := 0 to |between|
        invariant View() == SetAll(before, between[..i])
      {
        assert between[..i + 1][..i] == between[..i];
        SetReadyTask(between[i]);
      }
      assert between[..|between|] == between;
      forall p: nat | p < 64 ensures before.Has(p) ==> Select(before, View()) <= p {
        SelectIsMostUrgent(before, between, p);
      }
      SelectIsMostUrgent(before, between, 0);
      SetAllAdds(before, between, 0);
      pri := 8 * msb + Unmap(tbl[msb]);
    }
  }
}
