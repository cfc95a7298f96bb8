// The scheduler's tables: sixteen tasks, the slots that give them their ids, and the namespaces of the software tasks.

module Scheds {
  import opened Options
  import opened NsMaps
  import opened Counting

  const PS_MAX_TASK_TYPE := 16

  // csi_dsp_task_mode_e
  const SW_TO_SW := 1
  const SW_TO_HW := 2
  const SW := 3
  const HW_TO_SW := 4
  const HW_TO_HW := 8
  const HW := 12

  predicate HasSw(kind: nat) { kind % 4 != 0 }

  predicate HasHw(kind: nat) { kind / 4 % 4 != 0 }

  datatype TaskStatus = Free | Idle | Ready

  datatype Task = Task(kind: nat, status: TaskStatus, nsid: Nsid)

  /** `slots` is task_handler, `num` task_num, `ns` what the namespace map holds. */
  datatype Tables = Tables(tasks: seq<Task>, slots: seq<Option<nat>>, num: nat, ns: map<Nsid, nat>) {
    predicate Sized() { |tasks| == PS_MAX_TASK_TYPE && |slots| == PS_MAX_TASK_TYPE && num <= PS_MAX_TASK_TYPE }

    ghost predicate Live(t: int)
      requires Sized()
    {
      0 <= t < PS_MAX_TASK_TYPE && tasks[t].status != Free
    }
  }

  // ---- namespace identifiers ----

  const COMMON_CMD: Nsid :=
    [0xf9, 0x3c, 0x09, 0x61, 0x9d, 0x3f, 0x45, 0x29, 0xbd, 0xe9, 0x7a, 0x4b, 0x18, 0x91, 0xdb, 0x15]
  const NO_NSID: Nsid := [0, 0, 0, 0, 0, 0, 0, 0, 0, 0, 0, 0, 0, 0, 0, 0]

  // allocte_ns_id: the common identifier with the priority added to every byte.
  function NsidOf(prio: nat): Nsid {
    seq(NSID_SIZE, i requires 0 <= i < NSID_SIZE => (COMMON_CMD[i] + prio) % 256)
  }

  lemma NsidsDiffer(a: nat, b: nat)
    requires a < b < PS_MAX_TASK_TYPE
    ensures NsidOf(a) != NsidOf(b) && NsidOf(a) != NO_NSID && NsidOf(b) != NO_NSID
    ensures COMMON_CMD == NsidOf(0) && COMMON_CMD != NO_NSID
  {
    assert NsidOf(a)[1] == 0x3c + a && NsidOf(b)[1] == 0x3c + b;
    assert COMMON_CMD[1] == 0x3c && NO_NSID[1] == 0;
    assert forall i :: 0 <= i < NSID_SIZE ==> NsidOf(0)[i] == COMMON_CMD[i];
  }

  // ---- create ----

  // The first free task of a class, or the number of tasks.
  function FirstFree(tasks: seq<Task>, software: bool): (t: nat)
    ensures t <= |tasks|
    ensures t < |tasks| ==> tasks[t].status == Free && (if software then HasSw(tasks[t].kind) else HasHw(tasks[t].kind))
    ensures forall j :: 0 <= j < t ==>
              !(tasks[j].status == Free && if software then HasSw(tasks[j].kind) else HasHw(tasks[j].kind))
  {
    hide HasSw, HasHw;
    if tasks == [] || (tasks[0].status == Free && if software then HasSw(tasks[0].kind)
                       else HasHw(tasks[0].kind)) then 0
    else 1 + FirstFree(tasks[1..], software)
  }

  // The first empty slot, or the number of slots.
  function FirstEmpty(slots: seq<Option<nat>>): (i: nat)
    ensures i <= |slots| && (i < |slots| ==> slots[i] == None) && forall j :: 0 <= j < i ==> slots[j] != None
  {
    if slots == [] || slots[0] == None then 0 else 1 + FirstEmpty(slots[1..])
  }

  /** The response: the status code's meaning and, when it is Ok, the task id. */
  datatype Response = Created(id: nat) | AllocFail | AddToSchedulerFail | IllegalParam | NotValid | Destroyed

  // dsp_add_task_to_scheduler
  function Add(s: Tables, t: nat): Option<(Tables, nat)>
    requires s.Sized()
  {
    if s.num >= PS_MAX_TASK_TYPE then
      var i := FirstEmpty(s.slots);
      if i == |s.slots| then None else Some((s.(slots := s.slots[i := Some(t)]), i))
    else Some((s.(slots := s.slots[s.num := Some(t)], num := s.num + 1), s.num))
  }

  // Whether a request's type is a software or a hardware one.
  predicate SoftwareType(kind: nat) { kind == SW || kind == SW_TO_SW || kind == SW_TO_HW }

  predicate HardwareType(kind: nat) { kind == HW || kind == HW_TO_SW || kind == HW_TO_HW }

  // ps_create_task; `memory` says whether the namespace map gets the memory it may need.
  function Create(s: Tables, kind: nat, memory: bool): (Tables, Response)
    requires s.Sized()
  {
    if !SoftwareType(kind) && !HardwareType(kind) then (s, IllegalParam)
    else
      var t := FirstFree(s.tasks, SoftwareType(kind));
      if t == |s.tasks| then (s, AllocFail)
      else
        var nsid := NsidOf(t);
        var named := s.(tasks := s.tasks[t := s.tasks[t].(nsid := nsid)]);
        if SoftwareType(kind) && (nsid in s.ns || !memory) then (named, AllocFail)
        else
          var registered := named.(ns := if SoftwareType(kind) then s.ns[nsid := t] else s.ns);
          var live := registered.(tasks := s.tasks[t := Task(kind, if kind == SW_TO_SW then Ready else Idle, nsid)]);
          match Add(live, t)
          case None => (live.(tasks := live.tasks[t := live.tasks[t].(status := Free)]), AddToSchedulerFail)
          case Some(added) => (added.0, Created(added.1))
  }

  // ---- destroy ----

  // dsp_remove_task_from_scheduler
  function Remove(s: Tables, id: nat): Tables
    requires s.Sized() && id < PS_MAX_TASK_TYPE
  {
    s.(num := if s.num == id + 1 then s.num - 1 else s.num, slots := s.slots[id := None])
  }

  // ps_destroy_task
  function Destroy(s: Tables, id: nat): (Tables, Response)
    requires s.Sized()
  {
    if id >= PS_MAX_TASK_TYPE || s.slots[id] == None || s.slots[id].value >= PS_MAX_TASK_TYPE then (s, NotValid)
    else
      var t := s.slots[id].value;
      var removed := Remove(s, id);
      (removed.(tasks := s.tasks[t := s.tasks[t].(status := Free)],
                ns := if HasSw(s.tasks[t].kind) then s.ns - {s.tasks[t].nsid} else s.ns), Destroyed)
  }

  // ---- boot ----

  function Boot(): Tables {
    var tasks := seq(PS_MAX_TASK_TYPE, t =>
      Task(if t < 3 then HW else SW, if t == 3 || t == 15 then Idle else Free, if t == 3 then COMMON_CMD else NO_NSID));
    Tables(tasks, seq(PS_MAX_TASK_TYPE, i => if i == 0 then Some(3) else if i == 1 then Some(15) else None), 2,
           map[COMMON_CMD := 3])
  }

  // ---- the invariant ----

  // Slots and live tasks correspond one to one.
  ghost predicate SlotsAreLive(s: Tables)
    requires s.Sized()
  {
    && (forall i :: s.num <= i < PS_MAX_TASK_TYPE ==> s.slots[i] == None)
    && (forall i :: 0 <= i < PS_MAX_TASK_TYPE && s.slots[i].Some? ==> s.Live(s.slots[i].value))
    && (forall i, j :: 0 <= i < j < PS_MAX_TASK_TYPE && s.slots[i].Some? && s.slots[j].Some? ==>
          s.slots[i].value != s.slots[j].value)
    && (forall t :: s.Live(t) ==> HasSlot(s, t))
  }

  ghost predicate HasSlot(s: Tables, t: int)
    requires s.Sized()
  {
    exists i :: 0 <= i < PS_MAX_TASK_TYPE && s.slots[i].Some? && s.slots[i].value == t
  }

  // The class of a task never changes, and the identifier of a live one is its own: the boot tasks keep theirs until
  // they are destroyed.
  ghost predicate OwnIds(s: Tables)
    requires s.Sized()
  {
    forall t :: 0 <= t < PS_MAX_TASK_TYPE ==>
      && (HasSw(s.tasks[t].kind) <==> t >= 3) && (HasHw(s.tasks[t].kind) <==> t < 3)
      && (s.Live(t) ==>
            s.tasks[t].nsid == NsidOf(t) || (t == 3 && s.tasks[t].nsid == COMMON_CMD)
              || (t == 15 && s.tasks[t].nsid == NO_NSID))
  }

  // Live software tasks, except the idle task of boot, which has no identifier.
  ghost predicate Registered(s: Tables, t: int)
    requires s.Sized()
  {
    s.Live(t) && t >= 3 && s.tasks[t].nsid != NO_NSID
  }

  // The namespace map holds exactly their identifiers.
  ghost predicate NamespacesMatch(s: Tables)
    requires s.Sized()
  {
    && (forall t :: Registered(s, t) ==> s.tasks[t].nsid in s.ns && s.ns[s.tasks[t].nsid] == t)
    && (forall k :: k in s.ns ==> Registered(s, s.ns[k]) && s.tasks[s.ns[k]].nsid == k)
  }

  ghost predicate Inv(s: Tables) { s.Sized() && SlotsAreLive(s) && OwnIds(s) && NamespacesMatch(s) }

  /** After boot the common command is task 3 in slot 0, registered, and the idle task is the last one in slot 1; the
      other software tasks and the three hardware ones are free. The tables are in step. */
  lemma BootIsGood()
    ensures Inv(Boot())
    ensures var s := Boot();
            && |s.tasks| == |s.slots| == 16 && s.num == 2 && s.slots[0] == Some(3) && s.slots[1] == Some(15)
            && (forall i :: 2 <= i < 16 ==> s.slots[i] == None)
            && (forall t :: 0 <= t < 16 ==>
                  s.tasks[t].kind == (if t < 3 then 12 else 3) && (s.tasks[t].status == Idle <==> t == 3 || t == 15)
                  && s.tasks[t].status != Ready)
            && s.ns == map[s.tasks[3].nsid := 3] && s.tasks[3].nsid ==
               [0xf9, 0x3c, 0x09, 0x61, 0x9d, 0x3f, 0x45, 0x29, 0xbd, 0xe9, 0x7a, 0x4b, 0x18, 0x91, 0xdb, 0x15]
  {
    var s := Boot();
    assert s.slots[0] == Some(3) && s.slots[1] == Some(15);
    NsidsDiffer(0, 1);
    assert SlotsAreLive(s);
    hide NsidOf;
    assert OwnIds(s);
  }

  // ---- a slot is always left for a free task ----

  lemma FullMeansAllLive(s: Tables)
    requires s.Sized() && SlotsAreLive(s) && forall i :: 0 <= i < PS_MAX_TASK_TYPE ==> s.slots[i].Some?
    ensures forall t :: 0 <= t < PS_MAX_TASK_TYPE ==> s.Live(t)
  {
    var values := seq(PS_MAX_TASK_TYPE, i requires 0 <= i < PS_MAX_TASK_TYPE => s.slots[i].value as int);
    forall x | x in values ensures s.Live(x) {
      var i :| 0 <= i < |values| && values[i] == x;
      assert s.Live(s.slots[i].value);
    }
    AllListed(values, PS_MAX_TASK_TYPE);
    forall t | 0 <= t < PS_MAX_TASK_TYPE ensures s.Live(t) { assert t in values; }
  }

  lemma SlotLeft(s: Tables, t: nat)
    requires s.Sized() && SlotsAreLive(s) && t < PS_MAX_TASK_TYPE && !s.Live(t)
    ensures FirstEmpty(s.slots) < PS_MAX_TASK_TYPE
  {
    if FirstEmpty(s.slots) == PS_MAX_TASK_TYPE { FullMeansAllLive(s); }
  }

  // A fresh identifier belongs to no registered task.
  lemma FreshId(s: Tables, t: nat)
    requires Inv(s) && 3 <= t < PS_MAX_TASK_TYPE && !s.Live(t)
    ensures NsidOf(t) !in s.ns
  {
    forall u | Registered(s, u) ensures s.tasks[u].nsid != NsidOf(t) {
      if u < t { NsidsDiffer(u, t); } else { NsidsDiffer(t, u); }
      NsidsDiffer(0, t);
    }
  }

  // ---- create ----

  // The state in which the new task is live but has no slot yet.
  function Joining(s: Tables, kind: nat, t: nat): Tables
    requires s.Sized() && t < PS_MAX_TASK_TYPE
  {
    s.(tasks := s.tasks[t := Task(kind, if kind == SW_TO_SW then Ready else Idle, NsidOf(t))],
       ns := if SoftwareType(kind) then s.ns[NsidOf(t) := t] else s.ns)
  }

  // What creating does, case by case; adding to the scheduler never fails.
  lemma CreateCases(s: Tables, kind: nat, memory: bool)
    requires Inv(s)
    ensures var (g, r) := Create(s, kind, memory);
            var t := FirstFree(s.tasks, SoftwareType(kind));
            if !SoftwareType(kind) && !HardwareType(kind) then (g, r) == (s, IllegalParam)
            else if t == PS_MAX_TASK_TYPE then (g, r) == (s, AllocFail)
            else if SoftwareType(kind) && !memory then
              r == AllocFail && g == s.(tasks := s.tasks[t := s.tasks[t].(nsid := NsidOf(t))])
            else
              && Add(Joining(s, kind, t), t).Some?
              && (g, r) == (Add(Joining(s, kind, t), t).value.0, Created(Add(Joining(s, kind, t), t).value.1))
  {
    hide NsidOf, Add, HasSw, HasHw;
    var t := FirstFree(s.tasks, SoftwareType(kind));
    if (SoftwareType(kind) || HardwareType(kind)) && t < PS_MAX_TASK_TYPE {
      FreeOfClass(s, kind, t);
      if SoftwareType(kind) { FreshId(s, t); }
      SlotLeft(s, t);
      AddSucceeds(Joining(s, kind, t), t);
      hide Inv;
      assert s.tasks[t := s.tasks[t].(nsid := NsidOf(t))][t :=
                                                          Task(kind, if kind == SW_TO_SW then Ready else Idle,
                                                               NsidOf(t))]
             == Joining(s, kind, t).tasks;
    }
  }

  lemma FreeOfClass(s: Tables, kind: nat, t: nat)
    requires Inv(s) && t < PS_MAX_TASK_TYPE && t == FirstFree(s.tasks, SoftwareType(kind))
    ensures !s.Live(t) && (SoftwareType(kind) ==> t >= 3) && (!SoftwareType(kind) ==> t < 3)
  {
    hide HasSw, HasHw;
  }

  lemma AddSucceeds(s: Tables, t: nat)
    requires s.Sized() && FirstEmpty(s.slots) < PS_MAX_TASK_TYPE
    ensures Add(s, t).Some?
  {
  }

  lemma AddKeeps(s: Tables, kind: nat, t: nat)
    requires Inv(s) && t < PS_MAX_TASK_TYPE && !s.Live(t) && (SoftwareType(kind) || HardwareType(kind))
    requires SoftwareType(kind) <==> t >= 3
    requires Add(Joining(s, kind, t), t).Some?
    ensures var (g, id) := Add(Joining(s, kind, t), t).value;
            && Inv(g) && id < PS_MAX_TASK_TYPE && s.slots[id] == None && g.slots == s.slots[id := Some(t)]
  {
    var j := Joining(s, kind, t);
    var (g, id) := Add(j, t).value;
    if t >= 3 { FreshId(s, t); }
    NsidsDiffer(0, if t == 0 then 1 else t);
    assert s.slots[id] == None && g.slots == s.slots[id := Some(t)];
    AddedSlots(s, g, t, id);
    AddedNames(s, g, kind, t);
    hide NsidOf;
  }

  lemma AddedSlots(s: Tables, g: Tables, t: nat, id: nat)
    requires s.Sized() && g.Sized() && SlotsAreLive(s) && t < PS_MAX_TASK_TYPE && !s.Live(t)
    requires id < PS_MAX_TASK_TYPE && s.slots[id] == None && g.slots == s.slots[id := Some(t)] && s.num <= g.num
             && id < g.num
    requires forall u :: 0 <= u < PS_MAX_TASK_TYPE && u != t ==> g.tasks[u] == s.tasks[u]
    requires g.tasks[t].status != Free
    ensures SlotsAreLive(g)
  {
    forall u | g.Live(u) ensures HasSlot(g, u) {
      if u == t { assert g.slots[id].value == t; } else {
        assert HasSlot(s, u);
        var i :| 0 <= i < PS_MAX_TASK_TYPE && s.slots[i].Some? && s.slots[i].value == u;
        assert g.slots[i].value == u;
      }
    }
  }

  lemma AddedNames(s: Tables, g: Tables, kind: nat, t: nat)
    requires Inv(s) && g.Sized() && t < PS_MAX_TASK_TYPE && !s.Live(t) && (SoftwareType(kind) <==> t >= 3)
             && (SoftwareType(kind) || HardwareType(kind))
    requires g.tasks == Joining(s, kind, t).tasks && g.ns == Joining(s, kind, t).ns
    requires NsidOf(t) != NO_NSID && (t >= 3 ==> NsidOf(t) !in s.ns)
    ensures OwnIds(g) && NamespacesMatch(g)
  {
    AddedIds(s, g, kind, t);
    hide NsidOf, OwnIds, HasSw, HasHw, SlotsAreLive;
    forall u | Registered(g, u) ensures g.tasks[u].nsid in g.ns && g.ns[g.tasks[u].nsid] == u {
      if u != t { assert Registered(s, u); }
    }
    forall k | k in g.ns ensures Registered(g, g.ns[k]) && g.tasks[g.ns[k]].nsid == k {
      if k in s.ns && (t < 3 || k != NsidOf(t)) { assert Registered(s, s.ns[k]); }
    }
  }

  lemma AddedIds(s: Tables, g: Tables, kind: nat, t: nat)
    requires s.Sized() && OwnIds(s) && g.Sized() && t < PS_MAX_TASK_TYPE && g.tasks == Joining(s, kind, t).tasks
    requires (SoftwareType(kind) <==> t >= 3) && (SoftwareType(kind) || HardwareType(kind))
    ensures OwnIds(g)
  {
    hide NsidOf;
  }

  // A failed registration only leaves the identifier in the free task.
  lemma RenamedKeeps(s: Tables, t: nat)
    requires Inv(s) && t < PS_MAX_TASK_TYPE && !s.Live(t)
    ensures Inv(s.(tasks := s.tasks[t := s.tasks[t].(nsid := NsidOf(t))]))
  {
    hide NsidOf, HasSw, HasHw;
    var g := s.(tasks := s.tasks[t := s.tasks[t].(nsid := NsidOf(t))]);
    forall u | g.Live(u) ensures HasSlot(g, u) {
      assert HasSlot(s, u);
    }
    forall u | Registered(g, u) ensures g.tasks[u].nsid in g.ns && g.ns[g.tasks[u].nsid] == u {
      assert Registered(s, u);
    }
    forall k | k in g.ns ensures Registered(g, g.ns[k]) && g.tasks[g.ns[k]].nsid == k { assert Registered(s, s.ns[k]); }
  }

  // What creating comes to, for a request of type `kind`: 1, 2 and 3 are software types, 4, 8 and 12 hardware ones. It
  // fails exactly when the type is none of these, no task of its class is free, or a software task gets no memory for
  // its namespace: never for a duplicate namespace and never for want of a slot.
  ghost predicate CreateDoes(s: Tables, kind: nat, memory: bool, g: Tables, r: Response)
    requires s.Sized() && g.Sized()
  {
    && (r == IllegalParam <==> kind !in {1, 2, 3, 4, 8, 12})
    && (r == AllocFail <==>
        (kind in {1, 2, 3} && (!memory || forall t :: 3 <= t < PS_MAX_TASK_TYPE ==> s.Live(t)))
        || (kind in {4, 8, 12} && forall t :: 0 <= t < 3 ==> s.Live(t)))
    && (r == IllegalParam || r == AllocFail || r.Created?)
    && (r == IllegalParam ==> g == s)
    && (r == AllocFail ==> g == s.(tasks := g.tasks) && OnlyNamed(s, g))
    && (r.Created? ==> Admits(s, kind, g, r.id))
  }

  // Nothing about the tasks has changed but, for a free one, its identifier.
  ghost predicate OnlyNamed(s: Tables, g: Tables)
    requires s.Sized() && g.Sized()
  {
    forall u :: 0 <= u < PS_MAX_TASK_TYPE ==>
      g.tasks[u] == s.tasks[u] || (!s.Live(u) && g.tasks[u] == s.tasks[u].(nsid := g.tasks[u].nsid))
  }

  // The first free task of the class is created: it has the type asked for and an identifier of its own, and is ready
  // exactly when software works for software. Its id is the next number, or an empty slot when all numbers are used.
  ghost predicate Admits(s: Tables, kind: nat, g: Tables, id: nat)
    requires s.Sized() && g.Sized()
  {
    && id < PS_MAX_TASK_TYPE && s.slots[id] == None && g.slots[id].Some? && g.slots[id].value < PS_MAX_TASK_TYPE
    && var t := g.slots[id].value;
    && (if kind in {1, 2, 3} then t >= 3 else t < 3) && !s.Live(t)
    && (forall u :: (if kind in {1, 2, 3} then 3 else 0) <= u < t ==> s.Live(u))
    && g.tasks == s.tasks[t := Task(kind, if kind == 1 then Ready else Idle, g.tasks[t].nsid)]
    && (forall i :: 0 <= i < NSID_SIZE ==> g.tasks[t].nsid[i] == (COMMON_CMD[i] + t) % 256)
    && g.slots == s.slots[id := Some(t)]
    && g.ns == (if kind in {1, 2, 3} then s.ns[g.tasks[t].nsid := t] else s.ns)
    && (if s.num < PS_MAX_TASK_TYPE then id == s.num && g.num == s.num + 1
        else g.num == s.num && forall i :: 0 <= i < id ==> s.slots[i].Some?)
  }

  lemma CreateKeeps(s: Tables, kind: nat, memory: bool)
    requires Inv(s)
    ensures var (g, r) := Create(s, kind, memory); Inv(g) && CreateDoes(s, kind, memory, g, r)
  {
    hide Create, Add, NsidOf, SlotsAreLive, OwnIds, NamespacesMatch, HasSw, HasHw, FirstFree, Admits, OnlyNamed;
    CreateCases(s, kind, memory);
    var t := FirstFree(s.tasks, SoftwareType(kind));
    if SoftwareType(kind) || HardwareType(kind) { NoneFree(s, kind); }
    if (SoftwareType(kind) || HardwareType(kind)) && t < PS_MAX_TASK_TYPE {
      FreeOfClass(s, kind, t);
      if SoftwareType(kind) && !memory {
        RenamedKeeps(s, t);
        RenamesOnly(s, t);
      } else {
        AddKeeps(s, kind, t);
        AddAdmits(s, kind, t);
      }
    } else {
      assert OnlyNamed(s, s) by { SameIsNamed(s); }
    }
  }

  lemma SameIsNamed(s: Tables)
    requires s.Sized()
    ensures OnlyNamed(s, s)
  {
  }

  lemma RenamesOnly(s: Tables, t: nat)
    requires s.Sized() && t < PS_MAX_TASK_TYPE && !s.Live(t)
    ensures var g := s.(tasks := s.tasks[t := s.tasks[t].(nsid := NsidOf(t))]); g.Sized() && OnlyNamed(s, g)
  {
    hide NsidOf;
  }

  lemma AddAdmits(s: Tables, kind: nat, t: nat)
    requires Inv(s) && t < PS_MAX_TASK_TYPE && !s.Live(t) && (SoftwareType(kind) || HardwareType(kind))
    requires (SoftwareType(kind) <==> t >= 3) && t == FirstFree(s.tasks, SoftwareType(kind))
    requires Add(Joining(s, kind, t), t).Some?
    ensures var (g, id) := Add(Joining(s, kind, t), t).value; g.Sized() && Admits(s, kind, g, id)
  {
    var (g, id) := Add(Joining(s, kind, t), t).value;
    assert id < PS_MAX_TASK_TYPE && s.slots[id] == None && g.slots == s.slots[id := Some(t)]
           && g.tasks == Joining(s, kind, t).tasks && g.ns == Joining(s, kind, t).ns;
    assert forall i :: 0 <= i < NSID_SIZE ==> NsidOf(t)[i] == (COMMON_CMD[i] + t) % 256;
    hide NsidOf, HasSw, HasHw, SlotsAreLive, NamespacesMatch;
    forall u | (if kind in {1, 2, 3} then 3 else 0) <= u < t ensures s.Live(u) {
      assert HasSw(s.tasks[u].kind) <==> u >= 3;
    }
  }

  lemma NoneFree(s: Tables, kind: nat)
    requires Inv(s) && (SoftwareType(kind) || HardwareType(kind))
    ensures FirstFree(s.tasks, SoftwareType(kind)) == PS_MAX_TASK_TYPE <==>
            (forall t :: (if SoftwareType(kind) then 3 <= t < PS_MAX_TASK_TYPE else 0 <= t < 3) ==> s.Live(t))
  {
    hide HasSw, HasHw;
    var t := FirstFree(s.tasks, SoftwareType(kind));
    if t < PS_MAX_TASK_TYPE { FreeOfClass(s, kind, t); }
  }

  // ---- destroy ----

  // What destroying comes to: exactly the task in the slot is free, keeping its type, with its namespace; other ids,
  // tasks and namespaces stay, and the last number is given out again. An empty slot or a bad id changes nothing.
  ghost predicate DestroyDoes(s: Tables, id: nat, g: Tables, r: Response)
    requires s.Sized() && g.Sized()
  {
    && (r == NotValid <==> id >= PS_MAX_TASK_TYPE || s.slots[id] == None) && (r == NotValid ==> g == s)
    && (r != NotValid ==>
          && r == Destroyed && s.slots[id].value < PS_MAX_TASK_TYPE
          && var t := s.slots[id].value;
          && g.slots == s.slots[id := None] && g.tasks == s.tasks[t := s.tasks[t].(status := Free)]
          && g.ns == (if t >= 3 then map k | k in s.ns && k != s.tasks[t].nsid :: s.ns[k] else s.ns)
          && g.num == if s.num == id + 1 then id else s.num)
  }

  lemma DestroyKeeps(s: Tables, id: nat)
    requires Inv(s)
    ensures var (g, r) := Destroy(s, id); Inv(g) && DestroyDoes(s, id, g, r)
  {
    if id < PS_MAX_TASK_TYPE && s.slots[id].Some? {
      assert s.Live(s.slots[id].value);
      DestroyedSlots(s, id);
      DestroyedNames(s, id);
    }
    hide NsidOf, HasSw, HasHw, SlotsAreLive, NamespacesMatch, OwnIds;
  }

  lemma DestroyedSlots(s: Tables, id: nat)
    requires Inv(s) && id < PS_MAX_TASK_TYPE && s.slots[id].Some? && s.Live(s.slots[id].value)
    ensures Destroy(s, id).0.Sized() && SlotsAreLive(Destroy(s, id).0)
  {
    hide OwnIds, NamespacesMatch, NsidOf, HasSw, HasHw;
    var g, t := Destroy(s, id).0, s.slots[id].value;
    forall u | g.Live(u) ensures HasSlot(g, u) {
      assert u != t && HasSlot(s, u);
      var i :| 0 <= i < PS_MAX_TASK_TYPE && s.slots[i].Some? && s.slots[i].value == u;
      assert g.slots[i].value == u;
    }
  }

  lemma DestroyedNames(s: Tables, id: nat)
    requires Inv(s) && id < PS_MAX_TASK_TYPE && s.slots[id].Some? && s.Live(s.slots[id].value)
    ensures Destroy(s, id).0.Sized() && OwnIds(Destroy(s, id).0) && NamespacesMatch(Destroy(s, id).0)
  {
    hide SlotsAreLive, NsidOf, HasSw, HasHw;
    var g, t := Destroy(s, id).0, s.slots[id].value;
    forall u | Registered(g, u) ensures g.tasks[u].nsid in g.ns && g.ns[g.tasks[u].nsid] == u {
      assert Registered(s, u);
      if t >= 3 && s.tasks[t].nsid == s.tasks[u].nsid { assert Registered(s, t); }
    }
    forall k | k in g.ns ensures Registered(g, g.ns[k]) && g.tasks[g.ns[k]].nsid == k {
      assert Registered(s, s.ns[k]);
    }
  }

  // ---- runs ----

  datatype Request = CreateTask(kind: nat, memory: bool) | DestroyTask(id: nat)

  function Serve(s: Tables, q: Request): (Tables, Response)
    requires s.Sized()
  {
    match q
    case CreateTask(kind, memory) => Create(s, kind, memory)
    case DestroyTask(id) => Destroy(s, id)
  }

  ghost predicate Served(trace: seq<Tables>, requests: seq<Request>) {
    && |trace| == |requests| + 1
    && (forall i :: 0 <= i < |trace| ==> trace[i].Sized())
    && forall i :: 0 <= i < |requests| ==> trace[i + 1] == Serve(trace[i], requests[i]).0
  }

  /** From boot, over any creating and destroying: slots and live tasks correspond one to one, the namespace map holds
      exactly the identifiers of the live software tasks other than the idle task of boot, and adding a task to the
      scheduler never fails. */
  lemma {:induction false} RunsKeepTables(trace: seq<Tables>, requests: seq<Request>, i: nat)
    requires Served(trace, requests) && trace[0] == Boot() && i < |trace|
    ensures Inv(trace[i])
    ensures i < |requests| ==> Serve(trace[i], requests[i]).1 != AddToSchedulerFail
  {
    hide Inv, Create, Destroy;
    if i == 0 {
      BootIsGood();
    } else {
      RunsKeepTables(trace, requests, i - 1);
      ServeKeeps(trace[i - 1], requests[i - 1]);
    }
    if i < |requests| { ServeKeeps(trace[i], requests[i]); }
  }

  lemma ServeKeeps(s: Tables, q: Request)
    requires Inv(s)
    ensures Inv(Serve(s, q).0) && Serve(s, q).1 != AddToSchedulerFail
  {
    hide Create, Destroy, SlotsAreLive, NamespacesMatch, OwnIds;
    match q
    case CreateTask(kind, memory) => CreateKeeps(s, kind, memory);
    case DestroyTask(id) => DestroyKeeps(s, id);
  }

  // ---- the scheduler as it runs ----

  class Scheduler {
    var taskTable: seq<Task>
    var taskHandler: seq<Option<nat>>
    var taskNum: nat
    var nsMap: map<Nsid, nat>

    ghost function View(): Tables
      reads this
    {
      Tables(taskTable, taskHandler, taskNum, nsMap)
    }

    method GetFreeTask(software: bool) returns (id: nat)
      ensures id == FirstFree(taskTable, software)
    {
      id := 0;
      while id < |taskTable|
        invariant id <= |taskTable| && FirstFree(taskTable, software) == id + FirstFree(taskTable[id..], software)
      {
        if software && HasSw(taskTable[id].kind) && taskTable[id].status == Free { return; }
        if !software && HasHw(taskTable[id].kind) && taskTable[id].status == Free { return; }
        id := id + 1;
      }
    }

    method AddTaskToScheduler(task: nat) returns (r: int)
      requires View().Sized()
      modifies `taskHandler, `taskNum
      ensures View().Sized()
      ensures match Add(old(View()), task)
              case None => r == -1 && View() == old(View())
              case Some(a) => r == a.1 && View() == a.0
    {
      if taskNum >= PS_MAX_TASK_TYPE {
        var loop := 0;
        while loop < taskNum
          invariant loop <= |taskHandler| && FirstEmpty(taskHandler) == loop + FirstEmpty(taskHandler[loop..])
          invariant View() == old(View())
        {
          if taskHandler[loop] == None {
            taskHandler := taskHandler[loop := Some(task)];
            return loop;
          }
          loop := loop + 1;
        }
        return -1;
      }
      taskHandler := taskHandler[taskNum := Some(task)];
      taskNum := taskNum + 1;
      return taskNum - 1;
    }

    method RemoveTaskFromScheduler(id: nat)
      requires View().Sized() && id < PS_MAX_TASK_TYPE
      modifies `taskHandler, `taskNum
      ensures View() == Remove(old(View()), id) && View().Sized()
    {
      if taskNum == id + 1 { taskNum := taskNum - 1; }
      taskHandler := taskHandler[id := None];
    }

    /** ps_create_task keeps the tables in step. */
    method CreateTask(kind: nat, memory: bool) returns (r: Response)
      requires View().Sized()
      modifies this
      ensures (View(), r) == Create(old(View()), kind, memory) && View().Sized()
      ensures old(Inv(View())) ==> Inv(View()) && CreateDoes(old(View()), kind, memory, View(), r)
      ensures forall k :: k in old(nsMap) ==> k in nsMap && nsMap[k] == old(nsMap[k])
      ensures r == AddToSchedulerFail ==>
                taskHandler == old(taskHandler) && forall t :: 0 <= t < PS_MAX_TASK_TYPE ==>
                  (taskTable[t].status == Free <==> old(taskTable)[t].status == Free)
    {
      hide Inv, CreateDoes, NsidOf, FirstFree;
      if Inv(View()) { CreateKeeps(View(), kind, memory); }
      if !SoftwareType(kind) && !HardwareType(kind) { return IllegalParam; }
      var t := GetFreeTask(SoftwareType(kind));
      if t == |taskTable| { return AllocFail; }
      ghost var tasks := taskTable;
      taskTable := taskTable[t := taskTable[t].(nsid := NsidOf(t))];
      if SoftwareType(kind) {
        if taskTable[t].nsid in nsMap || !memory { return AllocFail; }
        nsMap := nsMap[taskTable[t].nsid := t];
      }
      var status := if kind == SW_TO_SW then Ready else Idle;
      taskTable := taskTable[t := taskTable[t].(status := status, kind := kind)];
      assert taskTable == tasks[t := Task(kind, status, NsidOf(t))];
      var id := AddTaskToScheduler(t);
      if id < 0 {
        taskTable := taskTable[t := taskTable[t].(status := Free)];
        return AddToSchedulerFail;
      }
      return Created(id);
    }

    /** ps_destroy_task keeps the tables in step. */
    method DestroyTask(id: nat) returns (r: Response)
      requires View().Sized()
      modifies this
      ensures (View(), r) == Destroy(old(View()), id) && View().Sized()
      ensures old(Inv(View())) ==> Inv(View()) && DestroyDoes(old(View()), id, View(), r)
    {
      hide Inv, DestroyDoes;
      if Inv(View()) { DestroyKeeps(View(), id); }
      if id >= PS_MAX_TASK_TYPE || taskHandler[id] == None || taskHandler[id].value >= PS_MAX_TASK_TYPE {
        return NotValid;
      }
      var t := taskHandler[id].value;
      RemoveTaskFromScheduler(id);
      if HasSw(taskTable[t].kind) { nsMap := nsMap - {taskTable[t].nsid}; }
      taskTable := taskTable[t := taskTable[t].(status := Free)];
      return Destroyed;
    }
  }
}
