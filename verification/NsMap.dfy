// The namespace map: entries sorted by their 16-byte identifier, found by binary search, shifted in place.

module NsMaps {
  import opened Options
  import opened Dma

  const NSID_SIZE := 16

  type Nsid = s: seq<byte> | |s| == NSID_SIZE witness seq(NSID_SIZE, _ => 0)

  /** xrp_cmd_ns; `handler` stands for the handler and its context. */
  datatype Entry = Entry(id: Nsid, handler: nat)

  // memcmp: negative, zero or positive by the first byte that differs.
  function Compare(a: seq<byte>, b: seq<byte>): int
    requires |a| == |b|
  {
    if a == [] then 0 else if a[0] != b[0] then a[0] - b[0] else Compare(a[1..], b[1..])
  }

  lemma {:induction false} CompareEqual(a: seq<byte>, b: seq<byte>)
    requires |a| == |b|
    ensures Compare(a, b) == 0 <==> a == b
    ensures Compare(a, b) < 0 <==> Compare(b, a) > 0
  {
    if a != [] {
      CompareEqual(a[1..], b[1..]);
      assert a == [a[0]] + a[1..] && b == [b[0]] + b[1..];
    }
  }

  lemma {:induction false} CompareTransitive(a: seq<byte>, b: seq<byte>, c: seq<byte>)
    requires |a| == |b| == |c| && Compare(a, b) <= 0 && Compare(b, c) < 0
    ensures Compare(a, c) < 0
  {
    if a[0] == b[0] == c[0] { CompareTransitive(a[1..], b[1..], c[1..]); }
  }

  ghost predicate Sorted(s: seq<Entry>) { forall i, j :: 0 <= i < j < |s| ==> Compare(s[i].id, s[j].id) < 0 }

  // The position of an identifier: all entries before are smaller, none from there on is.
  ghost predicate IsPlace(s: seq<Entry>, id: Nsid, p: nat) {
    && p <= |s|
    && (forall j :: 0 <= j < p ==> Compare(s[j].id, id) < 0)
    && (forall j :: p <= j < |s| ==> Compare(id, s[j].id) <= 0)
  }

  // xrp_cmd_ns_match together with cmd_ns_present.
  predicate Matches(s: seq<Entry>, id: Nsid, p: nat) { p < |s| && Compare(id, s[p].id) == 0 }

  // ---- the finite map ----

  // The handler registered for an identifier.
  function Lookup(s: seq<Entry>, id: Nsid): Option<nat> {
    if s == [] then None else if s[0].id == id then Some(s[0].handler) else Lookup(s[1..], id)
  }

  lemma {:induction false} LookupAt(s: seq<Entry>, i: nat)
    requires Sorted(s) && i < |s|
    ensures Lookup(s, s[i].id) == Some(s[i].handler)
  {
    if i > 0 {
      CompareEqual(s[0].id, s[i].id);
      LookupAt(s[1..], i - 1);
    }
  }

  lemma {:induction false} LookupNone(s: seq<Entry>, id: Nsid)
    requires forall i :: 0 <= i < |s| ==> s[i].id != id
    ensures Lookup(s, id) == None
  {
    if s != [] { LookupNone(s[1..], id); }
  }

  function Inserted(s: seq<Entry>, p: nat, e: Entry): seq<Entry>
    requires p <= |s|
  {
    s[..p] + [e] + s[p..]
  }

  lemma InsertedAt(t: seq<Entry>, s: seq<Entry>, p: nat, e: Entry)
    requires p <= |s| && |t| == |s| + 1
    requires t[p] == e && (forall i :: 0 <= i < p ==> t[i] == s[i]) && forall i :: p < i < |t| ==> t[i] == s[i - 1]
    ensures t == Inserted(s, p, e)
  {
    assert forall i :: 0 <= i < |t| ==> t[i] == Inserted(s, p, e)[i];
  }

  function Removed(s: seq<Entry>, p: nat): seq<Entry>
    requires p < |s|
  {
    s[..p] + s[p + 1..]
  }

  /** The entry at the place matches exactly when the identifier is registered, and is then its entry. */
  lemma PlaceIsLookup(s: seq<Entry>, id: Nsid, p: nat)
    requires Sorted(s) && IsPlace(s, id, p)
    ensures Lookup(s, id) == if Matches(s, id, p) then Some(s[p].handler) else None
  {
    if p < |s| { CompareEqual(id, s[p].id); }
    if Matches(s, id, p) {
      LookupAt(s, p);
    } else {
      forall i | 0 <= i < |s| ensures s[i].id != id {
        CompareEqual(s[i].id, id);
        if i > p { CompareTransitive(id, s[p].id, s[i].id); }
      }
      LookupNone(s, id);
    }
  }

  /** Inserting a new identifier at its place keeps the order and registers it; all others keep their handlers. */
  lemma InsertRegisters(s: seq<Entry>, p: nat, e: Entry, id: Nsid)
    requires Sorted(s) && IsPlace(s, e.id, p) && !Matches(s, e.id, p)
    ensures Sorted(Inserted(s, p, e))
    ensures Lookup(Inserted(s, p, e), id) == if id == e.id then Some(e.handler) else Lookup(s, id)
  {
    var t := Inserted(s, p, e);
    InsertKeepsOrder(s, p, e);
    forall i | 0 <= i < |t| ensures t[i] == if i < p then s[i] else if i == p then e else s[i - 1] {}
    hide Sorted, IsPlace, Matches, Inserted;
    if id == e.id {
      LookupAt(t, p);
    } else if i :| 0 <= i < |s| && s[i].id == id {
      LookupAt(s, i);
      LookupAt(t, if i < p then i else i + 1);
    } else {
      LookupNone(s, id);
      forall i | 0 <= i < |t| ensures t[i].id != id {
        assert t[i] == if i < p then s[i] else if i == p then e else s[i - 1];
      }
      LookupNone(t, id);
    }
  }

  lemma InsertKeepsOrder(s: seq<Entry>, p: nat, e: Entry)
    requires Sorted(s) && IsPlace(s, e.id, p) && !Matches(s, e.id, p)
    ensures Sorted(Inserted(s, p, e))
  {
    forall j | p <= j < |s| ensures Compare(e.id, s[j].id) < 0 {
      if j > p { CompareTransitive(e.id, s[p].id, s[j].id); }
    }
    hide Compare;
  }

  /** Removing an entry keeps the order and unregisters exactly its identifier. */
  lemma RemoveUnregisters(s: seq<Entry>, p: nat, id: Nsid)
    requires Sorted(s) && p < |s|
    ensures Sorted(Removed(s, p))
    ensures Lookup(Removed(s, p), id) == if id == s[p].id then None else Lookup(s, id)
  {
    var t := Removed(s, p);
    forall i | 0 <= i < |t| ensures t[i] == s[if i < p then i else i + 1] {}
    forall i | 0 <= i < |t| ensures t[i].id != s[p].id {
      CompareEqual(t[i].id, s[p].id);
      CompareEqual(s[p].id, t[i].id);
    }
    if i :| 0 <= i < |s| && i != p && s[i].id == id {
      LookupAt(s, i);
      LookupAt(t, if i < p then i else i - 1);
    } else {
      LookupNone(t, id);
      if id != s[p].id { LookupNone(s, id); }
    }
  }

  // ---- the array ----

  /** xrp_cmd_ns_map */
  class CmdNsMap {
    var slots: array<Entry> // cmd_ns, of size_cmd_ns entries
    var n: nat // n_cmd_ns

    ghost predicate Valid()
      reads this, slots
    {
      n <= slots.Length && Sorted(slots[..n])
    }

    ghost function Contents(): seq<Entry>
      requires n <= slots.Length
      reads this, slots
    {
      slots[..n]
    }

    constructor ()
      ensures Valid() && Contents() == [] && slots.Length == 0 && fresh(slots)
    {
      slots := new Entry[0];
      n := 0;
    }

    /** xrp_find_cmd_ns: the place of the identifier. */
    method FindCmdNs(id: Nsid) returns (p: nat)
      requires Valid()
      ensures IsPlace(Contents(), id, p)
    {
      var a, b := 0, n;
      while b - a > 1
        invariant a <= b <= n && (a == b ==> n == 0)
        invariant a > 0 ==> Compare(id, slots[a].id) >= 0
        invariant b < n ==> Compare(id, slots[b].id) < 0
      {
        var c := (a + b) / 2;
        if Compare(id, slots[c].id) < 0 { b := c; } else { a := c; }
      }
      p := a;
      if a < b && Compare(id, slots[p].id) > 0 { p := p + 1; }
      PlaceFound(Contents(), id, a, p);
    }

    /** xrp_register_namespace; `memory` says whether an enlargement would get its memory. */
    method RegisterNamespace(id: Nsid, handler: nat, memory: bool) returns (r: int)
      requires Valid()
      modifies this, slots
      ensures Valid()
      ensures r == 1 <==> old(Lookup(Contents(), id)) == None && (old(n) < old(slots.Length) || memory)
      ensures r == 1 ==>
                forall k :: Lookup(Contents(), k) == if k == id then Some(handler) else old(Lookup(Contents(), k))
      ensures r != 1 ==> r == 0 && Contents() == old(Contents())
      ensures r == 1 ==> exists p :: 0 <= p <= old(n) && Contents() == Inserted(old(Contents()), p, Entry(id, handler))
      ensures r == 1 ==> slots.Length == if old(n < slots.Length) then old(slots.Length) else (old(n) + 1) * 2
      ensures fresh(slots) || slots == old(slots)
    {
      var p := FindCmdNs(id);
      PlaceIsLookup(Contents(), id, p);
      if p < n && Compare(id, slots[p].id) == 0 { return 0; }
      ghost var s := Contents();
      forall k { InsertRegisters(s, p, Entry(id, handler), k); }
      if n == slots.Length {
        if !memory { return 0; }
        Enlarge();
        assert Contents() == s;
      }
      InsertAt(p, Entry(id, handler));
      assert Contents() == Inserted(s, p, Entry(id, handler));
      hide Lookup, Inserted, Sorted, IsPlace;
      return 1;
    }

    // realloc to twice the size and two more
    method Enlarge()
      requires n == slots.Length
      modifies this
      ensures n == old(n) && fresh(slots) && slots.Length == (n + 1) * 2 && slots[..n] == old(slots[..])
    {
      var larger := new Entry[(n + 1) * 2];
      for i := 0 to n
        invariant n == old(n) && slots == old(slots) && slots.Length == n
        invariant larger[..i] == slots[..i] == old(slots[..i])
      {
        larger[i] := slots[i];
      }
      slots := larger;
    }

    // Shifts the entries from p on up by one.
    method InsertAt(p: nat, e: Entry)
      requires n < slots.Length && p <= n
      modifies this`n, slots
      ensures n == old(n) + 1 && slots[..n] == Inserted(old(slots[..n]), p, e)
    {
      ghost var s := slots[..n];
      var i := n;
      while i > p
        invariant n == |s| && p <= i <= n
        invariant forall j :: 0 <= j < i ==> slots[j] == s[j]
        invariant forall j :: i < j <= n ==> slots[j] == s[j - 1]
      {
        slots[i] := slots[i - 1];
        i := i - 1;
      }
      slots[p] := e;
      n := n + 1;
      InsertedAt(slots[..n], s, p, e);
    }

    // Shifts the entries after p down by one; the slot after the last keeps a copy.
    method RemoveAt(p: nat)
      requires p < n <= slots.Length
      modifies this`n, slots
      ensures n == old(n) - 1 && slots[..n] == Removed(old(slots[..n]), p)
      ensures slots[n] == old(slots[n - 1])
    {
      var i := p;
      while i < n - 1
        invariant n == old(n) && p <= i <= n - 1
        invariant forall j :: 0 <= j < slots.Length && !(p <= j < i) ==> slots[j] == old(slots[j])
        invariant forall j :: p <= j < i ==> slots[j] == old(slots[j + 1])
      {
        slots[i] := slots[i + 1];
        i := i + 1;
      }
      n := n - 1;
    }

    /** xrp_unregister_namespace */
    method UnregisterNamespace(id: Nsid) returns (r: int)
      requires Valid()
      modifies this`n, slots
      ensures Valid()
      ensures r == 1 <==> old(Lookup(Contents(), id)) != None
      ensures forall k :: Lookup(Contents(), k) == if k == id then None else old(Lookup(Contents(), k))
      ensures r != 1 ==> r == 0 && Contents() == old(Contents())
      ensures n == old(n) - r && (r == 1 ==> slots[n] == old(slots[n - 1]))
      ensures r == 1 ==>
                exists p :: 0 <= p < old(n) && Contents() == Removed(old(Contents()), p) && old(Contents())[p].id == id
    {
      var p := FindCmdNs(id);
      PlaceIsLookup(Contents(), id, p);
      if p < n && Compare(id, slots[p].id) == 0 {
        forall k { RemoveUnregisters(Contents(), p, k); }
        CompareEqual(id, slots[p].id);
        RemoveAt(p);
        return 1;
      }
      return 0;
    }

    /** Whether the slot that process_command compares lies outside the array: exactly when the array is full and the
        identifier's place is behind the last entry. */
    method ComparesOutside(id: Nsid) returns (outside: bool)
      requires Valid()
      ensures outside <==> n == slots.Length && IsPlace(Contents(), id, n)
    {
      var p := FindCmdNs(id);
      outside := p >= slots.Length;
      if IsPlace(Contents(), id, n) { PlaceIsUnique(Contents(), id, p, n); }
    }

    /** The dispatch of process_command: it compares the slot found without asking whether it is in use. A registered
        identifier gets its handler; one that is not registered is refused exactly when its place is not the slot behind
        the last entry with the identifier still in it. */
    method Dispatch(id: Nsid) returns (found: bool, handler: nat)
      requires Valid() && (n < slots.Length || !IsPlace(Contents(), id, n))
      ensures Lookup(Contents(), id).Some? ==> found && Lookup(Contents(), id).value == handler
      ensures Lookup(Contents(), id).None? ==> (found <==> IsPlace(Contents(), id, n) && slots[n].id == id)
    {
      var q := FindCmdNs(id);
      PlaceIsLookup(Contents(), id, q);
      CompareEqual(id, slots[q].id);
      CompareEqual(slots[q].id, id);
      found := Compare(id, slots[q].id) == 0;
      handler := slots[q].handler;
    }
  }

  lemma PlaceIsUnique(s: seq<Entry>, id: Nsid, p: nat, q: nat)
    requires IsPlace(s, id, p) && IsPlace(s, id, q)
    ensures p == q
  {
    var i := if p < q then p else q;
    if p != q {
      CompareEqual(s[i].id, id);
      assert false;
    }
  }

  lemma PlaceFound(s: seq<Entry>, id: Nsid, a: nat, p: nat)
    requires Sorted(s)
    requires s == [] ==> a == p == 0
    requires s != [] ==>
               a < |s| && (a > 0 ==> Compare(id, s[a].id) >= 0) && (a + 1 < |s| ==> Compare(id, s[a + 1].id) < 0)
    requires s != [] ==> p == if Compare(id, s[a].id) > 0 then a + 1 else a
    ensures IsPlace(s, id, p)
  {
    if s != [] {
      CompareEqual(id, s[a].id);
      CompareEqual(s[a].id, id);
      forall j | 0 <= j < a ensures Compare(s[j].id, id) < 0 {
        if s[a].id != id { BeforeBoth(s[j].id, s[a].id, id); }
      }
      forall j | a < j < |s| ensures Compare(id, s[j].id) < 0 {
        if j > a + 1 { CompareTransitive(id, s[a + 1].id, s[j].id); }
      }
    }
  }

  lemma BeforeBoth(a: Nsid, b: Nsid, c: Nsid)
    requires Compare(a, b) < 0 && Compare(b, c) < 0
    ensures Compare(a, c) < 0
  {
    CompareTransitive(a, b, c);
  }

  // The place of the last entry's identifier among the entries before it is their end.
  lemma LastPlace(s: seq<Entry>, rest: seq<Entry>, id: Nsid, q: nat)
    requires Sorted(s) && s != [] && s[|s| - 1].id == id && q < |s| && s[q].id == id && rest == Removed(s, q)
    ensures IsPlace(rest, id, |rest|)
  {
    CompareEqual(s[q].id, s[|s| - 1].id);
    assert rest == s[..|s| - 1];
  }

  /** After the identifier that was last is unregistered its slot still matches, and a dispatch to it still succeeds. */
  method StaleDispatch(m: CmdNsMap, id: Nsid) returns (found: bool)
    requires m.Valid() && m.n > 0 && m.slots[m.n - 1].id == id
    modifies m, m.slots
    ensures m.Valid() && Lookup(m.Contents(), id) == None && found
  {
    LookupAt(m.Contents(), m.n - 1);
    ghost var s := m.Contents();
    var _ := m.UnregisterNamespace(id);
    ghost var q :| 0 <= q < |s| && m.Contents() == Removed(s, q) && s[q].id == id;
    LastPlace(s, m.Contents(), id, q);
    var handler;
    found, handler := m.Dispatch(id);
  }

  /** An array filled by two registrations, and an identifier for which the compared slot is outside it. */
  method FullArray() returns (m: CmdNsMap, id: Nsid, outside: bool)
    ensures fresh(m) && m.Valid() && m.n == m.slots.Length == 2 && Lookup(m.Contents(), id) == None && outside
  {
    var low, high := seq(NSID_SIZE, _ => 0), seq(NSID_SIZE, _ => 1);
    id := seq(NSID_SIZE, _ => 2);
    assert low[0] == 0 && high[0] == 1 && id[0] == 2;
    assert low != high && Compare(low, id) < 0 && Compare(high, id) < 0;
    assert id != low && id != high;
    hide Compare;
    m := new CmdNsMap();
    var _ := m.RegisterNamespace(low, 0, true);
    var _ := m.RegisterNamespace(high, 1, true);
    assert forall e :: e in m.Contents() ==> e.id in {low, high};
    assert IsPlace(m.Contents(), id, 2);
    hide Sorted, Inserted, Lookup, IsPlace;
    outside := m.ComparesOutside(id);
  }
}
