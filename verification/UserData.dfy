/** Keyed user data of bos and surfaces: a list of entries that behaves as a finite map and
    hands every stored value to its free function exactly once. */
module UserDataSpec {
  import opened Common

  type Key = nat
  type Data = nat

  const NULL_DATA: Data := 0

  datatype Entry = Entry(key: Key, data: Data, frees: bool)

  /** The list, newest first, and the values handed to free functions so far. */
  datatype Store = Store(entries: seq<Entry>, freed: seq<Data>)

  datatype Op =
    | Add(key: Key, frees: bool)
    | Set(key: Key, data: Data)
    | Delete(key: Key)

  function Lookup(entries: seq<Entry>, key: Key): (r: Option<nat>)
    ensures r.Some? ==> r.value < |entries| && entries[r.value].key == key
    ensures r.None? ==> forall e :: e in entries ==> e.key != key
  {
    if entries == [] then None
    else if entries[0].key == key then Some(0)
    else
      match Lookup(entries[1..], key)
      case Some(i) => Some(i + 1)
      case None => None
  }

  /** The free function runs for a non-null value of an entry that has one. */
  function FreedBy(e: Entry): seq<Data> {
    if e.data != NULL_DATA && e.frees then [e.data] else []
  }

  function DeleteAt(u: Store, i: nat): Store
    requires i < |u.entries|
  {
    Store(u.entries[..i] + u.entries[i + 1..], u.freed + FreedBy(u.entries[i]))
  }

  function Step(u: Store, op: Op): (Store, bool) {
    match op
    case Add(key, frees) =>
      if Lookup(u.entries, key).Some? then (u, false)
      else (u.(entries := [Entry(key, NULL_DATA, frees)] + u.entries), true)
    case Set(key, data) =>
      (match Lookup(u.entries, key)
       case None => (u, false)
       case Some(i) =>
         var e := u.entries[i];
         (Store(u.entries[i := e.(data := data)], u.freed + FreedBy(e)), true))
    case Delete(key) =>
      (match Lookup(u.entries, key)
       case None => (u, false)
       case Some(i) => (DeleteAt(u, i), true))
  }

  /** Destroying the owner deletes entry after entry. */
  function DestroyAll(u: Store): Store
    decreases |u.entries|
  {
    if u.entries == [] then u else DestroyAll(DeleteAt(u, 0))
  }

  function Run(u: Store, ops: seq<Op>): Store
    decreases ops
  {
    if ops == [] then u else Run(Step(u, ops[0]).0, ops[1..])
  }

  // ----- a finite map -----

  ghost predicate Unique(entries: seq<Entry>) {
    forall i, j :: 0 <= i < j < |entries| ==> entries[i].key != entries[j].key
  }

  /** The list read as a map from keys to values and free functions. */
  function View(entries: seq<Entry>): map<Key, (Data, bool)> {
    if entries == [] then map[]
    else View(entries[1..])[entries[0].key := (entries[0].data, entries[0].frees)]
  }

  function MapStep(m: map<Key, (Data, bool)>, op: Op): (map<Key, (Data, bool)>, bool) {
    match op
    case Add(key, frees) => if key in m then (m, false) else (m[key := (NULL_DATA, frees)], true)
    case Set(key, data) => if key in m then (m[key := (data, m[key].1)], true) else (m, false)
    case Delete(key) => (m - {key}, key in m)
  }

  lemma {:induction false} ViewAt(entries: seq<Entry>, key: Key)
    requires Unique(entries)
    ensures key in View(entries) <==> Lookup(entries, key).Some?
    ensures var r := Lookup(entries, key);
            r.Some? ==> View(entries)[key] == (entries[r.value].data, entries[r.value].frees)
  {
    if entries != [] {
      ViewAt(entries[1..], key);
    }
  }

  lemma {:induction false} ViewSet(entries: seq<Entry>, i: nat, e: Entry)
    requires Unique(entries) && i < |entries| && e.key == entries[i].key
    ensures Unique(entries[i := e]) && View(entries[i := e]) == View(entries)[e.key := (e.data, e.frees)]
  {
    if i > 0 {
      ViewSet(entries[1..], i - 1, e);
      assert entries[i := e][1..] == entries[1..][i - 1 := e];
    } else {
      assert entries[0 := e][1..] == entries[1..];
    }
  }

  lemma {:induction false} ViewDelete(entries: seq<Entry>, i: nat)
    requires Unique(entries) && i < |entries|
    ensures var r := entries[..i] + entries[i + 1..];
            Unique(r) && View(r) == View(entries) - {entries[i].key}
  {
    var r, e, rest := entries[..i] + entries[i + 1..], entries[0], entries[1..];
    assert entries == [e] + rest;
    if i > 0 {
      hide View, Unique;
      var less := rest[..i - 1] + rest[i..];
      assert entries[i] == rest[i - 1] && entries[i] in rest;
      ViewDelete(rest, i - 1);
      assert r == [e] + less;
    } else {
      ViewAt(rest, e.key);
      hide View, Unique;
      assert r == rest;
    }
  }

  /** Every operation does to the map what it says, and answers as the map would. */
  lemma StepRefinesMap(u: Store, op: Op)
    requires Unique(u.entries)
    ensures var (r, ok) := Step(u, op);
            && Unique(r.entries)
            && (View(r.entries), ok) == MapStep(View(u.entries), op)
  {
    var at := Lookup(u.entries, op.key);
    ViewAt(u.entries, op.key);
    match op
    case Add(key, frees) =>
      if at.None? {
        var r := [Entry(key, NULL_DATA, frees)] + u.entries;
        assert r[1..] == u.entries;
      }
    case Set(key, data) =>
      if at.Some? {
        ViewSet(u.entries, at.value, u.entries[at.value].(data := data));
      }
    case Delete(key) =>
      if at.Some? {
        ViewDelete(u.entries, at.value);
      } else {
        assert View(u.entries) - {key} == View(u.entries);
      }
  }

  // ----- conservation -----

  /** The non-null values stored under entries with a free function. */
  function Stored(entries: seq<Entry>): multiset<Data> {
    if entries == [] then multiset{} else multiset(FreedBy(entries[0])) + Stored(entries[1..])
  }

  /** The keys under which the map has the value `x`, to be freed. */
  function Holding(m: map<Key, (Data, bool)>, x: Data): set<Key> {
    set k | k in m && m[k] == (x, true)
  }

  /** What an operation on the map must free: the value it replaces or removes, if that is not
      null and its entry has a free function. */
  function MapFrees(m: map<Key, (Data, bool)>, op: Op): seq<Data> {
    if !op.Add? && op.key in m && m[op.key].0 != NULL_DATA && m[op.key].1 then [m[op.key].0] else []
  }

  /** What it stores that will have to be freed. */
  function MapGiven(m: map<Key, (Data, bool)>, op: Op): multiset<Data> {
    if op.Set? && op.key in m && op.data != NULL_DATA && m[op.key].1 then multiset{op.data} else multiset{}
  }

  function Given(m: map<Key, (Data, bool)>, ops: seq<Op>): multiset<Data>
    decreases ops
  {
    if ops == [] then multiset{} else MapGiven(m, ops[0]) + Given(MapStep(m, ops[0]).0, ops[1..])
  }

  lemma HoldingAdd(m: map<Key, (Data, bool)>, k: Key, v: (Data, bool), x: Data)
    requires k !in m
    ensures |Holding(m[k := v], x)| == |Holding(m, x)| + (if v == (x, true) then 1 else 0)
  {
    assert k !in Holding(m, x);
    if v == (x, true) {
      assert Holding(m[k := v], x) == Holding(m, x) + {k};
    } else {
      assert Holding(m[k := v], x) == Holding(m, x);
    }
  }

  /** The stored values, counted in the map. */
  lemma {:induction false} StoredCounts(entries: seq<Entry>, x: Data)
    requires Unique(entries)
    ensures Stored(entries)[x] == if x == NULL_DATA then 0 else |Holding(View(entries), x)|
  {
    if entries == [] {
      assert Holding(View(entries), x) == {};
    } else {
      var e, rest := entries[0], entries[1..];
      ViewAt(rest, e.key);
      StoredCounts(rest, x);
      HoldingAdd(View(rest), e.key, (e.data, e.frees), x);
    }
  }

  /** Set and delete free exactly the old value, when the map says so; add frees nothing. */
  lemma StepFrees(u: Store, op: Op)
    requires Unique(u.entries)
    ensures Step(u, op).0.freed == u.freed + MapFrees(View(u.entries), op)
    ensures GivenBy(u, op) == MapGiven(View(u.entries), op)
  {
    ViewAt(u.entries, op.key);
    assert u.freed + [] == u.freed;
  }

  lemma {:induction false} StoredConcat(a: seq<Entry>, b: seq<Entry>)
    ensures Stored(a + b) == Stored(a) + Stored(b)
  {
    if a == [] {
      assert a + b == b;
    } else {
      assert (a + b)[0] == a[0] && (a + b)[1..] == a[1..] + b;
      StoredConcat(a[1..], b);
    }
  }

  lemma StoredCons(e: Entry, rest: seq<Entry>)
    ensures Stored([e] + rest) == multiset(FreedBy(e)) + Stored(rest)
  {
    assert ([e] + rest)[1..] == rest;
  }

  lemma StoredAt(entries: seq<Entry>, i: nat)
    requires i < |entries|
    ensures Stored(entries)
         == Stored(entries[..i] + entries[i + 1..]) + multiset(FreedBy(entries[i]))
  {
    hide Stored, FreedBy;
    var before, e, after := entries[..i], entries[i], entries[i + 1..];
    assert entries == before + ([e] + after);
    StoredConcat(before, [e] + after);
    StoredCons(e, after);
    StoredConcat(before, after);
  }

  /** What one operation gives. */
  function GivenBy(u: Store, op: Op): multiset<Data> {
    match op
    case Set(key, data) =>
      (match Lookup(u.entries, key)
       case Some(i) => multiset(FreedBy(u.entries[i].(data := data)))
       case None => multiset{})
    case _ => multiset{}
  }

  lemma SetConserves(u: Store, i: nat, e: Entry)
    requires i < |u.entries|
    ensures multiset(u.freed + FreedBy(u.entries[i])) + Stored(u.entries[i := e])
         == multiset(u.freed) + Stored(u.entries) + multiset(FreedBy(e))
  {
    var r := u.entries[i := e];
    StoredAt(u.entries, i);
    StoredAt(r, i);
    assert r[..i] + r[i + 1..] == u.entries[..i] + u.entries[i + 1..];
  }

  lemma StepConserves(u: Store, op: Op)
    ensures var r := Step(u, op).0;
            multiset(r.freed) + Stored(r.entries) == multiset(u.freed) + Stored(u.entries) + GivenBy(u, op)
  {
    var at := Lookup(u.entries, op.key);
    match op
    case Add(key, frees) =>
      assert ([Entry(key, NULL_DATA, frees)] + u.entries)[1..] == u.entries;
    case Set(key, data) =>
      if at.Some? {
        SetConserves(u, at.value, u.entries[at.value].(data := data));
      }
    case Delete(key) =>
      if at.Some? {
        StoredAt(u.entries, at.value);
      }
  }

  /** Over every run, each value was given as often as it has been freed and is still stored. */
  lemma {:induction false} FreedExactlyOnce(u: Store, ops: seq<Op>, x: Data)
    requires Unique(u.entries) && x != NULL_DATA
    ensures var r := Run(u, ops);
            && Unique(r.entries)
            && multiset(r.freed)[x] + |Holding(View(r.entries), x)|
            == multiset(u.freed)[x] + |Holding(View(u.entries), x)| + Given(View(u.entries), ops)[x]
    decreases ops
  {
    if ops != [] {
      var r := Step(u, ops[0]).0;
      StepRefinesMap(u, ops[0]);
      StepFrees(u, ops[0]);
      StepConserves(u, ops[0]);
      StoredCounts(u.entries, x);
      StoredCounts(r.entries, x);
      hide Unique, Step, Stored, Holding, View, MapGiven;
      assert (multiset(r.freed) + Stored(r.entries))[x]
          == (multiset(u.freed) + Stored(u.entries) + GivenBy(u, ops[0]))[x];
      FreedExactlyOnce(r, ops[1..], x);
    }
  }

  lemma {:induction false} DestroyStored(u: Store)
    ensures DestroyAll(u).entries == []
    ensures multiset(DestroyAll(u).freed) == multiset(u.freed) + Stored(u.entries)
    decreases |u.entries|
  {
    if u.entries != [] {
      StoredAt(u.entries, 0);
      DestroyStored(DeleteAt(u, 0));
    }
  }

  /** Destroying the owner frees each value as often as the map has it, and leaves nothing. */
  lemma DestroyFreesAll(u: Store, x: Data)
    requires Unique(u.entries) && x != NULL_DATA
    ensures DestroyAll(u).entries == []
    ensures multiset(DestroyAll(u).freed)[x] == multiset(u.freed)[x] + |Holding(View(u.entries), x)|
  {
    DestroyStored(u);
    StoredCounts(u.entries, x);
  }

  /** Over the owner's whole life every value given is freed exactly once. */
  lemma LifeFreesAll(ops: seq<Op>, x: Data)
    requires x != NULL_DATA
    ensures multiset(DestroyAll(Run(Store([], []), ops)).freed)[x] == Given(map[], ops)[x]
  {
    var u := Store([], []);
    FreedExactlyOnce(u, ops, x);
    DestroyFreesAll(Run(u, ops), x);
    assert Holding(View(u.entries), x) == {};
  }
}

module UserDataLists {
  import opened Common
  import opened UserDataSpec

  class UserDataList {
    var entries: seq<Entry>
    var freed: seq<Data>

    ghost function State(): Store
      reads this
    {
      Store(entries, freed)
    }

    ghost predicate Valid()
      reads this
    {
      Unique(entries)
    }

    constructor ()
      ensures Valid() && State() == Store([], [])
    {
      entries, freed := [], [];
    }

    method Find(key: Key) returns (r: Option<nat>)
      ensures r == Lookup(entries, key)
    {
      var i := 0;
      while i < |entries|
        invariant 0 <= i <= |entries|
        invariant match Lookup(entries[i..], key)
                  case Some(j) => Lookup(entries, key) == Some(i + j)
                  case None => Lookup(entries, key) == None
      {
        if entries[i].key == key {
          return Some(i);
        }
        i := i + 1;
      }
      return None;
    }

    method AddData(key: Key, frees: bool) returns (ok: bool)
      requires Valid()
      modifies this
      ensures Valid() && (State(), ok) == Step(old(State()), Add(key, frees))
    {
      StepRefinesMap(State(), Add(key, frees));
      var at := Find(key);
      ok := at.None?;
      if ok {
        entries := [Entry(key, NULL_DATA, frees)] + entries;
      }
    }

    method SetData(key: Key, data: Data) returns (ok: bool)
      requires Valid()
      modifies this
      ensures Valid() && (State(), ok) == Step(old(State()), Set(key, data))
      ensures freed == old(freed) + MapFrees(old(View(entries)), Set(key, data))
    {
      StepFrees(State(), Set(key, data));
      StepRefinesMap(State(), Set(key, data));
      var at := Find(key);
      ok := at.Some?;
      if ok {
        var e := entries[at.value];
        if e.data != NULL_DATA && e.frees {
          freed := freed + [e.data];
        } else {
          assert freed + [] == freed;
        }
        entries := entries[at.value := e.(data := data)];
      }
    }

    /** The value of the key, or nothing when there is no entry. */
    method GetData(key: Key) returns (r: Option<Data>)
      requires Valid()
      ensures r == if key in View(entries) then Some(View(entries)[key].0) else None
    {
      ViewAt(entries, key);
      var at := Find(key);
      r := if at.Some? then Some(entries[at.value].data) else None;
    }

    /** `user_data_delete`. */
    method DeleteEntry(i: nat)
      requires i < |entries|
      modifies this
      ensures State() == DeleteAt(old(State()), i)
    {
      var e := entries[i];
      if e.data != NULL_DATA && e.frees {
        freed := freed + [e.data];
      } else {
        assert freed + [] == freed;
      }
      entries := entries[..i] + entries[i + 1..];
    }

    method DeleteData(key: Key) returns (ok: bool)
      requires Valid()
      modifies this
      ensures Valid() && (State(), ok) == Step(old(State()), Delete(key))
      ensures freed == old(freed) + MapFrees(old(View(entries)), Delete(key))
    {
      StepFrees(State(), Delete(key));
      StepRefinesMap(State(), Delete(key));
      var at := Find(key);
      ok := at.Some?;
      if ok {
        DeleteEntry(at.value);
      }
    }

    /** The loop of the owner's destruction. */
    method Destroy()
      requires Valid()
      modifies this
      ensures State() == DestroyAll(old(State())) && entries == []
      ensures forall x :: x != NULL_DATA ==>
                multiset(freed)[x] == multiset(old(freed))[x] + |Holding(View(old(entries)), x)|
    {
      forall x | x != NULL_DATA
        ensures multiset(DestroyAll(State()).freed)[x] == multiset(freed)[x] + |Holding(View(entries), x)|
      {
        DestroyFreesAll(State(), x);
      }
      while entries != []
        invariant DestroyAll(State()) == DestroyAll(old(State()))
        decreases |entries|
      {
        DeleteEntry(0);
      }
    }
  }
}
