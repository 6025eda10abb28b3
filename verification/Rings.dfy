/** The intrusive circular lists of src/list.h. `Links` is the memory that holds every
    `list_head` by its address; the operations assign its pointers in place, as the C code does,
    and are proved against the functions whose ring laws follow. */
module Rings {
  import opened Common

  datatype Pointers<A> = Pointers(prev: A, next: A)

  type Links<A> = map<A, Pointers<A>>

  /** A cell that was never written is read as linked to itself. */
  function Prev<A>(m: Links<A>, a: A): A {
    if a in m then m[a].prev else a
  }

  function Next<A>(m: Links<A>, a: A): A {
    if a in m then m[a].next else a
  }

  function SetPrev<A>(m: Links<A>, a: A, p: A): (r: Links<A>)
    ensures Prev(r, a) == p && Next(r, a) == Next(m, a)
  {
    m[a := Pointers(p, Next(m, a))]
  }

  function SetNext<A>(m: Links<A>, a: A, n: A): (r: Links<A>)
    ensures Next(r, a) == n && Prev(r, a) == Prev(m, a)
  {
    m[a := Pointers(Prev(m, a), n)]
  }

  // ----- the operations as functions -----

  function InitHead<A>(m: Links<A>, item: A): Links<A> {
    SetNext(SetPrev(m, item, item), item, item)
  }

  function Add<A>(m: Links<A>, item: A, head: A): Links<A> {
    var m1 := SetNext(SetPrev(m, item, head), item, Next(m, head));
    var m2 := SetPrev(m1, Next(m1, head), item);
    SetNext(m2, head, item)
  }

  function AddTail<A>(m: Links<A>, item: A, head: A): Links<A> {
    var m1 := SetPrev(SetNext(m, item, head), item, Prev(m, head));
    var m2 := SetNext(m1, Prev(m1, head), item);
    SetPrev(m2, head, item)
  }

  function Del<A>(m: Links<A>, item: A): Links<A> {
    var m1 := SetNext(m, Prev(m, item), Next(m, item));
    SetPrev(m1, Next(m1, item), Prev(m1, item))
  }

  function DelInit<A>(m: Links<A>, item: A): Links<A> {
    SetPrev(SetNext(Del(m, item), item, item), item, item)
  }

  // ----- rings -----

  /** Element `i` of the ring, counting the head as 0 and again as |s| + 1. */
  ghost function At<A>(head: A, s: seq<A>, i: int): A {
    if 1 <= i <= |s| then s[i - 1] else head
  }

  /** From `head`, following `next` visits exactly `s` and returns; `prev` goes back. */
  ghost predicate Ring<A>(m: Links<A>, head: A, s: seq<A>) {
    && head !in s && Distinct(s)
    && Next(m, head) == At(head, s, 1)
    && Prev(m, head) == At(head, s, |s|)
    && (forall i {:trigger Next(m, s[i])} {:trigger Prev(m, s[i])} :: 0 <= i < |s| ==>
          Next(m, s[i]) == At(head, s, i + 2) && Prev(m, s[i]) == At(head, s, i))
  }

  /** The two neighbours an item remembers point at each other. */
  ghost predicate Adjacent<A>(m: Links<A>, item: A) {
    Next(m, Prev(m, item)) == Next(m, item) && Prev(m, Next(m, item)) == Prev(m, item)
  }

  /** The same pointers in the cell `a`. */
  ghost predicate SameAt<A>(m: Links<A>, r: Links<A>, a: A) {
    Next(r, a) == Next(m, a) && Prev(r, a) == Prev(m, a)
  }

  lemma InitRing<A>(m: Links<A>, item: A)
    ensures Ring(InitHead(m, item), item, [])
  {
  }

  lemma AddRing<A>(m: Links<A>, item: A, head: A, s: seq<A>)
    requires Ring(m, head, s) && item != head && item !in s
    ensures Ring(Add(m, item, head), head, [item] + s)
  {
    DistinctPrepend(item, s);
    var r, t := Add(m, item, head), [item] + s;
    forall i | 0 <= i < |t|
      ensures Next(r, t[i]) == At(head, t, i + 2) && Prev(r, t[i]) == At(head, t, i)
    {
      if i > 0 {
        assert t[i] == s[i - 1];
        assert Next(m, s[i - 1]) == At(head, s, i + 1);
      }
    }
  }

  lemma AddTailRing<A>(m: Links<A>, item: A, head: A, s: seq<A>)
    requires Ring(m, head, s) && item != head && item !in s
    ensures Ring(AddTail(m, item, head), head, s + [item])
  {
    DistinctAppend(s, item);
    var r, t := AddTail(m, item, head), s + [item];
    forall i | 0 <= i < |t|
      ensures Next(r, t[i]) == At(head, t, i + 2) && Prev(r, t[i]) == At(head, t, i)
    {
      if i < |s| {
        assert t[i] == s[i];
        assert Next(m, s[i]) == At(head, s, i + 2);
      }
    }
  }

  /** On a ring holding the item, `list_del` removes it. The item keeps its links, and its old
      neighbours are now adjacent. */
  lemma DelRing<A>(m: Links<A>, head: A, s: seq<A>, k: nat)
    requires Ring(m, head, s) && k < |s|
    ensures var r := Del(m, s[k]);
            && Ring(r, head, s[..k] + s[k + 1..])
            && Next(r, s[k]) == Next(m, s[k]) && Prev(r, s[k]) == Prev(m, s[k])
            && Adjacent(r, s[k])
  {
    var r := Del(m, s[k]);
    var t := s[..k] + s[k + 1..];
    assert Distinct(t) by {
      WithoutAt(s, k);
      WithoutDistinct(s, s[k]);
    }
    forall i | 0 <= i < |t|
      ensures Next(r, t[i]) == At(head, t, i + 2) && Prev(r, t[i]) == At(head, t, i)
    {
      DelRingAt(m, head, s, k, i);
    }
  }

  lemma DelRingAt<A>(m: Links<A>, head: A, s: seq<A>, k: nat, i: nat)
    requires Ring(m, head, s) && k < |s| && i < |s| - 1
    ensures var r, t := Del(m, s[k]), s[..k] + s[k + 1..];
            Next(r, t[i]) == At(head, t, i + 2) && Prev(r, t[i]) == At(head, t, i)
  {
    var r := Del(m, s[k]);
    var j := if i < k then i else i + 1;
    assert (s[..k] + s[k + 1..])[i] == s[j];
    assert Next(m, s[j]) == At(head, s, j + 2) && Prev(m, s[j]) == At(head, s, j);
    assert Next(m, s[k]) == At(head, s, k + 2) && Prev(m, s[k]) == At(head, s, k);
  }

  /** A second `list_del` leaves every pointer as it is exactly when the neighbours the item
      remembers are adjacent. */
  lemma DelAgainExactly<A(!new)>(m: Links<A>, item: A)
    ensures (forall a :: SameAt(m, Del(m, item), a)) <==> Adjacent(m, item)
  {
    var r := Del(m, item);
    var p, n := Prev(m, item), Next(m, item);
    assert Next(r, p) == n && Prev(r, n) == p;
    if !Adjacent(m, item) {
      assert !SameAt(m, r, p) || !SameAt(m, r, n);
    }
  }

  lemma NextPrev<A>(m: Links<A>, head: A, s: seq<A>, p: A)
    requires Ring(m, head, s) && (p == head || p in s)
    ensures Prev(m, Next(m, p)) == p
  {
    if p != head {
      var k :| 0 <= k < |s| && s[k] == p;
      assert Next(m, s[k]) == At(head, s, k + 2);
      if k + 1 < |s| {
        assert Prev(m, s[k + 1]) == At(head, s, k + 1);
      }
    } else if s != [] {
      assert Prev(m, s[0]) == At(head, s, 0);
    }
  }

  /** Two memories with the same ring agree on its cells. */
  lemma NextDetermines<A>(m: Links<A>, r: Links<A>, head: A, s: seq<A>)
    requires Ring(m, head, s) && Ring(r, head, s)
    ensures SameAt(m, r, head) && forall a :: a in s ==> SameAt(m, r, a)
  {
    forall a | a in s ensures SameAt(m, r, a) {
      var k :| 0 <= k < |s| && s[k] == a;
      assert Next(m, s[k]) == Next(r, s[k]) && Prev(m, s[k]) == Prev(r, s[k]);
    }
  }

  /** Seen from a ring the item has left but whose member it remembers as predecessor, a second
      `list_del` keeps the ring exactly when it changes nothing. */
  lemma DelAgainRing<A>(m: Links<A>, item: A, head: A, s: seq<A>)
    requires Ring(m, head, s) && item !in s && item != head
    requires Prev(m, item) == head || Prev(m, item) in s
    ensures Ring(Del(m, item), head, s) <==> Adjacent(m, item)
  {
    var r := Del(m, item);
    var p, n := Prev(m, item), Next(m, item);
    assert Next(r, p) == n;
    if Adjacent(m, item) {
      forall a | a == head || a in s ensures SameAt(m, r, a) {
      }
      SameRing(m, r, head, s);
    } else if Ring(r, head, s) {
      NextDetermines(m, r, head, s);
      NextPrev(m, head, s, p);
      assert false;
    }
  }

  /** `list_delinit` links the item to itself; a second one changes nothing. */
  lemma DelInitIdempotent<A>(m: Links<A>, item: A)
    ensures Ring(DelInit(m, item), item, [])
    ensures DelInit(DelInit(m, item), item) == DelInit(m, item)
  {
  }

  lemma DelInitRing<A>(m: Links<A>, head: A, s: seq<A>, k: nat)
    requires Ring(m, head, s) && k < |s|
    ensures Ring(DelInit(m, s[k]), head, s[..k] + s[k + 1..])
  {
    DelRing(m, head, s, k);
    var t := s[..k] + s[k + 1..];
    assert s[k] !in t by {
      WithoutAt(s, k);
      WithoutDistinct(s, s[k]);
    }
    SameRing(Del(m, s[k]), DelInit(m, s[k]), head, s[..k] + s[k + 1..]);
  }

  /** A ring depends on its own cells only. */
  lemma SameRing<A>(m: Links<A>, r: Links<A>, head: A, s: seq<A>)
    requires Ring(m, head, s) && SameAt(m, r, head) && forall a :: a in s ==> SameAt(m, r, a)
    ensures Ring(r, head, s)
  {
    forall i | 0 <= i < |s|
      ensures Next(r, s[i]) == At(head, s, i + 2) && Prev(r, s[i]) == At(head, s, i)
    {
      assert s[i] in s && SameAt(m, r, s[i]);
      assert Next(m, s[i]) == At(head, s, i + 2);
    }
  }

  ghost predicate Apart<A>(h: A, s: seq<A>, g: A, t: seq<A>) {
    h != g && h !in t && g !in s && forall a :: a in s ==> a !in t
  }

  /** Adding to or deleting from one ring leaves every disjoint ring as it is. */
  lemma AddTailApart<A>(m: Links<A>, item: A, head: A, s: seq<A>, g: A, t: seq<A>)
    requires Ring(m, head, s) && Ring(m, g, t) && Apart(head, s, g, t) && item != g && item !in t
    ensures Ring(AddTail(m, item, head), g, t)
  {
    SameRing(m, AddTail(m, item, head), g, t);
  }

  lemma AddApart<A>(m: Links<A>, item: A, head: A, s: seq<A>, g: A, t: seq<A>)
    requires Ring(m, head, s) && Ring(m, g, t) && Apart(head, s, g, t) && item != g && item !in t
    ensures Ring(Add(m, item, head), g, t)
  {
    SameRing(m, Add(m, item, head), g, t);
  }

  lemma DelApart<A>(m: Links<A>, head: A, s: seq<A>, k: nat, g: A, t: seq<A>)
    requires Ring(m, head, s) && Ring(m, g, t) && k < |s| && Apart(head, s, g, t)
    ensures Ring(Del(m, s[k]), g, t)
  {
    assert Next(m, s[k]) == At(head, s, k + 2) && Prev(m, s[k]) == At(head, s, k);
    SameRing(m, Del(m, s[k]), g, t);
  }

  // ----- the operations in place -----

  class Memory<A(==)> {
    var links: Links<A>

    constructor ()
      ensures links == map[]
    {
      links := map[];
    }

    method ListInitHead(item: A)
      modifies this
      ensures links == InitHead(old(links), item)
    {
      links := SetPrev(links, item, item);
      links := SetNext(links, item, item);
    }

    method ListAdd(item: A, head: A)
      modifies this
      ensures links == Add(old(links), item, head)
    {
      links := SetPrev(links, item, head);
      links := SetNext(links, item, Next(links, head));
      links := SetPrev(links, Next(links, head), item);
      links := SetNext(links, head, item);
    }

    method ListAddTail(item: A, head: A)
      modifies this
      ensures links == AddTail(old(links), item, head)
    {
      links := SetNext(links, item, head);
      links := SetPrev(links, item, Prev(links, head));
      links := SetNext(links, Prev(links, head), item);
      links := SetPrev(links, head, item);
    }

    method ListDel(item: A)
      modifies this
      ensures links == Del(old(links), item)
    {
      links := SetNext(links, Prev(links, item), Next(links, item));
      links := SetPrev(links, Next(links, item), Prev(links, item));
    }

    method ListDelInit(item: A)
      modifies this
      ensures links == DelInit(old(links), item)
    {
      links := SetNext(links, Prev(links, item), Next(links, item));
      links := SetPrev(links, Next(links, item), Prev(links, item));
      links := SetNext(links, item, item);
      links := SetPrev(links, item, item);
    }
  }
}
