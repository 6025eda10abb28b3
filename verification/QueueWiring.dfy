/** How the rings of src/list.h carry a surface queue: three rings thread the nodes through
    their `item_link`, one threads them through `link`. */
module QueueWiring {
  import opened Common
  import opened QueueSpec
  import opened QueueInvariants
  import opened Rings

  /** The addresses of the list heads of a queue and of the two links of every node. */
  datatype Addr =
    | FreeHead
    | DirtyHead
    | PendingHead
    | NodesHead
    | ItemLink(node: Node)
    | NodeLink(node: Node)

  datatype Which = Free | Dirty | Pending

  function Head(w: Which): Addr {
    match w
    case Free => FreeHead
    case Dirty => DirtyHead
    case Pending => PendingHead
  }

  function QueueOf(q: Queue, w: Which): seq<Node> {
    match w
    case Free => q.free
    case Dirty => q.dirty
    case Pending => q.pending
  }

  function WithQueue(q: Queue, w: Which, s: seq<Node>): Queue {
    match w
    case Free => q.(free := s)
    case Dirty => q.(dirty := s)
    case Pending => q.(pending := s)
  }

  function ItemLinks(s: seq<Node>): (r: seq<Addr>)
    ensures |r| == |s| && forall i :: 0 <= i < |s| ==> r[i] == ItemLink(s[i])
  {
    seq(|s|, i requires 0 <= i < |s| => ItemLink(s[i]))
  }

  function NodeLinks(s: seq<Node>): (r: seq<Addr>)
    ensures |r| == |s| && forall i :: 0 <= i < |s| ==> r[i] == NodeLink(s[i])
  {
    seq(|s|, i requires 0 <= i < |s| => NodeLink(s[i]))
  }

  predicate IsItem(a: Addr) {
    !a.NodesHead? && !a.NodeLink?
  }

  ghost predicate Loose(q: Queue, n: Node) {
    n in q.list && n !in q.free && n !in q.dirty && n !in q.pending
  }

  /** The two kinds of ring never point into each other. */
  ghost predicate Separate(m: Links<Addr>) {
    forall a {:trigger Next(m, a)} {:trigger Prev(m, a)} ::
      IsItem(a) ==> IsItem(Next(m, a)) && IsItem(Prev(m, a))
  }

  /** Only the sequence queue has a pending ring. */
  ghost predicate Uses(q: Queue, w: Which) {
    w == Pending ==> q.impl == Sequence
  }

  /** A node in no queue still remembers, as its predecessor, the head it was popped from. */
  ghost predicate Remembers(m: Links<Addr>, q: Queue, n: Node) {
    exists w :: Uses(q, w) && Prev(m, ItemLink(n)) == Head(w)
  }

  ghost predicate Stale(m: Links<Addr>, q: Queue) {
    forall n :: Loose(q, n) ==> Remembers(m, q, n)
  }

  ghost predicate QueueRing(m: Links<Addr>, q: Queue, w: Which) {
    Ring(m, Head(w), ItemLinks(QueueOf(q, w)))
  }

  ghost predicate Wired(m: Links<Addr>, q: Queue) {
    && (forall w :: Uses(q, w) ==> QueueRing(m, q, w))
    && Ring(m, NodesHead, NodeLinks(q.list))
    && Separate(m)
    && Stale(m, q)
  }

  // ----- walking -----

  /** The address a walk over `s` from `head` has reached after `i` nodes. */
  function ItemAt(head: Addr, s: seq<Node>, i: nat): Addr {
    if i < |s| then ItemLink(s[i]) else head
  }

  function NodeAt(s: seq<Node>, i: nat): Addr {
    if i < |s| then NodeLink(s[i]) else NodesHead
  }

  lemma WalkItems(m: Links<Addr>, head: Addr, s: seq<Node>, i: nat)
    requires Ring(m, head, ItemLinks(s))
    ensures Next(m, head) == ItemAt(head, s, 0)
    ensures i < |s| ==> Next(m, ItemLink(s[i])) == ItemAt(head, s, i + 1)
  {
    var links := ItemLinks(s);
    if i < |links| {
      assert Next(m, links[i]) == At(head, links, i + 2);
    }
  }

  lemma WalkQueue(m: Links<Addr>, q: Queue, w: Which, i: nat)
    requires Wired(m, q) && Uses(q, w)
    ensures Next(m, Head(w)) == ItemAt(Head(w), QueueOf(q, w), 0)
    ensures i < |QueueOf(q, w)| ==> Next(m, ItemLink(QueueOf(q, w)[i])) == ItemAt(Head(w), QueueOf(q, w), i + 1)
  {
    assert QueueRing(m, q, w);
    WalkItems(m, Head(w), QueueOf(q, w), i);
  }

  lemma WalkNodes(m: Links<Addr>, s: seq<Node>, i: nat)
    requires Ring(m, NodesHead, NodeLinks(s))
    ensures Next(m, NodesHead) == NodeAt(s, 0)
    ensures i < |s| ==> Next(m, NodeLink(s[i])) == NodeAt(s, i + 1)
  {
    if i < |s| {
      assert Next(m, NodeLinks(s)[i]) == At(NodesHead, NodeLinks(s), i + 2);
    }
  }

  // ----- pushing and popping -----

  lemma SeparateSet(m: Links<Addr>, a: Addr, b: Addr)
    requires Separate(m) && (IsItem(a) ==> IsItem(b))
    ensures Separate(SetNext(m, a, b)) && Separate(SetPrev(m, a, b))
  {
    var r, p := SetNext(m, a, b), SetPrev(m, a, b);
    forall c | IsItem(c)
      ensures IsItem(Next(r, c)) && IsItem(Prev(r, c)) && IsItem(Next(p, c)) && IsItem(Prev(p, c))
    {
      assert IsItem(Next(m, c)) && IsItem(Prev(m, c));
    }
  }

  lemma AddTailSeparate(m: Links<Addr>, item: Addr, head: Addr)
    requires Separate(m) && IsItem(item) && IsItem(head)
    ensures Separate(AddTail(m, item, head))
  {
    SeparateSet(m, item, head);
    var m0 := SetNext(m, item, head);
    SeparateSet(m0, item, Prev(m, head));
    var m1 := SetPrev(m0, item, Prev(m, head));
    SeparateSet(m1, Prev(m1, head), item);
    SeparateSet(SetNext(m1, Prev(m1, head), item), head, item);
  }

  lemma DelSeparate(m: Links<Addr>, item: Addr)
    requires Separate(m) && IsItem(item)
    ensures Separate(Del(m, item))
  {
    SeparateSet(m, Prev(m, item), Next(m, item));
    var m1 := SetNext(m, Prev(m, item), Next(m, item));
    SeparateSet(m1, Next(m1, item), Prev(m1, item));
  }

  lemma LinksIn(s: seq<Node>, n: Node)
    ensures ItemLink(n) in ItemLinks(s) <==> n in s
    ensures NodeLink(n) in NodeLinks(s) <==> n in s
  {
    if n in s {
      var k :| 0 <= k < |s| && s[k] == n;
      assert ItemLinks(s)[k] == ItemLink(n) && NodeLinks(s)[k] == NodeLink(n);
    }
  }

  lemma QueuesApart(q: Queue, w: Which, v: Which)
    requires Shape(q) && w != v
    ensures Apart(Head(w), ItemLinks(QueueOf(q, w)), Head(v), ItemLinks(QueueOf(q, v)))
  {
    forall a | a in ItemLinks(QueueOf(q, w)) ensures a !in ItemLinks(QueueOf(q, v)) {
      LinksIn(QueueOf(q, w), a.node);
      LinksIn(QueueOf(q, v), a.node);
    }
  }

  lemma ListApart(q: Queue, w: Which)
    ensures Apart(Head(w), ItemLinks(QueueOf(q, w)), NodesHead, NodeLinks(q.list))
  {
  }

  lemma PushWired(m: Links<Addr>, q: Queue, w: Which, n: Node)
    requires Wired(m, q) && Shape(q) && Uses(q, w) && Loose(q, n)
    ensures Wired(AddTail(m, ItemLink(n), Head(w)), WithQueue(q, w, QueueOf(q, w) + [n]))
  {
    var r := AddTail(m, ItemLink(n), Head(w));
    var q' := WithQueue(q, w, QueueOf(q, w) + [n]);
    assert QueueRing(m, q, w);
    LinksIn(QueueOf(q, w), n);
    AddTailRing(m, ItemLink(n), Head(w), ItemLinks(QueueOf(q, w)));
    assert ItemLinks(QueueOf(q, w) + [n]) == ItemLinks(QueueOf(q, w)) + [ItemLink(n)];
    forall v | Uses(q', v) ensures QueueRing(r, q', v) {
      if v != w {
        assert QueueRing(m, q, v);
        QueuesApart(q, w, v);
        LinksIn(QueueOf(q, v), n);
        AddTailApart(m, ItemLink(n), Head(w), ItemLinks(QueueOf(q, w)), Head(v), ItemLinks(QueueOf(q, v)));
      }
    }
    ListApart(q, w);
    AddTailApart(m, ItemLink(n), Head(w), ItemLinks(QueueOf(q, w)), NodesHead, NodeLinks(q.list));
    PushStale(m, q, w, n);
  }

  /** The wiring depends on the lists only. */
  lemma SameWiring(m: Links<Addr>, q: Queue, q': Queue)
    requires Wired(m, q) && q'.impl == q.impl
    requires q'.free == q.free && q'.dirty == q.dirty && q'.pending == q.pending && q'.list == q.list
    ensures Wired(m, q')
  {
    forall w | Uses(q', w) ensures QueueRing(m, q', w) {
      assert QueueRing(m, q, w);
    }
    forall n | Loose(q', n) ensures Remembers(m, q', n) {
      assert Loose(q, n);
      Recall(m, m, q, q', n);
    }
  }

  lemma PushShape(q: Queue, w: Which, n: Node)
    requires Shape(q) && Loose(q, n)
    ensures Shape(WithQueue(q, w, QueueOf(q, w) + [n]))
  {
    DistinctAppend(QueueOf(q, w), n);
  }

  lemma PopShape(q: Queue, w: Which)
    requires Shape(q) && QueueOf(q, w) != []
    ensures Shape(WithQueue(q, w, QueueOf(q, w)[1..]))
    ensures Loose(WithQueue(q, w, QueueOf(q, w)[1..]), QueueOf(q, w)[0])
  {
    DistinctTail(QueueOf(q, w));
  }

  lemma AttachShape(q: Queue, n: Node)
    requires Shape(q) && n !in q.list
    ensures Shape(Attach(q, n))
  {
    DistinctAppend(q.list, n);
    DistinctAppend(q.free, n);
    assert Elems(Attach(q, n).list) == Elems(q.list) + {n};
  }

  lemma Recall(m: Links<Addr>, r: Links<Addr>, q: Queue, q': Queue, n: Node)
    requires Remembers(m, q, n) && q'.impl == q.impl && Prev(r, ItemLink(n)) == Prev(m, ItemLink(n))
    ensures Remembers(r, q', n)
  {
    var w :| Uses(q, w) && Prev(m, ItemLink(n)) == Head(w);
    assert Uses(q', w);
  }

  lemma PushStale(m: Links<Addr>, q: Queue, w: Which, n: Node)
    requires Wired(m, q) && Shape(q) && Uses(q, w) && Loose(q, n)
    ensures Separate(AddTail(m, ItemLink(n), Head(w)))
    ensures Stale(AddTail(m, ItemLink(n), Head(w)), WithQueue(q, w, QueueOf(q, w) + [n]))
  {
    var r := AddTail(m, ItemLink(n), Head(w));
    var q' := WithQueue(q, w, QueueOf(q, w) + [n]);
    AddTailSeparate(m, ItemLink(n), Head(w));
    assert QueueRing(m, q, w);
    forall k | Loose(q', k) ensures Remembers(r, q', k) {
      assert k in QueueOf(q', w) <==> k in QueueOf(q, w) || k == n;
      assert Loose(q, k);
      AddTailPrev(m, ItemLink(n), Head(w), ItemLink(k));
      Recall(m, r, q, q', k);
    }
  }

  lemma PopWired(m: Links<Addr>, q: Queue, w: Which)
    requires Wired(m, q) && Shape(q) && Uses(q, w) && QueueOf(q, w) != []
    ensures Wired(Del(m, ItemLink(QueueOf(q, w)[0])), WithQueue(q, w, QueueOf(q, w)[1..]))
    ensures Next(m, Head(w)) == ItemLink(QueueOf(q, w)[0])
  {
    var s := QueueOf(q, w);
    var links := ItemLinks(s);
    var r := Del(m, ItemLink(s[0]));
    var q' := WithQueue(q, w, s[1..]);
    assert QueueRing(m, q, w);
    DelRing(m, Head(w), links, 0);
    assert links[..0] + links[1..] == ItemLinks(s[1..]);
    forall v | Uses(q', v) ensures QueueRing(r, q', v) {
      if v != w {
        assert QueueRing(m, q, v);
        QueuesApart(q, w, v);
        DelApart(m, Head(w), links, 0, Head(v), ItemLinks(QueueOf(q, v)));
      }
    }
    ListApart(q, w);
    DelApart(m, Head(w), links, 0, NodesHead, NodeLinks(q.list));
    PopStale(m, q, w);
  }

  lemma PopStale(m: Links<Addr>, q: Queue, w: Which)
    requires Wired(m, q) && Shape(q) && Uses(q, w) && QueueOf(q, w) != []
    ensures Separate(Del(m, ItemLink(QueueOf(q, w)[0])))
    ensures Stale(Del(m, ItemLink(QueueOf(q, w)[0])), WithQueue(q, w, QueueOf(q, w)[1..]))
  {
    var s := QueueOf(q, w);
    var n := s[0];
    var r := Del(m, ItemLink(n));
    var q' := WithQueue(q, w, s[1..]);
    DelSeparate(m, ItemLink(n));
    assert QueueRing(m, q, w);
    assert ItemLinks(s)[0] == ItemLink(n);
    assert Prev(m, ItemLink(n)) == Head(w) && Next(m, ItemLink(n)) == At(Head(w), ItemLinks(s), 2);
    assert s == [n] + s[1..];
    forall k | Loose(q', k) ensures Remembers(r, q', k) {
      if k == n {
        assert Uses(q', w) && Prev(r, ItemLink(n)) == Head(w);
      } else {
        assert k in s <==> k == n || k in s[1..];
        assert Loose(q, k);
        assert Next(m, ItemLink(n)) != ItemLink(k);
        DelPrevOther(m, ItemLink(n), ItemLink(k));
        Recall(m, r, q, q', k);
      }
    }
  }

  // ----- attaching and detaching -----

  /** A new node joins the ring of attached nodes. It is in no queue yet, so its item link is
      pushed right after. */
  lemma AttachWired(m: Links<Addr>, q: Queue, n: Node)
    requires Wired(m, q) && Shape(q) && n !in q.list
    ensures var q' := Attach(q, n);
            Wired(AddTail(AddTail(m, NodeLink(n), NodesHead), ItemLink(n), FreeHead), q')
  {
    var m1 := AddTail(m, NodeLink(n), NodesHead);
    var r := AddTail(m1, ItemLink(n), FreeHead);
    var q' := Attach(q, n);
    var links := NodeLinks(q.list);
    LinksIn(q.list, n);
    LinksIn(q.free, n);
    AddTailRing(m, NodeLink(n), NodesHead, links);
    assert NodeLinks(q'.list) == links + [NodeLink(n)];
    forall v | Uses(q, v) ensures QueueRing(m1, q, v) {
      assert QueueRing(m, q, v);
      ListApart(q, v);
      AddTailApart(m, NodeLink(n), NodesHead, links, Head(v), ItemLinks(QueueOf(q, v)));
    }
    assert QueueRing(m1, q, Free);
    AddTailRing(m1, ItemLink(n), FreeHead, ItemLinks(q.free));
    assert ItemLinks(q'.free) == ItemLinks(q.free) + [ItemLink(n)];
    forall v | Uses(q', v) ensures QueueRing(r, q', v) {
      if v != Free {
        assert QueueRing(m1, q, v);
        QueuesApart(q, Free, v);
        LinksIn(QueueOf(q, v), n);
        AddTailApart(m1, ItemLink(n), FreeHead, ItemLinks(q.free), Head(v), ItemLinks(QueueOf(q, v)));
      }
    }
    AddTailApart(m1, ItemLink(n), FreeHead, ItemLinks(q.free), NodesHead, links + [NodeLink(n)]);
    AttachStale(m, q, n);
  }

  /** The node links of the attached ring point at node links. */
  lemma ListInside(m: Links<Addr>, q: Queue)
    requires Wired(m, q)
    ensures !IsItem(Prev(m, NodesHead))
    ensures forall n :: n in q.list ==> !IsItem(Prev(m, NodeLink(n))) && !IsItem(Next(m, NodeLink(n)))
  {
    forall n | n in q.list ensures !IsItem(Prev(m, NodeLink(n))) && !IsItem(Next(m, NodeLink(n))) {
      var k :| 0 <= k < |q.list| && q.list[k] == n;
      assert NodeLinks(q.list)[k] == NodeLink(n);
    }
  }

  /** Writes to the attached ring leave every queue link alone. */
  ghost predicate ItemsSame(m: Links<Addr>, r: Links<Addr>) {
    forall a :: IsItem(a) ==> SameAt(m, r, a)
  }

  lemma AddTailNodes(m: Links<Addr>, n: Node)
    requires !IsItem(Prev(m, NodesHead))
    ensures ItemsSame(m, AddTail(m, NodeLink(n), NodesHead))
  {
  }

  lemma DelNodes(m: Links<Addr>, n: Node)
    requires !IsItem(Prev(m, NodeLink(n))) && !IsItem(Next(m, NodeLink(n)))
    ensures ItemsSame(m, Del(m, NodeLink(n)))
  {
  }

  lemma ItemsSameSeparate(m: Links<Addr>, r: Links<Addr>)
    requires Separate(m) && ItemsSame(m, r)
    ensures Separate(r)
  {
    forall a | IsItem(a) ensures IsItem(Next(r, a)) && IsItem(Prev(r, a)) {
      assert SameAt(m, r, a);
    }
  }

  lemma AddTailPrev(m: Links<Addr>, item: Addr, head: Addr, a: Addr)
    requires a != item && a != head
    ensures Prev(AddTail(m, item, head), a) == Prev(m, a)
  {
  }

  lemma AttachStale(m: Links<Addr>, q: Queue, n: Node)
    requires Wired(m, q) && Shape(q) && n !in q.list
    ensures var r := AddTail(AddTail(m, NodeLink(n), NodesHead), ItemLink(n), FreeHead);
            Separate(r) && Stale(r, Attach(q, n))
  {
    ListInside(m, q);
    AddTailNodes(m, n);
    var m1 := AddTail(m, NodeLink(n), NodesHead);
    ItemsSameSeparate(m, m1);
    AddTailSeparate(m1, ItemLink(n), FreeHead);
    AttachStaleItems(m, m1, q, n);
  }

  lemma AttachStaleItems(m: Links<Addr>, m1: Links<Addr>, q: Queue, n: Node)
    requires Stale(m, q) && ItemsSame(m, m1) && n !in q.list
    ensures Stale(AddTail(m1, ItemLink(n), FreeHead), Attach(q, n))
  {
    var r := AddTail(m1, ItemLink(n), FreeHead);
    var q' := Attach(q, n);
    forall k | Loose(q', k) ensures Remembers(r, q', k) {
      assert n in q'.free;
      assert Loose(q, k);
      assert SameAt(m, m1, ItemLink(k));
      AddTailPrev(m1, ItemLink(n), FreeHead, ItemLink(k));
      Recall(m, r, q, q', k);
    }
  }

  /** `_queue_node_delete`. */
  function DeleteLinks(m: Links<Addr>, n: Node): Links<Addr> {
    Del(Del(m, ItemLink(n)), NodeLink(n))
  }

  /** Unlinking a node from the attached ring concerns that ring only. */
  lemma UnlinkNode(m: Links<Addr>, s: seq<Node>, n: Node)
    requires Distinct(s) && n in s && Ring(m, NodesHead, NodeLinks(s))
    ensures Ring(Del(m, NodeLink(n)), NodesHead, NodeLinks(Without(s, n)))
    ensures ItemsSame(m, Del(m, NodeLink(n)))
  {
    var links := NodeLinks(s);
    var k :| 0 <= k < |s| && s[k] == n;
    assert links[k] == NodeLink(n);
    WithoutAt(s, k);
    DelRing(m, NodesHead, links, k);
    assert NodeLinks(s[..k] + s[k + 1..]) == links[..k] + links[k + 1..];
    NodeNeighbours(m, s, k);
    DelNodes(m, n);
  }

  lemma NodeNeighbours(m: Links<Addr>, s: seq<Node>, k: nat)
    requires k < |s| && Ring(m, NodesHead, NodeLinks(s))
    ensures Next(m, NodeLink(s[k])) == At(NodesHead, NodeLinks(s), k + 2)
    ensures Prev(m, NodeLink(s[k])) == At(NodesHead, NodeLinks(s), k)
    ensures !IsItem(Prev(m, NodeLink(s[k]))) && !IsItem(Next(m, NodeLink(s[k])))
  {
    assert NodeLinks(s)[k] == NodeLink(s[k]);
  }

  /** Writing queue links leaves the attached ring alone. */
  lemma DelItemKeepsNodes(m: Links<Addr>, item: Addr, s: seq<Node>)
    requires Separate(m) && IsItem(item) && Ring(m, NodesHead, NodeLinks(s))
    ensures Ring(Del(m, item), NodesHead, NodeLinks(s))
  {
    SameRing(m, Del(m, item), NodesHead, NodeLinks(s));
  }

  lemma DeleteLinksNodes(m: Links<Addr>, s: seq<Node>, n: Node)
    requires Separate(m) && Distinct(s) && n in s && Ring(m, NodesHead, NodeLinks(s))
    ensures var r := DeleteLinks(m, n);
            && Separate(r)
            && Ring(r, NodesHead, NodeLinks(Without(s, n)))
            && ItemsSame(Del(m, ItemLink(n)), r)
  {
    DelSeparate(m, ItemLink(n));
    DelItemKeepsNodes(m, ItemLink(n), s);
    UnlinkNode(Del(m, ItemLink(n)), s, n);
    ItemsSameSeparate(Del(m, ItemLink(n)), DeleteLinks(m, n));
  }

  lemma ItemsSameRing(m: Links<Addr>, r: Links<Addr>, w: Which, s: seq<Node>)
    requires ItemsSame(m, r)
    ensures Ring(m, Head(w), ItemLinks(s)) <==> Ring(r, Head(w), ItemLinks(s))
  {
    var links := ItemLinks(s);
    assert SameAt(m, r, Head(w));
    forall a | a in links ensures SameAt(m, r, a) && SameAt(r, m, a) {
      assert IsItem(a);
    }
    if Ring(m, Head(w), links) {
      SameRing(m, r, Head(w), links);
    }
    if Ring(r, Head(w), links) {
      SameRing(r, m, Head(w), links);
    }
  }

  lemma LooseAfterDetach(q: Queue, n: Node, j: Node)
    requires Shape(q) && Loose(Detach(q, n), j)
    ensures j != n && Loose(q, j)
  {
    WithoutDistinct(q.list, n);
    WithoutElems(q.free, n);
    WithoutElems(q.dirty, n);
    WithoutElems(q.pending, n);
  }

  lemma DelPrevOther(m: Links<Addr>, item: Addr, a: Addr)
    requires a != Next(m, item)
    ensures Prev(Del(m, item), a) == Prev(m, a)
  {
  }

  /** In a ring nothing but the next member or the head comes after a member. */
  lemma SuccessorQueued(m: Links<Addr>, w: Which, s: seq<Node>, n: Node, j: Node)
    requires Ring(m, Head(w), ItemLinks(s)) && n in s && j !in s
    ensures Next(m, ItemLink(n)) != ItemLink(j)
  {
    var k :| 0 <= k < |s| && s[k] == n;
    assert ItemLinks(s)[k] == ItemLink(n);
    assert Next(m, ItemLink(n)) == At(Head(w), ItemLinks(s), k + 2);
    if k + 1 < |s| {
      assert s[k + 1] in s;
    }
  }

  lemma OtherRingKept(m: Links<Addr>, q: Queue, w: Which, k: nat, v: Which)
    requires Wired(m, q) && Shape(q) && Uses(q, w) && Uses(q, v) && v != w && k < |QueueOf(q, w)|
    ensures QueueRing(Del(m, ItemLink(QueueOf(q, w)[k])), q, v)
  {
    assert QueueRing(m, q, w) && QueueRing(m, q, v);
    QueuesApart(q, w, v);
    assert ItemLinks(QueueOf(q, w))[k] == ItemLink(QueueOf(q, w)[k]);
    DelApart(m, Head(w), ItemLinks(QueueOf(q, w)), k, Head(v), ItemLinks(QueueOf(q, v)));
  }

  /** Detaching a queued node takes it out of its queue and out of the attached ring. */
  lemma DetachQueuedWired(m: Links<Addr>, q: Queue, w: Which, n: Node)
    requires Wired(m, q) && Shape(q) && Uses(q, w) && n in QueueOf(q, w)
    ensures Wired(DeleteLinks(m, n), Detach(q, n))
  {
    var r, q' := DeleteLinks(m, n), Detach(q, n);
    DeleteLinksNodes(m, q.list, n);
    forall v | Uses(q', v) ensures QueueRing(r, q', v) {
      DetachQueuedRing(m, q, w, n, v);
    }
    DetachQueuedStale(m, q, w, n);
  }

  lemma DelItemRing(m: Links<Addr>, head: Addr, s: seq<Node>, n: Node)
    requires Distinct(s) && n in s && Ring(m, head, ItemLinks(s))
    ensures Ring(Del(m, ItemLink(n)), head, ItemLinks(Without(s, n)))
  {
    var links := ItemLinks(s);
    var k :| 0 <= k < |s| && s[k] == n;
    assert links[k] == ItemLink(n);
    WithoutAt(s, k);
    DelRing(m, head, links, k);
    LinksDrop(s, k);
  }

  lemma LinksDrop(s: seq<Node>, k: nat)
    requires k < |s|
    ensures ItemLinks(s[..k] + s[k + 1..]) == ItemLinks(s)[..k] + ItemLinks(s)[k + 1..]
  {
  }

  lemma OwnRingDetached(m: Links<Addr>, q: Queue, w: Which, n: Node)
    requires Distinct(QueueOf(q, w)) && QueueRing(m, q, w) && n in QueueOf(q, w)
    ensures QueueRing(Del(m, ItemLink(n)), Detach(q, n), w)
  {
    DelItemRing(m, Head(w), QueueOf(q, w), n);
    assert QueueOf(Detach(q, n), w) == Without(QueueOf(q, w), n);
  }

  lemma OtherRingDetached(m: Links<Addr>, q: Queue, w: Which, n: Node, v: Which)
    requires Wired(m, q) && Shape(q) && Uses(q, w) && n in QueueOf(q, w) && Uses(q, v) && v != w
    ensures QueueRing(Del(m, ItemLink(n)), Detach(q, n), v)
  {
    var k :| 0 <= k < |QueueOf(q, w)| && QueueOf(q, w)[k] == n;
    OtherRingKept(m, q, w, k, v);
    DetachKeepsOther(q, w, n, v);
  }

  lemma DetachKeepsOther(q: Queue, w: Which, n: Node, v: Which)
    requires Shape(q) && n in QueueOf(q, w) && v != w
    ensures QueueOf(Detach(q, n), v) == QueueOf(q, v)
  {
  }

  lemma DetachQueuedRing(m: Links<Addr>, q: Queue, w: Which, n: Node, v: Which)
    requires Wired(m, q) && Shape(q) && Uses(q, w) && n in QueueOf(q, w) && Uses(q, v)
    ensures QueueRing(DeleteLinks(m, n), Detach(q, n), v)
  {
    DeleteLinksNodes(m, q.list, n);
    if v == w {
      OwnRingDetached(m, q, w, n);
    } else {
      OtherRingDetached(m, q, w, n, v);
    }
    ItemsSameRing(Del(m, ItemLink(n)), DeleteLinks(m, n), v, QueueOf(Detach(q, n), v));
  }

  lemma StaleItems(m: Links<Addr>, r: Links<Addr>, q: Queue)
    requires Stale(m, q) && ItemsSame(m, r)
    ensures Stale(r, q)
  {
    forall j | Loose(q, j) ensures Remembers(r, q, j) {
      assert SameAt(m, r, ItemLink(j));
      Recall(m, r, q, q, j);
    }
  }

  lemma StaleDetach(m: Links<Addr>, q: Queue, n: Node)
    requires Stale(m, q) && Shape(q)
    ensures Stale(m, Detach(q, n))
  {
    forall j | Loose(Detach(q, n), j) ensures Remembers(m, Detach(q, n), j) {
      LooseAfterDetach(q, n, j);
      Recall(m, m, q, Detach(q, n), j);
    }
  }

  lemma StaleDelQueued(m: Links<Addr>, q: Queue, w: Which, n: Node)
    requires Stale(m, q) && QueueRing(m, q, w) && n in QueueOf(q, w)
    ensures Stale(Del(m, ItemLink(n)), q)
  {
    forall j | Loose(q, j) ensures Remembers(Del(m, ItemLink(n)), q, j) {
      SuccessorQueued(m, w, QueueOf(q, w), n, j);
      DelPrevOther(m, ItemLink(n), ItemLink(j));
      Recall(m, Del(m, ItemLink(n)), q, q, j);
    }
  }

  lemma DetachQueuedStale(m: Links<Addr>, q: Queue, w: Which, n: Node)
    requires Wired(m, q) && Shape(q) && Uses(q, w) && n in QueueOf(q, w)
    ensures Stale(DeleteLinks(m, n), Detach(q, n))
  {
    assert QueueRing(m, q, w);
    DeleteLinksNodes(m, q.list, n);
    StaleDelQueued(m, q, w, n);
    StaleItems(Del(m, ItemLink(n)), DeleteLinks(m, n), q);
    StaleDetach(DeleteLinks(m, n), q, n);
  }

  /** Detaching a node that is in no queue deletes its stale queue link a second time. The
      rings survive exactly when the neighbours that link remembers are still adjacent. */
  lemma DetachLooseExactly(m: Links<Addr>, q: Queue, n: Node)
    requires Wired(m, q) && Shape(q) && Loose(q, n)
    ensures Wired(DeleteLinks(m, n), Detach(q, n)) <==> Adjacent(m, ItemLink(n))
  {
    DeleteLinksNodes(m, q.list, n);
    if Adjacent(m, ItemLink(n)) {
      forall v | Uses(Detach(q, n), v) ensures QueueRing(DeleteLinks(m, n), Detach(q, n), v) {
        DetachLooseRing(m, q, n, v);
      }
      DetachLooseStale(m, q, n);
    } else {
      assert Remembers(m, q, n);
      var w :| Uses(q, w) && Prev(m, ItemLink(n)) == Head(w);
      DetachLooseBreaks(m, q, n, w);
    }
  }

  lemma DetachLooseRing(m: Links<Addr>, q: Queue, n: Node, v: Which)
    requires Wired(m, q) && Shape(q) && Uses(q, v) && Loose(q, n) && Adjacent(m, ItemLink(n))
    ensures QueueRing(DeleteLinks(m, n), Detach(q, n), v)
  {
    DeleteLinksNodes(m, q.list, n);
    DelAgainExactly(m, ItemLink(n));
    assert QueueRing(m, q, v);
    assert ItemsSame(m, Del(m, ItemLink(n)));
    ItemsSameRing(m, Del(m, ItemLink(n)), v, QueueOf(q, v));
    ItemsSameRing(Del(m, ItemLink(n)), DeleteLinks(m, n), v, QueueOf(q, v));
    assert QueueOf(Detach(q, n), v) == QueueOf(q, v);
  }

  lemma DetachLooseBreaks(m: Links<Addr>, q: Queue, n: Node, w: Which)
    requires Wired(m, q) && Shape(q) && Loose(q, n) && !Adjacent(m, ItemLink(n))
    requires Uses(q, w) && Prev(m, ItemLink(n)) == Head(w)
    ensures !QueueRing(DeleteLinks(m, n), Detach(q, n), w)
  {
    DeleteLinksNodes(m, q.list, n);
    assert QueueRing(m, q, w);
    LinksIn(QueueOf(q, w), n);
    DelAgainRing(m, ItemLink(n), Head(w), ItemLinks(QueueOf(q, w)));
    ItemsSameRing(Del(m, ItemLink(n)), DeleteLinks(m, n), w, QueueOf(q, w));
    assert QueueOf(Detach(q, n), w) == QueueOf(q, w);
  }

  lemma DetachLooseStale(m: Links<Addr>, q: Queue, n: Node)
    requires Wired(m, q) && Shape(q) && Loose(q, n) && Adjacent(m, ItemLink(n))
    ensures Stale(DeleteLinks(m, n), Detach(q, n))
  {
    DeleteLinksNodes(m, q.list, n);
    DelAgainExactly(m, ItemLink(n));
    StaleItems(m, Del(m, ItemLink(n)), q);
    StaleItems(Del(m, ItemLink(n)), DeleteLinks(m, n), q);
    StaleDetach(DeleteLinks(m, n), q, n);
  }

  /** In terms of the queue the node was popped from: the neighbours are adjacent exactly when
      the successor the node remembers is now first in that queue, or is the head of the queue
      and the queue is empty. */
  lemma AdjacentMeansFirst(m: Links<Addr>, q: Queue, w: Which, n: Node)
    requires Wired(m, q) && Uses(q, w) && Prev(m, ItemLink(n)) == Head(w)
    ensures Adjacent(m, ItemLink(n)) <==>
              Next(m, ItemLink(n)) == (if QueueOf(q, w) == [] then Head(w) else ItemLink(QueueOf(q, w)[0]))
  {
    assert QueueRing(m, q, w);
    var links := ItemLinks(QueueOf(q, w));
    if QueueOf(q, w) != [] {
      assert Prev(m, links[0]) == At(Head(w), links, 0);
    }
  }

  /** A run that loses a frame: the last dirty node `a` is acquired, `b` is enqueued, and then
      `a` is detached on release. The dirty ring now reads as empty although `b` is queued. */
  lemma AcquireEnqueueDetachLoses(m: Links<Addr>, q: Queue, a: Node, b: Node)
    requires Wired(m, q) && Shape(q) && q.dirty == [a] && Loose(q, b)
    ensures var m1 := Del(m, ItemLink(a));
            var m2 := AddTail(m1, ItemLink(b), DirtyHead);
            var q2 := q.(dirty := [b]);
            && Wired(m2, q2)
            && !Adjacent(m2, ItemLink(a))
            && Next(Del(m2, ItemLink(a)), DirtyHead) == DirtyHead
  {
    OnlyItem(m, q, a);
    StaleAround(m, a, b);
    hide Wired;
    PopWired(m, q, Dirty);
    var q1 := q.(dirty := []);
    assert WithQueue(q, Dirty, q.dirty[1..]) == q1;
    PushWired(Del(m, ItemLink(a)), q1, Dirty, b);
    assert WithQueue(q1, Dirty, [] + [b]) == q.(dirty := [b]);
  }

  lemma OnlyItem(m: Links<Addr>, q: Queue, a: Node)
    requires Wired(m, q) && q.dirty == [a]
    ensures Prev(m, ItemLink(a)) == DirtyHead && Next(m, ItemLink(a)) == DirtyHead
  {
    assert QueueRing(m, q, Dirty);
    assert ItemLinks(q.dirty)[0] == ItemLink(a);
  }

  lemma StaleAround(m: Links<Addr>, a: Node, b: Node)
    requires Prev(m, ItemLink(a)) == DirtyHead && Next(m, ItemLink(a)) == DirtyHead && a != b
    ensures var m2 := AddTail(Del(m, ItemLink(a)), ItemLink(b), DirtyHead);
            !Adjacent(m2, ItemLink(a)) && Next(Del(m2, ItemLink(a)), DirtyHead) == DirtyHead
  {
  }

  /** Why a consumer must not release a pending surface within capacity: recycling its node puts
      one link into two rings, and the walk over the pending ring then runs into the free one. */
  lemma ReleasePendingBreaks(m: Links<Addr>, q: Queue, n: Node)
    requires Wired(m, q) && n in q.pending
    ensures !QueueRing(AddTail(m, ItemLink(n), FreeHead), q, Pending)
  {
    var links := ItemLinks(q.pending);
    var k :| 0 <= k < |q.pending| && q.pending[k] == n;
    assert links[k] == ItemLink(n);
    var r := AddTail(m, ItemLink(n), FreeHead);
    assert QueueRing(r, q, Pending) ==> Next(r, links[k]) == At(PendingHead, links, k + 2);
  }

  // ----- clearing -----

  function DeleteAllLinks(m: Links<Addr>, s: seq<Node>): Links<Addr>
    decreases s
  {
    if s == [] then m else DeleteAllLinks(DeleteLinks(m, s[0]), s[1..])
  }

  lemma {:induction false} DeleteAllSeparate(m: Links<Addr>, s: seq<Node>)
    requires Separate(m) && Distinct(s) && Ring(m, NodesHead, NodeLinks(s))
    ensures Separate(DeleteAllLinks(m, s))
    decreases s
  {
    if s != [] {
      DeleteLinksNodes(m, s, s[0]);
      DistinctTail(s);
      DeleteAllSeparate(DeleteLinks(m, s[0]), s[1..]);
    }
  }

  /** However stale the queue links were, reinitialising the heads gives an empty queue. */
  lemma ClearWired(m: Links<Addr>, q: Queue)
    requires Separate(m)
    ensures var r := InitHead(InitHead(InitHead(m, FreeHead), DirtyHead), NodesHead);
            Wired(if q.impl == Sequence then InitHead(r, PendingHead) else r, Clear(q))
  {
    var m1 := InitHead(m, FreeHead);
    var m2 := InitHead(m1, DirtyHead);
    var m3 := InitHead(m2, NodesHead);
    InitSeparate(m, FreeHead);
    InitSeparate(m1, DirtyHead);
    InitSeparate(m2, NodesHead);
    InitSeparate(m3, PendingHead);
  }

  lemma InitSeparate(m: Links<Addr>, a: Addr)
    requires Separate(m)
    ensures Separate(InitHead(m, a))
  {
    SeparateSet(m, a, a);
    SeparateSet(SetPrev(m, a, a), a, a);
  }
}
