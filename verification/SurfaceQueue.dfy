/** The surface queue in place: the lists are rings in memory, the nodes are cells on the heap.
    Every method is proved against the call of the same name in QueueSpec. */
module SurfaceQueues {
  import opened Common
  import opened QueueSpec
  import opened QueueInvariants
  import opened QueueWiring
  import opened QueueCapacity
  import opened QueueOutcomes
  import R = Rings

  /** What a `queue_node` holds besides its two links, which live in the memory of the rings. */
  datatype NodeCell = NodeCell(surface: Surface, kind: NodeType, privFlags: nat)

  /** The cells hold what the abstract state says about their nodes. */
  ghost predicate CellsOf(nodes: map<Node, NodeCell>, q: Queue) {
    && nodes.Keys == q.kind.Keys
    && q.marked <= nodes.Keys
    && forall n :: n in nodes ==>
         && nodes[n].surface == n.surface != NULL_SURFACE
         && nodes[n].kind == q.kind[n]
         && (nodes[n].privFlags != 0 <==> n in q.marked)
  }

  lemma AttachCells(nodes: map<Node, NodeCell>, q: Queue, n: Node)
    requires CellsOf(nodes, q) && n !in nodes && n.surface != NULL_SURFACE
    ensures CellsOf(nodes[n := NodeCell(n.surface, TypeNone, 0)], Attach(q, n))
  {
  }

  lemma DetachCells(nodes: map<Node, NodeCell>, q: Queue, n: Node)
    requires CellsOf(nodes, q)
    ensures CellsOf(nodes - {n}, Detach(q, n))
  {
  }

  predicate Detaches(q: Queue, x: Surface) {
    x != NULL_SURFACE && var r := GetNode(q, x); r.Found? && r.place == InList && q.size < q.attached
  }

  /** What a release needs of the memory for the rings to survive it. */
  ghost predicate ReleaseSafe(m: R.Links<Addr>, q: Queue, x: Surface) {
    var r := GetNode(q, x);
    Detaches(q, x) && Loose(q, r.node) ==> R.Adjacent(m, ItemLink(r.node))
  }

  lemma LogAppend(log: seq<SurfaceCall>, a: seq<SurfaceCall>, b: seq<SurfaceCall>, c: seq<SurfaceCall>)
    ensures (log + a) + b == log + (a + b) && (a + b) + c == a + (b + c)
  {
  }

  /** How far a shrinking loop has come: `left` nodes to go from `q`, with `log` written. */
  ghost predicate Shrinking(q0: Queue, d: nat, log0: seq<SurfaceCall>,
                            q: Queue, left: nat, log: seq<SurfaceCall>) {
    && DetachFree(q0, d) == DetachFree(q, left)
    && q.freeCb == q0.freeCb
    && log0 + DeleteAllLog(q0.freeCb, FirstFree(q0, d)) == log + DeleteAllLog(q.freeCb, FirstFree(q, left))
  }

  lemma ShrinkStep(q0: Queue, d: nat, log0: seq<SurfaceCall>, q: Queue, left: nat, log: seq<SurfaceCall>)
    requires Shrinking(q0, d, log0, q, left, log) && left > 0 && q.free != [] && Shape(q)
    ensures var n := q.free[0];
            Shrinking(q0, d, log0, Detach(q, n), left - 1, log + DeleteLog(q.freeCb, n))
  {
    var n := q.free[0];
    DetachTail(q, n);
    assert FirstFree(q, left)[1..] == FirstFree(Detach(q, n), left - 1);
    LogAppend(log, DeleteLog(q.freeCb, n), DeleteAllLog(q.freeCb, FirstFree(q, left)[1..]), []);
  }

  lemma ShrinkEnd(q0: Queue, d: nat, log0: seq<SurfaceCall>, q: Queue, left: nat, log: seq<SurfaceCall>)
    requires Shrinking(q0, d, log0, q, left, log) && (left == 0 || q.free == [])
    ensures q == DetachFree(q0, d) && log == log0 + DeleteAllLog(q0.freeCb, FirstFree(q0, d))
  {
    assert log + [] == log;
  }

  lemma DetachTail(q: Queue, n: Node)
    requires Shape(q) && q.free != [] && n == q.free[0]
    ensures Detach(q, n).free == q.free[1..] && n in q.list
  {
  }

  function SurfaceOf(n: Option<Node>): Surface {
    if n.Some? then n.value.surface else NULL_SURFACE
  }

  /** The answer of `can_dequeue` and `can_acquire`; a call that would block is not answered. */
  datatype Answer = Yes | No | Blocks

  class SurfaceQueue {
    const impl: Impl
    const mem: R.Memory<Addr>
    var width: int
    var height: int
    var format: int
    var queueSize: int
    var numAttached: int
    var allocCb: bool
    var freeCb: bool

    /** The live nodes by address. */
    var nodes: map<Node, NodeCell>

    /** The calls made on the surface module and on the callbacks. */
    var log: seq<SurfaceCall>

    /** The state of QueueSpec this object stands for. */
    ghost var st: Queue

    ghost predicate Parameters()
      reads this
    {
      && st.impl == impl
      && st.width == width && st.height == height && st.format == format
      && st.size == queueSize && st.attached == numAttached
      && st.allocCb == allocCb && st.freeCb == freeCb
      && (impl == Default ==> st.pending == [])
    }

    ghost predicate Cells()
      reads this
    {
      CellsOf(nodes, st)
    }

    ghost predicate Valid()
      reads this, mem
    {
      Parameters() && Shape(st) && Cells() && Wired(mem.links, st)
    }

    constructor (impl: Impl, size: int, width: int, height: int, format: int)
      ensures Valid() && fresh(mem) && nodes == map[] && log == []
      ensures st == NewQueue(impl, size, width, height, format)
    {
      this.impl := impl;
      this.width, this.height, this.format, queueSize := width, height, format, size;
      numAttached, allocCb, freeCb, nodes, log := 0, false, false, map[], [];
      mem := new R.Memory();
      st := NewQueue(impl, size, width, height, format);
      new;
      mem.ListInitHead(FreeHead);
      mem.ListInitHead(DirtyHead);
      mem.ListInitHead(NodesHead);
      if impl == Sequence {
        mem.ListInitHead(PendingHead);
      }
      ClearWired(map[], st);
      assert Clear(st) == st;
    }

    // ----- queue helpers -----

    method PushBack(w: Which, n: Node)
      requires Valid() && Uses(st, w) && Loose(st, n)
      modifies this`st, mem
      ensures Valid() && st == WithQueue(old(st), w, QueueOf(old(st), w) + [n])
    {
      mem.ListAddTail(ItemLink(n), Head(w));
      PushWired(old(mem.links), st, w, n);
      PushShape(st, w, n);
      st := WithQueue(st, w, QueueOf(st, w) + [n]);
    }

    /** `_queue_node_pop`, always applied to the first node of a queue. */
    method Pop(w: Which, n: Node)
      requires Valid() && Uses(st, w) && QueueOf(st, w) != [] && n == QueueOf(st, w)[0]
      modifies this`st, mem
      ensures Valid() && st == WithQueue(old(st), w, QueueOf(old(st), w)[1..])
    {
      PopWired(mem.links, st, w);
      PopShape(st, w);
      mem.ListDel(ItemLink(n));
      st := WithQueue(st, w, QueueOf(st, w)[1..]);
    }

    method PopFront(w: Which) returns (n: Node)
      requires Valid() && Uses(st, w) && QueueOf(st, w) != []
      modifies this`st, mem
      ensures Valid() && n == QueueOf(old(st), w)[0]
      ensures st == WithQueue(old(st), w, QueueOf(old(st), w)[1..])
    {
      WalkQueue(mem.links, st, w, 0);
      n := R.Next(mem.links, Head(w)).node;
      Pop(w, n);
    }

    method SetKind(n: Node, t: NodeType)
      requires Valid() && n in st.list
      modifies this`st, this`nodes
      ensures Valid() && st == old(st).(kind := old(st).kind[n := t])
    {
      SetKindShape(st, n, t);
      SameWiring(mem.links, st, st.(kind := st.kind[n := t]));
      nodes := nodes[n := nodes[n].(kind := t)];
      st := st.(kind := st.kind[n := t]);
    }

    method SetFlag(n: Node, flag: nat)
      requires Valid() && n in st.list
      modifies this`st, this`nodes
      ensures Valid()
      ensures st == old(st).(marked := if flag != 0 then old(st).marked + {n} else old(st).marked - {n})
    {
      ghost var marked := if flag != 0 then st.marked + {n} else st.marked - {n};
      SameWiring(mem.links, st, st.(marked := marked));
      nodes := nodes[n := nodes[n].(privFlags := flag)];
      st := st.(marked := marked);
    }

    method IsEmpty(w: Which) returns (r: bool)
      requires Valid() && Uses(st, w)
      ensures r == (QueueOf(st, w) == [])
    {
      WalkQueue(mem.links, st, w, 0);
      r := R.Next(mem.links, Head(w)) == Head(w);
    }

    // ----- searching the rings -----

    ghost predicate Readable(s: seq<Node>)
      reads this
    {
      forall n :: n in s ==> n in nodes && nodes[n].surface == n.surface
    }

    method FindItem(head: Addr, x: Surface, ghost s: seq<Node>) returns (r: Option<Node>)
      requires !head.ItemLink? && R.Ring(mem.links, head, ItemLinks(s)) && Readable(s)
      ensures r == FindIn(s, x)
    {
      ghost var i := 0;
      WalkItems(mem.links, head, s, 0);
      var a := R.Next(mem.links, head);
      while a != head
        invariant 0 <= i <= |s| && a == ItemAt(head, s, i)
        invariant FindIn(s, x) == FindIn(s[i..], x)
        decreases |s| - i
      {
        WalkItems(mem.links, head, s, i);
        assert s[i] in s;
        if nodes[a.node].surface == x {
          return Some(a.node);
        }
        a := R.Next(mem.links, a);
        i := i + 1;
      }
      return None;
    }

    method FindNode(x: Surface, ghost s: seq<Node>) returns (r: Option<Node>)
      requires R.Ring(mem.links, NodesHead, NodeLinks(s)) && Readable(s)
      ensures r == FindIn(s, x)
    {
      ghost var i := 0;
      WalkNodes(mem.links, s, 0);
      var a := R.Next(mem.links, NodesHead);
      while a != NodesHead
        invariant 0 <= i <= |s| && a == NodeAt(s, i)
        invariant FindIn(s, x) == FindIn(s[i..], x)
        decreases |s| - i
      {
        WalkNodes(mem.links, s, i);
        assert s[i] in s;
        if nodes[a.node].surface == x {
          return Some(a.node);
        }
        a := R.Next(mem.links, a);
        i := i + 1;
      }
      return None;
    }

    /** `_queue_get_node` over all three places. */
    method GetNode(x: Surface) returns (r: Lookup)
      requires Valid()
      ensures r == QueueSpec.GetNode(st, x)
    {
      assert QueueRing(mem.links, st, Free) && QueueRing(mem.links, st, Dirty);
      var n := FindItem(FreeHead, x, st.free);
      if n.Some? {
        return Found(n.value, InFree);
      }
      n := FindItem(DirtyHead, x, st.dirty);
      if n.Some? {
        return Found(n.value, InDirty);
      }
      n := FindNode(x, st.list);
      if n.Some? {
        return Found(n.value, InList);
      }
      return NotFound;
    }

    /** `_tbm_surface_queue_get_node_count`. */
    method CountNodes(t: NodeType) returns (count: nat)
      requires Valid()
      ensures count == CountType(st.list, st.kind, t)
    {
      count := CountRing(t, st.list);
    }

    method CountRing(t: NodeType, ghost s: seq<Node>) returns (count: nat)
      requires R.Ring(mem.links, NodesHead, NodeLinks(s))
      requires forall n :: n in s ==> n in nodes && n in st.kind && nodes[n].kind == st.kind[n]
      ensures count == CountType(s, st.kind, t)
    {
      ghost var i := 0;
      WalkNodes(mem.links, s, 0);
      var a := R.Next(mem.links, NodesHead);
      count := 0;
      while a != NodesHead
        invariant 0 <= i <= |s| && a == NodeAt(s, i)
        invariant CountType(s, st.kind, t) == count + CountType(s[i..], st.kind, t)
        decreases |s| - i
      {
        WalkNodes(mem.links, s, i);
        assert s[i] in s;
        if nodes[a.node].kind == t {
          count := count + 1;
        }
        a := R.Next(mem.links, a);
        i := i + 1;
      }
    }

    method GetSurfaces() returns (r: seq<Surface>)
      requires Valid()
      ensures r == Surfaces(st.list)
    {
      ghost var s := st.list;
      ghost var i := 0;
      assert R.Ring(mem.links, NodesHead, NodeLinks(s));
      WalkNodes(mem.links, s, 0);
      var a := R.Next(mem.links, NodesHead);
      r := [];
      while a != NodesHead
        invariant 0 <= i <= |s| && a == NodeAt(s, i)
        invariant |r| == i && forall j :: 0 <= j < i ==> r[j] == s[j].surface
        decreases |s| - i
      {
        WalkNodes(mem.links, s, i);
        assert s[i] in s;
        r := r + [nodes[a.node].surface];
        a := R.Next(mem.links, a);
        i := i + 1;
      }
      SurfacesAt(s);
    }

    // ----- attaching and detaching -----

    /** The two insertions of an attach: at the end of `list` and of the free queue. */
    method LinkNode(n: Node)
      requires Wired(mem.links, st) && Shape(st) && n !in st.list
      modifies mem
      ensures Wired(mem.links, QueueSpec.Attach(st, n)) && Shape(QueueSpec.Attach(st, n))
    {
      AttachWired(mem.links, st, n);
      AttachShape(st, n);
      mem.ListAddTail(NodeLink(n), NodesHead);
      mem.ListAddTail(ItemLink(n), FreeHead);
    }

    method Attach(n: Node)
      requires Valid() && n !in st.list && n.surface != NULL_SURFACE
      modifies this`st, this`nodes, this`numAttached, this`log, mem
      ensures Valid() && st == QueueSpec.Attach(old(st), n)
      ensures log == old(log) + [RefSurface(n.surface)]
    {
      AttachCells(nodes, st, n);
      log := log + [RefSurface(n.surface)];
      LinkNode(n);
      numAttached := numAttached + 1;
      nodes := nodes[n := NodeCell(n.surface, TypeNone, 0)];
      st := QueueSpec.Attach(st, n);
    }

    /** `need_attach`; `alloc` is what creating a surface or the allocation callback returned,
        in a node of the address its `queue_node` will get. */
    method NeedAttach(alloc: Option<Node>)
      requires Valid() && Fresh(st, QueueSpec.CanDequeue(alloc))
      modifies this`st, this`nodes, this`numAttached, this`log, mem
      ensures Valid() && st == QueueSpec.NeedAttach(old(st), alloc).0
      ensures log == old(log) + QueueSpec.NeedAttach(old(st), alloc).1
    {
      if queueSize == numAttached || alloc.None? {
        return;
      }
      var n := alloc.value;
      ghost var log0 := log;
      if allocCb {
        log := log + [AllocCallback(n.surface)];
        log := log + [RefSurface(n.surface)];
      } else {
        log := log + [CreateSurface(n.surface)];
      }
      Attach(n);
      log := log + [UnrefSurface(n.surface)];
      assert log == log0 + AttachLog(old(st), n.surface);
    }

    /** `_queue_delete_node`: callbacks, then both links, then the cell itself. */
    method DeleteNode(n: Node)
      requires n in nodes && nodes[n].surface == n.surface != NULL_SURFACE
      modifies this`nodes, this`log, mem
      ensures mem.links == DeleteLinks(old(mem.links), n)
      ensures nodes == old(nodes) - {n}
      ensures log == old(log) + DeleteLog(freeCb, n)
    {
      if nodes[n].surface != NULL_SURFACE {
        if freeCb {
          log := log + [FreeCallback(nodes[n].surface)];
        }
        log := log + [DestroySurface(nodes[n].surface)];
      }
      mem.ListDel(ItemLink(n));
      mem.ListDel(NodeLink(n));
      nodes := nodes - {n};
    }

    /** `_tbm_surface_queue_detach`. */
    method Detach(x: Surface, ghost n: Node)
      requires Valid() && n in st.list
      requires var r := QueueSpec.GetNode(st, x); r.Found? && r.node == n
      modifies this`st, this`nodes, this`numAttached, this`log, mem
      ensures st == QueueSpec.Detach(old(st), n) && Parameters() && Shape(st) && Cells()
      ensures log == old(log) + DeleteLog(freeCb, n)
      ensures mem.links == DeleteLinks(old(mem.links), n)
    {
      var r := GetNode(x);
      DetachShape(st, n);
      DetachCells(nodes, st, n);
      DeleteNode(r.node);
      numAttached := numAttached - 1;
      st := QueueSpec.Detach(st, n);
    }

    // ----- the API -----

    /** The free queue is refilled when it is empty. */
    method Refill(alloc: Option<Node>) returns (empty: bool)
      requires Valid() && Fresh(st, QueueSpec.CanDequeue(alloc))
      modifies this`st, this`nodes, this`numAttached, this`log, mem
      ensures Valid() && st == QueueSpec.Refill(old(st), alloc).0
      ensures log == old(log) + QueueSpec.Refill(old(st), alloc).1
      ensures empty == (st.free == [])
    {
      empty := IsEmpty(Free);
      if empty {
        NeedAttach(alloc);
        empty := IsEmpty(Free);
      }
    }

    /** `impl->dequeue` on a queue with a free node. */
    method TakeFree() returns (n: Node)
      requires Valid() && st.free != []
      modifies this`st, this`nodes, mem
      ensures Valid() && n == old(st).free[0] && n in st.list && st == ImplDequeue(old(st))
    {
      assert st.free[0] in st.list;
      n := PopFront(Free);
      if impl == Sequence {
        PushPending(n);
      }
    }

    method Take() returns (n: Node)
      requires Valid() && st.free != []
      modifies this`st, this`nodes, mem
      ensures var q := ImplDequeue(old(st)); st == q.(kind := q.kind[n := TypeDequeue])
      ensures Valid() && n == old(st).free[0] && n in nodes && nodes[n].surface == n.surface
    {
      n := TakeFree();
      SetKind(n, TypeDequeue);
    }

    method PushPending(n: Node)
      requires Valid() && impl == Sequence && Loose(st, n)
      modifies this`st, this`nodes, mem
      ensures Valid()
      ensures st == old(st).(pending := old(st).pending + [n], marked := old(st).marked + {n})
    {
      PushBack(Pending, n);
      SetFlag(n, 1);
    }

    method Dequeue(alloc: Option<Node>) returns (err: Error, surface: Surface)
      requires Valid() && Fresh(st, QueueSpec.CanDequeue(alloc))
      modifies this`st, this`nodes, this`numAttached, this`log, mem
      ensures var o := DoDequeue(old(st), alloc);
              && Valid() && st == o.q && log == old(log) + o.log
              && err == o.err && surface == SurfaceOf(o.node)
    {
      var empty := Refill(alloc);
      if empty {
        return InvalidQueue, NULL_SURFACE;
      }
      var n := Take();
      return Success, nodes[n].surface;
    }

    /** Without waiting for a release; `Blocks` when the call would wait. */
    method CanDequeue(wait: bool, alloc: Option<Node>) returns (answer: Answer)
      requires Valid() && Fresh(st, QueueSpec.CanDequeue(alloc))
      modifies this`st, this`nodes, this`numAttached, this`log, mem
      ensures var o := Step(old(st), QueueSpec.CanDequeue(alloc));
              Valid() && st == o.q && log == old(log) + o.log
      ensures answer == Yes <==> st.free != []
      ensures answer == Yes <==>
                old(st).free != [] || (alloc.Some? && old(st).attached != old(st).size)
      ensures answer == Blocks <==>
                st.free == [] && wait && CountType(st.list, st.kind, TypeAcquire) > 0
    {
      var empty := Refill(alloc);
      if !empty {
        return Yes;
      }
      var acquired := CountNodes(TypeAcquire);
      return if wait && acquired > 0 then Blocks else No;
    }

    method CanAcquire(wait: bool) returns (answer: Answer)
      requires Valid()
      ensures answer == Yes <==> st.dirty != []
      ensures answer == Blocks <==> st.dirty == [] && wait && CountType(st.list, st.kind, TypeDequeue) > 0
    {
      var empty := IsEmpty(Dirty);
      if !empty {
        return Yes;
      }
      var dequeued := CountNodes(TypeDequeue);
      return if wait && dequeued > 0 then Blocks else No;
    }

    method Acquire() returns (err: Error, surface: Surface)
      requires Valid()
      modifies this`st, this`nodes, mem
      ensures var o := DoAcquire(old(st));
              && Valid() && st == o.q && o.log == []
              && err == o.err && surface == SurfaceOf(o.node)
    {
      var empty := IsEmpty(Dirty);
      if empty {
        return InvalidQueue, NULL_SURFACE;
      }
      var n := PopFront(Dirty);
      SetKind(n, TypeAcquire);
      return Success, nodes[n].surface;
    }

    /** One round of the loop below. */
    method DeliverFirst(n: Node)
      requires Valid() && impl == Sequence && st.pending != [] && n == st.pending[0]
      modifies this`st, mem
      ensures Valid()
      ensures st == old(st).(pending := old(st).pending[1..], dirty := old(st).dirty + [n])
    {
      Pop(Pending, n);
      PushBack(Dirty, n);
    }

    /** The loop of the sequence queue's enqueue: it walks `pending` remembering the next node,
        moves every unmarked node to the dirty queue and stops at the first marked one. */
    method DeliverPending()
      requires Valid() && impl == Sequence
      modifies this`st, mem
      ensures Valid() && st == Deliver(old(st))
    {
      hide Wired;
      WalkQueue(mem.links, st, Pending, 0);
      var a := R.Next(mem.links, PendingHead);
      while a != PendingHead
        invariant Valid() && Deliver(st) == Deliver(old(st))
        invariant a == ItemAt(PendingHead, st.pending, 0)
        decreases |st.pending|
      {
        WalkQueue(mem.links, st, Pending, 0);
        var tmp := R.Next(mem.links, a);
        if nodes[a.node].privFlags != 0 {
          break;
        }
        DeliverFirst(a.node);
        a := tmp;
      }
    }

    /** `impl->enqueue`. */
    method HandIn(n: Node)
      requires Valid() && n in st.list && n !in st.free && n !in st.dirty
      modifies this`st, this`nodes, mem
      ensures Valid() && st == ImplEnqueue(old(st), n)
    {
      if impl == Sequence {
        SetFlag(n, 0);
        DeliverPending();
      } else {
        PushBack(Dirty, n);
      }
    }

    method Enqueue(x: Surface) returns (err: Error)
      requires Valid()
      modifies this`st, this`nodes, mem
      ensures var o := DoEnqueue(old(st), x);
              Valid() && st == o.q && o.log == [] && err == o.err
    {
      if x == NULL_SURFACE {
        return InvalidSurface;
      }
      var r := GetNode(x);
      if r.NotFound? || r.place != InList {
        return AlreadyExist;
      }
      DeliverEffect(st.(marked := st.marked - {r.node}));
      HandIn(r.node);
      var empty := IsEmpty(Dirty);
      if empty {
        return UnknownSurface;
      }
      SetKind(r.node, TypeEnqueue);
      return Success;
    }

    /** A release above the queue size detaches the node instead of recycling it. When the node
        is in no queue, its stale queue link is deleted once more: the rings survive if and only
        if the neighbours that link remembers are still adjacent. */
    method Release(x: Surface) returns (err: Error)
      requires Valid()
      requires var r := QueueSpec.GetNode(st, x);
               r.Found? && r.place == InList && r.node in st.pending ==> st.size < st.attached
      modifies this`st, this`nodes, this`numAttached, this`log, mem
      ensures var o := DoRelease(old(st), x);
              st == o.q && err == o.err && log == old(log) + o.log
      ensures Valid() <==> ReleaseSafe(old(mem.links), old(st), x)
    {
      if x == NULL_SURFACE {
        return InvalidSurface;
      }
      var r := GetNode(x);
      if r.NotFound? || r.place != InList {
        return InvalidSurface;
      }
      ReleaseHeld(x, r.node);
      return Success;
    }

    method ReleaseHeld(x: Surface, n: Node)
      requires Valid() && x != NULL_SURFACE && QueueSpec.GetNode(st, x) == Found(n, InList)
      requires n in st.pending ==> st.size < st.attached
      modifies this`st, this`nodes, this`numAttached, this`log, mem
      ensures st == DoRelease(old(st), x).q && log == old(log) + DoRelease(old(st), x).log
      ensures Valid() <==> ReleaseSafe(old(mem.links), old(st), x)
    {
      hide Wired, Shape;
      if queueSize < numAttached {
        DetachHeld(x, n);
      } else {
        Recycle(n);
        assert log + [] == log;
      }
    }

    method Recycle(n: Node)
      requires Valid() && Loose(st, n)
      modifies this`st, this`nodes, mem
      ensures Valid()
      ensures st == old(st).(free := old(st).free + [n], kind := old(st).kind[n := TypeRelease])
    {
      PushBack(Free, n);
      SetKind(n, TypeRelease);
    }

    method DetachHeld(x: Surface, ghost n: Node)
      requires Valid() && QueueSpec.GetNode(st, x) == Found(n, InList)
      modifies this`st, this`nodes, this`numAttached, this`log, mem
      ensures st == QueueSpec.Detach(old(st), n) && log == old(log) + DeleteLog(freeCb, n)
      ensures Valid() <==> (Loose(old(st), n) ==> old(R.Adjacent(mem.links, ItemLink(n))))
    {
      if Loose(st, n) {
        DetachLooseExactly(mem.links, st, n);
      } else {
        DetachQueuedWired(mem.links, st, Pending, n);
      }
      Detach(x, n);
    }

    // ----- size, flush and reset -----

    method DetachFirstFree(x: Surface, ghost n: Node)
      requires Valid() && st.free != [] && n == st.free[0] && x == n.surface
      modifies this`st, this`nodes, this`numAttached, this`log, mem
      ensures Valid() && st == QueueSpec.Detach(old(st), n) && log == old(log) + DeleteLog(freeCb, n)
      ensures st.free == old(st).free[1..]
    {
      DetachTail(st, n);
      DetachQueuedWired(mem.links, st, Free, n);
      Detach(x, n);
    }

    method ShrinkRound(n: Node, ghost q0: Queue, ghost d: nat, ghost left: nat, ghost log0: seq<SurfaceCall>)
      requires Valid() && st.free != [] && n == st.free[0] && left > 0
      requires Shrinking(q0, d, log0, st, left, log)
      modifies this`st, this`nodes, this`numAttached, this`log, mem
      ensures Valid() && st.free == old(st).free[1..] && Shrinking(q0, d, log0, st, left - 1, log)
    {
      assert n in st.list;
      ShrinkStep(q0, d, log0, st, left, log);
      DetachFirstFree(nodes[n].surface, n);
    }

    /** The loop of a shrinking `set_size`: it walks the free queue remembering the next node. */
    method DetachFreeNodes(d: nat)
      requires Valid()
      modifies this`st, this`nodes, this`numAttached, this`log, mem
      ensures Valid() && st == DetachFree(old(st), d)
      ensures log == old(log) + DeleteAllLog(freeCb, FirstFree(old(st), d))
    {
      hide DetachFree, Wired, Shape;
      var needDel := d;
      ghost var q0, log0 := st, log;
      WalkQueue(mem.links, st, Free, 0);
      var a := R.Next(mem.links, FreeHead);
      while a != FreeHead && needDel > 0
        invariant Valid() && 0 <= needDel
        invariant a == ItemAt(FreeHead, st.free, 0)
        invariant Shrinking(q0, d, log0, st, needDel, log)
        decreases needDel
      {
        WalkQueue(mem.links, st, Free, 0);
        var tmp := R.Next(mem.links, a);
        ShrinkRound(a.node, q0, d, needDel, log0);
        needDel := needDel - 1;
        a := tmp;
      }
      ShrinkEnd(q0, d, log0, st, needDel, log);
    }

    ghost predicate Deletable(s: seq<Node>)
      reads this, mem
    {
      && Separate(mem.links) && R.Ring(mem.links, NodesHead, NodeLinks(s))
      && Distinct(s) && nodes.Keys == Elems(s)
      && forall n :: n in nodes ==> nodes[n].surface == n.surface != NULL_SURFACE
    }

    method DeleteFirst(n: Node, ghost s: seq<Node>)
      requires s != [] && n == s[0] && Deletable(s)
      modifies this`nodes, this`log, mem
      ensures Deletable(s[1..]) && log == old(log) + DeleteLog(freeCb, n)
    {
      DeleteLinksNodes(mem.links, s, n);
      DistinctTail(s);
      assert Elems(s) - {n} == Elems(s[1..]);
      DeleteNode(n);
    }

    /** The loop over `list` shared by flush, reset, resize and destroy. The queue links of held
        nodes are stale by then, so the queues are abandoned and only `list` is kept a ring. */
    method DeleteAllNodes(ghost all: seq<Node>)
      requires Deletable(all)
      modifies this`nodes, this`log, mem
      ensures nodes == map[] && log == old(log) + DeleteAllLog(freeCb, all) && Separate(mem.links)
    {
      ghost var s: seq<Node>, done: seq<SurfaceCall> := all, [];
      WalkNodes(mem.links, s, 0);
      var a := R.Next(mem.links, NodesHead);
      while a != NodesHead
        invariant a == NodeAt(s, 0) && Deletable(s)
        invariant log == old(log) + done
        invariant DeleteAllLog(freeCb, all) == done + DeleteAllLog(freeCb, s)
        decreases |s|
      {
        WalkNodes(mem.links, s, 0);
        var tmp := R.Next(mem.links, a);
        assert tmp == NodeAt(s, 1) == NodeAt(s[1..], 0);
        DeleteFirst(a.node, s);
        LogAppend(old(log), done, DeleteLog(freeCb, s[0]), DeleteAllLog(freeCb, s[1..]));
        done := done + DeleteLog(freeCb, s[0]);
        s := s[1..];
        a := tmp;
      }
      assert nodes.Keys == {};
    }

    /** The list heads are reinitialised, `impl->reset` included. */
    method InitHeads()
      requires Separate(mem.links) && st.impl == impl
      modifies mem
      ensures Wired(mem.links, Clear(st))
    {
      ClearWired(mem.links, st);
      mem.ListInitHead(FreeHead);
      mem.ListInitHead(DirtyHead);
      mem.ListInitHead(NodesHead);
      if impl == Sequence {
        mem.ListInitHead(PendingHead);
      }
    }

    /** Deletes every node and reinitialises the lists. */
    method ClearAll()
      requires Valid()
      modifies this`st, this`nodes, this`numAttached, this`log, mem
      ensures Valid() && st == Clear(old(st)) && log == old(log) + DeleteAllLog(freeCb, old(st).list)
    {
      DeleteAllNodes(st.list);
      InitHeads();
      numAttached := 0;
      st := Clear(st);
    }

    method Resize(size: int)
      requires Valid()
      modifies this`st, this`queueSize
      ensures Valid() && st == old(st).(size := size)
    {
      SameWiring(mem.links, st, st.(size := size));
      queueSize := size;
      st := st.(size := size);
    }

    method SetSize(size: int, flush: bool) returns (err: Error)
      requires Valid()
      modifies this`st, this`nodes, this`numAttached, this`queueSize, this`log, mem
      ensures var o := DoSetSize(old(st), size, flush);
              Valid() && st == o.q && err == o.err && log == old(log) + o.log
      ensures if size > 0 then err == Success && queueSize == size
              else err == InvalidParameter && st == old(st) && log == old(log)
      ensures size >= old(queueSize) && !flush ==> st == old(st).(size := queueSize) && log == old(log)
    {
      SetSizeExactly(st, size, flush);
      hide DetachFree, Wired, Shape;
      assert log + [] == log;
      err := if size > 0 then Success else InvalidParameter;
      if size > 0 && (queueSize != size || flush) {
        if flush {
          ClearAll();
        } else {
          DetachFreeNodes(if queueSize > size then queueSize - size else 0);
        }
        Resize(size);
      }
    }

    method Reset(width: int, height: int, format: int) returns (err: Error)
      requires Valid()
      modifies this`st, this`nodes, this`numAttached, this`width, this`height, this`format, this`log, mem
      ensures var o := DoReset(old(st), width, height, format);
              Valid() && st == o.q && err == o.err && log == old(log) + o.log
    {
      if width == this.width && height == this.height && format == this.format {
        return Success;
      }
      ClearAll();
      SameWiring(mem.links, st, st.(width := width, height := height, format := format));
      this.width, this.height, this.format := width, height, format;
      st := st.(width := width, height := height, format := format);
      return Success;
    }

    method Flush() returns (err: Error)
      requires Valid()
      modifies this`st, this`nodes, this`numAttached, this`log, mem
      ensures var o := DoFlush(old(st));
              Valid() && st == o.q && err == o.err && log == old(log) + o.log
    {
      if numAttached == 0 {
        return Success;
      }
      ClearAll();
      return Success;
    }

    method SetAllocCb(allocCb: bool, freeCb: bool)
      requires Valid()
      modifies this`st, this`allocCb, this`freeCb
      ensures Valid() && st == old(st).(allocCb := allocCb, freeCb := freeCb)
    {
      SameWiring(mem.links, st, st.(allocCb := allocCb, freeCb := freeCb));
      this.allocCb, this.freeCb := allocCb, freeCb;
      st := st.(allocCb := allocCb, freeCb := freeCb);
    }

    /** Destroying the queue gives every attached surface back, in attach order. */
    method Destroy()
      requires Valid()
      modifies this`nodes, this`log, mem
      ensures nodes == map[] && log == old(log) + DeleteAllLog(freeCb, st.list)
    {
      DeleteAllNodes(st.list);
    }
  }
}
