/** What every call keeps, for every client: the partition of the attached nodes into free,
    dirty and held ones, the counters, and the bound on the number of attached surfaces. */
module QueueInvariants {
  import opened Common
  import opened QueueSpec

  /** The shape of the lists: `list` has no duplicates, the three queues are duplicate-free,
      pairwise disjoint and drawn from `list`, and every attached node has a type. */
  ghost predicate Shape(q: Queue) {
    && Distinct(q.list)
    && Distinct(q.free) && Distinct(q.dirty) && Distinct(q.pending)
    && (forall n :: n in q.free ==> n in q.list && n !in q.dirty && n !in q.pending)
    && (forall n :: n in q.dirty ==> n in q.list && n !in q.pending)
    && (forall n :: n in q.pending ==> n in q.list)
    && q.kind.Keys == Elems(q.list)
  }

  /** The nodes in the hands of a producer or a consumer. */
  ghost predicate Held(q: Queue, n: Node) {
    n in q.list && n !in q.free && n !in q.dirty
  }

  ghost predicate Counted(q: Queue) {
    && q.attached == |q.list|
    && q.size > 0
    && forall n :: n in q.list ==> n.surface != NULL_SURFACE
  }

  /** In the default queue the type of a node says where the node is. */
  ghost predicate Typed(q: Queue) {
    forall n :: n in q.kind ==>
      && (q.kind[n] in {TypeNone, TypeRelease} <==> n in q.free)
      && (q.kind[n] == TypeEnqueue <==> n in q.dirty)
      && (q.kind[n] in {TypeDequeue, TypeAcquire} <==> Held(q, n))
  }

  /** Only pending nodes are marked, and the first pending node is marked. */
  ghost predicate Ordered(q: Queue) {
    && (forall n :: n in q.marked ==> n in q.pending)
    && (q.pending != [] ==> q.pending[0] in q.marked)
  }

  ghost predicate Valid(q: Queue) {
    && Shape(q)
    && Counted(q)
    && Ordered(q)
    && (q.impl == Default ==> q.pending == [] && Typed(q))
  }

  /** In the sequence queue the consumer must not release a surface that still waits in
      `pending`: the code would then link one node into two rings. */
  predicate ReleasesAcquired(q: Queue, call: Call) {
    match call
    case Release(x) =>
      (match GetNode(q, x)
       case Found(n, InList) => n !in q.pending
       case _ => true)
    case _ => true
  }

  ghost predicate Admissible(q: Queue, call: Call) {
    Fresh(q, call) && ReleasesAcquired(q, call)
  }

  ghost predicate AdmissibleRun(q: Queue, calls: seq<Call>)
    decreases calls
  {
    calls == [] || (Admissible(q, calls[0]) && AdmissibleRun(Step(q, calls[0]).q, calls[1..]))
  }

  // ----- preservation -----

  lemma CreateValid(impl: Impl, size: int, width: int, height: int, format: int)
    ensures var r := Create(impl, size, width, height, format);
            r.Some? ==> Valid(r.value) && r.value.attached == 0
  {
  }

  lemma RefillValid(q: Queue, alloc: Option<Node>)
    requires Valid(q)
    requires alloc.Some? ==> alloc.value !in q.list && alloc.value.surface != NULL_SURFACE
    ensures Valid(Refill(q, alloc).0)
  {
  }

  lemma DetachShape(q: Queue, n: Node)
    requires Shape(q) && n in q.list
    ensures Shape(Detach(q, n))
  {
    var q' := Detach(q, n);
    WithoutDistinct(q.list, n);
    WithoutDistinct(q.free, n);
    WithoutDistinct(q.dirty, n);
    WithoutDistinct(q.pending, n);
    assert Elems(q'.list) == Elems(q.list) - {n};
  }

  lemma DetachValid(q: Queue, n: Node)
    requires Valid(q) && n in q.list && n !in q.pending
    ensures Valid(Detach(q, n))
  {
    DetachShape(q, n);
    WithoutDistinct(q.list, n);
    WithoutDistinct(q.free, n);
    WithoutDistinct(q.dirty, n);
  }

  /** Detaching the first free node takes it off the free queue and off `list`, nothing else. */
  lemma DetachFirstEffect(q: Queue)
    requires Shape(q) && q.free != []
    ensures var q' := Detach(q, q.free[0]);
            && Shape(q') && q'.free == q.free[1..]
            && q'.dirty == q.dirty && q'.pending == q.pending && q'.attached == q.attached - 1
            && q'.list == Without(q.list, q.free[0])
  {
    DetachShape(q, q.free[0]);
    WithoutAt(q.free, 0);
  }

  /** Detaching from the free queue stops at its end and leaves the other queues alone. */
  ghost predicate FreeDetached(q: Queue, d: nat, r: Queue) {
    && r.free == q.free[Min(d, |q.free|)..]
    && r.attached == q.attached - Min(d, |q.free|)
    && r.dirty == q.dirty && r.pending == q.pending
    && r.size == q.size && r.impl == q.impl && r.freeCb == q.freeCb
  }

  lemma {:induction false} DetachFreeEffect(q: Queue, d: nat)
    requires Shape(q)
    ensures FreeDetached(q, d, DetachFree(q, d))
    decreases d
  {
    if d > 0 && q.free != [] {
      DetachFirstEffect(q);
      DetachFreeEffect(Detach(q, q.free[0]), d - 1);
    }
  }

  lemma {:induction false} DetachFreeValid(q: Queue, d: nat)
    requires Valid(q)
    ensures Valid(DetachFree(q, d))
    decreases d
  {
    if d > 0 && q.free != [] {
      DetachValid(q, q.free[0]);
      DetachFreeValid(Detach(q, q.free[0]), d - 1);
    }
  }

  lemma DeliverOneShape(q: Queue)
    requires Shape(q) && q.pending != []
    ensures Shape(q.(pending := q.pending[1..], dirty := q.dirty + [q.pending[0]]))
  {
    DistinctTail(q.pending);
    DistinctAppend(q.dirty, q.pending[0]);
  }

  /** Delivery moves a prefix of `pending` to `dirty`, up to the first marked node. */
  lemma {:induction false} DeliverEffect(q: Queue)
    ensures var q' := Deliver(q);
            && q' == q.(pending := q'.pending, dirty := q'.dirty)
            && q'.dirty + q'.pending == q.dirty + q.pending
            && |q.dirty| <= |q'.dirty|
            && (q'.pending != [] ==> q'.pending[0] in q.marked)
            && (forall n :: n in q.marked && n in q.pending ==> n in q'.pending)
    decreases |q.pending|
  {
    if q.pending != [] && q.pending[0] !in q.marked {
      var q1 := q.(pending := q.pending[1..], dirty := q.dirty + [q.pending[0]]);
      assert q.pending == [q.pending[0]] + q1.pending;
      assert q.dirty + q.pending == q1.dirty + q1.pending;
      DeliverEffect(q1);
    }
  }

  lemma {:induction false} DeliverShape(q: Queue)
    requires Shape(q)
    ensures Shape(Deliver(q))
    decreases |q.pending|
  {
    if q.pending != [] && q.pending[0] !in q.marked {
      DeliverOneShape(q);
      DeliverShape(q.(pending := q.pending[1..], dirty := q.dirty + [q.pending[0]]));
    }
  }

  lemma ImplEnqueueValid(q: Queue, n: Node)
    requires Valid(q) && Held(q, n)
    ensures var q' := ImplEnqueue(q, n);
            Shape(q') && Counted(q') && Ordered(q') && q'.list == q.list && q'.kind == q.kind
  {
    match q.impl
    case Default =>
      DistinctAppend(q.dirty, n);
    case Sequence =>
      var q1 := q.(marked := q.marked - {n});
      DeliverShape(q1);
      DeliverEffect(q1);
  }

  lemma SetKindShape(q: Queue, n: Node, t: NodeType)
    requires Shape(q) && n in q.list
    ensures Shape(q.(kind := q.kind[n := t]))
  {
    assert q.kind[n := t].Keys == q.kind.Keys;
  }

  lemma EnqueueDefaultTyped(q: Queue, n: Node)
    requires Valid(q) && Held(q, n) && q.impl == Default
    ensures Typed(q.(dirty := q.dirty + [n], kind := q.kind[n := TypeEnqueue]))
  {
  }

  lemma EnqueueValid(q: Queue, x: Surface)
    requires Valid(q)
    ensures Valid(DoEnqueue(q, x).q)
  {
    var r := GetNode(q, x);
    if x != NULL_SURFACE && r.Found? && r.place == InList {
      var n := r.node;
      assert Held(q, n);
      ImplEnqueueValid(q, n);
      var q1 := ImplEnqueue(q, n);
      SetKindShape(q1, n, TypeEnqueue);
      if q.impl == Default {
        EnqueueDefaultTyped(q, n);
      } else {
        DeliverEffect(q.(marked := q.marked - {n}));
      }
    }
  }

  lemma ImplDequeueShape(q: Queue)
    requires Shape(q) && q.free != []
    ensures Shape(ImplDequeue(q))
  {
    DistinctTail(q.free);
    DistinctAppend(q.pending, q.free[0]);
  }

  lemma TakeFreeValid(q: Queue)
    requires Valid(q) && q.free != []
    ensures var q' := ImplDequeue(q); Valid(q'.(kind := q'.kind[q.free[0] := TypeDequeue]))
  {
    DistinctTail(q.free);
    ImplDequeueShape(q);
    SetKindShape(ImplDequeue(q), q.free[0], TypeDequeue);
  }

  lemma DequeueValid(q: Queue, alloc: Option<Node>)
    requires Valid(q) && Fresh(q, Dequeue(alloc))
    ensures Valid(DoDequeue(q, alloc).q)
  {
    RefillValid(q, alloc);
    var q1 := Refill(q, alloc).0;
    if q1.free != [] {
      TakeFreeValid(q1);
    }
  }

  lemma AcquireValid(q: Queue)
    requires Valid(q)
    ensures Valid(DoAcquire(q).q)
  {
    if q.dirty != [] {
      DistinctTail(q.dirty);
      assert DoAcquire(q).q.kind.Keys == q.kind.Keys;
    }
  }

  lemma ReleaseValid(q: Queue, x: Surface)
    requires Valid(q) && ReleasesAcquired(q, Release(x))
    ensures Valid(DoRelease(q, x).q)
  {
    if x != NULL_SURFACE {
      match GetNode(q, x)
      case Found(n, InList) =>
        if q.size < q.attached {
          DetachValid(q, n);
        } else {
          DistinctAppend(q.free, n);
          assert DoRelease(q, x).q.kind.Keys == q.kind.Keys;
        }
      case _ =>
    }
  }

  lemma SetSizeValid(q: Queue, size: int, flush: bool)
    requires Valid(q)
    ensures Valid(DoSetSize(q, size, flush).q)
  {
    if size > 0 && q.size > size && !flush {
      DetachFreeValid(q, q.size - size);
    }
  }

  lemma ClearValid(q: Queue, call: Call)
    requires Valid(q) && (call.Reset? || call.Flush?)
    ensures Valid(Step(q, call).q)
  {
  }

  /** Every admissible call keeps the whole invariant, whatever the call returns. */
  lemma StepValid(q: Queue, call: Call)
    requires Valid(q) && Admissible(q, call)
    ensures Valid(Step(q, call).q)
  {
    match call
    case Enqueue(x) => EnqueueValid(q, x);
    case Dequeue(alloc) => DequeueValid(q, alloc);
    case CanDequeue(alloc) => RefillValid(q, alloc);
    case Acquire => AcquireValid(q);
    case Release(x) => ReleaseValid(q, x);
    case SetSize(size, flush) => SetSizeValid(q, size, flush);
    case Reset(_, _, _) => ClearValid(q, call);
    case Flush => ClearValid(q, call);
    case SetAllocCb(_, _) =>
  }

  lemma {:induction false} RunValid(q: Queue, calls: seq<Call>)
    requires Valid(q) && AdmissibleRun(q, calls)
    ensures Valid(Run(q, calls))
    decreases calls
  {
    if calls != [] {
      StepValid(q, calls[0]);
      RunValid(Step(q, calls[0]).q, calls[1..]);
    }
  }

  /** The default queue needs no cooperation of its client. */
  lemma {:induction false} DefaultRunAdmissible(q: Queue, calls: seq<Call>)
    requires Valid(q) && q.impl == Default && FreshRun(q, calls)
    ensures AdmissibleRun(q, calls)
    decreases calls
  {
    if calls != [] {
      assert Admissible(q, calls[0]);
      StepValid(q, calls[0]);
      StepImpl(q, calls[0]);
      DefaultRunAdmissible(Step(q, calls[0]).q, calls[1..]);
    }
  }

  lemma {:induction false} DetachFreeImpl(q: Queue, d: nat)
    ensures DetachFree(q, d).impl == q.impl
    decreases d
  {
    if d > 0 && q.free != [] {
      DetachFreeImpl(Detach(q, q.free[0]), d - 1);
    }
  }

  lemma StepImpl(q: Queue, call: Call)
    ensures Step(q, call).q.impl == q.impl
  {
    match call
    case Enqueue(x) =>
      match GetNode(q, x) {
        case Found(n, InList) => DeliverEffect(q.(marked := q.marked - {n}));
        case _ =>
      }
    case SetSize(size, flush) =>
      if q.size > size {
        DetachFreeImpl(q, q.size - size);
      }
    case _ =>
  }

  /** The default queue, any client, any run: the partition and the typing hold throughout. */
  lemma DefaultPartition(q: Queue, calls: seq<Call>)
    requires Valid(q) && q.impl == Default && FreshRun(q, calls)
    ensures Valid(Run(q, calls)) && Typed(Run(q, calls))
  {
    DefaultRunAdmissible(q, calls);
    RunValid(q, calls);
    RunImpl(q, calls);
  }

  lemma {:induction false} RunImpl(q: Queue, calls: seq<Call>)
    ensures Run(q, calls).impl == q.impl
    decreases calls
  {
    if calls != [] {
      StepImpl(q, calls[0]);
      RunImpl(Step(q, calls[0]).q, calls[1..]);
    }
  }
}
