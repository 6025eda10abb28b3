/** What the two queues promise about order, over whole runs. */
module QueueHistory {
  import opened Common
  import opened QueueSpec
  import opened QueueInvariants
  import opened QueueCapacity

  /** The nodes handed out, handed in and delivered since the queue was last cleared. */
  datatype History = History(dequeued: seq<Node>, enqueued: seq<Node>, acquired: seq<Node>)

  const EMPTY_HISTORY := History([], [], [])

  function Record(h: History, q: Queue, call: Call): History {
    var o := Step(q, call);
    if Clears(q, call) then EMPTY_HISTORY
    else if o.err != Success || o.node.None? then h
    else match call
      case Dequeue(_) => h.(dequeued := h.dequeued + [o.node.value])
      case Enqueue(_) => h.(enqueued := h.enqueued + [o.node.value])
      case Acquire => h.(acquired := h.acquired + [o.node.value])
      case _ => h
  }

  function RunHistory(h: History, q: Queue, calls: seq<Call>): History
    decreases calls
  {
    if calls == [] then h
    else RunHistory(Record(h, q, calls[0]), Step(q, calls[0]).q, calls[1..])
  }

  // ----- the default queue is first in, first out -----

  ghost predicate Fifo(h: History, q: Queue) {
    h.enqueued == h.acquired + q.dirty
  }

  /** Every other call leaves the two ordered queues alone, or clears. */
  lemma QueuesKept(q: Queue, call: Call)
    requires Valid(q) && Admissible(q, call) && !Clears(q, call)
    requires !call.Enqueue? && !call.Dequeue? && !call.Acquire?
    ensures var q' := Step(q, call).q; q'.dirty == q.dirty && q'.pending == q.pending
  {
    match call
    case Release(x) => ReleaseKept(q, x);
    case SetSize(size, flush) => SetSizeKept(q, size, flush);
    case _ =>
  }

  lemma SetSizeKept(q: Queue, size: int, flush: bool)
    requires Valid(q) && !Clears(q, SetSize(size, flush))
    ensures var q' := DoSetSize(q, size, flush).q; q'.dirty == q.dirty && q'.pending == q.pending
  {
    if 0 < size < q.size {
      DetachFreeEffect(q, q.size - size);
    }
  }

  lemma ReleaseKept(q: Queue, x: Surface)
    requires Valid(q) && ReleasesAcquired(q, Release(x))
    ensures var q' := DoRelease(q, x).q; q'.dirty == q.dirty && q'.pending == q.pending && q'.marked == q.marked
  {
    var r := GetNode(q, x);
    if r.Found? && r.place == InList {
      assert r.node !in q.dirty;
    }
  }

  lemma FifoEnqueue(h: History, q: Queue, x: Surface)
    requires Valid(q) && q.impl == Default && Fifo(h, q)
    ensures Fifo(Record(h, q, Enqueue(x)), DoEnqueue(q, x).q)
  {
    var r := GetNode(q, x);
    if r.Found? {
      assert (h.acquired + q.dirty) + [r.node] == h.acquired + (q.dirty + [r.node]);
    }
  }

  lemma FifoDequeue(h: History, q: Queue, alloc: Option<Node>)
    requires Valid(q) && q.impl == Default && Fifo(h, q)
    ensures Fifo(Record(h, q, Dequeue(alloc)), DoDequeue(q, alloc).q)
  {
  }

  lemma FifoStep(h: History, q: Queue, call: Call)
    requires Valid(q) && q.impl == Default && Fresh(q, call) && Fifo(h, q)
    ensures Fifo(Record(h, q, call), Step(q, call).q)
  {
    match call
    case Enqueue(x) => FifoEnqueue(h, q, x);
    case Dequeue(alloc) => FifoDequeue(h, q, alloc);
    case Acquire =>
    case _ =>
      if !Clears(q, call) {
        QueuesKept(q, call);
      }
  }

  /** Default queue, any client: between clears, consumers acquire exactly what was enqueued,
      in enqueue order, and what is left of that order is the dirty queue. */
  lemma {:induction false} DefaultFifo(h: History, q: Queue, calls: seq<Call>)
    requires Valid(q) && q.impl == Default && FreshRun(q, calls) && Fifo(h, q)
    ensures Fifo(RunHistory(h, q, calls), Run(q, calls))
    decreases calls
  {
    if calls != [] {
      FifoStep(h, q, calls[0]);
      StepValid(q, calls[0]);
      StepImpl(q, calls[0]);
      DefaultFifo(Record(h, q, calls[0]), Step(q, calls[0]).q, calls[1..]);
    }
  }

  // ----- the sequence queue delivers in dequeue order -----

  ghost predicate InSequence(h: History, q: Queue) {
    h.dequeued == h.acquired + (q.dirty + q.pending)
  }

  lemma InSequenceEnqueue(h: History, q: Queue, x: Surface)
    requires Valid(q) && q.impl == Sequence && InSequence(h, q)
    ensures InSequence(Record(h, q, Enqueue(x)), DoEnqueue(q, x).q)
  {
    var r := GetNode(q, x);
    if r.Found? {
      DeliverEffect(q.(marked := q.marked - {r.node}));
    }
  }

  lemma InSequenceDequeue(h: History, q: Queue, alloc: Option<Node>)
    requires Valid(q) && q.impl == Sequence && InSequence(h, q)
    ensures InSequence(Record(h, q, Dequeue(alloc)), DoDequeue(q, alloc).q)
  {
    hide Valid;
    var q1 := Refill(q, alloc).0;
    assert q1.dirty == q.dirty && q1.pending == q.pending && q1.impl == Sequence;
  }

  lemma InSequenceStep(h: History, q: Queue, call: Call)
    requires Valid(q) && q.impl == Sequence && Admissible(q, call) && InSequence(h, q)
    ensures InSequence(Record(h, q, call), Step(q, call).q)
  {
    match call
    case Enqueue(x) => InSequenceEnqueue(h, q, x);
    case Dequeue(alloc) => InSequenceDequeue(h, q, alloc);
    case Acquire =>
      if q.dirty != [] {
        assert (q.dirty + q.pending)[1..] == q.dirty[1..] + q.pending;
      }
    case _ =>
      if !Clears(q, call) {
        QueuesKept(q, call);
      }
  }

  /** Sequence queue: whatever order producers enqueue in, acquired ++ dirty ++ pending is the
      dequeue history, so consumers see a prefix of the dequeue order. */
  lemma {:induction false} SequenceOrder(h: History, q: Queue, calls: seq<Call>)
    requires Valid(q) && q.impl == Sequence && AdmissibleRun(q, calls) && InSequence(h, q)
    ensures var h', q' := RunHistory(h, q, calls), Run(q, calls);
            && InSequence(h', q')
            && h'.acquired <= h'.dequeued
            && (q'.pending != [] ==> q'.pending[0] in q'.marked)
    decreases calls
  {
    if calls != [] {
      InSequenceStep(h, q, calls[0]);
      StepValid(q, calls[0]);
      StepImpl(q, calls[0]);
      SequenceOrder(Record(h, q, calls[0]), Step(q, calls[0]).q, calls[1..]);
    }
  }

  // ----- the sequence queue loses nothing -----

  ghost predicate DistinctSurfaces(s: seq<Node>) {
    forall m, n :: m in s && n in s && m.surface == n.surface ==> m == n
  }

  /** One enqueue call per node of `xs`, in that order. */
  function Enqueues(xs: seq<Node>): (r: seq<Call>)
    ensures |r| == |xs|
  {
    if xs == [] then [] else [Enqueue(xs[0].surface)] + Enqueues(xs[1..])
  }

  /** With distinct surfaces the lookup finds the node itself, where it is. */
  lemma GetAttached(q: Queue, n: Node)
    requires Shape(q) && DistinctSurfaces(q.list) && n in q.list
    ensures GetNode(q, n.surface)
         == Found(n, if n in q.free then InFree else if n in q.dirty then InDirty else InList)
  {
    assert FindIn(q.list, n.surface).Some?;
    assert n in q.free ==> FindIn(q.free, n.surface).Some?;
    assert n in q.dirty ==> FindIn(q.dirty, n.surface).Some?;
  }

  lemma EnqueuePendingStep(q: Queue, n: Node)
    requires Valid(q) && q.impl == Sequence && DistinctSurfaces(q.list)
    requires n in q.dirty + q.pending
    ensures var q' := Step(q, Enqueue(n.surface)).q;
            && Valid(q') && q'.impl == Sequence && q'.list == q.list
            && q'.dirty + q'.pending == q.dirty + q.pending
            && q'.marked == q.marked - {n}
  {
    EnqueueValid(q, n.surface);
    StepImpl(q, Enqueue(n.surface));
    GetAttached(q, n);
    if n in q.pending {
      DeliverEffect(q.(marked := q.marked - {n}));
    } else {
      assert q.marked - {n} == q.marked;
    }
  }

  /** Handing in the pending nodes in any order, with any repetition, delivers all of them in
      dequeue order, also those whose call answered UnknownSurface. */
  lemma {:induction false} SequenceLosesNothing(q: Queue, xs: seq<Node>)
    requires Valid(q) && q.impl == Sequence && DistinctSurfaces(q.list)
    requires forall n :: n in xs ==> n in q.dirty + q.pending
    requires forall n :: n in q.marked ==> n in xs
    ensures var q' := Run(q, Enqueues(xs));
            q'.pending == [] && q'.dirty == q.dirty + q.pending
    decreases xs
  {
    if xs == [] {
      assert q.pending == [];
    } else {
      var q1 := Step(q, Enqueue(xs[0].surface)).q;
      EnqueuePendingStep(q, xs[0]);
      assert Enqueues(xs)[0] == Enqueue(xs[0].surface) && Enqueues(xs)[1..] == Enqueues(xs[1..]);
      SequenceLosesNothing(q1, xs[1..]);
    }
  }

  /** A permutation of the pending nodes is such an order. */
  lemma SequenceAnyPermutation(q: Queue, xs: seq<Node>)
    requires Valid(q) && q.impl == Sequence && DistinctSurfaces(q.list)
    requires multiset(xs) == multiset(q.pending)
    ensures var q' := Run(q, Enqueues(xs));
            q'.pending == [] && q'.dirty == q.dirty + q.pending
  {
    forall n ensures n in xs <==> n in q.pending {
      assert n in xs <==> n in multiset(xs);
      assert n in q.pending <==> n in multiset(q.pending);
    }
    SequenceLosesNothing(q, xs);
  }

  /** A surface the consumer already holds can be enqueued, but the sequence queue never
      delivers it: the call may answer Success and still move nothing. */
  lemma SequenceIgnoresAcquired(q: Queue, n: Node)
    requires Valid(q) && q.impl == Sequence && DistinctSurfaces(q.list)
    requires Held(q, n) && n !in q.pending
    ensures var o := DoEnqueue(q, n.surface);
            && o.q.dirty == q.dirty && o.q.pending == q.pending
            && (o.err == Success <==> q.dirty != [])
  {
    GetAttached(q, n);
    assert q.marked - {n} == q.marked;
  }

  // ----- the sequence queue refines the default one -----

  /** The producer enqueues only its oldest pending surface; the consumer releases only what it
      acquired. */
  ghost predicate OldestFirst(q: Queue, call: Call) {
    && Admissible(q, call)
    && match call
       case Enqueue(x) =>
         (match GetNode(q, x)
          case Found(n, InList) => q.pending != [] && q.pending[0] == n
          case _ => true)
       case _ => true
  }

  ghost predicate OldestFirstRun(q: Queue, calls: seq<Call>)
    decreases calls
  {
    calls == [] || (OldestFirst(q, calls[0]) && OldestFirstRun(Step(q, calls[0]).q, calls[1..]))
  }

  /** Equal but for the reorder buffer, which holds marked nodes only. */
  ghost predicate Alike(d: Queue, q: Queue) {
    && d.impl == Default && q.impl == Sequence
    && q == d.(impl := Sequence, pending := q.pending, marked := q.marked)
    && d.pending == []
    && q.marked == Elems(q.pending)
  }

  function Outcomes(q: Queue, calls: seq<Call>): (r: seq<Outcome>)
    ensures |r| == |calls|
    decreases calls
  {
    if calls == [] then []
    else var o := Step(q, calls[0]); [o] + Outcomes(o.q, calls[1..])
  }

  /** What a client can observe of an outcome, and the lists behind it. */
  ghost predicate SameOutcome(a: Outcome, b: Outcome) {
    && a.err == b.err && a.node == b.node && a.log == b.log
    && a.q.free == b.q.free && a.q.dirty == b.q.dirty && a.q.list == b.q.list
    && a.q.kind == b.q.kind && a.q.attached == b.q.attached && a.q.size == b.q.size
  }

  ghost predicate SameOutcomes(a: seq<Outcome>, b: seq<Outcome>) {
    |a| == |b| && (a != [] ==> SameOutcome(a[0], b[0]) && SameOutcomes(a[1..], b[1..]))
  }

  lemma EnqueueAlike(d: Queue, q: Queue, x: Surface)
    requires Valid(q) && Alike(d, q) && OldestFirst(q, Enqueue(x))
    ensures var a, b := DoEnqueue(d, x), DoEnqueue(q, x);
            SameOutcome(a, b) && Alike(a.q, b.q)
  {
    if x != NULL_SURFACE {
      match GetNode(q, x)
      case Found(n, InList) =>
        DistinctTail(q.pending);
        var q1 := q.(marked := q.marked - {n});
        var q2 := q1.(pending := q.pending[1..], dirty := q.dirty + [n]);
        assert Deliver(q1) == Deliver(q2) == q2;
      case _ =>
    }
  }

  lemma {:induction false} DetachFreeAlike(d: Queue, q: Queue, k: nat)
    requires Valid(q) && Alike(d, q)
    ensures Alike(DetachFree(d, k), DetachFree(q, k))
    decreases k
  {
    if k > 0 && q.free != [] {
      var n := q.free[0];
      DetachValid(q, n);
      DetachFreeAlike(Detach(d, n), Detach(q, n), k - 1);
    }
  }

  lemma TakeAlike(d: Queue, q: Queue)
    requires Alike(d, q) && q.free != []
    ensures var n, a, b := q.free[0], ImplDequeue(d), ImplDequeue(q);
            Alike(a.(kind := a.kind[n := TypeDequeue]), b.(kind := b.kind[n := TypeDequeue]))
  {
    assert Elems(q.pending + [q.free[0]]) == Elems(q.pending) + {q.free[0]};
  }

  lemma DequeueAlike(d: Queue, q: Queue, alloc: Option<Node>)
    requires Alike(d, q)
    ensures var a, b := DoDequeue(d, alloc), DoDequeue(q, alloc);
            SameOutcome(a, b) && Alike(a.q, b.q)
  {
    var d1, q1 := Refill(d, alloc).0, Refill(q, alloc).0;
    if q1.free != [] {
      TakeAlike(d1, q1);
    }
  }

  lemma ReleaseAlike(d: Queue, q: Queue, x: Surface)
    requires Valid(q) && Alike(d, q) && ReleasesAcquired(q, Release(x))
    ensures var a, b := DoRelease(d, x), DoRelease(q, x);
            SameOutcome(a, b) && Alike(a.q, b.q)
  {
    var r := GetNode(q, x);
    assert r == GetNode(d, x);
    if x == NULL_SURFACE || r.NotFound? || r.place != InList {
      assert DoRelease(q, x) == Outcome(q, InvalidSurface, None, []);
    } else if q.size < q.attached {
    } else {
      var n := r.node;
      assert DoRelease(q, x).q == q.(free := q.free + [n], kind := q.kind[n := TypeRelease]);
    }
  }

  lemma ShrinkAlike(d: Queue, q: Queue, size: int)
    requires Valid(q) && Alike(d, q) && 0 < size < q.size
    ensures var a, b := DoSetSize(d, size, false), DoSetSize(q, size, false);
            SameOutcome(a, b) && Alike(a.q, b.q)
  {
    var k := q.size - size;
    DetachFreeAlike(d, q, k);
    var a, b := DetachFree(d, k), DetachFree(q, k);
    assert Alike(a.(size := size), b.(size := size));
  }

  lemma SetSizeAlike(d: Queue, q: Queue, size: int, flush: bool)
    requires Valid(q) && Alike(d, q)
    ensures var a, b := DoSetSize(d, size, flush), DoSetSize(q, size, flush);
            SameOutcome(a, b) && Alike(a.q, b.q)
  {
    if 0 < size < q.size && !flush {
      ShrinkAlike(d, q, size);
    }
  }

  lemma ClearAlike(d: Queue, q: Queue, call: Call)
    requires Valid(q) && Alike(d, q) && (call.Reset? || call.Flush?)
    ensures var a, b := Step(d, call), Step(q, call);
            SameOutcome(a, b) && Alike(a.q, b.q)
  {
  }

  lemma StepAlike(d: Queue, q: Queue, call: Call)
    requires Valid(q) && Alike(d, q) && OldestFirst(q, call)
    ensures var a, b := Step(d, call), Step(q, call);
            SameOutcome(a, b) && Alike(a.q, b.q)
  {
    match call
    case Enqueue(x) => EnqueueAlike(d, q, x);
    case Dequeue(alloc) => DequeueAlike(d, q, alloc);
    case Release(x) => ReleaseAlike(d, q, x);
    case SetSize(size, flush) => SetSizeAlike(d, q, size, flush);
    case Reset(_, _, _) => ClearAlike(d, q, call);
    case Flush => ClearAlike(d, q, call);
    case _ =>
  }

  /** When the producer hands surfaces in oldest first, the sequence queue and the default
      queue are indistinguishable: equal codes, surfaces, lists and types for every call. */
  lemma {:induction false} SequenceRefinesDefault(d: Queue, q: Queue, calls: seq<Call>)
    requires Valid(q) && Alike(d, q) && OldestFirstRun(q, calls)
    ensures SameOutcomes(Outcomes(d, calls), Outcomes(q, calls))
    ensures Alike(Run(d, calls), Run(q, calls))
    decreases calls
  {
    if calls != [] {
      StepAlike(d, q, calls[0]);
      StepValid(q, calls[0]);
      SequenceRefinesDefault(Step(d, calls[0]).q, Step(q, calls[0]).q, calls[1..]);
    }
  }
}
