/** How many surfaces a queue attaches, when calls are refused, how a shrink drains, and what
    a flush leaves behind. */
module QueueCapacity {
  import opened Common
  import opened QueueSpec
  import opened QueueInvariants

  // ----- which calls are refused -----

  ghost predicate Carried(s: seq<Node>, x: Surface) {
    exists n :: n in s && n.surface == x
  }

  /** A surface can be enqueued or released exactly when it is attached and no free or dirty
      node carries it; a refused call changes nothing. */
  lemma RefusedExactly(q: Queue, x: Surface)
    requires Valid(q) && x != NULL_SURFACE
    ensures var refused := !Carried(q.list, x) || Carried(q.free + q.dirty, x);
            && (DoEnqueue(q, x).err == AlreadyExist <==> refused)
            && (DoRelease(q, x).err == InvalidSurface <==> refused)
            && (refused ==> DoEnqueue(q, x).q == q && DoEnqueue(q, x).log == [])
            && (refused ==> DoRelease(q, x).q == q && DoRelease(q, x).log == [])
  {
    match GetNode(q, x)
    case Found(n, InList) =>
      assert n in q.list && n.surface == x;
    case Found(n, _) =>
      assert n in q.free + q.dirty && n.surface == x;
    case NotFound =>
      forall n | n in q.list ensures n.surface != x {
        assert n in q.free + q.dirty + q.list;
      }
  }

  /** The sequence queue answers UnknownSurface exactly when nothing is dirty and the surface
      is not the oldest pending one. The default queue never does. */
  lemma UnknownSurfaceExactly(q: Queue, x: Surface)
    requires Valid(q)
    ensures DoEnqueue(q, x).err == UnknownSurface <==>
              && x != NULL_SURFACE && q.impl == Sequence && q.dirty == []
              && var r := GetNode(q, x);
                 r.Found? && r.place == InList && (q.pending == [] || q.pending[0] != r.node)
  {
    match GetNode(q, x)
    case Found(n, InList) =>
      var q1 := q.(marked := q.marked - {n});
      DeliverEffect(q1);
      if q.pending != [] && q.pending[0] == n {
        var q2 := q1.(pending := q.pending[1..], dirty := q.dirty + [n]);
        DeliverEffect(q2);
        assert Deliver(q1) == Deliver(q2);
      }
    case _ =>
  }

  // ----- counting -----

  function CountType(s: seq<Node>, kind: map<Node, NodeType>, t: NodeType): nat {
    if s == [] then 0
    else (if s[0] in kind && kind[s[0]] == t then 1 else 0) + CountType(s[1..], kind, t)
  }

  ghost function OfType(s: seq<Node>, kind: map<Node, NodeType>, t: NodeType): set<Node> {
    set n | n in s && n in kind && kind[n] == t
  }

  lemma OfTypeCons(n: Node, s: seq<Node>, kind: map<Node, NodeType>, t: NodeType)
    requires n !in s
    ensures |OfType([n] + s, kind, t)| == (if n in kind && kind[n] == t then 1 else 0) + |OfType(s, kind, t)|
  {
    var rest := OfType(s, kind, t);
    assert n !in rest;
    if n in kind && kind[n] == t {
      assert OfType([n] + s, kind, t) == rest + {n};
    } else {
      assert OfType([n] + s, kind, t) == rest;
    }
  }

  lemma {:induction false} CountTypeCard(s: seq<Node>, kind: map<Node, NodeType>, t: NodeType)
    requires Distinct(s)
    ensures CountType(s, kind, t) == |OfType(s, kind, t)|
  {
    if s != [] {
      var n, rest := s[0], s[1..];
      DistinctTail(s);
      CountTypeCard(rest, kind, t);
      OfTypeCons(n, rest, kind, t);
    }
  }

  ghost function HeldNodes(q: Queue): set<Node> {
    set n | n in q.list && n !in q.free && n !in q.dirty
  }

  lemma HeldCard(q: Queue)
    requires Shape(q)
    ensures |q.list| == |q.free| + |q.dirty| + |HeldNodes(q)|
  {
    DistinctCard(q.list);
    DistinctCard(q.free);
    DistinctCard(q.dirty);
    assert Elems(q.list) == Elems(q.free) + Elems(q.dirty) + HeldNodes(q);
    assert Elems(q.free) !! Elems(q.dirty);
    assert |Elems(q.free) + Elems(q.dirty)| == |q.free| + |q.dirty|;
    assert (Elems(q.free) + Elems(q.dirty)) !! HeldNodes(q);
  }

  /** In the default queue the four counters add up to the number of attached surfaces. */
  lemma DefaultCounts(q: Queue)
    requires Valid(q) && q.impl == Default
    ensures q.attached == |q.list|
         == |q.free| + |q.dirty| + CountType(q.list, q.kind, TypeDequeue) + CountType(q.list, q.kind, TypeAcquire)
  {
    CountTypeCard(q.list, q.kind, TypeDequeue);
    CountTypeCard(q.list, q.kind, TypeAcquire);
    HeldCard(q);
    var dequeued := OfType(q.list, q.kind, TypeDequeue);
    var acquired := OfType(q.list, q.kind, TypeAcquire);
    assert HeldNodes(q) == dequeued + acquired;
    assert dequeued !! acquired;
  }

  // ----- capacity -----

  ghost predicate WithinCapacity(q: Queue) {
    q.attached <= q.size
  }

  /** The one call that can leave more surfaces attached than the queue size. */
  predicate OverShrinks(q: Queue, call: Call) {
    match call
    case SetSize(size, false) =>
      0 < size < q.size && q.attached - Min(q.size - size, |q.free|) > size
    case _ => false
  }

  lemma DeliverCapacity(q: Queue)
    ensures Deliver(q).attached == q.attached && Deliver(q).size == q.size && Deliver(q).free == q.free
  {
    DeliverEffect(q);
  }

  /** One call breaks the bound if and only if it shrinks below what it can detach at once. */
  lemma CapacityExactly(q: Queue, call: Call)
    requires Valid(q) && WithinCapacity(q)
    ensures WithinCapacity(Step(q, call).q) <==> !OverShrinks(q, call)
  {
    match call
    case Enqueue(x) => EnqueueCapacity(q, x);
    case SetSize(size, flush) => ShrinkCapacity(q, size, flush);
    case _ =>
  }

  lemma EnqueueCapacity(q: Queue, x: Surface)
    ensures var q' := DoEnqueue(q, x).q; q'.attached == q.attached && q'.size == q.size && q'.free == q.free
  {
    var r := GetNode(q, x);
    if r.Found? {
      DeliverCapacity(q.(marked := q.marked - {r.node}));
    }
  }

  lemma ShrinkCapacity(q: Queue, size: int, flush: bool)
    requires Valid(q) && WithinCapacity(q)
    ensures WithinCapacity(DoSetSize(q, size, flush).q) <==> !OverShrinks(q, SetSize(size, flush))
  {
    if 0 < size < q.size && !flush {
      DetachFreeEffect(q, q.size - size);
    }
  }

  ghost predicate NeverOverShrinks(q: Queue, calls: seq<Call>)
    decreases calls
  {
    calls == [] || (!OverShrinks(q, calls[0]) && NeverOverShrinks(Step(q, calls[0]).q, calls[1..]))
  }

  lemma {:induction false} RunCapacity(q: Queue, calls: seq<Call>)
    requires Valid(q) && WithinCapacity(q) && AdmissibleRun(q, calls) && NeverOverShrinks(q, calls)
    ensures WithinCapacity(Run(q, calls))
    decreases calls
  {
    if calls != [] {
      CapacityExactly(q, calls[0]);
      StepValid(q, calls[0]);
      RunCapacity(Step(q, calls[0]).q, calls[1..]);
    }
  }

  /** Within capacity and with a working allocator, dequeue fails exactly when every slot is
      dirty or held. */
  lemma DequeueFailsExactly(q: Queue, n: Node)
    requires Valid(q) && WithinCapacity(q)
    ensures DoDequeue(q, Some(n)).err == InvalidQueue <==> |q.dirty| + |HeldNodes(q)| == q.size
  {
    HeldCard(q);
  }

  /** Above capacity the bound no longer stops `need_attach`: with an empty free queue every
      dequeue whose allocation succeeds attaches one more surface and succeeds. */
  lemma DequeueAboveCapacity(q: Queue, n: Node)
    requires Valid(q) && !WithinCapacity(q)
    ensures var o := DoDequeue(q, Some(n));
            o.err == Success && o.q.attached == q.attached + (if q.free == [] then 1 else 0)
  {
  }

  // ----- shrinking -----

  lemma ShrinkEndsDrained(q: Queue, size: int)
    requires Valid(q) && WithinCapacity(q) && 0 < size < q.size
    ensures var q' := DoSetSize(q, size, false).q;
            && q'.size == size
            && (WithinCapacity(q') || q'.free == [])
            && q'.dirty == q.dirty && q'.pending == q.pending
            && HeldNodes(q') == HeldNodes(q)
  {
    DetachFreeEffect(q, q.size - size);
    DetachFreeHeld(q, q.size - size);
  }

  lemma DetachFirstHeld(q: Queue)
    requires Shape(q) && q.free != []
    ensures HeldNodes(Detach(q, q.free[0])) == HeldNodes(q)
  {
    var n := q.free[0];
    DetachFirstEffect(q);
    DistinctTail(q.free);
    WithoutDistinct(q.list, n);
  }

  lemma {:induction false} DetachFreeHeld(q: Queue, d: nat)
    requires Shape(q)
    ensures HeldNodes(DetachFree(q, d)) == HeldNodes(q)
    decreases d
  {
    hide HeldNodes, Detach;
    if d > 0 && q.free != [] {
      var q1 := Detach(q, q.free[0]);
      DetachFirstEffect(q);
      DetachFirstHeld(q);
      DetachFreeHeld(q1, d - 1);
      assert DetachFree(q, d) == DetachFree(q1, d - 1);
    }
  }

  /** The calls that circulate surfaces without asking for a free one. */
  predicate Circulates(call: Call) {
    call.Enqueue? || call.Acquire? || call.Release?
  }

  function Releases(q: Queue, calls: seq<Call>): nat
    decreases calls
  {
    if calls == [] then 0
    else
      var o := Step(q, calls[0]);
      (if calls[0].Release? && o.err == Success then 1 else 0) + Releases(o.q, calls[1..])
  }

  lemma CirculateStep(q: Queue, call: Call)
    requires Valid(q) && Circulates(call)
    ensures var o := Step(q, call);
            var released := call.Release? && o.err == Success;
            && o.q.size == q.size
            && o.q.attached == q.attached - (if released && q.attached > q.size then 1 else 0)
            && |o.q.free| == |q.free| + (if released && q.attached <= q.size then 1 else 0)
  {
    match call
    case Enqueue(x) => EnqueueCapacity(q, x);
    case _ =>
  }

  /** Until the next dequeue, every accepted release first pays off the excess over the queue
      size; surfaces are recycled into the free queue only once the excess is gone. */
  lemma {:induction false} DrainLaw(q: Queue, calls: seq<Call>)
    requires Valid(q) && q.attached >= q.size
    requires AdmissibleRun(q, calls) && forall c :: c in calls ==> Circulates(c)
    ensures var q' := Run(q, calls);
            var excess := q.attached - q.size;
            var r := Releases(q, calls);
            && q'.size == q.size
            && q'.attached - q'.size == excess - Min(r, excess)
            && |q'.free| == |q.free| + (r - Min(r, excess))
    decreases calls
  {
    if calls != [] {
      CirculateStep(q, calls[0]);
      StepValid(q, calls[0]);
      DrainLaw(Step(q, calls[0]).q, calls[1..]);
    }
  }

  // ----- flush, reset and resize -----

  /** The parameters a clearing call installs. */
  function Cleared(q: Queue, call: Call): Queue {
    var made := match call
      case Reset(w, h, f) => NewQueue(q.impl, q.size, w, h, f)
      case SetSize(size, _) => NewQueue(q.impl, size, q.width, q.height, q.format)
      case _ => NewQueue(q.impl, q.size, q.width, q.height, q.format);
    made.(allocCb := q.allocCb, freeCb := q.freeCb)
  }

  function Destroyed(log: seq<SurfaceCall>): seq<Surface> {
    if log == [] then []
    else (if log[0].DestroySurface? then [log[0].surface] else []) + Destroyed(log[1..])
  }

  function Surfaces(s: seq<Node>): (r: seq<Surface>)
    ensures |r| == |s|
  {
    if s == [] then [] else [s[0].surface] + Surfaces(s[1..])
  }

  lemma {:induction false} SurfacesAt(s: seq<Node>)
    ensures forall j :: 0 <= j < |s| ==> Surfaces(s)[j] == s[j].surface
  {
    if s != [] {
      SurfacesAt(s[1..]);
    }
  }

  lemma {:induction false} DestroyedConcat(a: seq<SurfaceCall>, b: seq<SurfaceCall>)
    ensures Destroyed(a + b) == Destroyed(a) + Destroyed(b)
  {
    if a == [] {
      assert a + b == b;
    } else {
      var h := if a[0].DestroySurface? then [a[0].surface] else [];
      assert (a + b)[0] == a[0] && (a + b)[1..] == a[1..] + b;
      DestroyedConcat(a[1..], b);
      assert h + (Destroyed(a[1..]) + Destroyed(b)) == (h + Destroyed(a[1..])) + Destroyed(b);
    }
  }

  lemma {:induction false} DeleteAllDestroys(freeCb: bool, s: seq<Node>)
    ensures Destroyed(DeleteAllLog(freeCb, s)) == Surfaces(s)
  {
    if s != [] {
      DeleteAllDestroys(freeCb, s[1..]);
      DestroyedConcat(DeleteLog(freeCb, s[0]), DeleteAllLog(freeCb, s[1..]));
      DestroyedConcat(if freeCb then [FreeCallback(s[0].surface)] else [], [DestroySurface(s[0].surface)]);
      assert Destroyed([DestroySurface(s[0].surface)]) == [s[0].surface];
    }
  }

  /** A clearing call leaves a newly created queue with the parameters it installs and the
      callbacks it had, and destroys every attached surface once, in attach order; hence every
      later run returns what it returns on that new queue. */
  lemma ClearIsNew(q: Queue, call: Call, later: seq<Call>)
    requires Valid(q) && Clears(q, call)
    ensures var o := Step(q, call);
            && o.err == Success
            && o.q == Cleared(q, call)
            && Destroyed(o.log) == Surfaces(q.list)
            && Run(o.q, later) == Run(Cleared(q, call), later)
  {
    DeleteAllDestroys(q.freeCb, q.list);
  }

  /** A flush, reset or resize that does not clear leaves all lists as they are. */
  lemma NoClearKeepsQueues(q: Queue, call: Call)
    requires Valid(q) && !Clears(q, call)
    requires call.Flush? || call.Reset? || (call.SetSize? && call.flush)
    ensures Step(q, call).q == q && Step(q, call).log == []
  {
  }
}
