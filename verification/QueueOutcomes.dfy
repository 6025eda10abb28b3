/** What a client sees of the calls: the codes they answer, the type a node is left with, the
    order in which free surfaces come round, and which surfaces are made and destroyed. */
module QueueOutcomes {
  import opened Common
  import opened QueueSpec
  import opened QueueInvariants
  import opened QueueCapacity

  // ----- codes -----

  lemma CreateExactly(impl: Impl, size: int, width: int, height: int, format: int)
    ensures var r := Create(impl, size, width, height, format);
            && (r.None? <==> size <= 0 || width <= 0 || height <= 0 || format <= 0)
            && (r.Some? ==>
                  var q := r.value;
                  && q.impl == impl && q.size == size
                  && q.width == width && q.height == height && q.format == format
                  && |q.list| == |q.free| == |q.dirty| == |q.pending| == q.attached == 0
                  && !q.allocCb && !q.freeCb)
  {
  }

  lemma NullRefused(q: Queue)
    ensures DoEnqueue(q, NULL_SURFACE) == Outcome(q, InvalidSurface, None, [])
    ensures DoRelease(q, NULL_SURFACE) == Outcome(q, InvalidSurface, None, [])
  {
  }

  /** Acquire answers InvalidQueue exactly when nothing is dirty, and then changes nothing; else
      it hands out the oldest dirty node. */
  lemma AcquireExactly(q: Queue)
    ensures var o := Step(q, Acquire);
            && (o.err == InvalidQueue <==> q.dirty == [])
            && (o.err == Success <==> q.dirty != [])
            && (q.dirty == [] ==> o.q == q && o.node == None)
            && (q.dirty != [] ==> o.node == Some(q.dirty[0]) && q.dirty == [q.dirty[0]] + o.q.dirty)
  {
  }

  /** Dequeue answers InvalidQueue exactly when no surface is free and none can be attached; else
      it hands out the oldest free node, or the one attached for it. */
  lemma DequeueExactly(q: Queue, alloc: Option<Node>)
    ensures var o := Step(q, Dequeue(alloc));
            var fails := q.free == [] && (q.attached == q.size || alloc.None?);
            && (o.err == InvalidQueue <==> fails) && (o.err == Success <==> !fails)
            && (fails ==> o.q == q && o.log == [] && o.node == None)
            && (!fails ==> o.node == if q.free != [] then Some(q.free[0]) else alloc)
  {
  }

  /** `can_dequeue` foretells the dequeue of the same state and allocation: it answers Success
      exactly when that dequeue does, which is when a free surface is there after the refill. */
  lemma CanDequeueExactly(q: Queue, alloc: Option<Node>)
    ensures var c, d := Step(q, CanDequeue(alloc)), Step(q, Dequeue(alloc));
            && (c.err == Success <==> d.err == Success)
            && (c.err == Success <==> c.q.free != [])
            && (c.err == Success <==> q.free != [] || (q.attached != q.size && alloc.Some?))
            && c.q.dirty == q.dirty && c.q.pending == q.pending && c.q.size == q.size
            && c.log == d.log && c.q.list == d.q.list
  {
  }

  /** The new size is installed on every path that accepts it. Growing, or keeping the size,
      touches nothing else; a size that is not positive is refused. */
  lemma SetSizeExactly(q: Queue, size: int, flush: bool)
    ensures var o := Step(q, SetSize(size, flush));
            && (size > 0 ==> o.err == Success && o.q.size == size)
            && (size <= 0 ==> o.err == InvalidParameter && o.q == q && o.log == [])
            && (size > 0 && size >= q.size && !flush ==>
                  && o.log == []
                  && o.q == q.(size := size))
            && o.q.width == q.width && o.q.height == q.height && o.q.format == q.format
            && o.q.allocCb == q.allocCb && o.q.freeCb == q.freeCb
  {
    if 0 < size < q.size && !flush {
      DetachFreeParameters(q, q.size - size);
    }
  }

  /** A shrink gives up as many free surfaces as the size goes down by, or all of them when there
      are fewer, oldest first; it looks neither at what is attached nor at any other queue. */
  lemma ShrinkExactly(q: Queue, size: int)
    requires Shape(q) && 0 < size < q.size
    ensures var o, k := Step(q, SetSize(size, false)), Min(q.size - size, |q.free|);
            && o.q.free == q.free[k..] && o.q.attached == q.attached - k
            && o.q.dirty == q.dirty && o.q.pending == q.pending
            && Destroyed(o.log) == Surfaces(q.free[..k])
  {
    DetachFreeEffect(q, q.size - size);
    DeleteAllDestroys(q.freeCb, FirstFree(q, q.size - size));
  }

  lemma {:induction false} DetachFreeParameters(q: Queue, d: nat)
    ensures var r := DetachFree(q, d);
            && r.width == q.width && r.height == q.height && r.format == q.format
            && r.size == q.size && r.allocCb == q.allocCb && r.freeCb == q.freeCb
    decreases d
  {
    if d > 0 && q.free != [] {
      DetachFreeParameters(Detach(q, q.free[0]), d - 1);
    }
  }

  lemma SetAllocCbExactly(q: Queue, allocCb: bool, freeCb: bool)
    ensures var o := Step(q, SetAllocCb(allocCb, freeCb));
            && o.err == Success && o.log == []
            && o.q.allocCb == allocCb && o.q.freeCb == freeCb
            && o.q.(allocCb := q.allocCb, freeCb := q.freeCb) == q
  {
  }

  /** An accepted call is about a node that carries its surface. */
  lemma SurfaceAsked(q: Queue, x: Surface)
    ensures var o := DoEnqueue(q, x); o.err == Success ==> o.node.Some? && o.node.value.surface == x
    ensures var o := DoRelease(q, x); o.err == Success ==> o.node.Some? && o.node.value.surface == x
  {
  }

  // ----- types -----

  /** A node and what last happened to it. */
  datatype Use = Use(node: Node, kind: NodeType)

  /** An attach, if the list grew, and then the use the call made of the node it answered. */
  function UsesOf(q: Queue, call: Call): seq<Use> {
    var o := Step(q, call);
    (if |o.q.list| > |q.list| then [Use(o.q.list[|o.q.list| - 1], TypeNone)] else []) +
    (if o.err != Success || o.node.None? then []
     else match call
       case Enqueue(_) => [Use(o.node.value, TypeEnqueue)]
       case Dequeue(_) => [Use(o.node.value, TypeDequeue)]
       case Acquire => [Use(o.node.value, TypeAcquire)]
       case Release(_) => [Use(o.node.value, TypeRelease)]
       case _ => [])
  }

  function RunUses(u: seq<Use>, q: Queue, calls: seq<Call>): seq<Use>
    decreases calls
  {
    if calls == [] then u else RunUses(u + UsesOf(q, calls[0]), Step(q, calls[0]).q, calls[1..])
  }

  function LastUse(u: seq<Use>, n: Node): NodeType {
    if u == [] then TypeNone
    else if u[|u| - 1].node == n then u[|u| - 1].kind
    else LastUse(u[..|u| - 1], n)
  }

  ghost predicate TypedByUse(u: seq<Use>, q: Queue) {
    forall n :: n in q.list ==> n in q.kind && q.kind[n] == LastUse(u, n)
  }

  /** The list of `r` is part of the list of `q`, and the types are kept. */
  ghost predicate Shrunk(q: Queue, r: Queue) {
    && |r.list| <= |q.list|
    && forall n :: n in r.list ==> n in q.list && (n in q.kind ==> n in r.kind && r.kind[n] == q.kind[n])
  }

  lemma DetachShrunk(q: Queue, n: Node)
    requires Distinct(q.list)
    ensures Shrunk(q, Detach(q, n)) && Distinct(Detach(q, n).list)
  {
    WithoutDistinct(q.list, n);
  }

  lemma {:induction false} DetachFreeShrunk(q: Queue, d: nat)
    requires Distinct(q.list)
    ensures Shrunk(q, DetachFree(q, d))
    decreases d
  {
    if d > 0 && q.free != [] {
      DetachShrunk(q, q.free[0]);
      DetachFreeShrunk(Detach(q, q.free[0]), d - 1);
    }
  }

  /** A node that is detached needs no type any more. */
  lemma UseGone(u: seq<Use>, q: Queue, n: Node, t: NodeType)
    requires TypedByUse(u, q) && Distinct(q.list)
    ensures TypedByUse(u + [Use(n, t)], Detach(q, n))
  {
    WithoutDistinct(q.list, n);
  }

  lemma EnqueueCases(q: Queue, x: Surface)
    ensures var o, uses := DoEnqueue(q, x), UsesOf(q, Enqueue(x));
            && o.q.list == q.list
            && if o.err == Success then
                 && o.node.Some?
                 && uses == [Use(o.node.value, TypeEnqueue)]
                 && o.q.kind == q.kind[o.node.value := TypeEnqueue]
               else uses == [] && o.q.kind == q.kind
  {
    var r := GetNode(q, x);
    if r.Found? {
      DeliverEffect(q.(marked := q.marked - {r.node}));
    }
  }

  lemma EnqueueUse(u: seq<Use>, q: Queue, x: Surface)
    requires TypedByUse(u, q)
    ensures TypedByUse(u + UsesOf(q, Enqueue(x)), DoEnqueue(q, x).q)
  {
    EnqueueCases(q, x);
    hide UsesOf, DoEnqueue;
    assert u + [] == u;
  }

  lemma RefillUse(u: seq<Use>, q: Queue, alloc: Option<Node>)
    requires TypedByUse(u, q)
    ensures TypedByUse(u + UsesOf(q, CanDequeue(alloc)), Refill(q, alloc).0)
  {
    assert u + [] == u;
  }

  lemma DequeueCases(q: Queue, alloc: Option<Node>)
    ensures var q1, o := Refill(q, alloc).0, DoDequeue(q, alloc);
            var attached := UsesOf(q, CanDequeue(alloc));
            && o.log == Refill(q, alloc).1
            && if q1.free == [] then
                 o.q == q1 && o.err != Success && UsesOf(q, Dequeue(alloc)) == attached
               else
                 && o.err == Success && o.node == Some(q1.free[0])
                 && o.q.free == q1.free[1..]
                 && o.q.list == q1.list && o.q.kind == q1.kind[q1.free[0] := TypeDequeue]
                 && UsesOf(q, Dequeue(alloc)) == attached + [Use(q1.free[0], TypeDequeue)]
  {
  }

  lemma DequeueUse(u: seq<Use>, q: Queue, alloc: Option<Node>)
    requires TypedByUse(u, q)
    ensures TypedByUse(u + UsesOf(q, Dequeue(alloc)), DoDequeue(q, alloc).q)
  {
    DequeueCases(q, alloc);
    RefillUse(u, q, alloc);
    hide TypedByUse, UsesOf, DoDequeue, Refill;
    var attached := UsesOf(q, CanDequeue(alloc));
    var q1 := Refill(q, alloc).0;
    if q1.free != [] {
      assert u + (attached + [Use(q1.free[0], TypeDequeue)]) == (u + attached) + [Use(q1.free[0], TypeDequeue)];
    }
  }

  lemma AcquireUse(u: seq<Use>, q: Queue)
    requires TypedByUse(u, q)
    ensures TypedByUse(u + UsesOf(q, Acquire), DoAcquire(q).q)
  {
    assert u + [] == u;
  }

  lemma ReleaseCases(q: Queue, x: Surface)
    requires Valid(q)
    ensures var r, o, uses := GetNode(q, x), DoRelease(q, x), UsesOf(q, Release(x));
            if x == NULL_SURFACE || r.NotFound? || r.place != InList then
              o.q == q && uses == [] && o.log == [] && o.err != Success
            else
              && o.err == Success && uses == [Use(r.node, TypeRelease)]
              && r.node in q.list && r.node.surface == x
              && if q.size < q.attached then
                   && o.q == Detach(q, r.node) && o.log == DeleteLog(q.freeCb, r.node)
                   && o.q.free == q.free
                 else
                   && o.log == [] && o.q.list == q.list && o.q.kind == q.kind[r.node := TypeRelease]
                   && o.q.free == q.free + [r.node]
  {
    var r := GetNode(q, x);
    if r.Found? {
      WithoutDistinct(q.list, r.node);
    }
  }

  lemma ReleaseUse(u: seq<Use>, q: Queue, x: Surface)
    requires Valid(q) && TypedByUse(u, q)
    ensures TypedByUse(u + UsesOf(q, Release(x)), DoRelease(q, x).q)
  {
    ReleaseCases(q, x);
    hide TypedByUse, UsesOf, DoRelease, Detach;
    assert u + [] == u;
    var r := GetNode(q, x);
    if x != NULL_SURFACE && r.Found? && r.place == InList {
      if q.size < q.attached {
        UseGone(u, q, r.node, TypeRelease);
      } else {
      }
    }
  }

  lemma OtherUse(u: seq<Use>, q: Queue, call: Call)
    requires Valid(q) && TypedByUse(u, q)
    requires call.SetSize? || call.Reset? || call.Flush? || call.SetAllocCb?
    ensures TypedByUse(u + UsesOf(q, call), Step(q, call).q)
  {
    assert u + [] == u;
    if call.SetSize? && q.size > call.size {
      DetachFreeShrunk(q, q.size - call.size);
    }
  }

  /** Over every run, the type of an attached node is what the last accepted call did with it,
      and NONE before the first. */
  lemma {:induction false} TypeIsLastUse(u: seq<Use>, q: Queue, calls: seq<Call>)
    requires Valid(q) && AdmissibleRun(q, calls) && TypedByUse(u, q)
    ensures TypedByUse(RunUses(u, q, calls), Run(q, calls))
    decreases calls
  {
    if calls != [] {
      hide Valid, TypedByUse, UsesOf, Admissible;
      UseStep(u, q, calls[0]);
      StepValid(q, calls[0]);
      TypeIsLastUse(u + UsesOf(q, calls[0]), Step(q, calls[0]).q, calls[1..]);
    }
  }

  lemma UseStep(u: seq<Use>, q: Queue, call: Call)
    requires Valid(q) && TypedByUse(u, q)
    ensures TypedByUse(u + UsesOf(q, call), Step(q, call).q)
  {
    hide Valid, TypedByUse, UsesOf;
    match call
    case Enqueue(x) => EnqueueUse(u, q, x);
    case Dequeue(alloc) => DequeueUse(u, q, alloc);
    case CanDequeue(alloc) => RefillUse(u, q, alloc);
    case Acquire => AcquireUse(u, q);
    case Release(x) => ReleaseUse(u, q, x);
    case _ => OtherUse(u, q, call);
  }

  // ----- surfaces made and destroyed -----

  /** The surfaces a log obtains for the queue, by either way of allocating. */
  function Made(log: seq<SurfaceCall>): seq<Surface> {
    if log == [] then []
    else
      (if log[0].CreateSurface? || log[0].AllocCallback? then [log[0].surface] else []) + Made(log[1..])
  }

  function Announced(log: seq<SurfaceCall>): seq<Surface> {
    if log == [] then []
    else (if log[0].FreeCallback? then [log[0].surface] else []) + Announced(log[1..])
  }

  /** Whatever is destroyed has been announced right before. */
  ghost predicate AnnouncedFirst(log: seq<SurfaceCall>) {
    forall i :: 0 <= i < |log| && log[i].DestroySurface? ==> i > 0 && log[i - 1] == FreeCallback(log[i].surface)
  }

  /** Allocation goes through the callback exactly when there is one, and the free callback is
      told of every surface that is destroyed, before it is, exactly when there is one. */
  ghost predicate Polite(q: Queue, log: seq<SurfaceCall>) {
    && (forall c :: c in log ==> (c.CreateSurface? ==> !q.allocCb) && (c.AllocCallback? ==> q.allocCb))
    && Announced(log) == (if q.freeCb then Destroyed(log) else [])
    && (q.freeCb ==> AnnouncedFirst(log))
  }

  /** The attached surfaces and the destroyed ones are those there were and the new ones. */
  ghost predicate Balanced(before: seq<Node>, log: seq<SurfaceCall>, after: seq<Node>) {
    multiset(Surfaces(after)) + multiset(Destroyed(log)) == multiset(Surfaces(before)) + multiset(Made(log))
  }

  lemma {:induction false} SurfacesConcat(a: seq<Node>, b: seq<Node>)
    ensures Surfaces(a + b) == Surfaces(a) + Surfaces(b)
  {
    if a == [] {
      assert a + b == b;
    } else {
      assert (a + b)[0] == a[0] && (a + b)[1..] == a[1..] + b;
      SurfacesConcat(a[1..], b);
    }
  }

  lemma {:induction false} SurfacesWithout(s: seq<Node>, n: Node)
    requires n in s
    ensures multiset(Surfaces(s)) == multiset(Surfaces(Without(s, n))) + multiset{n.surface}
  {
    if s[0] != n {
      SurfacesWithout(s[1..], n);
      assert Without(s, n)[0] == s[0] && Without(s, n)[1..] == Without(s[1..], n);
    }
  }

  lemma LogCons(c: SurfaceCall, rest: seq<SurfaceCall>)
    ensures var log := [c] + rest;
            && Made(log) == (if c.CreateSurface? || c.AllocCallback? then [c.surface] else []) + Made(rest)
            && Destroyed(log) == (if c.DestroySurface? then [c.surface] else []) + Destroyed(rest)
            && Announced(log) == (if c.FreeCallback? then [c.surface] else []) + Announced(rest)
  {
    assert ([c] + rest)[1..] == rest;
  }

  lemma DeleteLogEffect(freeCb: bool, n: Node)
    ensures var log := DeleteLog(freeCb, n);
            && Made(log) == [] && Destroyed(log) == [n.surface]
            && Announced(log) == (if freeCb then [n.surface] else [])
            && (freeCb ==> AnnouncedFirst(log))
            && (forall c :: c in log ==> c.FreeCallback? || c.DestroySurface?)
  {
    var last := [DestroySurface(n.surface)];
    LogCons(DestroySurface(n.surface), []);
    assert last == [DestroySurface(n.surface)] + [];
    if freeCb {
      LogCons(FreeCallback(n.surface), last);
    } else {
      assert DeleteLog(freeCb, n) == last;
    }
  }

  lemma {:induction false} LogConcat(a: seq<SurfaceCall>, b: seq<SurfaceCall>)
    ensures Made(a + b) == Made(a) + Made(b) && Announced(a + b) == Announced(a) + Announced(b)
  {
    hide Made, Announced;
    LogNone();
    if a == [] {
      assert a + b == b;
    } else {
      var rest := a[1..];
      assert a == [a[0]] + rest && a + b == [a[0]] + (rest + b);
      LogCons(a[0], rest);
      LogCons(a[0], rest + b);
      LogConcat(rest, b);
    }
  }

  lemma {:induction false} DeleteAllEffect(freeCb: bool, s: seq<Node>)
    ensures var log := DeleteAllLog(freeCb, s);
            && Made(log) == [] && Destroyed(log) == Surfaces(s)
            && Announced(log) == (if freeCb then Surfaces(s) else [])
            && (freeCb ==> AnnouncedFirst(log))
  {
    DeleteAllDestroys(freeCb, s);
    if s != [] {
      DeleteAllEffect(freeCb, s[1..]);
      DeleteLogEffect(freeCb, s[0]);
      LogConcat(DeleteLog(freeCb, s[0]), DeleteAllLog(freeCb, s[1..]));
    }
  }

  lemma {:induction false} DeleteAllCalls(freeCb: bool, s: seq<Node>)
    ensures forall c :: c in DeleteAllLog(freeCb, s) ==> c.FreeCallback? || c.DestroySurface?
  {
    if s != [] {
      DeleteAllCalls(freeCb, s[1..]);
    }
  }

  lemma AttachEffect(q: Queue, n: Node)
    ensures var log := AttachLog(q, n.surface);
            Polite(q, log) && Made(log) == [n.surface] && Destroyed(log) == []
  {
    hide Made, Destroyed, Announced;
    var x := n.surface;
    var rest: seq<SurfaceCall> := [RefSurface(x), UnrefSurface(x)];
    LogCons(UnrefSurface(x), []);
    LogCons(RefSurface(x), [UnrefSurface(x)]);
    LogNone();
    assert [UnrefSurface(x)] + [] == [UnrefSurface(x)] && [RefSurface(x)] + [UnrefSurface(x)] == rest;
    if q.allocCb {
      LogCons(RefSurface(x), rest);
      LogCons(AllocCallback(x), [RefSurface(x)] + rest);
      assert AttachLog(q, x) == [AllocCallback(x)] + ([RefSurface(x)] + rest);
    } else {
      LogCons(CreateSurface(x), rest);
      assert AttachLog(q, x) == [CreateSurface(x)] + rest;
    }
  }

  lemma LogNone()
    ensures Made([]) == [] && Destroyed([]) == [] && Announced([]) == []
  {
  }

  lemma RefillBalanced(q: Queue, alloc: Option<Node>)
    ensures var (q1, log) := Refill(q, alloc);
            && Polite(q, log) && Balanced(q.list, log, q1.list)
            && Destroyed(log) == []
            && Surfaces(q1.free) == Surfaces(q.free) + Made(log)
  {
    hide Made, Destroyed, Announced, AttachLog;
    LogNone();
    if q.free == [] && q.size != q.attached && alloc.Some? {
      AttachEffect(q, alloc.value);
      SurfacesConcat(q.list, [alloc.value]);
      assert Surfaces([alloc.value]) == [alloc.value.surface];
    }
  }

  lemma DetachBalanced(q: Queue, n: Node)
    requires n in q.list
    ensures var log := DeleteLog(q.freeCb, n); Polite(q, log) && Balanced(q.list, log, Detach(q, n).list)
  {
    DeleteLogEffect(q.freeCb, n);
    SurfacesWithout(q.list, n);
  }

  lemma {:induction false} DetachFreeList(q: Queue, d: nat)
    requires Shape(q)
    ensures multiset(Surfaces(q.list))
         == multiset(Surfaces(DetachFree(q, d).list)) + multiset(Surfaces(FirstFree(q, d)))
    decreases d
  {
    hide Shape, Detach, FirstFree, Surfaces;
    if d == 0 || q.free == [] {
      NoneFirst(q, d);
    } else {
      var n := q.free[0];
      var q1 := Detach(q, n);
      DetachFirstEffect(q);
      FirstFreeStep(q, d);
      SurfacesWithout(q.list, n);
      DetachFreeList(q1, d - 1);
      assert DetachFree(q, d) == DetachFree(q1, d - 1);
      SurfacesCons(n, FirstFree(q1, d - 1));
    }
  }

  lemma NoneFirst(q: Queue, d: nat)
    requires d == 0 || q.free == []
    ensures FirstFree(q, d) == [] && Surfaces(FirstFree(q, d)) == []
  {
  }

  lemma SurfacesCons(n: Node, s: seq<Node>)
    ensures multiset(Surfaces([n] + s)) == multiset{n.surface} + multiset(Surfaces(s))
  {
    assert ([n] + s)[1..] == s;
  }

  lemma FirstFreeStep(q: Queue, d: nat)
    requires Shape(q) && q.free != [] && d > 0
    ensures var n := q.free[0];
            && n in q.list
            && FirstFree(q, d) == [n] + FirstFree(Detach(q, n), d - 1)
            && FirstFree(q, d)[0] == n && FirstFree(q, d)[1..] == FirstFree(Detach(q, n), d - 1)
  {
    DetachFirstEffect(q);
  }

  lemma ShrinkBalanced(q: Queue, d: nat)
    requires Shape(q)
    ensures var log := DeleteAllLog(q.freeCb, FirstFree(q, d));
            Polite(q, log) && Balanced(q.list, log, DetachFree(q, d).list)
  {
    hide Made, Destroyed, Announced, DeleteAllLog, Surfaces, FirstFree, DetachFree, Shape;
    DeleteAllEffect(q.freeCb, FirstFree(q, d));
    DeleteAllCalls(q.freeCb, FirstFree(q, d));
    DetachFreeList(q, d);
  }

  lemma NoneLeft()
    ensures Surfaces([]) == []
  {
  }

  lemma ClearBalanced(q: Queue)
    ensures var log := DeleteAllLog(q.freeCb, q.list);
            Polite(q, log) && Balanced(q.list, log, [])
    ensures Polite(q, []) && Balanced(q.list, [], q.list)
  {
    hide Made, Destroyed, Announced, DeleteAllLog, Surfaces;
    LogNone();
    NoneLeft();
    DeleteAllEffect(q.freeCb, q.list);
    DeleteAllCalls(q.freeCb, q.list);
  }

  lemma EnqueueQuiet(q: Queue, x: Surface)
    ensures DoEnqueue(q, x).log == [] && DoEnqueue(q, x).q.list == q.list
  {
    var r := GetNode(q, x);
    if r.Found? {
      DeliverEffect(q.(marked := q.marked - {r.node}));
    }
  }

  lemma ReleaseBalanced(q: Queue, x: Surface)
    requires Valid(q)
    ensures var o := DoRelease(q, x); Polite(q, o.log) && Balanced(q.list, o.log, o.q.list)
  {
    ReleaseCases(q, x);
    ClearBalanced(q);
    var r := GetNode(q, x);
    hide Polite, Balanced, DoRelease, DeleteLog, UsesOf;
    if x != NULL_SURFACE && r.Found? && r.place == InList {
      DetachBalanced(q, r.node);
    }
  }

  lemma SetSizeBalanced(q: Queue, size: int, flush: bool)
    requires Valid(q)
    ensures var o := DoSetSize(q, size, flush); Polite(q, o.log) && Balanced(q.list, o.log, o.q.list)
  {
    hide Polite, Balanced;
    ClearBalanced(q);
    ShrinkBalanced(q, 0);
    if q.size > size {
      ShrinkBalanced(q, q.size - size);
    }
  }

  lemma StepBalanced(q: Queue, call: Call)
    requires Valid(q)
    ensures var o := Step(q, call); Polite(q, o.log) && Balanced(q.list, o.log, o.q.list)
  {
    ClearBalanced(q);
    hide Valid, Polite, Balanced, DoEnqueue, DoDequeue, DoRelease, DoSetSize, Refill, UsesOf;
    match call
    case Enqueue(x) => EnqueueQuiet(q, x);
    case Dequeue(alloc) =>
      RefillBalanced(q, alloc);
      DequeueCases(q, alloc);
    case CanDequeue(alloc) => RefillBalanced(q, alloc);
    case Release(x) => ReleaseBalanced(q, x);
    case SetSize(size, flush) => SetSizeBalanced(q, size, flush);
    case _ =>
  }

  function RunLog(q: Queue, calls: seq<Call>): seq<SurfaceCall>
    decreases calls
  {
    if calls == [] then [] else Step(q, calls[0]).log + RunLog(Step(q, calls[0]).q, calls[1..])
  }

  lemma BalancedTrans(a: seq<Node>, l1: seq<SurfaceCall>, b: seq<Node>, l2: seq<SurfaceCall>, c: seq<Node>)
    requires Balanced(a, l1, b) && Balanced(b, l2, c)
    ensures Balanced(a, l1 + l2, c)
  {
    hide Made, Destroyed, Surfaces;
    LogConcat(l1, l2);
    DestroyedConcat(l1, l2);
    Exchange(multiset(Surfaces(a)), multiset(Made(l1)), multiset(Destroyed(l1)), multiset(Surfaces(b)),
             multiset(Made(l2)), multiset(Destroyed(l2)), multiset(Surfaces(c)));
    assert multiset(Made(l1 + l2)) == multiset(Made(l1)) + multiset(Made(l2));
    assert multiset(Destroyed(l1 + l2)) == multiset(Destroyed(l1)) + multiset(Destroyed(l2));
  }

  lemma Exchange(a: multiset<Surface>, m1: multiset<Surface>, d1: multiset<Surface>, b: multiset<Surface>,
                 m2: multiset<Surface>, d2: multiset<Surface>, c: multiset<Surface>)
    requires b + d1 == a + m1 && c + d2 == b + m2
    ensures c + (d1 + d2) == a + (m1 + m2)
  {
    assert c + (d1 + d2) == (c + d2) + d1 == (b + m2) + d1 == (b + d1) + m2 == (a + m1) + m2;
  }

  /** Over every run, each surface the queue obtained was destroyed exactly once or is attached. */
  lemma {:induction false} MadeOrDestroyed(q: Queue, calls: seq<Call>)
    requires Valid(q) && AdmissibleRun(q, calls)
    ensures Balanced(q.list, RunLog(q, calls), Run(q, calls).list)
    decreases calls
  {
    if calls == [] {
      ClearBalanced(q);
    } else {
      hide Valid, Balanced, Admissible;
      var o := Step(q, calls[0]);
      StepBalanced(q, calls[0]);
      StepValid(q, calls[0]);
      MadeOrDestroyed(o.q, calls[1..]);
      BalancedTrans(q.list, o.log, o.q.list, RunLog(o.q, calls[1..]), Run(q, calls).list);
    }
  }

  // ----- the free queue is first in, first out -----

  /** The surfaces that entered the free queue, and those that left it. */
  datatype FreeHistory = FreeHistory(entered: seq<Surface>, left: seq<Surface>)

  /** Surfaces enter by being obtained or recycled, and leave by being dequeued or given up by a
      shrink. */
  function RecordFree(h: FreeHistory, q: Queue, call: Call): FreeHistory {
    var o := Step(q, call);
    if Clears(q, call) then FreeHistory([], [])
    else
      match call
      case Release(x) =>
        if o.err == Success && Destroyed(o.log) == [] then h.(entered := h.entered + [x]) else h
      case SetSize(_, _) => h.(left := h.left + Destroyed(o.log))
      case Dequeue(_) =>
        var dequeued := if o.err == Success && o.node.Some? then [o.node.value.surface] else [];
        FreeHistory(h.entered + Made(o.log), h.left + dequeued)
      case _ => h.(entered := h.entered + Made(o.log))
  }

  function RunFree(h: FreeHistory, q: Queue, calls: seq<Call>): FreeHistory
    decreases calls
  {
    if calls == [] then h else RunFree(RecordFree(h, q, calls[0]), Step(q, calls[0]).q, calls[1..])
  }

  ghost predicate FreeInOrder(h: FreeHistory, q: Queue) {
    h.entered == h.left + Surfaces(q.free)
  }

  lemma RefillOrder(h: FreeHistory, q: Queue, alloc: Option<Node>)
    requires FreeInOrder(h, q)
    ensures var (q1, log) := Refill(q, alloc); h.entered + Made(log) == h.left + Surfaces(q1.free)
  {
    hide Refill, Made, Surfaces, Polite, Balanced, Destroyed;
    RefillBalanced(q, alloc);
    var log := Refill(q, alloc).1;
    assert h.left + (Surfaces(q.free) + Made(log)) == (h.left + Surfaces(q.free)) + Made(log);
  }

  lemma FreeDequeue(h: FreeHistory, q: Queue, alloc: Option<Node>)
    requires FreeInOrder(h, q)
    ensures FreeInOrder(RecordFree(h, q, Dequeue(alloc)), DoDequeue(q, alloc).q)
  {
    RefillOrder(h, q, alloc);
    DequeueCases(q, alloc);
    hide Refill, DoDequeue, Made, Destroyed, UsesOf;
    var (q1, log) := Refill(q, alloc);
    assert h.left + [] == h.left;
    if q1.free != [] {
      var x, rest := q1.free[0].surface, Surfaces(q1.free[1..]);
      assert Surfaces(q1.free) == [x] + rest;
      assert h.left + ([x] + rest) == (h.left + [x]) + rest;
    }
  }

  lemma FreeRefill(h: FreeHistory, q: Queue, alloc: Option<Node>)
    requires FreeInOrder(h, q)
    ensures FreeInOrder(RecordFree(h, q, CanDequeue(alloc)), Refill(q, alloc).0)
  {
    RefillOrder(h, q, alloc);
    hide Refill, Made;
  }

  /** A surface that enters is the newest free one. */
  lemma EnterNewest(h: FreeHistory, q: Queue, n: Node)
    requires FreeInOrder(h, q)
    ensures h.entered + [n.surface] == h.left + Surfaces(q.free + [n])
  {
    SurfacesConcat(q.free, [n]);
    assert Surfaces([n]) == [n.surface];
    assert h.left + (Surfaces(q.free) + [n.surface]) == h.entered + [n.surface];
  }

  lemma RecordRelease(h: FreeHistory, q: Queue, x: Surface)
    ensures var o := DoRelease(q, x);
            && (o.err != Success || Destroyed(o.log) != [] ==> RecordFree(h, q, Release(x)) == h)
            && (o.err == Success && Destroyed(o.log) == [] ==>
                  RecordFree(h, q, Release(x)) == h.(entered := h.entered + [x]))
  {
    hide DoRelease, Destroyed;
  }

  lemma FreeRelease(h: FreeHistory, q: Queue, x: Surface)
    requires Valid(q) && FreeInOrder(h, q)
    ensures FreeInOrder(RecordFree(h, q, Release(x)), DoRelease(q, x).q)
  {
    ReleaseCases(q, x);
    RecordRelease(h, q, x);
    LogNone();
    var r := GetNode(q, x);
    hide DoRelease, UsesOf, DeleteLog, GetNode, Valid, Destroyed, Detach, RecordFree, Surfaces;
    if DoRelease(q, x).err == Success {
      if q.size < q.attached {
        DeleteLogEffect(q.freeCb, r.node);
      } else {
        EnterNewest(h, q, r.node);
      }
    }
  }

  /** The oldest `k` free surfaces leave. */
  lemma LeaveOldest(h: FreeHistory, q: Queue, k: nat)
    requires FreeInOrder(h, q) && k <= |q.free|
    ensures h.entered == (h.left + Surfaces(q.free[..k])) + Surfaces(q.free[k..])
  {
    assert q.free == q.free[..k] + q.free[k..];
    SurfacesConcat(q.free[..k], q.free[k..]);
    hide Surfaces;
  }

  lemma RecordSetSize(h: FreeHistory, q: Queue, size: int, flush: bool)
    ensures var r := RecordFree(h, q, SetSize(size, flush));
            if size > 0 && flush then r == FreeHistory([], [])
            else r == h.(left := h.left + Destroyed(DoSetSize(q, size, flush).log))
  {
    hide DoSetSize, Destroyed;
  }

  lemma SetSizeFree(q: Queue, size: int, flush: bool)
    requires Valid(q)
    ensures var o := DoSetSize(q, size, flush);
            if size > 0 && flush then o.q.free == []
            else
              exists k :: 0 <= k <= |q.free| && o.q.free == q.free[k..] && Destroyed(o.log) == Surfaces(q.free[..k])
  {
    SetSizeExactly(q, size, flush);
    LogNone();
    NoneLeft();
    if 0 < size < q.size && !flush {
      ShrinkExactly(q, size);
    } else {
      assert q.free[0..] == q.free && q.free[..0] == [];
    }
    hide Valid, DoSetSize, Destroyed, Surfaces;
  }

  lemma FreeShrink(h: FreeHistory, q: Queue, size: int, flush: bool)
    requires Valid(q) && FreeInOrder(h, q)
    ensures FreeInOrder(RecordFree(h, q, SetSize(size, flush)), DoSetSize(q, size, flush).q)
  {
    hide Valid, DoSetSize, Destroyed, Surfaces, RecordFree;
    RecordSetSize(h, q, size, flush);
    SetSizeFree(q, size, flush);
    NoneLeft();
    if size <= 0 || !flush {
      var o := DoSetSize(q, size, flush);
      var k :| 0 <= k <= |q.free| && o.q.free == q.free[k..] && Destroyed(o.log) == Surfaces(q.free[..k]);
      LeaveOldest(h, q, k);
    }
  }

  lemma FreeOther(h: FreeHistory, q: Queue, call: Call)
    requires Valid(q) && FreeInOrder(h, q)
    requires call.Enqueue? || call.Acquire? || call.Reset? || call.Flush? || call.SetAllocCb?
    ensures FreeInOrder(RecordFree(h, q, call), Step(q, call).q)
  {
    assert h.entered + [] == h.entered;
    if call.Enqueue? {
      EnqueueCapacity(q, call.surface);
      var r := GetNode(q, call.surface);
      assert Step(q, call).log == [];
    }
  }

  lemma FreeStep(h: FreeHistory, q: Queue, call: Call)
    requires Valid(q) && FreeInOrder(h, q)
    ensures FreeInOrder(RecordFree(h, q, call), Step(q, call).q)
  {
    hide Valid, FreeInOrder, RecordFree;
    match call
    case Dequeue(alloc) => FreeDequeue(h, q, alloc);
    case CanDequeue(alloc) => FreeRefill(h, q, alloc);
    case Release(x) => FreeRelease(h, q, x);
    case SetSize(size, flush) => FreeShrink(h, q, size, flush);
    case _ => FreeOther(h, q, call);
  }

  /** Over every run, since the last clear: free surfaces are dequeued, and given up by a shrink,
      in the order in which they were attached or recycled. */
  lemma {:induction false} FreeFifo(h: FreeHistory, q: Queue, calls: seq<Call>)
    requires Valid(q) && AdmissibleRun(q, calls) && FreeInOrder(h, q)
    ensures FreeInOrder(RunFree(h, q, calls), Run(q, calls))
    decreases calls
  {
    if calls != [] {
      hide Valid, FreeInOrder, RecordFree, Admissible;
      FreeStep(h, q, calls[0]);
      StepValid(q, calls[0]);
      FreeFifo(RecordFree(h, q, calls[0]), Step(q, calls[0]).q, calls[1..]);
    }
  }
}
