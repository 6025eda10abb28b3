/** Surface references held by a queue: interpreting the calls a queue makes on the surface
    module, every surface's reference count is what others hold plus the nodes carrying it. */
module QueueRefs {
  import opened Common
  import opened QueueSpec
  import opened QueueInvariants
  import opened QueueCapacity

  /** Live surfaces with their `refcnt`; a surface leaves when its count reaches 0. */
  type Counts = map<Surface, nat>

  function RefOf(rc: Counts, x: Surface): nat {
    if x in rc then rc[x] else 0
  }

  /** `tbm_surface_internal_unref` and `tbm_surface_destroy`: a dead handle is ignored. */
  function Drop(rc: Counts, x: Surface): Counts {
    if x !in rc then rc
    else if rc[x] <= 1 then rc - {x}
    else rc[x := rc[x] - 1]
  }

  /** The references of other owners; a free callback drops one of them for each surface in
      `returned`, the surfaces whose allocation callback kept a reference for it. */
  datatype World = World(rc: Counts, outside: multiset<Surface>)

  function Apply(w: World, c: SurfaceCall, returned: set<Surface>): World {
    match c
    case CreateSurface(x) => w.(rc := w.rc[x := 1])
    case AllocCallback(_) => w
    case RefSurface(x) => if x in w.rc then w.(rc := w.rc[x := w.rc[x] + 1]) else w
    case UnrefSurface(x) => w.(rc := Drop(w.rc, x))
    case DestroySurface(x) => w.(rc := Drop(w.rc, x))
    case FreeCallback(x) =>
      if x in returned && w.outside[x] > 0 then
        World(Drop(w.rc, x), w.outside - multiset{x})
      else w
  }

  function ApplyAll(w: World, log: seq<SurfaceCall>, returned: set<Surface>): World
    decreases log
  {
    if log == [] then w else ApplyAll(Apply(w, log[0], returned), log[1..], returned)
  }

  /** The surfaces carried by the nodes of `s`, with multiplicity. */
  ghost function CarriedBy(s: seq<Node>): multiset<Surface> {
    if s == [] then multiset{} else multiset{s[0].surface} + CarriedBy(s[1..])
  }

  /** Counts are positive, and each is outside references plus carrying nodes. */
  ghost predicate Conserved(w: World, nodes: multiset<Surface>) {
    && (forall x :: x in w.rc ==> w.rc[x] > 0)
    && forall x :: RefOf(w.rc, x) == (w.outside + nodes)[x]
  }

  /** What allocation returns: a surface nobody knows yet when the queue allocates itself, a
      live one when the allocation callback does. */
  predicate AllocOk(w: World, q: Queue, call: Call) {
    match call
    case Dequeue(Some(n)) => if q.allocCb then n.surface in w.rc else n.surface !in w.rc
    case CanDequeue(Some(n)) => if q.allocCb then n.surface in w.rc else n.surface !in w.rc
    case _ => true
  }

  // ----- lemmas -----

  lemma {:induction false} ApplyConcat(w: World, a: seq<SurfaceCall>, b: seq<SurfaceCall>, returned: set<Surface>)
    ensures ApplyAll(w, a + b, returned) == ApplyAll(ApplyAll(w, a, returned), b, returned)
    decreases a
  {
    if a == [] {
      assert a + b == b;
    } else {
      assert (a + b)[0] == a[0] && (a + b)[1..] == a[1..] + b;
      ApplyConcat(Apply(w, a[0], returned), a[1..], b, returned);
    }
  }

  lemma {:induction false} CarriedAppend(s: seq<Node>, n: Node)
    ensures CarriedBy(s + [n]) == CarriedBy(s) + multiset{n.surface}
  {
    if s != [] {
      assert (s + [n])[1..] == s[1..] + [n];
      CarriedAppend(s[1..], n);
    }
  }

  lemma {:induction false} CarriedWithout(s: seq<Node>, n: Node)
    requires n in s
    ensures CarriedBy(s) == CarriedBy(Without(s, n)) + multiset{n.surface}
  {
    if s[0] != n {
      CarriedWithout(s[1..], n);
      assert Without(s, n)[1..] == Without(s[1..], n);
    }
  }

  lemma DropConserved(w: World, x: Surface, nodes: multiset<Surface>)
    requires Conserved(w, nodes + multiset{x})
    ensures Conserved(w.(rc := Drop(w.rc, x)), nodes)
  {
    assert RefOf(w.rc, x) == (w.outside + (nodes + multiset{x}))[x];
    forall y ensures RefOf(Drop(w.rc, x), y) == (w.outside + nodes)[y] {
      assert RefOf(w.rc, y) == (w.outside + (nodes + multiset{x}))[y];
    }
  }

  lemma AttachConserved(w: World, q: Queue, n: Node, returned: set<Surface>)
    requires Conserved(w, CarriedBy(q.list))
    requires if q.allocCb then n.surface in w.rc else n.surface !in w.rc
    ensures Conserved(ApplyAll(w, AttachLog(q, n.surface), returned), CarriedBy(Attach(q, n).list))
  {
    var x := n.surface;
    CarriedAppend(q.list, n);
    var w1 := if q.allocCb then w.(rc := w.rc[x := w.rc[x] + 1]) else w.(rc := w.rc[x := 1]);
    assert RefOf(w.rc, x) == (w.outside + CarriedBy(q.list))[x];
    assert Conserved(w1, CarriedBy(q.list) + multiset{x}) by {
      forall y ensures RefOf(w1.rc, y) == (w1.outside + (CarriedBy(q.list) + multiset{x}))[y] {
        assert RefOf(w.rc, y) == (w.outside + CarriedBy(q.list))[y];
      }
    }
    var w2 := w1.(rc := w1.rc[x := w1.rc[x] + 1]);
    assert w2.(rc := Drop(w2.rc, x)) == w1;
    var log := AttachLog(q, x);
    if q.allocCb {
      assert log[1..] == [RefSurface(x), RefSurface(x), UnrefSurface(x)];
      assert log[1..][1..] == [RefSurface(x), UnrefSurface(x)];
      assert log[1..][1..][1..] == [UnrefSurface(x)];
      assert ApplyAll(w, log, returned) == ApplyAll(w1, [RefSurface(x), UnrefSurface(x)], returned);
    } else {
      assert log[1..] == [RefSurface(x), UnrefSurface(x)];
    }
    assert [RefSurface(x), UnrefSurface(x)][1..] == [UnrefSurface(x)];
    assert ApplyAll(w1, [RefSurface(x), UnrefSurface(x)], returned)
        == ApplyAll(w2, [UnrefSurface(x)], returned) == w1;
  }

  lemma DeleteConserved(w: World, q: Queue, n: Node, nodes: multiset<Surface>, returned: set<Surface>)
    requires Conserved(w, nodes + multiset{n.surface})
    ensures Conserved(ApplyAll(w, DeleteLog(q.freeCb, n), returned), nodes)
  {
    var x := n.surface;
    var w1 := if q.freeCb then Apply(w, FreeCallback(x), returned) else w;
    assert Conserved(w1, nodes + multiset{x}) by {
      if q.freeCb && x in returned && w.outside[x] > 0 {
        var rest := w.outside - multiset{x};
        assert w.outside + (nodes + multiset{x}) == rest + ((nodes + multiset{x}) + multiset{x});
        DropConserved(w.(outside := rest), x, nodes + multiset{x});
      }
    }
    DropConserved(w1, x, nodes);
    var notice := if q.freeCb then [FreeCallback(x)] else [];
    ApplyConcat(w, notice, [DestroySurface(x)], returned);
    assert ApplyAll(w, notice, returned) == w1;
    assert ApplyAll(w1, [DestroySurface(x)], returned) == w1.(rc := Drop(w1.rc, x));
  }

  lemma {:induction false} DeleteAllConserved(w: World, q: Queue, s: seq<Node>, returned: set<Surface>)
    requires Conserved(w, CarriedBy(s))
    ensures Conserved(ApplyAll(w, DeleteAllLog(q.freeCb, s), returned), multiset{})
    decreases s
  {
    if s != [] {
      assert CarriedBy(s) == CarriedBy(s[1..]) + multiset{s[0].surface};
      DeleteConserved(w, q, s[0], CarriedBy(s[1..]), returned);
      ApplyConcat(w, DeleteLog(q.freeCb, s[0]), DeleteAllLog(q.freeCb, s[1..]), returned);
      DeleteAllConserved(ApplyAll(w, DeleteLog(q.freeCb, s[0]), returned), q, s[1..], returned);
    }
  }

  lemma DetachConserved(w: World, q: Queue, n: Node, returned: set<Surface>)
    requires n in q.list && Conserved(w, CarriedBy(q.list))
    ensures Conserved(ApplyAll(w, DeleteLog(q.freeCb, n), returned), CarriedBy(Detach(q, n).list))
  {
    CarriedWithout(q.list, n);
    DeleteConserved(w, q, n, CarriedBy(Without(q.list, n)), returned);
  }

  ghost predicate FreeListed(q: Queue) {
    Distinct(q.free) && forall n :: n in q.free ==> n in q.list
  }

  lemma DetachFreeListed(q: Queue)
    requires FreeListed(q) && q.free != []
    ensures FreeListed(Detach(q, q.free[0]))
  {
    WithoutDistinct(q.free, q.free[0]);
    WithoutElems(q.list, q.free[0]);
  }

  lemma FirstFreeStep(q: Queue, d: nat)
    requires FreeListed(q) && q.free != [] && d > 0
    ensures var n := q.free[0];
            n in q.list && FirstFree(q, d) == [n] + FirstFree(Detach(q, n), d - 1)
  {
    assert Detach(q, q.free[0]).free == q.free[1..];
  }

  lemma {:induction false} DetachFreeConserved(w: World, q: Queue, d: nat, returned: set<Surface>)
    requires FreeListed(q) && Conserved(w, CarriedBy(q.list))
    ensures Conserved(ApplyAll(w, DeleteAllLog(q.freeCb, FirstFree(q, d)), returned),
                      CarriedBy(DetachFree(q, d).list))
    decreases d
  {
    if d > 0 && q.free != [] {
      var n := q.free[0];
      var q1 := Detach(q, n);
      var w1 := ApplyAll(w, DeleteLog(q.freeCb, n), returned);
      var rest := DeleteAllLog(q.freeCb, FirstFree(q1, d - 1));
      FirstFreeStep(q, d);
      DetachFreeListed(q);
      DetachConserved(w, q, n, returned);
      ApplyConcat(w, DeleteLog(q.freeCb, n), rest, returned);
      DetachFreeConserved(w1, q1, d - 1, returned);
    }
  }

  lemma RefillConserved(w: World, q: Queue, alloc: Option<Node>, returned: set<Surface>)
    requires Conserved(w, CarriedBy(q.list)) && AllocOk(w, q, CanDequeue(alloc))
    ensures var (q', log) := Refill(q, alloc);
            Conserved(ApplyAll(w, log, returned), CarriedBy(q'.list))
  {
    if alloc.Some? {
      AttachConserved(w, q, alloc.value, returned);
    }
  }

  /** A release either keeps the attached nodes or detaches the one it found. */
  lemma ReleaseCases(q: Queue, x: Surface)
    ensures var o, r := DoRelease(q, x), GetNode(q, x);
            if r.Found? && r.place == InList && x != NULL_SURFACE && q.size < q.attached then
              r.node in q.list && o.log == DeleteLog(q.freeCb, r.node) && o.q == Detach(q, r.node)
            else
              o.log == [] && o.q.list == q.list
  {
  }

  lemma ReleaseConserved(w: World, q: Queue, x: Surface, returned: set<Surface>)
    requires Conserved(w, CarriedBy(q.list))
    ensures Conserved(ApplyAll(w, DoRelease(q, x).log, returned), CarriedBy(DoRelease(q, x).q.list))
  {
    ReleaseCases(q, x);
    var o, r := DoRelease(q, x), GetNode(q, x);
    if o.log == [] && o.q.list == q.list {
    } else {
      DetachConserved(w, q, r.node, returned);
    }
  }

  lemma EnqueueKeepsList(q: Queue, x: Surface)
    ensures DoEnqueue(q, x).q.list == q.list && DoEnqueue(q, x).log == []
  {
    var r := GetNode(q, x);
    if r.Found? {
      DeliverEffect(q.(marked := q.marked - {r.node}));
    }
  }

  lemma SetSizeConserved(w: World, q: Queue, size: int, flush: bool, returned: set<Surface>)
    requires Shape(q) && Conserved(w, CarriedBy(q.list))
    ensures var o := DoSetSize(q, size, flush);
            Conserved(ApplyAll(w, o.log, returned), CarriedBy(o.q.list))
  {
    DeleteAllConserved(w, q, q.list, returned);
    DetachFreeConserved(w, q, 0, returned);
    if 0 < size < q.size {
      DetachFreeConserved(w, q, q.size - size, returned);
    }
  }

  lemma DequeueRefills(q: Queue, alloc: Option<Node>)
    ensures DoDequeue(q, alloc).q.list == Refill(q, alloc).0.list
    ensures DoDequeue(q, alloc).log == Refill(q, alloc).1
  {
  }

  lemma DequeueConserved(w: World, q: Queue, alloc: Option<Node>, returned: set<Surface>)
    requires Conserved(w, CarriedBy(q.list)) && AllocOk(w, q, CanDequeue(alloc))
    ensures Conserved(ApplyAll(w, DoDequeue(q, alloc).log, returned), CarriedBy(DoDequeue(q, alloc).q.list))
  {
    DequeueRefills(q, alloc);
    RefillConserved(w, q, alloc, returned);
  }

  lemma ClearConserved(w: World, q: Queue, returned: set<Surface>)
    requires Conserved(w, CarriedBy(q.list))
    ensures Conserved(ApplyAll(w, DeleteAllLog(q.freeCb, q.list), returned), CarriedBy(Clear(q).list))
    ensures Conserved(ApplyAll(w, [], returned), CarriedBy(q.list))
  {
    DeleteAllConserved(w, q, q.list, returned);
  }

  lemma StepConserved(w: World, q: Queue, call: Call, returned: set<Surface>)
    requires Shape(q) && Conserved(w, CarriedBy(q.list)) && AllocOk(w, q, call)
    ensures var o := Step(q, call);
            Conserved(ApplyAll(w, o.log, returned), CarriedBy(o.q.list))
  {
    match call
    case Enqueue(x) => EnqueueKeepsList(q, x);
    case Dequeue(alloc) => DequeueConserved(w, q, alloc, returned);
    case CanDequeue(alloc) => RefillConserved(w, q, alloc, returned);
    case Release(x) => ReleaseConserved(w, q, x, returned);
    case SetSize(size, flush) => SetSizeConserved(w, q, size, flush, returned);
    case Reset(_, _, _) => ClearConserved(w, q, returned);
    case Flush => ClearConserved(w, q, returned);
    case _ =>
  }

  /** What other owners do between queue calls. */
  datatype Event =
    | QueueCall(call: Call, returned: set<Surface>)
    | ClientCreate(surface: Surface)
    | ClientRef(surface: Surface)
    | ClientUnref(surface: Surface)

  function StepWorld(w: World, q: Queue, e: Event): (World, Queue) {
    match e
    case QueueCall(call, returned) =>
      var o := Step(q, call); (ApplyAll(w, o.log, returned), o.q)
    case ClientCreate(x) => (World(w.rc[x := 1], w.outside + multiset{x}), q)
    case ClientRef(x) =>
      (if x in w.rc then World(w.rc[x := w.rc[x] + 1], w.outside + multiset{x}) else w, q)
    case ClientUnref(x) => (World(Drop(w.rc, x), w.outside - multiset{x}), q)
  }

  /** Owners create under new handles and give back only references they own. */
  ghost predicate EventOk(w: World, q: Queue, e: Event) {
    match e
    case QueueCall(call, _) => Admissible(q, call) && AllocOk(w, q, call)
    case ClientCreate(x) => x !in w.rc
    case ClientUnref(x) => w.outside[x] > 0
    case ClientRef(_) => true
  }

  ghost predicate EventsOk(w: World, q: Queue, es: seq<Event>)
    decreases es
  {
    es == [] || (EventOk(w, q, es[0]) && var (w', q') := StepWorld(w, q, es[0]); EventsOk(w', q', es[1..]))
  }

  function RunWorld(w: World, q: Queue, es: seq<Event>): (World, Queue)
    decreases es
  {
    if es == [] then (w, q)
    else var (w', q') := StepWorld(w, q, es[0]); RunWorld(w', q', es[1..])
  }

  lemma ClientConserved(w: World, q: Queue, e: Event)
    requires Conserved(w, CarriedBy(q.list)) && EventOk(w, q, e) && !e.QueueCall?
    ensures Conserved(StepWorld(w, q, e).0, CarriedBy(q.list))
  {
    var x := e.surface;
    var nodes := CarriedBy(q.list);
    assert RefOf(w.rc, x) == (w.outside + nodes)[x];
    if e.ClientUnref? {
      var rest := w.outside - multiset{x};
      assert w.outside + nodes == rest + (nodes + multiset{x});
      DropConserved(w.(outside := rest), x, nodes);
    } else {
      var w' := StepWorld(w, q, e).0;
      forall y ensures RefOf(w'.rc, y) == (w'.outside + nodes)[y] {
        assert RefOf(w.rc, y) == (w.outside + nodes)[y];
      }
    }
  }

  /** Over every run of queue calls and client calls, with internal allocation or callbacks,
      each reference count is outside references plus carrying nodes; so an attached surface is
      always alive and a surface dies exactly when its last owner lets go. */
  lemma {:induction false} ReferencesConserved(w: World, q: Queue, es: seq<Event>)
    requires Valid(q) && Conserved(w, CarriedBy(q.list)) && EventsOk(w, q, es)
    ensures var (w', q') := RunWorld(w, q, es);
            && Valid(q')
            && Conserved(w', CarriedBy(q'.list))
            && (forall n :: n in q'.list ==> n.surface in w'.rc)
            && (forall x :: x in w'.rc <==> x in w'.outside || Carried(q'.list, x))
    decreases es
  {
    if es == [] {
      forall x ensures x in CarriedBy(q.list) <==> Carried(q.list, x) {
        CarriedMeans(q.list, x);
      }
      forall x ensures x in w.rc <==> x in w.outside || Carried(q.list, x) {
        assert RefOf(w.rc, x) == (w.outside + CarriedBy(q.list))[x];
      }
    } else {
      var (w', q') := StepWorld(w, q, es[0]);
      match es[0] {
        case QueueCall(call, returned) =>
          StepConserved(w, q, call, returned);
          StepValid(q, call);
        case _ => ClientConserved(w, q, es[0]);
      }
      ReferencesConserved(w', q', es[1..]);
    }
  }

  lemma {:induction false} CarriedMeans(s: seq<Node>, x: Surface)
    ensures x in CarriedBy(s) <==> Carried(s, x)
  {
    if s != [] {
      CarriedMeans(s[1..], x);
      assert Carried(s, x) <==> s[0].surface == x || Carried(s[1..], x) by {
        assert s[0] in s;
        assert forall n :: n in s <==> n == s[0] || n in s[1..];
      }
    }
  }

  /** Destroying the queue gives back every reference it holds and no other. */
  lemma DestroyConserved(w: World, q: Queue, returned: set<Surface>)
    requires Valid(q) && Conserved(w, CarriedBy(q.list))
    ensures var w' := ApplyAll(w, DeleteAllLog(q.freeCb, q.list), returned);
            forall x :: RefOf(w'.rc, x) == w'.outside[x]
  {
    DeleteAllConserved(w, q, q.list, returned);
    var w' := ApplyAll(w, DeleteAllLog(q.freeCb, q.list), returned);
    forall x ensures RefOf(w'.rc, x) == w'.outside[x] {
      assert RefOf(w'.rc, x) == (w'.outside + multiset{})[x];
    }
  }
}
