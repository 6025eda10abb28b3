/** The surface queue of src/tbm_surface_queue.c as a state machine on values: one function
    per API call, each taken as one atomic step under both mutexes. */
module QueueSpec {
  import opened Common

  type Surface = nat

  const NULL_SURFACE: Surface := 0

  datatype NodeType = TypeNone | TypeDequeue | TypeEnqueue | TypeAcquire | TypeRelease

  datatype Impl = Default | Sequence

  datatype Error =
    | Success
    | InvalidQueue
    | InvalidSurface
    | InvalidParameter
    | AlreadyExist
    | UnknownSurface

  /** One `queue_node`: `serial` stands for its address. */
  datatype Node = Node(serial: nat, surface: Surface)

  /** `list` is every attached node in attach order; `pending` is the sequence queue's
      `dequeue_list`; `marked` is the set of nodes whose `priv_flags` is 1. */
  datatype Queue = Queue(
    impl: Impl,
    width: int,
    height: int,
    format: int,
    size: int,
    attached: int,
    allocCb: bool,
    freeCb: bool,
    free: seq<Node>,
    dirty: seq<Node>,
    list: seq<Node>,
    pending: seq<Node>,
    kind: map<Node, NodeType>,
    marked: set<Node>)

  /** What the queue asks of the surface module and of its callbacks, in order. */
  datatype SurfaceCall =
    | CreateSurface(surface: Surface)
    | AllocCallback(surface: Surface)
    | RefSurface(surface: Surface)
    | UnrefSurface(surface: Surface)
    | FreeCallback(surface: Surface)
    | DestroySurface(surface: Surface)

  datatype Outcome = Outcome(q: Queue, err: Error, node: Option<Node>, log: seq<SurfaceCall>)

  datatype Place = InFree | InDirty | InList

  datatype Lookup = NotFound | Found(node: Node, place: Place)

  datatype Call =
    | Enqueue(surface: Surface)
    | Dequeue(alloc: Option<Node>)
    | CanDequeue(alloc: Option<Node>)
    | Acquire
    | Release(surface: Surface)
    | SetSize(size: int, flush: bool)
    | Reset(width: int, height: int, format: int)
    | Flush
    | SetAllocCb(allocCb: bool, freeCb: bool)

  function NewQueue(impl: Impl, size: int, width: int, height: int, format: int): Queue {
    Queue(impl, width, height, format, size, 0, false, false, [], [], [], [], map[], {})
  }

  function Create(impl: Impl, size: int, width: int, height: int, format: int): Option<Queue> {
    if size > 0 && width > 0 && height > 0 && format > 0 then
      Some(NewQueue(impl, size, width, height, format))
    else
      None
  }

  // ----- looking a node up -----

  /** The first node of `s` carrying surface `x`. */
  function FindIn(s: seq<Node>, x: Surface): (r: Option<Node>)
    ensures r.None? ==> forall n :: n in s ==> n.surface != x
    ensures r.Some? ==> r.value in s && r.value.surface == x
  {
    if s == [] then None
    else if s[0].surface == x then Some(s[0])
    else FindIn(s[1..], x)
  }

  function GetNode(q: Queue, x: Surface): (r: Lookup)
    ensures r.NotFound? ==> forall n :: n in q.free + q.dirty + q.list ==> n.surface != x
    ensures r.Found? ==> r.node.surface == x
    ensures r.Found? && r.place.InList? ==>
              r.node in q.list && forall n :: n in q.free + q.dirty ==> n.surface != x
  {
    match FindIn(q.free, x)
    case Some(n) => Found(n, InFree)
    case None =>
      match FindIn(q.dirty, x)
      case Some(n) => Found(n, InDirty)
      case None =>
        match FindIn(q.list, x)
        case Some(n) => Found(n, InList)
        case None => NotFound
  }

  // ----- attaching and detaching -----

  function Attach(q: Queue, n: Node): Queue {
    q.(list := q.list + [n], attached := q.attached + 1, free := q.free + [n],
       kind := q.kind[n := TypeNone])
  }

  function AttachLog(q: Queue, x: Surface): seq<SurfaceCall> {
    if q.allocCb then
      [AllocCallback(x), RefSurface(x), RefSurface(x), UnrefSurface(x)]
    else
      [CreateSurface(x), RefSurface(x), UnrefSurface(x)]
  }

  function NeedAttach(q: Queue, alloc: Option<Node>): (Queue, seq<SurfaceCall>) {
    if q.size == q.attached || alloc.None? then (q, [])
    else (Attach(q, alloc.value), AttachLog(q, alloc.value.surface))
  }

  /** The free queue is consulted, and refilled by `need_attach` when it is empty. */
  function Refill(q: Queue, alloc: Option<Node>): (Queue, seq<SurfaceCall>) {
    if q.free == [] then NeedAttach(q, alloc) else (q, [])
  }

  function DeleteLog(freeCb: bool, n: Node): seq<SurfaceCall> {
    (if freeCb then [FreeCallback(n.surface)] else []) + [DestroySurface(n.surface)]
  }

  /** The node leaves `list` and whichever queue it is in. */
  function Detach(q: Queue, n: Node): Queue {
    q.(list := Without(q.list, n), attached := q.attached - 1,
       free := Without(q.free, n), dirty := Without(q.dirty, n), pending := Without(q.pending, n),
       kind := q.kind - {n}, marked := q.marked - {n})
  }

  function Min(a: nat, b: nat): nat {
    if a < b then a else b
  }

  /** The first `d` free nodes, or all of them when there are fewer. */
  function FirstFree(q: Queue, d: nat): seq<Node> {
    q.free[..Min(d, |q.free|)]
  }

  /** Detaches them one by one from the front of the free queue. */
  function DetachFree(q: Queue, d: nat): Queue
    decreases d
  {
    if d == 0 || q.free == [] then q else DetachFree(Detach(q, q.free[0]), d - 1)
  }

  function DeleteAllLog(freeCb: bool, s: seq<Node>): seq<SurfaceCall> {
    if s == [] then [] else DeleteLog(freeCb, s[0]) + DeleteAllLog(freeCb, s[1..])
  }

  /** Every node is deleted and every list reinitialised. */
  function Clear(q: Queue): Queue {
    q.(free := [], dirty := [], list := [], pending := [], attached := 0, kind := map[], marked := {})
  }

  // ----- the API calls -----

  /** Moves the unmarked prefix of `pending` to the end of `dirty`. */
  function Deliver(q: Queue): Queue
    decreases |q.pending|
  {
    if q.pending == [] || q.pending[0] in q.marked then q
    else Deliver(q.(pending := q.pending[1..], dirty := q.dirty + [q.pending[0]]))
  }

  function ImplEnqueue(q: Queue, n: Node): Queue {
    match q.impl
    case Default => q.(dirty := q.dirty + [n])
    case Sequence => Deliver(q.(marked := q.marked - {n}))
  }

  function DoEnqueue(q: Queue, x: Surface): Outcome {
    if x == NULL_SURFACE then Outcome(q, InvalidSurface, None, [])
    else
      match GetNode(q, x)
      case Found(n, InList) =>
        var q1 := ImplEnqueue(q, n);
        if q1.dirty == [] then Outcome(q1, UnknownSurface, None, [])
        else Outcome(q1.(kind := q1.kind[n := TypeEnqueue]), Success, Some(n), [])
      case _ => Outcome(q, AlreadyExist, None, [])
  }

  /** Takes the first free node out; the sequence queue also records it as pending. */
  function ImplDequeue(q: Queue): Queue
    requires q.free != []
  {
    var n := q.free[0];
    match q.impl
    case Default => q.(free := q.free[1..])
    case Sequence => q.(free := q.free[1..], pending := q.pending + [n], marked := q.marked + {n})
  }

  function DoDequeue(q: Queue, alloc: Option<Node>): Outcome {
    var (q1, log) := Refill(q, alloc);
    if q1.free == [] then Outcome(q1, InvalidQueue, None, log)
    else
      var n := q1.free[0];
      var q2 := ImplDequeue(q1);
      Outcome(q2.(kind := q2.kind[n := TypeDequeue]), Success, Some(n), log)
  }

  function DoAcquire(q: Queue): Outcome {
    if q.dirty == [] then Outcome(q, InvalidQueue, None, [])
    else
      var n := q.dirty[0];
      Outcome(q.(dirty := q.dirty[1..], kind := q.kind[n := TypeAcquire]), Success, Some(n), [])
  }

  function DoRelease(q: Queue, x: Surface): Outcome {
    if x == NULL_SURFACE then Outcome(q, InvalidSurface, None, [])
    else
      match GetNode(q, x)
      case Found(n, InList) =>
        if q.size < q.attached then
          Outcome(Detach(q, n), Success, Some(n), DeleteLog(q.freeCb, n))
        else
          Outcome(q.(free := q.free + [n], kind := q.kind[n := TypeRelease]), Success, Some(n), [])
      case _ => Outcome(q, InvalidSurface, None, [])
  }

  function DoSetSize(q: Queue, size: int, flush: bool): Outcome {
    if size <= 0 then Outcome(q, InvalidParameter, None, [])
    else if q.size == size && !flush then Outcome(q, Success, None, [])
    else if flush then Outcome(Clear(q).(size := size), Success, None, DeleteAllLog(q.freeCb, q.list))
    else
      var d := if q.size > size then q.size - size else 0;
      Outcome(DetachFree(q, d).(size := size), Success, None, DeleteAllLog(q.freeCb, FirstFree(q, d)))
  }

  function DoReset(q: Queue, width: int, height: int, format: int): Outcome {
    if width == q.width && height == q.height && format == q.format then
      Outcome(q, Success, None, [])
    else
      Outcome(Clear(q).(width := width, height := height, format := format), Success, None,
              DeleteAllLog(q.freeCb, q.list))
  }

  function DoFlush(q: Queue): Outcome {
    if q.attached == 0 then Outcome(q, Success, None, [])
    else Outcome(Clear(q), Success, None, DeleteAllLog(q.freeCb, q.list))
  }

  function Step(q: Queue, call: Call): Outcome {
    match call
    case Enqueue(x) => DoEnqueue(q, x)
    case Dequeue(alloc) => DoDequeue(q, alloc)
    case CanDequeue(alloc) =>
      var (q1, log) := Refill(q, alloc);
      Outcome(q1, if q1.free != [] then Success else InvalidQueue, None, log)
    case Acquire => DoAcquire(q)
    case Release(x) => DoRelease(q, x)
    case SetSize(size, flush) => DoSetSize(q, size, flush)
    case Reset(width, height, format) => DoReset(q, width, height, format)
    case Flush => DoFlush(q)
    case SetAllocCb(a, f) => Outcome(q.(allocCb := a, freeCb := f), Success, None, [])
  }

  /** A node allocated by a call is a new one and carries a surface. */
  predicate Fresh(q: Queue, call: Call) {
    match call
    case Dequeue(Some(n)) => n !in q.list && n.surface != NULL_SURFACE
    case CanDequeue(Some(n)) => n !in q.list && n.surface != NULL_SURFACE
    case _ => true
  }

  predicate FreshRun(q: Queue, calls: seq<Call>)
    decreases calls
  {
    calls == [] || (Fresh(q, calls[0]) && FreshRun(Step(q, calls[0]).q, calls[1..]))
  }

  function Run(q: Queue, calls: seq<Call>): Queue
    decreases calls
  {
    if calls == [] then q else Run(Step(q, calls[0]).q, calls[1..])
  }

  /** The calls that drop every attached surface. */
  predicate Clears(q: Queue, call: Call) {
    match call
    case Flush => q.attached != 0
    case Reset(w, h, f) => !(w == q.width && h == q.height && f == q.format)
    case SetSize(size, flush) => size > 0 && flush
    case _ => false
  }
}
