/** With an allocation callback `need_attach` drops both locks while it asks for a surface, and
    does not look at its guard again. Here such a call is two steps, with any calls between. */
module QueueRace {
  import opened Common
  import opened QueueSpec
  import opened QueueInvariants
  import opened QueueCapacity

  /** A queue, and how many threads are inside the allocation callback. */
  datatype Race = Race(q: Queue, asking: nat)

  /** A thread passes the guard and starts the callback; a thread comes back from it, with a
      node or none, and takes a free node if it is dequeuing; or a call runs in one step. */
  datatype Event =
    | Ask
    | Answer(made: Option<Node>, dequeuing: bool)
    | Whole(call: Call)

  ghost predicate Possible(r: Race, e: Event) {
    match e
    case Ask => r.q.allocCb && r.q.free == [] && r.q.size != r.q.attached
    case Answer(made, _) => r.asking > 0 && Fresh(r.q, Dequeue(made))
    case Whole(call) =>
      Admissible(r.q, call) &&
      (r.q.allocCb && (call.Dequeue? || call.CanDequeue?) ==> r.q.free != [] || r.q.size == r.q.attached)
  }

  function Take(q: Queue): Queue {
    if q.free == [] then q
    else var n, q1 := q.free[0], ImplDequeue(q); q1.(kind := q1.kind[n := TypeDequeue])
  }

  function Next(r: Race, e: Event): Race {
    match e
    case Ask => r.(asking := r.asking + 1)
    case Answer(made, dequeuing) =>
      var q1 := if made.Some? then Attach(r.q, made.value) else r.q;
      Race(if dequeuing then Take(q1) else q1, if r.asking > 0 then r.asking - 1 else 0)
    case Whole(call) => r.(q := Step(r.q, call).q)
  }

  function RaceRun(r: Race, es: seq<Event>): Race
    decreases es
  {
    if es == [] then r else RaceRun(Next(r, es[0]), es[1..])
  }

  ghost predicate PossibleRun(r: Race, es: seq<Event>)
    decreases es
  {
    es == [] || (Possible(r, es[0]) && PossibleRun(Next(r, es[0]), es[1..]))
  }

  /** A call made in one piece is asking and answering with nothing between. */
  lemma AskAnswerIsDequeue(r: Race, made: Option<Node>)
    requires Possible(r, Ask)
    ensures RaceRun(r, [Ask, Answer(made, true)]) == r.(q := DoDequeue(r.q, made).q)
    ensures RaceRun(r, [Ask, Answer(made, false)]) == r.(q := Step(r.q, CanDequeue(made)).q)
  {
    forall d: bool ensures RaceRun(r, [Ask, Answer(made, d)]) == Next(Next(r, Ask), Answer(made, d)) {
      var es := [Ask, Answer(made, d)];
      assert es[1..] == [Answer(made, d)];
      assert RaceRun(Next(r, Ask), es[1..]) == RaceRun(Next(Next(r, Ask), Answer(made, d)), []);
    }
  }

  lemma NextValid(r: Race, e: Event)
    requires Valid(r.q) && Possible(r, e)
    ensures Valid(Next(r, e).q)
  {
    match e
    case Ask =>
    case Answer(made, dequeuing) =>
      if made.Some? {
      }
      var q1 := if made.Some? then Attach(r.q, made.value) else r.q;
      if dequeuing && q1.free != [] {
        TakeFreeValid(q1);
      }
    case Whole(call) => StepValid(r.q, call);
  }

  /** Enough room for the surfaces attached and for those being allocated. */
  ghost predicate Room(r: Race) {
    r.q.attached + r.asking <= r.q.size
  }

  predicate Attaches(q: Queue, made: Option<Node>) {
    made.Some? && q.free == [] && q.size != q.attached
  }

  /** The guard passes though the threads in the callback will already fill the queue; or the
      queue is shrunk below what is attached and being allocated. */
  predicate Overruns(r: Race, e: Event) {
    match e
    case Ask => r.q.attached + r.asking == r.q.size
    case Whole(Dequeue(made)) => Attaches(r.q, made) && r.q.attached + r.asking == r.q.size
    case Whole(CanDequeue(made)) => Attaches(r.q, made) && r.q.attached + r.asking == r.q.size
    case Whole(SetSize(size, flush)) =>
      0 < size < r.q.size &&
      (if flush then 0 else r.q.attached - Min(r.q.size - size, |r.q.free|)) + r.asking > size
    case _ => false
  }

  lemma RoomExactly(r: Race, e: Event)
    requires Valid(r.q) && Possible(r, e) && Room(r)
    ensures Room(Next(r, e)) <==> !Overruns(r, e)
  {
    match e
    case Whole(Enqueue(x)) => EnqueueCapacity(r.q, x);
    case Whole(SetSize(size, flush)) =>
      if 0 < size < r.q.size && !flush {
        DetachFreeEffect(r.q, r.q.size - size);
      }
    case _ =>
  }

  ghost predicate NeverOverruns(r: Race, es: seq<Event>)
    decreases es
  {
    es == [] || (!Overruns(r, es[0]) && NeverOverruns(Next(r, es[0]), es[1..]))
  }

  /** However calls interleave, the queue stays well formed, and within capacity as long as no
      thread asks when those already asking will fill it. */
  lemma {:induction false} RaceKeeps(r: Race, es: seq<Event>)
    requires Valid(r.q) && PossibleRun(r, es)
    ensures Valid(RaceRun(r, es).q)
    ensures Room(r) && NeverOverruns(r, es) ==> Room(RaceRun(r, es)) && WithinCapacity(RaceRun(r, es).q)
    decreases es
  {
    if es != [] {
      NextValid(r, es[0]);
      if Room(r) {
        RoomExactly(r, es[0]);
      }
      RaceKeeps(Next(r, es[0]), es[1..]);
    }
  }

  // ----- how far the race goes -----

  function Asks(k: nat): (es: seq<Event>)
    ensures |es| == k
  {
    if k == 0 then [] else [Ask] + Asks(k - 1)
  }

  function Answers(made: seq<Node>): (es: seq<Event>)
    ensures |es| == |made|
  {
    if made == [] then [] else [Answer(Some(made[0]), true)] + Answers(made[1..])
  }

  lemma {:induction false} AsksRun(r: Race, k: nat)
    requires Possible(r, Ask)
    ensures PossibleRun(r, Asks(k)) && RaceRun(r, Asks(k)) == r.(asking := r.asking + k)
    decreases k
  {
    if k > 0 {
      assert Asks(k)[1..] == Asks(k - 1);
      AsksRun(Next(r, Ask), k - 1);
    }
  }

  lemma {:induction false} AnswersRun(r: Race, made: seq<Node>)
    requires Valid(r.q) && r.q.free == [] && r.asking >= |made| && Distinct(made)
    requires forall n :: n in made ==> n !in r.q.list && n.surface != NULL_SURFACE
    ensures var t := RaceRun(r, Answers(made));
            && PossibleRun(r, Answers(made))
            && t.asking == r.asking - |made|
            && t.q.attached == r.q.attached + |made| && t.q.size == r.q.size && t.q.free == []
    decreases made
  {
    if made != [] {
      var e := Answer(Some(made[0]), true);
      assert Answers(made)[0] == e && Answers(made)[1..] == Answers(made[1..]);
      NextValid(r, e);
      DistinctTail(made);
      assert Next(r, e).q.list == r.q.list + [made[0]];
      AnswersRun(Next(r, e), made[1..]);
    }
  }

  /** Any number of threads can pass the guard together, as long as it passes once; all their
      surfaces are attached, so capacity holds exactly when there was room for all of them. */
  lemma RaceOvershoots(q: Queue, made: seq<Node>)
    requires Valid(q) && Possible(Race(q, 0), Ask) && Distinct(made)
    requires forall n :: n in made ==> n !in q.list && n.surface != NULL_SURFACE
    ensures var r := RaceRun(Race(q, 0), Asks(|made|));
            var t := RaceRun(r, Answers(made));
            && PossibleRun(Race(q, 0), Asks(|made|)) && PossibleRun(r, Answers(made))
            && t.asking == 0
            && t.q.attached == q.attached + |made|
            && (WithinCapacity(t.q) <==> |made| <= q.size - q.attached)
  {
    AsksRun(Race(q, 0), |made|);
    AnswersRun(Race(q, |made|), made);
  }
}
