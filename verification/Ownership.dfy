/** What each call does to the references its callers own. Together with the invariant, which ties
    every count to its owners, this fixes what is alive. */
module Ownership {
  import opened Common
  import opened LifetimeSpec
  import opened Lifetime

  // ----- the owners after a call -----

  ghost predicate Succeeds(call: Call) {
    match call
    case SurfCreate(_, allocs, _) => AllSome(allocs)
    case SurfCreateBos(_, given) => AllSome(given)
    case _ => false
  }

  /** The bo an import resolves to: the live one with that backend data, or a new one. */
  ghost function Known(m: Tbm, b: BoId, p: Priv): BoId {
    if c :| c in m.bos && m.bos[c].priv == p then c else b
  }

  ghost function ClientsAfter(m: Tbm, call: Call): int {
    match call
    case ClientInit => m.clients + 1
    case ClientDeinit => m.clients - 1
    case _ => m.clients
  }

  ghost function HeldAfter(m: Tbm, call: Call): multiset<BoId> {
    match call
    case BoAlloc(b, Some(p)) => if m.live then m.held + multiset{b} else m.held
    case BoImport(b, Some(p)) => if m.live then m.held + multiset{Known(m, b, p)} else m.held
    case BoRef(b) => if b in m.boList then m.held + multiset{b} else m.held
    case BoUnref(b) => m.held - multiset{b}
    case _ => m.held
  }

  ghost function SurfHeldAfter(m: Tbm, call: Call): multiset<SurfId> {
    match call
    case SurfCreate(s, _, _) => if Succeeds(call) then m.surfHeld + multiset{s} else m.surfHeld
    case SurfCreateBos(s, _) => if Succeeds(call) then m.surfHeld + multiset{s} else m.surfHeld
    case SurfRef(s) => if s in m.surfList then m.surfHeld + multiset{s} else m.surfHeld
    case SurfUnref(s) => m.surfHeld - multiset{s}
    case QueueDestroy(q, attached) =>
      if q in m.queueList then m.surfHeld - multiset(attached) else m.surfHeld
    case _ => m.surfHeld
  }

  ghost function QueuesAfter(m: Tbm, call: Call): seq<QueueId> {
    match call
    case QueueCreate(q) => [q] + m.queueList
    case QueueDestroy(q, _) => Without(m.queueList, q)
    case _ => m.queueList
  }

  /** The surface side holds the manager from its first use until its last surface goes. */
  ghost predicate SurfaceMgrAfter(m: Tbm, call: Call, r: Tbm) {
    match call
    case SurfCreate(_, _, _) => m.surfaceMgr || Succeeds(call)
    case SurfCreateBos(_, _) => m.surfaceMgr || Succeeds(call)
    case QueryFormats(ok) => m.surfaceMgr || ok
    case _ => m.surfaceMgr && (r.surfList != [] || m.surfList == [])
  }

  /** The queue side holds it from the first queue until the last. */
  ghost predicate QueueMgrAfter(m: Tbm, call: Call) {
    match call
    case QueueCreate(_) => true
    case QueueDestroy(q, _) => m.queueMgr && (q in m.queueList ==> QueuesAfter(m, call) != [])
    case _ => m.queueMgr
  }

  /** The bos that `bo_cnt` never counted. */
  ghost function UncountedAfter(m: Tbm, call: Call): int {
    match call
    case SurfCreate(_, allocs, false) => m.uncounted + |AllocIds(allocs)|
    case _ => m.uncounted
  }

  ghost predicate Owners(m: Tbm, call: Call, r: Tbm) {
    && r.clients == ClientsAfter(m, call)
    && (r.live ==> r.held == HeldAfter(m, call) && r.uncounted == UncountedAfter(m, call))
    && r.surfHeld == SurfHeldAfter(m, call)
    && r.queueList == QueuesAfter(m, call)
    && (r.surfaceMgr <==> SurfaceMgrAfter(m, call, r))
    && (r.queueMgr <==> QueueMgrAfter(m, call))
  }

  // ----- dropping surfaces -----

  ghost predicate Dropped(m: Tbm, r: Tbm, gone: multiset<SurfId>) {
    && r.surfHeld == m.surfHeld - gone
    && r.clients == m.clients && r.queueMgr == m.queueMgr && r.queueList == m.queueList
    && (r.live ==> m.live && r.held == m.held && r.uncounted == m.uncounted)
    && (m.surfList == [] ==> r.surfList == [])
    && (r.surfaceMgr <==> m.surfaceMgr && (r.surfList != [] || m.surfList == []))
  }

  lemma DestroyDropped(m: Tbm, s: SurfId)
    requires Inv(m) && s in m.surfs && m.surfList != [] && m.surfaceMgr && m.live
    ensures Dropped(m, DestroySurface(m, s), multiset{s})
  {
    DropBosOthers(m, m.surfs[s].bos);
    hide Inv, DropBos, Without;
  }

  lemma DroppedNone(m: Tbm, s: SurfId)
    requires m.surfHeld[s] == 0 && (m.surfList != [] ==> m.surfaceMgr)
    ensures Dropped(m, m, multiset{s})
  {
    assert m.surfHeld - multiset{s} == m.surfHeld;
  }

  lemma DroppedOne(m: Tbm, s: SurfId)
    requires s in m.surfs && m.surfList != [] && m.surfaceMgr && m.live
    ensures Dropped(m, SetSurfRef(m, s, m.surfs[s].refCnt - 1).(surfHeld := m.surfHeld - multiset{s}), multiset{s})
  {
  }

  lemma ValidExactly(m: Tbm, s: SurfId)
    requires Inv(m)
    ensures SurfaceIsValid(m, s) <==> m.surfHeld[s] > 0
    ensures SurfaceIsValid(m, s) <==> s in m.surfList
  {
    SurfHolders(m, s);
  }

  lemma DropDropped(m: Tbm, s: SurfId)
    requires Inv(m)
    ensures Dropped(m, DropSurface(m, s), multiset{s})
  {
    hide Inv, DestroySurface, Dropped;
    ValidExactly(m, s);
    SurfacesNeedManager(m);
    if !SurfaceIsValid(m, s) {
      DroppedNone(m, s);
    } else if m.surfs[s].refCnt == 1 {
      DestroyDropped(m, s);
    } else {
      DroppedOne(m, s);
    }
  }

  lemma DroppedTrans(m: Tbm, m1: Tbm, r: Tbm, a: multiset<SurfId>, b: multiset<SurfId>)
    requires Dropped(m, m1, a) && Dropped(m1, r, b) && (r.surfList != [] ==> r.surfaceMgr)
    ensures Dropped(m, r, a + b)
  {
    assert m.surfHeld - (a + b) == (m.surfHeld - a) - b;
  }

  lemma {:induction false} DropAllDropped(m: Tbm, xs: seq<SurfId>)
    requires Inv(m)
    ensures Dropped(m, DropSurfaces(m, xs), multiset(xs))
    decreases xs
  {
    hide Inv, Dropped, DropSurface;
    SurfacesNeedManager(m);
    if xs == [] {
      DroppedNothing(m);
    } else {
      var m1 := DropSurface(m, xs[0]);
      DropSurfaceKeeps(m, xs[0]);
      DropDropped(m, xs[0]);
      DropAllDropped(m1, xs[1..]);
      DropSurfacesKeeps(m1, xs[1..]);
      SurfacesNeedManager(DropSurfaces(m1, xs[1..]));
      DroppedTrans(m, m1, DropSurfaces(m1, xs[1..]), multiset{xs[0]}, multiset(xs[1..]));
      assert xs == [xs[0]] + xs[1..];
      assert multiset(xs) == multiset{xs[0]} + multiset(xs[1..]);
    }
  }

  lemma DroppedNothing(m: Tbm)
    requires m.surfList != [] ==> m.surfaceMgr
    ensures Dropped(m, m, multiset([]))
  {
    assert m.surfHeld - multiset([]) == m.surfHeld;
  }

  // ----- creating surfaces -----

  ghost predicate OnlyAlloc(m: Tbm, r: Tbm, n: nat) {
    && r == m.(boList := r.boList, bos := r.bos, boCnt := r.boCnt, uncounted := r.uncounted, turns := r.turns)
    && r.uncounted == m.uncounted + n
  }

  lemma AddBoOthers(m: Tbm, b: BoId, p: Priv, counted: bool)
    ensures OnlyAlloc(m, AddBo(m, b, p, counted), if counted then 0 else 1)
  {
  }

  lemma {:induction false} AllocOthers(m: Tbm, allocs: seq<Alloc>, counted: bool)
    ensures OnlyAlloc(m, AllocBos(m, allocs, counted), if counted then 0 else |AllocIds(allocs)|)
    decreases allocs
  {
    hide AddBo;
    if allocs != [] && allocs[0].Some? {
      var (b, p) := allocs[0].value;
      AddBoOthers(m, b, p, counted);
      AllocOthers(AddBo(m, b, p, counted), allocs[1..], counted);
    }
  }

  lemma {:induction false} RefOthers(m: Tbm, bs: seq<BoId>)
    ensures var r := RefBos(m, bs); r == m.(bos := r.bos)
    decreases bs
  {
    if bs != [] {
      RefOthers(RefBo(m, bs[0]), bs[1..]);
    }
  }

  /** All allocations succeed exactly when as many bos come out, which are then the ones asked
      for, in slot order. */
  lemma {:induction false} AllocIdsExactly(allocs: seq<Alloc>)
    ensures var ids := AllocIds(allocs);
            && |ids| <= |allocs|
            && (|ids| == |allocs| <==> AllSome(allocs))
            && forall i :: 0 <= i < |ids| ==> allocs[i].Some? && ids[i] == allocs[i].value.0
    decreases allocs
  {
    if allocs != [] {
      AllSomeFirst(allocs);
      hide AllSome;
      AllocIdsExactly(allocs[1..]);
      var ids := AllocIds(allocs);
      forall i | 0 <= i < |ids| ensures allocs[i].Some? && ids[i] == allocs[i].value.0 {
        assert i > 0 ==> allocs[i] == allocs[1..][i - 1];
      }
    }
  }

  lemma AllSomeFirst<T>(s: seq<Option<T>>)
    requires s != []
    ensures AllSome(s) <==> s[0].Some? && AllSome(s[1..])
  {
    if s[0].Some? && AllSome(s[1..]) {
      forall i | 0 <= i < |s| ensures s[i].Some? {
        assert i > 0 ==> s[i] == s[1..][i - 1];
      }
    }
  }

  lemma {:induction false} PrefixExactly(given: seq<Option<BoId>>)
    ensures var ids := Prefix(given);
            && |ids| <= |given|
            && (|ids| == |given| <==> AllSome(given))
            && forall i :: 0 <= i < |ids| ==> given[i] == Some(ids[i])
    decreases given
  {
    if given != [] {
      AllSomeFirst(given);
      hide AllSome;
      PrefixExactly(given[1..]);
      var ids := Prefix(given);
      forall i | 0 <= i < |ids| ensures given[i] == Some(ids[i]) {
        assert i > 0 ==> given[i] == given[1..][i - 1];
      }
    }
  }

  /** The end of a creation: the surface is listed, or everything is given back. */
  function Finish(m0: Tbm, m: Tbm, s: SurfId, ids: seq<BoId>, ok: bool): Tbm {
    if ok then AddSurface(m, s, ids) else Undo(m0, m, ids)
  }

  ghost predicate Created(m: Tbm, r: Tbm, s: SurfId, ok: bool, uncounted: int) {
    && r.clients == m.clients && (r.live ==> r.held == m.held && r.uncounted == uncounted)
    && r.surfHeld == (if ok then m.surfHeld + multiset{s} else m.surfHeld)
    && r.queueList == m.queueList && r.queueMgr == m.queueMgr
    && (r.surfaceMgr <==> m.surfaceMgr || ok)
  }

  lemma FinishCreated(m: Tbm, m1: Tbm, s: SurfId, ids: seq<BoId>, ok: bool)
    requires m1.clients == m.clients && m1.held == m.held && m1.surfHeld == m.surfHeld
    requires m1.queueList == m.queueList && m1.queueMgr == m.queueMgr && m1.surfaceMgr
    ensures Created(m, Finish(m, m1, s, ids, ok), s, ok, m1.uncounted)
  {
    DropBosOthers(m1, ids);
    hide DropBos;
  }

  lemma EnterOwners(m: Tbm)
    requires Inv(m)
    ensures var r := EnterSurface(m);
            && r.clients == m.clients && r.held == m.held && r.surfHeld == m.surfHeld
            && r.queueList == m.queueList && r.queueMgr == m.queueMgr && r.surfaceMgr && r.live
            && r.uncounted == m.uncounted && r.surfs == m.surfs && r.bos == m.bos
  {
    EnterSurfaceKeeps(m);
  }

  /** A creation succeeds exactly when every bo is there. */
  lemma CreateExactly(m: Tbm, s: SurfId, allocs: seq<Alloc>, counted: bool)
    requires Inv(m)
    ensures var (r, ok) := CreateSurface(m, s, allocs, counted);
            && (ok <==> AllSome(allocs))
            && Created(m, r, s, ok, m.uncounted + (if counted then 0 else |AllocIds(allocs)|))
  {
    hide Inv, AllocBos, EnterSurface, AllocIds, Created, AllSome, Undo, AddSurface;
    EnterOwners(m);
    AllocOthers(EnterSurface(m), allocs, counted);
    AllocIdsExactly(allocs);
    var ids := AllocIds(allocs);
    FinishCreated(m, AllocBos(EnterSurface(m), allocs, counted), s, ids, |ids| == |allocs|);
  }

  lemma CreateWithBosExactly(m: Tbm, s: SurfId, given: seq<Option<BoId>>)
    requires Inv(m)
    ensures var (r, ok) := CreateWithBos(m, s, given);
            (ok <==> AllSome(given)) && Created(m, r, s, ok, m.uncounted)
  {
    hide Inv, RefBos, EnterSurface, Prefix, Created, AllSome, Undo, AddSurface;
    EnterOwners(m);
    PrefixExactly(given);
    var ids := Prefix(given);
    RefOthers(EnterSurface(m), ids);
    FinishCreated(m, RefBos(EnterSurface(m), ids), s, ids, |ids| == |given|);
  }

  // ----- every call -----

  lemma ImportKnown(m: Tbm, b: BoId, p: Priv)
    requires Inv(m)
    ensures Import(m, b, p).1 == Known(m, b, p)
  {
    var found := FindPriv(m.bos, m.boList, p);
    if c :| c in m.bos && m.bos[c].priv == p {
      assert c in m.boList && found.Some?;
    }
  }

  /** Equal but for bos. */
  ghost predicate OnlyBos(m: Tbm, r: Tbm) {
    && r.live == m.live && r.clients == m.clients && r.surfHeld == m.surfHeld
    && r.queueList == m.queueList && r.surfList == m.surfList
    && r.surfaceMgr == m.surfaceMgr && r.queueMgr == m.queueMgr
    && r.uncounted == m.uncounted
  }

  lemma ListedBo(m: Tbm, b: BoId)
    requires Inv(m)
    ensures b in m.boList <==> b in m.bos && m.bos[b].refCnt > 0
    ensures b in m.boList <==> b in m.bos
  {
  }

  lemma AddBoOnly(m: Tbm, b: BoId, p: Priv)
    ensures OnlyBos(m, AddBo(m, b, p, true)) && AddBo(m, b, p, true).held == m.held
  {
  }

  lemma RefBoOnly(m: Tbm, b: BoId)
    ensures OnlyBos(m, RefBo(m, b)) && RefBo(m, b).held == m.held
  {
  }

  lemma DropBoOnly(m: Tbm, b: BoId)
    ensures OnlyBos(m, DropBo(m, b)) && DropBo(m, b).held == m.held
  {
    hide Without;
  }

  lemma SwapOnly(m: Tbm, b: BoId, c: BoId)
    requires b in m.bos && c in m.bos
    ensures OnlyBos(m, Swap(m, b, c)) && Swap(m, b, c).held == m.held
  {
  }

  lemma BoStep(m: Tbm, call: Call)
    requires Inv(m) && Admissible(m, call)
    requires call.BoAlloc? || call.BoImport? || call.BoRef? || call.BoUnref? || call.BoSwap?
    ensures OnlyBos(m, Step(m, call)) && Step(m, call).held == HeldAfter(m, call)
  {
    hide Inv, AddBo, RefBo, DropBo, Swap, Known;
    match call
    case BoAlloc(b, p) =>
      if p.Some? {
        AddBoOnly(m, b, p.value);
      }
    case BoImport(b, p) =>
      if p.Some? {
        AddBoOnly(m, b, p.value);
        RefBoOnly(m, Import(m, b, p.value).1);
        ImportKnown(m, b, p.value);
      }
    case BoRef(b) => RefBoOnly(m, b);
    case BoUnref(b) =>
      HeldListed(m, b);
      DropBoOnly(m, b);
    case BoSwap(b, c, _) =>
      if b in m.bos && c in m.bos {
        SwapOnly(m, b, c);
      }
  }

  lemma BoOwners(m: Tbm, call: Call)
    requires Inv(m) && Admissible(m, call)
    requires call.BoAlloc? || call.BoImport? || call.BoRef? || call.BoUnref? || call.BoSwap?
    ensures Owners(m, call, Step(m, call))
  {
    hide Inv, Admissible, HeldAfter, Step;
    BoStep(m, call);
    SurfacesNeedManager(m);
  }

  lemma ClientOwners(m: Tbm, call: Call)
    requires Inv(m) && Admissible(m, call) && (call.ClientInit? || call.ClientDeinit?)
    ensures Owners(m, call, Step(m, call))
  {
    SurfacesNeedManager(m);
    InitOwners(m);
    ClientsLive(m);
    hide Inv;
  }

  lemma InitOwners(m: Tbm)
    requires Inv(m)
    ensures var r := Init(m);
            && r.clients == m.clients && r.held == m.held && r.surfHeld == m.surfHeld
            && r.queueList == m.queueList && r.surfList == m.surfList
            && r.surfaceMgr == m.surfaceMgr && r.queueMgr == m.queueMgr && r.uncounted == m.uncounted
  {
  }

  lemma ClientsLive(m: Tbm)
    requires Inv(m)
    ensures m.clients > 0 ==> m.live
  {
  }

  lemma QueryOwners(m: Tbm, ok: bool)
    requires Inv(m)
    ensures Owners(m, QueryFormats(ok), Step(m, QueryFormats(ok)))
  {
    SurfacesNeedManager(m);
    EnterOwners(m);
    hide Inv, EnterSurface;
  }

  lemma QueueCreateOwners(m: Tbm, q: QueueId)
    requires Inv(m)
    ensures Owners(m, QueueCreate(q), Step(m, QueueCreate(q)))
  {
    SurfacesNeedManager(m);
    InitOwners(m);
    hide Inv, Init;
  }

  lemma QueueDestroyOwners(m: Tbm, q: QueueId, attached: seq<SurfId>)
    requires Inv(m)
    ensures Owners(m, QueueDestroy(q, attached), Step(m, QueueDestroy(q, attached)))
  {
    hide Inv, DropSurfaces, Deinit, Without;
    SurfacesNeedManager(m);
    var call := QueueDestroy(q, attached);
    if q in m.queueList {
      var m0 := m.(queueList := Without(m.queueList, q));
      SetQueuesKeeps(m, Without(m.queueList, q));
      DropAllDropped(m0, attached);
      var m1 := DropSurfaces(m0, attached);
      DeinitOnly(m1);
      assert Step(m, call) == if m1.queueList == [] then LeaveQueue(m1) else m1;
    } else {
      WithoutNone(m.queueList, q);
      assert Step(m, call) == m;
    }
  }

  lemma WithoutNone(s: seq<QueueId>, q: QueueId)
    requires q !in s
    ensures Without(s, q) == s
  {
  }

  lemma DeinitOnly(m: Tbm)
    ensures var r := Deinit(m);
            && r.clients == m.clients && r.surfHeld == m.surfHeld && (r.live ==> m.live && r.held == m.held)
            && r.uncounted == (if r.live then m.uncounted else r.uncounted)
            && r.queueList == m.queueList && r.surfList == m.surfList
            && r.surfaceMgr == m.surfaceMgr && r.queueMgr == m.queueMgr
  {
  }

  lemma CreateOwners(m: Tbm, call: Call)
    requires Inv(m) && (call.SurfCreate? || call.SurfCreateBos?)
    ensures Owners(m, call, Step(m, call))
  {
    hide Inv, CreateSurface, CreateWithBos, AllSome, AllocIds;
    match call
    case SurfCreate(s, allocs, counted) => CreateExactly(m, s, allocs, counted);
    case SurfCreateBos(s, given) => CreateWithBosExactly(m, s, given);
  }

  lemma SurfUnrefOwners(m: Tbm, s: SurfId)
    requires Inv(m)
    ensures Owners(m, SurfUnref(s), Step(m, SurfUnref(s)))
  {
    hide Inv, DropSurface;
    DropDropped(m, s);
  }

  lemma SurfRefOwners(m: Tbm, s: SurfId)
    requires Inv(m)
    ensures Owners(m, SurfRef(s), Step(m, SurfRef(s)))
  {
    hide Inv;
    ValidExactly(m, s);
    SurfacesNeedManager(m);
  }

  /** Who owns what after any call. */
  lemma StepOwners(m: Tbm, call: Call)
    requires Inv(m) && Admissible(m, call)
    ensures Owners(m, call, Step(m, call))
  {
    hide Inv, Owners, Step;
    match call
    case QueueDestroy(q, attached) => QueueDestroyOwners(m, q, attached);
    case ClientInit => ClientOwners(m, call);
    case ClientDeinit => ClientOwners(m, call);
    case QueryFormats(ok) => QueryOwners(m, ok);
    case QueueCreate(q) => QueueCreateOwners(m, q);
    case SurfCreate(_, _, _) => CreateOwners(m, call);
    case SurfCreateBos(_, _) => CreateOwners(m, call);
    case SurfRef(s) => SurfRefOwners(m, s);
    case SurfUnref(s) => SurfUnrefOwners(m, s);
    case _ => BoOwners(m, call);
  }

  /** In every run from the start, the queue side holds the manager exactly while a queue lives. */
  lemma {:induction false} QueueSideExactly(m: Tbm, calls: seq<Call>)
    requires Inv(m) && AdmissibleRun(m, calls) && (m.queueMgr <==> m.queueList != [])
    ensures var r := Run(m, calls); r.queueMgr <==> r.queueList != []
    decreases calls
  {
    hide Inv, Step, Admissible, AdmissibleRun;
    if calls != [] {
      AdmissibleRest(m, calls);
      StepOwners(m, calls[0]);
      StepKeeps(m, calls[0]);
      SurfacesNeedManager(Step(m, calls[0]));
      if calls[0].QueueDestroy? && calls[0].q !in m.queueList {
        WithoutNone(m.queueList, calls[0].q);
      }
      QueueSideExactly(Step(m, calls[0]), calls[1..]);
    }
  }
}
