/** The globals of the library in place. Each method is proved against the function or call of
    LifetimeSpec; the API methods keep the invariant of Lifetime. */
module Managers {
  import opened Common
  import opened LifetimeSpec
  import opened Lifetime
  import opened Ownership

  class Manager {
    var live: bool
    var refCount: int
    var boList: seq<BoId>
    var bos: map<BoId, BoCell>
    var boCnt: int
    var surfList: seq<SurfId>
    var surfs: map<SurfId, SurfCell>
    var queueList: seq<QueueId>
    var surfaceMgr: bool
    var queueMgr: bool
    ghost var clients: nat
    ghost var held: multiset<BoId>
    ghost var surfHeld: multiset<SurfId>
    ghost var uncounted: nat
    ghost var turns: int

    ghost function State(): Tbm
      reads this
    {
      Tbm(live, refCount, boList, bos, boCnt, surfList, surfs, queueList, surfaceMgr, queueMgr,
          clients, held, surfHeld, uncounted, turns)
    }

    /** Every listed bo and surface has a cell. */
    ghost predicate Cells()
      reads this
    {
      && Distinct(boList) && (forall b :: b in boList ==> b in bos)
      && Distinct(surfList) && (forall s :: s in surfList ==> s in surfs)
    }

    constructor ()
      ensures State() == START && Inv(State())
    {
      hide Inv;
      StartInv();
      live, refCount, surfList, surfs, queueList := false, 0, [], map[], [];
      surfaceMgr, queueMgr, clients, surfHeld := false, false, 0, multiset{};
      new;
      NoBos();
    }

    // ----- the manager -----

    method NoBos()
      modifies this`boList, this`bos, this`boCnt, this`held, this`uncounted, this`turns
      ensures State() == old(State()).(boList := [], bos := map[], boCnt := 0,
                                       held := multiset{}, uncounted := 0, turns := 0)
    {
      boList, bos, boCnt, held, uncounted, turns := [], map[], 0, multiset{}, 0, 0;
    }

    method InitManager()
      requires Cells()
      modifies this
      ensures State() == Init(old(State())) && Cells()
    {
      if live {
        refCount := refCount + 1;
      } else {
        live, refCount, surfList, queueList := true, 1, [], [];
        NoBos();
      }
    }

    /** Bos left over are unreferenced one by one. */
    method FreeBos()
      requires Cells()
      modifies this`boList, this`bos, this`boCnt, this`turns
      ensures boList == [] && Cells()
    {
      while boList != []
        invariant Cells()
        decreases |boList|
      {
        var b := boList[0];
        bos := bos[b := bos[b].(refCnt := 1)];
        UnrefBo(b);
      }
    }

    method DeinitManager()
      requires Cells()
      modifies this
      ensures State() == Deinit(old(State())) && Cells()
    {
      if live {
        refCount := refCount - 1;
        if refCount <= 0 {
          FreeBos();
          NoBos();
          live := false;
        }
      }
    }

    method EnterSurfaces()
      requires Cells()
      modifies this
      ensures State() == EnterSurface(old(State())) && Cells()
    {
      if !surfaceMgr {
        InitManager();
        surfaceMgr := true;
        surfList := [];
      }
    }

    method LeaveSurfaces()
      requires Cells()
      modifies this
      ensures State() == LeaveSurface(old(State())) && Cells()
    {
      if surfaceMgr {
        DeinitManager();
        surfaceMgr := false;
      }
    }

    // ----- buffer objects -----

    /** `_tbm_bo_is_valid`: a walk over the list. */
    method BoIsValid(b: BoId) returns (r: bool)
      ensures r <==> b in boList
    {
      var i := 0;
      while i < |boList|
        invariant 0 <= i <= |boList| && b !in boList[..i]
      {
        if boList[i] == b {
          return true;
        }
        i := i + 1;
      }
      return false;
    }

    method NewBo(b: BoId, p: Priv, counted: bool)
      requires Cells() && b !in boList
      modifies this`boList, this`bos, this`boCnt, this`uncounted, this`turns
      ensures State() == AddBo(old(State()), b, p, counted) && Cells()
    {
      DistinctPrepend(b, boList);
      if counted {
        turns := if boCnt == UINT_RANGE - 1 then turns + 1 else turns;
        boCnt := if boCnt == UINT_RANGE - 1 then 0 else boCnt + 1;
      } else {
        uncounted := uncounted + 1;
      }
      bos := bos[b := BoCell(1, p)];
      boList := [b] + boList;
    }

    method ReferBo(b: BoId)
      requires Cells()
      modifies this`bos
      ensures State() == RefBo(old(State()), b) && Cells()
    {
      var valid := BoIsValid(b);
      if valid {
        bos := bos[b := bos[b].(refCnt := bos[b].refCnt + 1)];
      }
    }

    method UnrefBo(b: BoId)
      requires Cells()
      modifies this`boList, this`bos, this`boCnt, this`turns
      ensures State() == DropBo(old(State()), b) && Cells()
    {
      var valid := BoIsValid(b);
      if valid && bos[b].refCnt > 0 {
        var r := bos[b].refCnt - 1;
        if r == 0 {
          UnlistBo(b);
        } else {
          bos := bos[b := bos[b].(refCnt := r)];
        }
      }
    }

    method UnlistBo(b: BoId)
      requires Cells()
      modifies this`boList, this`bos, this`boCnt, this`turns
      ensures State() == RemoveBo(old(State()), b) && Cells()
    {
      WithoutDistinct(boList, b);
      boList := Without(boList, b);
      bos := bos - {b};
      turns := if boCnt == 0 then turns - 1 else turns;
      boCnt := if boCnt == 0 then UINT_RANGE - 1 else boCnt - 1;
    }

    /** The search of both imports. */
    method FindByPriv(p: Priv) returns (r: Option<BoId>)
      requires Cells()
      ensures r == FindPriv(bos, boList, p)
    {
      var i := 0;
      while i < |boList|
        invariant 0 <= i <= |boList|
        invariant FindPriv(bos, boList, p) == FindPriv(bos, boList[i..], p)
      {
        if bos[boList[i]].priv == p {
          return Some(boList[i]);
        }
        i := i + 1;
      }
      return None;
    }

    method UnrefBos(bs: seq<BoId>)
      requires Cells()
      modifies this`boList, this`bos, this`boCnt, this`turns
      ensures State() == DropBos(old(State()), bs) && Cells()
    {
      var i := 0;
      while i < |bs|
        invariant 0 <= i <= |bs| && Cells()
        invariant DropBos(State(), bs[i..]) == DropBos(old(State()), bs)
      {
        UnrefBo(bs[i]);
        i := i + 1;
      }
    }

    // ----- clients -----

    /** `tbm_bufmgr_init`. */
    method ClientInit()
      requires Inv(State())
      modifies this
      ensures Inv(State()) && State() == Step(old(State()), Call.ClientInit)
    {
      StepKeeps(State(), Call.ClientInit);
      InvCells();
      hide Inv;
      InitManager();
      clients := clients + 1;
    }

    /** `tbm_bufmgr_deinit`, by a client that has initialised the manager. */
    method ClientDeinit()
      requires Inv(State()) && Admissible(State(), Call.ClientDeinit)
      modifies this
      ensures Inv(State()) && State() == Step(old(State()), Call.ClientDeinit)
    {
      StepKeeps(State(), Call.ClientDeinit);
      InvCells();
      hide Inv, Cells, Deinit;
      DeinitManager();
      DropClient();
    }

    ghost method DropClient()
      requires clients > 0
      modifies this`clients
      ensures State() == old(State()).(clients := old(clients) - 1)
    {
      clients := clients - 1;
    }

    // ----- the bo API -----

    method BoRef(b: BoId)
      requires Inv(State())
      modifies this
      ensures Inv(State()) && State() == Step(old(State()), Call.BoRef(b))
    {
      StepKeeps(State(), Call.BoRef(b));
      InvCells();
      hide Inv;
      var valid := BoIsValid(b);
      if valid {
        ReferBo(b);
        held := held + multiset{b};
      }
    }

    method BoAlloc(b: BoId, p: Option<Priv>) returns (r: Option<BoId>)
      requires Inv(State()) && Admissible(State(), Call.BoAlloc(b, p))
      modifies this
      ensures Inv(State()) && State() == Step(old(State()), Call.BoAlloc(b, p))
      ensures r == if old(live) && p.Some? then Some(b) else None
    {
      StepKeeps(State(), Call.BoAlloc(b, p));
      InvCells();
      hide Inv, Admissible;
      r := None;
      if live && p.Some? {
        NewBo(b, p.value, true);
        held := held + multiset{b};
        r := Some(b);
      }
    }

    /** Importing by key or fd: `b` is the object the call allocates first and frees again when
        the backend data is already known. */
    method BoImport(b: BoId, p: Option<Priv>) returns (r: Option<BoId>)
      requires Inv(State()) && Admissible(State(), Call.BoImport(b, p))
      modifies this
      ensures Inv(State()) && State() == Step(old(State()), Call.BoImport(b, p))
      ensures r == if old(live) && p.Some? then Some(Known(old(State()), b, p.value)) else None
    {
      hide Known;
      if p.Some? {
        ImportKnown(State(), b, p.value);
      }
      StepKeeps(State(), Call.BoImport(b, p));
      InvCells();
      hide Inv, Admissible;
      r := None;
      if live && p.Some? {
        var known := FindByPriv(p.value);
        if known.Some? {
          r := known;
          ReferBo(known.value);
        } else {
          r := Some(b);
          NewBo(b, p.value, true);
        }
        held := held + multiset{r.value};
      }
    }

    method BoSwap(b: BoId, c: BoId, sameSize: bool) returns (ok: bool)
      requires Inv(State())
      modifies this
      ensures Inv(State()) && State() == Step(old(State()), Call.BoSwap(b, c, sameSize))
      ensures ok <==> b in boList && c in boList && sameSize
    {
      StepKeeps(State(), Call.BoSwap(b, c, sameSize));
      InvCells();
      hide Inv;
      ok := BoIsValid(b);
      if ok {
        ok := BoIsValid(c);
      }
      ok := ok && sameSize;
      if ok {
        var temp := bos[b].priv;
        bos := bos[b := bos[b].(priv := bos[c].priv)];
        bos := bos[c := bos[c].(priv := temp)];
      }
    }

    method BoUnref(b: BoId)
      requires Inv(State()) && Admissible(State(), Call.BoUnref(b))
      modifies this
      ensures Inv(State()) && State() == Step(old(State()), Call.BoUnref(b))
    {
      StepKeeps(State(), Call.BoUnref(b));
      InvCells();
      HeldListed(State(), b);
      hide Inv;
      UnrefBo(b);
      held := held - multiset{b};
    }

    lemma InvCells()
      requires Inv(State())
      ensures Cells() && bos.Keys == Elems(boList) && surfs.Keys == Elems(surfList)
    {
    }

    // ----- the surface API -----

    /** `tbm_surface_internal_create_with_flags`: bos are allocated until one fails. */
    method SurfaceCreate(s: SurfId, allocs: seq<Alloc>, counted: bool) returns (ok: bool)
      requires Inv(State()) && Admissible(State(), SurfCreate(s, allocs, counted))
      modifies this
      ensures Inv(State()) && (State(), ok) == CreateSurface(old(State()), s, allocs, counted)
      ensures ok <==> AllSome(allocs)
    {
      hide Created, AllSome, Undo, AddSurface;
      CreateExactly(State(), s, allocs, counted);
      StepKeeps(State(), SurfCreate(s, allocs, counted));
      InvCells();
      EnterSurfaceKeeps(State());
      hide Inv, SurfacesListed;
      ghost var m := State();
      var initialized := !surfaceMgr;
      EnterSurfaces();
      var ids := AllocateBos(allocs, counted);
      ok := |ids| == |allocs|;
      FinishCreate(m, initialized, s, ids, ok);
    }

    /** The end of a creation. */
    method FinishCreate(ghost m: Tbm, initialized: bool, s: SurfId, ids: seq<BoId>, ok: bool)
      requires Cells() && s !in surfList && initialized == !m.surfaceMgr
      modifies this
      ensures State() == Finish(m, old(State()), s, ids, ok)
    {
      if ok {
        ListSurface(s, ids);
      } else {
        UndoCreate(initialized, ids);
      }
    }

    method ListSurface(s: SurfId, ids: seq<BoId>)
      requires Cells() && s !in surfList
      modifies this`surfList, this`surfs, this`surfHeld
      ensures State() == AddSurface(old(State()), s, ids) && Cells()
    {
      DistinctPrepend(s, surfList);
      surfs := surfs[s := SurfCell(1, ids)];
      surfList := [s] + surfList;
      surfHeld := surfHeld + multiset{s};
    }

    method UndoCreate(initialized: bool, ids: seq<BoId>)
      requires Cells()
      modifies this
      ensures Cells()
      ensures State() == (if initialized then LeaveSurface(DropBos(old(State()), ids)) else DropBos(old(State()), ids))
    {
      UnrefBos(ids);
      if initialized {
        LeaveSurfaces();
      }
    }

    method AllocateBos(allocs: seq<Alloc>, counted: bool) returns (ids: seq<BoId>)
      requires Cells() && FreshAllocs(bos, allocs)
      modifies this`boList, this`bos, this`boCnt, this`uncounted, this`turns
      ensures State() == AllocBos(old(State()), allocs, counted) && ids == AllocIds(allocs) && Cells()
    {
      hide AllocBos, AllocIds, FreshAllocs;
      ids := [];
      assert allocs[0..] == allocs && [] + AllocIds(allocs) == AllocIds(allocs);
      while |ids| < |allocs| && allocs[|ids|].Some?
        invariant |ids| <= |allocs| && Cells() && FreshAllocs(bos, allocs[|ids|..])
        invariant AllocBos(State(), allocs[|ids|..], counted) == AllocBos(old(State()), allocs, counted)
        invariant ids + AllocIds(allocs[|ids|..]) == AllocIds(allocs)
        decreases |allocs| - |ids|
      {
        var (b, p) := allocs[|ids|].value;
        AllocStep(State(), allocs, ids, counted);
        NewBo(b, p, counted);
        ids := ids + [b];
      }
      AllocEnd(State(), allocs[|ids|..], ids, counted);
    }

    /** `tbm_surface_internal_create_with_bos`: references are taken up to the first null bo. */
    method SurfaceCreateWithBos(s: SurfId, given: seq<Option<BoId>>) returns (ok: bool)
      requires Inv(State()) && Admissible(State(), SurfCreateBos(s, given))
      modifies this
      ensures Inv(State()) && (State(), ok) == CreateWithBos(old(State()), s, given)
      ensures ok <==> AllSome(given)
    {
      hide Created, AllSome, Undo, AddSurface;
      CreateWithBosExactly(State(), s, given);
      StepKeeps(State(), SurfCreateBos(s, given));
      InvCells();
      EnterSurfaceKeeps(State());
      hide Inv, SurfacesListed;
      ghost var m := State();
      var initialized := !surfaceMgr;
      EnterSurfaces();
      var ids := ReferGiven(given);
      ok := |ids| == |given|;
      FinishCreate(m, initialized, s, ids, ok);
    }

    method ReferGiven(given: seq<Option<BoId>>) returns (ids: seq<BoId>)
      requires Cells()
      modifies this`bos
      ensures State() == RefBos(old(State()), Prefix(given)) && ids == Prefix(given) && Cells()
    {
      ids := [];
      while |ids| < |given| && given[|ids|].Some?
        invariant |ids| <= |given| && Cells()
        invariant RefBos(State(), Prefix(given[|ids|..])) == RefBos(old(State()), Prefix(given))
        invariant ids + Prefix(given[|ids|..]) == Prefix(given)
        decreases |given| - |ids|
      {
        var b := given[|ids|].value;
        PrefixStep(given, |ids|);
        assert (ids + [b]) + Prefix(given[|ids| + 1..]) == ids + Prefix(given[|ids|..]);
        ReferBo(b);
        ids := ids + [b];
      }
      assert ids + [] == ids;
    }

    method SurfaceRef(s: SurfId)
      requires Inv(State())
      modifies this
      ensures Inv(State()) && State() == Step(old(State()), SurfRef(s))
    {
      StepKeeps(State(), SurfRef(s));
      InvCells();
      hide Inv, Cells;
      if surfaceMgr && s in surfList {
        SetCount(s, surfs[s].refCnt + 1, surfHeld + multiset{s});
      }
    }

    method SetCount(s: SurfId, refCnt: int, ghost owners: multiset<SurfId>)
      requires s in surfs
      modifies this`surfs, this`surfHeld
      ensures State() == SetSurfRef(old(State()), s, refCnt).(surfHeld := owners)
    {
      surfs := surfs[s := surfs[s].(refCnt := refCnt)];
      surfHeld := owners;
    }

    /** `tbm_surface_internal_unref` and `tbm_surface_internal_destroy`. */
    method SurfaceUnref(s: SurfId)
      requires Inv(State())
      modifies this
      ensures Inv(State()) && State() == Step(old(State()), SurfUnref(s))
      ensures s in surfList <==> old(surfHeld)[s] > 1
    {
      DropSurfaceKeeps(State(), s);
      UnrefListed(State(), s);
      InvCells();
      hide Inv, DestroySurface, Cells;
      if surfaceMgr && s in surfList {
        if surfs[s].refCnt == 1 {
          SurfaceDestroy(s);
        } else {
          SetCount(s, surfs[s].refCnt - 1, surfHeld - multiset{s});
        }
      }
    }

    /** The bos go first, then the surface, then the manager when it was the last surface. */
    method SurfaceDestroy(s: SurfId)
      requires Cells() && s in surfs
      modifies this
      ensures State() == DestroySurface(old(State()), s)
    {
      UnrefBos(surfs[s].bos);
      UnlistSurface(s);
      if surfList == [] {
        LeaveSurfaces();
      }
    }

    method UnlistSurface(s: SurfId)
      requires Cells()
      modifies this`surfList, this`surfs, this`surfHeld
      ensures State() == old(State()).(surfList := Without(old(surfList), s), surfs := old(surfs) - {s},
                                       surfHeld := old(surfHeld) - multiset{s})
      ensures Cells()
    {
      WithoutDistinct(surfList, s);
      surfList := Without(surfList, s);
      surfs := surfs - {s};
      surfHeld := surfHeld - multiset{s};
    }

    method SurfaceQueryFormats(ok: bool)
      requires Inv(State())
      modifies this
      ensures Inv(State()) && State() == Step(old(State()), QueryFormats(ok))
    {
      hide Inv, Init, Deinit;
      StepKeeps(State(), QueryFormats(ok));
      InvCells();
      var initialized := !surfaceMgr;
      EnterSurfaces();
      if !ok && initialized {
        LeaveSurfaces();
      }
    }

    // ----- the queue API -----

    method EnterQueues()
      requires Cells()
      modifies this
      ensures State() == EnterQueue(old(State())) && Cells()
    {
      if !queueMgr {
        InitManager();
        queueMgr := true;
      }
    }

    method QueueCreate(q: QueueId)
      requires Inv(State())
      modifies this
      ensures Inv(State()) && State() == Step(old(State()), Call.QueueCreate(q))
    {
      StepKeeps(State(), Call.QueueCreate(q));
      InvCells();
      hide Inv, EnterQueue, Cells;
      EnterQueues();
      ListQueue(q);
    }

    method ListQueue(q: QueueId)
      modifies this`queueList
      ensures State() == old(State()).(queueList := [q] + old(queueList))
    {
      queueList := [q] + queueList;
    }

    /** The queue leaves the list, gives its surfaces back, and releases the manager when it was
        the last queue. */
    method QueueDestroy(q: QueueId, attached: seq<SurfId>)
      requires Inv(State())
      modifies this
      ensures Inv(State()) && State() == Step(old(State()), Call.QueueDestroy(q, attached))
    {
      hide Inv, Deinit, DropSurfaces;
      StepKeeps(State(), Call.QueueDestroy(q, attached));
      if queueMgr && q in queueList {
        SetQueuesKeeps(State(), Without(queueList, q));
        queueList := Without(queueList, q);
        SurfacesUnref(attached);
        InvCells();
        if queueList == [] {
          DeinitManager();
          queueMgr := false;
        }
      }
    }

    method SurfacesUnref(xs: seq<SurfId>)
      requires Inv(State())
      modifies this
      ensures Inv(State()) && State() == DropSurfaces(old(State()), xs)
      ensures queueMgr == old(queueMgr)
    {
      hide Inv;
      var i := 0;
      while i < |xs|
        invariant 0 <= i <= |xs| && Inv(State()) && queueMgr == old(queueMgr)
        invariant DropSurfaces(State(), xs[i..]) == DropSurfaces(old(State()), xs)
      {
        DropKeepsQueueMgr(State(), xs[i]);
        SurfaceUnref(xs[i]);
        i := i + 1;
      }
    }
  }

  lemma AllocStep(m: Tbm, allocs: seq<Alloc>, ids: seq<BoId>, counted: bool)
    requires |ids| < |allocs| && allocs[|ids|].Some? && FreshAllocs(m.bos, allocs[|ids|..])
    ensures var (b, p) := allocs[|ids|].value;
            var rest := allocs[|ids| + 1..];
            && b !in m.bos
            && FreshAllocs(AddBo(m, b, p, counted).bos, rest)
            && AllocBos(AddBo(m, b, p, counted), rest, counted) == AllocBos(m, allocs[|ids|..], counted)
            && (ids + [b]) + AllocIds(rest) == ids + AllocIds(allocs[|ids|..])
  {
    var todo := allocs[|ids|..];
    assert todo[1..] == allocs[|ids| + 1..];
    var b := todo[0].value.0;
    assert (ids + [b]) + AllocIds(todo[1..]) == ids + ([b] + AllocIds(todo[1..]));
  }

  lemma AllocEnd(m: Tbm, rest: seq<Alloc>, ids: seq<BoId>, counted: bool)
    requires rest == [] || rest[0].None?
    ensures AllocBos(m, rest, counted) == m && ids + AllocIds(rest) == ids
  {
    assert ids + [] == ids;
  }

  lemma PrefixStep<T>(s: seq<Option<T>>, i: nat)
    requires i < |s| && s[i].Some?
    ensures Prefix(s[i..]) == [s[i].value] + Prefix(s[i + 1..]) && Prefix(s[i..])[1..] == Prefix(s[i + 1..])
  {
    assert s[i..][1..] == s[i + 1..];
  }

  lemma {:induction false} DropBosKeepsQueueMgr(m: Tbm, bs: seq<BoId>)
    ensures DropBos(m, bs).queueMgr == m.queueMgr
    decreases bs
  {
    if bs != [] {
      DropBosKeepsQueueMgr(DropBo(m, bs[0]), bs[1..]);
    }
  }

  lemma DropKeepsQueueMgr(m: Tbm, s: SurfId)
    ensures DropSurface(m, s).queueMgr == m.queueMgr
  {
    if s in m.surfs {
      DropBosKeepsQueueMgr(m, m.surfs[s].bos);
    }
  }
}
