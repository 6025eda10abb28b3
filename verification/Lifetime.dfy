/** What every run of manager, bo, surface and queue calls keeps. */
module Lifetime {
  import opened Common
  import opened LifetimeSpec

  function One(b: bool): nat {
    if b then 1 else 0
  }

  /** The manager's count is its owners, and nothing outlives it. */
  ghost predicate Owned(m: Tbm) {
    && m.refCount == m.clients + One(m.surfaceMgr) + One(m.queueMgr)
    && (m.live <==> m.refCount > 0)
    && (m.surfList != [] ==> m.surfaceMgr)
    && (m.queueList != [] ==> m.queueMgr)
    && (!m.live ==> m.boList == [] && m.bos == map[] && m.boCnt == 0
                    && m.held == multiset{} && m.uncounted == 0 && m.turns == 0)
  }

  /** Backend data is never shared. */
  ghost predicate Unshared(bos: map<BoId, BoCell>) {
    forall b, c :: b in bos && c in bos && bos[b].priv == bos[c].priv ==> b == c
  }

  /** `bo_cnt` counts the list but for the bos that were never counted, modulo its width. */
  ghost predicate CountsBos(m: Tbm) {
    && 0 <= m.boCnt < UINT_RANGE
    && m.boCnt + m.turns * UINT_RANGE == |m.boList| - m.uncounted
  }

  ghost predicate SurfacesListed(m: Tbm) {
    && Distinct(m.surfList) && m.surfs.Keys == Elems(m.surfList)
    && SurfMatched(m.surfs, m.surfHeld)
  }

  function SurfRefOf(surfs: map<SurfId, SurfCell>, s: SurfId): int {
    if s in surfs then surfs[s].refCnt else 0
  }

  /** Every surface's count is the references its owners hold, and a live surface has an owner. */
  ghost predicate SurfMatched(surfs: map<SurfId, SurfCell>, owners: multiset<SurfId>) {
    && (forall s :: s in surfs ==> surfs[s].refCnt > 0)
    && (forall s :: SurfRefOf(surfs, s) == owners[s])
  }

  /** The lists are the live bos and surfaces. */
  ghost predicate Listed(m: Tbm) {
    && Distinct(m.boList) && m.bos.Keys == Elems(m.boList)
    && SurfacesListed(m)
    && Unshared(m.bos)
    && CountsBos(m)
  }

  /** The bo references surfaces own: one per slot. */
  ghost function Slots(list: seq<SurfId>, surfs: map<SurfId, SurfCell>): multiset<BoId> {
    if list == [] then multiset{}
    else (if list[0] in surfs then multiset(surfs[list[0]].bos) else multiset{}) + Slots(list[1..], surfs)
  }

  function RefOf(bos: map<BoId, BoCell>, b: BoId): int {
    if b in bos then bos[b].refCnt else 0
  }

  /** Every bo's count is the references its owners hold, and a listed bo has an owner. */
  ghost predicate Matched(bos: map<BoId, BoCell>, owners: multiset<BoId>) {
    && (forall b :: b in bos ==> bos[b].refCnt > 0)
    && (forall b :: RefOf(bos, b) == owners[b])
  }

  ghost predicate Inv(m: Tbm) {
    Owned(m) && Listed(m) && Matched(m.bos, m.held + Slots(m.surfList, m.surfs))
  }

  /** Clients give back what they own, new things get new addresses, and the backend allocates
      fresh data. Bo handles given to a surface are live. */
  ghost predicate FreshAllocs(bos: map<BoId, BoCell>, allocs: seq<Alloc>)
    decreases allocs
  {
    allocs == [] || allocs[0].None? ||
    (var (b, p) := allocs[0].value;
     b !in bos && FreshPriv(bos, p) && FreshAllocs(bos[b := BoCell(1, p)], allocs[1..]))
  }

  ghost predicate FreshPriv(bos: map<BoId, BoCell>, p: Priv) {
    forall b :: b in bos ==> bos[b].priv != p
  }

  ghost predicate Admissible(m: Tbm, call: Call) {
    match call
    case ClientDeinit => m.clients > 0
    case BoAlloc(b, Some(p)) => b !in m.bos && FreshPriv(m.bos, p)
    case BoImport(b, _) => b !in m.bos
    case BoUnref(b) => m.held[b] > 0
    case SurfCreate(s, allocs, _) => s !in m.surfs && FreshAllocs(m.bos, allocs)
    case SurfCreateBos(s, given) =>
      s !in m.surfs && forall b :: b in Prefix(given) ==> b in m.bos
    case _ => true
  }

  /** Every call is admissible after those before it. */
  ghost predicate AdmissibleRun(m: Tbm, calls: seq<Call>) {
    forall i :: 0 <= i < |calls| ==> Admissible(Run(m, calls[..i]), calls[i])
  }

  lemma AdmissibleRest(m: Tbm, calls: seq<Call>)
    requires AdmissibleRun(m, calls) && calls != []
    ensures Admissible(m, calls[0]) && AdmissibleRun(Step(m, calls[0]), calls[1..])
  {
    hide Admissible, Step;
    var rest := calls[1..];
    assert calls[..0] == [];
    forall i | 0 <= i < |rest| ensures Admissible(Run(Step(m, calls[0]), rest[..i]), rest[i]) {
      assert calls[..i + 1][0] == calls[0] && calls[..i + 1][1..] == rest[..i];
      assert Run(m, calls[..i + 1]) == Run(Step(m, calls[0]), rest[..i]);
    }
  }

  lemma EmptyInv(m: Tbm)
    requires !m.live && !m.surfaceMgr && !m.queueMgr && m.refCount == m.clients == 0
    requires |m.boList| == |m.surfList| == |m.queueList| == |m.bos| == |m.surfs| == |m.held| == |m.surfHeld| == 0
    requires m.boCnt == m.uncounted == m.turns == 0
    ensures Inv(m)
  {
  }

  lemma StartInv()
    ensures Inv(START)
  {
    hide Inv;
    EmptyInv(START);
  }

  // ----- buffer objects -----

  /** All of the invariant but the owners of the bos. */
  ghost predicate Base(m: Tbm) {
    Owned(m) && Listed(m)
  }

  lemma AddUnshared(bos: map<BoId, BoCell>, b: BoId, p: Priv)
    requires Unshared(bos) && b !in bos && FreshPriv(bos, p)
    ensures Unshared(bos[b := BoCell(1, p)])
  {
  }

  lemma AddBoCounts(m: Tbm, b: BoId, p: Priv, counted: bool)
    requires CountsBos(m)
    ensures CountsBos(AddBo(m, b, p, counted))
  {
  }

  lemma AddBoBase(m: Tbm, b: BoId, p: Priv, counted: bool)
    requires Base(m) && m.live && b !in m.bos && FreshPriv(m.bos, p)
    ensures Base(AddBo(m, b, p, counted))
  {
    hide Unshared, FreshPriv, CountsBos, SurfMatched;
    AddUnshared(m.bos, b, p);
    AddBoCounts(m, b, p, counted);
    var r := AddBo(m, b, p, counted);
    DistinctPrepend(b, m.boList);
    assert Elems(r.boList) == Elems(m.boList) + {b};
  }

  lemma AddBoKeeps(m: Tbm, b: BoId, p: Priv, counted: bool, owners: multiset<BoId>)
    requires Base(m) && m.live && b !in m.bos && FreshPriv(m.bos, p) && Matched(m.bos, owners)
    ensures var r := AddBo(m, b, p, counted); Base(r) && Matched(r.bos, owners + multiset{b})
  {
    AddBoBase(m, b, p, counted);
    AddMatched(m.bos, b, p, owners);
  }

  lemma AddMatched(bos: map<BoId, BoCell>, b: BoId, p: Priv, owners: multiset<BoId>)
    requires Matched(bos, owners) && b !in bos
    ensures Matched(bos[b := BoCell(1, p)], owners + multiset{b})
  {
    assert RefOf(bos, b) == owners[b];
    forall c ensures RefOf(bos[b := BoCell(1, p)], c) == (owners + multiset{b})[c] {
      assert RefOf(bos, c) == owners[c];
    }
  }

  lemma RefBoKeeps(m: Tbm, b: BoId, owners: multiset<BoId>)
    requires Base(m) && b in m.bos && Matched(m.bos, owners)
    ensures var r := RefBo(m, b); Base(r) && Matched(r.bos, owners + multiset{b})
  {
    var r := RefBo(m, b);
    assert r.bos.Keys == m.bos.Keys;
    forall c ensures RefOf(r.bos, c) == (owners + multiset{b})[c] {
      assert RefOf(m.bos, c) == owners[c];
    }
  }

  lemma RemoveBoListed(m: Tbm, b: BoId)
    requires Base(m) && b in m.bos
    ensures Base(RemoveBo(m, b))
  {
    WithoutDistinct(m.boList, b);
    assert Elems(Without(m.boList, b)) == Elems(m.boList) - {b};
  }

  lemma DropMatched(bos: map<BoId, BoCell>, b: BoId, owners: multiset<BoId>)
    requires Matched(bos, owners + multiset{b})
    ensures b in bos && bos[b].refCnt == owners[b] + 1
    ensures bos[b].refCnt == 1 ==> Matched(bos - {b}, owners)
    ensures bos[b].refCnt > 1 ==> Matched(bos[b := bos[b].(refCnt := bos[b].refCnt - 1)], owners)
  {
    assert RefOf(bos, b) == (owners + multiset{b})[b];
    var gone, less := bos - {b}, bos[b := bos[b].(refCnt := bos[b].refCnt - 1)];
    forall c
      ensures bos[b].refCnt == 1 ==> RefOf(gone, c) == owners[c]
      ensures RefOf(less, c) == owners[c]
    {
      assert RefOf(bos, c) == (owners + multiset{b})[c];
    }
  }

  /** A bo leaves the list exactly when its last reference goes. */
  lemma DropBoKeeps(m: Tbm, b: BoId, owners: multiset<BoId>)
    requires Base(m) && Matched(m.bos, owners + multiset{b})
    ensures var r := DropBo(m, b);
            Base(r) && Matched(r.bos, owners) && (b in r.boList <==> owners[b] > 0)
  {
    hide Matched;
    DropMatched(m.bos, b, owners);
    if m.bos[b].refCnt == 1 {
      RemoveBoListed(m, b);
      WithoutDistinct(m.boList, b);
    } else {
      assert DropBo(m, b).bos.Keys == m.bos.Keys;
    }
  }

  lemma SeqHead(bs: seq<BoId>)
    requires bs != []
    ensures multiset(bs) == multiset{bs[0]} + multiset(bs[1..])
  {
    assert bs == [bs[0]] + bs[1..];
  }

  lemma {:induction false} DropBosKeeps(m: Tbm, bs: seq<BoId>, owners: multiset<BoId>)
    requires Base(m) && Matched(m.bos, owners + multiset(bs))
    ensures var r := DropBos(m, bs);
            && Base(r) && Matched(r.bos, owners)
            && r == m.(boList := r.boList, bos := r.bos, boCnt := r.boCnt, turns := r.turns)
    decreases bs
  {
    hide Matched, Base;
    if bs == [] {
      assert owners + multiset(bs) == owners;
    } else {
      SeqHead(bs);
      assert owners + multiset(bs) == (owners + multiset(bs[1..])) + multiset{bs[0]};
      DropBoKeeps(m, bs[0], owners + multiset(bs[1..]));
      DropBosKeeps(DropBo(m, bs[0]), bs[1..], owners);
    }
  }

  lemma {:induction false} RefBosKeeps(m: Tbm, bs: seq<BoId>, owners: multiset<BoId>)
    requires Base(m) && Matched(m.bos, owners) && forall b :: b in bs ==> b in m.bos
    ensures var r := RefBos(m, bs);
            && Base(r) && Matched(r.bos, owners + multiset(bs)) && r.bos.Keys == m.bos.Keys
            && r == m.(bos := r.bos)
    decreases bs
  {
    if bs == [] {
      assert owners + multiset(bs) == owners;
    } else {
      RefBoKeeps(m, bs[0], owners);
      var m1 := RefBo(m, bs[0]);
      assert m1.bos.Keys == m.bos.Keys;
      RefBosKeeps(m1, bs[1..], owners + multiset{bs[0]});
      SeqHead(bs);
      assert owners + multiset(bs) == (owners + multiset{bs[0]}) + multiset(bs[1..]);
    }
  }

  lemma {:induction false} AllocBosKeeps(m: Tbm, allocs: seq<Alloc>, counted: bool, owners: multiset<BoId>)
    requires Base(m) && m.live && Matched(m.bos, owners) && FreshAllocs(m.bos, allocs)
    ensures var r := AllocBos(m, allocs, counted);
            && Base(r) && r.live && Matched(r.bos, owners + multiset(AllocIds(allocs)))
            && r == m.(boList := r.boList, bos := r.bos, boCnt := r.boCnt, uncounted := r.uncounted,
                       turns := r.turns)
    decreases allocs
  {
    hide Base, Matched, FreshPriv;
    if allocs == [] || allocs[0].None? {
      assert owners + multiset(AllocIds(allocs)) == owners;
    } else {
      var (b, p) := allocs[0].value;
      AddBoKeeps(m, b, p, counted, owners);
      AllocBosKeeps(AddBo(m, b, p, counted), allocs[1..], counted, owners + multiset{b});
      SeqHead(AllocIds(allocs));
      assert AllocIds(allocs)[1..] == AllocIds(allocs[1..]);
      assert owners + multiset(AllocIds(allocs)) == (owners + multiset{b}) + multiset(AllocIds(allocs[1..]));
    }
  }

  lemma DropBoOthers(m: Tbm, b: BoId)
    ensures var r := DropBo(m, b);
            r == m.(boList := r.boList, bos := r.bos, boCnt := r.boCnt, turns := r.turns)
  {
    hide Without;
  }

  lemma {:induction false} DropBosOthers(m: Tbm, bs: seq<BoId>)
    ensures var r := DropBos(m, bs);
            r == m.(boList := r.boList, bos := r.bos, boCnt := r.boCnt, turns := r.turns)
    decreases bs
  {
    hide DropBo;
    if bs != [] {
      DropBoOthers(m, bs[0]);
      DropBosOthers(DropBo(m, bs[0]), bs[1..]);
    }
  }

  // ----- the manager -----

  /** Entering the surface side drops no surface: the list it reinitialises was empty. */
  lemma EnterSurfaceKeeps(m: Tbm)
    requires Inv(m)
    ensures var r := EnterSurface(m);
            && Inv(r) && r.live && r.surfaceMgr
            && r.surfList == m.surfList && r.queueList == m.queueList
            && r.bos == m.bos && r.boList == m.boList
  {
  }

  lemma EnterQueueKeeps(m: Tbm)
    requires Inv(m)
    ensures var r := EnterQueue(m);
            && Inv(r) && r.live && r.queueMgr
            && r.surfList == m.surfList && r.queueList == m.queueList
  {
  }

  /** The manager goes only when no surface and no queue is left. */
  lemma LeaveSurfaceKeeps(m: Tbm)
    requires Inv(m) && m.surfList == []
    ensures Inv(LeaveSurface(m))
    ensures LeaveSurface(m).surfList == m.surfList && LeaveSurface(m).queueList == m.queueList
  {
    assert m.surfs.Keys == {};
  }

  lemma LeaveQueueKeeps(m: Tbm)
    requires Inv(m) && m.queueList == []
    ensures Inv(LeaveQueue(m))
    ensures LeaveQueue(m).surfList == m.surfList
  {
    FreedEmpty(m);
  }

  /** When the last owner leaves, there is no surface left to hold a bo. */
  lemma FreedEmpty(m: Tbm)
    requires Inv(m)
    ensures !m.surfaceMgr ==> m.surfs == map[] && Slots(m.surfList, m.surfs) == multiset{}
  {
    if !m.surfaceMgr {
      assert m.surfs.Keys == {};
    }
  }

  // ----- surfaces -----

  lemma {:induction false} SlotsOther(list: seq<SurfId>, surfs: map<SurfId, SurfCell>, s: SurfId, c: SurfCell)
    requires s !in list
    ensures Slots(list, surfs[s := c]) == Slots(list, surfs) == Slots(list, surfs - {s})
  {
    if list != [] {
      SlotsOther(list[1..], surfs, s, c);
    }
  }

  lemma {:induction false} SlotsSameBos(list: seq<SurfId>, surfs: map<SurfId, SurfCell>, s: SurfId, r: int)
    requires s in surfs
    ensures Slots(list, surfs[s := surfs[s].(refCnt := r)]) == Slots(list, surfs)
  {
    if list != [] {
      SlotsSameBos(list[1..], surfs, s, r);
    }
  }

  lemma {:induction false} SlotsWithout(list: seq<SurfId>, surfs: map<SurfId, SurfCell>, s: SurfId)
    requires Distinct(list) && s in list && s in surfs
    ensures Slots(list, surfs) == Slots(Without(list, s), surfs - {s}) + multiset(surfs[s].bos)
  {
    DistinctTail(list);
    if list[0] == s {
      SlotsOther(list[1..], surfs, s, surfs[s]);
    } else {
      SlotsWithout(list[1..], surfs, s);
    }
  }

  lemma AddSurfaceListed(m: Tbm, s: SurfId, bs: seq<BoId>)
    requires SurfacesListed(m) && s !in m.surfs
    ensures SurfacesListed(AddSurface(m, s, bs))
  {
    var r := AddSurface(m, s, bs);
    DistinctPrepend(s, m.surfList);
    assert Elems(r.surfList) == Elems(m.surfList) + {s};
    assert SurfRefOf(m.surfs, s) == m.surfHeld[s];
    forall x ensures SurfRefOf(r.surfs, x) == r.surfHeld[x] {
      assert SurfRefOf(m.surfs, x) == m.surfHeld[x];
    }
  }

  lemma AddSurfaceKeeps(m: Tbm, s: SurfId, bs: seq<BoId>, owners: multiset<BoId>)
    requires Base(m) && m.surfaceMgr && m.live && s !in m.surfs
    requires owners == m.held + Slots(m.surfList, m.surfs)
    requires Matched(m.bos, owners + multiset(bs))
    ensures Inv(AddSurface(m, s, bs))
  {
    hide Unshared, Matched;
    var r := AddSurface(m, s, bs);
    AddSurfaceListed(m, s, bs);
    SlotsOther(m.surfList, m.surfs, s, SurfCell(1, bs));
    assert r.surfList[1..] == m.surfList;
    assert r.held + Slots(r.surfList, r.surfs) == owners + multiset(bs);
  }

  lemma UndoKeeps(m0: Tbm, m: Tbm, bs: seq<BoId>)
    requires Base(m) && Matched(m.bos, (m.held + Slots(m.surfList, m.surfs)) + multiset(bs))
    requires !m0.surfaceMgr ==> m.surfList == []
    ensures Inv(Undo(m0, m, bs))
    ensures Undo(m0, m, bs).surfList == m.surfList && Undo(m0, m, bs).queueList == m.queueList
  {
    DropBosKeeps(m, bs, m.held + Slots(m.surfList, m.surfs));
    if !m0.surfaceMgr {
      LeaveSurfaceKeeps(DropBos(m, bs));
    }
  }

  lemma {:induction false} AllocIdsBound(allocs: seq<Alloc>)
    ensures |AllocIds(allocs)| <= |allocs|
  {
    if allocs != [] && allocs[0].Some? {
      AllocIdsBound(allocs[1..]);
    }
  }

  /** Creating a surface keeps everything and drops none; a failure leaves the lists alone. */
  lemma CreateSurfaceKeeps(m: Tbm, s: SurfId, allocs: seq<Alloc>, counted: bool)
    requires Inv(m) && s !in m.surfs && FreshAllocs(m.bos, allocs)
    ensures var (r, ok) := CreateSurface(m, s, allocs, counted);
            Inv(r) && r.surfList == (if ok then [s] else []) + m.surfList && r.queueList == m.queueList
  {
    EnterSurfaceKeeps(m);
    var m0 := EnterSurface(m);
    var owners := m0.held + Slots(m0.surfList, m0.surfs);
    AllocBosKeeps(m0, allocs, counted, owners);
    var m1 := AllocBos(m0, allocs, counted);
    var ids := AllocIds(allocs);
    if |ids| == |allocs| {
      AddSurfaceKeeps(m1, s, ids, owners);
    } else {
      UndoKeeps(m, m1, ids);
    }
  }

  lemma CreateWithBosKeeps(m: Tbm, s: SurfId, given: seq<Option<BoId>>)
    requires Inv(m) && s !in m.surfs && forall b :: b in Prefix(given) ==> b in m.bos
    ensures var (r, ok) := CreateWithBos(m, s, given);
            Inv(r) && r.surfList == (if ok then [s] else []) + m.surfList && r.queueList == m.queueList
  {
    EnterSurfaceKeeps(m);
    var m0 := EnterSurface(m);
    var owners := m0.held + Slots(m0.surfList, m0.surfs);
    var ids := Prefix(given);
    RefBosKeeps(m0, ids, owners);
    var m1 := RefBos(m0, ids);
    if |ids| == |given| {
      AddSurfaceKeeps(m1, s, ids, owners);
    } else {
      UndoKeeps(m, m1, ids);
    }
  }

  /** A change of a count, with its owners changed to match. */
  lemma SetSurfRefKeeps(m: Tbm, s: SurfId, r: int, owners: multiset<SurfId>)
    requires Inv(m) && s in m.surfs && r > 0
    requires owners[s] == r && forall x :: x != s ==> owners[x] == m.surfHeld[x]
    ensures Inv(SetSurfRef(m, s, r).(surfHeld := owners))
  {
    var t := SetSurfRef(m, s, r).(surfHeld := owners);
    assert t.surfs.Keys == m.surfs.Keys;
    SlotsSameBos(m.surfList, m.surfs, s, r);
    forall x ensures SurfRefOf(t.surfs, x) == owners[x] {
      assert SurfRefOf(m.surfs, x) == m.surfHeld[x];
    }
  }

  lemma WithoutSurfaceListed(m: Tbm, s: SurfId)
    requires SurfacesListed(m) && s in m.surfs && m.surfs[s].refCnt == 1
    ensures SurfacesListed(m.(surfList := Without(m.surfList, s), surfs := m.surfs - {s},
                              surfHeld := m.surfHeld - multiset{s}))
  {
    WithoutDistinct(m.surfList, s);
    assert Elems(Without(m.surfList, s)) == Elems(m.surfList) - {s};
    forall x ensures SurfRefOf(m.surfs - {s}, x) == (m.surfHeld - multiset{s})[x] {
      assert SurfRefOf(m.surfs, x) == m.surfHeld[x];
    }
  }

  /** The surface's bos are dropped and it leaves its list. */
  lemma UnlistSurface(m: Tbm, s: SurfId)
    requires Inv(m) && s in m.surfs && m.surfs[s].refCnt == 1
    ensures Inv(DropBos(m, m.surfs[s].bos).(surfList := Without(m.surfList, s), surfs := m.surfs - {s},
                                            surfHeld := m.surfHeld - multiset{s}))
    ensures DropBos(m, m.surfs[s].bos).surfaceMgr == m.surfaceMgr
    ensures DropBos(m, m.surfs[s].bos).queueList == m.queueList
  {
    var bs := m.surfs[s].bos;
    var owners := m.held + Slots(Without(m.surfList, s), m.surfs - {s});
    SlotsWithout(m.surfList, m.surfs, s);
    assert m.held + Slots(m.surfList, m.surfs) == owners + multiset(bs);
    DropBosKeeps(m, bs, owners);
    hide Unshared, Matched, Slots;
    WithoutSurfaceListed(DropBos(m, bs), s);
  }

  lemma DestroySurfaceKeeps(m: Tbm, s: SurfId)
    requires Inv(m) && s in m.surfs && m.surfs[s].refCnt == 1
    ensures var r := DestroySurface(m, s);
            Inv(r) && r.surfList == Without(m.surfList, s) && r.queueList == m.queueList
  {
    hide Inv;
    UnlistSurface(m, s);
    var m2 := DropBos(m, m.surfs[s].bos).(surfList := Without(m.surfList, s), surfs := m.surfs - {s},
                                          surfHeld := m.surfHeld - multiset{s});
    if m2.surfList == [] {
      LeaveSurfaceKeeps(m2);
    }
  }

  lemma DropSurfaceKeeps(m: Tbm, s: SurfId)
    requires Inv(m)
    ensures var r := DropSurface(m, s); Inv(r) && r.queueList == m.queueList
  {
    SurfHolders(m, s);
    hide Inv, DestroySurface;
    if SurfaceIsValid(m, s) {
      if m.surfs[s].refCnt == 1 {
        DestroySurfaceKeeps(m, s);
      } else {
        SetSurfRefKeeps(m, s, m.surfs[s].refCnt - 1, m.surfHeld - multiset{s});
      }
    }
  }

  lemma {:induction false} DropSurfacesKeeps(m: Tbm, xs: seq<SurfId>)
    requires Inv(m)
    ensures var r := DropSurfaces(m, xs); Inv(r) && r.queueList == m.queueList
    decreases xs
  {
    if xs != [] {
      DropSurfaceKeeps(m, xs[0]);
      DropSurfacesKeeps(DropSurface(m, xs[0]), xs[1..]);
    }
  }

  // ----- every call, every run -----

  /** A change of bos, with the references clients own changed to match. */
  lemma HeldKeeps(m: Tbm, r: Tbm, held: multiset<BoId>, owners: multiset<BoId>)
    requires Base(r) && r.live && r.surfList == m.surfList && r.surfs == m.surfs
    requires Matched(r.bos, owners) && owners == held + Slots(m.surfList, m.surfs)
    ensures Inv(r.(held := held))
  {
  }

  lemma BoAllocKeeps(m: Tbm, b: BoId, p: Option<Priv>)
    requires Inv(m) && Admissible(m, BoAlloc(b, p))
    ensures Inv(Step(m, BoAlloc(b, p)))
  {
    if m.live && p.Some? {
      var owners := m.held + Slots(m.surfList, m.surfs);
      AddBoKeeps(m, b, p.value, true, owners);
      hide Inv, Base, Matched;
      HeldKeeps(m, AddBo(m, b, p.value, true), m.held + multiset{b}, owners + multiset{b});
    }
  }

  lemma BoImportKeeps(m: Tbm, b: BoId, p: Option<Priv>)
    requires Inv(m) && b !in m.bos
    ensures Inv(Step(m, BoImport(b, p)))
  {
    hide Inv, Base, Matched, Slots, Unshared;
    if m.live && p.Some? {
      var owners := m.held + Slots(m.surfList, m.surfs);
      var found := FindPriv(m.bos, m.boList, p.value);
      InvParts(m);
      if found.Some? {
        RefBoKeeps(m, found.value, owners);
      } else {
        ImportFresh(m, p.value);
        AddBoKeeps(m, b, p.value, true, owners);
      }
      var (r, c) := Import(m, b, p.value);
      HeldKeeps(m, r, m.held + multiset{c}, owners + multiset{c});
    }
  }

  lemma ImportFresh(m: Tbm, p: Priv)
    requires Inv(m) && FindPriv(m.bos, m.boList, p).None?
    ensures FreshPriv(m.bos, p)
  {
  }

  lemma BoRefKeeps(m: Tbm, b: BoId)
    requires Inv(m)
    ensures Inv(Step(m, BoRef(b)))
  {
    if b in m.boList {
      var owners := m.held + Slots(m.surfList, m.surfs);
      RefBoKeeps(m, b, owners);
      HeldKeeps(m, RefBo(m, b), m.held + multiset{b}, owners + multiset{b});
    }
  }

  lemma BoUnrefKeeps(m: Tbm, b: BoId)
    requires Inv(m) && m.held[b] > 0
    ensures Inv(Step(m, BoUnref(b)))
  {
    hide Inv, Base, Matched, Slots, DropBo;
    var slots := Slots(m.surfList, m.surfs);
    var rest := (m.held - multiset{b}) + slots;
    InvParts(m);
    HeldListed(m, b);
    HeldLess(m.held, slots, b);
    DropBoKeeps(m, b, rest);
    DropBosOthers(m, [b]);
    assert DropBos(m, [b]) == DropBo(m, b);
    HeldKeeps(m, DropBo(m, b), m.held - multiset{b}, rest);
  }

  lemma InvParts(m: Tbm)
    requires Inv(m)
    ensures Base(m) && Matched(m.bos, m.held + Slots(m.surfList, m.surfs))
  {
  }

  lemma HeldLess(held: multiset<BoId>, slots: multiset<BoId>, b: BoId)
    requires held[b] > 0
    ensures held + slots == ((held - multiset{b}) + slots) + multiset{b}
  {
  }

  lemma HeldListed(m: Tbm, b: BoId)
    requires Inv(m) && m.held[b] > 0
    ensures b in m.boList && m.live
  {
    assert RefOf(m.bos, b) == (m.held + Slots(m.surfList, m.surfs))[b];
  }

  lemma SwapKeeps(m: Tbm, b: BoId, c: BoId)
    requires Inv(m) && b in m.bos && c in m.bos
    ensures Inv(Swap(m, b, c))
  {
    var r := Swap(m, b, c);
    assert r.bos.Keys == m.bos.Keys;
    forall x ensures RefOf(r.bos, x) == RefOf(m.bos, x) {
    }
  }

  lemma ClientKeeps(m: Tbm, call: Call)
    requires Inv(m) && Admissible(m, call) && (call.ClientInit? || call.ClientDeinit?)
    ensures Inv(Step(m, call))
  {
    FreedEmpty(m);
  }

  lemma QueryKeeps(m: Tbm, ok: bool)
    requires Inv(m)
    ensures var r := Step(m, QueryFormats(ok));
            Inv(r) && r.surfList == m.surfList && r.queueList == m.queueList
  {
    hide Inv;
    EnterSurfaceKeeps(m);
    if !ok && !m.surfaceMgr {
      SurfacesNeedManager(m);
      LeaveSurfaceKeeps(EnterSurface(m));
    }
  }

  lemma SurfacesNeedManager(m: Tbm)
    requires Inv(m)
    ensures m.surfList != [] ==> m.surfaceMgr
    ensures m.queueList != [] ==> m.queueMgr
    ensures m.surfaceMgr || m.queueMgr ==> m.live
  {
  }

  lemma SetQueuesKeeps(m: Tbm, qs: seq<QueueId>)
    requires Inv(m) && m.queueMgr
    ensures Inv(m.(queueList := qs))
  {
  }

  lemma QueueKeeps(m: Tbm, call: Call)
    requires Inv(m) && (call.QueueCreate? || call.QueueDestroy?)
    ensures Inv(Step(m, call))
  {
    hide Inv;
    match call
    case QueueCreate(q) =>
      EnterQueueKeeps(m);
      SetQueuesKeeps(EnterQueue(m), [q] + m.queueList);
    case QueueDestroy(q, attached) =>
      if m.queueMgr && q in m.queueList {
        var m0 := m.(queueList := Without(m.queueList, q));
        SetQueuesKeeps(m, Without(m.queueList, q));
        DropSurfacesKeeps(m0, attached);
        if m0.queueList == [] {
          LeaveQueueKeeps(DropSurfaces(m0, attached));
        }
      }
  }

  lemma StepKeeps(m: Tbm, call: Call)
    requires Inv(m) && Admissible(m, call)
    ensures Inv(Step(m, call))
  {
    hide Inv;
    match call
    case ClientInit => ClientKeeps(m, call);
    case ClientDeinit => ClientKeeps(m, call);
    case BoAlloc(b, p) => BoAllocKeeps(m, b, p);
    case BoImport(b, p) => BoImportKeeps(m, b, p);
    case BoRef(b) => BoRefKeeps(m, b);
    case BoUnref(b) => BoUnrefKeeps(m, b);
    case BoSwap(b, c, sameSize) =>
      if b in m.bos && c in m.bos {
        SwapKeeps(m, b, c);
      }
    case SurfCreate(s, allocs, counted) => CreateSurfaceKeeps(m, s, allocs, counted);
    case SurfCreateBos(s, given) => CreateWithBosKeeps(m, s, given);
    case SurfRef(s) =>
      if SurfaceIsValid(m, s) {
        SurfHolders(m, s);
        SetSurfRefKeeps(m, s, m.surfs[s].refCnt + 1, m.surfHeld + multiset{s});
      }
    case SurfUnref(s) => DropSurfaceKeeps(m, s);
    case QueryFormats(ok) => QueryKeeps(m, ok);
    case QueueCreate(_) => QueueKeeps(m, call);
    case QueueDestroy(_, _) => QueueKeeps(m, call);
  }

  lemma SurfHolders(m: Tbm, s: SurfId)
    requires Inv(m)
    ensures s in m.surfs ==> m.surfs[s].refCnt == m.surfHeld[s] > 0
    ensures s in m.surfList <==> m.surfHeld[s] > 0
  {
    assert SurfRefOf(m.surfs, s) == m.surfHeld[s];
  }

  /** The manager's count is its owners, no surface or queue outlives it, a bo is listed exactly
      while somebody holds it and its count is how often, a surface likewise, and backend data is
      never shared. */
  ghost predicate Sound(m: Tbm) {
    var owners := m.held + Slots(m.surfList, m.surfs);
    && m.refCount == m.clients + One(m.surfaceMgr) + One(m.queueMgr)
    && (m.surfList != [] ==> m.live && m.surfaceMgr)
    && (m.queueList != [] ==> m.live && m.queueMgr)
    && (forall b :: b in m.boList <==> b in owners)
    && (forall b :: b in m.boList ==> b in m.bos && m.bos[b].refCnt == owners[b])
    && (forall s :: s in m.surfList <==> s in m.surfHeld)
    && (forall s :: s in m.surfList ==> s in m.surfs && m.surfs[s].refCnt == m.surfHeld[s])
    && Unshared(m.bos)
  }

  lemma InvSound(m: Tbm)
    requires Inv(m)
    ensures Sound(m)
  {
    var owners := m.held + Slots(m.surfList, m.surfs);
    forall b ensures b in m.boList <==> b in owners {
      assert RefOf(m.bos, b) == owners[b];
    }
    forall b | b in m.boList ensures b in m.bos && m.bos[b].refCnt == owners[b] {
      assert RefOf(m.bos, b) == owners[b];
    }
    forall s ensures (s in m.surfList <==> s in m.surfHeld) && (s in m.surfs ==> m.surfs[s].refCnt == m.surfHeld[s]) {
      SurfHolders(m, s);
    }
  }

  // ----- who owns what -----

  ghost predicate AllSome<T>(s: seq<Option<T>>) {
    forall i :: 0 <= i < |s| ==> s[i].Some?
  }

  /** A surface is listed after an unref exactly when another reference to it was owned. */
  lemma UnrefListed(m: Tbm, s: SurfId)
    requires Inv(m)
    ensures var r := Step(m, SurfUnref(s));
            && r.surfHeld == m.surfHeld - multiset{s}
            && (s in r.surfList <==> m.surfHeld[s] > 1)
            && (forall x :: x != s ==> (x in r.surfList <==> x in m.surfList))
  {
    hide Inv, DropSurface;
    var r := DropSurface(m, s);
    assert Step(m, SurfUnref(s)) == r;
    hide Step;
    DropSurfaceKeeps(m, s);
    DropSurfaceOwners(m, s);
    SurfHolders(r, s);
    forall x | x != s ensures x in r.surfList <==> x in m.surfList {
      SurfHolders(m, x);
      SurfHolders(r, x);
    }
  }

  lemma DropSurfaceOwners(m: Tbm, s: SurfId)
    requires Inv(m)
    ensures DropSurface(m, s).surfHeld == m.surfHeld - multiset{s}
    ensures DropSurface(m, s).clients == m.clients && DropSurface(m, s).queueMgr == m.queueMgr
  {
    SurfHolders(m, s);
    SurfacesNeedManager(m);
    hide Inv, DestroySurface;
    if SurfaceIsValid(m, s) {
      DestroyOwners(m, s);
    } else {
      assert m.surfHeld - multiset{s} == m.surfHeld;
    }
  }

  lemma DestroyOwners(m: Tbm, s: SurfId)
    requires s in m.surfs
    ensures var r := DestroySurface(m, s);
            && r.surfHeld == m.surfHeld - multiset{s}
            && r.clients == m.clients && r.queueMgr == m.queueMgr
  {
    DropBosOthers(m, m.surfs[s].bos);
    hide DropBos, Without;
  }

  /** Every run keeps the invariant, and hence the books. */
  lemma {:induction false} RunKeeps(m: Tbm, calls: seq<Call>)
    requires Inv(m) && AdmissibleRun(m, calls)
    ensures Inv(Run(m, calls)) && Sound(Run(m, calls))
    decreases calls
  {
    hide Inv, Sound, Admissible, AdmissibleRun;
    if calls == [] {
      InvSound(m);
    } else {
      AdmissibleRest(m, calls);
      StepKeeps(m, calls[0]);
      RunKeeps(Step(m, calls[0]), calls[1..]);
    }
  }

  /** Every run from the start of the process. */
  lemma LifeKeeps(calls: seq<Call>)
    requires AdmissibleRun(START, calls)
    ensures Sound(Run(START, calls))
  {
    hide Inv, Run, AdmissibleRun, Sound, Slots;
    StartInv();
    RunKeeps(START, calls);
  }

  /** Without surface_bo_alloc, and below the width of the counter, bo_cnt is the list length. */
  lemma BoCntExactly(m: Tbm)
    requires Inv(m) && |m.boList| < UINT_RANGE && m.uncounted < UINT_RANGE
    ensures m.boCnt == |m.boList| <==> m.uncounted == 0
  {
  }

  // ----- failed creations -----

  /** Taking references and giving them back in the same order is nothing. */
  lemma {:induction false} DropRefBos(m: Tbm, bs: seq<BoId>)
    requires forall b :: b in bs ==> b in m.boList && b in m.bos && m.bos[b].refCnt > 0
    ensures DropBos(RefBos(m, bs), bs) == m
    decreases bs
  {
    if bs != [] {
      CommuteDrop(m, bs[0], bs[1..]);
      DropRefBos(m, bs[1..]);
    }
  }

  lemma {:induction false} CommuteDrop(m: Tbm, b: BoId, bs: seq<BoId>)
    requires b in m.boList && b in m.bos && m.bos[b].refCnt > 0
    ensures DropBo(RefBos(RefBo(m, b), bs), b) == RefBos(m, bs)
    decreases bs
  {
    if bs == [] {
      assert m.bos[b := m.bos[b]] == m.bos;
    } else {
      RefsCommute(m, b, bs[0]);
      CommuteDrop(RefBo(m, bs[0]), b, bs[1..]);
    }
  }

  lemma RefsCommute(m: Tbm, b: BoId, c: BoId)
    ensures RefBo(RefBo(m, b), c) == RefBo(RefBo(m, c), b)
  {
    if b != c && b in m.boList && b in m.bos && c in m.boList && c in m.bos {
      assert RefBo(RefBo(m, b), c).bos == RefBo(RefBo(m, c), b).bos;
    }
  }

  /** Allocating bos and dropping them in the same order is nothing. */
  lemma {:induction false} DropAllocBos(m: Tbm, allocs: seq<Alloc>)
    requires FreshAllocs(m.bos, allocs) && BosListed(m)
    ensures DropBos(AllocBos(m, allocs, true), AllocIds(allocs)) == m
    decreases allocs
  {
    if allocs != [] && allocs[0].Some? {
      var (b, p) := allocs[0].value;
      CommuteAlloc(m, b, p, allocs[1..]);
      FreshAllocsLess(m.bos, b, p, allocs[1..]);
      DropAllocBos(m, allocs[1..]);
      assert AllocIds(allocs)[1..] == AllocIds(allocs[1..]);
    }
  }

  ghost predicate BosListed(m: Tbm) {
    m.bos.Keys == Elems(m.boList) && 0 <= m.boCnt < UINT_RANGE
  }

  /** What is fresh next to a new bo is fresh without it. */
  lemma {:induction false} FreshAllocsLess(bos: map<BoId, BoCell>, b: BoId, p: Priv, allocs: seq<Alloc>)
    requires b !in bos && FreshAllocs(bos[b := BoCell(1, p)], allocs)
    ensures FreshAllocs(bos, allocs)
    decreases allocs
  {
    if allocs != [] && allocs[0].Some? {
      var (c, r) := allocs[0].value;
      assert bos[b := BoCell(1, p)][c := BoCell(1, r)] == bos[c := BoCell(1, r)][b := BoCell(1, p)];
      forall x | x in bos ensures bos[x].priv != r {
        assert bos[b := BoCell(1, p)][x].priv != r;
      }
      FreshAllocsLess(bos[c := BoCell(1, r)], b, p, allocs[1..]);
    }
  }

  /** `y` is `x` without the bo `b`, which has one reference. */
  ghost predicate Removed(x: Tbm, b: BoId, y: Tbm) {
    && b in x.boList && b in x.bos && x.bos[b].refCnt == 1
    && 0 <= x.boCnt < UINT_RANGE
    && y == RemoveBo(x, b)
  }

  lemma CommuteAlloc(m: Tbm, b: BoId, p: Priv, allocs: seq<Alloc>)
    requires b !in m.bos && FreshAllocs(m.bos[b := BoCell(1, p)], allocs) && BosListed(m)
    ensures DropBo(AllocBos(AddBo(m, b, p, true), allocs, true), b) == AllocBos(m, allocs, true)
  {
    AddThenRemove(m, b, p);
    hide RemoveBo, AllocBos, DropBo;
    AllocRemoved(AddBo(m, b, p, true), b, m, allocs);
  }

  lemma AddThenRemove(m: Tbm, b: BoId, p: Priv)
    requires b !in m.bos && BosListed(m)
    ensures Removed(AddBo(m, b, p, true), b, m)
  {
    hide Without;
    WithoutFirst(m.boList, b);
    assert RemoveBo(AddBo(m, b, p, true), b) == m;
  }

  lemma WithoutFirst(list: seq<BoId>, b: BoId)
    ensures Without([b] + list, b) == list
  {
  }

  lemma WithoutPrepend(list: seq<BoId>, c: BoId, b: BoId)
    requires c != b
    ensures Without([c] + list, b) == [c] + Without(list, b)
  {
    assert ([c] + list)[1..] == list;
  }

  lemma RemovedStep(x: Tbm, b: BoId, y: Tbm, c: BoId, r: Priv)
    requires Removed(x, b, y) && c !in x.bos
    ensures Removed(AddBo(x, c, r, true), b, AddBo(y, c, r, true))
  {
    hide Without;
    WithoutPrepend(x.boList, c, b);
    AddRemoveMaps(x.bos, b, c, r);
    assert RemoveBo(AddBo(x, c, r, true), b) == AddBo(RemoveBo(x, b), c, r, true);
  }

  lemma AddRemoveMaps(bos: map<BoId, BoCell>, b: BoId, c: BoId, r: Priv)
    requires b != c
    ensures bos[c := BoCell(1, r)] - {b} == (bos - {b})[c := BoCell(1, r)]
  {
  }

  lemma {:induction false} AllocRemoved(x: Tbm, b: BoId, y: Tbm, allocs: seq<Alloc>)
    requires Removed(x, b, y) && FreshAllocs(x.bos, allocs)
    ensures DropBo(AllocBos(x, allocs, true), b) == AllocBos(y, allocs, true)
    decreases allocs
  {
    if allocs != [] && allocs[0].Some? {
      var (c, r) := allocs[0].value;
      RemovedStep(x, b, y, c, r);
      hide Removed;
      AllocRemoved(AddBo(x, c, r, true), b, AddBo(y, c, r, true), allocs[1..]);
    }
  }

  /** The same manager, bos, surfaces and queues. */
  ghost predicate SameBooks(r: Tbm, m: Tbm) {
    && r.live == m.live && r.refCount == m.refCount && r.clients == m.clients
    && r.boList == m.boList && r.bos == m.bos && r.boCnt == m.boCnt && r.held == m.held
    && r.surfList == m.surfList && r.surfs == m.surfs && r.surfHeld == m.surfHeld && r.queueList == m.queueList
    && r.surfaceMgr == m.surfaceMgr && r.queueMgr == m.queueMgr
  }

  lemma EnterThenLeave(m: Tbm)
    requires Inv(m)
    ensures SameBooks(if m.surfaceMgr then EnterSurface(m) else LeaveSurface(EnterSurface(m)), m)
  {
  }

  lemma BosPositive(m: Tbm)
    requires Inv(m)
    ensures BosListed(m)
    ensures forall b :: b in m.bos ==> b in m.boList && m.bos[b].refCnt > 0
  {
  }

  /** A failed creation, of either kind, restores everything. */
  lemma FailedCreateWithBosRestores(m: Tbm, s: SurfId, given: seq<Option<BoId>>)
    requires Inv(m) && forall b :: b in Prefix(given) ==> b in m.bos
    ensures var (r, ok) := CreateWithBos(m, s, given); !ok ==> SameBooks(r, m)
  {
    hide Inv, SameBooks, EnterSurface, LeaveSurface, RefBos, DropBos, Prefix;
    EnterSurfaceKeeps(m);
    BosPositive(EnterSurface(m));
    EnterThenLeave(m);
    DropRefBos(EnterSurface(m), Prefix(given));
  }

  lemma FailedCreateRestores(m: Tbm, s: SurfId, allocs: seq<Alloc>)
    requires Inv(m) && FreshAllocs(m.bos, allocs)
    ensures var (r, ok) := CreateSurface(m, s, allocs, true); !ok ==> SameBooks(r, m)
  {
    hide Inv, SameBooks, EnterSurface, LeaveSurface, AllocBos, DropBos, AllocIds, FreshAllocs;
    EnterSurfaceKeeps(m);
    BosPositive(EnterSurface(m));
    EnterThenLeave(m);
    DropAllocBos(EnterSurface(m), allocs);
  }

  /** The same but for the bo counter and what explains it. */
  ghost predicate SameButCount(x: Tbm, y: Tbm) {
    && x.live == y.live && x.refCount == y.refCount && x.clients == y.clients
    && x.boList == y.boList && x.bos == y.bos && x.held == y.held
    && x.surfList == y.surfList && x.surfs == y.surfs && x.surfHeld == y.surfHeld && x.queueList == y.queueList
    && x.surfaceMgr == y.surfaceMgr && x.queueMgr == y.queueMgr
  }

  lemma {:induction false} AllocUncounted(x: Tbm, y: Tbm, allocs: seq<Alloc>)
    requires SameButCount(x, y)
    ensures var r := AllocBos(x, allocs, false);
            SameButCount(r, AllocBos(y, allocs, true)) && r.uncounted == x.uncounted + |AllocIds(allocs)|
    decreases allocs
  {
    if allocs != [] && allocs[0].Some? {
      var (b, p) := allocs[0].value;
      AllocUncounted(AddBo(x, b, p, false), AddBo(y, b, p, true), allocs[1..]);
    }
  }

  lemma DropOneUncounted(x: Tbm, y: Tbm, b: BoId)
    requires SameButCount(x, y)
    ensures var r := DropBo(x, b); SameButCount(r, DropBo(y, b)) && r.uncounted == x.uncounted
  {
    hide Without, RemoveBo, SetRef;
    if b in y.boList && b in y.bos && y.bos[b].refCnt > 0 {
      RemoveUncounted(x, y, b);
      SetRefUncounted(x, y, b, y.bos[b].refCnt - 1);
    }
  }

  lemma RemoveUncounted(x: Tbm, y: Tbm, b: BoId)
    requires SameButCount(x, y)
    ensures SameButCount(RemoveBo(x, b), RemoveBo(y, b)) && RemoveBo(x, b).uncounted == x.uncounted
  {
    hide Without;
  }

  lemma SetRefUncounted(x: Tbm, y: Tbm, b: BoId, r: int)
    requires SameButCount(x, y) && b in y.bos
    ensures SameButCount(SetRef(x, b, r), SetRef(y, b, r)) && SetRef(x, b, r).uncounted == x.uncounted
  {
  }

  lemma {:induction false} DropUncounted(x: Tbm, y: Tbm, bs: seq<BoId>)
    requires SameButCount(x, y)
    ensures var r := DropBos(x, bs); SameButCount(r, DropBos(y, bs)) && r.uncounted == x.uncounted
    decreases bs
  {
    hide DropBo, SameButCount;
    if bs != [] {
      DropOneUncounted(x, y, bs[0]);
      DropUncounted(DropBo(x, bs[0]), DropBo(y, bs[0]), bs[1..]);
    }
  }

  /** Through surface_bo_alloc a failed creation restores all but `bo_cnt`: the bos it frees were
      never counted, so the counter stays short by their number while the manager lives. */
  lemma FailedUncountedCreate(m: Tbm, s: SurfId, allocs: seq<Alloc>)
    requires Inv(m) && FreshAllocs(m.bos, allocs)
    ensures var (r, ok) := CreateSurface(m, s, allocs, false);
            !ok && m.live ==>
              && SameBooks(r.(boCnt := m.boCnt), m)
              && r.uncounted == m.uncounted + |AllocIds(allocs)|
  {
    FailedCreateRestores(m, s, allocs);
    var e := EnterSurface(m);
    var x, y := AllocBos(e, allocs, false), AllocBos(e, allocs, true);
    hide Inv, FreshAllocs, AllocBos, DropBos, AllocIds;
    AllocUncounted(e, e, allocs);
    DropUncounted(x, y, AllocIds(allocs));
    LeaveUncounted(DropBos(x, AllocIds(allocs)), DropBos(y, AllocIds(allocs)));
  }

  lemma LeaveUncounted(x: Tbm, y: Tbm)
    requires SameButCount(x, y)
    ensures SameButCount(LeaveSurface(x), LeaveSurface(y))
    ensures LeaveSurface(y).live ==> LeaveSurface(x).uncounted == x.uncounted
  {
  }

  // ----- importing -----

  /** Importing the backend data of a live bo returns that bo with one more reference; importing
      unknown data makes a new bo. */
  lemma ImportResolves(m: Tbm, b: BoId, c: BoId)
    requires Inv(m) && c in m.bos
    ensures Import(m, b, m.bos[c].priv) == (SetRef(m, c, m.bos[c].refCnt + 1), c)
  {
    var found := FindPriv(m.bos, m.boList, m.bos[c].priv);
    assert c in m.boList && found.Some?;
  }

  /** After a swap, a handle exported before resolves to the other bo. */
  lemma SwapRedirects(m: Tbm, b: BoId, c: BoId, x: BoId)
    requires Inv(m) && b in m.bos && c in m.bos
    ensures Import(Swap(m, b, c), x, m.bos[b].priv).1 == c
    ensures Import(Swap(m, b, c), x, m.bos[c].priv).1 == b
  {
    var r := Swap(m, b, c);
    SwapKeeps(m, b, c);
    ImportResolves(r, x, c);
    ImportResolves(r, x, b);
  }
}
