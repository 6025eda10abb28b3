/** Who keeps whom alive: the global buffer manager, buffer objects, surfaces and surface queues
    of src/tbm_bufmgr.c, src/tbm_surface_internal.c and src/tbm_surface_queue.c, as one state
    machine. */
module LifetimeSpec {
  import opened Common

  type BoId = nat
  type SurfId = nat
  type QueueId = nat
  type Priv = nat

  /** `bo_cnt` is an unsigned int. */
  const UINT_RANGE := 0x1_0000_0000

  datatype BoCell = BoCell(refCnt: int, priv: Priv)

  datatype SurfCell = SurfCell(refCnt: int, bos: seq<BoId>)

  /** The globals and what hangs off them. `live` says gBufMgr is set; `surfaceMgr` and
      `queueMgr` say g_surface_bufmgr and g_surf_queue_bufmgr are. The last group is not in the
      code: the clients that initialised the manager, the bo references clients own, the surface
      references clients and queues own, the bos allocated through surface_bo_alloc, and the turns
      of the unsigned `bo_cnt`. */
  datatype Tbm = Tbm(
    live: bool,
    refCount: int,
    boList: seq<BoId>,
    bos: map<BoId, BoCell>,
    boCnt: int,
    surfList: seq<SurfId>,
    surfs: map<SurfId, SurfCell>,
    queueList: seq<QueueId>,
    surfaceMgr: bool,
    queueMgr: bool,
    clients: nat,
    held: multiset<BoId>,
    surfHeld: multiset<SurfId>,
    uncounted: nat,
    turns: int)

  const START := 
    Tbm(false, 0, [], map[], 0, [], map[], [], false, false, 0, multiset{}, multiset{}, 0, 0)

  // ----- the manager -----

  function Init(m: Tbm): Tbm {
    if m.live then m.(refCount := m.refCount + 1)
    else
      m.(live := true, refCount := 1, boList := [], bos := map[], boCnt := 0,
         surfList := [], queueList := [], held := multiset{}, uncounted := 0, turns := 0)
  }

  /** The last deinit frees the manager and every bo left; it does not touch surfaces or
      queues, which must be gone by then. */
  function Deinit(m: Tbm): Tbm {
    if !m.live then m
    else if m.refCount > 1 then m.(refCount := m.refCount - 1)
    else m.(live := false, refCount := m.refCount - 1, boList := [], bos := map[], boCnt := 0,
            held := multiset{}, uncounted := 0, turns := 0)
  }

  /** A surface or format query on an unset g_surface_bufmgr initialises it and its list. */
  function EnterSurface(m: Tbm): Tbm {
    if m.surfaceMgr then m else Init(m).(surfaceMgr := true, surfList := [])
  }

  function LeaveSurface(m: Tbm): Tbm {
    if m.surfaceMgr then Deinit(m).(surfaceMgr := false) else m
  }

  function EnterQueue(m: Tbm): Tbm {
    if m.queueMgr then m else Init(m).(queueMgr := true)
  }

  function LeaveQueue(m: Tbm): Tbm {
    if m.queueMgr then Deinit(m).(queueMgr := false) else m
  }

  // ----- buffer objects -----

  function AddBo(m: Tbm, b: BoId, p: Priv, counted: bool): Tbm {
    var m1 := m.(boList := [b] + m.boList, bos := m.bos[b := BoCell(1, p)]);
    if !counted then m1.(uncounted := m.uncounted + 1)
    else if m.boCnt == UINT_RANGE - 1 then m1.(boCnt := 0, turns := m.turns + 1)
    else m1.(boCnt := m.boCnt + 1)
  }

  function SetRef(m: Tbm, b: BoId, r: int): Tbm
    requires b in m.bos
  {
    m.(bos := m.bos[b := m.bos[b].(refCnt := r)])
  }

  function RefBo(m: Tbm, b: BoId): Tbm {
    if b in m.boList && b in m.bos then SetRef(m, b, m.bos[b].refCnt + 1) else m
  }

  function RemoveBo(m: Tbm, b: BoId): Tbm {
    var m1 := m.(boList := Without(m.boList, b), bos := m.bos - {b});
    if m.boCnt == 0 then m1.(boCnt := UINT_RANGE - 1, turns := m.turns - 1)
    else m1.(boCnt := m.boCnt - 1)
  }

  function DropBo(m: Tbm, b: BoId): Tbm {
    if b !in m.boList || b !in m.bos || m.bos[b].refCnt <= 0 then m
    else if m.bos[b].refCnt == 1 then RemoveBo(m, b)
    else SetRef(m, b, m.bos[b].refCnt - 1)
  }

  function DropBos(m: Tbm, bs: seq<BoId>): Tbm
    decreases bs
  {
    if bs == [] then m else DropBos(DropBo(m, bs[0]), bs[1..])
  }

  /** The first bo of the list with backend data `p`. */
  function FindPriv(bos: map<BoId, BoCell>, list: seq<BoId>, p: Priv): (r: Option<BoId>)
    ensures r.Some? ==> r.value in list && r.value in bos && bos[r.value].priv == p
    ensures r.None? ==> forall b :: b in list && b in bos ==> bos[b].priv != p
  {
    if list == [] then None
    else if list[0] in bos && bos[list[0]].priv == p then Some(list[0])
    else FindPriv(bos, list[1..], p)
  }

  /** Importing by key or by fd: `p` is what the backend maps the handle to. */
  function Import(m: Tbm, b: BoId, p: Priv): (Tbm, BoId) {
    match FindPriv(m.bos, m.boList, p)
    case Some(c) => (RefBo(m, c), c)
    case None => (AddBo(m, b, p, true), b)
  }

  function Swap(m: Tbm, b: BoId, c: BoId): Tbm
    requires b in m.bos && c in m.bos
  {
    var p := m.bos[b].priv;
    var bos := m.bos[b := m.bos[b].(priv := m.bos[c].priv)];
    m.(bos := bos[c := bos[c].(priv := p)])
  }

  // ----- surfaces -----

  /** A bo allocation: the new bo with its backend data, or a failure. */
  type Alloc = Option<(BoId, Priv)>

  /** Allocates until the first failure. */
  function AllocBos(m: Tbm, allocs: seq<Alloc>, counted: bool): Tbm
    decreases allocs
  {
    if allocs == [] || allocs[0].None? then m
    else AllocBos(AddBo(m, allocs[0].value.0, allocs[0].value.1, counted), allocs[1..], counted)
  }

  function Prefix<T>(s: seq<Option<T>>): seq<T> {
    if s == [] || s[0].None? then [] else [s[0].value] + Prefix(s[1..])
  }

  function AllocIds(allocs: seq<Alloc>): (r: seq<BoId>)
    decreases allocs
  {
    if allocs == [] || allocs[0].None? then [] else [allocs[0].value.0] + AllocIds(allocs[1..])
  }

  function RefBos(m: Tbm, bs: seq<BoId>): Tbm
    decreases bs
  {
    if bs == [] then m else RefBos(RefBo(m, bs[0]), bs[1..])
  }

  function AddSurface(m: Tbm, s: SurfId, bs: seq<BoId>): Tbm {
    m.(surfList := [s] + m.surfList, surfs := m.surfs[s := SurfCell(1, bs)],
       surfHeld := m.surfHeld + multiset{s})
  }

  /** A failed creation gives its bos back, and the manager if it had just entered it. */
  function Undo(m0: Tbm, m: Tbm, bs: seq<BoId>): Tbm {
    var m1 := DropBos(m, bs);
    if m0.surfaceMgr then m1 else LeaveSurface(m1)
  }

  function CreateSurface(m: Tbm, s: SurfId, allocs: seq<Alloc>, counted: bool): (Tbm, bool) {
    var m1 := AllocBos(EnterSurface(m), allocs, counted);
    var ids := AllocIds(allocs);
    if |ids| == |allocs| then (AddSurface(m1, s, ids), true) else (Undo(m, m1, ids), false)
  }

  function CreateWithBos(m: Tbm, s: SurfId, given: seq<Option<BoId>>): (Tbm, bool) {
    var ids := Prefix(given);
    var m1 := RefBos(EnterSurface(m), ids);
    if |ids| == |given| then (AddSurface(m1, s, ids), true) else (Undo(m, m1, ids), false)
  }

  predicate SurfaceIsValid(m: Tbm, s: SurfId) {
    m.surfaceMgr && s in m.surfList && s in m.surfs
  }

  function SetSurfRef(m: Tbm, s: SurfId, r: int): Tbm
    requires s in m.surfs
  {
    m.(surfs := m.surfs[s := m.surfs[s].(refCnt := r)])
  }

  function RefSurface(m: Tbm, s: SurfId): Tbm {
    if !SurfaceIsValid(m, s) then m
    else SetSurfRef(m, s, m.surfs[s].refCnt + 1).(surfHeld := m.surfHeld + multiset{s})
  }

  function DestroySurface(m: Tbm, s: SurfId): Tbm
    requires s in m.surfs
  {
    var m1 := DropBos(m, m.surfs[s].bos);
    var m2 := m1.(surfList := Without(m.surfList, s), surfs := m.surfs - {s},
                  surfHeld := m.surfHeld - multiset{s});
    if m2.surfList == [] then LeaveSurface(m2) else m2
  }

  function DropSurface(m: Tbm, s: SurfId): Tbm {
    if !SurfaceIsValid(m, s) then m
    else if m.surfs[s].refCnt == 1 then DestroySurface(m, s)
    else SetSurfRef(m, s, m.surfs[s].refCnt - 1).(surfHeld := m.surfHeld - multiset{s})
  }

  function DropSurfaces(m: Tbm, xs: seq<SurfId>): Tbm
    decreases xs
  {
    if xs == [] then m else DropSurfaces(DropSurface(m, xs[0]), xs[1..])
  }

  // ----- calls -----

  datatype Call =
    | ClientInit
    | ClientDeinit
    | BoAlloc(b: BoId, p: Option<Priv>)
    | BoImport(b: BoId, p: Option<Priv>)
    | BoRef(b: BoId)
    | BoUnref(b: BoId)
    | BoSwap(b: BoId, c: BoId, sameSize: bool)
    | SurfCreate(s: SurfId, allocs: seq<Alloc>, counted: bool)
    | SurfCreateBos(s: SurfId, given: seq<Option<BoId>>)
    | SurfRef(s: SurfId)
    | SurfUnref(s: SurfId)
    | QueryFormats(ok: bool)
    | QueueCreate(q: QueueId)
    | QueueDestroy(q: QueueId, attached: seq<SurfId>)

  function Step(m: Tbm, call: Call): Tbm {
    match call
    case ClientInit => var m1 := Init(m); m1.(clients := m1.clients + 1)
    case ClientDeinit => if m.clients > 0 then Deinit(m).(clients := m.clients - 1) else m
    case BoAlloc(b, p) =>
      if !m.live || p.None? then m
      else AddBo(m, b, p.value, true).(held := m.held + multiset{b})
    case BoImport(b, p) =>
      if !m.live || p.None? then m
      else var (m1, c) := Import(m, b, p.value); m1.(held := m.held + multiset{c})
    case BoRef(b) => if b in m.boList then RefBo(m, b).(held := m.held + multiset{b}) else m
    case BoUnref(b) => if b in m.boList then DropBo(m, b).(held := m.held - multiset{b}) else m
    case BoSwap(b, c, sameSize) =>
      if b in m.boList && c in m.boList && b in m.bos && c in m.bos && sameSize then Swap(m, b, c) else m
    case SurfCreate(s, allocs, counted) => CreateSurface(m, s, allocs, counted).0
    case SurfCreateBos(s, given) => CreateWithBos(m, s, given).0
    case SurfRef(s) => RefSurface(m, s)
    case SurfUnref(s) => DropSurface(m, s)
    case QueryFormats(ok) => if ok || m.surfaceMgr then EnterSurface(m) else LeaveSurface(EnterSurface(m))
    case QueueCreate(q) => var m1 := EnterQueue(m); m1.(queueList := [q] + m1.queueList)
    case QueueDestroy(q, attached) =>
      if !(m.queueMgr && q in m.queueList) then m
      else
        var m1 := DropSurfaces(m.(queueList := Without(m.queueList, q)), attached);
        if m1.queueList == [] then LeaveQueue(m1) else m1
  }

  function Run(m: Tbm, calls: seq<Call>): Tbm
    decreases calls
  {
    if calls == [] then m else Run(Step(m, calls[0]), calls[1..])
  }
}
