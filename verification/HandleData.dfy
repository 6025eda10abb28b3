/** What each call does to the data behind the handles its callers hold. */
module HandleData {
  import opened Common
  import opened LifetimeSpec
  import opened Lifetime
  import opened Ownership

  ghost predicate SamePrivs(m: Tbm, r: Tbm) {
    forall b :: b in m.bos && b in r.bos ==> r.bos[b].priv == m.bos[b].priv
  }

  ghost predicate SameSlots(m: Tbm, r: Tbm) {
    forall s :: s in m.surfs && s in r.surfs ==> r.surfs[s].bos == m.surfs[s].bos
  }

  /** A live bo keeps its backend data and a live surface its bos, but for a swap; new ones have
      what they were made with. */
  ghost predicate Data(m: Tbm, call: Call, r: Tbm) {
    && SameSlots(m, r)
    && (!call.BoSwap? ==> SamePrivs(m, r))
    && match call
       case BoAlloc(b, Some(p)) => m.live ==> b in r.bos && r.bos[b].priv == p
       case BoImport(b, Some(p)) =>
         m.live ==> Known(m, b, p) in r.bos && r.bos[Known(m, b, p)].priv == p
       case BoSwap(b, c, sameSize) =>
         if sameSize && b in m.bos && c in m.bos then
           && r.bos.Keys == m.bos.Keys
           && r.bos[b].priv == m.bos[c].priv && r.bos[c].priv == m.bos[b].priv
           && forall x :: x in m.bos && x != b && x != c ==> r.bos[x] == m.bos[x]
         else r == m
       case SurfCreate(s, allocs, _) =>
         AllSome(allocs) ==>
           && s in r.surfs && |r.surfs[s].bos| == |allocs|
           && forall i :: 0 <= i < |allocs| ==>
                var (b, p) := allocs[i].value;
                r.surfs[s].bos[i] == b && b in r.bos && r.bos[b].priv == p
       case SurfCreateBos(s, given) =>
         AllSome(given) ==>
           && s in r.surfs && |r.surfs[s].bos| == |given|
           && forall i :: 0 <= i < |given| ==> given[i] == Some(r.surfs[s].bos[i])
       case _ => true
  }

  /** `r` has bos and surfaces of `m` only, as they were. */
  ghost predicate Less(m: Tbm, r: Tbm) {
    && (forall b :: b in r.bos ==> b in m.bos && r.bos[b].priv == m.bos[b].priv)
    && (forall s :: s in r.surfs ==> s in m.surfs && r.surfs[s].bos == m.surfs[s].bos)
  }

  lemma DropBoLess(m: Tbm, b: BoId)
    ensures Less(m, DropBo(m, b))
  {
    hide Without;
  }

  lemma {:induction false} DropBosLess(m: Tbm, bs: seq<BoId>)
    ensures Less(m, DropBos(m, bs))
    decreases bs
  {
    if bs != [] {
      hide DropBo;
      DropBoLess(m, bs[0]);
      DropBosLess(DropBo(m, bs[0]), bs[1..]);
    }
  }

  lemma DestroyLess(m: Tbm, s: SurfId)
    requires s in m.surfs
    ensures Less(m, DestroySurface(m, s))
  {
    DropBosLess(m, m.surfs[s].bos);
    DropBosOthers(m, m.surfs[s].bos);
    hide DropBos, Without;
  }

  lemma DropSurfaceLess(m: Tbm, s: SurfId)
    ensures Less(m, DropSurface(m, s))
  {
    if s in m.surfs {
      DestroyLess(m, s);
    }
    hide DestroySurface;
  }

  lemma {:induction false} DropSurfacesLess(m: Tbm, xs: seq<SurfId>)
    ensures Less(m, DropSurfaces(m, xs))
    decreases xs
  {
    if xs != [] {
      hide DropSurface;
      DropSurfaceLess(m, xs[0]);
      DropSurfacesLess(DropSurface(m, xs[0]), xs[1..]);
    }
  }

  lemma AddBoMap(m: Tbm, b: BoId, p: Priv, counted: bool)
    ensures AddBo(m, b, p, counted).bos == m.bos[b := BoCell(1, p)]
    ensures AddBo(m, b, p, counted).surfs == m.surfs
  {
  }

  /** Allocating keeps every bo there is, and each new one has the data it was made with. */
  lemma {:induction false} AllocData(m: Tbm, allocs: seq<Alloc>, counted: bool)
    requires FreshAllocs(m.bos, allocs)
    ensures var r, ids := AllocBos(m, allocs, counted), AllocIds(allocs);
            && (forall b :: b in m.bos ==> b in r.bos && r.bos[b] == m.bos[b])
            && |ids| <= |allocs|
            && (forall i :: 0 <= i < |ids| ==>
                  allocs[i].Some? && allocs[i].value.0 in r.bos
                  && r.bos[allocs[i].value.0].priv == allocs[i].value.1)
    decreases allocs
  {
    if allocs != [] && allocs[0].Some? {
      var (b, p) := allocs[0].value;
      var m1 := AddBo(m, b, p, counted);
      AddBoMap(m, b, p, counted);
      hide AddBo;
      AllocData(m1, allocs[1..], counted);
      var r := AllocBos(m1, allocs[1..], counted);
      assert b in m1.bos && m1.bos[b].priv == p;
      forall i | 0 <= i < |AllocIds(allocs)|
        ensures allocs[i].Some? && allocs[i].value.0 in r.bos
             && r.bos[allocs[i].value.0].priv == allocs[i].value.1
      {
        assert i > 0 ==> allocs[i] == allocs[1..][i - 1];
      }
    }
  }

  lemma {:induction false} RefData(m: Tbm, bs: seq<BoId>)
    ensures RefBos(m, bs).bos.Keys == m.bos.Keys && SamePrivs(m, RefBos(m, bs))
    decreases bs
  {
    if bs != [] {
      RefData(RefBo(m, bs[0]), bs[1..]);
    }
  }

  lemma UndoLess(m: Tbm, m1: Tbm, ids: seq<BoId>)
    ensures Less(m1, Undo(m, m1, ids))
  {
    DropBosLess(m1, ids);
    hide DropBos;
  }

  lemma CreateData(m: Tbm, s: SurfId, allocs: seq<Alloc>, counted: bool)
    requires Inv(m) && s !in m.surfs && FreshAllocs(m.bos, allocs)
    ensures Data(m, SurfCreate(s, allocs, counted), Step(m, SurfCreate(s, allocs, counted)))
  {
    hide Inv, EnterSurface, AllocBos, AllocIds, Undo, AllSome, FreshAllocs;
    EnterOwners(m);
    var e := EnterSurface(m);
    AllocIdsExactly(allocs);
    AllocOthers(e, allocs, counted);
    AllocData(e, allocs, counted);
    UndoLess(m, AllocBos(e, allocs, counted), AllocIds(allocs));
  }

  lemma CreateWithBosData(m: Tbm, s: SurfId, given: seq<Option<BoId>>)
    requires Inv(m) && s !in m.surfs
    ensures Data(m, SurfCreateBos(s, given), Step(m, SurfCreateBos(s, given)))
  {
    hide Inv, EnterSurface, RefBos, Prefix, Undo, AllSome;
    EnterOwners(m);
    var e := EnterSurface(m);
    PrefixExactly(given);
    RefOthers(e, Prefix(given));
    RefData(e, Prefix(given));
    UndoLess(m, RefBos(e, Prefix(given)), Prefix(given));
  }

  lemma AddBoData(m: Tbm, b: BoId, p: Priv)
    requires b !in m.bos
    ensures var r := AddBo(m, b, p, true);
            SamePrivs(m, r) && SameSlots(m, r) && b in r.bos && r.bos[b].priv == p
  {
    AddBoMap(m, b, p, true);
    hide AddBo;
  }

  lemma RefBoData(m: Tbm, b: BoId)
    ensures var r := RefBo(m, b);
            SamePrivs(m, r) && SameSlots(m, r) && r.bos.Keys == m.bos.Keys
  {
  }

  lemma SwapData(m: Tbm, b: BoId, c: BoId)
    requires b in m.bos && c in m.bos
    ensures var r := Swap(m, b, c);
            && SameSlots(m, r) && r.bos.Keys == m.bos.Keys
            && r.bos[b].priv == m.bos[c].priv && r.bos[c].priv == m.bos[b].priv
            && forall x :: x in m.bos && x != b && x != c ==> r.bos[x] == m.bos[x]
  {
  }

  lemma ImportData(m: Tbm, b: BoId, p: Priv)
    requires Inv(m) && b !in m.bos
    ensures var (r, c) := Import(m, b, p);
            && SamePrivs(m, r) && SameSlots(m, r)
            && c == Known(m, b, p) && c in r.bos && r.bos[c].priv == p
  {
    ImportKnown(m, b, p);
    AddBoData(m, b, p);
    var (_, c) := Import(m, b, p);
    RefBoData(m, c);
    hide Inv, AddBo, RefBo, Known;
  }

  lemma BoData(m: Tbm, call: Call)
    requires Inv(m) && Admissible(m, call)
    requires call.BoAlloc? || call.BoImport? || call.BoRef? || call.BoUnref? || call.BoSwap?
    ensures Data(m, call, Step(m, call))
  {
    hide Inv, AddBo, RefBo, DropBo, Swap, Known, Import;
    match call
    case BoAlloc(b, p) =>
      if p.Some? {
        AddBoData(m, b, p.value);
      }
    case BoImport(b, p) =>
      if p.Some? {
        ImportData(m, b, p.value);
      }
    case BoRef(b) => RefBoData(m, b);
    case BoUnref(b) => DropBoLess(m, b);
    case BoSwap(b, c, _) =>
      ListedBo(m, b);
      ListedBo(m, c);
      if b in m.bos && c in m.bos {
        SwapData(m, b, c);
      }
  }

  lemma ManagerData(m: Tbm, call: Call)
    requires Inv(m)
    requires call.ClientInit? || call.ClientDeinit? || call.QueryFormats? || call.QueueCreate?
    ensures Data(m, call, Step(m, call))
  {
    hide Inv;
  }

  lemma QueueDestroyData(m: Tbm, q: QueueId, attached: seq<SurfId>)
    ensures Less(m, Step(m, QueueDestroy(q, attached)))
  {
    DropSurfacesLess(m.(queueList := Without(m.queueList, q)), attached);
    hide DropSurfaces, Without;
  }

  lemma SurfaceData(m: Tbm, call: Call)
    requires call.SurfRef? || call.SurfUnref? || call.QueueDestroy?
    ensures Data(m, call, Step(m, call))
  {
    hide DropSurface;
    match call
    case SurfRef(_) =>
    case SurfUnref(s) => DropSurfaceLess(m, s);
    case QueueDestroy(q, attached) =>
      QueueDestroyData(m, q, attached);
      hide Step;
  }

  /** The data behind every handle after any call. */
  lemma StepData(m: Tbm, call: Call)
    requires Inv(m) && Admissible(m, call)
    ensures Data(m, call, Step(m, call))
  {
    hide Inv, Step, Data;
    match call
    case SurfCreate(s, allocs, counted) => CreateData(m, s, allocs, counted);
    case SurfCreateBos(s, given) => CreateWithBosData(m, s, given);
    case SurfRef(_) => SurfaceData(m, call);
    case SurfUnref(_) => SurfaceData(m, call);
    case QueueDestroy(_, _) => SurfaceData(m, call);
    case ClientInit => ManagerData(m, call);
    case ClientDeinit => ManagerData(m, call);
    case QueryFormats(_) => ManagerData(m, call);
    case QueueCreate(_) => ManagerData(m, call);
    case _ => BoData(m, call);
  }
}
