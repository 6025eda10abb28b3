/** Mapping a surface maps each of its bos, where one bo may sit in several slots. A failure on
    the way unmaps the bos mapped so far. */
module SurfaceMaps {
  import opened BoLocks

  ghost function Count(s: seq<Bo>, b: Bo): nat {
    if s == [] then 0 else Count(s[..|s| - 1], b) + (if s[|s| - 1] == b then 1 else 0)
  }

  lemma CountStep(s: seq<Bo>, i: nat, b: Bo)
    requires i < |s|
    ensures Count(s[..i + 1], b) == Count(s[..i], b) + (if s[i] == b then 1 else 0)
  {
    assert s[..i + 1][..i] == s[..i];
  }

  lemma {:induction false} CountMonotonic(s: seq<Bo>, i: nat, j: nat, b: Bo)
    requires i <= j <= |s|
    ensures Count(s[..i], b) <= Count(s[..j], b)
    decreases j
  {
    if i < j {
      CountStep(s, j - 1, b);
      CountMonotonic(s, i, j - 1, b);
    }
  }

  ghost predicate AllValid(kind: LockType, bos: seq<Bo>)
    reads bos
  {
    forall b :: b in bos ==> b.kind == kind && b.Valid()
  }

  /** Slot `i` can be mapped once all before it are: the backend maps, and the lock is granted,
      under ONCE also when the bo is locked already or fills an earlier slot. */
  ghost predicate SlotMaps(kind: LockType, bos: seq<Bo>, lockOk: seq<bool>, mapOk: seq<bool>, i: nat)
    requires i < |bos| == |lockOk| == |mapOk|
    reads bos
  {
    mapOk[i] &&
    (kind == Never || lockOk[i] || (kind == Once && (bos[i].lockCnt > 0 || bos[i] in bos[..i])))
  }

  /** `tbm_surface_internal_get_info` with map = 1. It succeeds exactly when every slot can be
      mapped, and stops at the first that cannot. On success every bo is mapped once per slot
      it fills; on failure every map count is what it was. Under ALWAYS the lock counts follow;
      under ONCE success leaves every bo locked, and failure unlocks every bo it had reached. */
  method GetInfoMapped(kind: LockType, bos: seq<Bo>, lockOk: seq<bool>, mapOk: seq<bool>)
    returns (ok: bool, reached: nat)
    requires AllValid(kind, bos) && |lockOk| == |mapOk| == |bos|
    modifies bos
    ensures AllValid(kind, bos)
    ensures if ok then reached == |bos| else reached < |bos| && !old(SlotMaps(kind, bos, lockOk, mapOk, reached))
    ensures forall i :: 0 <= i < reached ==> old(SlotMaps(kind, bos, lockOk, mapOk, i))
    ensures forall b :: b in bos ==> b.Net() == old(b.Net()) + (if ok then Count(bos, b) else 0)
    ensures kind == Always ==> forall b :: b in bos ==>
              b.lockCnt == old(b.lockCnt) + (if ok then Count(bos, b) else 0)
    ensures kind == Once ==> forall b :: b in bos ==>
              b.lockCnt == (if ok then 1 else if b in bos[..reached + 1] then 0 else old(b.lockCnt))
  {
    hide Balanced, DoMap;
    CountsNonNegative(kind, bos);
    reached := 0;
    while reached < |bos|
      invariant 0 <= reached <= |bos| && AllValid(kind, bos)
      invariant forall i :: 0 <= i < reached ==> old(SlotMaps(kind, bos, lockOk, mapOk, i))
      invariant forall b :: b in bos ==> b.Net() == old(b.Net()) + Count(bos[..reached], b)
      invariant kind == Always ==> forall b :: b in bos ==> b.lockCnt == old(b.lockCnt) + Count(bos[..reached], b)
      invariant kind == Once ==> forall b :: b in bos ==>
                  b.lockCnt == (if b in bos[..reached] then 1 else old(b.lockCnt))
    {
      Slots(bos, reached);
      ok := bos[reached].Map(lockOk[reached], mapOk[reached]);
      if !ok {
        UnmapPrefix(kind, bos, reached);
        return;
      }
      reached := reached + 1;
    }
    assert bos[..reached] == bos;
    ok := true;
  }

  lemma CountsNonNegative(kind: LockType, bos: seq<Bo>)
    requires AllValid(kind, bos)
    ensures forall b :: b in bos ==> b.lockCnt >= 0
  {
  }

  lemma Slots(s: seq<Bo>, i: nat)
    requires i < |s|
    ensures forall b :: Count(s[..i + 1], b) == Count(s[..i], b) + (if s[i] == b then 1 else 0)
    ensures forall b :: b in s[..i + 1] <==> b in s[..i] || b == s[i]
  {
    forall b: Bo ensures Count(s[..i + 1], b) == Count(s[..i], b) + (if s[i] == b then 1 else 0) {
      CountStep(s, i, b);
    }
    assert s[..i + 1] == s[..i] + [s[i]];
  }

  /** Unmaps the first `n` slots; the backend unmaps what it mapped. */
  method UnmapPrefix(kind: LockType, bos: seq<Bo>, n: nat)
    requires AllValid(kind, bos) && n <= |bos|
    requires kind == Always ==> forall b :: b in bos ==> b.lockCnt >= Count(bos[..n], b)
    modifies bos
    ensures AllValid(kind, bos)
    ensures forall b :: b in bos ==> b.Net() == old(b.Net()) - Count(bos[..n], b)
    ensures kind == Always ==> forall b :: b in bos ==> b.lockCnt == old(b.lockCnt) - Count(bos[..n], b)
    ensures kind == Once ==> forall b :: b in bos ==> b.lockCnt == (if b in bos[..n] then 0 else old(b.lockCnt))
  {
    hide Balanced, DoUnmap;
    var j := 0;
    while j < n
      invariant 0 <= j <= n && AllValid(kind, bos)
      invariant forall b :: b in bos ==> b.Net() == old(b.Net()) - Count(bos[..j], b)
      invariant kind == Always ==> forall b :: b in bos ==> b.lockCnt == old(b.lockCnt) - Count(bos[..j], b)
      invariant kind == Once ==> forall b :: b in bos ==>
                  b.lockCnt == (if b in bos[..j] then 0 else old(b.lockCnt))
    {
      Slots(bos, j);
      CountMonotonic(bos, j + 1, n, bos[j]);
      bos[j].Unmap(true);
      j := j + 1;
    }
  }

  /** `tbm_surface_internal_unmap` after a map restores every map count and, under ALWAYS, every
      lock count. */
  method MapThenUnmap(kind: LockType, bos: seq<Bo>, lockOk: seq<bool>, mapOk: seq<bool>) returns (ok: bool)
    requires AllValid(kind, bos) && |lockOk| == |mapOk| == |bos|
    modifies bos
    ensures ok <==> forall i :: 0 <= i < |bos| ==> old(SlotMaps(kind, bos, lockOk, mapOk, i))
    ensures forall b :: b in bos ==> b.mapCnt == old(b.mapCnt)
    ensures kind == Always ==> forall b :: b in bos ==> b.lockCnt == old(b.lockCnt)
  {
    var reached: nat;
    ok, reached := GetInfoMapped(kind, bos, lockOk, mapOk);
    if ok {
      assert bos[..|bos|] == bos;
      UnmapPrefix(kind, bos, |bos|);
    }
    forall b | b in bos ensures b.mapCnt == old(b.mapCnt) {
    }
  }
}
