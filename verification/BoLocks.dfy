/** Lock and map accounting of a buffer object: `_tbm_bo_lock`, `_tbm_bo_unlock`, map, unmap and
    the drain of the last unref, in the three lock modes. */
module BoLocks {

  datatype LockType = Once | Always | Never

  /** `map_cnt` is an unsigned int. */
  const UINT_RANGE := 0x1_0000_0000

  /** `lock_cnt` and `map_cnt`; `locks` and `unlocks` count the successful backend locks and the
      backend unlocks of the bo's life, `stray` the successful unmaps that found it unlocked, and
      `wraps` how often map_cnt ran over less how often it ran under. */
  datatype Account = Account(lockCnt: int, mapCnt: int, locks: nat, unlocks: nat, stray: nat, wraps: int)

  const NEW_BO := Account(0, 0, 0, 0, 0, 0)

  function AddMap(a: Account): Account {
    if a.mapCnt == UINT_RANGE - 1 then a.(mapCnt := 0, wraps := a.wraps + 1)
    else a.(mapCnt := a.mapCnt + 1)
  }

  function DropMap(a: Account): Account {
    if a.mapCnt == 0 then a.(mapCnt := UINT_RANGE - 1, wraps := a.wraps - 1)
    else a.(mapCnt := a.mapCnt - 1)
  }

  /** `_tbm_bo_lock`; `ok` is what the backend answers if it is asked. */
  function DoLock(kind: LockType, a: Account, ok: bool): (Account, bool) {
    if kind == Never then (a, true)
    else if a.lockCnt < 0 then (a, false)
    else if kind == Once && a.lockCnt > 0 then (a, true)
    else if ok then (a.(lockCnt := a.lockCnt + 1, locks := a.locks + 1), true)
    else (a, false)
  }

  function DoUnlock(kind: LockType, a: Account): Account {
    if kind == Never || a.lockCnt == 0 then a
    else if a.lockCnt < 0 then a.(lockCnt := 0)
    else
      var a1 := a.(lockCnt := a.lockCnt - 1);
      if kind == Once && a1.lockCnt != 0 then a1 else a1.(unlocks := a1.unlocks + 1)
  }

  function DoMap(kind: LockType, a: Account, lockOk: bool, mapOk: bool): (Account, bool) {
    var (a1, locked) := DoLock(kind, a, lockOk);
    if !locked then (a1, false)
    else if !mapOk then (DoUnlock(kind, a1), false)
    else (AddMap(a1), true)
  }

  function DoUnmap(kind: LockType, a: Account, ok: bool): Account {
    if !ok then a
    else
      DoUnlock(kind, DropMap(a).(stray := a.stray + (if a.lockCnt == 0 then 1 else 0)))
  }

  /** The loop of the last unref unlocks once per remaining count. */
  function Drain(a: Account): Account
    decreases a.lockCnt
  {
    if a.lockCnt <= 0 then a
    else Drain(a.(lockCnt := a.lockCnt - 1, unlocks := a.unlocks + 1))
  }

  datatype Op = MapOp(lockOk: bool, mapOk: bool) | UnmapOp(ok: bool)

  function Apply(kind: LockType, a: Account, op: Op): Account {
    match op
    case MapOp(lockOk, mapOk) => DoMap(kind, a, lockOk, mapOk).0
    case UnmapOp(ok) => DoUnmap(kind, a, ok)
  }

  function Run(kind: LockType, a: Account, ops: seq<Op>): Account
    decreases ops
  {
    if ops == [] then a else Run(kind, Apply(kind, a, ops[0]), ops[1..])
  }

  // ----- what every call keeps -----

  ghost predicate Balanced(kind: LockType, a: Account) {
    && a.locks - a.unlocks == a.lockCnt >= 0
    && 0 <= a.mapCnt < UINT_RANGE
    && (kind == Once ==> a.lockCnt <= 1)
    && (kind == Never ==> a.locks == a.unlocks == 0)
    && (kind == Always ==> a.mapCnt + a.wraps * UINT_RANGE == a.lockCnt - a.stray)
  }

  /** In every mode, over every run of maps and unmaps, failed ones included: backend locks minus
      backend unlocks is lock_cnt. Under ALWAYS map_cnt and lock_cnt differ exactly by the unmaps
      that had no map before them and by whole turns of the unsigned counter. */
  lemma {:induction false} LockAccounting(kind: LockType, a: Account, ops: seq<Op>)
    requires Balanced(kind, a)
    ensures var r := Run(kind, a, ops);
            && Balanced(kind, r)
            && (kind == Always ==> (r.mapCnt == r.lockCnt <==> r.stray + r.wraps * UINT_RANGE == 0))
            && (kind == Always && r.stray == 0 && r.lockCnt < UINT_RANGE ==> r.mapCnt == r.lockCnt)
    decreases ops
  {
    if ops != [] {
      LockAccounting(kind, Apply(kind, a, ops[0]), ops[1..]);
    }
  }

  /** The drain of the last unref gives every backend lock back, in every mode. */
  lemma {:induction false} DrainSettles(kind: LockType, a: Account)
    requires Balanced(kind, a)
    ensures var r := Drain(a); r.lockCnt == 0 && r.locks == r.unlocks == a.locks
    decreases a.lockCnt
  {
    if a.lockCnt > 0 {
      var a1 := a.(lockCnt := a.lockCnt - 1, unlocks := a.unlocks + 1);
      DrainBalanced(a1);
    }
  }

  lemma {:induction false} DrainBalanced(a: Account)
    requires a.locks - a.unlocks == a.lockCnt >= 0
    ensures var r := Drain(a); r.lockCnt == 0 && r.locks == r.unlocks == a.locks
    decreases a.lockCnt
  {
    if a.lockCnt > 0 {
      DrainBalanced(a.(lockCnt := a.lockCnt - 1, unlocks := a.unlocks + 1));
    }
  }

  /** A bo's whole life: whatever was mapped and unmapped, locks and unlocks come out even. */
  lemma LifeSettles(kind: LockType, ops: seq<Op>)
    ensures var r := Drain(Run(kind, NEW_BO, ops)); r.locks == r.unlocks
  {
    LockAccounting(kind, NEW_BO, ops);
    DrainSettles(kind, Run(kind, NEW_BO, ops));
  }

  // ----- the ONCE mode -----

  /** Under ONCE the bo is locked exactly when its last call that was not a failed unmap was a
      successful map: a failed map and the first successful unmap both give the lock up, however
      many maps are outstanding. */
  function LockedOnce(ops: seq<Op>): bool {
    if ops == [] then false
    else
      var last, before := ops[|ops| - 1], ops[..|ops| - 1];
      match last
      case MapOp(lockOk, mapOk) => mapOk && (lockOk || LockedOnce(before))
      case UnmapOp(ok) => !ok && LockedOnce(before)
  }

  lemma {:induction false} RunLast(kind: LockType, a: Account, ops: seq<Op>)
    requires ops != []
    ensures Run(kind, a, ops) == Apply(kind, Run(kind, a, ops[..|ops| - 1]), ops[|ops| - 1])
    decreases ops
  {
    if |ops| > 1 {
      RunLast(kind, Apply(kind, a, ops[0]), ops[1..]);
      assert ops[1..][..|ops| - 2] == ops[..|ops| - 1][1..];
    }
  }

  lemma {:induction false} OnceExactly(ops: seq<Op>)
    ensures Run(Once, NEW_BO, ops).lockCnt == (if LockedOnce(ops) then 1 else 0)
    decreases ops
  {
    if ops != [] {
      RunLast(Once, NEW_BO, ops);
      OnceExactly(ops[..|ops| - 1]);
    }
  }

  /** Hence a bo can stay mapped while it is no longer locked: after two maps and one unmap. */
  lemma OnceUnlocksWhileMapped()
    ensures var r := Run(Once, NEW_BO, [MapOp(true, true), MapOp(true, true), UnmapOp(true)]);
            r.mapCnt == 1 && r.lockCnt == 0 && r.unlocks == r.locks == 1
  {
    var ops := [MapOp(true, true), MapOp(true, true), UnmapOp(true)];
    assert ops[1..] == [MapOp(true, true), UnmapOp(true)];
    assert ops[1..][1..] == [UnmapOp(true)];
  }

  // ----- what is granted -----

  /** Whether a bo locked `lockCnt` times grants a map its lock: NEVER asks nobody, ALWAYS asks
      the backend, and ONCE asks it unless the bo is locked. */
  predicate Granted(kind: LockType, lockCnt: int, lockOk: bool) {
    match kind
    case Never => true
    case Always => lockOk
    case Once => lockCnt > 0 || lockOk
  }

  /** A map succeeds exactly when the lock is granted and the backend maps. The backend is locked
      when it is asked and agrees, and unlocked again when the map then fails. */
  lemma MapExactly(kind: LockType, a: Account, lockOk: bool, mapOk: bool)
    requires Balanced(kind, a)
    ensures var (r, ok) := DoMap(kind, a, lockOk, mapOk);
            var granted := Granted(kind, a.lockCnt, lockOk);
            var asked := kind == Always || (kind == Once && a.lockCnt == 0);
            && (ok <==> granted && mapOk)
            && r.locks == a.locks + (if asked && lockOk then 1 else 0)
            && r.unlocks == a.unlocks + (if kind != Never && granted && !mapOk then 1 else 0)
            && r.mapCnt + r.wraps * UINT_RANGE == a.mapCnt + a.wraps * UINT_RANGE + (if ok then 1 else 0)
            && r.stray == a.stray
  {
  }

  /** A successful unmap takes one map away and, if the bo is locked, unlocks the backend. */
  lemma UnmapExactly(kind: LockType, a: Account, unmapOk: bool)
    requires Balanced(kind, a)
    ensures var r := DoUnmap(kind, a, unmapOk);
            && r.locks == a.locks
            && r.unlocks == a.unlocks + (if unmapOk && a.lockCnt > 0 then 1 else 0)
            && r.mapCnt + r.wraps * UINT_RANGE
            == a.mapCnt + a.wraps * UINT_RANGE - (if unmapOk then 1 else 0)
            && r.stray == a.stray + (if unmapOk && a.lockCnt == 0 then 1 else 0)
  {
  }

  /** Under ALWAYS: how often the bo is locked, by its calls alone. */
  function LockedAlways(ops: seq<Op>): nat {
    if ops == [] then 0
    else
      var last, before := ops[|ops| - 1], LockedAlways(ops[..|ops| - 1]);
      match last
      case MapOp(lockOk, mapOk) => if lockOk && mapOk then before + 1 else before
      case UnmapOp(ok) => if ok && before > 0 then before - 1 else before
  }

  /** Successful maps less successful unmaps, by the calls alone. */
  function Mapped(kind: LockType, ops: seq<Op>): int {
    if ops == [] then 0
    else
      var last, before := ops[|ops| - 1], ops[..|ops| - 1];
      match last
      case MapOp(lockOk, mapOk) =>
        var locked := kind == Never || lockOk || (kind == Once && LockedOnce(before));
        Mapped(kind, before) + (if locked && mapOk then 1 else 0)
      case UnmapOp(ok) => Mapped(kind, before) - (if ok then 1 else 0)
  }

  /** How often the backend is locked: by every call that asks it and is not refused. */
  function Locks(kind: LockType, ops: seq<Op>): nat {
    if ops == [] then 0
    else
      var last, before := ops[|ops| - 1], ops[..|ops| - 1];
      var asks := kind == Always || (kind == Once && !LockedOnce(before));
      Locks(kind, before) + (if last.MapOp? && last.lockOk && asks then 1 else 0)
  }

  /** Over every run, the counters are what the answers of the backend make them. */
  lemma {:induction false} CountsExactly(kind: LockType, ops: seq<Op>)
    ensures var r := Run(kind, NEW_BO, ops);
            && r.mapCnt + r.wraps * UINT_RANGE == Mapped(kind, ops)
            && r.locks == Locks(kind, ops)
            && (kind == Always ==> r.lockCnt == LockedAlways(ops))
    decreases ops
  {
    if ops != [] {
      var before := ops[..|ops| - 1];
      RunLast(kind, NEW_BO, ops);
      CountsExactly(kind, before);
      LockAccounting(kind, NEW_BO, before);
      if kind == Once {
        OnceExactly(before);
      }
      var a := Run(kind, NEW_BO, before);
      match ops[|ops| - 1]
      case MapOp(lockOk, mapOk) => MapExactly(kind, a, lockOk, mapOk);
      case UnmapOp(ok) => UnmapExactly(kind, a, ok);
    }
  }

  // ----- in place -----

  class Bo {
    const kind: LockType
    var lockCnt: int
    var mapCnt: int
    ghost var locks: nat
    ghost var unlocks: nat
    ghost var stray: nat
    ghost var wraps: int

    ghost function Books(): Account
      reads this
    {
      Account(lockCnt, mapCnt, locks, unlocks, stray, wraps)
    }

    ghost predicate Valid()
      reads this
    {
      Balanced(kind, Books())
    }

    /** Successful maps less successful unmaps; map_cnt is this number in its 32 bits. */
    ghost function Net(): int
      reads this
    {
      mapCnt + wraps * UINT_RANGE
    }

    constructor (kind: LockType)
      ensures Valid() && Books() == NEW_BO && this.kind == kind
    {
      this.kind, lockCnt, mapCnt, locks, unlocks, stray, wraps := kind, 0, 0, 0, 0, 0, 0;
    }

    method TakeLock(backendOk: bool) returns (ret: bool)
      modifies this
      ensures (Books(), ret) == DoLock(kind, old(Books()), backendOk)
      ensures old(lockCnt) >= 0 ==> (ret <==> Granted(kind, old(lockCnt), backendOk))
    {
      if kind == Never {
        return true;
      }
      if lockCnt < 0 {
        return false;
      }
      match kind
      case Once =>
        if lockCnt == 0 {
          ret := backendOk;
          if ret {
            lockCnt := lockCnt + 1;
            locks := locks + 1;
          }
        } else {
          ret := true;
        }
      case Always =>
        ret := backendOk;
        if ret {
          lockCnt := lockCnt + 1;
          locks := locks + 1;
        }
    }

    method ReleaseLock()
      modifies this
      ensures Books() == DoUnlock(kind, old(Books()))
    {
      if kind == Never {
        return;
      }
      match kind {
        case Once =>
          if lockCnt > 0 {
            lockCnt := lockCnt - 1;
            if lockCnt == 0 {
              unlocks := unlocks + 1;
            }
          }
        case Always =>
          if lockCnt > 0 {
            lockCnt := lockCnt - 1;
            unlocks := unlocks + 1;
          }
      }
      if lockCnt < 0 {
        lockCnt := 0;
      }
    }

    method Map(lockOk: bool, mapOk: bool) returns (ok: bool)
      requires Valid()
      modifies this
      ensures Valid() && (Books(), ok) == DoMap(kind, old(Books()), lockOk, mapOk)
      ensures ok <==> mapOk && (kind == Never || lockOk || (kind == Once && old(lockCnt) > 0))
      ensures Net() == old(Net()) + (if ok then 1 else 0)
      ensures kind == Always ==> lockCnt == old(lockCnt) + (if ok then 1 else 0)
      ensures kind == Once ==> lockCnt == if ok then 1 else 0
    {
      var locked := TakeLock(lockOk);
      if !locked {
        return false;
      }
      if !mapOk {
        ReleaseLock();
        return false;
      }
      wraps := AddMap(Books()).wraps;
      mapCnt := if mapCnt == UINT_RANGE - 1 then 0 else mapCnt + 1;
      return true;
    }

    method Unmap(unmapOk: bool)
      requires Valid()
      modifies this
      ensures Valid() && Books() == DoUnmap(kind, old(Books()), unmapOk)
      ensures Net() == old(Net()) - (if unmapOk then 1 else 0)
      ensures unmapOk && kind == Always && old(lockCnt) > 0 ==> lockCnt == old(lockCnt) - 1
      ensures unmapOk && kind == Once ==> lockCnt == 0
    {
      if unmapOk {
        wraps := DropMap(Books()).wraps;
        mapCnt := if mapCnt == 0 then UINT_RANGE - 1 else mapCnt - 1;
        stray := stray + (if lockCnt == 0 then 1 else 0);
        ReleaseLock();
      }
    }

    /** The net count determines map_cnt. */
    /** The drain loop of the last unref. */
    method LastUnref()
      requires Valid()
      modifies this
      ensures Books() == Drain(old(Books())) && lockCnt == 0 && locks == unlocks
    {
      DrainSettles(kind, Books());
      while lockCnt > 0
        invariant Drain(Books()) == Drain(old(Books())) && lockCnt >= 0
        decreases lockCnt
      {
        unlocks := unlocks + 1;
        lockCnt := lockCnt - 1;
      }
    }
  }
}
