/** Creating a surface lays the planes the backend describes out over bos: how many bos there
    are, and how large each is. Sizes are 32-bit unsigned sums. */
module PlanePartition {

  const UINT_RANGE := 0x1_0000_0000

  datatype Plane = Plane(size: int, boIdx: int)

  ghost predicate InRange(planes: seq<Plane>) {
    forall p :: p in planes ==> 0 <= p.size < UINT_RANGE
  }

  /** Addition of 32-bit unsigned integers. */
  function AddUint(a: int, b: int): int {
    if a + b >= UINT_RANGE then a + b - UINT_RANGE else a + b
  }

  /** `a` and `b` agree in their 32 low bits. */
  ghost predicate Congruent(a: int, b: int) {
    exists k: int :: a == b + k * UINT_RANGE
  }

  // ----- over the natural numbers -----

  function Total(planes: seq<Plane>): int {
    if planes == [] then 0 else planes[|planes| - 1].size + Total(planes[..|planes| - 1])
  }

  /** The size of bo `i`: of the planes assigned to it. */
  function SizeOf(planes: seq<Plane>, i: int): int {
    if planes == [] then 0
    else
      var last := planes[|planes| - 1];
      (if last.boIdx == i then last.size else 0) + SizeOf(planes[..|planes| - 1], i)
  }

  /** The planes the loops assign to no bo, having a negative index. */
  function Unassigned(planes: seq<Plane>): int {
    if planes == [] then 0
    else
      var last := planes[|planes| - 1];
      (if last.boIdx < 0 then last.size else 0) + Unassigned(planes[..|planes| - 1])
  }

  function NumBos(planes: seq<Plane>): (n: int)
    ensures n >= 1 && forall p :: p in planes ==> p.boIdx < n
    ensures n == 1 || exists p :: p in planes && p.boIdx == n - 1
  {
    if planes == [] then 1
    else
      var last, n := planes[|planes| - 1], NumBos(planes[..|planes| - 1]);
      assert planes == planes[..|planes| - 1] + [last];
      if n < last.boIdx + 1 then last.boIdx + 1 else n
  }

  function SumOfSizes(planes: seq<Plane>, n: nat): int {
    if n == 0 then 0 else SizeOf(planes, n - 1) + SumOfSizes(planes, n - 1)
  }

  lemma {:induction false} SumPlane(planes: seq<Plane>, n: nat)
    requires planes != []
    ensures var last, rest := planes[|planes| - 1], planes[..|planes| - 1];
            SumOfSizes(planes, n) == SumOfSizes(rest, n) + (if 0 <= last.boIdx < n then last.size else 0)
  {
    if n > 0 {
      SumPlane(planes, n - 1);
    }
  }

  lemma {:induction false} SumNothing(n: nat)
    ensures SumOfSizes([], n) == 0
  {
    if n > 0 {
      SumNothing(n - 1);
    }
  }

  /** The bos share out exactly the planes with an index: their sizes add up to the surface's,
      but for the planes assigned to no bo. */
  lemma {:induction false} Partition(planes: seq<Plane>, n: nat)
    requires NumBos(planes) <= n
    ensures SumOfSizes(planes, n) == Total(planes) - Unassigned(planes)
    decreases planes
  {
    if planes == [] {
      SumNothing(n);
    } else {
      SumPlane(planes, n);
      Partition(planes[..|planes| - 1], n);
      assert planes[|planes| - 1] in planes;
    }
  }

  /** So nothing is lost exactly when every plane with a negative index is empty. */
  lemma {:induction false} NothingLostExactly(planes: seq<Plane>)
    requires InRange(planes)
    ensures Unassigned(planes) >= 0
    ensures SumOfSizes(planes, NumBos(planes)) == Total(planes)
       <==> forall p :: p in planes && p.boIdx < 0 ==> p.size == 0
  {
    Partition(planes, NumBos(planes));
    UnassignedZero(planes);
  }

  lemma {:induction false} UnassignedZero(planes: seq<Plane>)
    requires InRange(planes)
    ensures Unassigned(planes) >= 0
    ensures Unassigned(planes) == 0 <==> forall p :: p in planes && p.boIdx < 0 ==> p.size == 0
  {
    if planes != [] {
      var last, rest := planes[|planes| - 1], planes[..|planes| - 1];
      assert planes == rest + [last];
      assert forall p :: p in planes <==> p in rest || p == last;
      UnassignedZero(rest);
    }
  }

  // ----- in 32 bits -----

  lemma AddCongruent(a: int, b: int, c: int)
    requires Congruent(a, b) && 0 <= a < UINT_RANGE && 0 <= c < UINT_RANGE
    ensures Congruent(AddUint(a, c), b + c) && 0 <= AddUint(a, c) < UINT_RANGE
  {
    var k: int :| a == b + k * UINT_RANGE;
    var r := AddUint(a, c);
    if a + c >= UINT_RANGE {
      assert r == (b + c) + (k - 1) * UINT_RANGE;
    } else {
      assert r == (b + c) + k * UINT_RANGE;
    }
  }

  lemma CongruentSum(a: int, b: int, c: int, d: int)
    requires Congruent(a, b) && Congruent(c, d)
    ensures Congruent(a + c, b + d) && Congruent(b, a)
  {
    var k: int :| a == b + k * UINT_RANGE;
    var l: int :| c == d + l * UINT_RANGE;
    assert a + c == (b + d) + (k + l) * UINT_RANGE;
    assert b == a + (-k) * UINT_RANGE;
  }

  function Sum(s: seq<int>): int {
    if s == [] then 0 else s[|s| - 1] + Sum(s[..|s| - 1])
  }

  lemma {:induction false} SumCongruent(planes: seq<Plane>, sizes: seq<int>)
    requires forall i :: 0 <= i < |sizes| ==> Congruent(sizes[i], SizeOf(planes, i))
    ensures Congruent(Sum(sizes), SumOfSizes(planes, |sizes|))
  {
    if sizes == [] {
      assert Sum(sizes) == SumOfSizes(planes, |sizes|) + 0 * UINT_RANGE;
    } else {
      var n := |sizes| - 1;
      SumCongruent(planes, sizes[..n]);
      CongruentSum(sizes[n], SizeOf(planes, n), Sum(sizes[..n]), SumOfSizes(planes, n));
    }
  }

  /** The loops of `tbm_surface_internal_create_with_flags`: the surface size and the number of
      bos in one pass, then the size of each bo in a pass over all planes. */
  method LayOut(planes: seq<Plane>) returns (size: int, numBos: int, boSizes: seq<int>)
    requires InRange(planes)
    ensures 0 <= size < UINT_RANGE && Congruent(size, Total(planes))
    ensures numBos == NumBos(planes) == |boSizes|
    ensures forall i :: 0 <= i < numBos ==>
              0 <= boSizes[i] < UINT_RANGE && Congruent(boSizes[i], SizeOf(planes, i))
    ensures Unassigned(planes) == 0 ==> Congruent(Sum(boSizes), size)
  {
    size, numBos := Measure(planes);
    boSizes := [];
    hide Congruent, SizeOf, Total, Unassigned, Sum, NumBos, InRange;
    while |boSizes| < numBos
      invariant |boSizes| <= numBos
      invariant forall k :: 0 <= k < |boSizes| ==>
                  0 <= boSizes[k] < UINT_RANGE && Congruent(boSizes[k], SizeOf(planes, k))
    {
      var boSize := SizeBo(planes, |boSizes|);
      boSizes := boSizes + [boSize];
    }
    SumsAgree(planes, size, boSizes);
  }

  lemma SumsAgree(planes: seq<Plane>, size: int, boSizes: seq<int>)
    requires Congruent(size, Total(planes)) && |boSizes| == NumBos(planes)
    requires forall i :: 0 <= i < |boSizes| ==> Congruent(boSizes[i], SizeOf(planes, i))
    ensures Unassigned(planes) == 0 ==> Congruent(Sum(boSizes), size)
  {
    SumCongruent(planes, boSizes);
    Partition(planes, |boSizes|);
    CongruentSum(size, Total(planes), size, Total(planes));
    if Unassigned(planes) == 0 {
      CongruentTrans(Sum(boSizes), Total(planes), size);
    }
  }

  /** The first pass. */
  method Measure(planes: seq<Plane>) returns (size: int, numBos: int)
    requires InRange(planes)
    ensures 0 <= size < UINT_RANGE && Congruent(size, Total(planes)) && numBos == NumBos(planes)
  {
    size, numBos := 0, 1;
    assert Congruent(0, Total([])) by {
      assert 0 == Total([]) + 0 * UINT_RANGE;
    }
    var i := 0;
    while i < |planes|
      invariant 0 <= i <= |planes|
      invariant 0 <= size < UINT_RANGE && Congruent(size, Total(planes[..i]))
      invariant numBos == NumBos(planes[..i])
    {
      PrefixStep(planes, i);
      hide Congruent, Total, NumBos;
      AddCongruent(size, Total(planes[..i]), planes[i].size);
      size := AddUint(size, planes[i].size);
      if numBos < planes[i].boIdx + 1 {
        numBos := planes[i].boIdx + 1;
      }
      i := i + 1;
    }
    assert planes[..i] == planes;
  }

  lemma CongruentTrans(a: int, b: int, c: int)
    requires Congruent(a, b) && Congruent(b, c)
    ensures Congruent(a, c)
  {
    var k: int :| a == b + k * UINT_RANGE;
    var l: int :| b == c + l * UINT_RANGE;
    assert a == c + (k + l) * UINT_RANGE;
  }

  lemma PrefixStep(planes: seq<Plane>, i: nat)
    requires i < |planes|
    ensures Total(planes[..i + 1]) == Total(planes[..i]) + planes[i].size
    ensures NumBos(planes[..i + 1])
         == if NumBos(planes[..i]) < planes[i].boIdx + 1 then planes[i].boIdx + 1 else NumBos(planes[..i])
    ensures forall k :: SizeOf(planes[..i + 1], k)
                     == SizeOf(planes[..i], k) + (if planes[i].boIdx == k then planes[i].size else 0)
  {
    var s := planes[..i + 1];
    assert s[..|s| - 1] == planes[..i] && s[|s| - 1] == planes[i];
  }

  /** The inner loop. */
  method SizeBo(planes: seq<Plane>, bo: int) returns (boSize: int)
    requires InRange(planes)
    ensures 0 <= boSize < UINT_RANGE && Congruent(boSize, SizeOf(planes, bo))
  {
    boSize := 0;
    assert Congruent(0, SizeOf([], bo)) by {
      assert 0 == SizeOf([], bo) + 0 * UINT_RANGE;
    }
    var j := 0;
    while j < |planes|
      invariant 0 <= j <= |planes|
      invariant 0 <= boSize < UINT_RANGE && Congruent(boSize, SizeOf(planes[..j], bo))
    {
      PrefixStep(planes, j);
      if planes[j].boIdx == bo {
        AddCongruent(boSize, SizeOf(planes[..j], bo), planes[j].size);
        boSize := AddUint(boSize, planes[j].size);
      }
      j := j + 1;
    }
    assert planes[..j] == planes;
  }

  /** A surface whose planes fit in 32 bits is shared out without loss. */
  lemma FitsExactly(planes: seq<Plane>, size: int)
    requires InRange(planes) && Total(planes) < UINT_RANGE
    requires 0 <= size < UINT_RANGE && Congruent(size, Total(planes))
    ensures size == Total(planes)
  {
    TotalNonNegative(planes);
  }

  lemma {:induction false} TotalNonNegative(planes: seq<Plane>)
    requires InRange(planes)
    ensures Total(planes) >= 0
  {
    if planes != [] {
      assert planes[|planes| - 1] in planes;
      TotalNonNegative(planes[..|planes| - 1]);
    }
  }
}
