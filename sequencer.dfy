/*
 * The visiting order of one cycle: the default order fixed at start-up and
 * the manual override "chosen first road, then the others in index order".
 */
module Sequencer {
  import opened Roads

  /** The road indices 0, 1, ..., n - 1 in ascending order. */
  function Range(n: nat): seq<int> {
    if n == 0 then [] else Range(n - 1) + [n - 1]
  }

  /** `order` lists every road index exactly once. */
  predicate IsPermutation(order: seq<int>) {
    multiset(order) == multiset(Range(Lanes))
  }

  /** Start-up order: North, East, South, West. */
  const DefaultOrder: seq<int> := [0, 2, 1, 3]

  /** The first road of a manual override; an index outside 0..3 falls back to 0. */
  function FirstRoad(first: int): int {
    if first < 0 || first > 3 then 0 else first
  }

  /** The indices below `n` other than `f`, ascending. */
  function OthersBelow(n: nat, f: int): seq<int> {
    if n == 0 then [] else OthersBelow(n - 1, f) + (if n - 1 == f then [] else [n - 1])
  }

  /**
   * The override order: the chosen first road, then the remaining roads in
   * index order (the k-th remaining road is k below the chosen one, k + 1 from it on).
   */
  function OverrideOrder(first: int): seq<int> {
    var f := FirstRoad(first);
    [f] + seq(Lanes - 1, k requires 0 <= k < Lanes - 1 => if k < f then k else k + 1)
  }

  lemma {:induction false} RangeFacts(n: nat)
    ensures |Range(n)| == n
    ensures forall k :: 0 <= k < n ==> Range(n)[k] == k
  {
    if n > 0 {
      RangeFacts(n - 1);
    }
  }

  lemma {:induction false} OthersBelowLength(n: nat, f: int)
    ensures |OthersBelow(n, f)| == if 0 <= f < n then n - 1 else n
  {
    if n > 0 {
      OthersBelowLength(n - 1, f);
    }
  }

  lemma {:induction false} OthersBelowAll(n: nat, f: int)
    requires f < 0 || n <= f
    ensures OthersBelow(n, f) == Range(n)
  {
    if n > 0 {
      OthersBelowAll(n - 1, f);
    }
  }

  /** Putting `f` back into the indices below `n` other than `f` gives all of them. */
  lemma {:induction false} OthersBelowMultiset(n: nat, f: int)
    requires 0 <= f < n
    ensures multiset(OthersBelow(n, f)) + multiset{f} == multiset(Range(n))
  {
    var m := n - 1;
    if m == f {
      OthersBelowAll(m, f);
      assert OthersBelow(n, f) == Range(m);
    } else {
      OthersBelowMultiset(m, f);
      assert OthersBelow(n, f) == OthersBelow(m, f) + [m];
    }
  }

  /** The indices below `n` other than `f`: k below `f`, k + 1 from `f` on. */
  lemma {:induction false} OthersBelowAt(n: nat, f: int)
    requires 0 <= f < n
    ensures |OthersBelow(n, f)| == n - 1
    ensures forall k :: 0 <= k < n - 1 ==> OthersBelow(n, f)[k] == if k < f then k else k + 1
  {
    var m := n - 1;
    if m == f {
      OthersBelowAll(m, f);
      RangeFacts(m);
      assert OthersBelow(n, f) == Range(m);
    } else {
      OthersBelowAt(m, f);
      assert OthersBelow(n, f) == OthersBelow(m, f) + [m];
    }
  }

  /** The closed form agrees with the used-flags construction: first road, then OthersBelow. */
  lemma OverrideOrderBuilt(first: int)
    ensures OverrideOrder(first) == [FirstRoad(first)] + OthersBelow(Lanes, FirstRoad(first))
  {
    OthersBelowAt(Lanes, FirstRoad(first));
  }

  /**
   * The override order starts with the validated first road and continues
   * in strictly ascending index order, skipping the first road.
   */
  lemma OverrideOrderShape(first: int)
    ensures |OverrideOrder(first)| == Lanes
    ensures OverrideOrder(first)[0] == (if 0 <= first <= 3 then first else 0)
    ensures forall j, k :: 1 <= j < k < Lanes ==> OverrideOrder(first)[j] < OverrideOrder(first)[k]
    ensures forall k :: 1 <= k < Lanes ==> OverrideOrder(first)[k] != OverrideOrder(first)[0]
  {
  }

  /** The override order lists every road exactly once. */
  lemma OverrideOrderIsPermutation(first: int)
    ensures IsPermutation(OverrideOrder(first))
  {
    var f := FirstRoad(first);
    OverrideOrderBuilt(first);
    OthersBelowMultiset(Lanes, f);
    assert multiset(OverrideOrder(first)) == multiset{f} + multiset(OthersBelow(Lanes, f));
  }

  /** Two worked cases: first = 2 gives [2, 0, 1, 3]; an out-of-range first = 9 starts at 0. */
  lemma OverrideOrderExamples()
    ensures OverrideOrder(2) == [2, 0, 1, 3]
    ensures OverrideOrder(9) == [0, 1, 2, 3]
  {
  }

  lemma AllRoads()
    ensures multiset(Range(Lanes)) == multiset{0, 1, 2, 3}
  {
    RangeFacts(Lanes);
    assert Range(Lanes) == [0, 1, 2, 3];
  }

  /** A permutation has length Lanes, only valid indices, no repeats, and every road. */
  lemma PermutationFacts(order: seq<int>)
    requires IsPermutation(order)
    ensures |order| == Lanes
    ensures forall k :: 0 <= k < |order| ==> 0 <= order[k] < Lanes
    ensures forall j, k :: 0 <= j < k < |order| ==> order[j] != order[k]
    ensures forall road :: 0 <= road < Lanes ==> road in order
  {
    AllRoads();
    var all := multiset{0, 1, 2, 3};
    assert |order| == |multiset(order)| == |all|;
    forall k | 0 <= k < |order| ensures 0 <= order[k] < Lanes {
      assert order[k] in multiset(order);
    }
    forall road | 0 <= road < Lanes ensures road in order {
      assert road in all;
      assert road in multiset(order);
    }
  }

  /** The start-up order is a permutation of the roads. */
  lemma DefaultOrderIsPermutation()
    ensures IsPermutation(DefaultOrder)
  {
    RangeFacts(Lanes);
    assert Range(Lanes) == [0, 1, 2, 3];
  }

  /**
   * Builds the override order in a scratch array, marking the chosen road as
   * used and appending every unused index in ascending order.
   */
  method BuildOverrideOrder(first: int) returns (newOrder: seq<int>)
    ensures newOrder == OverrideOrder(first)
    ensures |newOrder| == Lanes && newOrder[0] == FirstRoad(first)
    ensures IsPermutation(newOrder)
  {
    var f := first;
    if f < 0 || f > 3 {
      f := 0;
    }
    var used := new bool[Lanes](_ => false);
    var buf := new int[Lanes];
    buf[0] := f;
    used[f] := true;
    var pos := 1;
    for i := 0 to Lanes
      invariant forall k :: 0 <= k < Lanes ==> used[k] == (k == f)
      invariant pos == 1 + |OthersBelow(i, f)| <= Lanes
      invariant buf[..pos] == [f] + OthersBelow(i, f)
    {
      OthersBelowLength(i, f);
      OthersBelowLength(i + 1, f);
      if !used[i] {
        buf[pos] := i;
        pos := pos + 1;
      }
    }
    OthersBelowLength(Lanes, f);
    assert buf[..] == buf[..pos];
    OverrideOrderBuilt(first);
    newOrder := buf[..];
    OverrideOrderIsPermutation(first);
  }

  /** The manual override: rebuilds the order and copies it into the active order. */
  method ApplyManualOverride(order: array<int>, first: int)
    requires order.Length == Lanes
    modifies order
    ensures order[..] == OverrideOrder(first)
    ensures IsPermutation(order[..]) && order[0] == FirstRoad(first)
  {
    var newOrder := BuildOverrideOrder(first);
    for i := 0 to Lanes
      invariant forall k :: 0 <= k < i ==> order[k] == newOrder[k]
    {
      order[i] := newOrder[i];
    }
    assert order[..] == newOrder;
  }
}
