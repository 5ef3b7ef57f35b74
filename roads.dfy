/*
 * The road records of a four-way intersection: one `Road` per approach,
 * held in a fixed array of `Lanes` entries that the engine updates in place.
 */
module Roads {

  /** Number of approaches of the intersection (North, South, East, West). */
  const Lanes := 4

  datatype Signal = Red | Yellow | Green

  /** One approach. The display name is not modelled. */
  datatype Road = Road(
    signal: Signal,
    greenTime: int,
    yellowTime: int,
    redTime: int,        // derived: the other roads' green + yellow
    vehiclesWaiting: int // operator-entered demand
  )

  /** Time a road keeps the intersection: its green plus its yellow. */
  function Load(road: Road): int {
    road.greenTime + road.yellowTime
  }

  /** The same roads with every signal forced to RED. */
  function AllRed(s: seq<Road>): seq<Road> {
    seq(|s|, k requires 0 <= k < |s| => s[k].(signal := Red))
  }

  /** Road `idx` shows `sig`, every other road shows RED. */
  predicate OnlyActive(s: seq<Road>, idx: int, sig: Signal) {
    0 <= idx < |s| &&
    forall k :: 0 <= k < |s| ==> s[k].signal == (if k == idx then sig else Red)
  }

  /** Number of roads whose signal is not RED (GREEN or YELLOW). */
  function ActiveCount(s: seq<Road>): nat {
    if s == [] then 0
    else ActiveCount(s[..|s| - 1]) + (if s[|s| - 1].signal == Red then 0 else 1)
  }

  lemma {:induction false} ActiveCountPrefix(s: seq<Road>, idx: int, sig: Signal, n: nat)
    requires OnlyActive(s, idx, sig) && sig != Red && n <= |s|
    ensures ActiveCount(s[..n]) == if idx < n then 1 else 0
  {
    if n > 0 {
      assert s[..n][..n - 1] == s[..n - 1];
      ActiveCountPrefix(s, idx, sig, n - 1);
    }
  }

  /** Mutual exclusion: a snapshot where only `idx` is lit has exactly one active road. */
  lemma OnlyActiveIsExclusive(s: seq<Road>, idx: int, sig: Signal)
    requires OnlyActive(s, idx, sig) && sig != Red
    ensures ActiveCount(s) == 1
    ensures forall k :: 0 <= k < |s| && s[k].signal != Red ==> k == idx
  {
    ActiveCountPrefix(s, idx, sig, |s|);
    assert s[..|s|] == s;
  }

  /** After every signal is forced to RED no road is active. */
  lemma {:induction false} AllRedHasNoActive(s: seq<Road>)
    ensures ActiveCount(AllRed(s)) == 0
  {
    if s != [] {
      assert AllRed(s)[..|s| - 1] == AllRed(s[..|s| - 1]);
      AllRedHasNoActive(s[..|s| - 1]);
    }
  }

  /** The stored demand for a value read from the operator: negatives become 0. */
  function ClampDemand(v: int): (c: int)
    ensures c >= 0
    ensures v >= 0 ==> c == v
  {
    if v < 0 then 0 else v
  }

  /** The roads after one demand entry per road has been read and clamped. */
  function WithDemand(s: seq<Road>, input: seq<int>): seq<Road>
    requires |input| == |s|
  {
    seq(|s|, k requires 0 <= k < |s| => s[k].(vehiclesWaiting := ClampDemand(input[k])))
  }

  /** Forces every road to RED, touching no other field. */
  method ResetSignalsToRed(r: array<Road>)
    requires r.Length == Lanes
    modifies r
    ensures r[..] == AllRed(old(r[..]))
    ensures forall k :: 0 <= k < Lanes ==> r[k].signal == Red
  {
    for i := 0 to Lanes
      invariant forall k :: 0 <= k < i ==> r[k] == old(r[k]).(signal := Red)
      invariant forall k :: i <= k < Lanes ==> r[k] == old(r[k])
    {
      r[i] := r[i].(signal := Red);
    }
  }

  /**
   * Stores one operator-entered count per road, replacing a negative count
   * by 0. The console read is the parameter `input`.
   */
  method SetVehicles(r: array<Road>, input: seq<int>)
    requires r.Length == Lanes && |input| == Lanes
    modifies r
    ensures r[..] == WithDemand(old(r[..]), input)
    ensures forall k :: 0 <= k < Lanes ==>
      r[k].vehiclesWaiting >= 0 &&
      (input[k] >= 0 ==> r[k].vehiclesWaiting == input[k]) &&
      (input[k] < 0 ==> r[k].vehiclesWaiting == 0)
  {
    for i := 0 to Lanes
      invariant forall k :: 0 <= k < i ==> r[k] == old(r[k]).(vehiclesWaiting := ClampDemand(input[k]))
      invariant forall k :: i <= k < Lanes ==> r[k] == old(r[k])
    {
      r[i] := r[i].(vehiclesWaiting := input[i]);
      if r[i].vehiclesWaiting < 0 {
        r[i] := r[i].(vehiclesWaiting := 0);
      }
    }
  }
}
