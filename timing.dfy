/*
 * Timing policies: fixed per-mode timings, demand-adaptive green, and the
 * derived red times, together with the green/yellow totals shown per cycle.
 */
module Timing {
  import opened Roads

  /** Sum of the green times of all roads. */
  function SumGreen(s: seq<Road>): int {
    if s == [] then 0 else SumGreen(s[..|s| - 1]) + s[|s| - 1].greenTime
  }

  /** Sum of the yellow times of all roads. */
  function SumYellow(s: seq<Road>): int {
    if s == [] then 0 else SumYellow(s[..|s| - 1]) + s[|s| - 1].yellowTime
  }

  /** Sum of green + yellow over every road except road `i`. */
  function SumOthers(s: seq<Road>, i: int): int {
    if s == [] then 0
    else SumOthers(s[..|s| - 1], i) + (if |s| - 1 == i then 0 else Load(s[|s| - 1]))
  }

  lemma {:induction false} SumOthersOutside(s: seq<Road>, i: int)
    requires i < 0 || |s| <= i
    ensures SumOthers(s, i) == SumGreen(s) + SumYellow(s)
  {
    if s != [] {
      SumOthersOutside(s[..|s| - 1], i);
    }
  }

  /** The red-time identity: the others' load is the total load minus one's own. */
  lemma {:induction false} SumOthersIsTotalMinusOwn(s: seq<Road>, i: int)
    requires 0 <= i < |s|
    ensures SumOthers(s, i) == SumGreen(s) + SumYellow(s) - Load(s[i])
  {
    var init := s[..|s| - 1];
    if i == |s| - 1 {
      SumOthersOutside(init, i);
    } else {
      SumOthersIsTotalMinusOwn(init, i);
      assert init[i] == s[i];
    }
  }

  lemma {:induction false} UniformTotal(s: seq<Road>, load: int)
    requires forall k :: 0 <= k < |s| ==> Load(s[k]) == load
    ensures SumGreen(s) + SumYellow(s) == |s| * load
  {
    if s != [] {
      var init := s[..|s| - 1];
      assert forall k :: 0 <= k < |init| ==> init[k] == s[k];
      UniformTotal(init, load);
      assert |s| * load == |init| * load + load;
    }
  }

  /** When every road has the same green + yellow, each red time is (Lanes - 1) times it. */
  lemma UniformRedTime(s: seq<Road>, i: int, load: int)
    requires 0 <= i < |s|
    requires forall k :: 0 <= k < |s| ==> Load(s[k]) == load
    ensures SumOthers(s, i) == (|s| - 1) * load
  {
    SumOthersIsTotalMinusOwn(s, i);
    UniformTotal(s, load);
  }

  /** The roads after the red times have been derived from the green and yellow times. */
  function WithRedTimes(s: seq<Road>): seq<Road> {
    seq(|s|, k requires 0 <= k < |s| => s[k].(redTime := SumOthers(s, k)))
  }

  /** Green time of the fixed policies: mode 1 is normal, every other mode is rush. */
  function ModeGreen(mode: int): int {
    if mode == 1 then 8 else 12
  }

  /** Yellow time set by the fixed policies. */
  const FixedYellow := 3

  /** The roads after the fixed timings of `mode` have been applied. */
  function FixedTimings(s: seq<Road>, mode: int): seq<Road> {
    seq(|s|, k requires 0 <= k < |s| => s[k].(greenTime := ModeGreen(mode), yellowTime := FixedYellow))
  }

  /** C's integer division, which truncates toward zero (Dafny's `/` is Euclidean). */
  function TruncDiv(a: int, b: int): (q: int)
    requires b > 0
    ensures a >= 0 ==> 0 <= a - q * b < b
    ensures a < 0 ==> -b < a - q * b <= 0
  {
    if a >= 0 then a / b else -((-a) / b)
  }

  /** Adaptive green: `base` plus one second per 5 waiting vehicles, capped above at `maxExtra`. */
  function AdaptiveGreenTime(base: int, vehicles: int, maxExtra: int): int {
    var extra := TruncDiv(vehicles, 5);
    base + (if extra > maxExtra then maxExtra else extra)
  }

  /** For a non-negative demand the adaptive green is base + min(demand / 5, maxExtra). */
  lemma AdaptiveGreenForDemand(base: int, vehicles: int, maxExtra: int)
    requires vehicles >= 0
    ensures AdaptiveGreenTime(base, vehicles, maxExtra)
      == base + (if vehicles / 5 < maxExtra then vehicles / 5 else maxExtra)
    ensures maxExtra >= 0 ==>
      base <= AdaptiveGreenTime(base, vehicles, maxExtra) <= base + maxExtra
  {
  }

  lemma TruncDivMonotone(a: int, b: int)
    requires a <= b
    ensures TruncDiv(a, 5) <= TruncDiv(b, 5)
  {
    var qa, qb := TruncDiv(a, 5), TruncDiv(b, 5);
    if a < 0 <= b {
      assert qa <= 0 <= qb;
    } else if 0 <= a {
      // a >= 5 * qa and b < 5 * qb + 5
      assert qa <= qb;
    } else {
      // a > 5 * qa - 5 and b <= 5 * qb
      assert qa <= qb;
    }
  }

  /** More waiting vehicles never shorten the adaptive green. */
  lemma AdaptiveGreenMonotone(base: int, v1: int, v2: int, maxExtra: int)
    requires v1 <= v2
    ensures AdaptiveGreenTime(base, v1, maxExtra) <= AdaptiveGreenTime(base, v2, maxExtra)
  {
    TruncDivMonotone(v1, v2);
  }

  /** The roads after the adaptive green time has been applied. */
  function AdaptiveTimings(s: seq<Road>, base: int, maxExtra: int): seq<Road> {
    seq(|s|, k requires 0 <= k < |s| =>
      s[k].(greenTime := AdaptiveGreenTime(base, s[k].vehiclesWaiting, maxExtra)))
  }

  method TotalGreenTime(r: array<Road>) returns (sum: int)
    requires r.Length == Lanes
    ensures sum == SumGreen(r[..])
  {
    sum := 0;
    for i := 0 to Lanes
      invariant sum == SumGreen(r[..i])
    {
      assert r[..i + 1][..i] == r[..i];
      sum := sum + r[i].greenTime;
    }
    assert r[..Lanes] == r[..];
  }

  method TotalYellowTime(r: array<Road>) returns (sum: int)
    requires r.Length == Lanes
    ensures sum == SumYellow(r[..])
  {
    sum := 0;
    for i := 0 to Lanes
      invariant sum == SumYellow(r[..i])
    {
      assert r[..i + 1][..i] == r[..i];
      sum := sum + r[i].yellowTime;
    }
    assert r[..Lanes] == r[..];
  }

  /** Sets yellow 3 and the mode's green on every road; nothing else changes. */
  method ApplyModeTimings(r: array<Road>, mode: int)
    requires r.Length == Lanes
    modifies r
    ensures r[..] == FixedTimings(old(r[..]), mode)
    ensures forall k :: 0 <= k < Lanes ==>
      r[k].yellowTime == 3 &&
      r[k].greenTime == (if mode == 1 then 8 else 12) &&
      r[k].signal == old(r[k].signal) &&
      r[k].redTime == old(r[k].redTime) &&
      r[k].vehiclesWaiting == old(r[k].vehiclesWaiting)
  {
    for i := 0 to Lanes
      invariant forall k :: 0 <= k < i ==>
        r[k] == old(r[k]).(greenTime := ModeGreen(mode), yellowTime := FixedYellow)
      invariant forall k :: i <= k < Lanes ==> r[k] == old(r[k])
    {
      r[i] := r[i].(yellowTime := 3);
      if mode == 1 {
        r[i] := r[i].(greenTime := 8);
      } else {
        r[i] := r[i].(greenTime := 12);
      }
    }
  }

  /** Sets every green time from the road's demand; yellow is left as it was. */
  method AdaptiveGreen(r: array<Road>, baseGreen: int, maxExtra: int)
    requires r.Length == Lanes
    modifies r
    ensures r[..] == AdaptiveTimings(old(r[..]), baseGreen, maxExtra)
    ensures forall k :: 0 <= k < Lanes ==>
      r[k].greenTime == baseGreen + (if TruncDiv(old(r[k].vehiclesWaiting), 5) > maxExtra
                                     then maxExtra else TruncDiv(old(r[k].vehiclesWaiting), 5)) &&
      r[k] == old(r[k]).(greenTime := r[k].greenTime)
  {
    for i := 0 to Lanes
      invariant forall k :: 0 <= k < i ==>
        r[k] == old(r[k]).(greenTime := AdaptiveGreenTime(baseGreen, old(r[k].vehiclesWaiting), maxExtra))
      invariant forall k :: i <= k < Lanes ==> r[k] == old(r[k])
    {
      var extra := TruncDiv(r[i].vehiclesWaiting, 5);
      if extra > maxExtra {
        extra := maxExtra;
      }
      r[i] := r[i].(greenTime := baseGreen + extra);
    }
  }

  /** Sets each road's red time to the other roads' green + yellow; nothing else changes. */
  method ComputeRedTimes(r: array<Road>)
    requires r.Length == Lanes
    modifies r
    ensures r[..] == WithRedTimes(old(r[..]))
    ensures forall i :: 0 <= i < Lanes ==>
      r[i].redTime == SumGreen(old(r[..])) + SumYellow(old(r[..])) - Load(old(r[i])) &&
      r[i] == old(r[i]).(redTime := r[i].redTime)
  {
    ghost var s0 := r[..];
    for i := 0 to Lanes
      invariant forall k :: 0 <= k < i ==> r[k] == s0[k].(redTime := SumOthers(s0, k))
      invariant forall k :: i <= k < Lanes ==> r[k] == s0[k]
    {
      var red := 0;
      for j := 0 to Lanes
        invariant red == SumOthers(s0[..j], i)
      {
        assert s0[..j + 1][..j] == s0[..j];
        if i == j {
          continue;
        }
        red := red + (r[j].greenTime + r[j].yellowTime);
      }
      assert s0[..Lanes] == s0;
      r[i] := r[i].(redTime := red);
    }
    forall i | 0 <= i < Lanes
      ensures r[i].redTime == SumGreen(s0) + SumYellow(s0) - Load(s0[i])
    {
      SumOthersIsTotalMinusOwn(s0, i);
    }
  }
}
