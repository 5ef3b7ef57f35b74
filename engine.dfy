/*
 * The cycle engine: one road's RED -> GREEN -> YELLOW -> RED phase, a full
 * cycle over the active order, and the controller state of the menu loop
 * (the road array and the active order) with one menu choice served.
 *
 * The GREEN and YELLOW holds are real-time countdowns on the console; they
 * change no road, so the model records instead a ghost snapshot of the roads
 * at the GREEN moment and at the YELLOW moment of each phase.
 */
module Engine {
  import opened Roads
  import opened Timing
  import opened Sequencer

  /** The road served by a phase and the roads as shown while it was GREEN and while YELLOW. */
  datatype PhaseSnapshot = PhaseSnapshot(road: int, green: seq<Road>, yellow: seq<Road>)

  /**
   * `p` serves road `idx`: while GREEN and while YELLOW only `idx` is lit,
   * and apart from the signals both snapshots show the roads `settled`.
   */
  predicate IsPhaseOf(p: PhaseSnapshot, idx: int, settled: seq<Road>) {
    p.road == idx &&
    OnlyActive(p.green, idx, Green) && OnlyActive(p.yellow, idx, Yellow) &&
    AllRed(p.green) == settled && AllRed(p.yellow) == settled
  }

  /** `trace` serves the roads of `order`, one phase each, in that order. */
  predicate IsCycleTrace(trace: seq<PhaseSnapshot>, order: seq<int>, settled: seq<Road>) {
    |trace| == |order| &&
    forall k :: 0 <= k < |trace| ==> IsPhaseOf(trace[k], order[k], settled)
  }

  /**
   * Drives road `idx` through GREEN and YELLOW back to RED after forcing
   * every road to RED; only signals change.
   */
  method SimulateOneRoadPhase(r: array<Road>, idx: int) returns (ghost phase: PhaseSnapshot)
    requires r.Length == Lanes && 0 <= idx < Lanes
    modifies r
    ensures r[..] == AllRed(old(r[..]))
    ensures IsPhaseOf(phase, idx, AllRed(old(r[..])))
  {
    ghost var settled := AllRed(r[..]);
    ResetSignalsToRed(r);
    r[idx] := r[idx].(signal := Green);
    ghost var green := r[..];
    // hold GREEN for r[idx].greenTime seconds
    r[idx] := r[idx].(signal := Yellow);
    ghost var yellow := r[..];
    // hold YELLOW for r[idx].yellowTime seconds
    r[idx] := r[idx].(signal := Red);
    assert r[..] == settled;
    assert AllRed(green) == settled && AllRed(yellow) == settled;
    phase := PhaseSnapshot(idx, green, yellow);
  }

  /**
   * One full cycle: derives the red times, then serves every road of
   * `order` in turn; every road is RED at the end.
   */
  method SimulateCycle(r: array<Road>, order: array<int>) returns (ghost trace: seq<PhaseSnapshot>)
    requires r.Length == Lanes && order.Length == Lanes
    requires forall k :: 0 <= k < Lanes ==> 0 <= order[k] < Lanes
    modifies r
    ensures r[..] == AllRed(WithRedTimes(old(r[..])))
    ensures IsCycleTrace(trace, order[..], r[..])
  {
    ComputeRedTimes(r);
    // the cycle header shows the two totals; reading them changes nothing
    var totalGreen := TotalGreenTime(r);
    var totalYellow := TotalYellowTime(r);
    ghost var settled := AllRed(r[..]);
    trace := [];
    for k := 0 to Lanes
      invariant AllRed(r[..]) == settled
      invariant k > 0 ==> r[..] == settled
      invariant IsCycleTrace(trace, order[..k], settled)
    {
      ghost var phase: PhaseSnapshot;
      phase := SimulateOneRoadPhase(r, order[k]);
      trace := trace + [phase];
    }
    assert order[..Lanes] == order[..];
  }

  /** Mutual exclusion: at the GREEN and the YELLOW moment of every phase exactly one road is lit. */
  lemma CycleIsMutuallyExclusive(trace: seq<PhaseSnapshot>, order: seq<int>, settled: seq<Road>)
    requires IsCycleTrace(trace, order, settled)
    ensures forall k :: 0 <= k < |trace| ==>
      ActiveCount(trace[k].green) == 1 && ActiveCount(trace[k].yellow) == 1
  {
    forall k | 0 <= k < |trace|
      ensures ActiveCount(trace[k].green) == 1 && ActiveCount(trace[k].yellow) == 1
    {
      OnlyActiveIsExclusive(trace[k].green, order[k], Green);
      OnlyActiveIsExclusive(trace[k].yellow, order[k], Yellow);
    }
  }

  /** The roads served by the phases of `trace`, in order. */
  function ServedRoads(trace: seq<PhaseSnapshot>): seq<int> {
    seq(|trace|, k requires 0 <= k < |trace| => trace[k].road)
  }

  /**
   * A cycle serves the roads of its order in that order; with a permutation
   * as order it serves every road, and none twice.
   */
  lemma CycleVisitsEachRoadOnce(trace: seq<PhaseSnapshot>, order: seq<int>, settled: seq<Road>)
    requires IsCycleTrace(trace, order, settled) && IsPermutation(order)
    ensures ServedRoads(trace) == order
    ensures |trace| == Lanes
    ensures forall road :: 0 <= road < Lanes ==> road in ServedRoads(trace)
    ensures forall j, k :: 0 <= j < k < |trace| ==> trace[j].road != trace[k].road
  {
    assert ServedRoads(trace) == order;
    PermutationFacts(order);
  }

  /** The roads at start-up: all RED, green 8, yellow 3, no red time, no demand. */
  function InitialRoads(): seq<Road> {
    seq(Lanes, _ => Road(Red, 8, 3, 0, 0))
  }

  /**
   * Normal mode from start-up with no vehicles and the default order: the
   * phases serve North, East, South, West, each GREEN 8 s and YELLOW 3 s, and
   * afterwards every road is RED with a red time of 33 s.
   */
  lemma NormalCycleFromStart(trace: seq<PhaseSnapshot>, final: seq<Road>)
    requires final == AllRed(WithRedTimes(WithDemand(FixedTimings(InitialRoads(), 1), [0, 0, 0, 0])))
    requires IsCycleTrace(trace, DefaultOrder, final)
    ensures [trace[0].road, trace[1].road, trace[2].road, trace[3].road] == [0, 2, 1, 3]
    ensures forall k :: 0 <= k < |trace| ==>
      trace[k].green[trace[k].road].greenTime == 8 && trace[k].yellow[trace[k].road].yellowTime == 3
    ensures final == seq(Lanes, _ => Road(Red, 8, 3, 33, 0))
  {
    var timed := WithDemand(FixedTimings(InitialRoads(), 1), [0, 0, 0, 0]);
    assert forall k :: 0 <= k < Lanes ==> timed[k] == Road(Red, 8, 3, 0, 0);
    forall i | 0 <= i < Lanes ensures SumOthers(timed, i) == 33 {
      UniformRedTime(timed, i, 11);
    }
    forall k | 0 <= k < |trace|
      ensures trace[k].green[trace[k].road].greenTime == 8 && trace[k].yellow[trace[k].road].yellowTime == 3
    {
      var p := trace[k];
      assert AllRed(p.green)[p.road] == final[p.road];
      assert AllRed(p.yellow)[p.road] == final[p.road];
    }
  }

  /**
   * The state the menu loop keeps between choices: the road array and the
   * active visiting order.
   */
  class Controller {
    var roads: array<Road>
    var order: array<int>

    /**
     * Between menu choices the order is a permutation, every road is RED and
     * every stored demand is non-negative.
     */
    ghost predicate Valid()
      reads this, roads, order
    {
      roads.Length == Lanes && order.Length == Lanes && IsPermutation(order[..]) &&
      forall k :: 0 <= k < Lanes ==> roads[k].signal == Red && roads[k].vehiclesWaiting >= 0
    }

    /** Start-up: every road RED with green 8 and yellow 3; the default order. */
    constructor ()
      ensures Valid() && fresh(roads) && fresh(order)
      ensures roads[..] == InitialRoads() && order[..] == DefaultOrder
    {
      var all := new Road[Lanes](_ => Road(Red, 8, 3, 0, 0));
      var start := new int[Lanes](i requires 0 <= i < Lanes => DefaultOrder[i]);
      assert all[..] == InitialRoads();
      assert start[..] == DefaultOrder;
      DefaultOrderIsPermutation();
      roads, order := all, start;
    }

    /**
     * Serves one menu choice with the operator's demand entries `demand` and
     * first-road entry `first`: 1 normal, 2 rush, 3 adaptive, 4 manual
     * override, 5 exit; any other choice changes nothing.
     */
    method ServeChoice(choice: int, demand: seq<int>, first: int)
      returns (running: bool, ghost trace: seq<PhaseSnapshot>)
      requires Valid() && |demand| == Lanes
      modifies roads, order
      ensures Valid()
      ensures running == (choice != 5)
      ensures choice == 1 ==>
        order[..] == old(order[..]) &&
        roads[..] == AllRed(WithRedTimes(WithDemand(FixedTimings(old(roads[..]), 1), demand)))
      ensures choice == 2 ==>
        order[..] == old(order[..]) &&
        roads[..] == AllRed(WithRedTimes(WithDemand(FixedTimings(old(roads[..]), 2), demand)))
      ensures choice == 3 ==>
        order[..] == old(order[..]) &&
        roads[..] == AllRed(WithRedTimes(AdaptiveTimings(WithDemand(old(roads[..]), demand), 8, 8)))
      ensures choice == 4 ==>
        order[..] == OverrideOrder(first) &&
        roads[..] == AllRed(WithRedTimes(FixedTimings(WithDemand(old(roads[..]), demand), 1)))
      ensures 1 <= choice <= 4 ==> IsCycleTrace(trace, order[..], roads[..])
      ensures !(1 <= choice <= 4) ==> roads[..] == old(roads[..]) && order[..] == old(order[..])
    {
      running := true;
      trace := [];
      if choice == 5 {
        running := false;
        return;
      }
      var rs, os := roads, order;
      PermutationFacts(os[..]);
      if choice == 1 {
        ApplyModeTimings(rs, 1);
        SetVehicles(rs, demand);
        trace := SimulateCycle(rs, os);
      } else if choice == 2 {
        ApplyModeTimings(rs, 2);
        SetVehicles(rs, demand);
        trace := SimulateCycle(rs, os);
      } else if choice == 3 {
        SetVehicles(rs, demand);
        AdaptiveGreen(rs, 8, 8);
        trace := SimulateCycle(rs, os);
      } else if choice == 4 {
        ApplyManualOverride(os, first);
        PermutationFacts(os[..]);
        SetVehicles(rs, demand);
        ApplyModeTimings(rs, 1);
        trace := SimulateCycle(rs, os);
      }
    }
  }

  /**
   * Start-up followed by menu choice 1 with no vehicles waiting: the program
   * keeps running, the order stays the default one, the phases serve North,
   * East, South, West, and every road ends RED with red time 33 s.
   */
  method NormalModeFromStart()
    returns (running: bool, order: seq<int>, final: seq<Road>, ghost trace: seq<PhaseSnapshot>)
    ensures running && order == [0, 2, 1, 3]
    ensures IsCycleTrace(trace, order, final) && ServedRoads(trace) == order
    ensures forall k :: 0 <= k < |trace| ==>
      trace[k].green[trace[k].road].greenTime == 8 && trace[k].yellow[trace[k].road].yellowTime == 3
    ensures final == seq(Lanes, _ => Road(Red, 8, 3, 33, 0))
  {
    var c := new Controller();
    running, trace := c.ServeChoice(1, [0, 0, 0, 0], 0);
    NormalCycleFromStart(trace, c.roads[..]);
    order := c.order[..];
    final := c.roads[..];
  }
}
