/** SmartOptimizer: reads the building's priorities, picks the priority or the
    balanced strategy, records why, and hands the work to a GreedyOptimizer running
    the chosen strategy. */
module Smart {
  import opened Common
  import opened Facility
  import opened Networks
  import opened Sweep
  import opened Plans
  import opened Greedy

  /** One entry of the analysis reasons. The model keeps the numbers each sentence
      reports, not the formatted text. */
  datatype Reason =
    | CriticalShare(ratio: real)      // "...% of rooms are critical priority (priority ≥ 3)"
    | HighShare(ratio: real)          // "...% of rooms have high priority (priority ≥ 2)"
    | CriticalRooms(count: nat)       // "Building contains ... critical priority room(s)"
    | EqualPriority                   // "All rooms have equal priority"
    | FewHigh(ratio: real)            // "Only ...% high priority rooms - not enough to prioritize"
    | LargeBuilding(rooms: nat)       // "Large building (... rooms) benefits from load balancing"

  /** The statistics of the analysis. */
  datatype Stats = Stats(
    totalRooms: nat, highPriorityRooms: nat, criticalRooms: nat, complexRooms: nat,
    highPriorityRatio: real, criticalRatio: real, complexRatio: real)

  datatype Analysis = Analysis(strategy: string, reasons: seq<Reason>, stats: Stats)

  predicate IsHighPriority(r: Room) { r.priority >= 2 }
  predicate IsCritical(r: Room) { r.priority >= 3 }
  predicate IsComplex(r: Room) { r.checkComplexity > 1.5 }

  /** The number of rooms that pass p. */
  function Count(rs: seq<Room>, p: Room -> bool): (c: nat)
    ensures c <= |rs|
  {
    if rs == [] then 0 else (if p(rs[0]) then 1 else 0) + Count(rs[1..], p)
  }

  /** The count as a fraction of the total, 0 for no rooms. */
  function Ratio(count: nat, total: nat): (q: real)
    ensures total == 0 ==> q == 0.0
    ensures count <= total ==> 0.0 <= q <= 1.0
    ensures q == 0.0 <==> total == 0 || count == 0
  {
    if total == 0 then 0.0
    else
      assert count as real <= total as real ==> count as real / total as real <= 1.0 by {
        if count as real <= total as real {
          assert count as real / total as real * total as real == count as real;
        }
      }
      count as real / total as real
  }

  function StatsOf(rs: seq<Room>): Stats {
    var high, critical, complex := Count(rs, IsHighPriority), Count(rs, IsCritical), Count(rs, IsComplex);
    Stats(|rs|, high, critical, complex, Ratio(high, |rs|), Ratio(critical, |rs|), Ratio(complex, |rs|))
  }

  /** _select_strategy: priority when more than 20% of the rooms are critical, else
      when more than 30% are of high priority, else when any room is critical;
      otherwise balanced. */
  function SelectStrategy(rs: seq<Room>): (a: Analysis)
    ensures a.stats == StatsOf(rs)
    ensures a.strategy == "priority" || a.strategy == "balanced"
    ensures a.strategy == "priority" ==> |a.reasons| == 1
    ensures a.strategy == "balanced" ==>
              && |a.reasons| == (if |rs| > 10 then 2 else 1)
              && a.reasons[0] == (if a.stats.highPriorityRatio == 0.0 then EqualPriority else FewHigh(a.stats.highPriorityRatio))
  {
    var stats := StatsOf(rs);
    if stats.criticalRatio > 0.2 then Analysis("priority", [CriticalShare(stats.criticalRatio)], stats)
    else if stats.highPriorityRatio > 0.3 then Analysis("priority", [HighShare(stats.highPriorityRatio)], stats)
    else if stats.criticalRooms > 0 then Analysis("priority", [CriticalRooms(stats.criticalRooms)], stats)
    else
      var first := if stats.highPriorityRatio == 0.0 then EqualPriority else FewHigh(stats.highPriorityRatio);
      Analysis("balanced", [first] + (if |rs| > 10 then [LargeBuilding(|rs|)] else []), stats)
  }

  // ---------------------------------------------------------------------------
  // Facts about the selection

  /** A count is zero exactly when no room qualifies. */
  lemma {:induction false} CountZero(rs: seq<Room>, p: Room -> bool)
    ensures Count(rs, p) == 0 <==> forall i | 0 <= i < |rs| :: !p(rs[i])
    decreases |rs|
  {
    if rs != [] {
      CountZero(rs[1..], p);
      assert forall i | 1 <= i < |rs| :: rs[i] == rs[1..][i - 1];
    }
  }

  /** Counting by a stronger condition never gives more. */
  lemma {:induction false} CountMono(rs: seq<Room>, p: Room -> bool, q: Room -> bool)
    requires forall r :: p(r) ==> q(r)
    ensures Count(rs, p) <= Count(rs, q)
    decreases |rs|
  {
    if rs != [] {
      CountMono(rs[1..], p, q);
    }
  }

  /** The stats: critical rooms are among the high-priority ones, and every ratio is
      a fraction of the rooms. */
  lemma {:induction false} StatsBounds(rs: seq<Room>)
    ensures var s := StatsOf(rs);
      && s.totalRooms == |rs|
      && s.criticalRooms <= s.highPriorityRooms <= s.totalRooms && s.complexRooms <= s.totalRooms
      && 0.0 <= s.criticalRatio <= s.highPriorityRatio <= 1.0 && 0.0 <= s.complexRatio <= 1.0
  {
    CountMono(rs, IsCritical, IsHighPriority);
    var c, h, t := Count(rs, IsCritical), Count(rs, IsHighPriority), |rs|;
    if t > 0 {
      assert c as real / t as real <= h as real / t as real by {
        assert (h as real - c as real) / t as real >= 0.0;
      }
    }
  }

  /** The selection is priority exactly when some room is critical or more than 30%
      of the rooms are of high priority, and balanced otherwise. */
  lemma {:induction false} SelectStrategyIff(rs: seq<Room>)
    ensures SelectStrategy(rs).strategy == "priority" <==>
              Count(rs, IsCritical) > 0 || StatsOf(rs).highPriorityRatio > 0.3
    ensures SelectStrategy(rs).strategy == "priority" <==>
              (exists i | 0 <= i < |rs| :: rs[i].priority >= 3) || StatsOf(rs).highPriorityRatio > 0.3
  {
    CountZero(rs, IsCritical);
  }

  /** An empty building: every ratio is 0, equal priority, balanced. */
  lemma {:induction false} SelectEmpty()
    ensures SelectStrategy([]) == Analysis("balanced", [EqualPriority], Stats(0, 0, 0, 0, 0.0, 0.0, 0.0))
  {
  }

  // ---------------------------------------------------------------------------
  // The optimizer

  class SmartOptimizer {
    const building: Building
    const nResponders: nat
    const initialPositions: Option<seq<string>>
    const capabilities: map<string, real>
    const selectedStrategy: string
    const analysis: Analysis
    const optimizer: GreedyOptimizer

    /** __init__: select the strategy from the rooms, then build the greedy
        optimizer for it. */
    constructor (building: Building, nResponders: nat, initialPositions: Option<seq<string>>,
                 capabilities: map<string, real>, find: PathFinder, order: SetOrder)
      requires building.Valid() && IsSetOrder(order)
      requires initialPositions.Some? || DefaultPositions(building.exits.keys, nResponders).Ok?
      ensures this.building == building && this.nResponders == nResponders
      ensures this.initialPositions == initialPositions && this.capabilities == capabilities
      ensures analysis == SelectStrategy(building.rooms.Values())
      ensures selectedStrategy == analysis.strategy
      ensures selectedStrategy == "priority" || selectedStrategy == "balanced"
      ensures optimizer.Valid() && optimizer.building == building && optimizer.nResponders == nResponders
      ensures optimizer.strategy == selectedStrategy && optimizer.order == order && optimizer.graph.find == find
    {
      this.building := building;
      this.nResponders := nResponders;
      this.initialPositions := initialPositions;
      this.capabilities := capabilities;
      var a := SelectStrategy(building.rooms.Values());
      this.analysis := a;
      this.selectedStrategy := a.strategy;
      var o := new GreedyOptimizer(building, nResponders, initialPositions, capabilities, a.strategy, find, order);
      this.optimizer := o;
    }

    /** __init__ as the caller sees it: the analysis is made first, then building the
        greedy optimizer divides by zero when there are neither initial positions nor
        exits. */
    static method Create(building: Building, nResponders: nat, initialPositions: Option<seq<string>>,
                         capabilities: map<string, real>, find: PathFinder, order: SetOrder)
      returns (r: Result<SmartOptimizer>)
      requires building.Valid() && IsSetOrder(order)
      ensures r.Err? <==> initialPositions.None? && building.exits.keys == [] && nResponders > 0
      ensures r.Err? ==> r.error == ZeroDivision
      ensures r.Ok? ==> fresh(r.value) && r.value.analysis == SelectStrategy(building.rooms.Values())
                        && r.value.optimizer.Valid() && r.value.optimizer.strategy == r.value.selectedStrategy
                        && (r.value.selectedStrategy == "priority" || r.value.selectedStrategy == "balanced")
    {
      if initialPositions.None? && DefaultPositions(building.exits.keys, nResponders).Err? {
        return Err(ZeroDivision);
      }
      var o := new SmartOptimizer(building, nResponders, initialPositions, capabilities, find, order);
      return Ok(o);
    }

    /** optimize: the greedy optimizer's answer under the selected strategy, which is
        always priority or balanced. */
    method Optimize() returns (r: Result<Assignment>)
      requires optimizer.Valid() && optimizer.building.Valid()
      requires selectedStrategy == "priority" || selectedStrategy == "balanced"
      requires optimizer.strategy == selectedStrategy
      ensures selectedStrategy == "priority" ==>
                r == PriorityPlan(optimizer.Dist(), optimizer.order, optimizer.Starts(), optimizer.building.rooms.Values())
      ensures selectedStrategy != "priority" ==>
                r == BalancedAssignmentOf(BalancedRun(optimizer.Dist(), optimizer.building.rooms.entries,
                                                      optimizer.Paces(),
                                                      Plans.Start(optimizer.Starts(),
                                                                  optimizer.order(optimizer.building.rooms.keys)),
                                                      Repeat(0.0, optimizer.nResponders)))
    {
      r := optimizer.Optimize();
    }
  }
}
