/** DetailedOptimizer: the balanced and priority strategies over the detailed graph
    of a building with doors. Shortest path lengths come straight from the path
    finder, and every failure of a query (no path, unknown node) is skipped. */
module Detailed {
  import opened Common
  import opened Facility
  import opened Networks
  import opened Doors
  import opened Responders
  import opened Sweep
  import opened Plans
  import opened Dealing
  import opened Routes
  import opened Greedy

  /** The distance query of the detailed optimizer, which skips a room whose query raises. A skipped
      room never beats the running minimum, exactly like an infinite distance, so
      the query never raises. */
  function DetailedQuery(find: PathFinder, g: Graph): (q: Query)
    ensures forall a, b :: q(a, b).Ok?
    ensures forall a, b :: q(a, b).value.Fin? <==> find(g, a, b).Found?
    ensures forall a, b :: find(g, a, b).Found? ==> q(a, b).value == Fin(find(g, a, b).length)
  {
    (a: string, b: string) =>
      match find(g, a, b)
      case Found(_, d) => Ok(Fin(d))
      case _ => Ok(Inf)
  }

  class DetailedOptimizer {
    const building: BuildingWithDoors
    const nResponders: nat
    const strategy: string
    /** The path finder standing for networkx's weighted shortest path length. */
    const find: PathFinder
    const graph: Graph
    const team: ResponderTeam
    /** The iteration order of Python sets of room ids. */
    const order: SetOrder

    ghost predicate Valid() {
      |team.responders| == nResponders && team.Numbered() && IsSetOrder(order)
    }

    /** __init__: the detailed graph first, then the team, from the exits when no
        initial positions are given. */
    constructor (building: BuildingWithDoors, nResponders: nat, initialPositions: Option<seq<string>>,
                 capabilities: map<string, real>, strategy: string, find: PathFinder, order: SetOrder,
                 norm: Norm, sqrt: real -> real)
      requires building.Valid() && IsSetOrder(order)
      requires initialPositions.Some? || DefaultPositions(building.base.exits.keys, nResponders).Ok?
      ensures Valid()
      ensures this.building == building && this.nResponders == nResponders && this.strategy == strategy
      ensures this.find == find && this.order == order
      ensures graph.Valid() && graph.nodes == DetailedNodes(building.base, building.doors, norm)
      ensures graph.weight == DetailedWeights(building.base, building.doors, norm, sqrt)
      ensures initialPositions.Some? ==>
                team.BuiltFrom(nResponders, PaddedPositions(nResponders, initialPositions), capabilities)
      ensures initialPositions.None? ==>
                team.BuiltFrom(nResponders, DefaultPositions(building.base.exits.keys, nResponders).value, capabilities)
    {
      var g := building.BuildDetailedGraph(norm, sqrt);
      var positions := initialPositions;
      if positions.None? {
        positions := Some(DefaultPositions(building.base.exits.keys, nResponders).value);
      }
      this.building := building;
      this.nResponders := nResponders;
      this.strategy := strategy;
      this.find := find;
      this.order := order;
      this.graph := g;
      var t := new ResponderTeam(nResponders, positions, capabilities);
      team := t;
    }

    /** __init__ as the caller sees it: with no initial positions and no exit to start
        from, working out the default positions divides by zero and no optimizer results. */
    static method Create(building: BuildingWithDoors, nResponders: nat, initialPositions: Option<seq<string>>,
                         capabilities: map<string, real>, strategy: string, find: PathFinder, order: SetOrder,
                         norm: Norm, sqrt: real -> real)
      returns (r: Result<DetailedOptimizer>)
      requires building.Valid() && IsSetOrder(order)
      ensures r.Err? <==> initialPositions.None? && building.base.exits.keys == [] && nResponders > 0
      ensures r.Err? ==> r.error == ZeroDivision
      ensures r.Ok? ==> fresh(r.value) && r.value.Valid() && r.value.building == building
                        && r.value.nResponders == nResponders && r.value.strategy == strategy
    {
      if initialPositions.None? && DefaultPositions(building.base.exits.keys, nResponders).Err? {
        return Err(ZeroDivision);
      }
      var o := new DetailedOptimizer(building, nResponders, initialPositions, capabilities, strategy, find, order, norm, sqrt);
      return Ok(o);
    }

    function Dist(): Query {
      DetailedQuery(find, graph)
    }

    function Starts(): (ps: seq<string>)
      ensures |ps| == |team.responders| && forall k | 0 <= k < |ps| :: ps[k] == team.responders[k].initialPosition
    {
      seq(|team.responders|, k requires 0 <= k < |team.responders| => team.responders[k].initialPosition)
    }

    function Paces(): (ps: seq<Pace>)
      ensures |ps| == |team.responders|
      ensures forall k | 0 <= k < |ps| :: ps[k] == Pace(team.responders[k].walkSpeed,
                                                        team.responders[k].baseCheckTime,
                                                        team.responders[k].checkRate)
    {
      seq(|team.responders|, k requires 0 <= k < |team.responders| =>
        Pace(team.responders[k].walkSpeed, team.responders[k].baseCheckTime, team.responders[k].checkRate))
    }

    /** optimize: "priority" is the priority strategy, every other name the balanced one. */
    method Optimize() returns (r: Result<Assignment>)
      requires Valid() && building.Valid()
      ensures strategy == "priority" ==> r == PriorityPlan(Dist(), order, Starts(), building.base.rooms.Values())
      ensures strategy != "priority" ==>
                r == BalancedAssignmentOf(BalancedRun(Dist(), building.base.rooms.entries, Paces(),
                                                      Plans.Start(Starts(), order(building.base.rooms.keys)),
                                                      Repeat(0.0, nResponders)))
    {
      if strategy == "balanced" {
        r := OptimizeBalanced();
      } else if strategy == "priority" {
        r := OptimizePriority();
      } else {
        r := OptimizeBalanced();
      }
    }

    /** _optimize_balanced */
    method OptimizeBalanced() returns (r: Result<Assignment>)
      requires Valid() && building.Valid()
      ensures r == BalancedAssignmentOf(BalancedRun(Dist(), building.base.rooms.entries, Paces(),
                                                    Plans.Start(Starts(), order(building.base.rooms.keys)),
                                                    Repeat(0.0, nResponders)))
    {
      r := BalancedSweep(Dist(), building.base.rooms.entries, Paces(), Starts(), order(building.base.rooms.keys));
    }

    /** _optimize_priority, whose _optimize_path_order is NearestNeighbourOrder over
        the detailed query. */
    method OptimizePriority() returns (r: Result<Assignment>)
      requires Valid() && building.Valid()
      ensures r == PriorityPlan(Dist(), order, Starts(), building.base.rooms.Values())
    {
      r := PrioritySweep(Dist(), order, Starts(), building.base.rooms.Values());
    }
  }

  // ---------------------------------------------------------------------------
  // What the detailed strategies promise

  /** Ordering lists with a query that never raises never fails. */
  lemma {:induction false} OrderListsTotal(dist: Query, order: SetOrder, starts: seq<string>, a: Assignment, k: nat)
    requires k <= |a| <= |starts|
    requires forall x, y :: dist(x, y).Ok?
    ensures OrderLists(dist, order, starts, a, k).Ok?
    decreases k
  {
    if k > 0 {
      OrderListsTotal(dist, order, starts, a, k - 1);
      var b := OrderLists(dist, order, starts, a, k - 1).value;
      if |b| == |a| && b[k - 1] != [] && |b[k - 1]| > 1 {
        WalkTotal(dist, starts[k - 1], order(b[k - 1]), []);
      }
    }
  }

  /** The priority strategy over the detailed graph fails only by dividing by zero,
      with no responder and at least one room. */
  lemma {:induction false} DetailedPriorityFails(find: PathFinder, g: Graph, order: SetOrder, starts: seq<string>,
                                                 rooms: seq<Room>)
    ensures PriorityPlan(DetailedQuery(find, g), order, starts, rooms).Err? <==> |starts| == 0 && rooms != []
    ensures PriorityPlan(DetailedQuery(find, g), order, starts, rooms).Err? ==>
              PriorityPlan(DetailedQuery(find, g), order, starts, rooms).error == ZeroDivision
  {
    var dist := DetailedQuery(find, g);
    var ids := RoomIds(SortByPriority(rooms));
    assert |ids| == |rooms|;
    if |starts| > 0 {
      OrderListsTotal(dist, order, starts, Deal(ids, |starts|), |starts|);
    }
  }

  /** The balanced strategy with a query that never raises and no walking speed of
      zero fails only on an empty team with a room left (min of an empty dict). */
  lemma {:induction false} BalancedRunTotal(dist: Query, rooms: map<string, Room>, paces: seq<Pace>, p: Plan, est: seq<real>)
    requires p.Shaped() && |paces| == |p.positions| && |est| == |p.positions|
    requires forall x | x in p.unchecked :: x in rooms
    requires forall x, y :: dist(x, y).Ok?
    requires forall k | 0 <= k < |paces| :: paces[k].walkSpeed != 0.0
    ensures BalancedRun(dist, rooms, paces, p, est).Err? <==> |paces| == 0 && p.unchecked != []
    ensures BalancedRun(dist, rooms, paces, p, est).Err? ==> BalancedRun(dist, rooms, paces, p, est).error == EmptyMax
    decreases |p.unchecked|
  {
    if p.unchecked != [] && est != [] {
      var k := ArgMin(est);
      assert PairCands(dist, k, p.positions[k], p.unchecked).Ok?;
      var next := BalancedNext(dist, rooms, paces, p, est);
      if next.value.Some? {
        var (q, e) := next.value.value;
        BalancedRunTotal(dist, rooms, paces, q, e);
      }
    }
  }

  /** The set of a list is empty exactly when the list is. */
  lemma {:induction false} OrderEmpty(order: SetOrder, keys: seq<string>)
    requires IsSetOrder(order)
    ensures order(keys) == [] <==> keys == []
  {
    if keys != [] {
      assert keys[0] in order(keys);
    }
    if order(keys) != [] {
      assert order(keys)[0] in keys;
    }
  }

  /** With every walking speed non-zero, _optimize_balanced fails only for an empty
      team in a building with rooms. */
  lemma {:induction false} DetailedBalancedFails(find: PathFinder, g: Graph, rooms: map<string, Room>, paces: seq<Pace>,
                                                 order: SetOrder, starts: seq<string>, keys: seq<string>)
    requires IsSetOrder(order) && |paces| == |starts|
    requires forall x | x in keys :: x in rooms
    requires forall k | 0 <= k < |paces| :: paces[k].walkSpeed != 0.0
    ensures BalancedRun(DetailedQuery(find, g), rooms, paces, Plans.Start(starts, order(keys)), Repeat(0.0, |starts|)).Err?
            <==> |starts| == 0 && keys != []
    ensures BalancedRun(DetailedQuery(find, g), rooms, paces, Plans.Start(starts, order(keys)), Repeat(0.0, |starts|)).Err?
            ==> BalancedRun(DetailedQuery(find, g), rooms, paces, Plans.Start(starts, order(keys)), Repeat(0.0, |starts|)).error
                == EmptyMax
  {
    assert forall x | x in order(keys) :: x in rooms;
    BalancedRunTotal(DetailedQuery(find, g), rooms, paces, Plans.Start(starts, order(keys)), Repeat(0.0, |starts|));
    OrderEmpty(order, keys);
  }

  /** A room _optimize_balanced leaves out has no path, or no node, from where the
      least loaded responder stopped. */
  lemma {:induction false} DetailedBalancedLeftOut(find: PathFinder, g: Graph, rooms: map<string, Room>, paces: seq<Pace>,
                                                   order: SetOrder, starts: seq<string>, keys: seq<string>)
    requires IsSetOrder(order) && NoDup(keys) && |paces| == |starts|
    requires forall x | x in keys :: x in rooms
    requires forall x | x in order(keys) :: x in rooms
    requires BalancedRun(DetailedQuery(find, g), rooms, paces, Plans.Start(starts, order(keys)), Repeat(0.0, |starts|)).Ok?
    ensures var (q, e) := BalancedRun(DetailedQuery(find, g), rooms, paces, Plans.Start(starts, order(keys)),
                                      Repeat(0.0, |starts|)).value;
      && |q.assignment| == |q.positions| == |e| == |starts|
      && forall x | x in keys && x !in Flatten(q.assignment) :: |e| > 0 && !find(g, q.positions[ArgMin(e)], x).Found?
  {
    BalancedOutcome(DetailedQuery(find, g), rooms, paces, order, starts, keys);
  }
}
