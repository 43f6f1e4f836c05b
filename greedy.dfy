/** GreedyOptimizer: assigns rooms to responders by one of three greedy strategies
    over the coarse building graph. */
module Greedy {
  import opened Common
  import opened Dicts
  import opened Facility
  import opened Networks
  import opened CoarseGraph
  import opened Responders
  import opened Sweep
  import opened Plans
  import opened Dealing
  import opened Routes
  import opened Sorting

  // ---------------------------------------------------------------------------
  // Specification functions of the strategies

  /** The list xs repeated k times. */
  function Cycle(xs: seq<string>, k: nat): (ys: seq<string>)
    ensures |ys| == k * |xs|
    ensures forall i | 0 <= i < |ys| && |xs| > 0 :: ys[i] == xs[i % |xs|]
  {
    if k == 0 then []
    else
      var ys := Cycle(xs, k - 1) + xs;
      assert forall i | |Cycle(xs, k - 1)| <= i < |ys| :: ys[i] == xs[i - (k - 1) * |xs|];
      forall i | 0 <= i < |ys| && |xs| > 0 ensures ys[i] == xs[i % |xs|] {
        if i >= (k - 1) * |xs| {
          DivModUnique(i, |xs|, k - 1, i - (k - 1) * |xs|);
        }
      }
      ys
  }

  /** The starting positions when none are given: the first n exits, or the exits
      repeated until there are n. With no exit at all the repetition count divides
      by zero. */
  function DefaultPositions(exits: seq<string>, n: nat): (r: Result<seq<string>>)
    ensures r.Err? <==> exits == [] && n > 0
    ensures r.Err? ==> r.error == ZeroDivision
    ensures r.Ok? ==> |r.value| == n && forall i | 0 <= i < n :: r.value[i] == exits[i % |exits|]
    ensures r.Ok? && n <= |exits| ==> r.value == exits[..n]
  {
    if |exits| >= n then
      assert forall i | 0 <= i < n :: i % |exits| == i by {
        forall i | 0 <= i < n ensures i % |exits| == i { DivModUnique(i, |exits|, 0, i); }
      }
      Ok(exits[..n])
    else if |exits| == 0 then Err(ZeroDivision)
    else
      var k := n / |exits| + 1;
      DivModUnique(n, |exits|, n / |exits|, n % |exits|);
      assert n <= k * |exits|;
      Ok(Cycle(exits, k)[..n])
  }

  /** The distance query of the greedy strategies: the coarse graph's shortest path length. */
  function CoarseQuery(g: BuildingGraph): Query {
    (a: string, b: string) =>
      match g.ShortestPath(a, b)
      case Ok(found) => Ok(found.1)
      case Err(e) => Err(e)
  }

  function AssignmentOf(r: Result<Plan>): Result<Assignment> {
    match r
    case Ok(p) => Ok(p.assignment)
    case Err(e) => Err(e)
  }

  function BalancedAssignmentOf(r: Result<(Plan, seq<real>)>): Result<Assignment> {
    match r
    case Ok(pe) => Ok(pe.0.assignment)
    case Err(e) => Err(e)
  }

  /** The "optimize order within each responder's assignment" loop over the first k
      responders: each non-empty list is put in nearest-neighbour order from that
      responder's starting position; the first query that raises ends it. */
  function OrderLists(dist: Query, order: SetOrder, starts: seq<string>, a: Assignment, k: nat): Result<Assignment>
    requires k <= |a| <= |starts|
    decreases k
  {
    if k == 0 then Ok(a)
    else
      match OrderLists(dist, order, starts, a, k - 1)
      case Err(e) => Err(e)
      case Ok(b) =>
        if |b| != |a| || b[k - 1] == [] then Ok(b)
        else
          match PathOrder(dist, order, starts[k - 1], b[k - 1])
          case Err(e) => Err(e)
          case Ok(o) => Ok(b[k - 1 := o])
  }

  /** _greedy_priority: sort by (-priority, y, x), deal round robin, then order each list. */
  function PriorityPlan(dist: Query, order: SetOrder, starts: seq<string>, rooms: seq<Room>): Result<Assignment> {
    match RoundRobin(RoomIds(SortByPriority(rooms)), |starts|)
    case Err(e) => Err(e)
    case Ok(a) => OrderLists(dist, order, starts, a, |a|)
  }

  // ---------------------------------------------------------------------------
  // The optimizer

  class GreedyOptimizer {
    const building: Building
    const nResponders: nat
    const strategy: string
    const team: ResponderTeam
    const graph: BuildingGraph
    /** The iteration order of Python sets of room ids. */
    const order: SetOrder

    /** The team has one responder per requested responder, numbered 1..n, and
        `order` behaves as set iteration does. */
    ghost predicate Valid() {
      |team.responders| == nResponders && team.Numbered() && IsSetOrder(order)
    }

    constructor (building: Building, nResponders: nat, initialPositions: Option<seq<string>>,
                 capabilities: map<string, real>, strategy: string, find: PathFinder, order: SetOrder)
      requires building.Valid() && IsSetOrder(order)
      requires initialPositions.Some? || DefaultPositions(building.exits.keys, nResponders).Ok?
      ensures Valid()
      ensures this.building == building && this.nResponders == nResponders && this.strategy == strategy
      ensures this.order == order && graph.building == building && graph.find == find
      ensures initialPositions.Some? ==>
                team.BuiltFrom(nResponders, PaddedPositions(nResponders, initialPositions), capabilities)
      ensures initialPositions.None? ==>
                team.BuiltFrom(nResponders, DefaultPositions(building.exits.keys, nResponders).value, capabilities)
    {
      var positions := initialPositions;
      if positions.None? {
        positions := Some(DefaultPositions(building.exits.keys, nResponders).value);
      }
      this.building := building;
      this.nResponders := nResponders;
      this.strategy := strategy;
      this.order := order;
      var t := new ResponderTeam(nResponders, positions, capabilities);
      team := t;
      graph := new BuildingGraph(building, find);
    }

    /** __init__ as the caller sees it: with no initial positions and no exit to start
        from, working out the default positions divides by zero and no optimizer results. */
    static method Create(building: Building, nResponders: nat, initialPositions: Option<seq<string>>,
                         capabilities: map<string, real>, strategy: string, find: PathFinder, order: SetOrder)
      returns (r: Result<GreedyOptimizer>)
      requires building.Valid() && IsSetOrder(order)
      ensures r.Err? <==> initialPositions.None? && building.exits.keys == [] && nResponders > 0
      ensures r.Err? ==> r.error == ZeroDivision
      ensures r.Ok? ==> fresh(r.value) && r.value.Valid() && r.value.building == building
                        && r.value.nResponders == nResponders && r.value.strategy == strategy
    {
      if initialPositions.None? && DefaultPositions(building.exits.keys, nResponders).Err? {
        return Err(ZeroDivision);
      }
      var o := new GreedyOptimizer(building, nResponders, initialPositions, capabilities, strategy, find, order);
      return Ok(o);
    }

    function Dist(): Query {
      CoarseQuery(graph)
    }

    /** The responders' initial positions, in id order. */
    function Starts(): (ps: seq<string>)
      ensures |ps| == |team.responders| && forall k | 0 <= k < |ps| :: ps[k] == team.responders[k].initialPosition
    {
      seq(|team.responders|, k requires 0 <= k < |team.responders| => team.responders[k].initialPosition)
    }

    function Paces(): (ps: seq<Pace>)
      ensures |ps| == |team.responders|
      ensures forall k | 0 <= k < |ps| :: ps[k] == Pace(team.responders[k].walkSpeed,
                                                        team.responders[k].baseCheckTime,
                                                        team.responders[k].checkRate)
    {
      seq(|team.responders|, k requires 0 <= k < |team.responders| =>
        Pace(team.responders[k].walkSpeed, team.responders[k].baseCheckTime, team.responders[k].checkRate))
    }

    /** optimize: dispatch on the strategy; an unknown name means nearest. */
    method Optimize() returns (r: Result<Assignment>)
      requires Valid() && building.Valid()
      ensures strategy == "priority" ==> r == PriorityPlan(Dist(), order, Starts(), building.rooms.Values())
      ensures strategy == "balanced" ==>
                r == BalancedAssignmentOf(BalancedRun(Dist(), building.rooms.entries, Paces(),
                                                      Plans.Start(Starts(), order(building.rooms.keys)),
                                                      Repeat(0.0, nResponders)))
      ensures strategy != "priority" && strategy != "balanced" ==>
                r == AssignmentOf(NearestRun(Dist(), Plans.Start(Starts(), order(building.rooms.keys))))
    {
      if strategy == "nearest" {
        r := GreedyNearest();
      } else if strategy == "priority" {
        r := GreedyPriority();
      } else if strategy == "balanced" {
        r := GreedyBalanced();
      } else {
        r := GreedyNearest();
      }
    }

    /** _greedy_nearest */
    method GreedyNearest() returns (r: Result<Assignment>)
      requires Valid()
      ensures r == AssignmentOf(NearestRun(Dist(), Plans.Start(Starts(), order(building.rooms.keys))))
    {
      var dist := Dist();
      ghost var start := Plans.Start(Starts(), order(building.rooms.keys));
      var assignment, positions, unchecked := Repeat<seq<string>>([], |team.responders|), Starts(), order(building.rooms.keys);
      while unchecked != []
        invariant Plan(assignment, positions, unchecked).Shaped() && |positions| == |team.responders|
        invariant NearestRun(dist, Plan(assignment, positions, unchecked)) == NearestRun(dist, start)
        decreases |unchecked|
      {
        ghost var p := Plan(assignment, positions, unchecked);
        var found := BestPair(dist, positions, unchecked);
        if found.Err? {
          return Err(found.error);
        }
        var best := found.value;
        if best.None? {
          break;
        }
        AllCandsSound(dist, positions, unchecked);
        var who, at := best.value.who, best.value.at;
        var room := unchecked[at];
        assignment := assignment[who := assignment[who] + [room]];
        positions := positions[who := room];
        unchecked := Remove(unchecked, at);
        assert Plan(assignment, positions, unchecked) == Assign(p, who, at);
      }
      return Ok(assignment);
    }

    /** The two nested loops of _greedy_nearest: every responder in id order, every
        unchecked room in set order, keeping the strictly nearest pair. */
    method BestPair(dist: Query, positions: seq<string>, unchecked: seq<string>) returns (r: Result<Option<Cand>>)
      ensures AllCands(dist, positions, unchecked).Err? ==> r == Err(AllCands(dist, positions, unchecked).error)
      ensures AllCands(dist, positions, unchecked).Ok? ==> r == Ok(Scan(None, AllCands(dist, positions, unchecked).value))
    {
      var best: Option<Cand> := None;
      var k := 0;
      while k < |positions|
        invariant 0 <= k <= |positions|
        invariant AllCands(dist, positions[..k], unchecked).Ok?
        invariant best == Scan(None, AllCands(dist, positions[..k], unchecked).value)
      {
        assert positions[..k + 1][..k] == positions[..k];
        var found := ScanRooms(dist, k, positions[k], unchecked, best);
        if found.Err? {
          AllCandsErr(dist, positions, unchecked, k + 1);
          return Err(found.error);
        }
        ScanAppend(None, AllCands(dist, positions[..k], unchecked).value, PairCands(dist, k, positions[k], unchecked).value);
        best := found.value;
        k := k + 1;
      }
      assert positions[..k] == positions;
      return Ok(best);
    }

    /** _greedy_balanced */
    method GreedyBalanced() returns (r: Result<Assignment>)
      requires Valid() && building.Valid()
      ensures r == BalancedAssignmentOf(BalancedRun(Dist(), building.rooms.entries, Paces(),
                                                    Plans.Start(Starts(), order(building.rooms.keys)),
                                                    Repeat(0.0, nResponders)))
    {
      r := BalancedSweep(Dist(), building.rooms.entries, Paces(), Starts(), order(building.rooms.keys));
    }

    /** _greedy_priority, whose _optimize_path_order is NearestNeighbourOrder over
        the coarse graph. */
    method GreedyPriority() returns (r: Result<Assignment>)
      requires Valid() && building.Valid()
      ensures r == PriorityPlan(Dist(), order, Starts(), building.rooms.Values())
    {
      r := PrioritySweep(Dist(), order, Starts(), building.rooms.Values());
    }
  }

  // ---------------------------------------------------------------------------
  // The loops, over any distance query

  /** The loop over the unchecked rooms of the balanced strategy, from the given
      starting positions with every estimate at 0. */
  method BalancedSweep(dist: Query, rooms: map<string, Room>, paces: seq<Pace>, starts: seq<string>,
                       unchecked0: seq<string>) returns (r: Result<Assignment>)
    requires |paces| == |starts| && forall x | x in unchecked0 :: x in rooms
    ensures r == BalancedAssignmentOf(BalancedRun(dist, rooms, paces, Plans.Start(starts, unchecked0),
                                                  Repeat(0.0, |starts|)))
  {
    ghost var start := Plans.Start(starts, unchecked0);
    var assignment, positions, unchecked := Repeat<seq<string>>([], |starts|), starts, unchecked0;
    var estimatedTimes := Repeat(0.0, |starts|);
    while unchecked != []
      invariant Plan(assignment, positions, unchecked).Shaped()
      invariant |positions| == |estimatedTimes| == |paces|
      invariant forall x | x in unchecked :: x in rooms
      invariant BalancedRun(dist, rooms, paces, Plan(assignment, positions, unchecked), estimatedTimes)
                == BalancedRun(dist, rooms, paces, start, Repeat(0.0, |starts|))
      decreases |unchecked|
    {
      var pass := BalancedPass(dist, rooms, paces, assignment, positions, unchecked, estimatedTimes);
      if pass.Err? {
        return Err(pass.error);
      }
      if pass.value.None? {
        break;
      }
      var (q, e) := pass.value.value;
      assignment, positions, unchecked, estimatedTimes := q.assignment, q.positions, q.unchecked, e;
    }
    return Ok(assignment);
  }

  /** Sort by (-priority, y, x), deal round robin, then put each responder's
      non-empty list in nearest-neighbour order from its start. */
  method PrioritySweep(dist: Query, order: SetOrder, starts: seq<string>, rooms: seq<Room>) returns (r: Result<Assignment>)
    ensures r == PriorityPlan(dist, order, starts, rooms)
  {
    var dealing := DealRooms(SortByPriority(rooms), |starts|);
    if dealing.Err? {
      return Err(dealing.error);
    }
    var n, assignment := |starts|, dealing.value;
    ghost var dealt := assignment;
    var k := 0;
    while k < n
      invariant 0 <= k <= n && |assignment| == |dealt| == n
      invariant OrderLists(dist, order, starts, dealt, k) == Ok(assignment)
    {
      var step := OrderList(dist, order, starts, dealt, k, assignment);
      if step.Err? {
        OrderListsErr(dist, order, starts, dealt, k + 1);
        return step;
      }
      assignment := step.value;
      k := k + 1;
    }
    return Ok(assignment);
  }

  /** One pass of the ordering loop: responder k's non-empty list put in
      nearest-neighbour order. */
  method OrderList(dist: Query, order: SetOrder, starts: seq<string>, ghost dealt: Assignment, k: nat, assignment: Assignment)
    returns (r: Result<Assignment>)
    requires k < |dealt| <= |starts| && |assignment| == |dealt|
    requires OrderLists(dist, order, starts, dealt, k) == Ok(assignment)
    ensures r == OrderLists(dist, order, starts, dealt, k + 1)
  {
    r := Ok(assignment);
    if assignment[k] != [] {
      var ordered := NearestNeighbourOrder(dist, order, starts[k], assignment[k]);
      if ordered.Err? {
        return Err(ordered.error);
      }
      r := Ok(assignment[k := ordered.value]);
    }
  }

  /** _optimize_path_order: from the start, repeatedly walk to the strictly nearest
      unvisited room; once none is reachable the rest follow in set order. */
  method NearestNeighbourOrder(dist: Query, order: SetOrder, startPosition: string, roomIds: seq<string>)
    returns (r: Result<seq<string>>)
    ensures r == PathOrder(dist, order, startPosition, roomIds)
  {
    if |roomIds| <= 1 {
      return Ok(roomIds);
    }
    var unvisited := order(roomIds);
    var ordered := [];
    var current := startPosition;
    while unvisited != []
      invariant Walk(dist, current, unvisited, ordered) == Walk(dist, startPosition, order(roomIds), [])
      decreases |unvisited|
    {
      var found := ScanRooms(dist, 0, current, unvisited, None);
      if found.Err? {
        return Err(found.error);
      }
      if found.value.None? {
        ordered := ordered + unvisited;
        break;
      }
      var at := found.value.value.at;
      var nearest := unvisited[at];
      ordered := ordered + [nearest];
      unvisited := Remove(unvisited, at);
      current := nearest;
    }
    return Ok(ordered);
  }

  /** One pass of the loop over the unchecked rooms of _greedy_balanced. */
  method BalancedPass(dist: Query, rooms: map<string, Room>, paces: seq<Pace>, assignment: Assignment,
                      positions: seq<string>, unchecked: seq<string>, estimatedTimes: seq<real>)
    returns (r: Result<Option<(Plan, seq<real>)>>)
    requires Plan(assignment, positions, unchecked).Shaped() && unchecked != []
    requires |paces| == |positions| && |estimatedTimes| == |positions|
    requires forall x | x in unchecked :: x in rooms
    ensures r == BalancedNext(dist, rooms, paces, Plan(assignment, positions, unchecked), estimatedTimes)
  {
    ghost var p := Plan(assignment, positions, unchecked);
    ghost var next := BalancedNext(dist, rooms, paces, p, estimatedTimes);
    if estimatedTimes == [] {
      return Err(EmptyMax);
    }
    var k := ArgMin(estimatedTimes);
    var found := ScanRooms(dist, k, positions[k], unchecked, None);
    ghost var cands := PairCands(dist, k, positions[k], unchecked);
    if found.Err? {
      assert cands.Err? && next == Err(cands.error);
      return Err(found.error);
    }
    var best := found.value;
    BalancedNextIs(dist, rooms, paces, p, estimatedTimes, best);
    if best.None? {
      return Ok(None);
    }
    var taken := TakeRoom(rooms, paces, assignment, positions, unchecked, estimatedTimes, k, best.value.at, best.value.dist.v);
    if taken.Err? {
      return Err(taken.error);
    }
    return Ok(Some(taken.value));
  }

  /** The rest of the pass: responder k takes unchecked room `at` at distance d. */
  method TakeRoom(rooms: map<string, Room>, paces: seq<Pace>, assignment: Assignment, positions: seq<string>,
                  unchecked: seq<string>, estimatedTimes: seq<real>, k: nat, at: nat, d: real)
    returns (r: Result<(Plan, seq<real>)>)
    requires Plan(assignment, positions, unchecked).Shaped() && k < |positions| == |paces| == |estimatedTimes|
    requires at < |unchecked| && unchecked[at] in rooms
    ensures paces[k].walkSpeed == 0.0 ==> r == Err(ZeroDivision)
    ensures paces[k].walkSpeed != 0.0 ==> r == Ok(Taken(rooms, paces, Plan(assignment, positions, unchecked), estimatedTimes, k, at, d))
  {
    var room := unchecked[at];
    var assignment', positions', unchecked' := assignment[k := assignment[k] + [room]], positions[k := room], Remove(unchecked, at);
    if paces[k].walkSpeed == 0.0 {
      return Err(ZeroDivision);
    }
    var travelTime := d / paces[k].walkSpeed;
    var checkTime := rooms[room].CheckTime(paces[k].baseCheckTime, paces[k].checkRate);
    var estimatedTimes' := estimatedTimes[k := estimatedTimes[k] + (travelTime + checkTime)];
    TakenIs(rooms, paces, Plan(assignment, positions, unchecked), estimatedTimes, k, at, d, travelTime + checkTime,
            Plan(assignment', positions', unchecked'), estimatedTimes');
    return Ok((Plan(assignment', positions', unchecked'), estimatedTimes'));
  }

  /** BalancedNext once the least-loaded responder's scan has been done. */
  lemma {:induction false} BalancedNextIs(dist: Query, rooms: map<string, Room>, paces: seq<Pace>, p: Plan,
                                          est: seq<real>, best: Option<Cand>)
    requires p.Shaped() && |paces| == |p.positions| && |est| == |p.positions| && p.unchecked != []
    requires forall x | x in p.unchecked :: x in rooms
    requires |est| > 0 && PairCands(dist, ArgMin(est), p.positions[ArgMin(est)], p.unchecked).Ok?
    requires best == Scan(None, PairCands(dist, ArgMin(est), p.positions[ArgMin(est)], p.unchecked).value)
    ensures best.None? ==> BalancedNext(dist, rooms, paces, p, est) == Ok(None)
    ensures best.Some? ==> best.value.at < |p.unchecked| && best.value.dist.Fin?
    ensures best.Some? && paces[ArgMin(est)].walkSpeed == 0.0 ==> BalancedNext(dist, rooms, paces, p, est) == Err(ZeroDivision)
    ensures best.Some? && paces[ArgMin(est)].walkSpeed != 0.0 ==>
              BalancedNext(dist, rooms, paces, p, est)
              == Ok(Some(Taken(rooms, paces, p, est, ArgMin(est), best.value.at, best.value.dist.v)))
  {
    var k := ArgMin(est);
    BalancedPick(dist, k, p.positions[k], p.unchecked);
    var r := BalancedNext(dist, rooms, paces, p, est);
    if best.None? {
      assert r == Ok(None);
    } else if paces[k].walkSpeed == 0.0 {
      assert r == Err(ZeroDivision);
    } else {
      assert r == Ok(Some(Taken(rooms, paces, p, est, k, best.value.at, best.value.dist.v)));
    }
  }

  /** Once ordering one list has raised, the remaining lists do not change the outcome. */
  lemma {:induction false} OrderListsErr(dist: Query, order: SetOrder, starts: seq<string>, a: Assignment, k: nat)
    requires k <= |a| <= |starts| && OrderLists(dist, order, starts, a, k).Err?
    ensures OrderLists(dist, order, starts, a, |a|) == OrderLists(dist, order, starts, a, k)
    decreases |a| - k
  {
    if k < |a| {
      OrderListsErrStep(dist, order, starts, a, k);
      OrderListsErr(dist, order, starts, a, k + 1);
    }
  }

  lemma {:induction false} OrderListsErrStep(dist: Query, order: SetOrder, starts: seq<string>, a: Assignment, k: nat)
    requires k < |a| <= |starts| && OrderLists(dist, order, starts, a, k).Err?
    ensures OrderLists(dist, order, starts, a, k + 1) == OrderLists(dist, order, starts, a, k)
  {
  }

  // ---------------------------------------------------------------------------
  // What the strategies promise

  /** A room counted by `all` that is neither assigned nor unchecked does not exist. */
  lemma {:induction false} LeftUnchecked(p: Plan, all: seq<string>, x: string)
    requires Accounts(p, all) && x in all && x !in Flatten(p.assignment)
    ensures x in p.unchecked
  {
    assert multiset(all)[x] >= 1;
  }

  /** _greedy_nearest assigns each room at most once and only rooms of the building;
      a room it leaves out cannot be reached from where any responder ended. */
  lemma {:induction false} NearestOutcome(dist: Query, order: SetOrder, starts: seq<string>, keys: seq<string>)
    requires IsSetOrder(order) && NoDup(keys)
    requires NearestRun(dist, Plans.Start(starts, order(keys))).Ok?
    ensures var q := NearestRun(dist, Plans.Start(starts, order(keys))).value;
      && |q.assignment| == |q.positions| == |starts|
      && NoDup(Flatten(q.assignment))
      && (forall x | x in Flatten(q.assignment) :: x in keys)
      && (forall x, k | x in keys && x !in Flatten(q.assignment) && 0 <= k < |q.positions| ::
            dist(q.positions[k], x) == Ok(Inf))
  {
    var p := Plans.Start(starts, order(keys));
    StartAccounts(starts, order, keys);
    NearestRunAccounts(dist, p, keys);
    var q := NearestRun(dist, p).value;
    AccountsDistinct(q, keys);
    NearestRunStops(dist, p);
    forall x | x in keys && x !in Flatten(q.assignment) ensures x in q.unchecked {
      LeftUnchecked(q, keys, x);
    }
  }

  /** When every responder can reach every room, _greedy_nearest assigns them all. */
  lemma {:induction false} NearestCoversReachable(dist: Query, order: SetOrder, starts: seq<string>, keys: seq<string>)
    requires IsSetOrder(order) && NoDup(keys) && |starts| > 0
    requires forall a, b :: dist(a, b).Ok? && dist(a, b).value.Fin?
    requires NearestRun(dist, Plans.Start(starts, order(keys))).Ok?
    ensures multiset(Flatten(NearestRun(dist, Plans.Start(starts, order(keys))).value.assignment)) == multiset(keys)
  {
    NearestOutcome(dist, order, starts, keys);
    var q := NearestRun(dist, Plans.Start(starts, order(keys))).value;
    forall x | x in keys ensures x in Flatten(q.assignment) {
      assert dist(q.positions[0], x).value.Fin?;
    }
    SameElements(Flatten(q.assignment), keys);
  }

  /** _greedy_balanced assigns each room at most once and only rooms of the building;
      when it leaves a room out, the responder with the least estimated time cannot
      reach it. */
  lemma {:induction false} BalancedOutcome(dist: Query, rooms: map<string, Room>, paces: seq<Pace>, order: SetOrder,
                                           starts: seq<string>, keys: seq<string>)
    requires IsSetOrder(order) && NoDup(keys) && |paces| == |starts|
    requires forall x | x in keys :: x in rooms
    requires forall x | x in order(keys) :: x in rooms
    requires BalancedRun(dist, rooms, paces, Plans.Start(starts, order(keys)), Repeat(0.0, |starts|)).Ok?
    ensures var (q, e) := BalancedRun(dist, rooms, paces, Plans.Start(starts, order(keys)), Repeat(0.0, |starts|)).value;
      && |q.assignment| == |q.positions| == |e| == |starts|
      && NoDup(Flatten(q.assignment))
      && (forall x | x in Flatten(q.assignment) :: x in keys)
      && (forall x | x in keys && x !in Flatten(q.assignment) :: |e| > 0 && dist(q.positions[ArgMin(e)], x) == Ok(Inf))
  {
    var p := Plans.Start(starts, order(keys));
    var est := Repeat(0.0, |starts|);
    StartAccounts(starts, order, keys);
    BalancedRunAccounts(dist, rooms, paces, p, est, keys);
    BalancedRunStops(dist, rooms, paces, p, est);
    var (q, e) := BalancedRun(dist, rooms, paces, p, est).value;
    AccountsDistinct(q, keys);
    forall x | x in keys && x !in Flatten(q.assignment) ensures x in q.unchecked {
      LeftUnchecked(q, keys, x);
    }
  }

  /** b is a with the first k lists put in nearest-neighbour order. */
  ghost predicate OrderedUpTo(dist: Query, starts: seq<string>, a: Assignment, b: Assignment, k: nat)
    requires k <= |a| <= |starts|
  {
    && |b| == |a|
    && (forall i | k <= i < |a| :: b[i] == a[i])
    && (forall i | 0 <= i < |a| :: multiset(b[i]) == multiset(a[i]))
    && (forall i | 0 <= i < |a| && |a[i]| <= 1 :: b[i] == a[i])
    && (forall i | 0 <= i < k && |a[i]| > 1 :: IsNearestRoute(dist, starts[i], b[i]))
  }

  /** Ordering the first k lists reorders each of them, leaves the others alone,
      and turns each list of two or more rooms into a nearest-neighbour route from
      that responder's start. */
  lemma {:induction false} OrderListsMeaning(dist: Query, order: SetOrder, starts: seq<string>, a: Assignment, k: nat)
    requires k <= |a| <= |starts| && IsSetOrder(order)
    requires forall i | 0 <= i < |a| :: NoDup(a[i])
    requires OrderLists(dist, order, starts, a, k).Ok?
    ensures OrderedUpTo(dist, starts, a, OrderLists(dist, order, starts, a, k).value, k)
    decreases k
  {
    if k > 0 {
      var i := k - 1;
      OrderListsNext(dist, order, starts, a, k);
      var b, c := OrderLists(dist, order, starts, a, i).value, OrderLists(dist, order, starts, a, k).value;
      OrderListsMeaning(dist, order, starts, a, i);
      assert |b| == |a|;
      OrderOne(dist, order, starts, a, b, c, i);
    }
  }

  /** One step of OrderLists: list k - 1 is put in order, or left alone when empty. */
  lemma {:induction false} OrderListsNext(dist: Query, order: SetOrder, starts: seq<string>, a: Assignment, k: nat)
    requires 0 < k <= |a| <= |starts| && OrderLists(dist, order, starts, a, k).Ok?
    ensures OrderLists(dist, order, starts, a, k - 1).Ok?
    ensures var b := OrderLists(dist, order, starts, a, k - 1).value;
      |b| == |a| ==>
        && (b[k - 1] == [] ==> OrderLists(dist, order, starts, a, k).value == b)
        && (b[k - 1] != [] ==> PathOrder(dist, order, starts[k - 1], b[k - 1]).Ok?
                               && OrderLists(dist, order, starts, a, k).value
                                  == b[k - 1 := PathOrder(dist, order, starts[k - 1], b[k - 1]).value])
  {
  }

  /** Putting list i, the next one, in order extends OrderedUpTo by one. */
  lemma {:induction false} OrderOne(dist: Query, order: SetOrder, starts: seq<string>, a: Assignment, b: Assignment,
                                    c: Assignment, i: nat)
    requires i < |a| <= |starts| && IsSetOrder(order) && NoDup(a[i])
    requires OrderedUpTo(dist, starts, a, b, i)
    requires b[i] == [] ==> c == b
    requires b[i] != [] ==> PathOrder(dist, order, starts[i], b[i]).Ok?
                            && c == b[i := PathOrder(dist, order, starts[i], b[i]).value]
    ensures OrderedUpTo(dist, starts, a, c, i + 1)
  {
    assert b[i] == a[i];
    if a[i] != [] {
      var o := PathOrder(dist, order, starts[i], a[i]).value;
      PathOrderPermutes(dist, order, starts[i], a[i]);
      var m := PathOrderIsNearestRoute(dist, order, starts[i], a[i]);
      OrderedStep(dist, starts, a, b, i, o, m);
    }
  }

  lemma {:induction false} OrderedStep(dist: Query, starts: seq<string>, a: Assignment, b: Assignment, i: nat,
                                       o: seq<string>, m: nat)
    requires i < |a| <= |starts| && OrderedUpTo(dist, starts, a, b, i)
    requires multiset(o) == multiset(b[i])
    requires |b[i]| <= 1 ==> o == b[i]
    requires |b[i]| > 1 ==> NearestRoute(dist, starts[i], o, m)
    ensures OrderedUpTo(dist, starts, a, b[i := o], i + 1)
  {
    assert b[i] == a[i];
  }

  /** _greedy_priority deals the rooms, sorted by priority, round robin, and only
      reorders each responder's share:
      - with no responder it fails as soon as there is a room;
      - each list holds the rooms dealt to that responder, each once, and lists
        differ in length by at most one;
      - together the lists hold every room once;
      - a list of two or more rooms is a nearest-neighbour route from that
        responder's start. */
  lemma {:induction false} PriorityOutcome(dist: Query, order: SetOrder, starts: seq<string>, rooms: seq<Room>)
    requires IsSetOrder(order) && NoDup(RoomIds(rooms))
    ensures |starts| == 0 ==> PriorityPlan(dist, order, starts, rooms) == (if rooms == [] then Ok([]) else Err(ZeroDivision))
    ensures |starts| > 0 && PriorityPlan(dist, order, starts, rooms).Ok? ==>
      var ids, n, b := RoomIds(SortByPriority(rooms)), |starts|, PriorityPlan(dist, order, starts, rooms).value;
      && |b| == n
      && (forall k | 0 <= k < n :: multiset(b[k]) == multiset(Deal(ids, n)[k]) && NoDup(b[k]))
      && (forall k, k' | 0 <= k < n && 0 <= k' < n :: |b[k]| <= |b[k']| + 1)
      && multiset(Flatten(b)) == multiset(RoomIds(rooms))
      && (forall k | 0 <= k < n && |b[k]| > 1 :: IsNearestRoute(dist, starts[k], b[k]))
  {
    var ids, n := RoomIds(SortByPriority(rooms)), |starts|;
    RoomIdsPermute(SortByPriority(rooms), rooms);
    if n > 0 && PriorityPlan(dist, order, starts, rooms).Ok? {
      MultisetNoDup(RoomIds(rooms), ids);
      var a := Deal(ids, n);
      DealDistinct(ids, n);
      DealBalanced(ids, n);
      DealPermutes(ids, n);
      OrderListsMeaning(dist, order, starts, a, n);
      var b := PriorityPlan(dist, order, starts, rooms).value;
      forall k | 0 <= k < n ensures NoDup(b[k]) {
        MultisetNoDup(a[k], b[k]);
      }
      forall k | 0 <= k < n ensures |b[k]| == |a[k]| {
        assert |multiset(b[k])| == |multiset(a[k])|;
      }
      FlattenSameLists(b, a);
    }
  }
}
