/** The two loops over the unchecked rooms of the greedy optimizers, as functions of
    their state: the nearest strategy and the load-balanced strategy. */
module Plans {
  import opened Common
  import opened Facility
  import opened Sorting
  import opened Sweep

  /** The loop state:
      - assignment: each responder's rooms so far;
      - positions: each responder's current position;
      - unchecked: the rooms not yet taken, in set iteration order. */
  datatype Plan = Plan(assignment: Assignment, positions: seq<string>, unchecked: seq<string>)
  {
    predicate Shaped() {
      |assignment| == |positions|
    }
  }

  /** Before the loop: empty lists, the initial positions, every room unchecked. */
  function Start(positions: seq<string>, unchecked: seq<string>): (p: Plan)
    ensures p.Shaped() && p.positions == positions && p.unchecked == unchecked
    ensures forall k | 0 <= k < |positions| :: p.assignment[k] == []
  {
    Plan(Repeat([], |positions|), positions, unchecked)
  }

  /** Responder who takes unchecked room number at: the room joins its list, becomes its position, and leaves the unchecked rooms. */
  function Assign(p: Plan, who: nat, at: nat): (q: Plan)
    requires p.Shaped() && who < |p.positions| && at < |p.unchecked|
    ensures q.Shaped() && |q.positions| == |p.positions|
    ensures q.unchecked == Remove(p.unchecked, at)
  {
    var room := p.unchecked[at];
    Plan(p.assignment[who := p.assignment[who] + [room]], p.positions[who := room], Remove(p.unchecked, at))
  }

  // ---------------------------------------------------------------------------
  // Nearest first

  /** _greedy_nearest: take the globally nearest (responder, room) pair until no
      unchecked room can be reached. */
  function NearestRun(dist: Query, p: Plan): Result<Plan>
    requires p.Shaped()
    decreases |p.unchecked|
  {
    if p.unchecked == [] then Ok(p)
    else
      match AllCands(dist, p.positions, p.unchecked)
      case Err(e) => Err(e)
      case Ok(cs) =>
        var best := Scan(None, cs);
        if best.None? then Ok(p)
        else
          AllCandsSound(dist, p.positions, p.unchecked);
          NearestRun(dist, Assign(p, best.value.who, best.value.at))
  }

  // ---------------------------------------------------------------------------
  // Load balanced

  /** What the balanced estimate needs of each responder. */
  datatype Pace = Pace(walkSpeed: real, baseCheckTime: real, checkRate: real)
  {
    predicate Sane() {
      walkSpeed > 0.0 && baseCheckTime >= 0.0 && checkRate >= 0.0
    }
  }

  /** The responder with the least estimate: the first responder, in id
      order, whose estimate is minimal. */
  function ArgMin(est: seq<real>): (k: nat)
    requires |est| > 0
    ensures k < |est|
    ensures forall j | 0 <= j < |est| :: est[k] <= est[j]
    ensures forall j | 0 <= j < k :: est[k] < est[j]
    decreases |est|
  {
    if |est| == 1 then 0
    else
      var k := ArgMin(est[..|est| - 1]);
      if est[|est| - 1] < est[k] then |est| - 1 else k
  }

  /** Travel time at walking speed plus the room's check time. */
  function Added(pace: Pace, d: real, room: Room): real
    requires pace.walkSpeed != 0.0
  {
    d / pace.walkSpeed + room.CheckTime(pace.baseCheckTime, pace.checkRate)
  }

  /** One pass of the loop over the unchecked rooms of _greedy_balanced: the
      responder with the least estimated time takes its nearest unchecked room, or
      None when that responder can reach none.
      - An empty team has no minimum (ValueError).
      - A walking speed of zero divides by zero. */
  function BalancedNext(dist: Query, rooms: map<string, Room>, paces: seq<Pace>, p: Plan, est: seq<real>)
    : (r: Result<Option<(Plan, seq<real>)>>)
    requires p.Shaped() && |paces| == |p.positions| && |est| == |p.positions| && p.unchecked != []
    requires forall x | x in p.unchecked :: x in rooms
    ensures r.Ok? && r.value.Some? ==>
              var (q, e) := r.value.value;
              && q.Shaped() && |q.positions| == |e| == |p.positions|
              && |q.unchecked| < |p.unchecked| && forall x | x in q.unchecked :: x in rooms
  {
    if est == [] then Err(EmptyMax)
    else
      var k := ArgMin(est);
      match PairCands(dist, k, p.positions[k], p.unchecked)
      case Err(e) => Err(e)
      case Ok(cs) =>
        var best := Scan(None, cs);
        if best.None? then Ok(None)
        else if paces[k].walkSpeed == 0.0 then Err(ZeroDivision)
        else
          Ok(Some(Taken(rooms, paces, p, est, k, best.value.at, best.value.dist.v)))
  }

  /** Responder k takes unchecked room `at`, at distance d: the room joins its list and
      its estimate grows by the walk and the check. */
  function Taken(rooms: map<string, Room>, paces: seq<Pace>, p: Plan, est: seq<real>, k: nat, at: nat, d: real)
    : (Plan, seq<real>)
    requires p.Shaped() && k < |p.positions| == |paces| == |est| && at < |p.unchecked|
    requires p.unchecked[at] in rooms && paces[k].walkSpeed != 0.0
  {
    (Assign(p, k, at), est[k := est[k] + Added(paces[k], d, rooms[p.unchecked[at]])])
  }

  /** Taken, written out the way the loop body computes it. */
  lemma {:induction false} TakenIs(rooms: map<string, Room>, paces: seq<Pace>, p: Plan, est: seq<real>, k: nat, at: nat,
                                   d: real, added: real, q: Plan, e: seq<real>)
    requires p.Shaped() && k < |p.positions| == |paces| == |est| && at < |p.unchecked|
    requires p.unchecked[at] in rooms && paces[k].walkSpeed != 0.0
    requires var room := p.unchecked[at];
      q == Plan(p.assignment[k := p.assignment[k] + [room]], p.positions[k := room], Remove(p.unchecked, at))
    requires added == Added(paces[k], d, rooms[p.unchecked[at]]) && e == est[k := est[k] + added]
    ensures (q, e) == Taken(rooms, paces, p, est, k, at, d)
  {
  }

  lemma {:induction false} AddedNonNegative(pace: Pace, d: real, room: Room)
    requires pace.Sane() && d >= 0.0 && room.Sane()
    ensures Added(pace, d, room) >= room.CheckTime(pace.baseCheckTime, pace.checkRate) >= 0.0
  {
    assert d / pace.walkSpeed >= 0.0;
  }

  /** _greedy_balanced: passes until every room is taken or the pass finds none. */
  function BalancedRun(dist: Query, rooms: map<string, Room>, paces: seq<Pace>, p: Plan, est: seq<real>)
    : Result<(Plan, seq<real>)>
    requires p.Shaped() && |paces| == |p.positions| && |est| == |p.positions|
    requires forall x | x in p.unchecked :: x in rooms
    decreases |p.unchecked|
  {
    if p.unchecked == [] then Ok((p, est))
    else
      match BalancedNext(dist, rooms, paces, p, est)
      case Err(e) => Err(e)
      case Ok(None) => Ok((p, est))
      case Ok(Some((q, e))) => BalancedRun(dist, rooms, paces, q, e)
  }

  // ---------------------------------------------------------------------------
  // Accounting: assigned and unchecked rooms together are the rooms, each once

  ghost predicate Accounts(p: Plan, all: seq<string>) {
    multiset(Flatten(p.assignment)) + multiset(p.unchecked) == multiset(all)
  }

  lemma {:induction false} AssignAccounts(p: Plan, who: nat, at: nat, all: seq<string>)
    requires p.Shaped() && who < |p.positions| && at < |p.unchecked| && Accounts(p, all)
    ensures Accounts(Assign(p, who, at), all)
  {
    FlattenAppend(p.assignment, who, p.unchecked[at]);
    var u := p.unchecked;
    assert u == u[..at] + [u[at]] + u[at + 1..];
  }

  /** The initial state accounts for every room when the set order lists each room once. */
  lemma {:induction false} StartAccounts(positions: seq<string>, order: SetOrder, rooms: seq<string>)
    requires IsSetOrder(order) && NoDup(rooms)
    ensures Accounts(Start(positions, order(rooms)), rooms)
  {
    FlattenEmpty(|positions|);
    SameElements(order(rooms), rooms);
  }

  lemma {:induction false} SameElements(a: seq<string>, b: seq<string>)
    requires NoDup(a) && NoDup(b) && forall x :: x in a <==> x in b
    ensures multiset(a) == multiset(b)
  {
    forall x ensures multiset(a)[x] == multiset(b)[x] {
      DistinctCountOne(a, x);
      DistinctCountOne(b, x);
      if x in a {
        assert multiset(a)[x] >= 1 && multiset(b)[x] >= 1;
      }
    }
  }

  lemma {:induction false} TwiceCounted(s: seq<string>, i: nat, j: nat)
    requires i < j < |s| && s[i] == s[j]
    ensures multiset(s)[s[i]] >= 2
  {
    var x := s[i];
    assert s == s[..i] + [x] + s[i + 1..j] + [x] + s[j + 1..];
    assert multiset(s) == multiset(s[..i]) + multiset{x} + multiset(s[i + 1..j]) + multiset{x} + multiset(s[j + 1..]);
  }

  /** Accounting for rooms that are all distinct makes the assigned rooms distinct. */
  lemma {:induction false} AccountsDistinct(p: Plan, all: seq<string>)
    requires Accounts(p, all) && NoDup(all)
    ensures NoDup(Flatten(p.assignment))
    ensures forall x | x in Flatten(p.assignment) :: x in all && x !in p.unchecked
  {
    var s := Flatten(p.assignment);
    forall i, j | 0 <= i < j < |s| ensures s[i] != s[j] {
      if s[i] == s[j] {
        TwiceCounted(s, i, j);
        DistinctCountOne(all, s[i]);
        assert false;
      }
    }
    forall x | x in s ensures x in all && x !in p.unchecked {
      assert multiset(s)[x] >= 1;
      DistinctCountOne(all, x);
    }
  }

  // ---------------------------------------------------------------------------
  // What the nearest loop leaves behind

  /** The loop keeps every room accounted for. */
  lemma {:induction false} NearestRunAccounts(dist: Query, p: Plan, all: seq<string>)
    requires p.Shaped() && Accounts(p, all) && NearestRun(dist, p).Ok?
    ensures NearestRun(dist, p).value.Shaped() && Accounts(NearestRun(dist, p).value, all)
    ensures |NearestRun(dist, p).value.positions| == |p.positions|
    decreases |p.unchecked|
  {
    if p.unchecked != [] {
      var cs := AllCands(dist, p.positions, p.unchecked).value;
      var best := Scan(None, cs);
      if best.Some? {
        AllCandsSound(dist, p.positions, p.unchecked);
        AssignAccounts(p, best.value.who, best.value.at, all);
        NearestRunAccounts(dist, Assign(p, best.value.who, best.value.at), all);
      }
    }
  }

  /** The loop stops early only when no responder can reach any unchecked room. */
  lemma {:induction false} NearestRunStops(dist: Query, p: Plan)
    requires p.Shaped() && NearestRun(dist, p).Ok?
    ensures var q := NearestRun(dist, p).value;
            forall k, x | 0 <= k < |q.positions| && x in q.unchecked :: dist(q.positions[k], x) == Ok(Inf)
    decreases |p.unchecked|
  {
    if p.unchecked != [] {
      var cs := AllCands(dist, p.positions, p.unchecked).value;
      var best := Scan(None, cs);
      NearestPick(dist, p.positions, p.unchecked);
      if best.Some? {
        AllCandsSound(dist, p.positions, p.unchecked);
        NearestRunStops(dist, Assign(p, best.value.who, best.value.at));
      } else {
        forall k, x | 0 <= k < |p.positions| && x in p.unchecked ensures dist(p.positions[k], x) == Ok(Inf) {
          var j :| 0 <= j < |p.unchecked| && p.unchecked[j] == x;
        }
      }
    }
  }

  // ---------------------------------------------------------------------------
  // What the balanced loop leaves behind

  lemma {:induction false} BalancedPick(dist: Query, k: nat, from: string, rooms: seq<string>)
    requires PairCands(dist, k, from, rooms).Ok?
    ensures var best := Scan(None, PairCands(dist, k, from, rooms).value);
      && (best.None? ==> forall x | x in rooms :: dist(from, x) == Ok(Inf))
      && (best.Some? ==> best.value.at < |rooms| && best.value.dist.Fin?
                         && dist(from, rooms[best.value.at]) == Ok(best.value.dist))
  {
    var cs := PairCands(dist, k, from, rooms).value;
    ScanFromNothing(cs);
    var best := Scan(None, cs);
    if best.None? {
      forall x | x in rooms ensures dist(from, x) == Ok(Inf) {
        var j :| 0 <= j < |rooms| && rooms[j] == x;
        assert cs[j].dist.Inf?;
      }
    } else {
      var j :| 0 <= j < |cs| && cs[j] == best.value;
    }
  }

  /** One pass: the least-loaded responder k takes the room, nothing else moves, and
      only k's estimate grows, by the travel time plus the check time; a pass that
      finds nothing means k reaches no unchecked room. */
  lemma {:induction false} BalancedNextMeaning(dist: Query, rooms: map<string, Room>, paces: seq<Pace>, p: Plan, est: seq<real>)
    returns (at: nat, d: real)
    requires p.Shaped() && |paces| == |p.positions| && |est| == |p.positions| && p.unchecked != []
    requires forall x | x in p.unchecked :: x in rooms
    requires BalancedNext(dist, rooms, paces, p, est).Ok?
    ensures |est| > 0
    ensures var r := BalancedNext(dist, rooms, paces, p, est).value;
            r.None? ==> forall x | x in p.unchecked :: dist(p.positions[ArgMin(est)], x) == Ok(Inf)
    ensures var r := BalancedNext(dist, rooms, paces, p, est).value;
            var k := ArgMin(est);
            r.Some? ==>
              && at < |p.unchecked|
              && dist(p.positions[k], p.unchecked[at]) == Ok(Fin(d))
              && paces[k].walkSpeed != 0.0
              && r.value == (Assign(p, k, at), est[k := est[k] + Added(paces[k], d, rooms[p.unchecked[at]])])
  {
    var k := ArgMin(est);
    BalancedPick(dist, k, p.positions[k], p.unchecked);
    var best := Scan(None, PairCands(dist, k, p.positions[k], p.unchecked).value);
    at, d := 0, 0.0;
    if best.Some? {
      at, d := best.value.at, best.value.dist.v;
    }
  }


  lemma {:induction false} BalancedRunAccounts(dist: Query, rooms: map<string, Room>, paces: seq<Pace>, p: Plan,
                                               est: seq<real>, all: seq<string>)
    requires p.Shaped() && |paces| == |p.positions| && |est| == |p.positions|
    requires forall x | x in p.unchecked :: x in rooms
    requires Accounts(p, all) && BalancedRun(dist, rooms, paces, p, est).Ok?
    ensures var (q, e) := BalancedRun(dist, rooms, paces, p, est).value;
            q.Shaped() && Accounts(q, all) && |q.positions| == |p.positions| && |e| == |est|
    decreases |p.unchecked|
  {
    if p.unchecked != [] {
      var r := BalancedNext(dist, rooms, paces, p, est).value;
      if r.Some? {
        var at, d := BalancedNextMeaning(dist, rooms, paces, p, est);
        AssignAccounts(p, ArgMin(est), at, all);
        BalancedRunAccounts(dist, rooms, paces, r.value.0, r.value.1, all);
      }
    }
  }

  /** The loop stops early only when the least-loaded responder reaches no unchecked room. */
  lemma {:induction false} BalancedRunStops(dist: Query, rooms: map<string, Room>, paces: seq<Pace>, p: Plan, est: seq<real>)
    requires p.Shaped() && |paces| == |p.positions| && |est| == |p.positions|
    requires forall x | x in p.unchecked :: x in rooms
    requires BalancedRun(dist, rooms, paces, p, est).Ok?
    ensures var (q, e) := BalancedRun(dist, rooms, paces, p, est).value;
            q.unchecked != [] ==>
              && |e| == |q.positions| > 0
              && forall x | x in q.unchecked :: dist(q.positions[ArgMin(e)], x) == Ok(Inf)
    decreases |p.unchecked|
  {
    if p.unchecked != [] {
      var r := BalancedNext(dist, rooms, paces, p, est).value;
      var _, _ := BalancedNextMeaning(dist, rooms, paces, p, est);
      if r.Some? {
        BalancedRunStops(dist, rooms, paces, r.value.0, r.value.1);
      }
    }
  }

  /** One pass never lowers an estimate. */
  lemma {:induction false} BalancedNextGrows(dist: Query, rooms: map<string, Room>, paces: seq<Pace>, p: Plan, est: seq<real>)
    requires p.Shaped() && |paces| == |p.positions| && |est| == |p.positions| && p.unchecked != []
    requires forall x | x in p.unchecked :: x in rooms
    requires NonNegativeQuery(dist)
    requires forall x | x in rooms :: rooms[x].Sane()
    requires forall k | 0 <= k < |paces| :: paces[k].Sane()
    requires BalancedNext(dist, rooms, paces, p, est).Ok? && BalancedNext(dist, rooms, paces, p, est).value.Some?
    ensures var e := BalancedNext(dist, rooms, paces, p, est).value.value.1;
            |e| == |est| && forall k | 0 <= k < |est| :: est[k] <= e[k]
  {
    var r := BalancedNext(dist, rooms, paces, p, est).value;
    var at, d := BalancedNextMeaning(dist, rooms, paces, p, est);
    var k := ArgMin(est);
    assert d >= 0.0 by {
      assert dist(p.positions[k], p.unchecked[at]).value.Fin?;
    }
    AddedNonNegative(paces[k], d, rooms[p.unchecked[at]]);
  }

  /** With non-negative distances, sane rooms and sane paces, no estimate ever goes down. */
  lemma {:induction false} BalancedEstimatesGrow(dist: Query, rooms: map<string, Room>, paces: seq<Pace>, p: Plan, est: seq<real>)
    requires p.Shaped() && |paces| == |p.positions| && |est| == |p.positions|
    requires forall x | x in p.unchecked :: x in rooms
    requires NonNegativeQuery(dist)
    requires forall x | x in rooms :: rooms[x].Sane()
    requires forall k | 0 <= k < |paces| :: paces[k].Sane()
    requires BalancedRun(dist, rooms, paces, p, est).Ok?
    ensures var e := BalancedRun(dist, rooms, paces, p, est).value.1;
            |e| == |est| && forall k | 0 <= k < |est| :: est[k] <= e[k]
    decreases |p.unchecked|
  {
    if p.unchecked != [] {
      var r := BalancedNext(dist, rooms, paces, p, est).value;
      if r.Some? {
        BalancedNextGrows(dist, rooms, paces, p, est);
        BalancedEstimatesGrow(dist, rooms, paces, r.value.0, r.value.1);
      }
    }
  }
}
