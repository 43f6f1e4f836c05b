/** src/algorithms/simulator.py: the sweep on the coarse building graph. Each responder
    goes through its list of rooms in order: it takes the shortest path from where it is
    to the room, skips the room when there is no path, and otherwise walks there, checks
    the room, and goes on from it. The results gather the time of the slowest responder,
    whether every room was cleared, and a few metrics. */
module Simulation {
  import opened Common
  import opened Dicts
  import opened Facility
  import opened Networks
  import opened Responders
  import opened CoarseGraph
  import opened Outcomes

  // ---------------------------------------------------------------------------
  // _execute_path as a function

  /** One room of _execute_path. The shortest path's NodeNotFound propagates; a room
      without a path is skipped; otherwise move_to divides the distance by the walking
      speed (ZeroDivisionError at speed 0, as for a distance that is a Python number), the room is looked up (KeyError when the id is
      not a room of the building), checked, and becomes the current location. */
  function Visit(g: BuildingGraph, r: Responder, p: Progress, roomId: string): Result<Progress> {
    match g.ShortestPath(p.at, roomId)
    case Err(e) => Err(e)
    case Ok((_, d)) =>
      if d.Inf? then Ok(p)
      else if r.walkSpeed == 0.0 then Err(ZeroDivision)
      else if roomId !in p.rooms.entries then Err(KeyError)
      else
        var w := p.walker;
        var travel := d.v / r.walkSpeed;
        var room := p.rooms.entries[roomId];
        var check := room.CheckTime(r.baseCheckTime, r.checkRate);
        var arrived := w.time + travel;
        var done := arrived + check;
        Ok(Progress(roomId,
                    Walker(roomId, w.path + [roomId],
                           w.timeline + [Event(arrived, Arrive(Some(travel)), roomId),
                                         Event(done, CheckComplete(check), roomId)],
                           done, w.checked + [roomId]),
                    Store(p.rooms, roomId, Cleared(room, done, r.id))))
  }

  /** _execute_path over a list of room ids; the first error ends it. */
  function Execute(g: BuildingGraph, r: Responder, p: Progress, ids: seq<string>): Result<Progress>
    decreases |ids|
  {
    if ids == [] then Ok(p)
    else
      match Visit(g, r, p, ids[0])
      case Err(e) => Err(e)
      case Ok(p') => Execute(g, r, p', ids[1..])
  }

  lemma {:induction false} ExecuteCons(g: BuildingGraph, r: Responder, p: Progress, ids: seq<string>, i: nat)
    requires i < |ids|
    ensures Execute(g, r, p, ids[i..])
         == match Visit(g, r, p, ids[i])
            case Err(e) => Err(e)
            case Ok(p') => Execute(g, r, p', ids[i + 1..])
  {
    assert ids[i..][0] == ids[i] && ids[i..][1..] == ids[i + 1..];
  }

  /** No two locations are without a path between them. */
  ghost predicate Connected(g: BuildingGraph) {
    forall a, b :: !g.find(g.graph, a, b).NoPath?
  }

  /** The distances the graph answers with are never negative. */
  ghost predicate NonNegativeDistances(g: BuildingGraph) {
    forall a, b | g.ShortestPath(a, b).Ok? && g.ShortestPath(a, b).value.1.Fin? :: g.ShortestPath(a, b).value.1.v >= 0.0
  }

  /** Dijkstra's distances on a graph without negative weights are never negative. */
  lemma {:induction false} DistancesNonNegative(g: BuildingGraph)
    requires IsShortestPathFinder(g.find) && g.graph.Valid() && NonNegativeWeights(g.graph)
    ensures NonNegativeDistances(g)
  {
    forall a, b | g.ShortestPath(a, b).Ok? && g.ShortestPath(a, b).value.1.Fin?
      ensures g.ShortestPath(a, b).value.1.v >= 0.0
    {
      FoundPathFacts(g.find, g.graph, a, b);
    }
  }

  // ---------------------------------------------------------------------------
  // Facts about one room

  /** A room the current location has no path to is skipped: nothing changes, and the
      sweep goes on with the next room. */
  lemma {:induction false} VisitSkips(g: BuildingGraph, r: Responder, p: Progress, roomId: string, rest: seq<string>)
    requires g.find(g.graph, p.at, roomId).NoPath?
    ensures Visit(g, r, p, roomId) == Ok(p)
    ensures Execute(g, r, p, [roomId] + rest) == Execute(g, r, p, rest)
  {
    assert ([roomId] + rest)[0] == roomId && ([roomId] + rest)[1..] == rest;
  }

  /** A room that is reached: the responder walks the path's length and checks the room.
      Its timeline gains an 'arrive' event after the walk and a 'check_complete' event
      after the check, both at the room; its distance estimate grows by exactly the
      path's length; the room is cleared by it at the time the check ends, and becomes
      its position and the current location. */
  lemma {:induction false} VisitChecks(g: BuildingGraph, r: Responder, p: Progress, roomId: string)
    requires g.find(g.graph, p.at, roomId).Found?
    ensures var d := g.find(g.graph, p.at, roomId).length;
      Visit(g, r, p, roomId).Ok? <==> r.walkSpeed != 0.0 && roomId in p.rooms.entries
    ensures var d := g.find(g.graph, p.at, roomId).length;
      var q := Visit(g, r, p, roomId);
      q.Ok? ==>
        var w, w' := p.walker, q.value.walker;
        var room := p.rooms.entries[roomId];
        var check := room.CheckTime(r.baseCheckTime, r.checkRate);
        && q.value.at == roomId && w'.position == roomId && w'.path == w.path + [roomId]
        && w'.time == w.time + d / r.walkSpeed + check
        && w'.checked == w.checked + [roomId]
        && |w'.timeline| == |w.timeline| + 2 && w'.timeline[..|w.timeline|] == w.timeline
        && w'.timeline[|w.timeline|] == Event(w.time + d / r.walkSpeed, Arrive(Some(d / r.walkSpeed)), roomId)
        && w'.timeline[|w.timeline| + 1] == Event(w'.time, CheckComplete(check), roomId)
        && TravelDistance(w'.timeline, r.walkSpeed) == TravelDistance(w.timeline, r.walkSpeed) + d
        && q.value.rooms.keys == p.rooms.keys
        && q.value.rooms.entries == p.rooms.entries[roomId := Cleared(room, w'.time, r.id)]
  {
    var d := g.find(g.graph, p.at, roomId).length;
    var q := Visit(g, r, p, roomId);
    if q.Ok? {
      var w, w' := p.walker, q.value.walker;
      var arrive := Event(w.time + d / r.walkSpeed, Arrive(Some(d / r.walkSpeed)), roomId);
      var check := Event(w'.time, CheckComplete(p.rooms.entries[roomId].CheckTime(r.baseCheckTime, r.checkRate)), roomId);
      assert w'.timeline == (w.timeline + [arrive]) + [check];
      WalkAddsDistance(w.timeline, roomId, d, r.walkSpeed, arrive.time);
      UntimedEventAddsNothing(w.timeline + [arrive], check, r.walkSpeed);
    }
  }

  /** A visit that gets through, written as the steps move_to and check_room take. */
  lemma {:induction false} VisitFound(g: BuildingGraph, r: Responder, p: Progress, roomId: string, next: Progress)
    requires g.ShortestPath(p.at, roomId).Ok? && g.ShortestPath(p.at, roomId).value.1.Fin?
    requires r.walkSpeed != 0.0 && roomId in p.rooms.entries && p.rooms.Valid()
    requires var w, room := p.walker, p.rooms.entries[roomId];
      var travel := g.ShortestPath(p.at, roomId).value.1.v / r.walkSpeed;
      var check := room.CheckTime(r.baseCheckTime, r.checkRate);
      && next.at == roomId && next.walker.position == roomId
      && next.walker.path == w.path + [roomId]
      && next.walker.timeline == (w.timeline + [Event(w.time + travel, Arrive(Some(travel)), roomId)])
                                   + [Event(w.time + travel + check, CheckComplete(check), roomId)]
      && next.walker.time == w.time + travel + check
      && next.walker.checked == w.checked + [roomId]
      && next.rooms == p.rooms.Put(roomId, Cleared(room, w.time + travel + check, r.id))
    ensures Visit(g, r, p, roomId) == Ok(next)
  {
    var w, room := p.walker, p.rooms.entries[roomId];
    var travel := g.ShortestPath(p.at, roomId).value.1.v / r.walkSpeed;
    var check := room.CheckTime(r.baseCheckTime, r.checkRate);
    assert (w.timeline + [Event(w.time + travel, Arrive(Some(travel)), roomId)])
             + [Event(w.time + travel + check, CheckComplete(check), roomId)]
        == w.timeline + [Event(w.time + travel, Arrive(Some(travel)), roomId), Event(w.time + travel + check, CheckComplete(check), roomId)];
  }

  /** One room adds at most that room to the checked list, and clears what it adds. */
  lemma {:induction false} VisitClears(g: BuildingGraph, r: Responder, p: Progress, roomId: string) returns (step: seq<string>)
    ensures var q := Visit(g, r, p, roomId);
      q.Ok? ==>
        && q.value.walker.checked == p.walker.checked + step
        && (step == [] || step == [roomId])
        && (g.find(g.graph, p.at, roomId).Found? ==> step == [roomId])
        && ClearsChecked(p.rooms, q.value.rooms, step)
  {
    step := [];
    var q := Visit(g, r, p, roomId);
    if q.Ok? {
      if q.value == p && g.find(g.graph, p.at, roomId).NoPath? {
        step := [];
        ClearsNothing(p.rooms);
      } else {
        step := [roomId];
        var room := p.rooms.entries[roomId];
        var done := q.value.walker.time;
        ClearsNothing(p.rooms);
        ClearsOneMore(p.rooms, p.rooms, [], roomId, Cleared(room, done, r.id));
        assert [] + [roomId] == [roomId];
      }
    }
  }

  /** With non-negative distances and check times, a visit keeps the timeline in order and
      stamped with the current time, and the clock never goes back. */
  lemma {:induction false} VisitTimeline(g: BuildingGraph, r: Responder, p: Progress, roomId: string)
    requires r.Capable() && SaneRooms(p.rooms) && NonNegativeDistances(g)
    requires SettledTimeline(p.walker.timeline, p.walker.time)
    ensures var q := Visit(g, r, p, roomId);
      q.Ok? ==>
        && SettledTimeline(q.value.walker.timeline, q.value.walker.time)
        && q.value.walker.time >= p.walker.time
        && SaneRooms(q.value.rooms)
  {
    var q := Visit(g, r, p, roomId);
    var sp := g.ShortestPath(p.at, roomId);
    if q.Ok? && sp.Ok? && sp.value.1.Fin? {
      var w := p.walker;
      var d := sp.value.1.v;
      assert d >= 0.0;
      var travel := d / r.walkSpeed;
      var room := p.rooms.entries[roomId];
      assert room.Sane();
      var check := room.CheckTime(r.baseCheckTime, r.checkRate);
      var arrive := Event(w.time + travel, Arrive(Some(travel)), roomId);
      var done := Event(w.time + travel + check, CheckComplete(check), roomId);
      SettledExtend(w.timeline, w.time, arrive);
      SettledExtend(w.timeline + [arrive], arrive.time, done);
      assert q.value.walker.timeline == (w.timeline + [arrive]) + [done];
      assert forall k | k in q.value.rooms.entries :: q.value.rooms.entries[k].Sane() by {
        forall k | k in q.value.rooms.entries ensures q.value.rooms.entries[k].Sane() {
          if k != roomId {
            assert q.value.rooms.entries[k] == p.rooms.entries[k];
          }
        }
      }
    }
  }

  // ---------------------------------------------------------------------------
  // Facts about a whole list

  /** The sweep adds to the checked list only rooms of its list, at most one entry per
      list entry, and it clears exactly the rooms it adds (every one of them a room of
      the building). */
  lemma {:induction false} ExecuteClears(g: BuildingGraph, r: Responder, p: Progress, ids: seq<string>)
      returns (added: seq<string>)
    ensures var q := Execute(g, r, p, ids);
      q.Ok? ==>
        && q.value.walker.checked == p.walker.checked + added
        && |added| <= |ids| && (forall x | x in added :: x in ids)
        && ClearsChecked(p.rooms, q.value.rooms, added)
    decreases |ids|
  {
    added := [];
    if ids == [] {
      ClearsNothing(p.rooms);
      assert p.walker.checked + [] == p.walker.checked;
    } else {
      var v := Visit(g, r, p, ids[0]);
      if v.Ok? {
        var step := VisitClears(g, r, p, ids[0]);
        var more := ExecuteClears(g, r, v.value, ids[1..]);
        added := step + more;
        var q := Execute(g, r, v.value, ids[1..]);
        assert q == Execute(g, r, p, ids);
        if q.Ok? {
          JoinClears(p, v.value, q.value, ids, step, more);
        }
      }
    }
  }

  /** When every location has a path to every other, the sweep checks its whole list in
      order. */
  lemma {:induction false} ExecuteVisitsAll(g: BuildingGraph, r: Responder, p: Progress, ids: seq<string>)
    requires Connected(g)
    ensures var q := Execute(g, r, p, ids);
      q.Ok? ==> q.value.walker.checked == p.walker.checked + ids
    decreases |ids|
  {
    if ids != [] {
      var v := Visit(g, r, p, ids[0]);
      if v.Ok? {
        assert !g.find(g.graph, p.at, ids[0]).NoPath?;
        assert !g.find(g.graph, p.at, ids[0]).MissingNode?;
        var step := VisitClears(g, r, p, ids[0]);
        ExecuteVisitsAll(g, r, v.value, ids[1..]);
        assert (p.walker.checked + [ids[0]]) + ids[1..] == p.walker.checked + ids;
      }
    }
  }

  /** With non-negative distances and check times, the sweep keeps the timeline in order
      and stamped with the current time, and the clock never goes back. */
  lemma {:induction false} ExecuteTimeline(g: BuildingGraph, r: Responder, p: Progress, ids: seq<string>)
    requires r.Capable() && SaneRooms(p.rooms) && NonNegativeDistances(g)
    requires SettledTimeline(p.walker.timeline, p.walker.time)
    ensures var q := Execute(g, r, p, ids);
      q.Ok? ==> SettledTimeline(q.value.walker.timeline, q.value.walker.time) && q.value.walker.time >= p.walker.time
    decreases |ids|
  {
    if ids != [] {
      var v := Visit(g, r, p, ids[0]);
      if v.Ok? {
        VisitTimeline(g, r, p, ids[0]);
        ExecuteTimeline(g, r, v.value, ids[1..]);
      }
    }
  }

  /** The routing location and the responder's position stay the same. */
  lemma {:induction false} ExecuteAtPosition(g: BuildingGraph, r: Responder, p: Progress, ids: seq<string>)
    requires p.at == p.walker.position
    ensures var q := Execute(g, r, p, ids);
      q.Ok? ==> q.value.at == q.value.walker.position
    decreases |ids|
  {
    if ids != [] {
      var v := Visit(g, r, p, ids[0]);
      if v.Ok? {
        ExecuteAtPosition(g, r, v.value, ids[1..]);
      }
    }
  }

  // ---------------------------------------------------------------------------
  // _collect_results

  /** responder_paths: path, timeline, time and checked rooms as they are, and
      get_total_distance() as the distance. */
  function Reports(rs: seq<Responder>, ws: seq<Walker>): (reports: seq<Report>)
    requires |ws| == |rs|
    ensures |reports| == |rs|
  {
    seq(|ws|, i requires 0 <= i < |ws| =>
      Report(rs[i].id, ws[i].path, ws[i].timeline, ws[i].time, ws[i].checked,
             TravelDistance(ws[i].timeline, rs[i].walkSpeed), None))
  }

  function Distances(rs: seq<Responder>, ws: seq<Walker>): (ds: seq<real>)
    requires |ws| == |rs|
    ensures |ds| == |rs|
  {
    seq(|ws|, i requires 0 <= i < |ws| => TravelDistance(ws[i].timeline, rs[i].walkSpeed))
  }

  /** room_check_counts: how often the team checked each room, the rooms in the order in
      which they were first checked. */
  function Tally(s: seq<string>): (d: Dict<nat>)
    ensures d.Valid()
    decreases |s|
  {
    if s == [] then EmptyDict() else Bump(Tally(s[..|s| - 1]), s[|s| - 1])
  }

  /** One more check of room k: its count goes up by one, from 0 when it is new. */
  function Bump(d: Dict<nat>, k: string): (e: Dict<nat>)
    requires d.Valid()
    ensures e.Valid() && k in e.entries
    ensures e.entries[k] == (if k in d.entries then d.entries[k] else 0) + 1
    ensures forall x | x != k :: (x in e.entries <==> x in d.entries) && (x in d.entries ==> e.entries[x] == d.entries[x])
  {
    d.Put(k, (if k in d.entries then d.entries[k] else 0) + 1)
  }

  /** The tally holds exactly the checked rooms, each with the number of times it was
      checked. */
  lemma {:induction false} TallyCounts(s: seq<string>)
    ensures forall k :: k in Tally(s).entries <==> k in s
    ensures forall k | k in Tally(s).entries :: Tally(s).entries[k] == multiset(s)[k]
    decreases |s|
  {
    if s != [] {
      var init, last := s[..|s| - 1], s[|s| - 1];
      assert s == init + [last];
      TallyCounts(init);
      assert multiset(s) == multiset(init) + multiset{last};
    }
  }

  lemma {:induction false} TallySnoc(s: seq<string>, k: string)
    ensures Tally(s + [k]) == Bump(Tally(s), k)
  {
    assert (s + [k])[..|s|] == s;
  }

  /** The number of rooms counted more than once. */
  function RepeatedIn(d: Dict<nat>, keys: seq<string>): nat
    requires forall k | k in keys :: k in d.entries
  {
    if keys == [] then 0 else (if d.entries[keys[0]] > 1 then 1 else 0) + RepeatedIn(d, keys[1..])
  }

  /** The rooms checked more than once. */
  function RepeatedRooms(s: seq<string>): set<string> {
    set k | k in s && multiset(s)[k] > 1
  }

  lemma {:induction false} RepeatedCount(d: Dict<nat>, keys: seq<string>)
    requires NoDup(keys) && forall k | k in keys :: k in d.entries
    ensures RepeatedIn(d, keys) == |set k | k in keys && d.entries[k] > 1|
  {
    if keys != [] {
      NoDupCons(keys);
      RepeatedCount(d, keys[1..]);
      var rest := set k | k in keys[1..] && d.entries[k] > 1;
      if d.entries[keys[0]] > 1 {
        assert (set k | k in keys && d.entries[k] > 1) == {keys[0]} + rest;
      } else {
        assert (set k | k in keys && d.entries[k] > 1) == rest;
      }
    }
  }

  /** Counting the tally's entries above one counts the rooms checked more than once. */
  lemma {:induction false} TallyRepeated(s: seq<string>)
    ensures RepeatedIn(Tally(s), Tally(s).keys) == |RepeatedRooms(s)|
  {
    var d := Tally(s);
    TallyCounts(s);
    RepeatedCount(d, d.keys);
    assert (set k | k in d.keys && d.entries[k] > 1) == RepeatedRooms(s);
  }

  /** redundancy_coverage */
  function Redundancy(checked: seq<string>, nRooms: nat): real
    requires nRooms > 0
  {
    |RepeatedRooms(checked)| as real / nRooms as real
  }

  /** When every checked id is a room, the share of rooms checked more than once is a
      fraction. */
  lemma {:induction false} RedundancyBounds(checked: seq<string>, rooms: Dict<Room>)
    requires rooms.Valid() && rooms.keys != []
    requires forall k | k in checked :: k in rooms.entries
    ensures 0.0 <= Redundancy(checked, |rooms.keys|) <= 1.0
  {
    var a, b := RepeatedRooms(checked), set k | k in rooms.keys;
    assert a <= b by {
      forall k | k in a ensures k in b {
        assert k in checked;
      }
    }
    SubsetCard(a, b);
    DistinctCount(rooms.keys);
    QuotientBetween(|a| as real, |rooms.keys| as real, 0.0, 1.0);
  }

  lemma {:induction false} SubsetCard(a: set<string>, b: set<string>)
    requires a <= b
    ensures |a| <= |b|
  {
    assert b == a + (b - a);
  }

  /** The metrics of _collect_results; the redundancy divides by the number of rooms. */
  function MetricsOf(rs: seq<Responder>, ws: seq<Walker>, rooms: Dict<Room>, std: seq<real> -> real): (m: Result<Metrics>)
    requires |ws| == |rs| && rooms.Valid()
    ensures m.Err? <==> rooms.keys == []
    ensures m.Err? ==> m.error == ZeroDivision
  {
    if rooms.keys == [] then Err(ZeroDivision)
    else
      Ok(Metrics(AllCleared(rooms), AverageClearance(rooms), LoadBalance(Times(ws), std, false),
                 Redundancy(AllChecked(ws), |rooms.keys|), Sum(Distances(rs, ws)), |rs|, |rooms.keys|))
  }

  /** _collect_results. max() of an empty team raises first; an empty building then
      divides by zero in the redundancy. */
  function Collect(rs: seq<Responder>, ws: seq<Walker>, rooms: Dict<Room>, std: seq<real> -> real): (r: Result<Results>)
    requires |ws| == |rs| && rooms.Valid()
    ensures r.Err? <==> rs == [] || rooms.keys == []
    ensures r.Err? ==> r.error == if rs == [] then EmptyMax else ZeroDivision
  {
    match Max(Times(ws))
    case Err(e) => Err(e)
    case Ok(total) =>
      match MetricsOf(rs, ws, rooms, std)
      case Err(e) => Err(e)
      case Ok(m) => Ok(Results(m.allRoomsCleared, total, Reports(rs, ws), ClearanceTable(rooms), m))
  }

  /** The metrics _collect_results assembles from its loops. */
  lemma {:induction false} MetricsIs(rs: seq<Responder>, ws: seq<Walker>, rooms: Dict<Room>, std: seq<real> -> real,
                                     m: Metrics, counts: Dict<nat>)
    requires |ws| == |rs| && rooms.Valid() && rooms.keys != []
    requires counts == Tally(AllChecked(ws))
    requires m == Metrics(AllCleared(rooms), AverageClearance(rooms), LoadBalance(Times(ws), std, false),
                          RepeatedIn(counts, counts.keys) as real / |rooms.keys| as real,
                          Sum(Distances(rs, ws)), |rs|, |rooms.keys|)
    ensures MetricsOf(rs, ws, rooms, std) == Ok(m)
  {
    TallyRepeated(AllChecked(ws));
  }

  /** What the results say: success exactly when every room is cleared, the total time
      is the latest responder's, and the redundancy is the share of rooms checked more
      than once, a fraction when every checked id is a room. */
  lemma {:induction false} CollectMeaning(rs: seq<Responder>, ws: seq<Walker>, rooms: Dict<Room>, std: seq<real> -> real)
    requires |ws| == |rs| && rooms.Valid()
    requires forall k | k in AllChecked(ws) :: k in rooms.entries
    ensures var r := Collect(rs, ws, rooms, std);
      r.Ok? ==>
        && (r.value.success <==> forall k | k in rooms.entries :: rooms.entries[k].cleared)
        && r.value.success == r.value.metrics.allRoomsCleared
        && (forall i | 0 <= i < |ws| :: ws[i].time <= r.value.totalTime)
        && (exists i | 0 <= i < |ws| :: ws[i].time == r.value.totalTime)
        && r.value.metrics.redundancyCoverage == |RepeatedRooms(AllChecked(ws))| as real / |rooms.keys| as real
        && 0.0 <= r.value.metrics.redundancyCoverage <= 1.0
        && r.value.metrics.nResponders == |rs| && r.value.metrics.nRooms == |rooms.keys|
  {
    var r := Collect(rs, ws, rooms, std);
    if r.Ok? {
      var total, m := Max(Times(ws)).value, MetricsOf(rs, ws, rooms, std).value;
      assert r.value == Results(m.allRoomsCleared, total, Reports(rs, ws), ClearanceTable(rooms), m);
      assert m.redundancyCoverage == Redundancy(AllChecked(ws), |rooms.keys|);
      RedundancyBounds(AllChecked(ws), rooms);
      assert total in Times(ws);
    }
  }

  /** run() for any sweep that clears what it checks: it gets through only when every
      responder's id is in the assignment, and it then fails only on an empty team or an
      empty building. */
  lemma {:induction false} RunMeaning(exec: Exec, rs: seq<Responder>, assignment: map<int, seq<string>>,
                                      rooms: Dict<Room>, std: seq<real> -> real)
    requires rooms.Valid() && ClearsWhatItChecks(exec, rs)
    ensures var run := RunTeam(exec, rs, assignment, ResetRooms(rooms));
      run.Ok? ==>
        && (forall i | 0 <= i < |rs| :: rs[i].id in assignment)
        && run.value.1.Valid() && run.value.1.keys == rooms.keys
        && (Collect(rs, run.value.0, run.value.1, std).Err? <==> rs == [] || rooms.keys == [])
  {
    var start := ResetRooms(rooms);
    RunTeamNeedsIds(exec, rs, assignment, start);
    RunTeamClears(exec, rs, assignment, start);
  }

  /** The results of such a run report success exactly when every room was checked by
      some responder, and a redundancy between 0 and 1. */
  lemma {:induction false} RunSuccess(exec: Exec, rs: seq<Responder>, assignment: map<int, seq<string>>,
                                      rooms: Dict<Room>, std: seq<real> -> real)
    requires rooms.Valid() && ClearsWhatItChecks(exec, rs)
    ensures var run := RunTeam(exec, rs, assignment, ResetRooms(rooms));
      run.Ok? && run.value.1.Valid() ==>
        var c := Collect(rs, run.value.0, run.value.1, std);
        c.Ok? ==>
          && (c.value.success <==> forall k | k in rooms.entries :: exists i | 0 <= i < |run.value.0| :: k in run.value.0[i].checked)
          && 0.0 <= c.value.metrics.redundancyCoverage <= 1.0
  {
    var start := ResetRooms(rooms);
    var run := RunTeam(exec, rs, assignment, start);
    RunTeamClears(exec, rs, assignment, start);
    if run.Ok? {
      var ws, fin := run.value.0, run.value.1;
      ClearedByRun(rooms, fin, ws);
      CollectMeaning(rs, ws, fin, std);
    }
  }

  // ---------------------------------------------------------------------------
  // Loops of _collect_results

  /** The loop that builds responder_paths. */
  method ReportAll(rs: seq<Responder>) returns (reports: seq<Report>)
    ensures reports == Reports(rs, StatesOf(rs))
  {
    ghost var ws := StatesOf(rs);
    reports := [];
    var i := 0;
    while i < |rs|
      invariant 0 <= i <= |rs| && |reports| == i
      invariant forall j | 0 <= j < i :: reports[j] == Reports(rs, ws)[j]
    {
      var d := rs[i].GetTotalDistance();
      reports := reports + [Report(rs[i].id, rs[i].path, rs[i].timeline, rs[i].currentTime, rs[i].roomsChecked, d, None)];
      i := i + 1;
    }
  }

  lemma {:induction false} DistancesAgree(rs: seq<Responder>)
    ensures DistancesOf(rs) == Distances(rs, StatesOf(rs))
  {
  }

  /** The nested loop that fills room_check_counts. */
  method CountChecks(rs: seq<Responder>) returns (counts: Dict<nat>)
    ensures counts == Tally(AllChecked(StatesOf(rs)))
  {
    ghost var ws := StatesOf(rs);
    counts := EmptyDict();
    ghost var seen: seq<string> := [];
    var i := 0;
    while i < |rs|
      invariant 0 <= i <= |rs|
      invariant seen == AllChecked(ws[..i])
      invariant counts == Tally(seen)
    {
      assert rs[i].roomsChecked == ws[i].checked;
      counts := CountInto(counts, seen, rs[i].roomsChecked);
      AllCheckedTake(ws, i);
      seen := seen + ws[i].checked;
      i := i + 1;
    }
    assert ws[..i] == ws;
  }

  /** The inner loop: one responder's checked rooms added to the counts. */
  method CountInto(counts: Dict<nat>, ghost before: seq<string>, checked: seq<string>) returns (out: Dict<nat>)
    requires counts == Tally(before)
    ensures out == Tally(before + checked)
  {
    out := counts;
    ghost var seen := before;
    assert before + checked[..0] == seen;
    var j := 0;
    while j < |checked|
      invariant 0 <= j <= |checked|
      invariant seen == before + checked[..j]
      invariant out == Tally(seen)
    {
      var k := checked[j];
      TallySnoc(seen, k);
      AppendTake(before, checked, j);
      out := Bump(out, k);
      seen := seen + [k];
      j := j + 1;
    }
    assert checked[..j] == checked;
  }

  lemma {:induction false} AppendTake(a: seq<string>, b: seq<string>, j: nat)
    requires j < |b|
    ensures a + b[..j + 1] == (a + b[..j]) + [b[j]]
  {
    assert b[..j + 1] == b[..j] + [b[j]];
  }

  // ---------------------------------------------------------------------------
  // run() as a function

  /** One responder's sweep on graph g from the state reset() leaves. */
  function SweepExec(g: BuildingGraph): Exec {
    (r: Responder, d: Dict<Room>, ids: seq<string>) => Execute(g, r, Progress(r.initialPosition, StartOf(r), d), ids)
  }

  /** Every sweep on g clears what it checks. */
  lemma {:induction false} SweepExecClears(g: BuildingGraph, rs: seq<Responder>)
    ensures ClearsWhatItChecks(SweepExec(g), rs)
  {
    forall i, d: Dict<Room>, ids: seq<string> | 0 <= i < |rs| && SweepExec(g)(rs[i], d, ids).Ok?
      ensures ClearsChecked(d, SweepExec(g)(rs[i], d, ids).value.rooms, SweepExec(g)(rs[i], d, ids).value.walker.checked)
    {
      var r := rs[i];
      var added := ExecuteClears(g, r, Progress(r.initialPosition, StartOf(r), d), ids);
      assert [] + added == added;
    }
  }

  /** What run() of a simulator on graph g, team rs and an assignment returns, as a
      function of the rooms before it: the clearance is reset, the team sweeps, and the
      results are collected. */
  function SweepOutcome(g: BuildingGraph, rs: seq<Responder>, assignment: map<int, seq<string>>,
                        rooms: Dict<Room>, std: seq<real> -> real): (r: Result<Results>)
    requires rooms.Valid()
    ensures var run := RunTeam(SweepExec(g), rs, assignment, ResetRooms(rooms));
      && (run.Err? ==> r == Err(run.error))
      && (r.Ok? ==> run.Ok? && Max(Times(run.value.0)) == Ok(r.value.totalTime))
  {
    var run := RunTeam(SweepExec(g), rs, assignment, ResetRooms(rooms));
    SweepExecClears(g, rs);
    RunTeamClears(SweepExec(g), rs, assignment, ResetRooms(rooms));
    match run
    case Err(e) => Err(e)
    case Ok((ws, fin)) =>
      assert fin.Valid();
      Collect(rs, ws, fin, std)
  }

  // ---------------------------------------------------------------------------
  // Simulator

  class Simulator {
    const building: Building
    const team: ResponderTeam
    /** responder id -> room ids */
    const assignment: map<int, seq<string>>
    const graph: BuildingGraph

    ghost predicate Valid()
      reads this, building
    {
      building.Valid() && team.Numbered() && graph.building == building
    }

    /** __init__: the graph is built from the building once. */
    constructor (building: Building, team: ResponderTeam, assignment: map<int, seq<string>>, find: PathFinder)
      requires building.Valid() && team.Numbered()
      ensures Valid()
      ensures this.building == building && this.team == team && this.assignment == assignment
      ensures graph.find == find && graph.graph.Valid() && EdgesFromConnections(graph.graph, building.connections)
    {
      this.building := building;
      this.team := team;
      this.assignment := assignment;
      this.graph := new BuildingGraph(building, find);
    }

    /** One responder's sweep from the state reset() leaves. */
    function Executor(): Exec {
      SweepExec(graph)
    }

    /** Every sweep the executor performs clears what it checks. */
    lemma {:induction false} ExecutorClears()
      ensures ClearsWhatItChecks(Executor(), team.responders)
    {
      SweepExecClears(graph, team.responders);
    }

    /** What run() returns, as a function of the rooms before it. */
    ghost function Outcome(rooms: Dict<Room>, std: seq<real> -> real): Result<Results>
      requires rooms.Valid()
    {
      SweepOutcome(graph, team.responders, assignment, rooms, std)
    }

    /** run(): a run fails when a responder's id is missing from the assignment; when it
        finishes, success means that every room of the building was checked by some
        responder, and the redundancy is a fraction. */
    lemma {:induction false} OutcomeMeaning(rooms: Dict<Room>, std: seq<real> -> real)
      requires rooms.Valid()
      ensures var run := RunTeam(Executor(), team.responders, assignment, ResetRooms(rooms));
        && (run.Ok? ==> forall i | 0 <= i < |team.responders| :: team.responders[i].id in assignment)
        && (run.Ok? ==> (Outcome(rooms, std).Err? <==> team.responders == [] || rooms.keys == []))
        && (Outcome(rooms, std).Ok? ==>
              && run.Ok?
              && (Outcome(rooms, std).value.success <==>
                    forall k | k in rooms.entries :: exists i | 0 <= i < |run.value.0| :: k in run.value.0[i].checked)
              && 0.0 <= Outcome(rooms, std).value.metrics.redundancyCoverage <= 1.0)
    {
      ExecutorClears();
      OutcomeOfRun(rooms, std);
      RunMeaning(Executor(), team.responders, assignment, rooms, std);
      RunSuccess(Executor(), team.responders, assignment, rooms, std);
    }

    /** One iteration of _execute_path's loop, from the state `p` describes. */
    method VisitRoom(responder: Responder, current: string, roomId: string, ghost p: Progress) returns (r: Result<string>)
      requires building.Valid()
      requires p == Progress(current, StateOf(responder), building.rooms)
      modifies responder, building`rooms
      ensures building.Valid()
      ensures var v := Visit(graph, responder, p, roomId);
        && (r.Ok? <==> v.Ok?) && (r.Err? ==> r.error == v.error)
        && (r.Ok? ==> v.value == Progress(r.value, StateOf(responder), building.rooms))
    {
      var sp := graph.ShortestPath(current, roomId);
      if sp.Err? {
        return Err(sp.error);
      }
      var distance := sp.value.1;
      if distance.Inf? {
        return Ok(current);
      }
      if responder.walkSpeed == 0.0 {
        return Err(ZeroDivision);
      }
      ghost var w := p.walker;
      assert w.path == responder.path && w.timeline == responder.timeline;
      assert w.time == responder.currentTime && w.checked == responder.roomsChecked;
      ghost var travel := distance.v / responder.walkSpeed;
      responder.MoveTo(roomId, distance.v, false, 0);
      if roomId !in building.rooms.entries {
        return Err(KeyError);
      }
      var room := building.rooms.entries[roomId];
      assert room.id == roomId;
      var checked := responder.CheckRoom(room);
      building.AddRoom(checked);
      assert building.rooms == p.rooms.Put(roomId, Cleared(room, responder.currentTime, responder.id));
      VisitFound(graph, responder, p, roomId, Progress(roomId, StateOf(responder), building.rooms));
      return Ok(roomId);
    }

    lemma {:induction false} OutcomeOfRun(rooms: Dict<Room>, std: seq<real> -> real)
      requires rooms.Valid()
      ensures var run := RunTeam(Executor(), team.responders, assignment, ResetRooms(rooms));
        && (run.Err? ==> Outcome(rooms, std) == Err(run.error))
        && (run.Ok? ==> run.value.1.Valid() && Outcome(rooms, std) == Collect(team.responders, run.value.0, run.value.1, std))
    {
      ExecutorClears();
      RunTeamClears(Executor(), team.responders, assignment, ResetRooms(rooms));
    }

    /** _execute_path */
    method ExecutePath(responder: Responder, roomIds: seq<string>) returns (r: Result<()>)
      requires building.Valid()
      modifies responder, building`rooms
      ensures building.Valid()
      ensures var q := Execute(graph, responder, Progress(old(responder.position), old(StateOf(responder)), old(building.rooms)), roomIds);
        && (r.Ok? <==> q.Ok?) && (r.Err? ==> r.error == q.error)
        && (r.Ok? ==> StateOf(responder) == q.value.walker && building.rooms == q.value.rooms)
    {
      var current := responder.position;
      ghost var p := Progress(current, StateOf(responder), building.rooms);
      ghost var start := p;
      assert roomIds[0..] == roomIds;
      var i := 0;
      while i < |roomIds|
        invariant 0 <= i <= |roomIds|
        invariant building.Valid()
        invariant p == Progress(current, StateOf(responder), building.rooms)
        invariant Execute(graph, responder, start, roomIds) == Execute(graph, responder, p, roomIds[i..])
      {
        ExecuteCons(graph, responder, p, roomIds, i);
        var res := VisitRoom(responder, current, roomIds[i], p);
        if res.Err? {
          return Err(res.error);
        }
        current := res.value;
        p := Visit(graph, responder, p, roomIds[i]).value;
        i := i + 1;
      }
      return Ok(());
    }

    /** What the sweep has done after the first `i` responders: their states are `done`,
        the others are still in their start state, and what is left of the run continues
        from the current rooms. */
    ghost predicate SweptUpTo(i: nat, done: seq<Walker>, rooms0: Dict<Room>)
      reads this, building, set x | x in team.responders
    {
      var rs := team.responders;
      && i <= |rs| && |done| == i
      && building.Valid()
      && (forall j | 0 <= j < i :: StateOf(rs[j]) == done[j])
      && (forall j | i <= j < |rs| :: rs[j].AtStart())
      && RunTeam(Executor(), rs, assignment, rooms0) == Prepend(done, RunTeam(Executor(), rs[i..], assignment, building.rooms))
    }

    /** One responder's turn in run(): its rooms are looked up in the assignment (KeyError
        when its id is missing) and swept from the start state. */
    method SweepOne(i: nat, ghost done: seq<Walker>, ghost rooms0: Dict<Room>) returns (res: Result<()>, ghost done': seq<Walker>)
      requires Valid() && i < |team.responders| && SweptUpTo(i, done, rooms0)
      modifies building`rooms, team.responders[i]
      ensures building.Valid()
      ensures res.Err? ==> RunTeam(Executor(), team.responders, assignment, rooms0) == Err(res.error)
      ensures res.Ok? ==> SweptUpTo(i + 1, done', rooms0)
    {
      var rs := team.responders;
      assert forall j | 0 <= j < |rs| :: rs[j].id == j + 1;
      var responder := rs[i];
      assert rs[i..][0] == responder && rs[i..][1..] == rs[i + 1..];
      if responder.id !in assignment {
        return Err(KeyError), done;
      }
      StartState(responder);
      res := ExecutePath(responder, assignment[responder.id]);
      done' := done + [StateOf(responder)];
      if res.Ok? {
        PrependTwice(done, [StateOf(responder)], RunTeam(Executor(), rs[i + 1..], assignment, building.rooms));
      }
    }

    /** The loop of run() over the team, every responder in its start state. */
    method SweepAll() returns (res: Result<()>)
      requires Valid() && forall j | 0 <= j < |team.responders| :: team.responders[j].AtStart()
      modifies building`rooms, set x | x in team.responders
      ensures building.Valid()
      ensures var run := RunTeam(Executor(), team.responders, assignment, old(building.rooms));
        && (res.Ok? <==> run.Ok?) && (res.Err? ==> res.error == run.error)
        && (res.Ok? ==> building.rooms == run.value.1 && StatesOf(team.responders) == run.value.0)
    {
      var rs := team.responders;
      ghost var rooms0 := building.rooms;
      ghost var done: seq<Walker> := [];
      assert rs[0..] == rs;
      PrependNothing(RunTeam(Executor(), rs, assignment, rooms0));
      var i := 0;
      while i < |rs|
        invariant SweptUpTo(i, done, rooms0)
      {
        res, done := SweepOne(i, done, rooms0);
        if res.Err? {
          return;
        }
        i := i + 1;
      }
      assert rs[i..] == [];
      assert done + [] == done;
      StatesAre(rs, done);
      return Ok(());
    }

    /** The two resets run() starts with: every room uncleared, every responder back at
        its start. */
    method ResetForRun()
      requires Valid()
      modifies building`rooms, set x | x in team.responders
      ensures building.Valid() && building.rooms == ResetRooms(old(building.rooms))
      ensures forall j | 0 <= j < |team.responders| :: team.responders[j].AtStart()
    {
      ghost var orig := building.rooms;
      building.ResetClearance();
      team.ResetAll();
      ResetRoomsIs(orig, building.rooms);
      assert forall j | 0 <= j < |team.responders| :: team.responders[j] in team.responders;
    }

    /** run(): reset the building and the team, sweep responder by responder, collect. The
        rooms and the responders end in the state the run describes. */
    method Run(std: seq<real> -> real) returns (r: Result<Results>)
      requires Valid()
      modifies building`rooms, set x | x in team.responders
      ensures building.Valid()
      ensures r == Outcome(old(building.rooms), std)
      ensures var run := RunTeam(Executor(), team.responders, assignment, ResetRooms(old(building.rooms)));
        run.Ok? ==> building.rooms == run.value.1 && StatesOf(team.responders) == run.value.0
    {
      ghost var orig := building.rooms;
      OutcomeOfRun(orig, std);
      ResetForRun();
      var res := SweepAll();
      if res.Err? {
        return Err(res.error);
      }
      r := CollectResults(std);
    }

    /** _collect_results on the current state of the building and the team. */
    method CollectResults(std: seq<real> -> real) returns (r: Result<Results>)
      requires building.rooms.Valid()
      ensures r == Collect(team.responders, StatesOf(team.responders), building.rooms, std)
    {
      var rs, rooms := team.responders, building.rooms;
      var reports := ReportAll(rs);
      var table := BuildClearanceTable(rooms);
      var total := team.GetMaxTime();
      TimesAgree(rs);
      if total.Err? {
        return Err(total.error);
      }
      var metrics := CollectMetrics(std);
      if metrics.Err? {
        return Err(metrics.error);
      }
      return Ok(Results(metrics.value.allRoomsCleared, total.value, reports, table, metrics.value));
    }

    /** The metrics block of _collect_results. */
    method CollectMetrics(std: seq<real> -> real) returns (m: Result<Metrics>)
      requires building.rooms.Valid()
      ensures m == MetricsOf(team.responders, StatesOf(team.responders), building.rooms, std)
    {
      var rs, rooms := team.responders, building.rooms;
      ghost var ws := StatesOf(rs);
      var cleared := AllCleared(rooms);
      var average := AverageClearance(rooms);
      TimesAgree(rs);
      var balance := LoadBalance(TimesOf(rs), std, false);
      var counts := CountChecks(rs);
      if |rooms.keys| == 0 {
        return Err(ZeroDivision);
      }
      var redundancy := RepeatedIn(counts, counts.keys) as real / |rooms.keys| as real;
      var distance := team.GetTotalDistance();
      DistancesAgree(rs);
      m := Ok(Metrics(cleared, average, balance, redundancy, distance, |rs|, |rooms.keys|));
      MetricsIs(rs, ws, rooms, std, m.value, counts);
    }
  }
}
