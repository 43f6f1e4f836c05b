/** src/algorithms/detailed_simulator.py: the sweep on the detailed graph of a building
    with doors. For each room of its list a responder asks for a shortest path to the
    room's door (falling back to the two-step route "here, then the room" when the door
    is not in the graph or no path is found), passes every node of it at the walking
    speed, steps from the door to the room's centre, checks the room and leaves by the
    door. The passing events are stamped with the time before each hop. */
module DetailedSimulation {
  import opened Common
  import opened Dicts
  import opened Facility
  import opened Networks
  import opened NodeIds
  import opened Doors
  import opened Responders
  import opened Outcomes

  // ---------------------------------------------------------------------------
  // The route to a door

  /** The route to the room's door: the shortest path when the door is a node and a path
      is found, otherwise the direct route to the room. */
  function DoorRoute(g: Graph, find: PathFinder, current: string, roomId: string): seq<string> {
    var door := DoorId(roomId);
    if door in g.nodes.entries then
      match find(g, current, door)
      case Found(p, _) => p
      case _ => [current, roomId]
    else [current, roomId]
  }

  /** When the shortest path function is correct and the door can be reached, the route
      is a shortest walk from the current location to the door; when the door is not a
      node, or the current location is not, the route is the direct one. */
  lemma {:induction false} DoorRouteShortest(g: Graph, find: PathFinder, current: string, roomId: string)
    requires g.Valid() && NonNegativeWeights(g) && IsShortestPathFinder(find)
    ensures var route, door := DoorRoute(g, find, current, roomId), DoorId(roomId);
      && (door !in g.nodes.entries || current !in g.nodes.entries ==> route == [current, roomId])
      && (door in g.nodes.entries && (exists q :: WalkBetween(g, q, current, door)) ==>
            && WalkBetween(g, route, current, door)
            && forall q | WalkBetween(g, q, current, door) :: WalkLength(g, route) <= WalkLength(g, q))
  {
    var door := DoorId(roomId);
    var r := find(g, current, door);
    assert CorrectAnswer(g, current, door, r);
    if door in g.nodes.entries && (exists q :: WalkBetween(g, q, current, door)) {
      var q :| WalkBetween(g, q, current, door);
      assert r.Found?;
    }
  }

  // ---------------------------------------------------------------------------
  // The hop loop

  /** The length of one hop: the edge's weight, or 1 when the two nodes are not joined. */
  function HopLength(g: Graph, u: string, v: string): (d: real)
    ensures g.HasEdge(u, v) ==> d == g.weight[(u, v)]
    ensures !g.HasEdge(u, v) ==> d == 1.0
  {
    if g.HasEdge(u, v) then g.weight[(u, v)] else 1.0
  }

  /** The hop loop of _execute_detailed_path from index i of the route: the next node is
      added to the path, a 'passing' event at the current time names its type (KeyError
      when it is not a node of the graph), and then the clock moves on by the hop length
      at the walking speed; a speed of 0 raises, as it does for a Python-number length. */
  function Hops(g: Graph, speed: real, route: seq<string>, i: nat, w: Walker): Result<Walker>
    decreases |route| - i
  {
    if i + 1 >= |route| then Ok(w)
    else
      var to := route[i + 1];
      if to !in g.nodes.entries then Err(KeyError)
      else if speed == 0.0 then Err(ZeroDivision)
      else
        Hops(g, speed, route, i + 1,
             w.(path := w.path + [to],
                timeline := w.timeline + [Event(w.time, Passing(KindName(g.nodes.entries[to].kind)), to)],
                time := w.time + HopLength(g, route[i], to) / speed))
  }

  /** The hops get through exactly when there is no hop left, or the walking speed is not
      zero and every later node of the route is in the graph. They then add the later
      nodes to the path and one 'passing' event per node, at that node, and leave the
      position and the checked rooms alone. A failure is a KeyError unless every node is
      in the graph. */
  lemma {:induction false} HopsOutcome(g: Graph, speed: real, route: seq<string>, i: nat, w: Walker)
    ensures var h := Hops(g, speed, route, i, w);
      && (h.Ok? <==> i + 1 >= |route| || (speed != 0.0 && forall k | i < k < |route| :: route[k] in g.nodes.entries))
      && (i + 1 >= |route| ==> h == Ok(w))
      && (h.Err? && (forall k | i < k < |route| :: route[k] in g.nodes.entries) ==> h.error == ZeroDivision)
      && (h.Err? && speed != 0.0 ==> h.error == KeyError)
      && (h.Ok? && i < |route| ==>
            && h.value.path == w.path + route[i + 1..]
            && h.value.position == w.position && h.value.checked == w.checked
            && |h.value.timeline| == |w.timeline| + |route| - i - 1
            && h.value.timeline[..|w.timeline|] == w.timeline
            && forall k | |w.timeline| <= k < |h.value.timeline| ::
                 && h.value.timeline[k].location == route[i + 1 + k - |w.timeline|]
                 && h.value.timeline[k].action == Passing(KindName(g.nodes.entries[h.value.timeline[k].location].kind)))
    decreases |route| - i
  {
    if i + 1 < |route| {
      var to := route[i + 1];
      if to in g.nodes.entries && speed != 0.0 {
        var e := Event(w.time, Passing(KindName(g.nodes.entries[to].kind)), to);
        var next := w.(path := w.path + [to], timeline := w.timeline + [e], time := w.time + HopLength(g, route[i], to) / speed);
        HopsOutcome(g, speed, route, i + 1, next);
        var h := Hops(g, speed, route, i + 1, next);
        if h.Ok? {
          if i + 2 < |route| {
            assert (w.path + [to]) + route[i + 2..] == w.path + route[i + 1..];
          } else {
            assert route[i + 1..] == [to];
          }
          var t := h.value.timeline;
          assert t[..|w.timeline|] == next.timeline[..|w.timeline|];
          assert t[|w.timeline|] == e;
        }
      }
    }
  }

  /** With a positive walking speed and no negative weights the hops keep the timeline
      in order and never turn the clock back; the first 'passing' event carries the time
      before the first hop. */
  lemma {:induction false} HopsStamps(g: Graph, speed: real, route: seq<string>, i: nat, w: Walker)
    requires speed > 0.0 && NonNegativeWeights(g) && Chronological(w.timeline, w.time)
    ensures var h := Hops(g, speed, route, i, w);
      h.Ok? ==>
        && Chronological(h.value.timeline, h.value.time) && h.value.time >= w.time
        && (i + 1 < |route| ==> |h.value.timeline| > |w.timeline| && h.value.timeline[|w.timeline|].time == w.time)
    decreases |route| - i
  {
    if i + 1 < |route| {
      var to := route[i + 1];
      if to in g.nodes.entries {
        var e := Event(w.time, Passing(KindName(g.nodes.entries[to].kind)), to);
        var d := HopLength(g, route[i], to);
        assert d >= 0.0;
        var t := w.time + d / speed;
        ChronologicalExtend(w.timeline, w.time, e, t);
        var next := w.(path := w.path + [to], timeline := w.timeline + [e], time := t);
        HopsStamps(g, speed, route, i + 1, next);
        HopsOutcome(g, speed, route, i + 1, next);
        var h := Hops(g, speed, route, i + 1, next);
        if h.Ok? {
          assert h.value.timeline[..|next.timeline|] == next.timeline;
          assert h.value.timeline[|w.timeline|] == (h.value.timeline[..|next.timeline|])[|w.timeline|];
        }
      }
    }
  }

  /** Along a walk of the graph the hops take the walk's length at the walking speed. */
  lemma {:induction false} HopsWalkTime(g: Graph, speed: real, route: seq<string>, i: nat, w: Walker)
    requires i < |route| && IsWalk(g, route[i..]) && speed != 0.0
    ensures var h := Hops(g, speed, route, i, w);
      h.Ok? && h.value.time == w.time + WalkLength(g, route[i..]) / speed
    decreases |route| - i
  {
    if i + 1 < |route| {
      var rest := route[i..];
      assert rest[0] == route[i] && rest[1] == route[i + 1] && rest[1..] == route[i + 1..];
      var to := route[i + 1];
      var weight := g.weight[(route[i], to)];
      var t := w.time + weight / speed;
      var next := w.(path := w.path + [to], timeline := w.timeline + [Event(w.time, Passing(KindName(g.nodes.entries[to].kind)), to)],
                     time := t);
      HopsWalkTime(g, speed, route, i + 1, next);
      assert WalkLength(g, rest) == weight + WalkLength(g, route[i + 1..]);
      SplitQuotient(weight, WalkLength(g, route[i + 1..]), speed);
    } else {
      assert route[i..] == [route[i]];
    }
  }

  /** The step from the door to the room's centre: the edge's weight at the walking speed
      when the door and the room are joined in the graph; no time otherwise. */
  function DoorToCenter(g: Graph, speed: real, roomId: string, t: real): (r: Result<real>)
    ensures r.Err? <==> g.HasEdge(DoorId(roomId), roomId) && DoorId(roomId) in g.nodes.entries && roomId in g.nodes.entries
                        && speed == 0.0
    ensures r.Ok? && speed > 0.0 && NonNegativeWeights(g) ==> r.value >= t
  {
    var door := DoorId(roomId);
    if door in g.nodes.entries && roomId in g.nodes.entries && g.HasEdge(door, roomId) then
      if speed == 0.0 then Err(ZeroDivision) else Ok(t + g.weight[(door, roomId)] / speed)
    else Ok(t)
  }

  // ---------------------------------------------------------------------------
  // _execute_detailed_path as a function

  /** One room of _execute_detailed_path: the hops along the route to the door, the step
      to the centre, an 'arrive_room' event with the responder at the room, the lookup of
      the room (KeyError when it is not a room of the building), the check, and the door
      as the next starting point. Every room of the list is checked, none is skipped. */
  function DoorVisit(g: Graph, find: PathFinder, r: Responder, p: Progress, roomId: string): Result<Progress> {
    match Hops(g, r.walkSpeed, DoorRoute(g, find, p.at, roomId), 0, p.walker)
    case Err(e) => Err(e)
    case Ok(w) =>
      match DoorToCenter(g, r.walkSpeed, roomId, w.time)
      case Err(e) => Err(e)
      case Ok(t) =>
        if roomId !in p.rooms.entries then Err(KeyError)
        else
          var room := p.rooms.entries[roomId];
          var check := room.CheckTime(r.baseCheckTime, r.checkRate);
          var done := t + check;
          Ok(Progress(DoorId(roomId),
                      Walker(roomId, w.path, w.timeline + [Event(t, ArriveRoom, roomId), Event(done, CheckComplete(check), roomId)],
                             done, w.checked + [roomId]),
                      Store(p.rooms, roomId, Cleared(room, done, r.id))))
  }

  /** The loop of _execute_detailed_path over a list of room ids; the first error ends it. */
  function DoorExecute(g: Graph, find: PathFinder, r: Responder, p: Progress, ids: seq<string>): Result<Progress>
    decreases |ids|
  {
    if ids == [] then Ok(p)
    else
      match DoorVisit(g, find, r, p, ids[0])
      case Err(e) => Err(e)
      case Ok(p') => DoorExecute(g, find, r, p', ids[1..])
  }

  lemma {:induction false} DoorExecuteCons(g: Graph, find: PathFinder, r: Responder, p: Progress, ids: seq<string>, i: nat)
    requires i < |ids|
    ensures DoorExecute(g, find, r, p, ids[i..])
         == match DoorVisit(g, find, r, p, ids[i])
            case Err(e) => Err(e)
            case Ok(p') => DoorExecute(g, find, r, p', ids[i + 1..])
  {
    assert ids[i..][0] == ids[i] && ids[i..][1..] == ids[i + 1..];
  }

  // ---------------------------------------------------------------------------
  // Facts about one room

  /** A visit gets through exactly when the hops and the step to the centre do and the
      room is in the building. The responder then stands at the room, the door is the
      next starting point, its path has grown by the route's later nodes, an
      'arrive_room' event and a 'check_complete' event close its timeline, the room is
      added to its checked list and cleared by it when the check ends. */
  lemma {:induction false} DoorVisitChecks(g: Graph, find: PathFinder, r: Responder, p: Progress, roomId: string)
    ensures var route := DoorRoute(g, find, p.at, roomId);
      var h := Hops(g, r.walkSpeed, route, 0, p.walker);
      var v := DoorVisit(g, find, r, p, roomId);
      && (v.Ok? <==> h.Ok? && DoorToCenter(g, r.walkSpeed, roomId, h.value.time).Ok? && roomId in p.rooms.entries)
      && (v.Ok? ==>
            var t, w' := DoorToCenter(g, r.walkSpeed, roomId, h.value.time).value, v.value.walker;
            var check := p.rooms.entries[roomId].CheckTime(r.baseCheckTime, r.checkRate);
            && v.value.at == DoorId(roomId) && w'.position == roomId
            && w'.path == (if route == [] then p.walker.path else p.walker.path + route[1..])
            && w'.time == t + check && w'.checked == p.walker.checked + [roomId]
            && w'.timeline == h.value.timeline + [Event(t, ArriveRoom, roomId), Event(w'.time, CheckComplete(check), roomId)]
            && v.value.rooms.keys == p.rooms.keys
            && v.value.rooms.entries == p.rooms.entries[roomId := Cleared(p.rooms.entries[roomId], w'.time, r.id)])
  {
    HopsOutcome(g, r.walkSpeed, DoorRoute(g, find, p.at, roomId), 0, p.walker);
  }

  /** A visit that gets through, written as the steps _execute_detailed_path takes. */
  lemma {:induction false} DoorVisitFound(g: Graph, find: PathFinder, r: Responder, p: Progress, roomId: string,
                                          h: Walker, t: real, next: Progress)
    requires p.rooms.Valid() && roomId in p.rooms.entries
    requires Hops(g, r.walkSpeed, DoorRoute(g, find, p.at, roomId), 0, p.walker) == Ok(h)
    requires DoorToCenter(g, r.walkSpeed, roomId, h.time) == Ok(t)
    requires var room := p.rooms.entries[roomId];
      var check := room.CheckTime(r.baseCheckTime, r.checkRate);
      && next.at == DoorId(roomId)
      && next.walker == Walker(roomId, h.path,
                               (h.timeline + [Event(t, ArriveRoom, roomId)]) + [Event(t + check, CheckComplete(check), roomId)],
                               t + check, h.checked + [roomId])
      && next.rooms == p.rooms.Put(roomId, Cleared(room, t + check, r.id))
    ensures DoorVisit(g, find, r, p, roomId) == Ok(next)
  {
    var room := p.rooms.entries[roomId];
    var check := room.CheckTime(r.baseCheckTime, r.checkRate);
    var arrive, complete := Event(t, ArriveRoom, roomId), Event(t + check, CheckComplete(check), roomId);
    assert (h.timeline + [arrive]) + [complete] == h.timeline + [arrive, complete];
  }

  /** One room adds exactly that room to the checked list and clears it. */
  lemma {:induction false} DoorVisitClears(g: Graph, find: PathFinder, r: Responder, p: Progress, roomId: string)
    ensures var v := DoorVisit(g, find, r, p, roomId);
      v.Ok? ==> v.value.walker.checked == p.walker.checked + [roomId] && ClearsChecked(p.rooms, v.value.rooms, [roomId])
  {
    var v := DoorVisit(g, find, r, p, roomId);
    if v.Ok? {
      DoorVisitChecks(g, find, r, p, roomId);
      ClearsNothing(p.rooms);
      ClearsOneMore(p.rooms, p.rooms, [], roomId, Cleared(p.rooms.entries[roomId], v.value.walker.time, r.id));
      assert [] + [roomId] == [roomId];
    }
  }

  /** With positive speeds, no negative weights and sane rooms, a visit fails only when
      the room is not in the building or a node of the route is not in the graph; it
      keeps the timeline in order and ends it at the current time, and never turns the
      clock back. */
  lemma {:induction false} DoorVisitTimeline(g: Graph, find: PathFinder, r: Responder, p: Progress, roomId: string)
    requires r.Capable() && NonNegativeWeights(g) && SaneRooms(p.rooms)
    requires Chronological(p.walker.timeline, p.walker.time)
    ensures var route := DoorRoute(g, find, p.at, roomId);
      var v := DoorVisit(g, find, r, p, roomId);
      && (roomId in p.rooms.entries && (forall k | 0 < k < |route| :: route[k] in g.nodes.entries) ==> v.Ok?)
      && (v.Ok? ==>
            && SettledTimeline(v.value.walker.timeline, v.value.walker.time)
            && v.value.walker.time >= p.walker.time
            && SaneRooms(v.value.rooms))
  {
    var route := DoorRoute(g, find, p.at, roomId);
    HopsOutcome(g, r.walkSpeed, route, 0, p.walker);
    HopsStamps(g, r.walkSpeed, route, 0, p.walker);
    var v := DoorVisit(g, find, r, p, roomId);
    var hr := Hops(g, r.walkSpeed, route, 0, p.walker);
    if hr.Ok? && roomId in p.rooms.entries {
      var h := hr.value;
      var t := DoorToCenter(g, r.walkSpeed, roomId, h.time).value;
      var room := p.rooms.entries[roomId];
      assert room.Sane();
      var check := room.CheckTime(r.baseCheckTime, r.checkRate);
      var arrive := Event(t, ArriveRoom, roomId);
      var done := Event(t + check, CheckComplete(check), roomId);
      ChronologicalExtend(h.timeline, h.time, arrive, t);
      SettledExtend(h.timeline + [arrive], t, done);
      assert v.value.walker.timeline == (h.timeline + [arrive]) + [done];
      forall k | k in v.value.rooms.entries ensures v.value.rooms.entries[k].Sane() {
        if k != roomId {
          assert v.value.rooms.entries[k] == p.rooms.entries[k];
        }
      }
    }
  }

  /** When the shortest path function is correct, the door can be reached along a walk
      and the walking speed is not zero, the responder arrives at the room after the
      shortest distance to the door and the step to the centre, both at its walking
      speed. */
  lemma {:induction false} DoorVisitArrival(g: Graph, find: PathFinder, r: Responder, p: Progress, roomId: string)
    requires g.Valid() && NonNegativeWeights(g) && IsShortestPathFinder(find) && r.walkSpeed != 0.0
    requires DoorId(roomId) in g.nodes.entries && exists q :: WalkBetween(g, q, p.at, DoorId(roomId))
    ensures var found := find(g, p.at, DoorId(roomId));
      var v := DoorVisit(g, find, r, p, roomId);
      && found.Found?
      && (v.Ok? ==>
            var arrival := DoorToCenter(g, r.walkSpeed, roomId, p.walker.time + found.length / r.walkSpeed);
            && arrival.Ok?
            && v.value.walker.timeline[|v.value.walker.timeline| - 2] == Event(arrival.value, ArriveRoom, roomId))
  {
    var door := DoorId(roomId);
    var route := DoorRoute(g, find, p.at, roomId);
    DoorRouteShortest(g, find, p.at, roomId);
    var q :| WalkBetween(g, q, p.at, door);
    assert CorrectAnswer(g, p.at, door, find(g, p.at, door));
    assert route[0..] == route;
    HopsWalkTime(g, r.walkSpeed, route, 0, p.walker);
    DoorVisitChecks(g, find, r, p, roomId);
  }

  // ---------------------------------------------------------------------------
  // Facts about a whole list

  /** A sweep that gets through has checked its whole list, in order, and cleared
      exactly those rooms. */
  lemma {:induction false} DoorExecuteClears(g: Graph, find: PathFinder, r: Responder, p: Progress, ids: seq<string>)
    ensures var q := DoorExecute(g, find, r, p, ids);
      q.Ok? ==> q.value.walker.checked == p.walker.checked + ids && ClearsChecked(p.rooms, q.value.rooms, ids)
    decreases |ids|
  {
    if ids == [] {
      ClearsNothing(p.rooms);
      assert p.walker.checked + [] == p.walker.checked;
    } else {
      var v := DoorVisit(g, find, r, p, ids[0]);
      if v.Ok? {
        DoorVisitClears(g, find, r, p, ids[0]);
        DoorExecuteClears(g, find, r, v.value, ids[1..]);
        var q := DoorExecute(g, find, r, v.value, ids[1..]);
        if q.Ok? {
          ChecksThen(p, v.value, q.value, ids);
        }
      }
    }
  }

  lemma {:induction false} ChecksThen(p: Progress, v: Progress, q: Progress, ids: seq<string>)
    requires ids != []
    requires v.walker.checked == p.walker.checked + [ids[0]] && ClearsChecked(p.rooms, v.rooms, [ids[0]])
    requires q.walker.checked == v.walker.checked + ids[1..] && ClearsChecked(v.rooms, q.rooms, ids[1..])
    ensures q.walker.checked == p.walker.checked + ids && ClearsChecked(p.rooms, q.rooms, ids)
  {
    ClearsThen(p.rooms, v.rooms, q.rooms, [ids[0]], ids[1..]);
    assert [ids[0]] + ids[1..] == ids;
    assert (p.walker.checked + [ids[0]]) + ids[1..] == p.walker.checked + ids;
  }

  /** With positive speeds, no negative weights and sane rooms, a sweep from a settled
      timeline ends with its timeline settled and never turns the clock back. */
  lemma {:induction false} DoorExecuteTimeline(g: Graph, find: PathFinder, r: Responder, p: Progress, ids: seq<string>)
    requires r.Capable() && NonNegativeWeights(g) && SaneRooms(p.rooms)
    requires SettledTimeline(p.walker.timeline, p.walker.time)
    ensures var q := DoorExecute(g, find, r, p, ids);
      q.Ok? ==> SettledTimeline(q.value.walker.timeline, q.value.walker.time) && q.value.walker.time >= p.walker.time
    decreases |ids|
  {
    if ids != [] {
      var v := DoorVisit(g, find, r, p, ids[0]);
      DoorVisitTimeline(g, find, r, p, ids[0]);
      if v.Ok? {
        DoorExecuteTimeline(g, find, r, v.value, ids[1..]);
      }
    }
  }

  /** The path only grows: a sweep that gets through keeps what the path held before. */
  lemma {:induction false} DoorExecuteExtendsPath(g: Graph, find: PathFinder, r: Responder, p: Progress, ids: seq<string>)
    ensures var q := DoorExecute(g, find, r, p, ids);
      q.Ok? ==> |q.value.walker.path| >= |p.walker.path| && q.value.walker.path[..|p.walker.path|] == p.walker.path
    decreases |ids|
  {
    if ids != [] {
      var v := DoorVisit(g, find, r, p, ids[0]);
      if v.Ok? {
        DoorVisitChecks(g, find, r, p, ids[0]);
        DoorExecuteExtendsPath(g, find, r, v.value, ids[1..]);
        var q := DoorExecute(g, find, r, v.value, ids[1..]);
        if q.Ok? {
          var a, b, c := p.walker.path, v.value.walker.path, q.value.walker.path;
          assert c[..|a|] == c[..|b|][..|a|];
        }
      }
    }
  }

  // ---------------------------------------------------------------------------
  // _collect_results

  /** A location the simplified path keeps: a node typed 'room' or 'exit', or the
      responder's starting point. A location that is not a node has no type. */
  predicate Kept(g: Graph, start: string, loc: string) {
    (loc in g.nodes.entries && KindName(g.nodes.entries[loc].kind) in ["room", "exit"]) || loc == start
  }

  /** The simplified path of a report: the kept locations of the path, in order. */
  function Simplified(g: Graph, start: string, path: seq<string>): seq<string>
    decreases |path|
  {
    if path == [] then []
    else
      var last := path[|path| - 1];
      Simplified(g, start, path[..|path| - 1]) + (if Kept(g, start, last) then [last] else [])
  }

  /** The simplified path holds exactly the kept locations of the path, and no more
      entries than it. */
  lemma {:induction false} SimplifiedMeaning(g: Graph, start: string, path: seq<string>)
    ensures |Simplified(g, start, path)| <= |path|
    ensures forall x :: x in Simplified(g, start, path) <==> x in path && Kept(g, start, x)
    decreases |path|
  {
    if path != [] {
      var front, last := path[..|path| - 1], path[|path| - 1];
      SimplifiedMeaning(g, start, front);
      assert path == front + [last];
    }
  }

  /** The detailed path of a report: the locations of the path that are nodes of the
      graph, in order, with their positions. */
  function GraphTrail(g: Graph, path: seq<string>): (t: (seq<string>, seq<Point>))
    ensures |t.0| == |t.1|
    ensures forall i | 0 <= i < |t.0| :: t.0[i] in g.nodes.entries && t.1[i] == g.nodes.entries[t.0[i]].position
    decreases |path|
  {
    if path == [] then ([], [])
    else
      var front, last := GraphTrail(g, path[..|path| - 1]), path[|path| - 1];
      if last in g.nodes.entries then (front.0 + [last], front.1 + [g.nodes.entries[last].position]) else front
  }

  /** The detailed path holds exactly the locations of the path that are nodes, and no
      more entries than it. */
  lemma {:induction false} GraphTrailMeaning(g: Graph, path: seq<string>)
    ensures |GraphTrail(g, path).0| <= |path|
    ensures forall x :: x in GraphTrail(g, path).0 <==> x in path && x in g.nodes.entries
    decreases |path|
  {
    if path != [] {
      var front, last := path[..|path| - 1], path[|path| - 1];
      GraphTrailMeaning(g, front);
      assert path == front + [last];
    }
  }

  /** responder_paths: the simplified path, the detailed path and its positions, the
      timeline, the time, the checked rooms and the distance estimate. */
  function DoorReports(g: Graph, rs: seq<Responder>, ws: seq<Walker>): (reports: seq<Report>)
    requires |ws| == |rs|
    ensures |reports| == |rs|
  {
    seq(|ws|, i requires 0 <= i < |ws| => ReportFor(g, rs[i], ws[i]))
  }

  /** One entry of responder_paths. */
  function ReportFor(g: Graph, r: Responder, w: Walker): Report {
    Report(r.id, Simplified(g, r.initialPosition, w.path), w.timeline, w.time, w.checked, w.time * r.walkSpeed,
           Some(GraphTrail(g, w.path)))
  }

  /** _collect_results: max() of an empty team raises; the load balance is not guarded,
      so a zero mean time gives no number. */
  function DoorCollect(g: Graph, rs: seq<Responder>, ws: seq<Walker>, rooms: Dict<Room>, std: seq<real> -> real)
    : (r: Result<Results>)
    requires |ws| == |rs| && rooms.Valid()
    ensures r.Err? <==> rs == []
    ensures r.Err? ==> r.error == EmptyMax
  {
    match Max(Times(ws))
    case Err(e) => Err(e)
    case Ok(total) =>
      var cleared := AllCleared(rooms);
      Ok(Results(cleared, total, DoorReports(g, rs, ws), ClearanceTable(rooms),
                 Metrics(cleared, AverageClearance(rooms), LoadBalance(Times(ws), std, false), 0.0,
                         Sum(Estimates(rs, ws)), |rs|, |rooms.keys|)))
  }

  /** What the results say: success exactly when every room is cleared, the total time
      is the latest responder's, every report carries the simplified and the detailed
      path of its responder's path, the load balance is missing exactly when the mean
      time is zero, the redundancy is 0 and the distance is the sum of the estimates. */
  lemma {:induction false} DoorCollectMeaning(g: Graph, rs: seq<Responder>, ws: seq<Walker>, rooms: Dict<Room>,
                                              std: seq<real> -> real)
    requires |ws| == |rs| && rooms.Valid()
    ensures var r := DoorCollect(g, rs, ws, rooms, std);
      r.Ok? ==>
        && (r.value.success <==> forall k | k in rooms.entries :: rooms.entries[k].cleared)
        && r.value.success == r.value.metrics.allRoomsCleared
        && (forall i | 0 <= i < |ws| :: ws[i].time <= r.value.totalTime)
        && (exists i | 0 <= i < |ws| :: ws[i].time == r.value.totalTime)
        && (forall i | 0 <= i < |rs| ::
              && r.value.responderPaths[i].path == Simplified(g, rs[i].initialPosition, ws[i].path)
              && r.value.responderPaths[i].detail == Some(GraphTrail(g, ws[i].path))
              && r.value.responderPaths[i].totalDistance == ws[i].time * rs[i].walkSpeed)
        && (r.value.metrics.loadBalance.None? <==> Mean(Times(ws)) == 0.0)
        && r.value.metrics.redundancyCoverage == 0.0
        && r.value.metrics.totalDistanceTraveled == Sum(Estimates(rs, ws))
        && r.value.metrics.nResponders == |rs| && r.value.metrics.nRooms == |rooms.keys|
  {
    var r := DoorCollect(g, rs, ws, rooms, std);
    if r.Ok? {
      var total := Max(Times(ws)).value;
      assert total in Times(ws);
      ReportsAre(g, rs, ws);
    }
  }

  lemma {:induction false} ReportsAre(g: Graph, rs: seq<Responder>, ws: seq<Walker>)
    requires |ws| == |rs|
    ensures forall i | 0 <= i < |rs| ::
      && DoorReports(g, rs, ws)[i].path == Simplified(g, rs[i].initialPosition, ws[i].path)
      && DoorReports(g, rs, ws)[i].detail == Some(GraphTrail(g, ws[i].path))
      && DoorReports(g, rs, ws)[i].totalDistance == ws[i].time * rs[i].walkSpeed
  {
    forall i | 0 <= i < |rs|
      ensures DoorReports(g, rs, ws)[i] == ReportFor(g, rs[i], ws[i])
    {
    }
  }

  lemma {:induction false} DoorDistancesAre(g: Graph, rs: seq<Responder>, ws: seq<Walker>)
    requires |ws| == |rs|
    ensures ReportDistances(DoorReports(g, rs, ws)) == Estimates(rs, ws)
  {
    ReportsAre(g, rs, ws);
  }

  /** The loop that builds the simplified path. */
  method SimplifyPath(g: Graph, start: string, path: seq<string>) returns (simplified: seq<string>)
    ensures simplified == Simplified(g, start, path)
  {
    simplified := [];
    var i := 0;
    while i < |path|
      invariant 0 <= i <= |path| && simplified == Simplified(g, start, path[..i])
    {
      assert path[..i + 1][..i] == path[..i];
      var loc := path[i];
      var kind := if loc in g.nodes.entries then KindName(g.nodes.entries[loc].kind) else "";
      if kind in ["room", "exit"] || loc == start {
        simplified := simplified + [loc];
      }
      i := i + 1;
    }
    assert path[..i] == path;
  }

  /** The loop that builds the detailed path and its positions. */
  method TracePath(g: Graph, path: seq<string>) returns (nodes: seq<string>, positions: seq<Point>)
    ensures (nodes, positions) == GraphTrail(g, path)
  {
    nodes, positions := [], [];
    var i := 0;
    while i < |path|
      invariant 0 <= i <= |path| && (nodes, positions) == GraphTrail(g, path[..i])
    {
      assert path[..i + 1][..i] == path[..i];
      var loc := path[i];
      if loc in g.nodes.entries {
        nodes, positions := nodes + [loc], positions + [g.nodes.entries[loc].position];
      }
      i := i + 1;
    }
    assert path[..i] == path;
  }

  /** The loop that builds responder_paths. */
  method ReportAll(g: Graph, rs: seq<Responder>) returns (reports: seq<Report>)
    ensures reports == DoorReports(g, rs, StatesOf(rs))
  {
    ghost var ws := StatesOf(rs);
    reports := [];
    var i := 0;
    while i < |rs|
      invariant 0 <= i <= |rs| && |reports| == i
      invariant forall j | 0 <= j < i :: reports[j] == ReportFor(g, rs[j], ws[j])
    {
      var report := ReportOf(g, rs[i]);
      reports := reports + [report];
      i := i + 1;
    }
  }

  /** One entry of responder_paths. */
  method ReportOf(g: Graph, r: Responder) returns (report: Report)
    ensures report == ReportFor(g, r, StateOf(r))
  {
    var simplified := SimplifyPath(g, r.initialPosition, r.path);
    var nodes, positions := TracePath(g, r.path);
    report := Report(r.id, simplified, r.timeline, r.currentTime, r.roomsChecked, r.currentTime * r.walkSpeed, Some((nodes, positions)));
  }

  /** Clearing or resetting rooms keeps their ids and floors, so the doors still belong
      to them. */
  lemma {:induction false} DoorsStay(before: Dict<Room>, after: Dict<Room>, doors: Dict<Door>)
    requires DoorsOf(before, doors) && after.entries.Keys == before.entries.Keys
    requires forall k | k in after.entries :: after.entries[k].floor == before.entries[k].floor
    ensures DoorsOf(after, doors)
  {
  }

  /** When every responder checked exactly its list, every room is cleared exactly when
      every room is on some responder's list. */
  lemma {:induction false} ListsCover(rooms: Dict<Room>, fin: Dict<Room>, ws: seq<Walker>, rs: seq<Responder>,
                                      assignment: map<int, seq<string>>)
    requires fin.entries.Keys == rooms.entries.Keys && |ws| == |rs|
    requires forall k | k in fin.entries :: fin.entries[k].cleared <==> exists i | 0 <= i < |ws| :: k in ws[i].checked
    requires forall i | 0 <= i < |rs| :: rs[i].id in assignment && ws[i].checked == assignment[rs[i].id]
    ensures (forall k | k in fin.entries :: fin.entries[k].cleared)
            <==> forall k | k in rooms.entries :: exists i | 0 <= i < |rs| :: k in assignment[rs[i].id]
  {
    forall k | k in rooms.entries
      ensures fin.entries[k].cleared <==> exists i | 0 <= i < |rs| :: k in assignment[rs[i].id]
    {
      if fin.entries[k].cleared {
        var i :| 0 <= i < |ws| && k in ws[i].checked;
        assert k in assignment[rs[i].id];
      }
      if exists i | 0 <= i < |rs| :: k in assignment[rs[i].id] {
        var i :| 0 <= i < |rs| && k in assignment[rs[i].id];
        assert k in ws[i].checked;
      }
    }
  }

  // ---------------------------------------------------------------------------
  // DetailedSimulator

  class DetailedSimulator {
    const building: BuildingWithDoors
    const team: ResponderTeam
    /** responder id -> room ids */
    const assignment: map<int, seq<string>>
    /** The detailed graph, built once when the simulator is made. */
    const graph: Graph
    /** The weighted shortest path search on the graph. */
    const find: PathFinder

    ghost predicate Valid()
      reads this, building, building.base
    {
      building.Valid() && team.Numbered() && graph.Valid()
    }

    /** __init__: the detailed graph is built from the building. */
    constructor (building: BuildingWithDoors, team: ResponderTeam, assignment: map<int, seq<string>>, norm: Norm,
                 sqrt: real -> real, find: PathFinder)
      requires building.Valid() && team.Numbered()
      ensures Valid()
      ensures this.building == building && this.team == team && this.assignment == assignment && this.find == find
      ensures graph.nodes == DetailedNodes(building.base, building.doors, norm)
      ensures graph.weight == DetailedWeights(building.base, building.doors, norm, sqrt)
    {
      var g := building.BuildDetailedGraph(norm, sqrt);
      this.building := building;
      this.team := team;
      this.assignment := assignment;
      this.graph := g;
      this.find := find;
    }

    /** One responder's sweep from the state reset() leaves. */
    function Executor(): Exec {
      (r: Responder, d: Dict<Room>, ids: seq<string>) =>
        DoorExecute(graph, find, r, Progress(r.initialPosition, StartOf(r), d), ids)
    }

    /** Every sweep the executor performs clears what it checks. */
    lemma {:induction false} ExecutorClears()
      ensures ClearsWhatItChecks(Executor(), team.responders)
    {
      forall i, d: Dict<Room>, ids: seq<string> | 0 <= i < |team.responders| && Executor()(team.responders[i], d, ids).Ok?
        ensures ClearsChecked(d, Executor()(team.responders[i], d, ids).value.rooms,
                              Executor()(team.responders[i], d, ids).value.walker.checked)
      {
        var r := team.responders[i];
        DoorExecuteClears(graph, find, r, Progress(r.initialPosition, StartOf(r), d), ids);
        assert [] + ids == ids;
      }
    }

    /** What run() returns, as a function of the rooms before it. */
    ghost function Outcome(rooms: Dict<Room>, std: seq<real> -> real): Result<Results>
      requires rooms.Valid()
    {
      var run := RunTeam(Executor(), team.responders, assignment, ResetRooms(rooms));
      ExecutorClears();
      RunTeamClears(Executor(), team.responders, assignment, ResetRooms(rooms));
      match run
      case Err(e) => Err(e)
      case Ok((ws, fin)) =>
        assert fin.Valid();
        DoorCollect(graph, team.responders, ws, fin, std)
    }

    lemma {:induction false} OutcomeOfRun(rooms: Dict<Room>, std: seq<real> -> real)
      requires rooms.Valid()
      ensures var run := RunTeam(Executor(), team.responders, assignment, ResetRooms(rooms));
        && (run.Err? ==> Outcome(rooms, std) == Err(run.error))
        && (run.Ok? ==> run.value.1.Valid() && Outcome(rooms, std) == DoorCollect(graph, team.responders, run.value.0, run.value.1, std))
    {
      ExecutorClears();
      RunTeamClears(Executor(), team.responders, assignment, ResetRooms(rooms));
    }

    /** run(): it fails when a responder's id is missing from the assignment or on an
        empty team; when it finishes, every responder has checked its whole list, and
        success means that every room is on some responder's list. */
    lemma {:induction false} OutcomeMeaning(rooms: Dict<Room>, std: seq<real> -> real)
      requires rooms.Valid()
      ensures var run := RunTeam(Executor(), team.responders, assignment, ResetRooms(rooms));
        var o := Outcome(rooms, std);
        && (run.Ok? ==> forall i | 0 <= i < |team.responders| :: team.responders[i].id in assignment
                          && run.value.0[i].checked == assignment[team.responders[i].id])
        && (o.Err? <==> run.Err? || team.responders == [])
        && (o.Ok? ==>
              && (o.value.success <==>
                    forall k | k in rooms.entries :: exists i | 0 <= i < |team.responders| :: k in assignment[team.responders[i].id])
              && o.value.metrics.redundancyCoverage == 0.0)
    {
      var start := ResetRooms(rooms);
      var run := RunTeam(Executor(), team.responders, assignment, start);
      ExecutorClears();
      OutcomeOfRun(rooms, std);
      RunTeamNeedsIds(Executor(), team.responders, assignment, start);
      RunTeamClears(Executor(), team.responders, assignment, start);
      if run.Ok? {
        var ws, fin := run.value.0, run.value.1;
        var rs := team.responders;
        RunTeamChecksLists(rs, start);
        ClearedByRun(rooms, fin, ws);
        DoorCollectMeaning(graph, rs, ws, fin, std);
        ListsCover(rooms, fin, ws, rs, assignment);
      }
    }

    /** Every responder of a run that gets through has checked exactly its list. */
    lemma {:induction false} RunTeamChecksLists(rs: seq<Responder>, rooms: Dict<Room>)
      ensures var run := RunTeam(Executor(), rs, assignment, rooms);
        run.Ok? ==> forall i | 0 <= i < |rs| :: rs[i].id in assignment && run.value.0[i].checked == assignment[rs[i].id]
      decreases |rs|
    {
      if rs != [] && rs[0].id in assignment {
        var r := rs[0];
        var e := Executor()(r, rooms, assignment[r.id]);
        if e.Ok? {
          DoorExecuteClears(graph, find, r, Progress(r.initialPosition, StartOf(r), rooms), assignment[r.id]);
          assert [] + assignment[r.id] == assignment[r.id];
          RunTeamChecksLists(rs[1..], e.value.rooms);
          var run := RunTeam(Executor(), rs, assignment, rooms);
          if run.Ok? {
            forall i | 0 <= i < |rs|
              ensures rs[i].id in assignment && run.value.0[i].checked == assignment[rs[i].id]
            {
              if i > 0 {
                assert rs[i] == rs[1..][i - 1];
              }
            }
          }
        }
      }
    }

    /** The hop loop of _execute_detailed_path along one route. */
    method WalkRoute(responder: Responder, route: seq<string>) returns (r: Result<()>)
      modifies responder`path, responder`timeline, responder`currentTime
      ensures var h := Hops(graph, responder.walkSpeed, route, 0, old(StateOf(responder)));
        && (r.Ok? <==> h.Ok?) && (r.Err? ==> r.error == h.error)
        && (r.Ok? ==> StateOf(responder) == h.value)
    {
      ghost var start := StateOf(responder);
      var i := 0;
      while i + 1 < |route|
        invariant i <= |route|
        invariant Hops(graph, responder.walkSpeed, route, 0, start) == Hops(graph, responder.walkSpeed, route, i, StateOf(responder))
      {
        var from, to := route[i], route[i + 1];
        var dist := if graph.HasEdge(from, to) then graph.weight[(from, to)] else 1.0;
        responder.path := responder.path + [to];
        if to !in graph.nodes.entries {
          return Err(KeyError);
        }
        responder.timeline := responder.timeline + [Event(responder.currentTime, Passing(KindName(graph.nodes.entries[to].kind)), to)];
        if responder.walkSpeed == 0.0 {
          return Err(ZeroDivision);
        }
        responder.currentTime := responder.currentTime + dist / responder.walkSpeed;
        i := i + 1;
      }
      return Ok(());
    }

    /** The end of one iteration: the responder is at the room, checks it and clears it. */
    method ArriveAndCheck(responder: Responder, roomId: string)
      requires Valid() && roomId in building.base.rooms.entries
      modifies responder`position, responder`currentTime, responder`timeline, responder`roomsChecked, building.base`rooms
      ensures Valid() && building.base.rooms.entries.Keys == old(building.base.rooms.entries.Keys)
      ensures var room, w := old(building.base.rooms.entries[roomId]), old(StateOf(responder));
        var check := room.CheckTime(responder.baseCheckTime, responder.checkRate);
        && StateOf(responder)
           == Walker(roomId, w.path,
                     (w.timeline + [Event(w.time, ArriveRoom, roomId)]) + [Event(w.time + check, CheckComplete(check), roomId)],
                     w.time + check, w.checked + [roomId])
        && building.base.rooms == old(building.base.rooms).Put(roomId, Cleared(room, w.time + check, responder.id))
    {
      ghost var w := StateOf(responder);
      responder.position := roomId;
      responder.timeline := responder.timeline + [Event(responder.currentTime, ArriveRoom, roomId)];
      var room := building.base.rooms.entries[roomId];
      var check := room.CheckTime(responder.baseCheckTime, responder.checkRate);
      responder.currentTime := responder.currentTime + check;
      ClearRoom(roomId, responder.currentTime, responder.id);
      responder.roomsChecked := responder.roomsChecked + [roomId];
      responder.timeline := responder.timeline + [Event(responder.currentTime, CheckComplete(check), roomId)];
    }

    /** Marks the room cleared, at the given time, by the given responder. */
    method ClearRoom(roomId: string, time: real, who: int)
      requires Valid() && roomId in building.base.rooms.entries
      modifies building.base`rooms
      ensures Valid() && building.base.rooms.entries.Keys == old(building.base.rooms.entries.Keys)
      ensures building.base.rooms == old(building.base.rooms).Put(roomId, Cleared(old(building.base.rooms.entries[roomId]), time, who))
    {
      ghost var before := building.base.rooms;
      var room := building.base.rooms.entries[roomId];
      assert room.id == roomId;
      building.base.AddRoom(Cleared(room, time, who));
      DoorsStay(before, building.base.rooms, building.doors);
    }

    /** The route to the room's door, with the direct route as the fallback. */
    method RouteTo(current: string, roomId: string) returns (route: seq<string>)
      ensures route == DoorRoute(graph, find, current, roomId)
    {
      var door := DoorId(roomId);
      route := [current, roomId];
      if door in graph.nodes.entries {
        var found := find(graph, current, door);
        if found.Found? {
          route := found.path;
        }
      }
    }

    /** The step from the door to the room's centre. */
    method StepToCenter(responder: Responder, roomId: string) returns (r: Result<()>)
      modifies responder`currentTime
      ensures var c := DoorToCenter(graph, responder.walkSpeed, roomId, old(responder.currentTime));
        && (r.Ok? <==> c.Ok?) && (r.Err? ==> r.error == c.error) && (r.Ok? ==> responder.currentTime == c.value)
    {
      var door := DoorId(roomId);
      if door in graph.nodes.entries && roomId in graph.nodes.entries && graph.HasEdge(door, roomId) {
        if responder.walkSpeed == 0.0 {
          return Err(ZeroDivision);
        }
        responder.currentTime := responder.currentTime + graph.weight[(door, roomId)] / responder.walkSpeed;
      }
      return Ok(());
    }

    /** One iteration of _execute_detailed_path's loop over the rooms, from the state `p`
        describes. */
    method VisitRoom(responder: Responder, current: string, roomId: string, ghost p: Progress) returns (r: Result<string>)
      requires Valid() && p == Progress(current, StateOf(responder), building.base.rooms)
      modifies responder`position, responder`path, responder`currentTime, responder`timeline, responder`roomsChecked,
               building.base`rooms
      ensures Valid() && building.base.rooms.entries.Keys == old(building.base.rooms.entries.Keys)
      ensures var v := DoorVisit(graph, find, responder, p, roomId);
        && (r.Ok? <==> v.Ok?) && (r.Err? ==> r.error == v.error)
        && (r.Ok? ==> v.value == Progress(r.value, StateOf(responder), building.base.rooms))
    {
      var door := DoorId(roomId);
      ghost var h: Walker, t: real;
      var reached;
      reached, h, t := ReachRoom(responder, current, roomId);
      if reached.Err? {
        return Err(reached.error);
      }
      if roomId !in building.base.rooms.entries {
        responder.position := roomId;
        responder.timeline := responder.timeline + [Event(responder.currentTime, ArriveRoom, roomId)];
        return Err(KeyError);
      }
      ArriveAndCheck(responder, roomId);
      DoorVisitFound(graph, find, responder, p, roomId, h, t, Progress(door, StateOf(responder), building.base.rooms));
      return Ok(door);
    }

    /** The way to a room: the route to its door, the hops along it and the step to the
        centre; `h` is the state after the hops and `t` the time at the centre. */
    method ReachRoom(responder: Responder, current: string, roomId: string) returns (r: Result<()>, ghost h: Walker, ghost t: real)
      modifies responder`path, responder`currentTime, responder`timeline
      ensures var hops := Hops(graph, responder.walkSpeed, DoorRoute(graph, find, current, roomId), 0, old(StateOf(responder)));
        && (r.Ok? <==> hops.Ok? && DoorToCenter(graph, responder.walkSpeed, roomId, hops.value.time).Ok?)
        && (r.Err? ==> r.error == if hops.Err? then hops.error else DoorToCenter(graph, responder.walkSpeed, roomId, hops.value.time).error)
        && (r.Ok? ==> hops == Ok(h) && DoorToCenter(graph, responder.walkSpeed, roomId, h.time) == Ok(t) && StateOf(responder) == h.(time := t))
    {
      var route := RouteTo(current, roomId);
      var walked := WalkRoute(responder, route);
      h, t := StateOf(responder), 0.0;
      if walked.Err? {
        return Err(walked.error), h, t;
      }
      var stepped := StepToCenter(responder, roomId);
      t := responder.currentTime;
      if stepped.Err? {
        return Err(stepped.error), h, t;
      }
      return Ok(()), h, t;
    }

    /** _execute_detailed_path: the rooms in order. */
    method ExecuteDetailedPath(responder: Responder, roomIds: seq<string>) returns (r: Result<()>)
      requires Valid()
      modifies responder`position, responder`path, responder`currentTime, responder`timeline, responder`roomsChecked,
               building.base`rooms
      ensures Valid()
      ensures var q := DoorExecute(graph, find, responder,
                                   Progress(old(responder.position), old(StateOf(responder)), old(building.base.rooms)), roomIds);
        && (r.Ok? <==> q.Ok?) && (r.Err? ==> r.error == q.error)
        && (r.Ok? ==> StateOf(responder) == q.value.walker && building.base.rooms == q.value.rooms)
    {
      var current := responder.position;
      ghost var p := Progress(current, StateOf(responder), building.base.rooms);
      ghost var start := p;
      assert roomIds[0..] == roomIds;
      var i := 0;
      while i < |roomIds|
        invariant 0 <= i <= |roomIds| && Valid()
        invariant p == Progress(current, StateOf(responder), building.base.rooms)
        invariant DoorExecute(graph, find, responder, start, roomIds) == DoorExecute(graph, find, responder, p, roomIds[i..])
      {
        DoorExecuteCons(graph, find, responder, p, roomIds, i);
        var res := VisitRoom(responder, current, roomIds[i], p);
        if res.Err? {
          return Err(res.error);
        }
        current := res.value;
        p := DoorVisit(graph, find, responder, p, roomIds[i]).value;
        i := i + 1;
      }
      return Ok(());
    }

    /** What the sweep has done after the first `i` responders: their states are `done`,
        the others are still in their start state, and what is left of the run continues
        from the current rooms. */
    ghost predicate SweptUpTo(i: nat, done: seq<Walker>, rooms0: Dict<Room>)
      reads this, building, building.base, set x | x in team.responders
    {
      var rs := team.responders;
      && i <= |rs| && |done| == i && Valid()
      && (forall j | 0 <= j < i :: StateOf(rs[j]) == done[j])
      && (forall j | i <= j < |rs| :: rs[j].AtStart())
      && RunTeam(Executor(), rs, assignment, rooms0) == Prepend(done, RunTeam(Executor(), rs[i..], assignment, building.base.rooms))
    }

    /** One responder's turn in run(): its rooms are looked up in the assignment (KeyError
        when its id is missing) and swept from the start state. */
    method SweepOne(i: nat, ghost done: seq<Walker>, ghost rooms0: Dict<Room>) returns (res: Result<()>, ghost done': seq<Walker>)
      requires i < |team.responders| && SweptUpTo(i, done, rooms0)
      modifies building.base`rooms, team.responders[i]
      ensures Valid()
      ensures res.Err? ==> RunTeam(Executor(), team.responders, assignment, rooms0) == Err(res.error)
      ensures res.Ok? ==> SweptUpTo(i + 1, done', rooms0)
    {
      var rs := team.responders;
      assert forall j | 0 <= j < |rs| :: rs[j].id == j + 1;
      var responder := rs[i];
      assert rs[i..][0] == responder && rs[i..][1..] == rs[i + 1..];
      if responder.id !in assignment {
        return Err(KeyError), done;
      }
      StartState(responder);
      res := ExecuteDetailedPath(responder, assignment[responder.id]);
      done' := done + [StateOf(responder)];
      if res.Ok? {
        PrependTwice(done, [StateOf(responder)], RunTeam(Executor(), rs[i + 1..], assignment, building.base.rooms));
      }
    }

    /** The loop of run() over the team, every responder in its start state. */
    method SweepAll() returns (res: Result<()>)
      requires Valid() && forall j | 0 <= j < |team.responders| :: team.responders[j].AtStart()
      modifies building.base`rooms, set x | x in team.responders
      ensures Valid()
      ensures var run := RunTeam(Executor(), team.responders, assignment, old(building.base.rooms));
        && (res.Ok? <==> run.Ok?) && (res.Err? ==> res.error == run.error)
        && (res.Ok? ==> building.base.rooms == run.value.1 && StatesOf(team.responders) == run.value.0)
    {
      var rs := team.responders;
      ghost var rooms0 := building.base.rooms;
      ghost var done: seq<Walker> := [];
      assert rs[0..] == rs;
      PrependNothing(RunTeam(Executor(), rs, assignment, rooms0));
      var i := 0;
      while i < |rs|
        invariant SweptUpTo(i, done, rooms0)
      {
        res, done := SweepOne(i, done, rooms0);
        if res.Err? {
          return;
        }
        i := i + 1;
      }
      assert rs[i..] == [];
      assert done + [] == done;
      StatesAre(rs, done);
      return Ok(());
    }

    /** The two resets run() starts with: every room uncleared, every responder back at
        its start. */
    method ResetForRun()
      requires Valid()
      modifies building.base`rooms, set x | x in team.responders
      ensures Valid() && building.base.rooms == ResetRooms(old(building.base.rooms))
      ensures forall j | 0 <= j < |team.responders| :: team.responders[j].AtStart()
    {
      ghost var orig := building.base.rooms;
      building.base.ResetClearance();
      team.ResetAll();
      ResetRoomsIs(orig, building.base.rooms);
      DoorsStay(orig, building.base.rooms, building.doors);
      assert forall j | 0 <= j < |team.responders| :: team.responders[j] in team.responders;
    }

    /** run(): reset the building and the team, sweep responder by responder, collect. The
        rooms and the responders end in the state the run describes. */
    method Run(std: seq<real> -> real) returns (r: Result<Results>)
      requires Valid()
      modifies building.base`rooms, set x | x in team.responders
      ensures Valid()
      ensures r == Outcome(old(building.base.rooms), std)
      ensures var run := RunTeam(Executor(), team.responders, assignment, ResetRooms(old(building.base.rooms)));
        run.Ok? ==> building.base.rooms == run.value.1 && StatesOf(team.responders) == run.value.0
    {
      ghost var orig := building.base.rooms;
      OutcomeOfRun(orig, std);
      ResetForRun();
      var res := SweepAll();
      if res.Err? {
        return Err(res.error);
      }
      r := CollectResults(std);
    }

    /** _collect_results on the current state of the building and the team. */
    method CollectResults(std: seq<real> -> real) returns (r: Result<Results>)
      requires building.base.rooms.Valid()
      ensures r == DoorCollect(graph, team.responders, StatesOf(team.responders), building.base.rooms, std)
    {
      var rs, rooms := team.responders, building.base.rooms;
      ghost var ws := StatesOf(rs);
      var reports := ReportAll(graph, rs);
      var table := BuildClearanceTable(rooms);
      var total := team.GetMaxTime();
      TimesAgree(rs);
      if total.Err? {
        return Err(total.error);
      }
      var cleared := AllCleared(rooms);
      var average := AverageClearance(rooms);
      var balance := LoadBalance(TimesOf(rs), std, false);
      var distance := Sum(ReportDistances(reports));
      DoorDistancesAre(graph, rs, ws);
      return Ok(Results(cleared, total.value, reports, table, Metrics(cleared, average, balance, 0.0, distance, |rs|, |rooms.keys|)));
    }
  }
}
