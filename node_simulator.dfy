/** src/algorithms/node_simulator.py: the sweep on the dense navigation graph. Each
    responder goes through its list of rooms in order: it asks the navigation graph for a
    node path from where it is to the room's centre, skips the room when there is none,
    and otherwise walks the path hop by hop (stairs at the stair speeds), checks the room
    and goes on from it. Afterwards the responder's full node path is rebuilt from the
    rooms it checked. The results estimate a responder's distance as its time multiplied
    by its walking speed. */
module NodeSimulation {
  import opened Common
  import opened Dicts
  import opened Facility
  import opened Networks
  import opened NodeIds
  import opened NodeBased
  import opened Responders
  import opened Outcomes

  // ---------------------------------------------------------------------------
  // The hop loop

  /** A stair landing of the graph. */
  predicate IsStair(g: Graph, n: string) {
    n in g.nodes.entries && g.nodes.entries[n].kind == StairNode
  }

  /** The speed a hop is walked at: from one stair landing to another the stair speed,
      up when the target's floor is higher and down otherwise; the walking speed for
      every other hop. */
  function HopSpeed(g: Graph, r: Responder, from: string, to: string): (s: real)
    ensures !(IsStair(g, from) && IsStair(g, to)) ==> s == r.walkSpeed
    ensures IsStair(g, from) && IsStair(g, to) && g.nodes.entries[to].floor > g.nodes.entries[from].floor ==> s == r.stairUpSpeed
    ensures IsStair(g, from) && IsStair(g, to) && g.nodes.entries[to].floor <= g.nodes.entries[from].floor ==> s == r.stairDownSpeed
    ensures r.Capable() ==> s > 0.0
  {
    if IsStair(g, from) && IsStair(g, to) then r.SpeedFor(true, g.nodes.entries[to].floor - g.nodes.entries[from].floor)
    else r.walkSpeed
  }

  /** The type of the node an edge leads to, or unknown when it has none. */
  function NodeType(g: Graph, n: string): (s: string)
    ensures n !in g.nodes.entries ==> s == "unknown"
    ensures n in g.nodes.entries ==> s == KindName(g.nodes.entries[n].kind)
  {
    if n in g.nodes.entries then KindName(g.nodes.entries[n].kind) else "unknown"
  }

  /** The hops of a path from node i on. A hop between nodes joined by an edge takes
      the edge's weight at the hop's speed (ZeroDivisionError at speed 0, as for an edge
      whose weight is a Python number) and adds a
      'passing' event at the node reached, stamped with the time after the hop; a hop
      without an edge is skipped. */
  function Hops(g: Graph, r: Responder, path: seq<string>, i: nat, w: Walker): Result<Walker>
    decreases |path| - i
  {
    if i + 1 >= |path| then Ok(w)
    else if !g.HasEdge(path[i], path[i + 1]) then Hops(g, r, path, i + 1, w)
    else
      var speed := HopSpeed(g, r, path[i], path[i + 1]);
      if speed == 0.0 then Err(ZeroDivision)
      else
        var t := w.time + g.weight[(path[i], path[i + 1])] / speed;
        Hops(g, r, path, i + 1, w.(time := t, timeline := w.timeline + [Event(t, Passing(NodeType(g, path[i + 1])), path[i + 1])]))
  }

  /** The hops fail exactly when some hop along an edge has a speed of 0, and then with
      ZeroDivisionError. */
  lemma {:induction false} HopsFail(g: Graph, r: Responder, path: seq<string>, i: nat, w: Walker)
    ensures Hops(g, r, path, i, w).Err? <==>
      exists k | i <= k < |path| - 1 :: g.HasEdge(path[k], path[k + 1]) && HopSpeed(g, r, path[k], path[k + 1]) == 0.0
    ensures Hops(g, r, path, i, w).Err? ==> Hops(g, r, path, i, w).error == ZeroDivision
    decreases |path| - i
  {
    if i + 1 < |path| {
      if !g.HasEdge(path[i], path[i + 1]) {
        HopsFail(g, r, path, i + 1, w);
      } else if HopSpeed(g, r, path[i], path[i + 1]) == 0.0 {
        assert g.HasEdge(path[i], path[i + 1]) && HopSpeed(g, r, path[i], path[i + 1]) == 0.0;
      } else {
        var t := w.time + g.weight[(path[i], path[i + 1])] / HopSpeed(g, r, path[i], path[i + 1]);
        HopsFail(g, r, path, i + 1, w.(time := t, timeline := w.timeline + [Event(t, Passing(NodeType(g, path[i + 1])), path[i + 1])]));
      }
    }
  }

  /** The hops change only the clock and the timeline, which they extend by 'passing'
      events. */
  lemma {:induction false} HopsKeep(g: Graph, r: Responder, path: seq<string>, i: nat, w: Walker)
    ensures var h := Hops(g, r, path, i, w);
      h.Ok? ==>
        && h.value.position == w.position && h.value.path == w.path && h.value.checked == w.checked
        && |w.timeline| <= |h.value.timeline| && h.value.timeline[..|w.timeline|] == w.timeline
        && forall j | |w.timeline| <= j < |h.value.timeline| :: h.value.timeline[j].action.Passing?
    decreases |path| - i
  {
    if i + 1 < |path| {
      if !g.HasEdge(path[i], path[i + 1]) {
        HopsKeep(g, r, path, i + 1, w);
      } else if HopSpeed(g, r, path[i], path[i + 1]) != 0.0 {
        var t := w.time + g.weight[(path[i], path[i + 1])] / HopSpeed(g, r, path[i], path[i + 1]);
        var next := w.(time := t, timeline := w.timeline + [Event(t, Passing(NodeType(g, path[i + 1])), path[i + 1])]);
        HopsKeep(g, r, path, i + 1, next);
        var h := Hops(g, r, path, i + 1, next);
        if h.Ok? {
          assert h.value.timeline[..|next.timeline|] == next.timeline;
          assert h.value.timeline[..|w.timeline|] == next.timeline[..|w.timeline|];
        }
      }
    }
  }

  /** With positive speeds and no negative weights, the hops never fail, keep the
      timeline in order and stamped with the current time, and never turn the clock
      back. */
  lemma {:induction false} HopsTimeline(g: Graph, r: Responder, path: seq<string>, i: nat, w: Walker)
    requires r.Capable() && NonNegativeWeights(g) && SettledTimeline(w.timeline, w.time)
    ensures var h := Hops(g, r, path, i, w);
      h.Ok? && SettledTimeline(h.value.timeline, h.value.time) && h.value.time >= w.time
    decreases |path| - i
  {
    if i + 1 < |path| {
      if !g.HasEdge(path[i], path[i + 1]) {
        HopsTimeline(g, r, path, i + 1, w);
      } else {
        var speed := HopSpeed(g, r, path[i], path[i + 1]);
        var weight := g.weight[(path[i], path[i + 1])];
        assert weight >= 0.0 && speed > 0.0;
        var t := w.time + weight / speed;
        var e := Event(t, Passing(NodeType(g, path[i + 1])), path[i + 1]);
        SettledExtend(w.timeline, w.time, e);
        HopsTimeline(g, r, path, i + 1, w.(time := t, timeline := w.timeline + [e]));
      }
    }
  }

  /** No two landings in a row: every hop is walked at the walking speed. */
  ghost predicate Level(g: Graph, path: seq<string>) {
    forall k | 0 <= k < |path| - 1 :: !(IsStair(g, path[k]) && IsStair(g, path[k + 1]))
  }

  /** Along a walk no hop of which is a stair hop, the hops take the walk's length at the
      walking speed. */
  lemma {:induction false} HopsWalkTime(g: Graph, r: Responder, path: seq<string>, i: nat, w: Walker)
    requires i < |path| && IsWalk(g, path[i..]) && Level(g, path[i..]) && r.walkSpeed != 0.0
    ensures var h := Hops(g, r, path, i, w);
      h.Ok? && h.value.time == w.time + WalkLength(g, path[i..]) / r.walkSpeed
    decreases |path| - i
  {
    if i + 1 < |path| {
      var rest := path[i..];
      assert rest[0] == path[i] && rest[1] == path[i + 1] && rest[1..] == path[i + 1..];
      assert !(IsStair(g, rest[0]) && IsStair(g, rest[1]));
      var weight := g.weight[(path[i], path[i + 1])];
      var t := w.time + weight / r.walkSpeed;
      var next := w.(time := t, timeline := w.timeline + [Event(t, Passing(NodeType(g, path[i + 1])), path[i + 1])]);
      var tail := path[i + 1..];
      assert Level(g, tail) by {
        forall k | 0 <= k < |tail| - 1
          ensures !(IsStair(g, tail[k]) && IsStair(g, tail[k + 1]))
        {
          assert tail[k] == rest[k + 1] && tail[k + 1] == rest[k + 2];
        }
      }
      HopsWalkTime(g, r, path, i + 1, next);
      assert WalkLength(g, rest) == weight + WalkLength(g, path[i + 1..]);
      SplitQuotient(weight, WalkLength(g, path[i + 1..]), r.walkSpeed);
    } else {
      assert path[i..] == [path[i]];
    }
  }

  // ---------------------------------------------------------------------------
  // _execute_node_path as a function

  /** One room of _execute_node_path. `roomIds` are the rooms of the navigation graph's
      building, which decide which locations stand for a room's centre. A room without
      a node path is skipped; otherwise the responder walks the hops, arrives at the
      room's centre (an 'arrive' event at the room without a travel time), the room is
      looked up (KeyError when it is not a room of the building), checked and cleared,
      and becomes the current location. The responder's path is not touched. */
  function NodeVisit(g: Graph, find: PathFinder, roomIds: set<string>, r: Responder, p: Progress, roomId: string)
    : Result<Progress>
    requires g.Valid()
  {
    var route := NodePath(g, find, roomIds, p.at, roomId).0;
    if route == [] then Ok(p)
    else
      match Hops(g, r, route, 0, p.walker)
      case Err(e) => Err(e)
      case Ok(w) =>
        if roomId !in p.rooms.entries then Err(KeyError)
        else
          var room := p.rooms.entries[roomId];
          var check := room.CheckTime(r.baseCheckTime, r.checkRate);
          var done := w.time + check;
          Ok(Progress(roomId,
                      Walker(CenterId(roomId), w.path,
                             w.timeline + [Event(w.time, Arrive(None), roomId), Event(done, CheckComplete(check), roomId)],
                             done, w.checked + [roomId]),
                      Store(p.rooms, roomId, Cleared(room, done, r.id))))
  }

  /** The loop of _execute_node_path over a list of room ids; the first error ends it. */
  function NodeExecute(g: Graph, find: PathFinder, roomIds: set<string>, r: Responder, p: Progress, ids: seq<string>)
    : Result<Progress>
    requires g.Valid()
    decreases |ids|
  {
    if ids == [] then Ok(p)
    else
      match NodeVisit(g, find, roomIds, r, p, ids[0])
      case Err(e) => Err(e)
      case Ok(p') => NodeExecute(g, find, roomIds, r, p', ids[1..])
  }

  lemma {:induction false} NodeExecuteCons(g: Graph, find: PathFinder, roomIds: set<string>, r: Responder, p: Progress,
                                           ids: seq<string>, i: nat)
    requires g.Valid() && i < |ids|
    ensures NodeExecute(g, find, roomIds, r, p, ids[i..])
         == match NodeVisit(g, find, roomIds, r, p, ids[i])
            case Err(e) => Err(e)
            case Ok(p') => NodeExecute(g, find, roomIds, r, p', ids[i + 1..])
  {
    assert ids[i..][0] == ids[i] && ids[i..][1..] == ids[i + 1..];
  }

  // ---------------------------------------------------------------------------
  // Facts about one room

  /** A room without a node path is skipped: nothing changes, and the sweep goes on with
      the next room. */
  lemma {:induction false} NodeVisitSkips(g: Graph, find: PathFinder, roomIds: set<string>, r: Responder, p: Progress,
                                          roomId: string, rest: seq<string>)
    requires g.Valid() && !find(g, LocationNode(roomIds, p.at), LocationNode(roomIds, roomId)).Found?
    ensures NodeVisit(g, find, roomIds, r, p, roomId) == Ok(p)
    ensures NodeExecute(g, find, roomIds, r, p, [roomId] + rest) == NodeExecute(g, find, roomIds, r, p, rest)
  {
    assert ([roomId] + rest)[0] == roomId && ([roomId] + rest)[1..] == rest;
  }

  /** A room with a node path: the visit gets through exactly when the hops do and the
      room is in the building. The responder then stands at the room's centre with its
      path unchanged; its timeline holds the hops' events, then an 'arrive' event at the
      hops' end time and a 'check_complete' event after the check; the room is added to
      its checked list and cleared by it when the check ends. */
  lemma {:induction false} NodeVisitChecks(g: Graph, find: PathFinder, roomIds: set<string>, r: Responder, p: Progress,
                                           roomId: string)
    requires g.Valid() && NodePath(g, find, roomIds, p.at, roomId).0 != []
    ensures var route := NodePath(g, find, roomIds, p.at, roomId).0;
      NodeVisit(g, find, roomIds, r, p, roomId).Ok? <==> Hops(g, r, route, 0, p.walker).Ok? && roomId in p.rooms.entries
    ensures var route := NodePath(g, find, roomIds, p.at, roomId).0;
      var v := NodeVisit(g, find, roomIds, r, p, roomId);
      v.Ok? ==>
        var h, w' := Hops(g, r, route, 0, p.walker).value, v.value.walker;
        var check := p.rooms.entries[roomId].CheckTime(r.baseCheckTime, r.checkRate);
        && v.value.at == roomId && w'.position == CenterId(roomId) && w'.path == p.walker.path
        && w'.time == h.time + check && w'.checked == p.walker.checked + [roomId]
        && w'.timeline == h.timeline + [Event(h.time, Arrive(None), roomId), Event(w'.time, CheckComplete(check), roomId)]
        && v.value.rooms.keys == p.rooms.keys
        && v.value.rooms.entries == p.rooms.entries[roomId := Cleared(p.rooms.entries[roomId], w'.time, r.id)]
  {
    var route := NodePath(g, find, roomIds, p.at, roomId).0;
    HopsKeep(g, r, route, 0, p.walker);
  }

  /** A visit that gets through, written as the steps _execute_node_path takes. */
  lemma {:induction false} NodeVisitFound(g: Graph, find: PathFinder, roomIds: set<string>, r: Responder, p: Progress,
                                          roomId: string, h: Walker, next: Progress)
    requires g.Valid() && p.rooms.Valid() && roomId in p.rooms.entries
    requires NodePath(g, find, roomIds, p.at, roomId).0 != []
    requires Hops(g, r, NodePath(g, find, roomIds, p.at, roomId).0, 0, p.walker) == Ok(h)
    requires var room := p.rooms.entries[roomId];
      var check := room.CheckTime(r.baseCheckTime, r.checkRate);
      && next.at == roomId
      && next.walker == Walker(CenterId(roomId), h.path,
                               (h.timeline + [Event(h.time, Arrive(None), roomId)]) + [Event(h.time + check, CheckComplete(check), roomId)],
                               h.time + check, h.checked + [roomId])
      && next.rooms == p.rooms.Put(roomId, Cleared(room, h.time + check, r.id))
    ensures NodeVisit(g, find, roomIds, r, p, roomId) == Ok(next)
  {
    var room := p.rooms.entries[roomId];
    var check := room.CheckTime(r.baseCheckTime, r.checkRate);
    var arrive, complete := Event(h.time, Arrive(None), roomId), Event(h.time + check, CheckComplete(check), roomId);
    assert (h.timeline + [arrive]) + [complete] == h.timeline + [arrive, complete];
  }

  /** One room adds at most that room to the checked list, and clears what it adds. */
  lemma {:induction false} NodeVisitClears(g: Graph, find: PathFinder, roomIds: set<string>, r: Responder, p: Progress,
                                           roomId: string) returns (step: seq<string>)
    requires g.Valid()
    ensures var v := NodeVisit(g, find, roomIds, r, p, roomId);
      v.Ok? ==>
        && v.value.walker.checked == p.walker.checked + step
        && (step == [] <==> NodePath(g, find, roomIds, p.at, roomId).0 == [])
        && (step == [] || step == [roomId])
        && ClearsChecked(p.rooms, v.value.rooms, step)
  {
    step := [];
    var v := NodeVisit(g, find, roomIds, r, p, roomId);
    ClearsNothing(p.rooms);
    if v.Ok? && NodePath(g, find, roomIds, p.at, roomId).0 != [] {
      NodeVisitChecks(g, find, roomIds, r, p, roomId);
      step := [roomId];
      var room := p.rooms.entries[roomId];
      ClearsOneMore(p.rooms, p.rooms, [], roomId, Cleared(room, v.value.walker.time, r.id));
      assert [] + [roomId] == [roomId];
    }
  }

  /** With positive speeds, no negative weights and sane rooms, a visit never fails on a
      room of the building, keeps the timeline in order and stamped with the current
      time, and never turns the clock back. */
  lemma {:induction false} NodeVisitTimeline(g: Graph, find: PathFinder, roomIds: set<string>, r: Responder, p: Progress,
                                             roomId: string)
    requires g.Valid() && r.Capable() && NonNegativeWeights(g) && SaneRooms(p.rooms)
    requires SettledTimeline(p.walker.timeline, p.walker.time)
    ensures var v := NodeVisit(g, find, roomIds, r, p, roomId);
      && (roomId in p.rooms.entries ==> v.Ok?)
      && (v.Ok? ==>
            && SettledTimeline(v.value.walker.timeline, v.value.walker.time)
            && v.value.walker.time >= p.walker.time
            && SaneRooms(v.value.rooms))
  {
    var route := NodePath(g, find, roomIds, p.at, roomId).0;
    var v := NodeVisit(g, find, roomIds, r, p, roomId);
    if route != [] {
      HopsTimeline(g, r, route, 0, p.walker);
      var h := Hops(g, r, route, 0, p.walker).value;
      if roomId in p.rooms.entries {
        var room := p.rooms.entries[roomId];
        assert room.Sane();
        var check := room.CheckTime(r.baseCheckTime, r.checkRate);
        var arrive := Event(h.time, Arrive(None), roomId);
        var done := Event(h.time + check, CheckComplete(check), roomId);
        SettledExtend(h.timeline, h.time, arrive);
        SettledExtend(h.timeline + [arrive], arrive.time, done);
        assert v.value.walker.timeline == (h.timeline + [arrive]) + [done];
        forall k | k in v.value.rooms.entries ensures v.value.rooms.entries[k].Sane() {
          if k != roomId {
            assert v.value.rooms.entries[k] == p.rooms.entries[k];
          }
        }
      }
    }
  }

  /** When the shortest path function is correct and no hop of the route is between two
      landings, the responder reaches the room's centre after the shortest distance at
      its walking speed. */
  lemma {:induction false} NodeVisitWalkTime(g: Graph, find: PathFinder, roomIds: set<string>, r: Responder, p: Progress,
                                             roomId: string)
    requires g.Valid() && NonNegativeWeights(g) && IsShortestPathFinder(find) && r.walkSpeed != 0.0
    requires var route := NodePath(g, find, roomIds, p.at, roomId).0;
      route != [] && Level(g, route)
    ensures var s, t := LocationNode(roomIds, p.at), LocationNode(roomIds, roomId);
      var v := NodeVisit(g, find, roomIds, r, p, roomId);
      && find(g, s, t).Found?
      && (v.Ok? ==> v.value.walker.timeline[|v.value.walker.timeline| - 2]
                      == Event(p.walker.time + find(g, s, t).length / r.walkSpeed, Arrive(None), roomId))
  {
    var s, t := LocationNode(roomIds, p.at), LocationNode(roomIds, roomId);
    var route := NodePath(g, find, roomIds, p.at, roomId).0;
    assert CorrectAnswer(g, s, t, find(g, s, t));
    assert route == find(g, s, t).path;
    assert route[0..] == route;
    HopsWalkTime(g, r, route, 0, p.walker);
  }

  // ---------------------------------------------------------------------------
  // Facts about a whole list

  /** The sweep adds to the checked list only rooms of its list, at most one entry per
      list entry, and it clears exactly the rooms it adds. */
  lemma {:induction false} NodeExecuteClears(g: Graph, find: PathFinder, roomIds: set<string>, r: Responder, p: Progress,
                                             ids: seq<string>) returns (added: seq<string>)
    requires g.Valid()
    ensures var q := NodeExecute(g, find, roomIds, r, p, ids);
      q.Ok? ==>
        && q.value.walker.checked == p.walker.checked + added
        && |added| <= |ids| && (forall x | x in added :: x in ids)
        && ClearsChecked(p.rooms, q.value.rooms, added)
    decreases |ids|
  {
    added := [];
    if ids == [] {
      ClearsNothing(p.rooms);
      assert p.walker.checked + [] == p.walker.checked;
    } else {
      var v := NodeVisit(g, find, roomIds, r, p, ids[0]);
      if v.Ok? {
        var step := NodeVisitClears(g, find, roomIds, r, p, ids[0]);
        var more := NodeExecuteClears(g, find, roomIds, r, v.value, ids[1..]);
        added := step + more;
        var q := NodeExecute(g, find, roomIds, r, v.value, ids[1..]);
        if q.Ok? {
          JoinClears(p, v.value, q.value, ids, step, more);
        }
      }
    }
  }

  /** When every two locations are joined, the sweep checks its whole list in order. */
  lemma {:induction false} NodeExecuteVisitsAll(g: Graph, find: PathFinder, roomIds: set<string>, r: Responder, p: Progress,
                                                ids: seq<string>)
    requires g.Valid() && Joined(g, find)
    ensures var q := NodeExecute(g, find, roomIds, r, p, ids);
      q.Ok? ==> q.value.walker.checked == p.walker.checked + ids
    decreases |ids|
  {
    if ids != [] {
      var v := NodeVisit(g, find, roomIds, r, p, ids[0]);
      if v.Ok? {
        var s, t := LocationNode(roomIds, p.at), LocationNode(roomIds, ids[0]);
        assert find(g, s, t).Found? && EndsAt(g, find(g, s, t).path, t);
        assert NodePath(g, find, roomIds, p.at, ids[0]).0 != [];
        var step := NodeVisitClears(g, find, roomIds, r, p, ids[0]);
        NodeExecuteVisitsAll(g, find, roomIds, r, v.value, ids[1..]);
        assert (p.walker.checked + [ids[0]]) + ids[1..] == p.walker.checked + ids;
      }
    }
  }

  /** With positive speeds, no negative weights and sane rooms, the sweep fails only on an
      id that is not a room, keeps the timeline in order and stamped with the current
      time, and never turns the clock back. */
  lemma {:induction false} NodeExecuteTimeline(g: Graph, find: PathFinder, roomIds: set<string>, r: Responder, p: Progress,
                                               ids: seq<string>)
    requires g.Valid() && r.Capable() && NonNegativeWeights(g) && SaneRooms(p.rooms)
    requires SettledTimeline(p.walker.timeline, p.walker.time)
    ensures var q := NodeExecute(g, find, roomIds, r, p, ids);
      && ((forall k | 0 <= k < |ids| :: ids[k] in p.rooms.entries) ==> q.Ok?)
      && (q.Ok? ==> SettledTimeline(q.value.walker.timeline, q.value.walker.time) && q.value.walker.time >= p.walker.time)
    decreases |ids|
  {
    if ids != [] {
      var v := NodeVisit(g, find, roomIds, r, p, ids[0]);
      NodeVisitTimeline(g, find, roomIds, r, p, ids[0]);
      if v.Ok? {
        var step := NodeVisitClears(g, find, roomIds, r, p, ids[0]);
        assert v.value.rooms.entries.Keys == p.rooms.entries.Keys;
        assert forall k | 0 <= k < |ids[1..]| :: ids[1..][k] == ids[k + 1];
        NodeExecuteTimeline(g, find, roomIds, r, v.value, ids[1..]);
      }
    }
  }

  /** The node sweep never changes the responder's path. */
  lemma {:induction false} NodeExecuteKeepsPath(g: Graph, find: PathFinder, roomIds: set<string>, r: Responder, p: Progress,
                                                ids: seq<string>)
    requires g.Valid()
    ensures var q := NodeExecute(g, find, roomIds, r, p, ids);
      q.Ok? ==> q.value.walker.path == p.walker.path
    decreases |ids|
  {
    if ids != [] {
      var v := NodeVisit(g, find, roomIds, r, p, ids[0]);
      if v.Ok? {
        var route := NodePath(g, find, roomIds, p.at, ids[0]).0;
        if route != [] {
          NodeVisitChecks(g, find, roomIds, r, p, ids[0]);
        }
        NodeExecuteKeepsPath(g, find, roomIds, r, v.value, ids[1..]);
      }
    }
  }

  // ---------------------------------------------------------------------------
  // The rebuilt node path

  /** The reconstruction loop: the node path from the start to each checked room in turn,
      joined end to end; a room without a path is left out and the next leg starts from
      the last room reached. Every node is a node of the graph, with its position. */
  function Trail(g: Graph, find: PathFinder, roomIds: set<string>, start: string, ids: seq<string>)
    : (t: (seq<string>, seq<Point>))
    requires g.Valid()
    ensures |t.0| == |t.1|
    ensures forall i | 0 <= i < |t.0| :: t.0[i] in g.nodes.entries && t.1[i] == g.nodes.entries[t.0[i]].position
    decreases |ids|
  {
    if ids == [] then ([], [])
    else
      var leg := NodePath(g, find, roomIds, start, ids[0]);
      if leg.0 != [] then
        var rest := Trail(g, find, roomIds, ids[0], ids[1..]);
        (leg.0 + rest.0, leg.1 + rest.1)
      else Trail(g, find, roomIds, start, ids[1..])
  }

  lemma {:induction false} TrailCons(g: Graph, find: PathFinder, roomIds: set<string>, start: string, ids: seq<string>, i: nat)
    requires g.Valid() && i < |ids|
    ensures var leg := NodePath(g, find, roomIds, start, ids[i]);
      Trail(g, find, roomIds, start, ids[i..])
        == if leg.0 != [] then
             (leg.0 + Trail(g, find, roomIds, ids[i], ids[i + 1..]).0, leg.1 + Trail(g, find, roomIds, ids[i], ids[i + 1..]).1)
           else Trail(g, find, roomIds, start, ids[i + 1..])
  {
    assert ids[i..][0] == ids[i] && ids[i..][1..] == ids[i + 1..];
  }

  /** One step of the loop that rebuilds a node path: what is built so far followed by
      the rest of the trail. */
  lemma {:induction false} TrailGrows(g: Graph, find: PathFinder, roomIds: set<string>, full: seq<string>, positions: seq<Point>,
                                      start: string, ids: seq<string>, i: nat)
    requires g.Valid() && i < |ids|
    ensures var leg := NodePath(g, find, roomIds, start, ids[i]);
      var t := Trail(g, find, roomIds, start, ids[i..]);
      if leg.0 != [] then
        var rest := Trail(g, find, roomIds, ids[i], ids[i + 1..]);
        full + t.0 == (full + leg.0) + rest.0 && positions + t.1 == (positions + leg.1) + rest.1
      else
        var rest := Trail(g, find, roomIds, start, ids[i + 1..]);
        full + t.0 == full + rest.0 && positions + t.1 == positions + rest.1
  {
    TrailCons(g, find, roomIds, start, ids, i);
    var leg := NodePath(g, find, roomIds, start, ids[i]);
    if leg.0 != [] {
      var rest := Trail(g, find, roomIds, ids[i], ids[i + 1..]);
      assert full + (leg.0 + rest.0) == (full + leg.0) + rest.0;
      assert positions + (leg.1 + rest.1) == (positions + leg.1) + rest.1;
    }
  }

  /** Between every two locations a path is found, and it ends at the target and keeps to
      the graph. */
  ghost predicate Joined(g: Graph, find: PathFinder) {
    forall a, b :: find(g, a, b).Found? && EndsAt(g, find(g, a, b).path, b)
  }

  ghost predicate EndsAt(g: Graph, p: seq<string>, b: string) {
    p != [] && p[|p| - 1] == b && forall n | n in p :: n in g.nodes.entries
  }

  /** A correct shortest path function on a graph where a path is found between every two
      locations. */
  lemma {:induction false} JoinedByFinder(g: Graph, find: PathFinder)
    requires g.Valid() && NonNegativeWeights(g) && IsShortestPathFinder(find)
    requires forall a, b :: find(g, a, b).Found?
    ensures Joined(g, find)
  {
    forall a, b ensures find(g, a, b).Found? && EndsAt(g, find(g, a, b).path, b) {
      FoundPathFacts(find, g, a, b);
    }
  }

  /** When every two locations are joined, the rebuilt path is the node path from the
      start to the first checked room followed by the rebuilt path from there, and it
      ends at the centre of the last checked room. */
  lemma {:induction false} TrailLegs(g: Graph, find: PathFinder, roomIds: set<string>, start: string, ids: seq<string>)
    requires g.Valid() && Joined(g, find)
    ensures var t := Trail(g, find, roomIds, start, ids).0;
      ids != [] ==>
        && t == find(g, LocationNode(roomIds, start), LocationNode(roomIds, ids[0])).path + Trail(g, find, roomIds, ids[0], ids[1..]).0
        && t != [] && t[|t| - 1] == LocationNode(roomIds, ids[|ids| - 1])
    decreases |ids|
  {
    if ids != [] {
      var s, e := LocationNode(roomIds, start), LocationNode(roomIds, ids[0]);
      assert find(g, s, e).Found? && EndsAt(g, find(g, s, e).path, e);
      var leg := NodePath(g, find, roomIds, start, ids[0]);
      assert leg.0 == find(g, s, e).path;
      var rest := Trail(g, find, roomIds, ids[0], ids[1..]).0;
      var t := leg.0 + rest;
      assert Trail(g, find, roomIds, start, ids).0 == t;
      if ids[1..] == [] {
        assert t == leg.0 && ids[|ids| - 1] == ids[0];
      } else {
        TrailLegs(g, find, roomIds, ids[0], ids[1..]);
        LastOfRest(ids);
        assert t[|t| - 1] == rest[|rest| - 1];
      }
    }
  }

  lemma {:induction false} LastOfRest(ids: seq<string>)
    requires |ids| >= 2
    ensures ids[1..][|ids[1..]| - 1] == ids[|ids| - 1]
  {
  }

  // ---------------------------------------------------------------------------
  // _collect_results

  /** responder_paths: the path, the rebuilt node path and its positions, the timeline,
      the time, the checked rooms and the distance estimate. */
  function NodeReports(rs: seq<Responder>, ws: seq<Walker>, trails: seq<(seq<string>, seq<Point>)>): (reports: seq<Report>)
    requires |ws| == |rs| && |trails| == |rs|
    ensures |reports| == |rs|
    ensures forall i | 0 <= i < |rs| :: reports[i].detail == Some(trails[i])
                                     && reports[i].totalDistance == ws[i].time * rs[i].walkSpeed
  {
    seq(|ws|, i requires 0 <= i < |ws| => NodeReportFor(rs[i], ws[i], trails[i]))
  }

  /** One entry of responder_paths. */
  function NodeReportFor(r: Responder, w: Walker, trail: (seq<string>, seq<Point>)): Report {
    Report(r.id, w.path, w.timeline, w.time, w.checked, w.time * r.walkSpeed, Some(trail))
  }

  /** _collect_results: max() of an empty team raises; nothing else can fail, an empty
      building included (no room is counted and the redundancy is the constant 0). */
  function NodeCollect(rs: seq<Responder>, ws: seq<Walker>, trails: seq<(seq<string>, seq<Point>)>, rooms: Dict<Room>,
                       std: seq<real> -> real): (r: Result<Results>)
    requires |ws| == |rs| && |trails| == |rs| && rooms.Valid()
    ensures r.Err? <==> rs == []
    ensures r.Err? ==> r.error == EmptyMax
  {
    match Max(Times(ws))
    case Err(e) => Err(e)
    case Ok(total) =>
      var cleared := AllCleared(rooms);
      Ok(Results(cleared, total, NodeReports(rs, ws, trails), ClearanceTable(rooms),
                 Metrics(cleared, AverageClearance(rooms), LoadBalance(Times(ws), std, true), 0.0,
                         Sum(Estimates(rs, ws)), |rs|, |rooms.keys|)))
  }

  /** What the results say: success exactly when every room is cleared, the total time
      is the latest responder's, every report carries its rebuilt node path, the load
      balance is always a number (1.0 when the mean time is not positive), the
      redundancy is 0 and the distance is the sum of the estimates. */
  lemma {:induction false} NodeCollectMeaning(rs: seq<Responder>, ws: seq<Walker>, trails: seq<(seq<string>, seq<Point>)>,
                                              rooms: Dict<Room>, std: seq<real> -> real)
    requires |ws| == |rs| && |trails| == |rs| && rooms.Valid()
    ensures var r := NodeCollect(rs, ws, trails, rooms, std);
      r.Ok? ==>
        && (r.value.success <==> forall k | k in rooms.entries :: rooms.entries[k].cleared)
        && r.value.success == r.value.metrics.allRoomsCleared
        && (forall i | 0 <= i < |ws| :: ws[i].time <= r.value.totalTime)
        && (exists i | 0 <= i < |ws| :: ws[i].time == r.value.totalTime)
        && (forall i | 0 <= i < |rs| :: r.value.responderPaths[i].detail == Some(trails[i])
                                     && r.value.responderPaths[i].totalDistance == ws[i].time * rs[i].walkSpeed)
        && r.value.metrics.loadBalance.Some?
        && (Mean(Times(ws)) <= 0.0 ==> r.value.metrics.loadBalance == Some(1.0))
        && r.value.metrics.redundancyCoverage == 0.0
        && r.value.metrics.totalDistanceTraveled == Sum(Estimates(rs, ws))
        && r.value.metrics.nResponders == |rs| && r.value.metrics.nRooms == |rooms.keys|
  {
    var r := NodeCollect(rs, ws, trails, rooms, std);
    if r.Ok? {
      var total := Max(Times(ws)).value;
      assert total in Times(ws);
    }
  }

  lemma {:induction false} ReportDistancesAre(rs: seq<Responder>, ws: seq<Walker>, trails: seq<(seq<string>, seq<Point>)>)
    requires |ws| == |rs| && |trails| == |rs|
    ensures ReportDistances(NodeReports(rs, ws, trails)) == Estimates(rs, ws)
  {
  }

  // ---------------------------------------------------------------------------
  // The responders' rebuilt node paths

  /** detailed_path_nodes and detailed_path_positions of a responder. */
  ghost function TrailOf(r: Responder): (seq<string>, seq<Point>)
    reads r
  {
    (r.detailedPathNodes, r.detailedPathPositions)
  }

  ghost function TrailsOf(rs: seq<Responder>): (ts: seq<(seq<string>, seq<Point>)>)
    reads set r | r in rs
    ensures |ts| == |rs| && forall i | 0 <= i < |rs| :: ts[i] == TrailOf(rs[i])
  {
    if rs == [] then [] else [TrailOf(rs[0])] + TrailsOf(rs[1..])
  }

  /** The rebuilt node path of every responder, from its start through the rooms it
      checked. */
  function Trails(g: Graph, find: PathFinder, roomIds: set<string>, rs: seq<Responder>, ws: seq<Walker>)
    : (ts: seq<(seq<string>, seq<Point>)>)
    requires g.Valid() && |ws| == |rs|
    ensures |ts| == |rs| && forall i | 0 <= i < |rs| :: ts[i] == Trail(g, find, roomIds, rs[i].initialPosition, ws[i].checked)
  {
    seq(|ws|, i requires 0 <= i < |ws| => Trail(g, find, roomIds, rs[i].initialPosition, ws[i].checked))
  }

  lemma {:induction false} TrailsAre(g: Graph, find: PathFinder, roomIds: set<string>, rs: seq<Responder>, ws: seq<Walker>)
    requires g.Valid() && |ws| == |rs|
    requires forall j | 0 <= j < |rs| :: TrailOf(rs[j]) == Trail(g, find, roomIds, rs[j].initialPosition, ws[j].checked)
    ensures TrailsOf(rs) == Trails(g, find, roomIds, rs, ws)
  {
  }

  /** A responder whose sweep ended in `w`, its node path rebuilt through the rooms it
      checked. */
  ghost predicate Finished(g: Graph, find: PathFinder, roomIds: set<string>, r: Responder, w: Walker)
    requires g.Valid()
    reads r
  {
    StateOf(r) == w && TrailOf(r) == Trail(g, find, roomIds, r.initialPosition, w.checked)
  }

  /** The loop that builds responder_paths. */
  method ReportAll(rs: seq<Responder>) returns (reports: seq<Report>)
    ensures reports == NodeReports(rs, StatesOf(rs), TrailsOf(rs))
  {
    ghost var ws, ts := StatesOf(rs), TrailsOf(rs);
    reports := [];
    var i := 0;
    while i < |rs|
      invariant 0 <= i <= |rs| && |reports| == i
      invariant forall j | 0 <= j < i :: reports[j] == NodeReportFor(rs[j], ws[j], ts[j])
    {
      var r := rs[i];
      reports := reports + [Report(r.id, r.path, r.timeline, r.currentTime, r.roomsChecked, r.currentTime * r.walkSpeed,
                                   Some((r.detailedPathNodes, r.detailedPathPositions)))];
      i := i + 1;
    }
  }

  // ---------------------------------------------------------------------------
  // NodeSimulator

  class NodeSimulator {
    const building: Building
    /** The navigation graph, with the building it was made from. */
    const nodes: NodeBasedBuilding
    const team: ResponderTeam
    /** responder id -> room ids */
    const assignment: map<int, seq<string>>

    ghost predicate Valid()
      reads this, building
    {
      building.Valid() && team.Numbered() && nodes.graph.Valid()
    }

    constructor (building: Building, nodes: NodeBasedBuilding, team: ResponderTeam, assignment: map<int, seq<string>>)
      requires building.Valid() && team.Numbered() && nodes.graph.Valid()
      ensures Valid()
      ensures this.building == building && this.nodes == nodes && this.team == team && this.assignment == assignment
    {
      this.building := building;
      this.nodes := nodes;
      this.team := team;
      this.assignment := assignment;
    }

    /** The ids of the rooms of the navigation graph's building: the locations that stand
        for a room's centre. */
    ghost function RoomIds(): set<string>
      reads nodes.building
    {
      nodes.building.rooms.entries.Keys
    }

    /** One responder's sweep from the state reset() leaves. */
    function Executor(roomIds: set<string>): Exec
      requires nodes.graph.Valid()
    {
      (r: Responder, d: Dict<Room>, ids: seq<string>) =>
        NodeExecute(nodes.graph, nodes.find, roomIds, r, Progress(r.initialPosition, StartOf(r), d), ids)
    }

    /** Every sweep the executor performs clears what it checks. */
    lemma {:induction false} ExecutorClears(roomIds: set<string>)
      requires nodes.graph.Valid()
      ensures ClearsWhatItChecks(Executor(roomIds), team.responders)
    {
      forall i, d: Dict<Room>, ids: seq<string> | 0 <= i < |team.responders| && Executor(roomIds)(team.responders[i], d, ids).Ok?
        ensures ClearsChecked(d, Executor(roomIds)(team.responders[i], d, ids).value.rooms,
                              Executor(roomIds)(team.responders[i], d, ids).value.walker.checked)
      {
        var r := team.responders[i];
        var added := NodeExecuteClears(nodes.graph, nodes.find, roomIds, r, Progress(r.initialPosition, StartOf(r), d), ids);
        assert [] + added == added;
      }
    }

    /** What run() returns, as a function of the rooms before it and the room ids of the
        navigation graph's building. */
    ghost function Outcome(rooms: Dict<Room>, roomIds: set<string>, std: seq<real> -> real): Result<Results>
      requires rooms.Valid() && nodes.graph.Valid()
    {
      var run := RunTeam(Executor(roomIds), team.responders, assignment, ResetRooms(rooms));
      ExecutorClears(roomIds);
      RunTeamClears(Executor(roomIds), team.responders, assignment, ResetRooms(rooms));
      match run
      case Err(e) => Err(e)
      case Ok((ws, fin)) =>
        assert fin.Valid();
        NodeCollect(team.responders, ws, Trails(nodes.graph, nodes.find, roomIds, team.responders, ws), fin, std)
    }

    lemma {:induction false} OutcomeOfRun(rooms: Dict<Room>, roomIds: set<string>, std: seq<real> -> real)
      requires rooms.Valid() && nodes.graph.Valid()
      ensures var run := RunTeam(Executor(roomIds), team.responders, assignment, ResetRooms(rooms));
        && (run.Err? ==> Outcome(rooms, roomIds, std) == Err(run.error))
        && (run.Ok? ==> run.value.1.Valid()
                        && Outcome(rooms, roomIds, std)
                           == NodeCollect(team.responders, run.value.0,
                                          Trails(nodes.graph, nodes.find, roomIds, team.responders, run.value.0), run.value.1, std))
    {
      ExecutorClears(roomIds);
      RunTeamClears(Executor(roomIds), team.responders, assignment, ResetRooms(rooms));
    }

    /** run(): it fails when a responder's id is missing from the assignment or on an
        empty team; when it finishes, success means that every room was checked by some
        responder, and each report carries the node path rebuilt through the rooms its
        responder checked. */
    lemma {:induction false} OutcomeMeaning(rooms: Dict<Room>, roomIds: set<string>, std: seq<real> -> real)
      requires rooms.Valid() && nodes.graph.Valid()
      ensures var run := RunTeam(Executor(roomIds), team.responders, assignment, ResetRooms(rooms));
        var o := Outcome(rooms, roomIds, std);
        && (run.Ok? ==> forall i | 0 <= i < |team.responders| :: team.responders[i].id in assignment)
        && (o.Err? <==> run.Err? || team.responders == [])
        && (o.Ok? ==>
              && (o.value.success <==>
                    forall k | k in rooms.entries :: exists i | 0 <= i < |run.value.0| :: k in run.value.0[i].checked)
              && (forall i | 0 <= i < |team.responders| ::
                    o.value.responderPaths[i].detail
                      == Some(Trail(nodes.graph, nodes.find, roomIds, team.responders[i].initialPosition, run.value.0[i].checked)))
              && o.value.metrics.loadBalance.Some? && o.value.metrics.redundancyCoverage == 0.0)
    {
      var start := ResetRooms(rooms);
      var run := RunTeam(Executor(roomIds), team.responders, assignment, start);
      ExecutorClears(roomIds);
      OutcomeOfRun(rooms, roomIds, std);
      RunTeamNeedsIds(Executor(roomIds), team.responders, assignment, start);
      RunTeamClears(Executor(roomIds), team.responders, assignment, start);
      if run.Ok? {
        var ws, fin := run.value.0, run.value.1;
        ClearedByRun(rooms, fin, ws);
        NodeCollectMeaning(team.responders, ws, Trails(nodes.graph, nodes.find, roomIds, team.responders, ws), fin, std);
      }
    }

    /** The hop loop of _execute_node_path along one node path. */
    method WalkRoute(responder: Responder, route: seq<string>) returns (r: Result<()>)
      modifies responder`currentTime, responder`timeline
      ensures var h := Hops(nodes.graph, responder, route, 0, old(StateOf(responder)));
        && (r.Ok? <==> h.Ok?) && (r.Err? ==> r.error == h.error)
        && (r.Ok? ==> StateOf(responder) == h.value)
    {
      var g := nodes.graph;
      ghost var start := StateOf(responder);
      var i := 0;
      while i + 1 < |route|
        invariant i <= |route|
        invariant Hops(g, responder, route, 0, start) == Hops(g, responder, route, i, StateOf(responder))
      {
        var from, to := route[i], route[i + 1];
        if g.HasEdge(from, to) {
          var weight := g.weight[(from, to)];
          var speed := responder.walkSpeed;
          if IsStair(g, from) && IsStair(g, to) {
            if g.nodes.entries[to].floor > g.nodes.entries[from].floor {
              speed := responder.stairUpSpeed;
            } else {
              speed := responder.stairDownSpeed;
            }
          }
          assert speed == HopSpeed(g, responder, from, to);
          if speed == 0.0 {
            return Err(ZeroDivision);
          }
          responder.currentTime := responder.currentTime + weight / speed;
          responder.timeline := responder.timeline + [Event(responder.currentTime, Passing(NodeType(g, to)), to)];
        }
        i := i + 1;
      }
      return Ok(());
    }

    /** One iteration of _execute_node_path's loop over the rooms, from the state `p`
        describes. */
    method VisitRoom(responder: Responder, current: string, roomId: string, ghost p: Progress, ghost roomIds: set<string>)
      returns (r: Result<string>)
      requires building.Valid() && nodes.graph.Valid() && RoomIds() == roomIds
      requires p == Progress(current, StateOf(responder), building.rooms)
      modifies responder`position, responder`currentTime, responder`timeline, responder`roomsChecked, building`rooms
      ensures building.Valid() && building.rooms.entries.Keys == old(building.rooms.entries.Keys) && RoomIds() == roomIds
      ensures var v := NodeVisit(nodes.graph, nodes.find, roomIds, responder, p, roomId);
        && (r.Ok? <==> v.Ok?) && (r.Err? ==> r.error == v.error)
        && (r.Ok? ==> v.value == Progress(r.value, StateOf(responder), building.rooms))
    {
      var route := nodes.GetShortestPath(current, roomId);
      assert route == NodePath(nodes.graph, nodes.find, roomIds, current, roomId);
      if route.0 == [] {
        return Ok(current);
      }
      var walked := WalkRoute(responder, route.0);
      if walked.Err? {
        return Err(walked.error);
      }
      ghost var h := StateOf(responder);
      HopsKeep(nodes.graph, responder, route.0, 0, p.walker);
      if roomId !in building.rooms.entries {
        responder.position := CenterId(roomId);
        responder.timeline := responder.timeline + [Event(responder.currentTime, Arrive(None), roomId)];
        return Err(KeyError);
      }
      ArriveAndCheck(responder, roomId);
      NodeVisitFound(nodes.graph, nodes.find, roomIds, responder, p, roomId, h, Progress(roomId, StateOf(responder), building.rooms));
      return Ok(roomId);
    }

    /** The end of one iteration: the responder arrives at the room's centre, checks the
        room and clears it. */
    method ArriveAndCheck(responder: Responder, roomId: string)
      requires building.Valid() && roomId in building.rooms.entries
      modifies responder`position, responder`currentTime, responder`timeline, responder`roomsChecked, building`rooms
      ensures building.Valid() && building.rooms.entries.Keys == old(building.rooms.entries.Keys)
      ensures var room, w := old(building.rooms.entries[roomId]), old(StateOf(responder));
        var check := room.CheckTime(responder.baseCheckTime, responder.checkRate);
        && StateOf(responder)
           == Walker(CenterId(roomId), w.path,
                     (w.timeline + [Event(w.time, Arrive(None), roomId)]) + [Event(w.time + check, CheckComplete(check), roomId)],
                     w.time + check, w.checked + [roomId])
        && building.rooms == old(building.rooms).Put(roomId, Cleared(room, w.time + check, responder.id))
    {
      responder.position := CenterId(roomId);
      responder.timeline := responder.timeline + [Event(responder.currentTime, Arrive(None), roomId)];
      var room := building.rooms.entries[roomId];
      assert room.id == roomId;
      var check := room.CheckTime(responder.baseCheckTime, responder.checkRate);
      responder.currentTime := responder.currentTime + check;
      building.AddRoom(Cleared(room, responder.currentTime, responder.id));
      responder.roomsChecked := responder.roomsChecked + [roomId];
      responder.timeline := responder.timeline + [Event(responder.currentTime, CheckComplete(check), roomId)];
    }

    /** The reconstruction loop at the end of _execute_node_path. */
    method RebuildTrail(responder: Responder, ghost roomIds: set<string>)
      requires nodes.graph.Valid() && RoomIds() == roomIds
      modifies responder`detailedPathNodes, responder`detailedPathPositions
      ensures TrailOf(responder) == Trail(nodes.graph, nodes.find, roomIds, responder.initialPosition, responder.roomsChecked)
    {
      var g, checked := nodes.graph, responder.roomsChecked;
      ghost var whole := Trail(g, nodes.find, roomIds, responder.initialPosition, checked);
      var full: seq<string>, fullPositions: seq<Point> := [], [];
      var start := responder.initialPosition;
      assert checked[0..] == checked;
      assert [] + whole.0 == whole.0 && [] + whole.1 == whole.1;
      var i := 0;
      while i < |checked|
        invariant 0 <= i <= |checked|
        invariant whole.0 == full + Trail(g, nodes.find, roomIds, start, checked[i..]).0
        invariant whole.1 == fullPositions + Trail(g, nodes.find, roomIds, start, checked[i..]).1
      {
        TrailGrows(g, nodes.find, roomIds, full, fullPositions, start, checked, i);
        var leg := nodes.GetShortestPath(start, checked[i]);
        if leg.0 != [] {
          full, fullPositions := full + leg.0, fullPositions + leg.1;
          start := checked[i];
        }
        i := i + 1;
      }
      assert checked[i..] == [];
      assert full + [] == full && fullPositions + [] == fullPositions;
      responder.detailedPathNodes := full;
      responder.detailedPathPositions := fullPositions;
    }

    /** _execute_node_path: the rooms in order, then the rebuilt node path. */
    method ExecuteNodePath(responder: Responder, roomIds: seq<string>, ghost names: set<string>) returns (r: Result<()>)
      requires building.Valid() && nodes.graph.Valid() && RoomIds() == names
      modifies responder, building`rooms
      ensures building.Valid() && RoomIds() == names
      ensures var q := NodeExecute(nodes.graph, nodes.find, names, responder,
                                   Progress(old(responder.position), old(StateOf(responder)), old(building.rooms)), roomIds);
        && (r.Ok? <==> q.Ok?) && (r.Err? ==> r.error == q.error)
        && (r.Ok? ==> StateOf(responder) == q.value.walker && building.rooms == q.value.rooms)
        && (r.Ok? ==> TrailOf(responder) == Trail(nodes.graph, nodes.find, names, responder.initialPosition, responder.roomsChecked))
    {
      var current := responder.position;
      ghost var p := Progress(current, StateOf(responder), building.rooms);
      ghost var start := p;
      assert roomIds[0..] == roomIds;
      var i := 0;
      while i < |roomIds|
        invariant 0 <= i <= |roomIds|
        invariant building.Valid() && RoomIds() == names
        invariant p == Progress(current, StateOf(responder), building.rooms)
        invariant NodeExecute(nodes.graph, nodes.find, names, responder, start, roomIds)
               == NodeExecute(nodes.graph, nodes.find, names, responder, p, roomIds[i..])
      {
        NodeExecuteCons(nodes.graph, nodes.find, names, responder, p, roomIds, i);
        var res := VisitRoom(responder, current, roomIds[i], p, names);
        if res.Err? {
          return Err(res.error);
        }
        current := res.value;
        p := NodeVisit(nodes.graph, nodes.find, names, responder, p, roomIds[i]).value;
        i := i + 1;
      }
      RebuildTrail(responder, names);
      return Ok(());
    }

    /** What the sweep has done after the first `i` responders: their states are `done`
        and their rebuilt node paths go through the rooms they checked, the others are
        still in their start state, and what is left of the run continues from the
        current rooms. */
    ghost predicate SweptUpTo(i: nat, done: seq<Walker>, rooms0: Dict<Room>, names: set<string>)
      reads this, building, nodes.building, set x | x in team.responders
    {
      var rs, g := team.responders, nodes.graph;
      && g.Valid() && i <= |rs| && |done| == i
      && building.Valid() && RoomIds() == names
      && (forall j | 0 <= j < i :: Finished(g, nodes.find, names, rs[j], done[j]))
      && (forall j | i <= j < |rs| :: rs[j].AtStart())
      && RunTeam(Executor(names), rs, assignment, rooms0) == Prepend(done, RunTeam(Executor(names), rs[i..], assignment, building.rooms))
    }

    /** One responder's turn in run(): its rooms are looked up in the assignment (KeyError
        when its id is missing) and swept from the start state. */
    method SweepOne(i: nat, ghost done: seq<Walker>, ghost rooms0: Dict<Room>, ghost names: set<string>)
      returns (res: Result<()>, ghost done': seq<Walker>)
      requires Valid() && i < |team.responders| && SweptUpTo(i, done, rooms0, names)
      modifies building`rooms, team.responders[i]
      ensures building.Valid() && RoomIds() == names
      ensures res.Err? ==> RunTeam(Executor(names), team.responders, assignment, rooms0) == Err(res.error)
      ensures res.Ok? ==> SweptUpTo(i + 1, done', rooms0, names)
    {
      var rs := team.responders;
      assert forall j | 0 <= j < |rs| :: rs[j].id == j + 1;
      var responder := rs[i];
      assert rs[i..][0] == responder && rs[i..][1..] == rs[i + 1..];
      if responder.id !in assignment {
        return Err(KeyError), done;
      }
      StartState(responder);
      res := ExecutePath(responder, assignment[responder.id], names);
      done' := done + [StateOf(responder)];
      if res.Ok? {
        PrependTwice(done, [StateOf(responder)], RunTeam(Executor(names), rs[i + 1..], assignment, building.rooms));
      }
    }

    /** ExecuteNodePath for the responder at index i of the team. */
    method ExecutePath(responder: Responder, roomIds: seq<string>, ghost names: set<string>) returns (r: Result<()>)
      requires building.Valid() && nodes.graph.Valid() && RoomIds() == names
      modifies responder, building`rooms
      ensures building.Valid() && RoomIds() == names
      ensures var q := Executor(names)(responder, old(building.rooms), roomIds);
        old(StateOf(responder)) == StartOf(responder) && old(responder.position) == responder.initialPosition ==>
          && (r.Ok? <==> q.Ok?) && (r.Err? ==> r.error == q.error)
          && (r.Ok? ==> StateOf(responder) == q.value.walker && building.rooms == q.value.rooms
                        && TrailOf(responder) == Trail(nodes.graph, nodes.find, names, responder.initialPosition, q.value.walker.checked))
    {
      r := ExecuteNodePath(responder, roomIds, names);
    }

    /** The loop of run() over the team, every responder in its start state. */
    method SweepAll(ghost names: set<string>) returns (res: Result<()>)
      requires Valid() && RoomIds() == names
      requires forall j | 0 <= j < |team.responders| :: team.responders[j].AtStart()
      modifies building`rooms, set x | x in team.responders
      ensures building.Valid() && RoomIds() == names
      ensures var run := RunTeam(Executor(names), team.responders, assignment, old(building.rooms));
        && (res.Ok? <==> run.Ok?) && (res.Err? ==> res.error == run.error)
        && (res.Ok? ==> building.rooms == run.value.1 && StatesOf(team.responders) == run.value.0
                        && TrailsOf(team.responders) == Trails(nodes.graph, nodes.find, names, team.responders, run.value.0))
    {
      var rs := team.responders;
      ghost var rooms0 := building.rooms;
      ghost var done: seq<Walker> := [];
      assert rs[0..] == rs;
      PrependNothing(RunTeam(Executor(names), rs, assignment, rooms0));
      var i := 0;
      while i < |rs|
        invariant SweptUpTo(i, done, rooms0, names)
      {
        res, done := SweepOne(i, done, rooms0, names);
        if res.Err? {
          return;
        }
        i := i + 1;
      }
      assert rs[i..] == [];
      assert done + [] == done;
      StatesAre(rs, done);
      TrailsAre(nodes.graph, nodes.find, names, rs, done);
      return Ok(());
    }

    /** The two resets run() starts with: every room uncleared, every responder back at
        its start. */
    method ResetForRun()
      requires Valid()
      modifies building`rooms, set x | x in team.responders
      ensures building.Valid() && building.rooms == ResetRooms(old(building.rooms))
      ensures RoomIds() == old(RoomIds())
      ensures forall j | 0 <= j < |team.responders| :: team.responders[j].AtStart()
    {
      ghost var orig := building.rooms;
      building.ResetClearance();
      team.ResetAll();
      ResetRoomsIs(orig, building.rooms);
      assert forall j | 0 <= j < |team.responders| :: team.responders[j] in team.responders;
    }

    /** run(): reset the building and the team, sweep responder by responder, collect. The
        rooms, the responders and their rebuilt node paths end in the state the run
        describes. */
    method Run(std: seq<real> -> real) returns (r: Result<Results>)
      requires Valid()
      modifies building`rooms, set x | x in team.responders
      ensures building.Valid()
      ensures r == Outcome(old(building.rooms), old(RoomIds()), std)
      ensures var run := RunTeam(Executor(old(RoomIds())), team.responders, assignment, ResetRooms(old(building.rooms)));
        run.Ok? ==> building.rooms == run.value.1 && StatesOf(team.responders) == run.value.0
    {
      ghost var orig, names := building.rooms, RoomIds();
      ghost var run := RunTeam(Executor(names), team.responders, assignment, ResetRooms(orig));
      OutcomeOfRun(orig, names, std);
      var res := ResetAndSweep();
      if res.Err? {
        return Err(res.error);
      }
      ghost var ws := run.value.0;
      r := CollectResults(std);
      assert r == NodeCollect(team.responders, ws, Trails(nodes.graph, nodes.find, names, team.responders, ws), run.value.1, std);
    }

    /** The part of run() before the results are collected. */
    method ResetAndSweep() returns (res: Result<()>)
      requires Valid()
      modifies building`rooms, set x | x in team.responders
      ensures building.Valid() && RoomIds() == old(RoomIds())
      ensures var run := RunTeam(Executor(old(RoomIds())), team.responders, assignment, ResetRooms(old(building.rooms)));
        && (res.Ok? <==> run.Ok?) && (res.Err? ==> res.error == run.error)
        && (res.Ok? ==> building.rooms == run.value.1 && StatesOf(team.responders) == run.value.0
                        && TrailsOf(team.responders) == Trails(nodes.graph, nodes.find, old(RoomIds()), team.responders, run.value.0))
    {
      ghost var names := RoomIds();
      ResetForRun();
      res := SweepAll(names);
    }

    /** _collect_results on the current state of the building and the team. */
    method CollectResults(std: seq<real> -> real) returns (r: Result<Results>)
      requires building.rooms.Valid()
      ensures r == NodeCollect(team.responders, StatesOf(team.responders), TrailsOf(team.responders), building.rooms, std)
    {
      var rs, rooms := team.responders, building.rooms;
      ghost var ws := StatesOf(rs);
      var reports := ReportAll(rs);
      var table := BuildClearanceTable(rooms);
      var total := team.GetMaxTime();
      TimesAgree(rs);
      if total.Err? {
        return Err(total.error);
      }
      var cleared := AllCleared(rooms);
      var average := AverageClearance(rooms);
      var balance := LoadBalance(TimesOf(rs), std, true);
      var distance := Sum(ReportDistances(reports));
      ReportDistancesAre(rs, ws, TrailsOf(rs));
      return Ok(Results(cleared, total.value, reports, table, Metrics(cleared, average, balance, 0.0, distance, |rs|, |rooms.keys|)));
    }
  }
}
