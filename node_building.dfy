/** src/models/node_based_building.py: the dense navigation graph. Every room becomes a
    centre node and a door node on the side facing its nearest corridor; every corridor
    becomes a chain of waypoints about a metre apart; exits stay single nodes; every
    stair becomes a vertical chain of landings. Doors, exits and landings are then tied
    to their nearest corridor waypoint on the same floor, doors and landings only when it
    is close enough.

    The loops are proved against the list of writes they perform: `CreatedNodes` and
    `CreatedEdges` describe what _create_all_nodes leaves, `ConnectWrites` what
    _connect_nodes adds; for every node and every pair the last write wins. */
module NodeBased {
  import opened Common
  import opened Dicts
  import opened Facility
  import opened Networks
  import opened Placement
  import opened CoarseGraph
  import opened NodeIds

  /** room_size: every room is drawn 4 m wide, so its door is 2 m from its centre. */
  const RoomDisplaySize: real := 4.0
  /** The weight of the edge between consecutive landings of a stair. */
  const FloorRise: real := 4.0
  /** Doors and landings are tied to a waypoint closer than these. */
  const DoorReach: real := 5.0
  const StairReach: real := 10.0

  // ---------------------------------------------------------------------------
  // _calculate_door_position

  /** The door of a room: on the side facing the nearest corridor on its floor (the first
      of equally near ones), or on the right when its floor has no corridor. */
  function DoorPosition(corridors: Dict<Corridor>, room: Room, norm: Norm): Point
    requires corridors.Valid()
  {
    match NearestCorridor(corridors, room, norm)
    case Some((cid, _)) => DoorSide(room.position, corridors.entries[cid], RoomDisplaySize / 2.0)
    case None => Point(room.position.x + RoomDisplaySize / 2.0, room.position.y)
  }

  method CalculateDoorPosition(corridors: Dict<Corridor>, room: Room, norm: Norm) returns (p: Point)
    requires corridors.Valid()
    ensures p == DoorPosition(corridors, room, norm)
  {
    var nearest := FindNearest(corridors, CorridorOnFloor(room.floor), CorridorMidpoint(), room.position, norm);
    assert nearest == NearestCorridor(corridors, room, norm);
    if nearest.Some? {
      var c := corridors.entries[nearest.value.0];
      p := DoorSide(room.position, c, RoomDisplaySize / 2.0);
    } else {
      p := Point(room.position.x + RoomDisplaySize / 2.0, room.position.y);
    }
  }

  /** The door is 2 m from the centre along one axis: toward the nearest corridor on the
      room's floor, or to the right when there is none. */
  lemma {:induction false} DoorPositionRule(corridors: Dict<Corridor>, room: Room, norm: Norm)
    requires corridors.Valid()
    ensures var p := DoorPosition(corridors, room, norm);
      || (p.y == room.position.y && Abs(p.x - room.position.x) == 2.0)
      || (p.x == room.position.x && Abs(p.y - room.position.y) == 2.0)
    ensures (forall k | k in corridors.entries :: corridors.entries[k].floor != room.floor) ==>
              DoorPosition(corridors, room, norm) == Point(room.position.x + 2.0, room.position.y)
    ensures NearestCorridor(corridors, room, norm).Some? ==>
              var c := corridors.entries[NearestCorridor(corridors, room, norm).value.0];
              var p := DoorPosition(corridors, room, norm);
              && c.floor == room.floor
              && (forall k | k in corridors.entries && corridors.entries[k].floor == room.floor ::
                    norm(room.position, Midpoint(c.start, c.end))
                      <= norm(room.position, Midpoint(corridors.entries[k].start, corridors.entries[k].end)))
              && (Vertical(c) ==> p.y == room.position.y && (p.x > room.position.x <==> c.start.x > room.position.x))
              && (!Vertical(c) ==> p.x == room.position.x && (p.y > room.position.y <==> c.start.y > room.position.y))
  {
    var nearest := NearestCorridor(corridors, room, norm);
    if nearest.Some? {
      var cands := Eligible(corridors.entries, corridors.keys, CorridorOnFloor(room.floor));
      NearestAmongLeast(cands, corridors.entries, CorridorMidpoint(), room.position, norm);
      assert forall k | k in corridors.entries && corridors.entries[k].floor == room.floor :: k in cands;
    }
  }

  // ---------------------------------------------------------------------------
  // What _create_all_nodes writes

  function CenterWrites(rooms: Dict<Room>): (ws: seq<(string, NodeInfo)>)
    requires rooms.Valid()
    ensures |ws| == |rooms.keys|
  {
    seq(|rooms.keys|, i requires 0 <= i < |rooms.keys| =>
      (CenterId(rooms.keys[i]), NodeInfo(RoomCenterNode, rooms.entries[rooms.keys[i]].position, rooms.entries[rooms.keys[i]].floor)))
  }

  function DoorWrites(rooms: Dict<Room>, corridors: Dict<Corridor>, norm: Norm): (ws: seq<(string, NodeInfo)>)
    requires rooms.Valid() && corridors.Valid()
    ensures |ws| == |rooms.keys|
  {
    seq(|rooms.keys|, i requires 0 <= i < |rooms.keys| =>
      (DoorId(rooms.keys[i]),
       NodeInfo(DoorNode, DoorPosition(corridors, rooms.entries[rooms.keys[i]], norm), rooms.entries[rooms.keys[i]].floor)))
  }

  function DoorEdges(rooms: Dict<Room>): (ws: seq<Connection>)
    ensures |ws| == |rooms.keys|
  {
    seq(|rooms.keys|, i requires 0 <= i < |rooms.keys| =>
      Connection(CenterId(rooms.keys[i]), DoorId(rooms.keys[i]), RoomDisplaySize / 2.0))
  }

  /** The corridor's length: the distance between its ends. */
  function CorridorLength(c: Corridor, norm: Norm): real {
    norm(c.end, c.start)
  }

  /** One waypoint per whole metre of the corridor, plus one. */
  function WaypointCount(c: Corridor, norm: Norm): int {
    Trunc(CorridorLength(c, norm)) + 1
  }

  /** The number of gaps between waypoints, at least 1. */
  function Segments(n: int): (s: real)
    ensures s >= 1.0
  {
    if n - 1 > 1 then (n - 1) as real else 1.0
  }

  /** How far along the corridor waypoint i lies: i over the number of gaps, at least 1. */
  function Fraction(i: int, n: int): real {
    i as real / Segments(n)
  }

  /** The corridor's length over its number of gaps: the weight of each edge of the chain. */
  function Share(length: real, n: int): real {
    length / Segments(n)
  }

  /** The waypoint indexes 0..n_nodes - 1. */
  function Indexes(n: int): nat {
    if n > 0 then n else 0
  }

  function Waypoints(cid: string, c: Corridor, norm: Norm): (ws: seq<(string, NodeInfo)>)
    ensures |ws| == Indexes(WaypointCount(c, norm))
  {
    var n := WaypointCount(c, norm);
    seq(Indexes(n), i requires 0 <= i < Indexes(n) =>
      (WaypointId(cid, 'p', i), NodeInfo(CorridorNode, Lerp(c.start, c.end, Fraction(i, n)), c.floor)))
  }

  function Chain(cid: string, c: Corridor, norm: Norm): (ws: seq<Connection>)
    ensures |ws| == Indexes(WaypointCount(c, norm) - 1)
  {
    var n := WaypointCount(c, norm);
    seq(Indexes(n - 1), i requires 0 <= i < Indexes(n - 1) =>
      Connection(WaypointId(cid, 'p', i), WaypointId(cid, 'p', i + 1), Share(CorridorLength(c, norm), n)))
  }

  function AllWaypoints(corridors: Dict<Corridor>, keys: seq<string>, norm: Norm): seq<(string, NodeInfo)>
    requires forall k | k in keys :: k in corridors.entries
  {
    if keys == [] then []
    else AllWaypoints(corridors, keys[..|keys| - 1], norm)
         + Waypoints(keys[|keys| - 1], corridors.entries[keys[|keys| - 1]], norm)
  }

  function AllChains(corridors: Dict<Corridor>, keys: seq<string>, norm: Norm): seq<Connection>
    requires forall k | k in keys :: k in corridors.entries
  {
    if keys == [] then []
    else AllChains(corridors, keys[..|keys| - 1], norm) + Chain(keys[|keys| - 1], corridors.entries[keys[|keys| - 1]], norm)
  }

  function ExitWrites(exits: Dict<Exit>): (ws: seq<(string, NodeInfo)>)
    requires exits.Valid()
    ensures |ws| == |exits.keys|
  {
    seq(|exits.keys|, i requires 0 <= i < |exits.keys| => (exits.keys[i], ExitInfo(exits.entries[exits.keys[i]])))
  }

  /** The vertical edges of one stair, between consecutive entries of `connects`. */
  function StairChain(sid: string, s: Stair): (ws: seq<Connection>)
    ensures |ws| == Indexes(|s.connects| - 1)
  {
    seq(Indexes(|s.connects| - 1), i requires 0 <= i < Indexes(|s.connects| - 1) => StairLink(sid, s, i))
  }

  /** The edge between the landings of floors i and i + 1 of a stair's connects. */
  function StairLink(sid: string, s: Stair, i: nat): Connection
    requires i < |s.connects| - 1
  {
    Connection(LandingId(sid, s.connects[i]), LandingId(sid, s.connects[i + 1]), FloorRise)
  }

  lemma {:induction false} StairChainAt(sid: string, s: Stair, i: nat)
    requires i < |s.connects| - 1
    ensures StairChain(sid, s)[i] == StairLink(sid, s, i)
  {
  }

  function AllStairChains(stairs: Dict<Stair>, keys: seq<string>): seq<Connection>
    requires forall k | k in keys :: k in stairs.entries
  {
    if keys == [] then []
    else AllStairChains(stairs, keys[..|keys| - 1]) + StairChain(keys[|keys| - 1], stairs.entries[keys[|keys| - 1]])
  }

  /** Every node write of _create_all_nodes, in order. */
  function NodeWrites(b: Building, norm: Norm): seq<(string, NodeInfo)>
    reads b
    requires b.Valid()
  {
    CenterWrites(b.rooms) + DoorWrites(b.rooms, b.corridors, norm) + AllWaypoints(b.corridors, b.corridors.keys, norm)
    + ExitWrites(b.exits) + AllLandings(b.stairs, b.stairs.keys)
  }

  /** The nodes _create_all_nodes leaves, in insertion order. */
  function CreatedNodes(b: Building, norm: Norm): (d: Dict<NodeInfo>)
    reads b
    requires b.Valid()
    ensures d.Valid()
  {
    PutAll(EmptyDict(), NodeWrites(b, norm))
  }

  /** Every edge write of _create_all_nodes, in order. */
  function CreatedEdges(b: Building, norm: Norm): seq<Connection>
    reads b
    requires b.Valid()
  {
    DoorEdges(b.rooms) + AllChains(b.corridors, b.corridors.keys, norm) + AllStairChains(b.stairs, b.stairs.keys)
  }

  // ---------------------------------------------------------------------------
  // _create_all_nodes, one loop per kind of node

  method AddCenters(g: Graph, b: Building) returns (h: Graph)
    requires g.Valid() && b.Valid()
    ensures h.Valid() && h.weight == g.weight && h.nodes == PutAll(g.nodes, CenterWrites(b.rooms))
  {
    ghost var ws := CenterWrites(b.rooms);
    h := g;
    var k := 0;
    while k < |b.rooms.keys|
      invariant 0 <= k <= |b.rooms.keys|
      invariant h.Valid() && h.weight == g.weight && h.nodes == PutAll(g.nodes, ws[..k])
    {
      var roomId := b.rooms.keys[k];
      var room := b.rooms.entries[roomId];
      TakeSnoc(ws, k);
      h := h.AddNode(CenterId(roomId), NodeInfo(RoomCenterNode, room.position, room.floor));
      k := k + 1;
    }
    assert ws[..k] == ws;
  }

  method AddDoors(g: Graph, b: Building, norm: Norm) returns (h: Graph)
    requires g.Valid() && b.Valid()
    requires forall k | k in b.rooms.keys :: CenterId(k) in g.nodes.entries
    ensures h.Valid() && h.nodes == PutAll(g.nodes, DoorWrites(b.rooms, b.corridors, norm))
    ensures h.weight == Linked(g.weight, DoorEdges(b.rooms))
  {
    ghost var ws := DoorWrites(b.rooms, b.corridors, norm);
    ghost var es := DoorEdges(b.rooms);
    h := g;
    var k := 0;
    while k < |b.rooms.keys|
      invariant 0 <= k <= |b.rooms.keys|
      invariant h.Valid() && h.nodes == PutAll(g.nodes, ws[..k]) && h.weight == Linked(g.weight, es[..k])
      invariant forall n | n in g.nodes.entries :: n in h.nodes.entries
    {
      var roomId := b.rooms.keys[k];
      var room := b.rooms.entries[roomId];
      var doorPos := CalculateDoorPosition(b.corridors, room, norm);
      assert ws[k] == (DoorId(roomId), NodeInfo(DoorNode, doorPos, room.floor));
      PutAllSnoc(g.nodes, ws, k);
      h := h.AddNode(DoorId(roomId), NodeInfo(DoorNode, doorPos, room.floor));
      assert es[k] == Connection(CenterId(roomId), DoorId(roomId), RoomDisplaySize / 2.0);
      LinkedSnoc(g.weight, es, k);
      h := h.AddEdge(CenterId(roomId), DoorId(roomId), RoomDisplaySize / 2.0);
      k := k + 1;
    }
    assert ws[..k] == ws && es[..k] == es;
  }

  lemma {:induction false} WaypointNodeStep(d: Dict<NodeInfo>, cid: string, c: Corridor, norm: Norm, i: nat)
    requires d.Valid() && i < Indexes(WaypointCount(c, norm))
    ensures PutAll(d, Waypoints(cid, c, norm)[..i + 1])
      == PutAll(d, Waypoints(cid, c, norm)[..i]).Put(WaypointId(cid, 'p', i),
           NodeInfo(CorridorNode, Lerp(c.start, c.end, Fraction(i, WaypointCount(c, norm))), c.floor))
    ensures WaypointId(cid, 'p', i) in PutAll(d, Waypoints(cid, c, norm)[..i + 1]).entries
    ensures i > 0 ==> WaypointId(cid, 'p', i - 1) in PutAll(d, Waypoints(cid, c, norm)[..i + 1]).entries
  {
    var ws := Waypoints(cid, c, norm);
    PutAllSnoc(d, ws, i);
    assert Firsts(ws[..i + 1])[i] == WaypointId(cid, 'p', i);
    if i > 0 {
      assert Firsts(ws[..i + 1])[i - 1] == WaypointId(cid, 'p', i - 1);
    }
    PutAllKeys(d, ws[..i + 1]);
  }

  lemma {:induction false} WaypointEdgeStep(w: map<(string, string), real>, cid: string, c: Corridor, norm: Norm, i: nat)
    requires 0 < i < Indexes(WaypointCount(c, norm))
    ensures var share := Share(CorridorLength(c, norm), WaypointCount(c, norm));
      Linked(w, Chain(cid, c, norm)[..i])
        == Linked(w, Chain(cid, c, norm)[..i - 1])[(WaypointId(cid, 'p', i - 1), WaypointId(cid, 'p', i)) := share]
                                                  [(WaypointId(cid, 'p', i), WaypointId(cid, 'p', i - 1)) := share]
  {
    LinkedSnoc(w, Chain(cid, c, norm), i - 1);
  }

  /** The corridor's length and its number of waypoints. */
  method CorridorNodes(c: Corridor, norm: Norm) returns (length: real, n: int)
    ensures length == CorridorLength(c, norm) && n == WaypointCount(c, norm)
  {
    length := norm(c.end, c.start);
    n := Trunc(length) + 1;
  }

  /** The waypoints of one corridor, each tied to the one before it. */
  method AddCorridorWaypoints(g: Graph, cid: string, c: Corridor, norm: Norm) returns (h: Graph)
    requires g.Valid()
    ensures h.Valid() && h.nodes == PutAll(g.nodes, Waypoints(cid, c, norm))
    ensures h.weight == Linked(g.weight, Chain(cid, c, norm))
  {
    var length, n := CorridorNodes(c, norm);
    h := g;
    WaypointPrefixes(cid, c, norm, 0);
    var i := 0;
    while i < n
      invariant 0 <= i <= Indexes(n)
      invariant h.Valid() && h.nodes == PutAll(g.nodes, Waypoints(cid, c, norm)[..i])
      invariant h.weight == Linked(g.weight, Chain(cid, c, norm)[..Indexes(i - 1)])
    {
      h := AddWaypoint(g, h, cid, c, norm, i, length, n);
      i := i + 1;
    }
    WaypointPrefixes(cid, c, norm, i);
  }

  /** The empty and the whole prefixes of a corridor's waypoints and chain. */
  lemma {:induction false} WaypointPrefixes(cid: string, c: Corridor, norm: Norm, i: nat)
    requires i == 0 || i == Indexes(WaypointCount(c, norm))
    ensures i == 0 ==> Waypoints(cid, c, norm)[..i] == [] && Chain(cid, c, norm)[..Indexes(i - 1)] == []
    ensures i == Indexes(WaypointCount(c, norm)) ==>
      Waypoints(cid, c, norm)[..i] == Waypoints(cid, c, norm) && Chain(cid, c, norm)[..Indexes(i - 1)] == Chain(cid, c, norm)
  {
  }

  /** One pass of the waypoint loop: waypoint i, and its edge to waypoint i - 1. */
  method AddWaypoint(g: Graph, h: Graph, cid: string, c: Corridor, norm: Norm, i: nat, length: real, n: int)
    returns (h': Graph)
    requires n == WaypointCount(c, norm) && length == CorridorLength(c, norm) && i < n
    requires g.nodes.Valid() && h.Valid() && h.nodes == PutAll(g.nodes, Waypoints(cid, c, norm)[..i])
    requires h.weight == Linked(g.weight, Chain(cid, c, norm)[..Indexes(i - 1)])
    ensures h'.Valid() && h'.nodes == PutAll(g.nodes, Waypoints(cid, c, norm)[..i + 1])
    ensures h'.weight == Linked(g.weight, Chain(cid, c, norm)[..Indexes(i)])
  {
    var t := Fraction(i, n);
    var nodeId := WaypointId(cid, 'p', i);
    WaypointNodeStep(g.nodes, cid, c, norm, i);
    h' := h.AddNode(nodeId, NodeInfo(CorridorNode, Lerp(c.start, c.end, t), c.floor));
    if i > 0 {
      var prev := WaypointId(cid, 'p', i - 1);
      WaypointEdgeStep(g.weight, cid, c, norm, i);
      h' := h'.AddEdge(prev, nodeId, Share(length, n));
    }
  }

  method AddWaypoints(g: Graph, b: Building, norm: Norm) returns (h: Graph)
    requires g.Valid() && b.Valid()
    ensures h.Valid() && h.nodes == PutAll(g.nodes, AllWaypoints(b.corridors, b.corridors.keys, norm))
    ensures h.weight == Linked(g.weight, AllChains(b.corridors, b.corridors.keys, norm))
  {
    var keys := b.corridors.keys;
    h := g;
    var k := 0;
    while k < |keys|
      invariant 0 <= k <= |keys|
      invariant h.Valid() && h.nodes == PutAll(g.nodes, AllWaypoints(b.corridors, keys[..k], norm))
      invariant h.weight == Linked(g.weight, AllChains(b.corridors, keys[..k], norm))
    {
      var cid := keys[k];
      TakeSnoc(keys, k);
      var h' := AddCorridorWaypoints(h, cid, b.corridors.entries[cid], norm);
      PutAllAppend(g.nodes, AllWaypoints(b.corridors, keys[..k], norm), Waypoints(cid, b.corridors.entries[cid], norm));
      LinkedAppend(g.weight, AllChains(b.corridors, keys[..k], norm), Chain(cid, b.corridors.entries[cid], norm));
      h := h';
      k := k + 1;
    }
    assert keys[..k] == keys;
  }

  method AddExits(g: Graph, b: Building) returns (h: Graph)
    requires g.Valid() && b.Valid()
    ensures h.Valid() && h.weight == g.weight && h.nodes == PutAll(g.nodes, ExitWrites(b.exits))
  {
    ghost var ws := ExitWrites(b.exits);
    h := g;
    var k := 0;
    while k < |b.exits.keys|
      invariant 0 <= k <= |b.exits.keys|
      invariant h.Valid() && h.weight == g.weight && h.nodes == PutAll(g.nodes, ws[..k])
    {
      var exitId := b.exits.keys[k];
      var e := b.exits.entries[exitId];
      PutAllSnoc(g.nodes, ws, k);
      h := h.AddNode(exitId, NodeInfo(ExitNode, e.position, e.floor));
      k := k + 1;
    }
    assert ws[..k] == ws;
  }

  /** Both ends of the i-th vertical edge of a stair are among its landings. */
  lemma {:induction false} StairEdgeEnds(d: Dict<NodeInfo>, sid: string, s: Stair, i: nat)
    requires d.Valid() && i < |s.connects| - 1
    ensures LandingId(sid, s.connects[i]) in PutAll(d, StairLandings(sid, s)).entries
    ensures LandingId(sid, s.connects[i + 1]) in PutAll(d, StairLandings(sid, s)).entries
  {
    var ws := StairLandings(sid, s);
    assert Firsts(ws)[i] == LandingId(sid, s.connects[i]);
    assert Firsts(ws)[i + 1] == LandingId(sid, s.connects[i + 1]);
    PutAllKeys(d, ws);
  }

  /** The landings of one stair, then its vertical edges. */
  method AddStair(g: Graph, sid: string, s: Stair) returns (h: Graph)
    requires g.Valid()
    ensures h.Valid() && h.nodes == PutAll(g.nodes, StairLandings(sid, s))
    ensures h.weight == Linked(g.weight, StairChain(sid, s))
  {
    h := AddLandings(g, sid, s);
    h := AddStairEdges(g, h, sid, s);
  }

  /** The landing loop of one stair: one node per floor it connects. */
  method AddLandings(g: Graph, sid: string, s: Stair) returns (h: Graph)
    requires g.Valid()
    ensures h.Valid() && h.weight == g.weight && h.nodes == PutAll(g.nodes, StairLandings(sid, s))
  {
    h := g;
    var i := 0;
    while i < |s.connects|
      invariant 0 <= i <= |s.connects|
      invariant h.Valid() && h.weight == g.weight && h.nodes == PutAll(g.nodes, StairLandings(sid, s)[..i])
    {
      LandingStep(g.nodes, sid, s, i);
      h := h.AddNode(LandingId(sid, s.connects[i]), NodeInfo(StairNode, s.position, s.connects[i]));
      i := i + 1;
    }
    LandingsWhole(sid, s, i);
  }

  /** The edge loop of one stair: consecutive landings joined, both ways. */
  method AddStairEdges(g: Graph, h0: Graph, sid: string, s: Stair) returns (h: Graph)
    requires g.nodes.Valid() && h0.Valid() && h0.weight == g.weight && h0.nodes == PutAll(g.nodes, StairLandings(sid, s))
    ensures h.Valid() && h.nodes == h0.nodes && h.weight == Linked(g.weight, StairChain(sid, s))
  {
    h := h0;
    ChainPrefixes(sid, s, 0);
    var i := 0;
    while i < |s.connects| - 1
      invariant 0 <= i <= Indexes(|s.connects| - 1)
      invariant h.Valid() && h.nodes == h0.nodes
      invariant h.weight == Linked(g.weight, StairChain(sid, s)[..i])
    {
      StairEdgeEnds(g.nodes, sid, s, i);
      StairEdgeStep(g.weight, sid, s, i);
      h := h.AddEdge(LandingId(sid, s.connects[i]), LandingId(sid, s.connects[i + 1]), FloorRise);
      i := i + 1;
    }
    ChainPrefixes(sid, s, i);
  }

  lemma {:induction false} LandingStep(d: Dict<NodeInfo>, sid: string, s: Stair, i: nat)
    requires d.Valid() && i < |s.connects|
    ensures PutAll(d, StairLandings(sid, s)[..i + 1])
      == PutAll(d, StairLandings(sid, s)[..i]).Put(LandingId(sid, s.connects[i]), NodeInfo(StairNode, s.position, s.connects[i]))
  {
    PutAllSnoc(d, StairLandings(sid, s), i);
  }

  lemma {:induction false} LandingsWhole(sid: string, s: Stair, i: nat)
    requires i == |s.connects|
    ensures StairLandings(sid, s)[..i] == StairLandings(sid, s)
  {
  }

  lemma {:induction false} ChainPrefixes(sid: string, s: Stair, i: nat)
    requires i == 0 || i == Indexes(|s.connects| - 1)
    ensures i == 0 ==> StairChain(sid, s)[..i] == []
    ensures i == Indexes(|s.connects| - 1) ==> StairChain(sid, s)[..i] == StairChain(sid, s)
  {
  }

  lemma {:induction false} StairEdgeStep(w: map<(string, string), real>, sid: string, s: Stair, i: nat)
    requires i < |s.connects| - 1
    ensures var u, v := LandingId(sid, s.connects[i]), LandingId(sid, s.connects[i + 1]);
      Linked(w, StairChain(sid, s)[..i + 1]) == Linked(w, StairChain(sid, s)[..i])[(u, v) := FloorRise][(v, u) := FloorRise]
  {
    StairChainAt(sid, s, i);
    LinkedSnoc(w, StairChain(sid, s), i);
  }

  method AddStairs(g: Graph, b: Building) returns (h: Graph)
    requires g.Valid() && b.Valid()
    ensures h.Valid() && h.nodes == PutAll(g.nodes, AllLandings(b.stairs, b.stairs.keys))
    ensures h.weight == Linked(g.weight, AllStairChains(b.stairs, b.stairs.keys))
  {
    var keys := b.stairs.keys;
    h := g;
    var k := 0;
    while k < |keys|
      invariant 0 <= k <= |keys|
      invariant h.Valid() && h.nodes == PutAll(g.nodes, AllLandings(b.stairs, keys[..k]))
      invariant h.weight == Linked(g.weight, AllStairChains(b.stairs, keys[..k]))
    {
      var sid := keys[k];
      TakeSnoc(keys, k);
      AllLandingsSnoc(b.stairs, keys[..k], sid);
      var h' := AddStair(h, sid, b.stairs.entries[sid]);
      PutAllAppend(g.nodes, AllLandings(b.stairs, keys[..k]), StairLandings(sid, b.stairs.entries[sid]));
      LinkedAppend(g.weight, AllStairChains(b.stairs, keys[..k]), StairChain(sid, b.stairs.entries[sid]));
      h := h';
      k := k + 1;
    }
    assert keys[..k] == keys;
  }

  /** _create_all_nodes */
  method CreateAllNodes(b: Building, norm: Norm) returns (g: Graph)
    requires b.Valid()
    ensures g.Valid() && g.nodes == CreatedNodes(b, norm)
    ensures g.weight == Linked(map[], CreatedEdges(b, norm))
  {
    var empty := EmptyGraph();
    var g1 := AddCenters(empty, b);
    PutAllKeys(empty.nodes, CenterWrites(b.rooms));
    forall k | k in b.rooms.keys ensures CenterId(k) in g1.nodes.entries {
      var i :| 0 <= i < |b.rooms.keys| && b.rooms.keys[i] == k;
      assert Firsts(CenterWrites(b.rooms))[i] == CenterId(k);
    }
    var g2 := AddDoors(g1, b, norm);
    var g3 := AddWaypoints(g2, b, norm);
    var g4 := AddExits(g3, b);
    g := AddStairs(g4, b);
    var cw, dw := CenterWrites(b.rooms), DoorWrites(b.rooms, b.corridors, norm);
    var aw, ew := AllWaypoints(b.corridors, b.corridors.keys, norm), ExitWrites(b.exits);
    PutAllAppend(empty.nodes, cw, dw);
    PutAllAppend(empty.nodes, cw + dw, aw);
    PutAllAppend(empty.nodes, cw + dw + aw, ew);
    PutAllAppend(empty.nodes, cw + dw + aw + ew, AllLandings(b.stairs, b.stairs.keys));
    var de, ac := DoorEdges(b.rooms), AllChains(b.corridors, b.corridors.keys, norm);
    LinkedAppend(map[], de, ac);
    LinkedAppend(map[], de + ac, AllStairChains(b.stairs, b.stairs.keys));
  }

  // ---------------------------------------------------------------------------
  // _connect_nodes

  /** A corridor waypoint on the given floor. */
  function CorridorNodeOnFloor(floor: int): NodeInfo -> bool {
    (n: NodeInfo) => n.kind == CorridorNode && n.floor == floor
  }

  function NodePosition(): NodeInfo -> Point {
    (n: NodeInfo) => n.position
  }

  /** The nearest corridor node on the floor of node n. */
  function NearestWaypoint(nodes: Dict<NodeInfo>, n: string, norm: Norm): (r: Option<(string, real)>)
    requires nodes.Valid() && n in nodes.entries
    ensures r.None? <==> forall m | m in nodes.entries :: !CorridorNodeOnFloor(nodes.entries[n].floor)(nodes.entries[m])
    ensures r.Some? ==> && r.value.0 in nodes.entries
                        && nodes.entries[r.value.0].kind == CorridorNode
                        && nodes.entries[r.value.0].floor == nodes.entries[n].floor
                        && r.value.1 == norm(nodes.entries[n].position, nodes.entries[r.value.0].position)
  {
    var info := nodes.entries[n];
    var cands := Eligible(nodes.entries, nodes.keys, CorridorNodeOnFloor(info.floor));
    assert forall m | m in nodes.entries && CorridorNodeOnFloor(info.floor)(nodes.entries[m]) :: m in cands;
    NearestAmong(cands, nodes.entries, NodePosition(), info.position, norm)
  }

  /** No corridor node on the floor is nearer than the one chosen. */
  lemma {:induction false} NearestWaypointLeast(nodes: Dict<NodeInfo>, n: string, norm: Norm)
    requires nodes.Valid() && n in nodes.entries
    ensures var r := NearestWaypoint(nodes, n, norm);
      r.Some? ==> forall m | m in nodes.entries && CorridorNodeOnFloor(nodes.entries[n].floor)(nodes.entries[m]) ::
                    r.value.1 <= norm(nodes.entries[n].position, nodes.entries[m].position)
  {
    var info := nodes.entries[n];
    var cands := Eligible(nodes.entries, nodes.keys, CorridorNodeOnFloor(info.floor));
    NearestAmongLeast(cands, nodes.entries, NodePosition(), info.position, norm);
  }

  /** The edge _connect_nodes adds for node n when it is of `kind`: to the nearest corridor
      node on its floor, if there is one, its id is not empty (Python tests the id's truth)
      and it is nearer than `reach`. */
  function Attachment(nodes: Dict<NodeInfo>, n: string, kind: NodeKind, reach: Ext, norm: Norm): Option<Connection>
    requires nodes.Valid() && n in nodes.entries
  {
    if nodes.entries[n].kind != kind then None
    else match NearestWaypoint(nodes, n, norm)
      case Some((m, d)) => if m != "" && Fin(d).Lt(reach) then Some(Connection(n, m, d)) else None
      case None => None
  }

  /** The attachment of node n as a list of writes: none or one. */
  function AttachmentWrites(nodes: Dict<NodeInfo>, n: string, kind: NodeKind, reach: Ext, norm: Norm): seq<Connection>
    requires nodes.Valid() && n in nodes.entries
  {
    match Attachment(nodes, n, kind, reach, norm)
    case Some(c) => [c]
    case None => []
  }

  function Attachments(nodes: Dict<NodeInfo>, keys: seq<string>, kind: NodeKind, reach: Ext, norm: Norm): seq<Connection>
    requires nodes.Valid() && forall k | k in keys :: k in nodes.entries
  {
    if keys == [] then []
    else Attachments(nodes, keys[..|keys| - 1], kind, reach, norm) + AttachmentWrites(nodes, keys[|keys| - 1], kind, reach, norm)
  }

  lemma {:induction false} AttachmentsSnoc(nodes: Dict<NodeInfo>, keys: seq<string>, k: nat, kind: NodeKind, reach: Ext, norm: Norm)
    requires nodes.Valid() && k < |keys| && forall j | j in keys :: j in nodes.entries
    ensures Attachments(nodes, keys[..k + 1], kind, reach, norm)
      == Attachments(nodes, keys[..k], kind, reach, norm) + AttachmentWrites(nodes, keys[k], kind, reach, norm)
  {
    assert keys[..k + 1][..k] == keys[..k];
  }

  /** The edge weights of the finished graph. */
  function BuiltWeights(b: Building, norm: Norm): map<(string, string), real>
    reads b
    requires b.Valid()
  {
    Linked(map[], CreatedEdges(b, norm) + ConnectWrites(CreatedNodes(b, norm), norm))
  }

  /** Every edge write of _connect_nodes: doors, then exits, then landings. */
  function ConnectWrites(nodes: Dict<NodeInfo>, norm: Norm): seq<Connection>
    requires nodes.Valid()
  {
    Attachments(nodes, nodes.keys, DoorNode, Fin(DoorReach), norm)
    + Attachments(nodes, nodes.keys, ExitNode, Inf, norm)
    + Attachments(nodes, nodes.keys, StairNode, Fin(StairReach), norm)
  }

  /** One pass of a loop of _connect_nodes: the edge from node n, if any. */
  method Attach(h: Graph, n: string, kind: NodeKind, reach: Ext, norm: Norm) returns (h': Graph)
    requires h.Valid() && n in h.nodes.entries
    ensures h'.Valid() && h'.nodes == h.nodes
    ensures h'.weight == Linked(h.weight, AttachmentWrites(h.nodes, n, kind, reach, norm))
  {
    var nodes := h.nodes;
    var info := nodes.entries[n];
    h' := h;
    if info.kind == kind {
      var nearest := FindNearest(nodes, CorridorNodeOnFloor(info.floor), NodePosition(), info.position, norm);
      assert nearest == NearestWaypoint(nodes, n, norm);
      if nearest.Some? && nearest.value.0 != "" && Fin(nearest.value.1).Lt(reach) {
        assert AttachmentWrites(nodes, n, kind, reach, norm) == [Connection(n, nearest.value.0, nearest.value.1)];
        LinkedPush(h.weight, [], Connection(n, nearest.value.0, nearest.value.1));
        h' := h.AddEdge(n, nearest.value.0, nearest.value.1);
      }
    }
  }

  /** One of the three loops of _connect_nodes. */
  method AttachAll(g: Graph, kind: NodeKind, reach: Ext, norm: Norm) returns (h: Graph)
    requires g.Valid()
    ensures h.Valid() && h.nodes == g.nodes
    ensures h.weight == Linked(g.weight, Attachments(g.nodes, g.nodes.keys, kind, reach, norm))
  {
    var nodes := g.nodes;
    h := g;
    var k := 0;
    while k < |nodes.keys|
      invariant 0 <= k <= |nodes.keys|
      invariant h.Valid() && h.nodes == nodes
      invariant h.weight == Linked(g.weight, Attachments(nodes, nodes.keys[..k], kind, reach, norm))
    {
      var n := nodes.keys[k];
      AttachmentsSnoc(nodes, nodes.keys, k, kind, reach, norm);
      LinkedAppend(g.weight, Attachments(nodes, nodes.keys[..k], kind, reach, norm), AttachmentWrites(nodes, n, kind, reach, norm));
      h := Attach(h, n, kind, reach, norm);
      k := k + 1;
    }
    assert nodes.keys[..k] == nodes.keys;
  }

  /** _connect_nodes */
  method ConnectNodes(g: Graph, norm: Norm) returns (h: Graph)
    requires g.Valid()
    ensures h.Valid() && h.nodes == g.nodes && h.weight == Linked(g.weight, ConnectWrites(g.nodes, norm))
  {
    var doors := AttachAll(g, DoorNode, Fin(DoorReach), norm);
    var exits := AttachAll(doors, ExitNode, Inf, norm);
    h := AttachAll(exits, StairNode, Fin(StairReach), norm);
    LinkedAppend(g.weight, Attachments(g.nodes, g.nodes.keys, DoorNode, Fin(DoorReach), norm),
                 Attachments(g.nodes, g.nodes.keys, ExitNode, Inf, norm));
    LinkedAppend(g.weight, Attachments(g.nodes, g.nodes.keys, DoorNode, Fin(DoorReach), norm)
                              + Attachments(g.nodes, g.nodes.keys, ExitNode, Inf, norm),
                 Attachments(g.nodes, g.nodes.keys, StairNode, Fin(StairReach), norm));
  }

  // ---------------------------------------------------------------------------
  // NodeBasedBuilding

  /** The node a location names, given the ids of the rooms: a room id stands for the
      room's centre, anything else for itself. */
  function LocationNode(roomIds: set<string>, location: string): (n: string)
    ensures location in roomIds ==> n == CenterId(location)
    ensures location !in roomIds ==> n == location
  {
    if location in roomIds then CenterId(location) else location
  }

  /** get_shortest_path over a graph, a path finder and the ids of the rooms. */
  function NodePath(g: Graph, find: PathFinder, roomIds: set<string>, start: string, end: string)
    : (r: (seq<string>, seq<Point>))
    requires g.Valid()
    ensures |r.0| == |r.1|
    ensures forall i | 0 <= i < |r.0| :: r.0[i] in g.nodes.entries && r.1[i] == g.nodes.entries[r.0[i]].position
    ensures !find(g, LocationNode(roomIds, start), LocationNode(roomIds, end)).Found? ==> r == ([], [])
    ensures r.0 != [] ==> r.0 == find(g, LocationNode(roomIds, start), LocationNode(roomIds, end)).path
  {
    match find(g, LocationNode(roomIds, start), LocationNode(roomIds, end))
    case Found(p, _) =>
      if forall n | n in p :: n in g.nodes.entries then
        (p, seq(|p|, i requires 0 <= i < |p| => g.nodes.entries[p[i]].position))
      else ([], [])
    case _ => ([], [])
  }

  class NodeBasedBuilding {
    const building: Building
    /** The navigation graph; the node table holds the same nodes with the same attributes. */
    const graph: Graph
    /** The shortest path search over the graph. */
    const find: PathFinder

    constructor (building: Building, norm: Norm, find: PathFinder)
      requires building.Valid()
      ensures this.building == building && this.find == find
      ensures graph.Valid() && graph.nodes == CreatedNodes(building, norm)
      ensures graph.weight == BuiltWeights(building, norm)
    {
      var created := CreateAllNodes(building, norm);
      var connected := ConnectNodes(created, norm);
      LinkedAppend(map[], CreatedEdges(building, norm), ConnectWrites(created.nodes, norm));
      this.building := building;
      this.graph := connected;
      this.find := find;
    }

    /** The node a location names: a room id stands for the room's centre. */
    function NodeFor(location: string): string
      reads building
    {
      LocationNode(building.rooms.entries.Keys, location)
    }

    /** get_shortest_path: the node path and the position of each node on it, or ([], [])
        when no path is found or anything else goes wrong. */
    function GetShortestPath(start: string, end: string): (r: (seq<string>, seq<Point>))
      reads building
      requires graph.Valid()
      ensures |r.0| == |r.1|
      ensures forall i | 0 <= i < |r.0| :: r.0[i] in graph.nodes.entries && r.1[i] == graph.nodes.entries[r.0[i]].position
      ensures !find(graph, NodeFor(start), NodeFor(end)).Found? ==> r == ([], [])
      ensures r.0 != [] ==> r.0 == find(graph, NodeFor(start), NodeFor(end)).path
    {
      NodePath(graph, find, building.rooms.entries.Keys, start, end)
    }

    /** get_all_nodes_on_floor: the nodes on `floor` with their attributes, in node order. */
    method GetAllNodesOnFloor(floor: int) returns (r: Dict<NodeInfo>)
      requires graph.Valid()
      ensures r.Valid()
      ensures r.keys == Eligible(graph.nodes.entries, graph.nodes.keys, OnFloor(floor))
      ensures forall n :: n in r.entries <==> n in graph.nodes.entries && graph.nodes.entries[n].floor == floor
      ensures forall n | n in r.entries :: r.entries[n] == graph.nodes.entries[n]
    {
      var nodes := graph.nodes;
      r := EmptyDict();
      var k := 0;
      while k < |nodes.keys|
        invariant 0 <= k <= |nodes.keys|
        invariant r.Valid() && r.keys == Eligible(nodes.entries, nodes.keys[..k], OnFloor(floor))
        invariant forall n | n in r.entries :: n in nodes.entries && r.entries[n] == nodes.entries[n]
      {
        var n := nodes.keys[k];
        TakeSnoc(nodes.keys, k);
        assert n !in nodes.keys[..k];
        if nodes.entries[n].floor == floor {
          r := r.Put(n, nodes.entries[n]);
        }
        k := k + 1;
      }
      assert nodes.keys[..k] == nodes.keys;
    }
  }

  /** A node on the given floor. */
  function OnFloor(floor: int): NodeInfo -> bool {
    (n: NodeInfo) => n.floor == floor
  }
}
