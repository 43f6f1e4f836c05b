/** What src/models/building_v2.py promises about its doors and its detailed graph: a door
    gets a position exactly when its room's floor has a corridor, beside the nearest one;
    the graph has a node for each placed door only, joined to its room by half the room's
    size; each corridor is cut into n = max(int(L / 2), 2) equal segments; and a placed door
    is tied to its nearest corridor node on its floor exactly when the floor has one. As
    in NodeFacts, the ids keep the kinds of node apart: door ids end in a letter and
    corridor node ids f"{corridor_id}_n{i}" in a digit. */
module DoorFacts {
  import opened Common
  import opened Dicts
  import opened Facility
  import opened Networks
  import opened Placement
  import opened CoarseGraph
  import opened NodeIds
  import opened NodeBased
  import opened NodeFacts
  import opened Doors

  // ---------------------------------------------------------------------------
  // finalize_doors

  /** A door keeps its id, room and floor. With no corridor on its room's floor it is left
      as it was; otherwise it sits beside a corridor on that floor whose midpoint is nearest
      the room's centre: on the room's edge toward the corridor, half the room's size from
      the centre, along x for a vertical corridor and along y for any other. */
  lemma {:induction false} FinalDoorRule(corridors: Dict<Corridor>, room: Room, d: Door, norm: Norm, sqrt: real -> real)
    requires corridors.Valid()
    ensures var f := FinalDoor(corridors, room, d, norm, sqrt);
      && f.id == d.id && f.roomId == d.roomId && f.floor == d.floor
      && ((forall k | k in corridors.entries :: corridors.entries[k].floor != room.floor) ==> f == d)
      && ((exists k | k in corridors.entries :: corridors.entries[k].floor == room.floor) ==>
            exists k | k in corridors.entries ::
              && corridors.entries[k].floor == room.floor
              && (forall j | j in corridors.entries && corridors.entries[j].floor == room.floor ::
                    norm(room.position, Midpoint(corridors.entries[k].start, corridors.entries[k].end))
                    <= norm(room.position, Midpoint(corridors.entries[j].start, corridors.entries[j].end)))
              && f.position.Some? && FacesCorridor(room, corridors.entries[k], sqrt(room.area), f.position.value))
  {
    var r := NearestCorridor(corridors, room, norm);
    if r.Some? {
      var cands := Eligible(corridors.entries, corridors.keys, CorridorOnFloor(room.floor));
      NearestAmongLeast(cands, corridors.entries, CorridorMidpoint(), room.position, norm);
      var k := r.value.0;
      forall j | j in corridors.entries && corridors.entries[j].floor == room.floor
        ensures norm(room.position, Midpoint(corridors.entries[k].start, corridors.entries[k].end))
                <= norm(room.position, Midpoint(corridors.entries[j].start, corridors.entries[j].end))
      {
        assert j in cands;
      }
    }
  }

  /** Point p is on the edge of a square room of side `size` toward corridor c: level with
      the centre, `size / 2` from it on the side where the corridor starts. */
  ghost predicate FacesCorridor(room: Room, c: Corridor, size: real, p: Point) {
    var o := room.position;
    && (Vertical(c) ==> p.y == o.y && Abs(p.x - o.x) == Abs(size / 2.0)
                        && (size > 0.0 ==> (p.x > o.x <==> c.start.x > o.x)))
    && (!Vertical(c) ==> p.x == o.x && Abs(p.y - o.y) == Abs(size / 2.0)
                         && (size > 0.0 ==> (p.y > o.y <==> c.start.y > o.y)))
  }

  // ---------------------------------------------------------------------------
  // The corridor segments

  /** A corridor of length L is cut into n segments, about one per two metres and at
      least two: n = 2 below 6 m, and 2n <= L < 2n + 2 from 4 m on. */
  lemma {:induction false} SegmentCountRule(c: Corridor, norm: Norm)
    ensures var n, len := SegmentCount(c, norm), CorridorLength(c, norm);
      && n >= 2 && (len < 6.0 ==> n == 2) && (len >= 4.0 ==> 2.0 * n as real <= len < 2.0 * n as real + 2.0)
  {
    var len := CorridorLength(c, norm);
    var half := Trunc(len / 2.0);
    if len >= 4.0 {
      assert half as real <= len / 2.0 < half as real + 1.0;
    }
  }

  /** The corridor's n + 1 nodes (corridor id, "_n", index) lie on its floor and run from its
      start to its end. */
  lemma {:induction false} SegmentNodesLayout(cid: string, c: Corridor, norm: Norm)
    ensures var n, ws := SegmentCount(c, norm), SegmentNodes(cid, c, norm);
      && |ws| == n + 1
      && (forall i | 0 <= i <= n :: ws[i].0 == WaypointId(cid, 'n', i) && ws[i].1.kind == CorridorNode && ws[i].1.floor == c.floor)
      && ws[0].1.position == c.start && ws[n].1.position == c.end
  {
    var n := SegmentCount(c, norm);
    var ws := SegmentNodes(cid, c, norm);
    forall i | 0 <= i <= n
      ensures ws[i] == (WaypointId(cid, 'n', i), NodeInfo(CorridorNode, Lerp(c.start, c.end, Part(i as real, n)), c.floor))
    {
    }
    PartEnds(n);
  }

  lemma {:induction false} PartEnds(n: int)
    requires n > 0
    ensures Part(0 as real, n) == 0.0 && Part(n as real, n) == 1.0
  {
    DivideBack(n as real, n as real);
  }

  /** Edge i joins node i to node i + 1, and all n edges have the same weight L / n (which
      PartTimes multiplies back to L). */
  lemma {:induction false} SegmentEdgesLayout(cid: string, c: Corridor, norm: Norm)
    ensures var n, len, ws, es := SegmentCount(c, norm), CorridorLength(c, norm), SegmentNodes(cid, c, norm), SegmentEdges(cid, c, norm);
      && |es| == n
      && (forall i | 0 <= i < n :: es[i].fromId == ws[i].0 && es[i].toId == ws[i + 1].0 && es[i].distance == Part(len, n))
  {
    var n, len := SegmentCount(c, norm), CorridorLength(c, norm);
    var ws, es := SegmentNodes(cid, c, norm), SegmentEdges(cid, c, norm);
    var w := Part(len, n);
    forall i | 0 <= i < n
      ensures es[i].fromId == ws[i].0 && es[i].toId == ws[i + 1].0 && es[i].distance == w
    {
      SegmentEdgeJoins(cid, c, norm, i);
    }
  }

  /** Edge i of a corridor joins its nodes i and i + 1 with weight L / n. */
  lemma {:induction false} SegmentEdgeJoins(cid: string, c: Corridor, norm: Norm, i: nat)
    requires i < SegmentCount(c, norm)
    ensures var ws, es := SegmentNodes(cid, c, norm), SegmentEdges(cid, c, norm);
      es[i].fromId == ws[i].0 && es[i].toId == ws[i + 1].0
      && es[i].distance == Part(CorridorLength(c, norm), SegmentCount(c, norm))
  {
    SegmentEdgeAt(cid, c, norm, i);
    SegmentNodeAt(cid, c, norm, i);
    SegmentNodeAt(cid, c, norm, i + 1);
  }

  /** Together the edges of a corridor add up to its length. */
  lemma {:induction false} SegmentTotal(cid: string, c: Corridor, norm: Norm)
    ensures Sum(ChainDistances(SegmentEdges(cid, c, norm))) == CorridorLength(c, norm)
  {
    var n, len := SegmentCount(c, norm), CorridorLength(c, norm);
    SumUniform(ChainDistances(SegmentEdges(cid, c, norm)), Part(len, n));
    PartTimes(len, n);
  }

  lemma {:induction false} PartTimes(x: real, n: int)
    requires n > 0
    ensures Part(x, n) * n as real == x && n as real * Part(x, n) == x
  {
    DivideBack(n as real, x);
  }

  // ---------------------------------------------------------------------------
  // Linking doors and exits

  /** The link of a door or an exit: at most one edge, from it to a corridor node on its
      floor at the distance between them, none nearer; no edge when the floor has no
      corridor node, and one whenever it has one (corridor node ids being non-empty). */
  lemma {:induction false} LinkRule(nodes: Dict<NodeInfo>, from: string, pos: Point, floor: int, norm: Norm)
    requires nodes.Valid()
    ensures var l := Link(nodes, from, pos, floor, norm);
      && |l| <= 1
      && (forall x | x in l ::
            && x.fromId == from && x.toId in nodes.entries && CorridorNodeOnFloor(floor)(nodes.entries[x.toId])
            && x.distance == norm(pos, nodes.entries[x.toId].position)
            && forall m | m in nodes.entries && CorridorNodeOnFloor(floor)(nodes.entries[m]) ::
                 x.distance <= norm(pos, nodes.entries[m].position))
      && ((forall m | m in nodes.entries :: !CorridorNodeOnFloor(floor)(nodes.entries[m])) ==> l == [])
      && ((forall m | m in nodes.entries && nodes.entries[m].kind == CorridorNode :: m != "") ==>
            (l != [] <==> exists m | m in nodes.entries :: CorridorNodeOnFloor(floor)(nodes.entries[m])))
  {
    NearestCorridorNodeRule(nodes, pos, floor, norm);
  }

  /** A door without a position gets one from finalize_doors exactly when a corridor lies
      on its room's floor. */
  lemma {:induction false} FinalizedPlacement(rooms: Dict<Room>, corridors: Dict<Corridor>, doors: Dict<Door>, norm: Norm, sqrt: real -> real, k: string)
    requires DoorsOf(rooms, doors) && corridors.Valid() && k in doors.entries && doors.entries[k].position.None?
    ensures var room := rooms.entries[doors.entries[k].roomId];
      Finalized(rooms, corridors, doors, norm, sqrt).entries[k].position.Some?
      <==> exists c | c in corridors.entries :: corridors.entries[c].floor == room.floor
  {
    var room := rooms.entries[doors.entries[k].roomId];
    FinalizedDoors(rooms, corridors, doors, norm, sqrt);
    FinalDoorRule(corridors, room, doors.entries[k], norm, sqrt);
  }

  // ---------------------------------------------------------------------------
  // The shape of the writes

  /** The id of a corridor node of the building with doors. */
  ghost predicate IsSegmentNode(s: string) {
    exists c: string, i: nat :: s == WaypointId(c, 'n', i)
  }

  lemma {:induction false} SegmentNodeFacts(s: string)
    ensures IsSegmentNode(s) ==> s != "" && EndsInDigit(s)
  {
    if IsSegmentNode(s) {
      var c: string, i: nat :| s == WaypointId(c, 'n', i);
      WaypointEndsInDigit(c, 'n', i);
    }
  }

  /** A door id is no corridor node id. */
  lemma {:induction false} DoorIdNotSegment(r: string)
    ensures !IsSegmentNode(DoorId(r))
  {
    SegmentNodeFacts(DoorId(r));
    RoomIdsEndInLetter(r);
  }

  lemma {:induction false} AllSegmentNodesShape(corridors: Dict<Corridor>, keys: seq<string>, norm: Norm)
    requires forall k | k in keys :: k in corridors.entries
    ensures forall p | p in AllSegmentNodes(corridors, keys, norm) :: exists k, i ::
              && k in keys && 0 <= i < |SegmentNodes(k, corridors.entries[k], norm)|
              && p == SegmentNodes(k, corridors.entries[k], norm)[i]
  {
    if keys != [] {
      AllSegmentNodesShape(corridors, keys[..|keys| - 1], norm);
    }
  }

  lemma {:induction false} SegmentNodeKinds(corridors: Dict<Corridor>, norm: Norm)
    requires corridors.Valid()
    ensures forall p | p in AllSegmentNodes(corridors, corridors.keys, norm) :: IsSegmentNode(p.0) && p.1.kind == CorridorNode
  {
    AllSegmentNodesShape(corridors, corridors.keys, norm);
    forall p | p in AllSegmentNodes(corridors, corridors.keys, norm) ensures IsSegmentNode(p.0) && p.1.kind == CorridorNode {
      var k, i :| && k in corridors.keys && 0 <= i < |SegmentNodes(k, corridors.entries[k], norm)|
                  && p == SegmentNodes(k, corridors.entries[k], norm)[i];
      assert p.0 == WaypointId(k, 'n', i);
    }
  }

  lemma {:induction false} AllSegmentEdgesShape(corridors: Dict<Corridor>, keys: seq<string>, norm: Norm)
    requires forall k | k in keys :: k in corridors.entries
    ensures forall x | x in AllSegmentEdges(corridors, keys, norm) :: exists k, i ::
              && k in keys && 0 <= i < |SegmentEdges(k, corridors.entries[k], norm)|
              && x == SegmentEdges(k, corridors.entries[k], norm)[i]
  {
    if keys != [] {
      AllSegmentEdgesShape(corridors, keys[..|keys| - 1], norm);
    }
  }

  /** Every corridor edge joins two corridor node ids. */
  lemma {:induction false} SegmentEdgeEnds(corridors: Dict<Corridor>, norm: Norm)
    requires corridors.Valid()
    ensures forall x | x in AllSegmentEdges(corridors, corridors.keys, norm) :: IsSegmentNode(x.fromId) && IsSegmentNode(x.toId)
  {
    AllSegmentEdgesShape(corridors, corridors.keys, norm);
    forall x | x in AllSegmentEdges(corridors, corridors.keys, norm) ensures IsSegmentNode(x.fromId) && IsSegmentNode(x.toId) {
      var k, i :| && k in corridors.keys && 0 <= i < |SegmentEdges(k, corridors.entries[k], norm)|
                  && x == SegmentEdges(k, corridors.entries[k], norm)[i];
      SegmentEdgeIds(k, corridors.entries[k], norm, i);
    }
  }

  lemma {:induction false} SegmentEdgeIds(cid: string, c: Corridor, norm: Norm, i: nat)
    requires i < SegmentCount(c, norm)
    ensures IsSegmentNode(SegmentEdges(cid, c, norm)[i].fromId) && IsSegmentNode(SegmentEdges(cid, c, norm)[i].toId)
  {
    SegmentEdgeAt(cid, c, norm, i);
    var u, v := WaypointId(cid, 'n', i), WaypointId(cid, 'n', i + 1);
    assert IsSegmentNode(u) by { assert u == WaypointId(cid, 'n', i); }
    assert IsSegmentNode(v) by { assert v == WaypointId(cid, 'n', i + 1); }
  }

  lemma {:induction false} SegmentEdgesNonNegative(corridors: Dict<Corridor>, norm: Norm)
    requires corridors.Valid() && NonNegativeNorm(norm)
    ensures forall x | x in AllSegmentEdges(corridors, corridors.keys, norm) :: x.distance >= 0.0
  {
    AllSegmentEdgesShape(corridors, corridors.keys, norm);
    forall x | x in AllSegmentEdges(corridors, corridors.keys, norm) ensures x.distance >= 0.0 {
      var k, i :| && k in corridors.keys && 0 <= i < |SegmentEdges(k, corridors.entries[k], norm)|
                  && x == SegmentEdges(k, corridors.entries[k], norm)[i];
      var co := corridors.entries[k];
      SegmentEdgeAt(k, co, norm, i);
      assert CorridorLength(co, norm) >= 0.0;
      PartNonNegative(CorridorLength(co, norm), SegmentCount(co, norm));
    }
  }

  /** Edge i of a corridor, written out. */
  lemma {:induction false} SegmentEdgeAt(cid: string, c: Corridor, norm: Norm, i: nat)
    requires i < SegmentCount(c, norm)
    ensures SegmentEdges(cid, c, norm)[i]
              == Connection(WaypointId(cid, 'n', i), WaypointId(cid, 'n', i + 1), Part(CorridorLength(c, norm), SegmentCount(c, norm)))
  {
  }

  lemma {:induction false} PartNonNegative(x: real, n: int)
    requires n > 0 && x >= 0.0
    ensures Part(x, n) >= 0.0
  {
  }

  lemma {:induction false} RoomWritesShape(rooms: Dict<Room>)
    requires rooms.Valid()
    ensures forall p | p in RoomNodeWrites(rooms) :: p.0 in rooms.entries && p.1.kind == RoomNode
  {
    var ws := RoomNodeWrites(rooms);
    forall p | p in ws ensures p.0 in rooms.entries && p.1.kind == RoomNode {
      var i :| 0 <= i < |ws| && ws[i] == p;
    }
  }

  lemma {:induction false} DoorWritesShape(doors: Dict<Door>)
    requires doors.Valid()
    ensures forall p | p in DoorNodeWrites(doors) ::
              p.0 in PlacedDoors(doors) && p.1 == NodeInfo(DoorNode, doors.entries[p.0].position.value, doors.entries[p.0].floor)
  {
    var ws := DoorNodeWrites(doors);
    forall p | p in ws
      ensures p.0 in PlacedDoors(doors) && p.1 == NodeInfo(DoorNode, doors.entries[p.0].position.value, doors.entries[p.0].floor)
    {
      var i :| 0 <= i < |ws| && ws[i] == p;
    }
  }

  lemma {:induction false} ExitWritesShape(exits: Dict<Exit>)
    requires exits.Valid()
    ensures forall p | p in ExitWrites(exits) :: p.0 in exits.entries
  {
    var ws := ExitWrites(exits);
    forall p | p in ws ensures p.0 in exits.entries {
      var i :| 0 <= i < |ws| && ws[i] == p;
    }
  }

  /** A prefix of the exit writes writes only exit ids: any other node keeps what it had. */
  lemma {:induction false} ExitWritesKeep(nodes: Dict<NodeInfo>, exits: Dict<Exit>, n: nat, k: string)
    requires nodes.Valid() && exits.Valid() && n <= |exits.keys| && k !in exits.entries
    ensures k in PutAll(nodes, ExitWrites(exits)[..n]).entries <==> k in nodes.entries
    ensures k in nodes.entries ==> PutAll(nodes, ExitWrites(exits)[..n]).entries[k] == nodes.entries[k]
  {
    var ws := ExitWrites(exits)[..n];
    ExitWritesShape(exits);
    assert forall p | p in ws :: p in ExitWrites(exits);
    LastWriteNone(ws, k);
    PutAllLast(nodes, ws, k);
  }

  /** The corridor nodes of the graph before the exits come in are the corridors' nodes. */
  lemma {:induction false} CorridorNodesAreSegments(b: Building, doors: Dict<Door>, norm: Norm)
    requires b.Valid() && DoorsOf(b.rooms, doors)
    ensures var nodes := NodesBeforeExits(b, doors, norm);
      forall m | m in nodes.entries && nodes.entries[m].kind == CorridorNode :: IsSegmentNode(m)
  {
    var rw, dw := RoomNodeWrites(b.rooms), DoorNodeWrites(doors);
    var sn := AllSegmentNodes(b.corridors, b.corridors.keys, norm);
    var ws := rw + dw + sn;
    var nodes := NodesBeforeExits(b, doors, norm);
    RoomWritesShape(b.rooms);
    DoorWritesShape(doors);
    SegmentNodeKinds(b.corridors, norm);
    forall m | m in nodes.entries && nodes.entries[m].kind == CorridorNode ensures IsSegmentNode(m) {
      PutAllLast(EmptyDict(), ws, m);
      LastWriteIsWrite(ws, m);
      var p := (m, LastWrite(ws, m).value);
      assert p in rw || p in dw || p in sn;
    }
  }

  /** A door id names a node of the graph before the exits exactly when the door is placed,
      and then the node is a door node at the door's position on its floor. */
  lemma {:induction false} DoorNodeBeforeExits(b: Building, doors: Dict<Door>, norm: Norm, k: string)
    requires b.Valid() && DoorsOf(b.rooms, doors) && k in doors.entries && k !in b.rooms.entries
    ensures var nodes, d := NodesBeforeExits(b, doors, norm), doors.entries[k];
      && (k in nodes.entries <==> d.position.Some?)
      && (d.position.Some? ==> nodes.entries[k] == NodeInfo(DoorNode, d.position.value, d.floor))
  {
    var rw, dw := RoomNodeWrites(b.rooms), DoorNodeWrites(doors);
    var sn := AllSegmentNodes(b.corridors, b.corridors.keys, norm);
    DoorIdNotSegment(doors.entries[k].roomId);
    SegmentNodeKinds(b.corridors, norm);
    LastWriteNone(sn, k);
    RoomWritesShape(b.rooms);
    LastWriteNone(rw, k);
    LastWriteAppend(rw + dw, sn, k);
    LastWriteAppend(rw, dw, k);
    PutAllLast(EmptyDict(), rw + dw + sn, k);
    PutAllLast(EmptyDict(), dw, k);
    DoorWritesShape(doors);
    if doors.entries[k].position.Some? {
      var i :| 0 <= i < |PlacedDoors(doors)| && PlacedDoors(doors)[i] == k;
      assert Firsts(dw)[i] == k;
      LastWriteIsWrite(dw, k);
    } else {
      LastWriteNone(dw, k);
    }
  }

  // ---------------------------------------------------------------------------
  // The nodes of the detailed graph

  /** build_detailed_graph has a node for a door exactly when the door has a position: a
      door node at that position on the door's floor. (A room or an exit whose id is the
      door's id would overwrite it, so the door id is taken to be neither.) */
  lemma {:induction false} DoorNodeInGraph(b: Building, doors: Dict<Door>, norm: Norm, k: string)
    requires b.Valid() && DoorsOf(b.rooms, doors) && k in doors.entries
    requires k !in b.rooms.entries && k !in b.exits.entries
    ensures var nodes, d := DetailedNodes(b, doors, norm), doors.entries[k];
      && (k in nodes.entries <==> d.position.Some?)
      && (d.position.Some? ==> nodes.entries[k] == NodeInfo(DoorNode, d.position.value, d.floor))
  {
    DoorNodeBeforeExits(b, doors, norm, k);
    ExitWritesKeep(NodesBeforeExits(b, doors, norm), b.exits, |b.exits.keys|, k);
    assert ExitWrites(b.exits)[..|b.exits.keys|] == ExitWrites(b.exits);
  }

  /** The placed door's edge to its room node is the only write joining the two. */
  lemma {:induction false} RoomEdgesJoin(rooms: Dict<Room>, doors: Dict<Door>, sqrt: real -> real, k: string)
    requires DoorsOf(rooms, doors) && k in PlacedDoors(doors) && k !in rooms.entries
    ensures var r, a := doors.entries[k].roomId, DoorRoomEdges(rooms, doors, sqrt);
      && (exists x | x in a :: Links(x, r, k))
      && forall x | x in a && Links(x, r, k) :: x.distance == sqrt(rooms.entries[r].area) / 2.0
  {
    var r, a := doors.entries[k].roomId, DoorRoomEdges(rooms, doors, sqrt);
    var i :| 0 <= i < |PlacedDoors(doors)| && PlacedDoors(doors)[i] == k;
    assert a[i] in a && Links(a[i], r, k);
    forall x | x in a && Links(x, r, k) ensures x.distance == sqrt(rooms.entries[r].area) / 2.0 {
      var j :| 0 <= j < |a| && a[j] == x;
      assert x == RoomEdge(rooms, doors, sqrt, PlacedDoors(doors)[j]);
    }
  }

  /** Every door link runs from a placed door and is that door's link. */
  lemma {:induction false} DoorLinksShape(nodes: Dict<NodeInfo>, doors: Dict<Door>, n: nat, norm: Norm)
    requires nodes.Valid() && doors.Valid() && n <= |PlacedDoors(doors)|
    ensures forall x | x in DoorLinks(nodes, doors, n, norm) ::
              && x.fromId in PlacedDoors(doors)
              && x in Link(nodes, x.fromId, doors.entries[x.fromId].position.value, doors.entries[x.fromId].floor, norm)
  {
    if n > 0 {
      DoorLinksShape(nodes, doors, n - 1, norm);
      var k := PlacedDoors(doors)[n - 1];
      var prev, last := DoorLinks(nodes, doors, n - 1, norm), Link(nodes, k, doors.entries[k].position.value, doors.entries[k].floor, norm);
      assert DoorLinks(nodes, doors, n, norm) == prev + last;
      LinkFrom(nodes, k, doors.entries[k].position.value, doors.entries[k].floor, norm);
      assert k in PlacedDoors(doors);
    }
  }

  /** A link runs to a corridor node of the graph. */
  lemma {:induction false} LinkTarget(nodes: Dict<NodeInfo>, from: string, pos: Point, floor: int, norm: Norm)
    requires nodes.Valid()
    ensures forall x | x in Link(nodes, from, pos, floor, norm) :: x.toId in nodes.entries && nodes.entries[x.toId].kind == CorridorNode
  {
    LinkRule(nodes, from, pos, floor, norm);
  }

  /** A link runs from the node it was made for. */
  lemma {:induction false} LinkFrom(nodes: Dict<NodeInfo>, from: string, pos: Point, floor: int, norm: Norm)
    requires nodes.Valid()
    ensures forall x | x in Link(nodes, from, pos, floor, norm) :: x.fromId == from
  {
    LinkRule(nodes, from, pos, floor, norm);
  }

  /** The link of each of the first n placed doors is among the door links. */
  lemma {:induction false} DoorLinksHave(nodes: Dict<NodeInfo>, doors: Dict<Door>, n: nat, norm: Norm, j: nat)
    requires nodes.Valid() && doors.Valid() && j < n <= |PlacedDoors(doors)|
    ensures var k := PlacedDoors(doors)[j];
      forall x | x in Link(nodes, k, doors.entries[k].position.value, doors.entries[k].floor, norm) :: x in DoorLinks(nodes, doors, n, norm)
  {
    if j < n - 1 {
      DoorLinksHave(nodes, doors, n - 1, norm, j);
    }
  }

  /** Every exit link runs from an exit, to an exit or to a corridor node of the graph
      before the exits came in; with a norm that is never negative its weight is too. */
  lemma {:induction false} ExitLinksShape(nodes: Dict<NodeInfo>, exits: Dict<Exit>, n: nat, norm: Norm)
    requires nodes.Valid() && exits.Valid() && n <= |exits.keys|
    ensures forall x | x in ExitLinks(nodes, exits, n, norm) ::
              && x.fromId in exits.entries
              && (x.toId in exits.entries || (x.toId in nodes.entries && nodes.entries[x.toId].kind == CorridorNode))
              && (NonNegativeNorm(norm) ==> x.distance >= 0.0)
  {
    if n > 0 {
      ExitLinksShape(nodes, exits, n - 1, norm);
      var e := exits.entries[exits.keys[n - 1]];
      var d := PutAll(nodes, ExitWrites(exits)[..n]);
      LinkRule(d, exits.keys[n - 1], e.position, e.floor, norm);
      forall x | x in Link(d, exits.keys[n - 1], e.position, e.floor, norm) && x.toId !in exits.entries
        ensures x.toId in nodes.entries && nodes.entries[x.toId].kind == CorridorNode
      {
        ExitWritesKeep(nodes, exits, n, x.toId);
      }
    }
  }

  // ---------------------------------------------------------------------------
  // The edges of the detailed graph

  /** A placed door and its room are joined by an edge of weight room_size / 2 =
      sqrt(area) / 2, in both directions, and no later write changes it. (The door id is
      taken to be no room's or exit's id, and the room's id no corridor node's id.) */
  lemma {:induction false} RoomDoorEdgeInGraph(b: Building, doors: Dict<Door>, norm: Norm, sqrt: real -> real, k: string)
    requires b.Valid() && DoorsOf(b.rooms, doors) && k in doors.entries && doors.entries[k].position.Some?
    requires k !in b.rooms.entries && k !in b.exits.entries && !IsSegmentNode(doors.entries[k].roomId)
    ensures var r, w := doors.entries[k].roomId, DetailedWeights(b, doors, norm, sqrt);
      var half := sqrt(b.rooms.entries[r].area) / 2.0;
      (r, k) in w && w[(r, k)] == half && (k, r) in w && w[(k, r)] == half
  {
    var r := doors.entries[k].roomId;
    var before := NodesBeforeExits(b, doors, norm);
    var sb := AllSegmentEdges(b.corridors, b.corridors.keys, norm);
    var c := DoorLinks(before, doors, |PlacedDoors(doors)|, norm);
    var e := ExitLinks(before, b.exits, |b.exits.keys|, norm);
    var a := DoorRoomEdges(b.rooms, doors, sqrt);
    assert DetailedWeights(b, doors, norm, sqrt) == Linked(map[], a + sb + c + e);
    RoomEdgesJoin(b.rooms, doors, sqrt, k);
    LaterEdgesMissRoomDoor(b, doors, norm, k);
    LinkedThroughFirst(a, sb, c, e, r, k, sqrt(b.rooms.entries[r].area) / 2.0);
  }

  /** No segment edge, door link or exit link joins a placed door and its room. */
  lemma {:induction false} LaterEdgesMissRoomDoor(b: Building, doors: Dict<Door>, norm: Norm, k: string)
    requires b.Valid() && DoorsOf(b.rooms, doors) && k in doors.entries && doors.entries[k].position.Some?
    requires k !in b.rooms.entries && k !in b.exits.entries && !IsSegmentNode(doors.entries[k].roomId)
    ensures var before := NodesBeforeExits(b, doors, norm);
      forall x | x in AllSegmentEdges(b.corridors, b.corridors.keys, norm) + DoorLinks(before, doors, |PlacedDoors(doors)|, norm)
                      + ExitLinks(before, b.exits, |b.exits.keys|, norm) ::
        !Links(x, doors.entries[k].roomId, k)
  {
    var r := doors.entries[k].roomId;
    var before := NodesBeforeExits(b, doors, norm);
    var sb := AllSegmentEdges(b.corridors, b.corridors.keys, norm);
    SegmentEdgeEnds(b.corridors, norm);
    DoorIdNotSegment(r);
    assert k == DoorId(r);
    LinksMissRoomDoor(b, doors, norm, k);
    MissesBoth(sb, DoorLinks(before, doors, |PlacedDoors(doors)|, norm), ExitLinks(before, b.exits, |b.exits.keys|, norm), r, k);
  }

  /** No edge of xs nor of ys + zs joins u and v, so none of the three together does. */
  lemma {:induction false} MissesBoth(xs: seq<Connection>, ys: seq<Connection>, zs: seq<Connection>, u: string, v: string)
    requires forall x | x in xs :: !Links(x, u, v)
    requires forall y | y in ys + zs :: !Links(y, u, v)
    ensures forall x | x in xs + ys + zs :: !Links(x, u, v)
  {
    assert xs + ys + zs == xs + (ys + zs);
  }

  /** No door link and no exit link joins a placed door and its room. */
  lemma {:induction false} LinksMissRoomDoor(b: Building, doors: Dict<Door>, norm: Norm, k: string)
    requires b.Valid() && DoorsOf(b.rooms, doors) && k in doors.entries && doors.entries[k].position.Some?
    requires k !in b.rooms.entries && k !in b.exits.entries && !IsSegmentNode(doors.entries[k].roomId)
    ensures var before := NodesBeforeExits(b, doors, norm);
      forall x | x in DoorLinks(before, doors, |PlacedDoors(doors)|, norm) + ExitLinks(before, b.exits, |b.exits.keys|, norm) ::
        !Links(x, doors.entries[k].roomId, k)
  {
    var r := doors.entries[k].roomId;
    var before := NodesBeforeExits(b, doors, norm);
    CorridorNodesAreSegments(b, doors, norm);
    DoorNodeBeforeExits(b, doors, norm, k);
    LinksMissDoorNode(before, doors, b.exits, norm, r, k);
  }

  /** In a graph whose corridor nodes are all segment nodes, no door link and no exit
      link joins a door node that is no exit to a node that is no segment node. */
  lemma {:induction false} LinksMissDoorNode(nodes: Dict<NodeInfo>, doors: Dict<Door>, exits: Dict<Exit>, norm: Norm,
                                             r: string, k: string)
    requires nodes.Valid() && doors.Valid() && exits.Valid()
    requires forall m | m in nodes.entries && nodes.entries[m].kind == CorridorNode :: IsSegmentNode(m)
    requires k in nodes.entries && nodes.entries[k].kind == DoorNode && k !in exits.entries && !IsSegmentNode(r)
    ensures forall x | x in DoorLinks(nodes, doors, |PlacedDoors(doors)|, norm) + ExitLinks(nodes, exits, |exits.keys|, norm) ::
              !Links(x, r, k)
  {
    var c, e := DoorLinks(nodes, doors, |PlacedDoors(doors)|, norm), ExitLinks(nodes, exits, |exits.keys|, norm);
    DoorLinksMissDoorNode(nodes, doors, norm, r, k);
    ExitLinksShape(nodes, exits, |exits.keys|, norm);
    assert forall x | x in c + e :: x in c || x in e;
  }

  lemma {:induction false} DoorLinksMissDoorNode(nodes: Dict<NodeInfo>, doors: Dict<Door>, norm: Norm, r: string, k: string)
    requires nodes.Valid() && doors.Valid()
    requires forall m | m in nodes.entries && nodes.entries[m].kind == CorridorNode :: IsSegmentNode(m)
    requires k in nodes.entries && nodes.entries[k].kind == DoorNode && !IsSegmentNode(r)
    ensures forall x | x in DoorLinks(nodes, doors, |PlacedDoors(doors)|, norm) :: !Links(x, r, k)
  {
    var c := DoorLinks(nodes, doors, |PlacedDoors(doors)|, norm);
    DoorLinksShape(nodes, doors, |PlacedDoors(doors)|, norm);
    forall x | x in c ensures !Links(x, r, k) {
      LinkTarget(nodes, x.fromId, doors.entries[x.fromId].position.value, doors.entries[x.fromId].floor, norm);
      assert x.toId in nodes.entries && nodes.entries[x.toId].kind == CorridorNode;
    }
  }

  /** Every room edge joins a placed door to its room, with weight sqrt(area) / 2. */
  lemma {:induction false} RoomEdgesShape(rooms: Dict<Room>, doors: Dict<Door>, sqrt: real -> real)
    requires DoorsOf(rooms, doors)
    ensures forall x | x in DoorRoomEdges(rooms, doors, sqrt) ::
              && x.toId in PlacedDoors(doors) && x.fromId == doors.entries[x.toId].roomId
              && x.distance == sqrt(rooms.entries[x.fromId].area) / 2.0
  {
    var a := DoorRoomEdges(rooms, doors, sqrt);
    forall x | x in a
      ensures && x.toId in PlacedDoors(doors) && x.fromId == doors.entries[x.toId].roomId
              && x.distance == sqrt(rooms.entries[x.fromId].area) / 2.0
    {
      var j :| 0 <= j < |a| && a[j] == x;
      assert x == RoomEdge(rooms, doors, sqrt, PlacedDoors(doors)[j]);
    }
  }

  /** A placed door is joined to the nearest corridor node on its floor, at the distance
      between them, in both directions, whenever the floor has a corridor node. (The door
      id is taken to be no room's or exit's id, and no exit id a corridor node's id.) */
  lemma {:induction false} DoorLinkInGraph(b: Building, doors: Dict<Door>, norm: Norm, sqrt: real -> real, k: string)
    requires b.Valid() && DoorsOf(b.rooms, doors) && k in doors.entries && doors.entries[k].position.Some?
    requires k !in b.rooms.entries && k !in b.exits.entries
    requires forall x | x in b.exits.entries :: !IsSegmentNode(x)
    ensures var d, before, w := doors.entries[k], NodesBeforeExits(b, doors, norm), DetailedWeights(b, doors, norm, sqrt);
      var near := NearestCorridorNode(before, d.position.value, d.floor, norm);
      near.Some? ==> && (k, near.value.0) in w && w[(k, near.value.0)] == near.value.1
                     && (near.value.0, k) in w && w[(near.value.0, k)] == near.value.1
  {
    var d, before := doors.entries[k], NodesBeforeExits(b, doors, norm);
    var near := NearestCorridorNode(before, d.position.value, d.floor, norm);
    if near.Some? {
      var m, dist := near.value.0, near.value.1;
      var c := DoorLinks(before, doors, |PlacedDoors(doors)|, norm);
      var e := ExitLinks(before, b.exits, |b.exits.keys|, norm);
      NearestCorridorNodeRule(before, d.position.value, d.floor, norm);
      CorridorNodesAreSegments(b, doors, norm);
      SegmentNodeFacts(m);
      DoorLinkJoins(before, b.rooms, doors, norm, k);
      ExitLinksShape(before, b.exits, |b.exits.keys|, norm);
      DoorIdNotSegment(d.roomId);
      assert forall x | x in e :: !Links(x, k, m);
      LinkedThrough(map[], DoorRoomEdges(b.rooms, doors, sqrt) + AllSegmentEdges(b.corridors, b.corridors.keys, norm),
                    c, e, k, m, dist);
    }
  }

  /** Among the door links, the placed door's own link is the one write joining it to its
      nearest corridor node. */
  lemma {:induction false} DoorLinkJoins(nodes: Dict<NodeInfo>, rooms: Dict<Room>, doors: Dict<Door>, norm: Norm, k: string)
    requires nodes.Valid() && DoorsOf(rooms, doors) && k in doors.entries && doors.entries[k].position.Some?
    requires forall p | p in nodes.entries && nodes.entries[p].kind == CorridorNode :: IsSegmentNode(p)
    ensures var d := doors.entries[k];
      var near := NearestCorridorNode(nodes, d.position.value, d.floor, norm);
      var c := DoorLinks(nodes, doors, |PlacedDoors(doors)|, norm);
      near.Some? ==> && (exists x | x in c :: Links(x, k, near.value.0))
                     && forall x | x in c && Links(x, k, near.value.0) :: x.distance == near.value.1
  {
    var d := doors.entries[k];
    var near := NearestCorridorNode(nodes, d.position.value, d.floor, norm);
    if near.Some? {
      var m, dist := near.value.0, near.value.1;
      var c := DoorLinks(nodes, doors, |PlacedDoors(doors)|, norm);
      LinkOfNearest(nodes, k, d.position.value, d.floor, norm);
      var j :| 0 <= j < |PlacedDoors(doors)| && PlacedDoors(doors)[j] == k;
      DoorLinksHave(nodes, doors, |PlacedDoors(doors)|, norm, j);
      var x := Connection(k, m, dist);
      assert x in c && Links(x, k, m);
      DoorLinksFromDoor(nodes, rooms, doors, |PlacedDoors(doors)|, norm, k, m);
    }
  }

  /** With every corridor node a segment node, the link from a point is the one edge to
      its nearest corridor node on the floor, if there is one. */
  lemma {:induction false} LinkOfNearest(nodes: Dict<NodeInfo>, from: string, pos: Point, floor: int, norm: Norm)
    requires nodes.Valid()
    requires forall p | p in nodes.entries && nodes.entries[p].kind == CorridorNode :: IsSegmentNode(p)
    ensures var near := NearestCorridorNode(nodes, pos, floor, norm);
      near.Some? ==> Link(nodes, from, pos, floor, norm) == [Connection(from, near.value.0, near.value.1)]
  {
    var near := NearestCorridorNode(nodes, pos, floor, norm);
    if near.Some? {
      NearestCorridorNodeRule(nodes, pos, floor, norm);
      SegmentNodeFacts(near.value.0);
    }
  }

  /** A door link that joins a placed door to any node is the door's own link: the other
      end of every door link is a corridor node, and no door id is one. */
  lemma {:induction false} DoorLinksFromDoor(nodes: Dict<NodeInfo>, rooms: Dict<Room>, doors: Dict<Door>, n: nat, norm: Norm,
                                             k: string, m: string)
    requires nodes.Valid() && DoorsOf(rooms, doors) && n <= |PlacedDoors(doors)|
    requires forall p | p in nodes.entries && nodes.entries[p].kind == CorridorNode :: IsSegmentNode(p)
    requires k in doors.entries && doors.entries[k].position.Some?
    ensures forall x | x in DoorLinks(nodes, doors, n, norm) && Links(x, k, m) ::
              x in Link(nodes, k, doors.entries[k].position.value, doors.entries[k].floor, norm)
  {
    DoorLinksShape(nodes, doors, n, norm);
    DoorIdNotSegment(doors.entries[k].roomId);
    forall x | x in DoorLinks(nodes, doors, n, norm) && Links(x, k, m)
      ensures x in Link(nodes, k, doors.entries[k].position.value, doors.entries[k].floor, norm)
    {
      var f := x.fromId;
      LinkRule(nodes, f, doors.entries[f].position.value, doors.entries[f].floor, norm);
      assert IsSegmentNode(x.toId);
    }
  }

  /** A placed door on a floor without corridor nodes has no edge but the one to its room. */
  lemma {:induction false} UnlinkedDoor(b: Building, doors: Dict<Door>, norm: Norm, sqrt: real -> real, k: string)
    requires b.Valid() && DoorsOf(b.rooms, doors) && k in doors.entries && doors.entries[k].position.Some?
    requires k !in b.rooms.entries && k !in b.exits.entries
    requires var before := NodesBeforeExits(b, doors, norm);
      forall m | m in before.entries :: !CorridorNodeOnFloor(doors.entries[k].floor)(before.entries[m])
    ensures forall m | (k, m) in DetailedWeights(b, doors, norm, sqrt) :: m == doors.entries[k].roomId
  {
    var d, before := doors.entries[k], NodesBeforeExits(b, doors, norm);
    var a, sb := DoorRoomEdges(b.rooms, doors, sqrt), AllSegmentEdges(b.corridors, b.corridors.keys, norm);
    var c := DoorLinks(before, doors, |PlacedDoors(doors)|, norm);
    var e := ExitLinks(before, b.exits, |b.exits.keys|, norm);
    var ws := DetailedEdges(b, doors, norm, sqrt);
    assert ws == a + sb + c + e;
    RoomEdgesShape(b.rooms, doors, sqrt);
    SegmentEdgeEnds(b.corridors, norm);
    DoorIdNotSegment(d.roomId);
    CorridorNodesAreSegments(b, doors, norm);
    DoorNodeBeforeExits(b, doors, norm, k);
    DoorLinksAvoid(before, b.rooms, doors, |PlacedDoors(doors)|, norm, k);
    ExitLinksAvoid(before, b.exits, |b.exits.keys|, norm, k);
    forall x | x in ws ensures (x.fromId == k ==> x.toId == d.roomId) && (x.toId == k ==> x.fromId == d.roomId) {
      assert x in a || x in sb || x in c || x in e;
    }
    LinkedOnlyTo(ws, k, d.roomId);
  }

  /** No door link touches a placed door whose floor has no corridor node: every door link
      starts at a door whose floor has one and ends at a corridor node. */
  lemma {:induction false} DoorLinksAvoid(nodes: Dict<NodeInfo>, rooms: Dict<Room>, doors: Dict<Door>, n: nat, norm: Norm, k: string)
    requires nodes.Valid() && DoorsOf(rooms, doors) && n <= |PlacedDoors(doors)|
    requires forall p | p in nodes.entries && nodes.entries[p].kind == CorridorNode :: IsSegmentNode(p)
    requires k in doors.entries && doors.entries[k].position.Some?
    requires forall m | m in nodes.entries :: !CorridorNodeOnFloor(doors.entries[k].floor)(nodes.entries[m])
    ensures forall x | x in DoorLinks(nodes, doors, n, norm) :: x.fromId != k && x.toId != k
  {
    DoorLinksShape(nodes, doors, n, norm);
    DoorIdNotSegment(doors.entries[k].roomId);
    LinkRule(nodes, k, doors.entries[k].position.value, doors.entries[k].floor, norm);
    forall x | x in DoorLinks(nodes, doors, n, norm) ensures x.fromId != k && x.toId != k {
      var f := x.fromId;
      LinkRule(nodes, f, doors.entries[f].position.value, doors.entries[f].floor, norm);
      assert IsSegmentNode(x.toId);
    }
  }

  /** No exit link touches an id that is neither an exit nor a corridor node. */
  lemma {:induction false} ExitLinksAvoid(nodes: Dict<NodeInfo>, exits: Dict<Exit>, n: nat, norm: Norm, k: string)
    requires nodes.Valid() && exits.Valid() && n <= |exits.keys|
    requires k !in exits.entries && (k in nodes.entries ==> nodes.entries[k].kind != CorridorNode)
    ensures forall x | x in ExitLinks(nodes, exits, n, norm) :: x.fromId != k && x.toId != k
  {
    ExitLinksShape(nodes, exits, n, norm);
  }

  lemma {:induction false} SegmentNodeInAll(corridors: Dict<Corridor>, keys: seq<string>, norm: Norm, k: string, i: nat)
    requires forall k | k in keys :: k in corridors.entries
    requires k in keys && i < |SegmentNodes(k, corridors.entries[k], norm)|
    ensures SegmentNodes(k, corridors.entries[k], norm)[i] in AllSegmentNodes(corridors, keys, norm)
  {
    var init := keys[..|keys| - 1];
    assert keys == init + [keys[|keys| - 1]];
    if keys[|keys| - 1] != k {
      SegmentNodeInAll(corridors, init, norm, k, i);
    }
  }

  lemma {:induction false} SegmentEdgeInAll(corridors: Dict<Corridor>, keys: seq<string>, norm: Norm, k: string, i: nat)
    requires forall k | k in keys :: k in corridors.entries
    requires k in keys && i < |SegmentEdges(k, corridors.entries[k], norm)|
    ensures SegmentEdges(k, corridors.entries[k], norm)[i] in AllSegmentEdges(corridors, keys, norm)
  {
    var init := keys[..|keys| - 1];
    assert keys == init + [keys[|keys| - 1]];
    if keys[|keys| - 1] != k {
      SegmentEdgeInAll(corridors, init, norm, k, i);
    }
  }

  /** Corridor node i of a corridor is in the graph as the corridor loop wrote it, unless
      an exit shares its id. */
  lemma {:induction false} SegmentNodeInGraph(b: Building, doors: Dict<Door>, norm: Norm, cid: string, i: nat)
    requires b.Valid() && DoorsOf(b.rooms, doors) && cid in b.corridors.entries
    requires i <= SegmentCount(b.corridors.entries[cid], norm) && WaypointId(cid, 'n', i) !in b.exits.entries
    ensures var id, nodes := WaypointId(cid, 'n', i), DetailedNodes(b, doors, norm);
      id in nodes.entries && nodes.entries[id] == SegmentNodes(cid, b.corridors.entries[cid], norm)[i].1
  {
    var id := WaypointId(cid, 'n', i);
    var rw, dw := RoomNodeWrites(b.rooms), DoorNodeWrites(doors);
    var sn := AllSegmentNodes(b.corridors, b.corridors.keys, norm);
    SegmentNodeLastWrite(b.corridors, norm, cid, i);
    LastWriteAppend(rw + dw, sn, id);
    PutAllLast(EmptyDict(), rw + dw + sn, id);
    ExitWritesKeep(NodesBeforeExits(b, doors, norm), b.exits, |b.exits.keys|, id);
    assert ExitWrites(b.exits)[..|b.exits.keys|] == ExitWrites(b.exits);
  }

  /** Among the corridor loop's node writes, the last one to corridor node i of a corridor
      is that corridor's own. */
  lemma {:induction false} SegmentNodeLastWrite(corridors: Dict<Corridor>, norm: Norm, cid: string, i: nat)
    requires corridors.Valid() && cid in corridors.entries && i <= SegmentCount(corridors.entries[cid], norm)
    ensures LastWrite(AllSegmentNodes(corridors, corridors.keys, norm), WaypointId(cid, 'n', i))
              == Some(SegmentNodes(cid, corridors.entries[cid], norm)[i].1)
  {
    var id, co := WaypointId(cid, 'n', i), corridors.entries[cid];
    var sn := AllSegmentNodes(corridors, corridors.keys, norm);
    SegmentNodeAt(cid, co, norm, i);
    SegmentNodeInAll(corridors, corridors.keys, norm, cid, i);
    var j :| 0 <= j < |sn| && sn[j] == SegmentNodes(cid, co, norm)[i];
    assert Firsts(sn)[j] == id;
    PutAllLast(EmptyDict(), sn, id);
    LastWriteIsWrite(sn, id);
    AllSegmentNodesShape(corridors, corridors.keys, norm);
    var q := (id, LastWrite(sn, id).value);
    var k, j' :| && k in corridors.keys && 0 <= j' < |SegmentNodes(k, corridors.entries[k], norm)|
                 && q == SegmentNodes(k, corridors.entries[k], norm)[j'];
    SegmentNodeAt(k, corridors.entries[k], norm, j');
    WaypointInjective(k, cid, 'n', j', i);
  }

  /** Node i of a corridor, written out. */
  lemma {:induction false} SegmentNodeAt(cid: string, c: Corridor, norm: Norm, i: nat)
    requires i <= SegmentCount(c, norm)
    ensures var n := SegmentCount(c, norm);
      SegmentNodes(cid, c, norm)[i]
        == (WaypointId(cid, 'n', i), NodeInfo(CorridorNode, Lerp(c.start, c.end, Part(i as real, n)), c.floor))
  {
  }

  /** Consecutive corridor nodes i and i + 1 are joined by an edge of weight L / n of their
      corridor, in both directions, unless an exit shares one of their ids. */
  lemma {:induction false} SegmentEdgeInGraph(b: Building, doors: Dict<Door>, norm: Norm, sqrt: real -> real, cid: string, i: nat)
    requires b.Valid() && DoorsOf(b.rooms, doors) && cid in b.corridors.entries
    requires i < SegmentCount(b.corridors.entries[cid], norm)
    requires WaypointId(cid, 'n', i) !in b.exits.entries && WaypointId(cid, 'n', i + 1) !in b.exits.entries
    ensures var u, v, w := WaypointId(cid, 'n', i), WaypointId(cid, 'n', i + 1), DetailedWeights(b, doors, norm, sqrt);
      var share := SegmentEdges(cid, b.corridors.entries[cid], norm)[i].distance;
      (u, v) in w && w[(u, v)] == share && (v, u) in w && w[(v, u)] == share
  {
    var u, v := WaypointId(cid, 'n', i), WaypointId(cid, 'n', i + 1);
    var co := b.corridors.entries[cid];
    var before := NodesBeforeExits(b, doors, norm);
    var sb := AllSegmentEdges(b.corridors, b.corridors.keys, norm);
    SegmentEdgeInAll(b.corridors, b.corridors.keys, norm, cid, i);
    assert Links(SegmentEdges(cid, co, norm)[i], u, v);
    SegmentEdgesAgree(b.corridors, norm, cid, i);
    LinksMissSegment(b, doors, norm, cid, i);
    LinkedThroughSecond(DoorRoomEdges(b.rooms, doors, sqrt), sb, DoorLinks(before, doors, |PlacedDoors(doors)|, norm),
                        ExitLinks(before, b.exits, |b.exits.keys|, norm), u, v, SegmentEdges(cid, co, norm)[i].distance);
  }

  /** Every corridor edge joining corridor nodes i and i + 1 of a corridor is that
      corridor's edge i. */
  lemma {:induction false} SegmentEdgesAgree(corridors: Dict<Corridor>, norm: Norm, cid: string, i: nat)
    requires corridors.Valid() && cid in corridors.entries && i < SegmentCount(corridors.entries[cid], norm)
    ensures forall x | x in AllSegmentEdges(corridors, corridors.keys, norm) && Links(x, WaypointId(cid, 'n', i), WaypointId(cid, 'n', i + 1)) ::
              x.distance == SegmentEdges(cid, corridors.entries[cid], norm)[i].distance
  {
    var u, v := WaypointId(cid, 'n', i), WaypointId(cid, 'n', i + 1);
    AllSegmentEdgesShape(corridors, corridors.keys, norm);
    forall x | x in AllSegmentEdges(corridors, corridors.keys, norm) && Links(x, u, v)
      ensures x.distance == SegmentEdges(cid, corridors.entries[cid], norm)[i].distance
    {
      var k, j :| && k in corridors.keys && 0 <= j < |SegmentEdges(k, corridors.entries[k], norm)|
                  && x == SegmentEdges(k, corridors.entries[k], norm)[j];
      SegmentLinkIs(k, corridors.entries[k], cid, corridors.entries[cid], norm, j, i);
    }
  }

  /** Edge j of corridor k joins nodes i and i + 1 of corridor cid only when it is edge i
      of cid itself. */
  lemma {:induction false} SegmentLinkIs(k: string, ck: Corridor, cid: string, ci: Corridor, norm: Norm, j: nat, i: nat)
    requires j < SegmentCount(ck, norm)
    requires Links(SegmentEdges(k, ck, norm)[j], WaypointId(cid, 'n', i), WaypointId(cid, 'n', i + 1))
    ensures k == cid && j == i
  {
    SegmentEdgeAt(k, ck, norm, j);
    if SegmentEdges(k, ck, norm)[j].fromId == WaypointId(cid, 'n', i) {
      WaypointInjective(k, cid, 'n', j, i);
    } else {
      WaypointInjective(k, cid, 'n', j, i + 1);
      WaypointInjective(k, cid, 'n', j + 1, i);
      assert false;
    }
  }

  /** No door link and no exit link joins two corridor nodes that no exit shares an id with. */
  lemma {:induction false} LinksMissSegment(b: Building, doors: Dict<Door>, norm: Norm, cid: string, i: nat)
    requires b.Valid() && DoorsOf(b.rooms, doors)
    requires WaypointId(cid, 'n', i) !in b.exits.entries && WaypointId(cid, 'n', i + 1) !in b.exits.entries
    ensures var before := NodesBeforeExits(b, doors, norm);
      forall x | x in DoorLinks(before, doors, |PlacedDoors(doors)|, norm) + ExitLinks(before, b.exits, |b.exits.keys|, norm) ::
        !Links(x, WaypointId(cid, 'n', i), WaypointId(cid, 'n', i + 1))
  {
    var u, v := WaypointId(cid, 'n', i), WaypointId(cid, 'n', i + 1);
    var before := NodesBeforeExits(b, doors, norm);
    DoorLinksShape(before, doors, |PlacedDoors(doors)|, norm);
    ExitLinksShape(before, b.exits, |b.exits.keys|, norm);
    assert IsSegmentNode(u) && IsSegmentNode(v);
    forall x | x in DoorLinks(before, doors, |PlacedDoors(doors)|, norm) ensures !Links(x, u, v) {
      DoorIdNotSegment(doors.entries[x.fromId].roomId);
    }
  }

  /** With a norm and a square root that are never negative, every edge weight of the
      detailed graph is non-negative, as shortest paths over it need. */
  lemma {:induction false} DetailedWeightsNonNegative(b: Building, doors: Dict<Door>, norm: Norm, sqrt: real -> real)
    requires b.Valid() && DoorsOf(b.rooms, doors) && NonNegativeNorm(norm) && forall x :: sqrt(x) >= 0.0
    ensures forall e | e in DetailedWeights(b, doors, norm, sqrt) :: DetailedWeights(b, doors, norm, sqrt)[e] >= 0.0
  {
    var before := NodesBeforeExits(b, doors, norm);
    var c := DoorLinks(before, doors, |PlacedDoors(doors)|, norm);
    var all := DetailedEdges(b, doors, norm, sqrt);
    RoomEdgesShape(b.rooms, doors, sqrt);
    SegmentEdgesNonNegative(b.corridors, norm);
    DoorLinksShape(before, doors, |PlacedDoors(doors)|, norm);
    forall x | x in c ensures x.distance >= 0.0 {
      LinkRule(before, x.fromId, doors.entries[x.fromId].position.value, doors.entries[x.fromId].floor, norm);
    }
    ExitLinksShape(before, b.exits, |b.exits.keys|, norm);
    assert forall i | 0 <= i < |all| :: all[i] in all;
    LinkedNonNegative(EmptyGraph(), all);
  }
}
