/** src/models/building_v2.py: a building whose rooms each get a door record. Doors start
    without a position; finalize_doors puts each on the side of its room that faces the
    nearest corridor on the room's floor. build_detailed_graph then makes a graph of room
    nodes (under the room's own id), door nodes for the doors that have a position,
    corridor nodes every two metres or so, and exits, and ties each placed door and each
    exit to its nearest corridor node on the same floor.

    As for the node-based building, each loop is proved against the list of writes it
    performs; the last write to a node or a pair wins. The room size is √area, and the
    square root is a parameter like the norm. */
module Doors {
  import opened Common
  import opened Dicts
  import opened Facility
  import opened Networks
  import opened Placement
  import opened NodeIds
  import opened NodeBased

  /** A door record: `position` is None until finalize_doors finds a corridor for it. */
  datatype Door = Door(id: string, roomId: string, position: Option<Point>, floor: int)

  /** Every door is keyed by its id, belongs to a room of the building, is named after it
      and sits on its floor. */
  ghost predicate DoorsOf(rooms: Dict<Room>, doors: Dict<Door>) {
    && doors.Valid()
    && forall k | k in doors.entries ::
         && doors.entries[k].id == k && k == DoorId(doors.entries[k].roomId)
         && doors.entries[k].roomId in rooms.entries
         && doors.entries[k].floor == rooms.entries[doors.entries[k].roomId].floor
  }

  /** The door's position beside corridor c: half the room's size from its centre. */
  function BesideCorridor(room: Room, c: Corridor, sqrt: real -> real): Point {
    DoorSide(room.position, c, sqrt(room.area) / 2.0)
  }

  /** The door as finalize_doors leaves it: half the room's size from its centre, on the
      side facing the nearest corridor on the room's floor; untouched when the floor has no
      corridor. */
  function FinalDoor(corridors: Dict<Corridor>, room: Room, d: Door, norm: Norm, sqrt: real -> real): Door
    requires corridors.Valid()
  {
    match NearestCorridor(corridors, room, norm)
    case Some((cid, _)) => d.(position := Some(BesideCorridor(room, corridors.entries[cid], sqrt)))
    case None => d
  }

  /** The door stored under key k, finalized. */
  function FinalEntry(rooms: Dict<Room>, corridors: Dict<Corridor>, doors: Dict<Door>, k: string, norm: Norm,
                      sqrt: real -> real): Door
    requires DoorsOf(rooms, doors) && corridors.Valid() && k in doors.entries
  {
    FinalDoor(corridors, rooms.entries[doors.entries[k].roomId], doors.entries[k], norm, sqrt)
  }

  /** Every door finalized, in place: the keys and their order do not change. */
  function Finalized(rooms: Dict<Room>, corridors: Dict<Corridor>, doors: Dict<Door>, norm: Norm, sqrt: real -> real): Dict<Door>
    requires DoorsOf(rooms, doors) && corridors.Valid()
  {
    Dict(doors.keys, map k | k in doors.entries :: FinalEntry(rooms, corridors, doors, k, norm, sqrt))
  }

  /** The body of the finalize_doors loop for one door: a position beside the nearest
      corridor on its floor, or the door left as it is. */
  method PlaceDoor(rooms: Dict<Room>, corridors: Dict<Corridor>, doors: Dict<Door>, doorId: string, norm: Norm,
                   sqrt: real -> real) returns (out: Dict<Door>)
    requires corridors.Valid() && doors.Valid() && doorId in doors.entries && doors.entries[doorId].roomId in rooms.entries
    ensures out.Valid() && out.keys == doors.keys
    ensures out.entries == doors.entries[doorId :=
              FinalDoor(corridors, rooms.entries[doors.entries[doorId].roomId], doors.entries[doorId], norm, sqrt)]
  {
    var door := doors.entries[doorId];
    var room := rooms.entries[door.roomId];
    var nearest := FindNearestCorridor(corridors, room, norm);
    out := doors;
    if nearest.Some? {
      var c := corridors.entries[nearest.value.0];
      var doorPos := DoorSide(room.position, c, sqrt(room.area) / 2.0);
      assert doorPos == BesideCorridor(room, c, sqrt);
      out := doors.Put(doorId, door.(position := Some(doorPos)));
    } else {
      assert doors.entries == doors.entries[doorId := door];
    }
  }

  /** finalize_doors: every door finalized, in the order of the doors. */
  method FinalizeEach(rooms: Dict<Room>, corridors: Dict<Corridor>, doors: Dict<Door>, norm: Norm, sqrt: real -> real)
      returns (out: Dict<Door>)
    requires DoorsOf(rooms, doors) && corridors.Valid()
    ensures out == Finalized(rooms, corridors, doors, norm, sqrt)
  {
    FinalizedDoors(rooms, corridors, doors, norm, sqrt);
    ghost var fin := Finalized(rooms, corridors, doors, norm, sqrt);
    out := FinalizeLoop(rooms, corridors, doors, norm, sqrt, fin.entries);
    SameEntries(out, fin);
  }

  /** The loop of finalize_doors over the doors in order, each replaced by its final
      door in fin. */
  method FinalizeLoop(rooms: Dict<Room>, corridors: Dict<Corridor>, doors: Dict<Door>, norm: Norm, sqrt: real -> real,
                      ghost fin: map<string, Door>) returns (out: Dict<Door>)
    requires DoorsOf(rooms, doors) && corridors.Valid()
    requires forall k | k in doors.entries ::
               k in fin && fin[k] == FinalDoor(corridors, rooms.entries[doors.entries[k].roomId], doors.entries[k], norm, sqrt)
    ensures out.Valid() && out.keys == doors.keys
    ensures forall j | 0 <= j < |doors.keys| :: out.entries[doors.keys[j]] == fin[doors.keys[j]]
  {
    var keys := doors.keys;
    out := doors;
    var i := 0;
    while i < |keys|
      invariant 0 <= i <= |keys|
      invariant out.Valid() && out.keys == keys
      invariant forall j | 0 <= j < i :: out.entries[keys[j]] == fin[keys[j]]
      invariant forall j | i <= j < |keys| :: out.entries[keys[j]] == doors.entries[keys[j]]
    {
      out := FinalizeStep(rooms, corridors, doors, norm, sqrt, fin, out, i);
      i := i + 1;
    }
  }

  /** One pass of the loop: the i-th door replaced by its final door. */
  method FinalizeStep(rooms: Dict<Room>, corridors: Dict<Corridor>, doors: Dict<Door>, norm: Norm, sqrt: real -> real,
                      ghost fin: map<string, Door>, cur: Dict<Door>, i: nat) returns (out: Dict<Door>)
    requires DoorsOf(rooms, doors) && corridors.Valid() && i < |doors.keys|
    requires forall k | k in doors.entries ::
               k in fin && fin[k] == FinalDoor(corridors, rooms.entries[doors.entries[k].roomId], doors.entries[k], norm, sqrt)
    requires cur.Valid() && cur.keys == doors.keys
    requires forall j | 0 <= j < i :: cur.entries[doors.keys[j]] == fin[doors.keys[j]]
    requires forall j | i <= j < |doors.keys| :: cur.entries[doors.keys[j]] == doors.entries[doors.keys[j]]
    ensures out.Valid() && out.keys == doors.keys
    ensures forall j | 0 <= j < i + 1 :: out.entries[doors.keys[j]] == fin[doors.keys[j]]
    ensures forall j | i + 1 <= j < |doors.keys| :: out.entries[doors.keys[j]] == doors.entries[doors.keys[j]]
  {
    var k := doors.keys[i];
    assert k in doors.entries && cur.entries[k] == doors.entries[k];
    out := PlaceDoor(rooms, corridors, cur, k, norm, sqrt);
    assert out.entries == cur.entries[k := fin[k]];
    UpdateInOrder(doors.keys, cur.entries, doors.entries, fin, i);
  }

  /** Finalizing keeps the keys and every door's id, room and floor. */
  lemma {:induction false} FinalizedDoors(rooms: Dict<Room>, corridors: Dict<Corridor>, orig: Dict<Door>, norm: Norm, sqrt: real -> real)
    requires DoorsOf(rooms, orig) && corridors.Valid()
    ensures var fin := Finalized(rooms, corridors, orig, norm, sqrt);
      && DoorsOf(rooms, fin) && fin.keys == orig.keys
      && forall k | k in orig.entries :: fin.entries[k] == FinalDoor(corridors, rooms.entries[orig.entries[k].roomId], orig.entries[k], norm, sqrt)
  {
  }

  /** One key of an in-order pass that replaces each value by its final one. */
  lemma {:induction false} UpdateInOrder<V>(keys: seq<string>, cur: map<string, V>, orig: map<string, V>, fin: map<string, V>, i: nat)
    requires NoDup(keys) && i < |keys| && forall k | k in keys :: k in cur && k in orig && k in fin
    requires forall j | 0 <= j < i :: cur[keys[j]] == fin[keys[j]]
    requires forall j | i <= j < |keys| :: cur[keys[j]] == orig[keys[j]]
    ensures forall j | 0 <= j < i + 1 :: cur[keys[i] := fin[keys[i]]][keys[j]] == fin[keys[j]]
    ensures forall j | i + 1 <= j < |keys| :: cur[keys[i] := fin[keys[i]]][keys[j]] == orig[keys[j]]
  {
    forall j | 0 <= j < |keys| && j != i ensures keys[j] != keys[i] {
    }
  }

  /** Two dictionaries with the same keys in the same order, agreeing on each, are equal. */
  lemma {:induction false} SameEntries<V>(a: Dict<V>, b: Dict<V>)
    requires a.Valid() && b.Valid() && a.keys == b.keys
    requires forall j | 0 <= j < |a.keys| :: a.entries[a.keys[j]] == b.entries[a.keys[j]]
    ensures a == b
  {
    forall k | k in a.entries ensures a.entries[k] == b.entries[k] {
      var i := KeyIndex(a, k);
    }
  }

  // ---------------------------------------------------------------------------
  // What build_detailed_graph writes

  /** One room node per room, at the room's position on its floor. */
  function RoomNodeWrites(rooms: Dict<Room>): (ws: seq<(string, NodeInfo)>)
    requires rooms.Valid()
    ensures |ws| == |rooms.keys|
  {
    seq(|rooms.keys|, i requires 0 <= i < |rooms.keys| =>
      (rooms.keys[i], NodeInfo(RoomNode, rooms.entries[rooms.keys[i]].position, rooms.entries[rooms.keys[i]].floor)))
  }

  /** Whether the door has a position: any tuple counts, a missing one does not. */
  function IsPlaced(): Door -> bool {
    (d: Door) => d.position.Some?
  }

  /** The doors that have a position, in door order. */
  function PlacedDoors(doors: Dict<Door>): (ks: seq<string>)
    requires doors.Valid()
    ensures forall k :: k in ks <==> k in doors.entries && doors.entries[k].position.Some?
  {
    Eligible(doors.entries, doors.keys, IsPlaced())
  }

  function DoorNodeWrites(doors: Dict<Door>): (ws: seq<(string, NodeInfo)>)
    requires doors.Valid()
    ensures |ws| == |PlacedDoors(doors)|
  {
    var ks := PlacedDoors(doors);
    seq(|ks|, i requires 0 <= i < |ks| =>
      (ks[i], NodeInfo(DoorNode, doors.entries[ks[i]].position.value, doors.entries[ks[i]].floor)))
  }

  /** Each placed door is tied to its room's node by half the room's size. */
  function DoorRoomEdges(rooms: Dict<Room>, doors: Dict<Door>, sqrt: real -> real): (ws: seq<Connection>)
    requires DoorsOf(rooms, doors)
    ensures |ws| == |PlacedDoors(doors)|
  {
    var ks := PlacedDoors(doors);
    seq(|ks|, i requires 0 <= i < |ks| => RoomEdge(rooms, doors, sqrt, ks[i]))
  }

  /** The edge between a room's node and its door's node: half the room's size, the square root of its area. */
  function RoomEdge(rooms: Dict<Room>, doors: Dict<Door>, sqrt: real -> real, k: string): Connection
    requires DoorsOf(rooms, doors) && k in doors.entries
  {
    var roomId := doors.entries[k].roomId;
    Connection(roomId, k, sqrt(rooms.entries[roomId].area) / 2.0)
  }

  /** The number of segments of a corridor: half its length truncated, and at least 2. */
  function SegmentCount(c: Corridor, norm: Norm): (n: int)
    ensures n >= 2
  {
    var half := Trunc(CorridorLength(c, norm) / 2.0);
    if half > 2 then half else 2
  }

  /** x / n for the corridor's segment count n. */
  function Part(x: real, n: int): real
    requires n > 0
  {
    x / n as real
  }

  /** The corridor's nodes, named after the corridor and numbered 0..n, node i at fraction i / n of the way. */
  function SegmentNodes(cid: string, c: Corridor, norm: Norm): (ws: seq<(string, NodeInfo)>)
    ensures |ws| == SegmentCount(c, norm) + 1
  {
    var n := SegmentCount(c, norm);
    seq(n + 1, i requires 0 <= i < n + 1 =>
      (WaypointId(cid, 'n', i), NodeInfo(CorridorNode, Lerp(c.start, c.end, Part(i as real, n)), c.floor)))
  }

  /** Each corridor node tied to the one before it by c_length / n. */
  function SegmentEdges(cid: string, c: Corridor, norm: Norm): (ws: seq<Connection>)
    ensures |ws| == SegmentCount(c, norm)
  {
    var n := SegmentCount(c, norm);
    seq(n, i requires 0 <= i < n =>
      Connection(WaypointId(cid, 'n', i), WaypointId(cid, 'n', i + 1), Part(CorridorLength(c, norm), n)))
  }

  function AllSegmentNodes(corridors: Dict<Corridor>, keys: seq<string>, norm: Norm): seq<(string, NodeInfo)>
    requires forall k | k in keys :: k in corridors.entries
  {
    if keys == [] then []
    else AllSegmentNodes(corridors, keys[..|keys| - 1], norm)
         + SegmentNodes(keys[|keys| - 1], corridors.entries[keys[|keys| - 1]], norm)
  }

  function AllSegmentEdges(corridors: Dict<Corridor>, keys: seq<string>, norm: Norm): seq<Connection>
    requires forall k | k in keys :: k in corridors.entries
  {
    if keys == [] then []
    else AllSegmentEdges(corridors, keys[..|keys| - 1], norm)
         + SegmentEdges(keys[|keys| - 1], corridors.entries[keys[|keys| - 1]], norm)
  }

  /** The nearest corridor node on `floor` to `pos`, the first of equally near ones. */
  function NearestCorridorNode(nodes: Dict<NodeInfo>, pos: Point, floor: int, norm: Norm): Option<(string, real)>
    requires nodes.Valid()
  {
    NearestAmong(Eligible(nodes.entries, nodes.keys, CorridorNodeOnFloor(floor)), nodes.entries, NodePosition(), pos, norm)
  }

  /** The node a door or an exit is linked to is a corridor node on its floor, none nearer;
      there is one exactly when the floor has a corridor node. */
  lemma {:induction false} NearestCorridorNodeRule(nodes: Dict<NodeInfo>, pos: Point, floor: int, norm: Norm)
    requires nodes.Valid()
    ensures var r := NearestCorridorNode(nodes, pos, floor, norm);
      && (r.None? <==> forall m | m in nodes.entries :: !CorridorNodeOnFloor(floor)(nodes.entries[m]))
      && (r.Some? ==> && r.value.0 in nodes.entries
                      && CorridorNodeOnFloor(floor)(nodes.entries[r.value.0])
                      && r.value.1 == norm(pos, nodes.entries[r.value.0].position))
      && (r.Some? ==> forall m | m in nodes.entries && CorridorNodeOnFloor(floor)(nodes.entries[m]) ::
                        r.value.1 <= norm(pos, nodes.entries[m].position))
  {
    var cands := Eligible(nodes.entries, nodes.keys, CorridorNodeOnFloor(floor));
    NearestAmongLeast(cands, nodes.entries, NodePosition(), pos, norm);
    assert forall m | m in nodes.entries && CorridorNodeOnFloor(floor)(nodes.entries[m]) :: m in cands;
  }

  /** The edge from a door or an exit at `pos` to its nearest corridor node, if there is
      one and its id is a true string. */
  function Link(nodes: Dict<NodeInfo>, from: string, pos: Point, floor: int, norm: Norm): seq<Connection>
    requires nodes.Valid()
  {
    match NearestCorridorNode(nodes, pos, floor, norm)
    case Some((m, d)) => if m != "" then [Connection(from, m, d)] else []
    case None => []
  }

  /** The door links of the first n placed doors; all of them look at the same nodes. */
  function DoorLinks(nodes: Dict<NodeInfo>, doors: Dict<Door>, n: nat, norm: Norm): seq<Connection>
    requires nodes.Valid() && doors.Valid() && n <= |PlacedDoors(doors)|
  {
    if n == 0 then []
    else
      var k := PlacedDoors(doors)[n - 1];
      DoorLinks(nodes, doors, n - 1, norm) + Link(nodes, k, doors.entries[k].position.value, doors.entries[k].floor, norm)
  }

  /** The exit links of the first n exits: each exit is added to the graph and then looks
      at the nodes as they are at that moment, the exits before it included. */
  function ExitLinks(nodes: Dict<NodeInfo>, exits: Dict<Exit>, n: nat, norm: Norm): seq<Connection>
    requires nodes.Valid() && exits.Valid() && n <= |exits.keys|
  {
    if n == 0 then []
    else
      var e := exits.entries[exits.keys[n - 1]];
      ExitLinks(nodes, exits, n - 1, norm) + Link(PutAll(nodes, ExitWrites(exits)[..n]), exits.keys[n - 1], e.position, e.floor, norm)
  }

  /** The nodes once the rooms, the placed doors and the corridors are in. */
  function NodesBeforeExits(b: Building, doors: Dict<Door>, norm: Norm): Dict<NodeInfo>
    reads b
    requires b.Valid() && DoorsOf(b.rooms, doors)
  {
    PutAll(EmptyDict(), RoomNodeWrites(b.rooms) + DoorNodeWrites(doors) + AllSegmentNodes(b.corridors, b.corridors.keys, norm))
  }

  /** The nodes of the detailed graph. */
  function DetailedNodes(b: Building, doors: Dict<Door>, norm: Norm): Dict<NodeInfo>
    reads b
    requires b.Valid() && DoorsOf(b.rooms, doors)
  {
    PutAll(NodesBeforeExits(b, doors, norm), ExitWrites(b.exits))
  }

  /** Every edge write of build_detailed_graph, in order. */
  function DetailedEdges(b: Building, doors: Dict<Door>, norm: Norm, sqrt: real -> real): seq<Connection>
    reads b
    requires b.Valid() && DoorsOf(b.rooms, doors)
  {
    var before := NodesBeforeExits(b, doors, norm);
    DoorRoomEdges(b.rooms, doors, sqrt) + AllSegmentEdges(b.corridors, b.corridors.keys, norm)
    + DoorLinks(before, doors, |PlacedDoors(doors)|, norm) + ExitLinks(before, b.exits, |b.exits.keys|, norm)
  }

  function DetailedWeights(b: Building, doors: Dict<Door>, norm: Norm, sqrt: real -> real): map<(string, string), real>
    reads b
    requires b.Valid() && DoorsOf(b.rooms, doors)
  {
    Linked(map[], DetailedEdges(b, doors, norm, sqrt))
  }

  // ---------------------------------------------------------------------------
  // The loops of build_detailed_graph

  method AddRoomNodes(g: Graph, rooms: Dict<Room>) returns (h: Graph)
    requires g.Valid() && rooms.Valid()
    ensures h.Valid() && h.weight == g.weight && h.nodes == PutAll(g.nodes, RoomNodeWrites(rooms))
  {
    ghost var ws := RoomNodeWrites(rooms);
    h := g;
    var k := 0;
    while k < |rooms.keys|
      invariant 0 <= k <= |rooms.keys|
      invariant h.Valid() && h.weight == g.weight && h.nodes == PutAll(g.nodes, ws[..k])
    {
      var roomId := rooms.keys[k];
      var room := rooms.entries[roomId];
      PutAllSnoc(g.nodes, ws, k);
      h := h.AddNode(roomId, NodeInfo(RoomNode, room.position, room.floor));
      k := k + 1;
    }
    assert ws[..k] == ws;
  }

  lemma {:induction false} PlacedDoorsSnoc(doors: Dict<Door>, k: nat)
    requires doors.Valid() && k < |doors.keys|
    ensures Eligible(doors.entries, doors.keys[..k + 1], IsPlaced())
      == Eligible(doors.entries, doors.keys[..k], IsPlaced())
         + (if doors.entries[doors.keys[k]].position.Some? then [doors.keys[k]] else [])
  {
    assert doors.keys[..k + 1][..k] == doors.keys[..k];
  }

  /** One more key of the door loop: a placed door is the next of the placed doors. */
  lemma {:induction false} PlacedStep(doors: Dict<Door>, k: nat, placed: nat)
    requires doors.Valid() && k < |doors.keys|
    requires placed == |Eligible(doors.entries, doors.keys[..k], IsPlaced())| <= |PlacedDoors(doors)|
    requires Eligible(doors.entries, doors.keys[..k], IsPlaced()) == PlacedDoors(doors)[..placed]
    ensures var next := if doors.entries[doors.keys[k]].position.Some? then placed + 1 else placed;
      next == |Eligible(doors.entries, doors.keys[..k + 1], IsPlaced())| <= |PlacedDoors(doors)|
      && Eligible(doors.entries, doors.keys[..k + 1], IsPlaced()) == PlacedDoors(doors)[..next]
    ensures doors.entries[doors.keys[k]].position.Some? ==>
      placed < |PlacedDoors(doors)| && PlacedDoors(doors)[placed] == doors.keys[k]
  {
    PlacedDoorsSnoc(doors, k);
    EligiblePrefix(doors, k + 1);
    if doors.entries[doors.keys[k]].position.Some? {
      var pre := Eligible(doors.entries, doors.keys[..k + 1], IsPlaced());
      assert pre[placed] == doors.keys[k];
    }
  }

  lemma {:induction false} DoorNodeStep(d: Dict<NodeInfo>, doors: Dict<Door>, placed: nat)
    requires d.Valid() && doors.Valid() && placed < |PlacedDoors(doors)|
    ensures var k := PlacedDoors(doors)[placed];
      && k in doors.entries && doors.entries[k].position.Some?
      && PutAll(d, DoorNodeWrites(doors)[..placed + 1])
         == PutAll(d, DoorNodeWrites(doors)[..placed]).Put(k, NodeInfo(DoorNode, doors.entries[k].position.value, doors.entries[k].floor))
      && k in PutAll(d, DoorNodeWrites(doors)[..placed + 1]).entries
  {
    var ws := DoorNodeWrites(doors);
    PutAllSnoc(d, ws, placed);
    assert Firsts(ws[..placed + 1])[placed] == PlacedDoors(doors)[placed];
    PutAllKeys(d, ws[..placed + 1]);
  }

  lemma {:induction false} DoorEdgeStep(w: map<(string, string), real>, rooms: Dict<Room>, doors: Dict<Door>, sqrt: real -> real, placed: nat)
    requires DoorsOf(rooms, doors) && placed < |PlacedDoors(doors)|
    ensures var e := RoomEdge(rooms, doors, sqrt, PlacedDoors(doors)[placed]);
      Linked(w, DoorRoomEdges(rooms, doors, sqrt)[..placed + 1])
        == Linked(w, DoorRoomEdges(rooms, doors, sqrt)[..placed])[(e.fromId, e.toId) := e.distance][(e.toId, e.fromId) := e.distance]
  {
    LinkedSnoc(w, DoorRoomEdges(rooms, doors, sqrt), placed);
  }

  /** The node of one placed door, and its edge to its room. */
  method AddDoorNode(h: Graph, g: Graph, rooms: Dict<Room>, doors: Dict<Door>, sqrt: real -> real, ghost placed: nat, k: nat)
      returns (h': Graph)
    requires g.Valid() && DoorsOf(rooms, doors) && k < |doors.keys|
    requires placed < |PlacedDoors(doors)| && PlacedDoors(doors)[placed] == doors.keys[k]
    requires h.Valid() && h.nodes == PutAll(g.nodes, DoorNodeWrites(doors)[..placed])
    requires h.weight == Linked(g.weight, DoorRoomEdges(rooms, doors, sqrt)[..placed])
    requires forall r | r in rooms.entries :: r in h.nodes.entries
    ensures h'.Valid() && h'.nodes == PutAll(g.nodes, DoorNodeWrites(doors)[..placed + 1])
    ensures h'.weight == Linked(g.weight, DoorRoomEdges(rooms, doors, sqrt)[..placed + 1])
    ensures forall r | r in rooms.entries :: r in h'.nodes.entries
  {
    var doorId := doors.keys[k];
    var door := doors.entries[doorId];
    DoorNodeStep(g.nodes, doors, placed);
    h' := h.AddNode(doorId, NodeInfo(DoorNode, door.position.value, door.floor));
    var e := RoomEdge(rooms, doors, sqrt, doorId);
    DoorEdgeStep(g.weight, rooms, doors, sqrt, placed);
    h' := h'.AddEdge(e.fromId, e.toId, e.distance);
  }

  /** The placed doors and their edges to their rooms: one pass of the door loop. */
  method AddDoorNodes(g: Graph, rooms: Dict<Room>, doors: Dict<Door>, sqrt: real -> real) returns (h: Graph)
    requires g.Valid() && DoorsOf(rooms, doors)
    requires forall k | k in rooms.entries :: k in g.nodes.entries
    ensures h.Valid() && h.nodes == PutAll(g.nodes, DoorNodeWrites(doors))
    ensures h.weight == Linked(g.weight, DoorRoomEdges(rooms, doors, sqrt))
  {
    h := g;
    var k := 0;
    ghost var placed := 0;
    while k < |doors.keys|
      invariant 0 <= k <= |doors.keys|
      invariant placed == |Eligible(doors.entries, doors.keys[..k], IsPlaced())| <= |PlacedDoors(doors)|
      invariant Eligible(doors.entries, doors.keys[..k], IsPlaced()) == PlacedDoors(doors)[..placed]
      invariant h.Valid() && h.nodes == PutAll(g.nodes, DoorNodeWrites(doors)[..placed])
      invariant h.weight == Linked(g.weight, DoorRoomEdges(rooms, doors, sqrt)[..placed])
      invariant forall r | r in rooms.entries :: r in h.nodes.entries
    {
      h, placed := DoorPass(h, g, rooms, doors, sqrt, placed, k);
      k := k + 1;
    }
    DoorLoopDone(rooms, doors, sqrt, placed);
  }

  /** After the last key every placed door has been written. */
  lemma {:induction false} DoorLoopDone(rooms: Dict<Room>, doors: Dict<Door>, sqrt: real -> real, placed: nat)
    requires DoorsOf(rooms, doors)
    requires placed <= |PlacedDoors(doors)| && Eligible(doors.entries, doors.keys[..|doors.keys|], IsPlaced()) == PlacedDoors(doors)[..placed]
    ensures DoorNodeWrites(doors)[..placed] == DoorNodeWrites(doors)
    ensures DoorRoomEdges(rooms, doors, sqrt)[..placed] == DoorRoomEdges(rooms, doors, sqrt)
  {
    assert doors.keys[..|doors.keys|] == doors.keys;
  }

  /** The k-th pass of the door loop: the door's node and edge when it is placed. */
  method DoorPass(h: Graph, g: Graph, rooms: Dict<Room>, doors: Dict<Door>, sqrt: real -> real, ghost placed: nat, k: nat)
      returns (h': Graph, ghost placed': nat)
    requires g.Valid() && DoorsOf(rooms, doors) && k < |doors.keys|
    requires placed == |Eligible(doors.entries, doors.keys[..k], IsPlaced())| <= |PlacedDoors(doors)|
    requires Eligible(doors.entries, doors.keys[..k], IsPlaced()) == PlacedDoors(doors)[..placed]
    requires h.Valid() && h.nodes == PutAll(g.nodes, DoorNodeWrites(doors)[..placed])
    requires h.weight == Linked(g.weight, DoorRoomEdges(rooms, doors, sqrt)[..placed])
    requires forall r | r in rooms.entries :: r in h.nodes.entries
    ensures placed' == |Eligible(doors.entries, doors.keys[..k + 1], IsPlaced())| <= |PlacedDoors(doors)|
    ensures Eligible(doors.entries, doors.keys[..k + 1], IsPlaced()) == PlacedDoors(doors)[..placed']
    ensures h'.Valid() && h'.nodes == PutAll(g.nodes, DoorNodeWrites(doors)[..placed'])
    ensures h'.weight == Linked(g.weight, DoorRoomEdges(rooms, doors, sqrt)[..placed'])
    ensures forall r | r in rooms.entries :: r in h'.nodes.entries
  {
    PlacedStep(doors, k, placed);
    h', placed' := h, placed;
    if doors.entries[doors.keys[k]].position.Some? {
      h' := AddDoorNode(h, g, rooms, doors, sqrt, placed, k);
      placed' := placed + 1;
    }
  }

  /** The placed doors among the first n keys are a prefix of all the placed doors. */
  lemma {:induction false} EligiblePrefix(doors: Dict<Door>, n: nat)
    requires doors.Valid() && n <= |doors.keys|
    ensures var pre := Eligible(doors.entries, doors.keys[..n], IsPlaced());
      |pre| <= |PlacedDoors(doors)| && PlacedDoors(doors)[..|pre|] == pre
  {
    EligibleAppend(doors.entries, doors.keys[..n], doors.keys[n..], IsPlaced());
    assert doors.keys[..n] + doors.keys[n..] == doors.keys;
  }

  lemma {:induction false} SegmentNodeStep(d: Dict<NodeInfo>, cid: string, c: Corridor, norm: Norm, i: nat)
    requires d.Valid() && i <= SegmentCount(c, norm)
    ensures PutAll(d, SegmentNodes(cid, c, norm)[..i + 1])
      == PutAll(d, SegmentNodes(cid, c, norm)[..i]).Put(WaypointId(cid, 'n', i),
           NodeInfo(CorridorNode, Lerp(c.start, c.end, Part(i as real, SegmentCount(c, norm))), c.floor))
    ensures WaypointId(cid, 'n', i) in PutAll(d, SegmentNodes(cid, c, norm)[..i + 1]).entries
    ensures i > 0 ==> WaypointId(cid, 'n', i - 1) in PutAll(d, SegmentNodes(cid, c, norm)[..i + 1]).entries
  {
    var ws := SegmentNodes(cid, c, norm);
    PutAllSnoc(d, ws, i);
    assert Firsts(ws[..i + 1])[i] == WaypointId(cid, 'n', i);
    if i > 0 {
      assert Firsts(ws[..i + 1])[i - 1] == WaypointId(cid, 'n', i - 1);
    }
    PutAllKeys(d, ws[..i + 1]);
  }

  lemma {:induction false} SegmentEdgeStep(w: map<(string, string), real>, cid: string, c: Corridor, norm: Norm, i: nat)
    requires 0 < i <= SegmentCount(c, norm)
    ensures var share := Part(CorridorLength(c, norm), SegmentCount(c, norm));
      Linked(w, SegmentEdges(cid, c, norm)[..i])
        == Linked(w, SegmentEdges(cid, c, norm)[..i - 1])[(WaypointId(cid, 'n', i - 1), WaypointId(cid, 'n', i)) := share]
                                                         [(WaypointId(cid, 'n', i), WaypointId(cid, 'n', i - 1)) := share]
  {
    LinkedSnoc(w, SegmentEdges(cid, c, norm), i - 1);
  }

  /** One pass of the corridor loop: node i, and its edge back to node i - 1. */
  method AddSegment(h: Graph, g: Graph, cid: string, c: Corridor, norm: Norm, i: nat) returns (h': Graph)
    requires i <= SegmentCount(c, norm) && g.Valid()
    requires h.Valid() && h.nodes == PutAll(g.nodes, SegmentNodes(cid, c, norm)[..i])
    requires h.weight == Linked(g.weight, SegmentEdges(cid, c, norm)[..Indexes(i - 1)])
    ensures h'.Valid() && h'.nodes == PutAll(g.nodes, SegmentNodes(cid, c, norm)[..i + 1])
    ensures h'.weight == Linked(g.weight, SegmentEdges(cid, c, norm)[..i])
  {
    var n := SegmentCount(c, norm);
    var nodeId := WaypointId(cid, 'n', i);
    SegmentNodeStep(g.nodes, cid, c, norm, i);
    h' := h.AddNode(nodeId, NodeInfo(CorridorNode, Lerp(c.start, c.end, Part(i as real, n)), c.floor));
    if i > 0 {
      SegmentEdgeStep(g.weight, cid, c, norm, i);
      h' := h'.AddEdge(WaypointId(cid, 'n', i - 1), nodeId, Part(CorridorLength(c, norm), n));
    }
  }

  /** The nodes of one corridor, each tied to the one before it. */
  method AddSegments(g: Graph, cid: string, c: Corridor, norm: Norm) returns (h: Graph)
    requires g.Valid()
    ensures h.Valid() && h.nodes == PutAll(g.nodes, SegmentNodes(cid, c, norm))
    ensures h.weight == Linked(g.weight, SegmentEdges(cid, c, norm))
  {
    var n := SegmentCount(c, norm);
    ghost var ws, es := SegmentNodes(cid, c, norm), SegmentEdges(cid, c, norm);
    h := g;
    assert ws[..0] == [] && es[..0] == [];
    var i := 0;
    while i < n + 1
      invariant 0 <= i <= n + 1
      invariant h.Valid() && h.nodes == PutAll(g.nodes, ws[..i])
      invariant h.weight == Linked(g.weight, es[..Indexes(i - 1)])
    {
      h := AddSegment(h, g, cid, c, norm, i);
      i := i + 1;
    }
    assert ws[..i] == ws;
    assert es[..Indexes(i - 1)] == es;
  }

  method AddAllSegments(g: Graph, corridors: Dict<Corridor>, norm: Norm) returns (h: Graph)
    requires g.Valid() && corridors.Valid()
    ensures h.Valid() && h.nodes == PutAll(g.nodes, AllSegmentNodes(corridors, corridors.keys, norm))
    ensures h.weight == Linked(g.weight, AllSegmentEdges(corridors, corridors.keys, norm))
  {
    h := g;
    var k := 0;
    while k < |corridors.keys|
      invariant 0 <= k <= |corridors.keys|
      invariant h.Valid() && h.nodes == PutAll(g.nodes, AllSegmentNodes(corridors, corridors.keys[..k], norm))
      invariant h.weight == Linked(g.weight, AllSegmentEdges(corridors, corridors.keys[..k], norm))
    {
      h := SegmentPass(h, g, corridors, norm, k);
      k := k + 1;
    }
    assert corridors.keys[..k] == corridors.keys;
  }

  /** The k-th pass of the corridor loop: the k-th corridor's segments. */
  method SegmentPass(h: Graph, g: Graph, corridors: Dict<Corridor>, norm: Norm, k: nat) returns (h': Graph)
    requires g.Valid() && corridors.Valid() && k < |corridors.keys|
    requires h.Valid() && h.nodes == PutAll(g.nodes, AllSegmentNodes(corridors, corridors.keys[..k], norm))
    requires h.weight == Linked(g.weight, AllSegmentEdges(corridors, corridors.keys[..k], norm))
    ensures h'.Valid() && h'.nodes == PutAll(g.nodes, AllSegmentNodes(corridors, corridors.keys[..k + 1], norm))
    ensures h'.weight == Linked(g.weight, AllSegmentEdges(corridors, corridors.keys[..k + 1], norm))
  {
    var keys := corridors.keys;
    var cid := keys[k];
    TakeSnoc(keys, k);
    h' := AddSegments(h, cid, corridors.entries[cid], norm);
    PutAllAppend(g.nodes, AllSegmentNodes(corridors, keys[..k], norm), SegmentNodes(cid, corridors.entries[cid], norm));
    LinkedAppend(g.weight, AllSegmentEdges(corridors, keys[..k], norm), SegmentEdges(cid, corridors.entries[cid], norm));
  }

  /** The nearest-corridor-node search of one door or exit, and its edge. */
  method AddLink(h: Graph, from: string, pos: Point, floor: int, norm: Norm) returns (h': Graph)
    requires h.Valid() && from in h.nodes.entries
    ensures h'.Valid() && h'.nodes == h.nodes
    ensures h'.weight == Linked(h.weight, Link(h.nodes, from, pos, floor, norm))
  {
    var nearest := FindNearest(h.nodes, CorridorNodeOnFloor(floor), NodePosition(), pos, norm);
    assert nearest == NearestCorridorNode(h.nodes, pos, floor, norm);
    NearestCorridorNodeRule(h.nodes, pos, floor, norm);
    h' := h;
    if nearest.Some? && nearest.value.0 != "" {
      LinkedPush(h.weight, [], Connection(from, nearest.value.0, nearest.value.1));
      h' := h.AddEdge(from, nearest.value.0, nearest.value.1);
    }
  }

  /** The edge from one placed door to its nearest corridor node. */
  method LinkDoor(h: Graph, g: Graph, doors: Dict<Door>, norm: Norm, ghost placed: nat, k: nat) returns (h': Graph)
    requires g.Valid() && doors.Valid() && k < |doors.keys|
    requires placed < |PlacedDoors(doors)| && PlacedDoors(doors)[placed] == doors.keys[k]
    requires forall d | d in PlacedDoors(doors) :: d in g.nodes.entries
    requires h.Valid() && h.nodes == g.nodes
    requires h.weight == Linked(g.weight, DoorLinks(g.nodes, doors, placed, norm))
    ensures h'.Valid() && h'.nodes == g.nodes
    ensures h'.weight == Linked(g.weight, DoorLinks(g.nodes, doors, placed + 1, norm))
  {
    var doorId := doors.keys[k];
    var door := doors.entries[doorId];
    LinkedAppend(g.weight, DoorLinks(g.nodes, doors, placed, norm), Link(g.nodes, doorId, door.position.value, door.floor, norm));
    h' := AddLink(h, doorId, door.position.value, door.floor, norm);
  }

  /** The door loop of the linking phase: each placed door tied to its nearest corridor node. */
  method LinkDoors(g: Graph, doors: Dict<Door>, norm: Norm) returns (h: Graph)
    requires g.Valid() && doors.Valid()
    requires forall k | k in PlacedDoors(doors) :: k in g.nodes.entries
    ensures h.Valid() && h.nodes == g.nodes
    ensures h.weight == Linked(g.weight, DoorLinks(g.nodes, doors, |PlacedDoors(doors)|, norm))
  {
    h := g;
    var k := 0;
    ghost var placed := 0;
    while k < |doors.keys|
      invariant 0 <= k <= |doors.keys|
      invariant placed == |Eligible(doors.entries, doors.keys[..k], IsPlaced())| <= |PlacedDoors(doors)|
      invariant Eligible(doors.entries, doors.keys[..k], IsPlaced()) == PlacedDoors(doors)[..placed]
      invariant h.Valid() && h.nodes == g.nodes
      invariant h.weight == Linked(g.weight, DoorLinks(g.nodes, doors, placed, norm))
    {
      var doorId := doors.keys[k];
      var door := doors.entries[doorId];
      PlacedStep(doors, k, placed);
      if door.position.Some? {
        h := LinkDoor(h, g, doors, norm, placed, k);
        placed := placed + 1;
      }
      k := k + 1;
    }
    assert doors.keys[..k] == doors.keys;
  }

  /** One exit's node, and its edge to the nearest corridor node. */
  method AddLinkedExit(h: Graph, g: Graph, exits: Dict<Exit>, norm: Norm, k: nat) returns (h': Graph)
    requires g.Valid() && exits.Valid() && k < |exits.keys|
    requires h.Valid() && h.nodes == PutAll(g.nodes, ExitWrites(exits)[..k])
    requires h.weight == Linked(g.weight, ExitLinks(g.nodes, exits, k, norm))
    ensures h'.Valid() && h'.nodes == PutAll(g.nodes, ExitWrites(exits)[..k + 1])
    ensures h'.weight == Linked(g.weight, ExitLinks(g.nodes, exits, k + 1, norm))
  {
    var ws := ExitWrites(exits);
    var exitId := exits.keys[k];
    var e := exits.entries[exitId];
    PutAllSnoc(g.nodes, ws, k);
    assert Firsts(ws[..k + 1])[k] == exitId;
    PutAllKeys(g.nodes, ws[..k + 1]);
    h' := h.AddNode(exitId, NodeInfo(ExitNode, e.position, e.floor));
    LinkedAppend(g.weight, ExitLinks(g.nodes, exits, k, norm), Link(h'.nodes, exitId, e.position, e.floor, norm));
    h' := AddLink(h', exitId, e.position, e.floor, norm);
  }

  /** The exit loop of the linking phase: each exit is added, then linked. */
  method AddLinkedExits(g: Graph, exits: Dict<Exit>, norm: Norm) returns (h: Graph)
    requires g.Valid() && exits.Valid()
    ensures h.Valid() && h.nodes == PutAll(g.nodes, ExitWrites(exits))
    ensures h.weight == Linked(g.weight, ExitLinks(g.nodes, exits, |exits.keys|, norm))
  {
    ghost var ws := ExitWrites(exits);
    h := g;
    var k := 0;
    while k < |exits.keys|
      invariant 0 <= k <= |exits.keys|
      invariant h.Valid() && h.nodes == PutAll(g.nodes, ws[..k])
      invariant h.weight == Linked(g.weight, ExitLinks(g.nodes, exits, k, norm))
    {
      h := AddLinkedExit(h, g, exits, norm, k);
      k := k + 1;
    }
    assert ws[..k] == ws;
  }

  /** The rooms, the placed doors with their room edges, and the corridors' nodes and edges:
      the part of build_detailed_graph before any node is linked to its nearest corridor node. */
  method AddPlacedNodes(rooms: Dict<Room>, corridors: Dict<Corridor>, doors: Dict<Door>, norm: Norm, sqrt: real -> real)
      returns (g: Graph)
    requires rooms.Valid() && DoorsOf(rooms, doors) && corridors.Valid()
    ensures g.Valid()
    ensures g.nodes == PutAll(EmptyDict(), RoomNodeWrites(rooms) + DoorNodeWrites(doors) + AllSegmentNodes(corridors, corridors.keys, norm))
    ensures g.weight == Linked(map[], DoorRoomEdges(rooms, doors, sqrt) + AllSegmentEdges(corridors, corridors.keys, norm))
    ensures forall k | k in PlacedDoors(doors) :: k in g.nodes.entries
  {
    var empty := EmptyGraph();
    var rw, dw := RoomNodeWrites(rooms), DoorNodeWrites(doors);
    var sn := AllSegmentNodes(corridors, corridors.keys, norm);
    var g1 := AddRoomNodes(empty, rooms);
    RoomsWritten(rooms);
    var g2 := AddDoorNodes(g1, rooms, doors, sqrt);
    PutAllAppend(empty.nodes, rw, dw);
    g := AddAllSegments(g2, corridors, norm);
    PutAllAppend(empty.nodes, rw + dw, sn);
    LinkedAppend(map[], DoorRoomEdges(rooms, doors, sqrt), AllSegmentEdges(corridors, corridors.keys, norm));
    PlacedDoorsWritten(rw, doors, sn);
  }

  /** Every room is a node once the room nodes are in. */
  lemma {:induction false} RoomsWritten(rooms: Dict<Room>)
    requires rooms.Valid()
    ensures forall k | k in rooms.entries :: k in PutAll(EmptyDict(), RoomNodeWrites(rooms)).entries
  {
    var rw := RoomNodeWrites(rooms);
    forall k | k in rooms.entries ensures k in Firsts(rw) {
      var i := KeyIndex(rooms, k);
      assert Firsts(rw)[i] == k;
    }
    PutAllKeys(EmptyDict(), rw);
  }

  /** Every placed door is a node once the door nodes are in, whatever comes before and after. */
  lemma {:induction false} PlacedDoorsWritten(rw: seq<(string, NodeInfo)>, doors: Dict<Door>, sn: seq<(string, NodeInfo)>)
    requires doors.Valid()
    ensures forall k | k in PlacedDoors(doors) :: k in PutAll(EmptyDict(), rw + DoorNodeWrites(doors) + sn).entries
  {
    var ws := rw + DoorNodeWrites(doors) + sn;
    forall k | k in PlacedDoors(doors) ensures k in Firsts(ws) {
      var i :| 0 <= i < |PlacedDoors(doors)| && PlacedDoors(doors)[i] == k;
      assert Firsts(ws)[|rw| + i] == k;
    }
    PutAllKeys(EmptyDict(), ws);
  }

  /** The search of finalize_doors: the corridor on the room's floor whose midpoint is
      nearest the room's centre, the first one in order on a tie. */
  method FindNearestCorridor(corridors: Dict<Corridor>, room: Room, norm: Norm) returns (r: Option<(string, real)>)
    requires corridors.Valid()
    ensures r == NearestCorridor(corridors, room, norm)
  {
    r := FindNearest(corridors, CorridorOnFloor(room.floor), CorridorMidpoint(), room.position, norm);
  }

  /** Every key of the dictionary is a node after its writes. */
  lemma {:induction false} WrittenKeys(d: Dict<NodeInfo>, ws: seq<(string, NodeInfo)>, keys: seq<string>)
    requires d.Valid() && forall k | k in keys :: k in Firsts(ws)
    ensures forall k | k in keys :: k in PutAll(d, ws).entries
  {
    PutAllKeys(d, ws);
  }

  // ---------------------------------------------------------------------------
  // BuildingWithDoors

  class BuildingWithDoors {
    /** The rooms, corridors, exits and stairs of the underlying Building. */
    const base: Building
    /** The doors, keyed by door id. */
    var doors: Dict<Door>

    ghost predicate Valid()
      reads this, base
    {
      base.Valid() && DoorsOf(base.rooms, doors)
    }

    constructor (name: string, nFloors: int)
      ensures Valid() && fresh(base)
      ensures base.name == name && base.nFloors == nFloors
      ensures base.rooms.keys == [] && base.corridors.keys == [] && base.exits.keys == [] && base.stairs.keys == []
      ensures doors == EmptyDict()
    {
      base := new Building(name, nFloors);
      doors := EmptyDict();
    }

    /** add_room: the room, and a door named after the room with suffix "_door", without a position on its floor;
        re-adding a room resets its door. */
    method AddRoom(room: Room)
      requires Valid()
      modifies base`rooms, this`doors
      ensures Valid()
      ensures base.rooms.entries == old(base.rooms.entries)[room.id := room]
      ensures base.rooms.keys == if room.id in old(base.rooms.entries) then old(base.rooms.keys) else old(base.rooms.keys) + [room.id]
      ensures doors == old(doors).Put(DoorId(room.id), Door(DoorId(room.id), room.id, None, room.floor))
    {
      base.AddRoom(room);
      doors := doors.Put(DoorId(room.id), Door(DoorId(room.id), room.id, None, room.floor));
      forall k | k in doors.entries && k != DoorId(room.id) ensures doors.entries[k].roomId != room.id {
        RoomIdsDistinct(doors.entries[k].roomId, room.id);
      }
    }

    /** finalize_doors: each door in turn, its position written in place. */
    method FinalizeDoors(norm: Norm, sqrt: real -> real)
      requires Valid()
      modifies this`doors
      ensures Valid()
      ensures doors == Finalized(base.rooms, base.corridors, old(doors), norm, sqrt)
    {
      FinalizedDoors(base.rooms, base.corridors, doors, norm, sqrt);
      doors := FinalizeEach(base.rooms, base.corridors, doors, norm, sqrt);
    }

    /** build_detailed_graph */
    method BuildDetailedGraph(norm: Norm, sqrt: real -> real) returns (g: Graph)
      requires Valid()
      ensures g.Valid() && g.nodes == DetailedNodes(base, doors, norm)
      ensures g.weight == DetailedWeights(base, doors, norm, sqrt)
    {
      var g3 := AddPlacedNodes(base.rooms, base.corridors, doors, norm, sqrt);
      var de, se := DoorRoomEdges(base.rooms, doors, sqrt), AllSegmentEdges(base.corridors, base.corridors.keys, norm);
      var g4 := LinkDoors(g3, doors, norm);
      var dl := DoorLinks(g3.nodes, doors, |PlacedDoors(doors)|, norm);
      LinkedAppend(map[], de + se, dl);
      g := AddLinkedExits(g4, base.exits, norm);
      LinkedAppend(map[], de + se + dl, ExitLinks(g3.nodes, base.exits, |base.exits.keys|, norm));
    }
  }
}
