/** What the dense navigation graph of src/models/node_based_building.py contains: the
    centre and door of every room, the waypoint chain of every corridor, the vertical
    chain of every stair, and the attachment rule of _connect_nodes. The ids keep the
    kinds apart (NodeIds), so each fact comes down to finding the writes that join a pair
    of nodes and checking that the last of them has the promised weight. */
module NodeFacts {
  import opened Common
  import opened Dicts
  import opened Facility
  import opened Networks
  import opened Placement
  import opened CoarseGraph
  import opened NodeIds
  import opened NodeBased

  // ---------------------------------------------------------------------------
  // The shape of the writes

  lemma {:induction false} AllWaypointsShape(corridors: Dict<Corridor>, keys: seq<string>, norm: Norm)
    requires forall k | k in keys :: k in corridors.entries
    ensures forall p | p in AllWaypoints(corridors, keys, norm) :: IsWaypoint(p.0) && p.1.kind == CorridorNode
  {
    if keys != [] {
      AllWaypointsShape(corridors, keys[..|keys| - 1], norm);
      var k := keys[|keys| - 1];
      var ws := Waypoints(k, corridors.entries[k], norm);
      forall p | p in ws ensures IsWaypoint(p.0) && p.1.kind == CorridorNode {
        var i :| 0 <= i < |ws| && ws[i] == p;
        assert p.0 == WaypointId(k, 'p', i);
      }
    }
  }

  lemma {:induction false} ChainEdgeAt(cid: string, c: Corridor, norm: Norm, i: nat)
    requires i < |Chain(cid, c, norm)|
    ensures Chain(cid, c, norm)[i]
            == Connection(WaypointId(cid, 'p', i), WaypointId(cid, 'p', i + 1), Share(CorridorLength(c, norm), WaypointCount(c, norm)))
  {
  }

  /** Where an edge of the chains comes from: edge i of corridor k's chain. */
  lemma {:induction false} AllChainsMember(corridors: Dict<Corridor>, keys: seq<string>, norm: Norm, x: Connection)
    returns (k: string, i: nat)
    requires forall k | k in keys :: k in corridors.entries
    requires x in AllChains(corridors, keys, norm)
    ensures k in keys && k in corridors.entries && i < |Chain(k, corridors.entries[k], norm)|
    ensures x == Chain(k, corridors.entries[k], norm)[i]
    decreases |keys|
  {
    var init, last := keys[..|keys| - 1], keys[|keys| - 1];
    var front := AllChains(corridors, init, norm);
    var ch := Chain(last, corridors.entries[last], norm);
    assert AllChains(corridors, keys, norm) == front + ch;
    if x in front {
      k, i := AllChainsMember(corridors, init, norm, x);
      assert k in keys by {
        var j :| 0 <= j < |init| && init[j] == k;
        assert keys[j] == k;
      }
    } else {
      var j :| 0 <= j < |ch| && ch[j] == x;
      k, i := last, j;
    }
  }

  lemma {:induction false} ChainLinksWaypoints(corridors: Dict<Corridor>, keys: seq<string>, norm: Norm)
    requires forall k | k in keys :: k in corridors.entries
    ensures forall x | x in AllChains(corridors, keys, norm) :: IsWaypoint(x.fromId) && IsWaypoint(x.toId)
  {
    forall x | x in AllChains(corridors, keys, norm) ensures IsWaypoint(x.fromId) && IsWaypoint(x.toId) {
      var k, i := AllChainsMember(corridors, keys, norm, x);
      ChainEdgeAt(k, corridors.entries[k], norm, i);
    }
  }

  /** Every vertical edge joins two consecutive landings of one stair. */
  lemma {:induction false} AllStairChainsShape(stairs: Dict<Stair>, keys: seq<string>)
    requires forall k | k in keys :: k in stairs.entries
    ensures forall x | x in AllStairChains(stairs, keys) :: exists k, i ::
              && k in keys && 0 <= i < |stairs.entries[k].connects| - 1
              && x == Connection(LandingId(k, stairs.entries[k].connects[i]), LandingId(k, stairs.entries[k].connects[i + 1]), FloorRise)
  {
    if keys != [] {
      AllStairChainsShape(stairs, keys[..|keys| - 1]);
      var k := keys[|keys| - 1];
      var es := StairChain(k, stairs.entries[k]);
      forall x | x in es ensures exists k', i ::
              && k' in keys && 0 <= i < |stairs.entries[k'].connects| - 1
              && x == Connection(LandingId(k', stairs.entries[k'].connects[i]), LandingId(k', stairs.entries[k'].connects[i + 1]), FloorRise)
      {
        var i :| 0 <= i < |es| && es[i] == x;
      }
    }
  }

  /** Every write of _connect_nodes runs from a node that is not a corridor node to a
      corridor node. */
  lemma {:induction false} AttachmentsShape(nodes: Dict<NodeInfo>, keys: seq<string>, kind: NodeKind, reach: Ext, norm: Norm)
    requires nodes.Valid() && forall k | k in keys :: k in nodes.entries
    requires kind != CorridorNode
    ensures forall x | x in Attachments(nodes, keys, kind, reach, norm) ::
              && x.fromId in nodes.entries && nodes.entries[x.fromId].kind == kind
              && x.toId in nodes.entries && nodes.entries[x.toId].kind == CorridorNode
  {
    if keys != [] {
      AttachmentsShape(nodes, keys[..|keys| - 1], kind, reach, norm);
    }
  }

  lemma {:induction false} ConnectWritesShape(nodes: Dict<NodeInfo>, norm: Norm)
    requires nodes.Valid()
    ensures forall x | x in ConnectWrites(nodes, norm) ::
              && x.fromId in nodes.entries && nodes.entries[x.fromId].kind != CorridorNode
              && x.toId in nodes.entries && nodes.entries[x.toId].kind == CorridorNode
  {
    AttachmentsShape(nodes, nodes.keys, DoorNode, Fin(DoorReach), norm);
    AttachmentsShape(nodes, nodes.keys, ExitNode, Inf, norm);
    AttachmentsShape(nodes, nodes.keys, StairNode, Fin(StairReach), norm);
  }

  // ---------------------------------------------------------------------------
  // The kind of a node is the kind of its last write

  /** The last write to a node comes from the loop for its kind. */
  lemma {:induction false} LastWriteSource(b: Building, norm: Norm, m: string) returns (p: (string, NodeInfo))
    requires b.Valid() && m in CreatedNodes(b, norm).entries
    ensures p.0 == m && p.1 == CreatedNodes(b, norm).entries[m]
    ensures p.1.kind == RoomCenterNode ==> p in CenterWrites(b.rooms)
    ensures p.1.kind == DoorNode ==> p in DoorWrites(b.rooms, b.corridors, norm)
    ensures p.1.kind == CorridorNode ==> p in AllWaypoints(b.corridors, b.corridors.keys, norm)
    ensures p.1.kind == ExitNode ==> p in ExitWrites(b.exits)
    ensures p.1.kind == StairNode ==> p in AllLandings(b.stairs, b.stairs.keys)
    ensures p.1.kind != RoomNode
  {
    var ws := NodeWrites(b, norm);
    PutAllLast(EmptyDict(), ws, m);
    LastWriteIsWrite(ws, m);
    p := (m, LastWrite(ws, m).value);
    var cw, dw := CenterWrites(b.rooms), DoorWrites(b.rooms, b.corridors, norm);
    var aw, ew := AllWaypoints(b.corridors, b.corridors.keys, norm), ExitWrites(b.exits);
    var al := AllLandings(b.stairs, b.stairs.keys);
    assert ws == cw + dw + aw + ew + al;
    WriteKinds(b.rooms, b.corridors, b.exits, b.stairs, norm, p);
    assert p in cw || p in dw || p in aw || p in ew || p in al;
  }

  /** The kind of node each node loop writes. */
  lemma {:induction false} WriteKinds(rooms: Dict<Room>, corridors: Dict<Corridor>, exits: Dict<Exit>, stairs: Dict<Stair>,
                                      norm: Norm, p: (string, NodeInfo))
    requires rooms.Valid() && corridors.Valid() && exits.Valid() && stairs.Valid()
    ensures p in CenterWrites(rooms) ==> p.1.kind == RoomCenterNode
    ensures p in DoorWrites(rooms, corridors, norm) ==> p.1.kind == DoorNode
    ensures p in AllWaypoints(corridors, corridors.keys, norm) ==> p.1.kind == CorridorNode
    ensures p in ExitWrites(exits) ==> p.1.kind == ExitNode
    ensures p in AllLandings(stairs, stairs.keys) ==> p.1.kind == StairNode
  {
    AllWaypointsShape(corridors, corridors.keys, norm);
  }

  /** The corridor nodes of the graph are waypoints. */
  lemma {:induction false} CorridorNodesAreWaypoints(b: Building, norm: Norm)
    requires b.Valid()
    ensures forall m | m in CreatedNodes(b, norm).entries && CreatedNodes(b, norm).entries[m].kind == CorridorNode ::
              IsWaypoint(m)
  {
    forall m | m in CreatedNodes(b, norm).entries && CreatedNodes(b, norm).entries[m].kind == CorridorNode
      ensures IsWaypoint(m)
    {
      var p := LastWriteSource(b, norm, m);
      AllWaypointsShape(b.corridors, b.corridors.keys, norm);
    }
  }

  /** A landing id always names a stair landing: the stair loop writes last. */
  lemma {:induction false} LandingsAreStairs(b: Building, norm: Norm, sid: string, f: int)
    requires b.Valid() && sid in b.stairs.entries && f in b.stairs.entries[sid].connects
    ensures LandingId(sid, f) in CreatedNodes(b, norm).entries
    ensures CreatedNodes(b, norm).entries[LandingId(sid, f)].kind == StairNode
  {
    var ws := NodeWrites(b, norm);
    var al := AllLandings(b.stairs, b.stairs.keys);
    var l := LandingId(sid, f);
    var info := NodeInfo(StairNode, b.stairs.entries[sid].position, f);
    assert (l, info) in al;
    var i :| 0 <= i < |al| && al[i] == (l, info);
    assert Firsts(al)[i] == l;
    var rest := CenterWrites(b.rooms) + DoorWrites(b.rooms, b.corridors, norm)
                + AllWaypoints(b.corridors, b.corridors.keys, norm) + ExitWrites(b.exits);
    assert ws == rest + al;
    LastWriteAppend(rest, al, l);
    PutAllLast(EmptyDict(), al, l);
    LastWriteIsWrite(al, l);
    PutAllLast(EmptyDict(), ws, l);
  }

  // ---------------------------------------------------------------------------
  // _connect_nodes

  /** The attachment rule: an edge from node n goes to a nearest corridor node on its
      floor and is shorter than the reach; and a node of the kind, with some corridor node
      on its floor within reach, gets one, unless the nearest corridor node's id is empty. */
  lemma {:induction false} AttachmentRule(nodes: Dict<NodeInfo>, n: string, kind: NodeKind, reach: Ext, norm: Norm)
    requires nodes.Valid() && n in nodes.entries
    ensures Attachment(nodes, n, kind, reach, norm).Some? ==>
              var c := Attachment(nodes, n, kind, reach, norm).value;
              && nodes.entries[n].kind == kind && c.fromId == n && c.toId in nodes.entries
              && nodes.entries[c.toId].kind == CorridorNode && nodes.entries[c.toId].floor == nodes.entries[n].floor
              && c.distance == norm(nodes.entries[n].position, nodes.entries[c.toId].position)
              && Fin(c.distance).Lt(reach)
              && forall m | m in nodes.entries && nodes.entries[m].kind == CorridorNode
                              && nodes.entries[m].floor == nodes.entries[n].floor ::
                   c.distance <= norm(nodes.entries[n].position, nodes.entries[m].position)
    ensures (forall m | m in nodes.entries && nodes.entries[m].kind == CorridorNode :: m != "") ==>
              forall m | m in nodes.entries && nodes.entries[m].kind == CorridorNode
                          && nodes.entries[m].floor == nodes.entries[n].floor
                          && Fin(norm(nodes.entries[n].position, nodes.entries[m].position)).Lt(reach)
                          && nodes.entries[n].kind == kind ::
                Attachment(nodes, n, kind, reach, norm).Some?
  {
    var info := nodes.entries[n];
    NearestWaypointLeast(nodes, n, norm);
    forall m | m in nodes.entries && nodes.entries[m].kind == CorridorNode
      ensures CorridorNodeOnFloor(info.floor)(nodes.entries[m]) == (nodes.entries[m].floor == info.floor)
    {
    }
  }

  // ---------------------------------------------------------------------------
  // Rooms

  lemma {:induction false} CenterWritten(rooms: Dict<Room>, r: string) returns (i: nat)
    requires rooms.Valid() && r in rooms.entries
    ensures i < |rooms.keys| && rooms.keys[i] == r
    ensures LastWrite(CenterWrites(rooms), CenterId(r))
              == Some(NodeInfo(RoomCenterNode, rooms.entries[r].position, rooms.entries[r].floor))
  {
    i := KeyIndex(rooms, r);
    var cw := CenterWrites(rooms);
    forall j | i < j < |cw| ensures cw[j].0 != cw[i].0 {
      RoomIdsDistinct(rooms.keys[j], r);
    }
    LastWriteAt(cw, i);
  }

  lemma {:induction false} DoorWritten(rooms: Dict<Room>, corridors: Dict<Corridor>, norm: Norm, r: string) returns (i: nat)
    requires rooms.Valid() && corridors.Valid() && r in rooms.entries
    ensures i < |rooms.keys| && rooms.keys[i] == r
    ensures LastWrite(DoorWrites(rooms, corridors, norm), DoorId(r))
              == Some(NodeInfo(DoorNode, DoorPosition(corridors, rooms.entries[r], norm), rooms.entries[r].floor))
  {
    i := KeyIndex(rooms, r);
    var dw := DoorWrites(rooms, corridors, norm);
    forall j | i < j < |dw| ensures dw[j].0 != dw[i].0 {
      RoomIdsDistinct(rooms.keys[j], r);
    }
    LastWriteAt(dw, i);
  }

  /** The writes after the room loops never touch a room's centre or door: waypoint and
      landing ids end in a digit, and exits only when an exit has that id. */
  lemma {:induction false} LaterWritesMissRoom(b: Building, norm: Norm, id: string)
    requires b.Valid() && !EndsInDigit(id) && id !in b.exits.entries
    ensures LastWrite(AllWaypoints(b.corridors, b.corridors.keys, norm) + ExitWrites(b.exits)
                      + AllLandings(b.stairs, b.stairs.keys), id) == None
  {
    var later := AllWaypoints(b.corridors, b.corridors.keys, norm) + ExitWrites(b.exits) + AllLandings(b.stairs, b.stairs.keys);
    AllWaypointsShape(b.corridors, b.corridors.keys, norm);
    forall p | p in AllWaypoints(b.corridors, b.corridors.keys, norm) ensures p.0 != id {
      WaypointFacts(p.0);
    }
    forall p | p in AllLandings(b.stairs, b.stairs.keys) ensures p.0 != id {
      var k, f :| k in b.stairs.keys && f in b.stairs.entries[k].connects
                  && p == (LandingId(k, f), NodeInfo(StairNode, b.stairs.entries[k].position, f));
      LandingEndsInDigit(k, f);
    }
    forall p | p in ExitWrites(b.exits) ensures p.0 != id {
      var i :| 0 <= i < |ExitWrites(b.exits)| && ExitWrites(b.exits)[i] == p;
    }
    LastWriteNone(later, id);
  }

  /** Each room has a centre node at the room's position on its floor, unless an exit was
      given the same id and overwrote it. */
  lemma {:induction false} CenterNode(b: Building, norm: Norm, r: string)
    requires b.Valid() && r in b.rooms.entries
    ensures CenterId(r) in CreatedNodes(b, norm).entries
    ensures CenterId(r) !in b.exits.entries ==>
              CreatedNodes(b, norm).entries[CenterId(r)]
                == NodeInfo(RoomCenterNode, b.rooms.entries[r].position, b.rooms.entries[r].floor)
  {
    var cw, dw := CenterWrites(b.rooms), DoorWrites(b.rooms, b.corridors, norm);
    var later := AllWaypoints(b.corridors, b.corridors.keys, norm) + ExitWrites(b.exits) + AllLandings(b.stairs, b.stairs.keys);
    var ws := NodeWrites(b, norm);
    assert ws == (cw + dw) + later;
    var c := CenterId(r);
    var i := CenterWritten(b.rooms, r);
    assert Firsts(ws)[i] == c;
    PutAllKeys(EmptyDict(), ws);
    if c !in b.exits.entries {
      forall k | 0 <= k < |dw| ensures dw[k].0 != c {
        RoomIdsDistinct(r, b.rooms.keys[k]);
      }
      LastWriteNone(dw, c);
      LastWriteAppend(cw, dw, c);
      RoomIdsEndInLetter(r);
      LaterWritesMissRoom(b, norm, c);
      LastWriteAppend(cw + dw, later, c);
      PutAllLast(EmptyDict(), ws, c);
    }
  }

  /** The door of a room as the room loops leave it. */
  lemma {:induction false} DoorAfterRoomLoops(b: Building, norm: Norm, r: string) returns (info: NodeInfo)
    requires b.Valid() && r in b.rooms.entries
    ensures info == NodeInfo(DoorNode, DoorPosition(b.corridors, b.rooms.entries[r], norm), b.rooms.entries[r].floor)
    ensures LastWrite(CenterWrites(b.rooms) + DoorWrites(b.rooms, b.corridors, norm), DoorId(r)) == Some(info)
    ensures DoorId(r) in Firsts(NodeWrites(b, norm))
  {
    var cw, dw := CenterWrites(b.rooms), DoorWrites(b.rooms, b.corridors, norm);
    var j := DoorWritten(b.rooms, b.corridors, norm, r);
    info := LastWrite(dw, DoorId(r)).value;
    LastWriteAppend(cw, dw, DoorId(r));
    var ws := NodeWrites(b, norm);
    assert Firsts(ws)[|cw| + j] == DoorId(r);
  }

  /** Each room has a door node where the door-side rule puts it, on the room's floor,
      unless an exit was given the same id and overwrote it. */
  lemma {:induction false} DoorNodeOf(b: Building, norm: Norm, r: string)
    requires b.Valid() && r in b.rooms.entries
    ensures DoorId(r) in CreatedNodes(b, norm).entries
    ensures DoorId(r) !in b.exits.entries ==>
              CreatedNodes(b, norm).entries[DoorId(r)]
                == NodeInfo(DoorNode, DoorPosition(b.corridors, b.rooms.entries[r], norm), b.rooms.entries[r].floor)
  {
    var rooms := CenterWrites(b.rooms) + DoorWrites(b.rooms, b.corridors, norm);
    var later := AllWaypoints(b.corridors, b.corridors.keys, norm) + ExitWrites(b.exits) + AllLandings(b.stairs, b.stairs.keys);
    var ws := NodeWrites(b, norm);
    assert ws == rooms + later;
    var d := DoorId(r);
    var info := DoorAfterRoomLoops(b, norm, r);
    PutAllKeys(EmptyDict(), ws);
    if d !in b.exits.entries {
      RoomIdsEndInLetter(r);
      LaterWritesMissRoom(b, norm, d);
      LastWriteAppend(rooms, later, d);
      PutAllLast(EmptyDict(), ws, d);
    }
  }

  lemma {:induction false} ChainsMissRoom(b: Building, norm: Norm, r: string)
    requires b.Valid()
    ensures forall x | x in AllChains(b.corridors, b.corridors.keys, norm) :: !Links(x, CenterId(r), DoorId(r))
  {
    RoomIdsEndInLetter(r);
    WaypointFacts(CenterId(r));
    WaypointFacts(DoorId(r));
    ChainLinksWaypoints(b.corridors, b.corridors.keys, norm);
  }

  lemma {:induction false} StairsMissRoom(b: Building, r: string)
    requires b.Valid()
    ensures forall x | x in AllStairChains(b.stairs, b.stairs.keys) :: !Links(x, CenterId(r), DoorId(r))
  {
    RoomIdsEndInLetter(r);
    AllStairChainsShape(b.stairs, b.stairs.keys);
    forall x | x in AllStairChains(b.stairs, b.stairs.keys) ensures !Links(x, CenterId(r), DoorId(r)) {
      var s, j :| && s in b.stairs.keys && 0 <= j < |b.stairs.entries[s].connects| - 1
                  && x == Connection(LandingId(s, b.stairs.entries[s].connects[j]),
                                     LandingId(s, b.stairs.entries[s].connects[j + 1]), FloorRise);
      LandingEndsInDigit(s, b.stairs.entries[s].connects[j]);
      LandingEndsInDigit(s, b.stairs.entries[s].connects[j + 1]);
    }
  }

  lemma {:induction false} ConnectionsMissRoom(b: Building, norm: Norm, r: string)
    requires b.Valid()
    ensures forall x | x in ConnectWrites(CreatedNodes(b, norm), norm) :: !Links(x, CenterId(r), DoorId(r))
  {
    var nodes := CreatedNodes(b, norm);
    RoomIdsEndInLetter(r);
    WaypointFacts(CenterId(r));
    WaypointFacts(DoorId(r));
    ConnectWritesShape(nodes, norm);
    CorridorNodesAreWaypoints(b, norm);
  }

  /** Only a room's own door edge joins its centre and its door. */
  lemma {:induction false} OnlyDoorEdgeJoinsRoom(b: Building, norm: Norm, r: string)
    requires b.Valid()
    ensures var rest := AllChains(b.corridors, b.corridors.keys, norm) + AllStairChains(b.stairs, b.stairs.keys)
                        + ConnectWrites(CreatedNodes(b, norm), norm);
      forall x | x in rest :: !Links(x, CenterId(r), DoorId(r))
  {
    ChainsMissRoom(b, norm, r);
    StairsMissRoom(b, r);
    ConnectionsMissRoom(b, norm, r);
  }

  function ChainDistances(es: seq<Connection>): (d: seq<real>)
    ensures |d| == |es| && forall i | 0 <= i < |es| :: d[i] == es[i].distance
  {
    seq(|es|, i requires 0 <= i < |es| => es[i].distance)
  }

  /** A corridor of length L gets int(L) + 1 waypoints, about one per metre, spread
      evenly from its start to its end (a corridor shorter than a metre gets only its
      start). */
  lemma {:induction false} WaypointLayout(cid: string, c: Corridor, norm: Norm)
    requires CorridorLength(c, norm) >= 0.0
    ensures var ws, n := Waypoints(cid, c, norm), |Waypoints(cid, c, norm)|;
      && n >= 1 && n as real <= CorridorLength(c, norm) + 1.0 < n as real + 1.0
      && ws[0].1.position == c.start
      && (n >= 2 ==> ws[n - 1].1.position == c.end)
      && (n == 1 ==> CorridorLength(c, norm) < 1.0)
      && forall i | 0 <= i < n ::
           && ws[i].0 == WaypointId(cid, 'p', i)
           && ws[i].1.kind == CorridorNode && ws[i].1.floor == c.floor
           && 0.0 <= Fraction(i, n) <= 1.0
           && ws[i].1.position == Lerp(c.start, c.end, Fraction(i, n))
  {
    var ws, n := Waypoints(cid, c, norm), WaypointCount(c, norm);
    assert |ws| == n;
    forall i | 0 <= i < n
      ensures && ws[i].0 == WaypointId(cid, 'p', i)
              && ws[i].1.kind == CorridorNode && ws[i].1.floor == c.floor
              && 0.0 <= Fraction(i, n) <= 1.0
              && ws[i].1.position == Lerp(c.start, c.end, Fraction(i, n))
    {
      WaypointAt(cid, c, norm, i);
      FractionBounds(i, n);
    }
    WaypointCountBounds(c, norm);
    WaypointAt(cid, c, norm, 0);
    FractionEnds(n);
    if n >= 2 {
      WaypointAt(cid, c, norm, n - 1);
    }
  }

  lemma {:induction false} WaypointCountBounds(c: Corridor, norm: Norm)
    requires CorridorLength(c, norm) >= 0.0
    ensures var n := WaypointCount(c, norm);
      && n >= 1 && n as real <= CorridorLength(c, norm) + 1.0 < n as real + 1.0
      && (n == 1 ==> CorridorLength(c, norm) < 1.0)
  {
  }

  lemma {:induction false} FractionEnds(n: int)
    requires n >= 1
    ensures Fraction(0, n) == 0.0
    ensures n >= 2 ==> Fraction(n - 1, n) == 1.0
  {
    if n >= 2 {
      var s := Segments(n);
      assert s == (n - 1) as real;
      assert s / s == 1.0;
    }
  }

  lemma {:induction false} WaypointAt(cid: string, c: Corridor, norm: Norm, i: nat)
    requires i < |Waypoints(cid, c, norm)|
    ensures Waypoints(cid, c, norm)[i]
            == (WaypointId(cid, 'p', i),
                NodeInfo(CorridorNode, Lerp(c.start, c.end, Fraction(i, WaypointCount(c, norm))), c.floor))
  {
  }

  lemma {:induction false} FractionBounds(i: nat, n: int)
    requires i < n
    ensures 0.0 <= Fraction(i, n) <= 1.0
  {
    assert i as real <= Segments(n);
  }

  /** The chain joins each waypoint to the next with an edge of length L / (n - 1). */
  lemma {:induction false} ChainLayout(cid: string, c: Corridor, norm: Norm)
    requires CorridorLength(c, norm) >= 0.0
    ensures var ws, es := Waypoints(cid, c, norm), Chain(cid, c, norm);
      && |es| == |ws| - 1
      && forall i | 0 <= i < |es| ::
           && es[i].fromId == ws[i].0 && es[i].toId == ws[i + 1].0
           && es[i].distance == CorridorLength(c, norm) / Segments(|ws|)
  {
    var n := WaypointCount(c, norm);
    assert |Waypoints(cid, c, norm)| == Indexes(n);
  }

  /** The chain of a corridor of at least a metre adds up to the corridor's length. */
  lemma {:induction false} ChainTotal(cid: string, c: Corridor, norm: Norm)
    requires CorridorLength(c, norm) >= 1.0
    ensures Sum(ChainDistances(Chain(cid, c, norm))) == CorridorLength(c, norm)
  {
    var n, len := WaypointCount(c, norm), CorridorLength(c, norm);
    var ds := ChainDistances(Chain(cid, c, norm));
    assert |ds| == n - 1 && n >= 2;
    SumUniform(ds, Share(len, n));
    DivideBack(Segments(n), len);
  }

  lemma {:induction false} DivideBack(s: real, x: real)
    requires s > 0.0
    ensures s * (x / s) == x
  {
  }

  /** Each room's centre and door are joined by an edge of weight room_size / 2 = 2, in
      both directions, and no later write changes it. */
  lemma {:induction false} CenterDoorEdge(b: Building, norm: Norm, r: string)
    requires b.Valid() && r in b.rooms.entries
    ensures (CenterId(r), DoorId(r)) in BuiltWeights(b, norm) && BuiltWeights(b, norm)[(CenterId(r), DoorId(r))] == 2.0
    ensures (DoorId(r), CenterId(r)) in BuiltWeights(b, norm) && BuiltWeights(b, norm)[(DoorId(r), CenterId(r))] == 2.0
  {
    var c, d := CenterId(r), DoorId(r);
    var de := DoorEdges(b.rooms);
    OnlyDoorEdgeJoinsRoom(b, norm, r);
    DoorEdgeOf(b.rooms, r);
    LinkedThroughFirst(de, AllChains(b.corridors, b.corridors.keys, norm), AllStairChains(b.stairs, b.stairs.keys),
                       ConnectWrites(CreatedNodes(b, norm), norm), c, d, 2.0);
  }

  /** Some door edge joins a room's centre and door, with weight 2. */
  lemma {:induction false} DoorEdgeOf(rooms: Dict<Room>, r: string)
    requires rooms.Valid() && r in rooms.entries
    ensures exists x | x in DoorEdges(rooms) :: Links(x, CenterId(r), DoorId(r))
    ensures forall x | x in DoorEdges(rooms) && Links(x, CenterId(r), DoorId(r)) :: x.distance == 2.0
  {
    var i := KeyIndex(rooms, r);
    var de := DoorEdges(rooms);
    assert de[i] == Connection(CenterId(r), DoorId(r), 2.0);
    assert de[i] in de;
  }

  /** The edge written in the first of four write lists, and in none of the others. */
  lemma {:induction false} LinkedThroughFirst(a: seq<Connection>, b: seq<Connection>, c: seq<Connection>, e: seq<Connection>,
                           u: string, v: string, d: real)
    requires forall x | x in b + c + e :: !Links(x, u, v)
    requires exists x | x in a :: Links(x, u, v)
    requires forall x | x in a && Links(x, u, v) :: x.distance == d
    ensures var w := Linked(map[], a + b + c + e);
      (u, v) in w && w[(u, v)] == d && (v, u) in w && w[(v, u)] == d
  {
    assert a + b + c + e == [] + a + (b + c + e);
    LinkedThrough(map[], [], a, b + c + e, u, v, d);
  }

  // ---------------------------------------------------------------------------
  // Stairs

  lemma {:induction false} StairChainInAll(stairs: Dict<Stair>, keys: seq<string>, k: string, i: nat)
    requires forall k | k in keys :: k in stairs.entries
    requires k in keys && i < |StairChain(k, stairs.entries[k])|
    ensures StairChain(k, stairs.entries[k])[i] in AllStairChains(stairs, keys)
  {
    if keys[|keys| - 1] != k {
      StairChainInAll(stairs, keys[..|keys| - 1], k, i);
    }
  }

  /** No edge of _connect_nodes reaches a landing: they all end at corridor nodes. */
  lemma {:induction false} ConnectionsMissLandings(b: Building, norm: Norm)
    requires b.Valid()
    ensures forall x, s, f | x in ConnectWrites(CreatedNodes(b, norm), norm) :: x.toId != LandingId(s, f)
  {
    var nodes := CreatedNodes(b, norm);
    ConnectWritesShape(nodes, norm);
    CorridorNodesAreWaypoints(b, norm);
    forall x | x in ConnectWrites(nodes, norm) ensures forall s, f :: x.toId != LandingId(s, f) {
      WaypointFacts(x.toId);
    }
  }

  lemma {:induction false} AllStairChainsRise(stairs: Dict<Stair>, keys: seq<string>)
    requires forall k | k in keys :: k in stairs.entries
    ensures forall x | x in AllStairChains(stairs, keys) :: x.distance == FloorRise
  {
    if keys != [] {
      AllStairChainsRise(stairs, keys[..|keys| - 1]);
    }
  }

  /** The landings of consecutive floors of a stair's connects are joined by an edge of
      weight 4 in both directions. */
  lemma {:induction false} StairEdge(b: Building, norm: Norm, sid: string, i: nat)
    requires b.Valid() && sid in b.stairs.entries && i < |b.stairs.entries[sid].connects| - 1
    ensures var u, v := LandingId(sid, b.stairs.entries[sid].connects[i]), LandingId(sid, b.stairs.entries[sid].connects[i + 1]);
      && (u, v) in BuiltWeights(b, norm) && BuiltWeights(b, norm)[(u, v)] == FloorRise
      && (v, u) in BuiltWeights(b, norm) && BuiltWeights(b, norm)[(v, u)] == FloorRise
  {
    var s := b.stairs.entries[sid];
    var u, v := LandingId(sid, s.connects[i]), LandingId(sid, s.connects[i + 1]);
    var front := DoorEdges(b.rooms) + AllChains(b.corridors, b.corridors.keys, norm);
    var sc := AllStairChains(b.stairs, b.stairs.keys);
    var cn := ConnectWrites(CreatedNodes(b, norm), norm);
    assert CreatedEdges(b, norm) + cn == front + sc + cn;
    ConnectionsMissLandings(b, norm);
    StairChainInAll(b.stairs, b.stairs.keys, sid, i);
    NodeBased.StairChainAt(sid, s, i);
    assert Links(StairChain(sid, s)[i], u, v);
    AllStairChainsRise(b.stairs, b.stairs.keys);
    LinkedThrough(map[], front, sc, cn, u, v, FloorRise);
  }

  /** A stair edge joining two landing ids joins consecutive floors of one stair. */
  lemma {:induction false} StairLinkFloors(stairs: Dict<Stair>, x: Connection, s1: string, f1: int, s2: string, f2: int)
    requires stairs.Valid() && x in AllStairChains(stairs, stairs.keys) && Links(x, LandingId(s1, f1), LandingId(s2, f2))
    ensures s1 == s2 && s1 in stairs.entries
    ensures exists i | 0 <= i < |stairs.entries[s1].connects| - 1 ::
              var c := stairs.entries[s1].connects;
              (f1 == c[i] && f2 == c[i + 1]) || (f1 == c[i + 1] && f2 == c[i])
  {
    AllStairChainsShape(stairs, stairs.keys);
    var t, i :| && t in stairs.keys && 0 <= i < |stairs.entries[t].connects| - 1
                && x == Connection(LandingId(t, stairs.entries[t].connects[i]),
                                   LandingId(t, stairs.entries[t].connects[i + 1]), FloorRise);
    var c := stairs.entries[t].connects;
    if x.fromId == LandingId(s1, f1) {
      LandingInjective(s1, t, f1, c[i]);
      LandingInjective(s2, t, f2, c[i + 1]);
    } else {
      LandingInjective(s1, t, f1, c[i + 1]);
      LandingInjective(s2, t, f2, c[i]);
    }
  }

  /** Only stair edges join two landing ids, with weight 4, and only the landings of
      consecutive floors of one stair's connects. */
  lemma {:induction false} StairEdgesOnly(b: Building, norm: Norm, s1: string, f1: int, s2: string, f2: int)
    requires b.Valid() && (LandingId(s1, f1), LandingId(s2, f2)) in BuiltWeights(b, norm)
    ensures s1 == s2 && s1 in b.stairs.entries
    ensures BuiltWeights(b, norm)[(LandingId(s1, f1), LandingId(s2, f2))] == FloorRise
    ensures exists i | 0 <= i < |b.stairs.entries[s1].connects| - 1 ::
              var c := b.stairs.entries[s1].connects;
              (f1 == c[i] && f2 == c[i + 1]) || (f1 == c[i + 1] && f2 == c[i])
  {
    var u, v := LandingId(s1, f1), LandingId(s2, f2);
    var all := CreatedEdges(b, norm) + ConnectWrites(CreatedNodes(b, norm), norm);
    var sc := AllStairChains(b.stairs, b.stairs.keys);
    OnlyStairsJoinLandings(b, norm, s1, f1, s2, f2);
    AllStairChainsRise(b.stairs, b.stairs.keys);
    LinkedOnlyFrom(all, sc, u, v, FloorRise);
    var x :| x in sc && Links(x, u, v);
    StairLinkFloors(b.stairs, x, s1, f1, s2, f2);
  }

  /** Neither the door edges, nor the corridor chains, nor the edges of _connect_nodes
      join two landing ids. */
  lemma {:induction false} OnlyStairsJoinLandings(b: Building, norm: Norm, s1: string, f1: int, s2: string, f2: int)
    requires b.Valid()
    ensures forall x | x in CreatedEdges(b, norm) + ConnectWrites(CreatedNodes(b, norm), norm)
                        && Links(x, LandingId(s1, f1), LandingId(s2, f2)) ::
              x in AllStairChains(b.stairs, b.stairs.keys)
  {
    var u, v := LandingId(s1, f1), LandingId(s2, f2);
    var de, ch, st := DoorEdges(b.rooms), AllChains(b.corridors, b.corridors.keys, norm), AllStairChains(b.stairs, b.stairs.keys);
    var cw := ConnectWrites(CreatedNodes(b, norm), norm);
    assert CreatedEdges(b, norm) == de + ch + st;
    ConnectionsMissLandings(b, norm);
    DoorEdgesMissLandings(b.rooms, s1, f1, v);
    ChainsMissLandings(b.corridors, norm, s1, f1, s2, f2);
    forall x | x in de + ch + st + cw && Links(x, u, v) ensures x in st {
      assert x in de || x in ch || x in st || x in cw;
    }
  }

  /** No door edge touches a landing. */
  lemma {:induction false} DoorEdgesMissLandings(rooms: Dict<Room>, s1: string, f1: int, v: string)
    ensures forall x | x in DoorEdges(rooms) :: !Links(x, LandingId(s1, f1), v)
  {
    LandingEndsInDigit(s1, f1);
    forall x | x in DoorEdges(rooms) ensures !Links(x, LandingId(s1, f1), v) {
      var j :| 0 <= j < |rooms.keys| && DoorEdges(rooms)[j] == x;
      RoomIdsEndInLetter(rooms.keys[j]);
    }
  }

  /** No corridor chain edge joins two landings. */
  lemma {:induction false} ChainsMissLandings(corridors: Dict<Corridor>, norm: Norm, s1: string, f1: int, s2: string, f2: int)
    requires forall k | k in corridors.keys :: k in corridors.entries
    ensures forall x | x in AllChains(corridors, corridors.keys, norm) :: !Links(x, LandingId(s1, f1), LandingId(s2, f2))
  {
    ChainLinksWaypoints(corridors, corridors.keys, norm);
    forall x | x in AllChains(corridors, corridors.keys, norm) ensures !Links(x, LandingId(s1, f1), LandingId(s2, f2)) {
      WaypointFacts(x.fromId);
      WaypointFacts(x.toId);
    }
  }

  // ---------------------------------------------------------------------------
  // Corridors

  /** Every waypoint write is a waypoint of one of the corridors. */
  lemma {:induction false} AllWaypointsFrom(corridors: Dict<Corridor>, keys: seq<string>, norm: Norm)
    requires forall k | k in keys :: k in corridors.entries
    ensures forall p | p in AllWaypoints(corridors, keys, norm) :: exists k, j ::
              && k in keys && 0 <= j < |Waypoints(k, corridors.entries[k], norm)|
              && p == Waypoints(k, corridors.entries[k], norm)[j]
  {
    if keys != [] {
      AllWaypointsFrom(corridors, keys[..|keys| - 1], norm);
    }
  }

  lemma {:induction false} WaypointInAll(corridors: Dict<Corridor>, keys: seq<string>, norm: Norm, k: string, j: nat)
    requires forall k | k in keys :: k in corridors.entries
    requires k in keys && j < |Waypoints(k, corridors.entries[k], norm)|
    ensures Waypoints(k, corridors.entries[k], norm)[j] in AllWaypoints(corridors, keys, norm)
  {
    if keys[|keys| - 1] != k {
      WaypointInAll(corridors, keys[..|keys| - 1], norm, k, j);
    }
  }

  lemma {:induction false} ChainInAll(corridors: Dict<Corridor>, keys: seq<string>, norm: Norm, k: string, j: nat)
    requires forall k | k in keys :: k in corridors.entries
    requires k in keys && j < |Chain(k, corridors.entries[k], norm)|
    ensures Chain(k, corridors.entries[k], norm)[j] in AllChains(corridors, keys, norm)
  {
    if keys[|keys| - 1] != k {
      ChainInAll(corridors, keys[..|keys| - 1], norm, k, j);
    }
  }

  /** A waypoint's last write is its own: no other corridor and no stair reuses its id. */
  lemma {:induction false} WaypointWritten(corridors: Dict<Corridor>, norm: Norm, cid: string, j: nat)
    requires corridors.Valid() && cid in corridors.entries && j < |Waypoints(cid, corridors.entries[cid], norm)|
    ensures LastWrite(AllWaypoints(corridors, corridors.keys, norm), WaypointId(cid, 'p', j))
              == Some(Waypoints(cid, corridors.entries[cid], norm)[j].1)
  {
    var aw := AllWaypoints(corridors, corridors.keys, norm);
    var w := WaypointId(cid, 'p', j);
    var mine := Waypoints(cid, corridors.entries[cid], norm)[j];
    WaypointInAll(corridors, corridors.keys, norm, cid, j);
    var i :| 0 <= i < |aw| && aw[i] == mine;
    assert Firsts(aw)[i] == w;
    PutAllLast(EmptyDict(), aw, w);
    LastWriteIsWrite(aw, w);
    var v := LastWrite(aw, w).value;
    AllWaypointsFrom(corridors, corridors.keys, norm);
    var k, j' :| && k in corridors.keys && 0 <= j' < |Waypoints(k, corridors.entries[k], norm)|
                 && (w, v) == Waypoints(k, corridors.entries[k], norm)[j'];
    WaypointInjective(k, cid, 'p', j', j);
  }

  /** Each waypoint is a corridor node at its place on the corridor, unless an exit was
      given the same id and overwrote it. */
  lemma {:induction false} WaypointNode(b: Building, norm: Norm, cid: string, j: nat)
    requires b.Valid() && cid in b.corridors.entries && j < |Waypoints(cid, b.corridors.entries[cid], norm)|
    requires WaypointId(cid, 'p', j) !in b.exits.entries
    ensures WaypointId(cid, 'p', j) in CreatedNodes(b, norm).entries
    ensures CreatedNodes(b, norm).entries[WaypointId(cid, 'p', j)] == Waypoints(cid, b.corridors.entries[cid], norm)[j].1
  {
    var w := WaypointId(cid, 'p', j);
    var rooms := CenterWrites(b.rooms) + DoorWrites(b.rooms, b.corridors, norm);
    var aw := AllWaypoints(b.corridors, b.corridors.keys, norm);
    var later := ExitWrites(b.exits) + AllLandings(b.stairs, b.stairs.keys);
    var ws := NodeWrites(b, norm);
    assert ws == (rooms + aw) + later;
    WaypointWritten(b.corridors, norm, cid, j);
    WaypointFacts(w);
    forall p | p in later ensures p.0 != w {
      if p in AllLandings(b.stairs, b.stairs.keys) {
        var k, f :| k in b.stairs.keys && f in b.stairs.entries[k].connects
                    && p == (LandingId(k, f), NodeInfo(StairNode, b.stairs.entries[k].position, f));
      } else {
        var i :| 0 <= i < |ExitWrites(b.exits)| && ExitWrites(b.exits)[i] == p;
      }
    }
    LastWriteNone(later, w);
    LastWriteAppend(rooms, aw, w);
    LastWriteAppend(rooms + aw, later, w);
    PutAllLast(EmptyDict(), ws, w);
  }

  /** Consecutive waypoints of a corridor are joined, in both directions, by an edge of
      length L / (n - 1), unless an exit shares the id of one of them. */
  lemma {:induction false} CorridorChainEdge(b: Building, norm: Norm, cid: string, i: nat)
    requires b.Valid() && cid in b.corridors.entries && i < |Chain(cid, b.corridors.entries[cid], norm)|
    requires WaypointId(cid, 'p', i) !in b.exits.entries && WaypointId(cid, 'p', i + 1) !in b.exits.entries
    ensures var u, v, d := WaypointId(cid, 'p', i), WaypointId(cid, 'p', i + 1), Chain(cid, b.corridors.entries[cid], norm)[i].distance;
      && (u, v) in BuiltWeights(b, norm) && BuiltWeights(b, norm)[(u, v)] == d
      && (v, u) in BuiltWeights(b, norm) && BuiltWeights(b, norm)[(v, u)] == d
  {
    var co := b.corridors.entries[cid];
    var u, v, d := WaypointId(cid, 'p', i), WaypointId(cid, 'p', i + 1), Chain(cid, co, norm)[i].distance;
    ChainBackMisses(b, norm, cid, i);
    ChainInAll(b.corridors, b.corridors.keys, norm, cid, i);
    assert Links(Chain(cid, co, norm)[i], u, v);
    ChainLinksAgree(b.corridors, norm, cid, i);
    LinkedThroughSecond(DoorEdges(b.rooms), AllChains(b.corridors, b.corridors.keys, norm), AllStairChains(b.stairs, b.stairs.keys),
                        ConnectWrites(CreatedNodes(b, norm), norm), u, v, d);
  }

  /** The edge written in the second of four write lists and in none after it. */
  lemma {:induction false} LinkedThroughSecond(a: seq<Connection>, b: seq<Connection>, c: seq<Connection>, e: seq<Connection>,
                            u: string, v: string, d: real)
    requires forall x | x in c + e :: !Links(x, u, v)
    requires exists x | x in b :: Links(x, u, v)
    requires forall x | x in b && Links(x, u, v) :: x.distance == d
    ensures var w := Linked(map[], a + b + c + e);
      (u, v) in w && w[(u, v)] == d && (v, u) in w && w[(v, u)] == d
  {
    assert a + b + c + e == a + b + (c + e);
    LinkedThrough(map[], a, b, c + e, u, v, d);
  }

  /** Every chain edge joining two consecutive waypoints of a corridor is that corridor's. */
  lemma {:induction false} ChainLinksAgree(corridors: Dict<Corridor>, norm: Norm, cid: string, i: nat)
    requires corridors.Valid() && cid in corridors.entries && i < |Chain(cid, corridors.entries[cid], norm)|
    ensures forall x | x in AllChains(corridors, corridors.keys, norm) && Links(x, WaypointId(cid, 'p', i), WaypointId(cid, 'p', i + 1)) ::
              x.distance == Chain(cid, corridors.entries[cid], norm)[i].distance
  {
    var u, v := WaypointId(cid, 'p', i), WaypointId(cid, 'p', i + 1);
    forall x | x in AllChains(corridors, corridors.keys, norm) && Links(x, u, v)
      ensures x.distance == Chain(cid, corridors.entries[cid], norm)[i].distance
    {
      ChainLinkAgrees(corridors, norm, cid, i, x);
    }
  }

  /** One chain edge joining the i-th and the next waypoint of a corridor is its i-th. */
  lemma {:induction false} ChainLinkAgrees(corridors: Dict<Corridor>, norm: Norm, cid: string, i: nat, x: Connection)
    requires corridors.Valid() && cid in corridors.entries && i < |Chain(cid, corridors.entries[cid], norm)|
    requires x in AllChains(corridors, corridors.keys, norm) && Links(x, WaypointId(cid, 'p', i), WaypointId(cid, 'p', i + 1))
    ensures x.distance == Chain(cid, corridors.entries[cid], norm)[i].distance
  {
    var k, j := AllChainsMember(corridors, corridors.keys, norm, x);
    ChainEdgeAt(k, corridors.entries[k], norm, j);
    ConsecutiveLinks(k, j, cid, i, x);
  }

  /** An edge from the j-th to the next waypoint of corridor k that joins the i-th and
      the next waypoint of corridor cid is the same step of the same corridor. */
  lemma {:induction false} ConsecutiveLinks(k: string, j: nat, cid: string, i: nat, x: Connection)
    requires x.fromId == WaypointId(k, 'p', j) && x.toId == WaypointId(k, 'p', j + 1)
    requires Links(x, WaypointId(cid, 'p', i), WaypointId(cid, 'p', i + 1))
    ensures k == cid && j == i
  {
    if x.fromId == WaypointId(cid, 'p', i) {
      WaypointInjective(k, cid, 'p', j, i);
    } else {
      WaypointInjective(k, cid, 'p', j, i + 1);
      WaypointInjective(k, cid, 'p', j + 1, i);
      assert false;
    }
  }

  /** Neither a stair edge nor an edge of _connect_nodes joins two waypoints of a corridor
      whose ids no exit shares. */
  lemma {:induction false} ChainBackMisses(b: Building, norm: Norm, cid: string, i: nat)
    requires b.Valid() && cid in b.corridors.entries && i < |Chain(cid, b.corridors.entries[cid], norm)|
    requires WaypointId(cid, 'p', i) !in b.exits.entries && WaypointId(cid, 'p', i + 1) !in b.exits.entries
    ensures forall x | x in AllStairChains(b.stairs, b.stairs.keys) + ConnectWrites(CreatedNodes(b, norm), norm) ::
              !Links(x, WaypointId(cid, 'p', i), WaypointId(cid, 'p', i + 1))
  {
    StairsMissWaypoints(b.stairs, cid, i);
    ConnectionsMissChain(b, norm, cid, i);
  }

  lemma {:induction false} StairsMissWaypoints(stairs: Dict<Stair>, cid: string, i: nat)
    requires stairs.Valid()
    ensures forall x | x in AllStairChains(stairs, stairs.keys) :: !Links(x, WaypointId(cid, 'p', i), WaypointId(cid, 'p', i + 1))
  {
    var u := WaypointId(cid, 'p', i);
    AllStairChainsShape(stairs, stairs.keys);
    forall x | x in AllStairChains(stairs, stairs.keys) ensures !Links(x, u, WaypointId(cid, 'p', i + 1)) {
      var s, j :| && s in stairs.keys && 0 <= j < |stairs.entries[s].connects| - 1
                  && x == Connection(LandingId(s, stairs.entries[s].connects[j]),
                                     LandingId(s, stairs.entries[s].connects[j + 1]), FloorRise);
      WaypointNotLanding(cid, 'p', i, s, stairs.entries[s].connects[j]);
      WaypointNotLanding(cid, 'p', i, s, stairs.entries[s].connects[j + 1]);
    }
  }

  lemma {:induction false} ConnectionsMissChain(b: Building, norm: Norm, cid: string, i: nat)
    requires b.Valid() && cid in b.corridors.entries && i < |Chain(cid, b.corridors.entries[cid], norm)|
    requires WaypointId(cid, 'p', i) !in b.exits.entries && WaypointId(cid, 'p', i + 1) !in b.exits.entries
    ensures forall x | x in ConnectWrites(CreatedNodes(b, norm), norm) ::
              !Links(x, WaypointId(cid, 'p', i), WaypointId(cid, 'p', i + 1))
  {
    var co := b.corridors.entries[cid];
    ChainLayout(cid, co, norm);
    WaypointNode(b, norm, cid, i);
    WaypointNode(b, norm, cid, i + 1);
    ConnectionsMissCorridorPairs(CreatedNodes(b, norm), norm, WaypointId(cid, 'p', i), WaypointId(cid, 'p', i + 1));
  }

  /** No edge of _connect_nodes joins two corridor nodes. */
  lemma {:induction false} ConnectionsMissCorridorPairs(nodes: Dict<NodeInfo>, norm: Norm, u: string, v: string)
    requires nodes.Valid() && u in nodes.entries && v in nodes.entries
    requires nodes.entries[u].kind == CorridorNode && nodes.entries[v].kind == CorridorNode
    ensures forall x | x in ConnectWrites(nodes, norm) :: !Links(x, u, v)
  {
    ConnectWritesShape(nodes, norm);
  }

  // ---------------------------------------------------------------------------
  // Weights and shortest paths

  lemma {:induction false} ChainsNonNegative(corridors: Dict<Corridor>, norm: Norm)
    requires corridors.Valid() && NonNegativeNorm(norm)
    ensures forall x | x in AllChains(corridors, corridors.keys, norm) :: x.distance >= 0.0
  {
    forall x | x in AllChains(corridors, corridors.keys, norm) ensures x.distance >= 0.0 {
      var k, j := AllChainsMember(corridors, corridors.keys, norm, x);
      var co := corridors.entries[k];
      ChainEdgeAt(k, co, norm, j);
      ShareNonNegative(CorridorLength(co, norm), WaypointCount(co, norm));
    }
  }

  lemma {:induction false} ShareNonNegative(length: real, n: int)
    requires length >= 0.0
    ensures Share(length, n) >= 0.0
  {
  }

  lemma {:induction false} AttachmentsNonNegative(nodes: Dict<NodeInfo>, keys: seq<string>, kind: NodeKind, reach: Ext, norm: Norm)
    requires nodes.Valid() && NonNegativeNorm(norm) && forall k | k in keys :: k in nodes.entries
    ensures forall x | x in Attachments(nodes, keys, kind, reach, norm) :: x.distance >= 0.0
  {
    if keys != [] {
      AttachmentsNonNegative(nodes, keys[..|keys| - 1], kind, reach, norm);
      AttachmentRule(nodes, keys[|keys| - 1], kind, reach, norm);
    }
  }

  /** With a norm that is never negative every edge weight of the graph is non-negative,
      as shortest paths need. */
  lemma {:induction false} BuiltWeightsNonNegative(b: Building, norm: Norm)
    requires b.Valid() && NonNegativeNorm(norm)
    ensures forall e | e in BuiltWeights(b, norm) :: BuiltWeights(b, norm)[e] >= 0.0
  {
    var nodes := CreatedNodes(b, norm);
    EdgeWeightsNonNegative(b.rooms, b.corridors, b.stairs, nodes, norm);
    assert CreatedEdges(b, norm) == DoorEdges(b.rooms) + AllChains(b.corridors, b.corridors.keys, norm) + AllStairChains(b.stairs, b.stairs.keys);
    assert BuiltWeights(b, norm) == Linked(map[], CreatedEdges(b, norm) + ConnectWrites(nodes, norm));
  }

  /** The same, for any rooms, corridors, stairs and nodes: every weight written is
      non-negative, so every weight of the map is. */
  lemma {:induction false} EdgeWeightsNonNegative(rooms: Dict<Room>, corridors: Dict<Corridor>, stairs: Dict<Stair>,
                                                  nodes: Dict<NodeInfo>, norm: Norm)
    requires corridors.Valid() && stairs.Valid() && nodes.Valid() && NonNegativeNorm(norm)
    ensures var w := Linked(map[], DoorEdges(rooms) + AllChains(corridors, corridors.keys, norm) + AllStairChains(stairs, stairs.keys)
                                   + ConnectWrites(nodes, norm));
      forall e | e in w :: w[e] >= 0.0
  {
    var de, ch, st := DoorEdges(rooms), AllChains(corridors, corridors.keys, norm), AllStairChains(stairs, stairs.keys);
    var ad := Attachments(nodes, nodes.keys, DoorNode, Fin(DoorReach), norm);
    var ae := Attachments(nodes, nodes.keys, ExitNode, Inf, norm);
    var al := Attachments(nodes, nodes.keys, StairNode, Fin(StairReach), norm);
    ChainsNonNegative(corridors, norm);
    AllStairChainsRise(stairs, stairs.keys);
    AttachmentsNonNegative(nodes, nodes.keys, DoorNode, Fin(DoorReach), norm);
    AttachmentsNonNegative(nodes, nodes.keys, ExitNode, Inf, norm);
    AttachmentsNonNegative(nodes, nodes.keys, StairNode, Fin(StairReach), norm);
    assert forall x | x in de :: x.distance >= 0.0 by {
      forall x | x in de ensures x.distance >= 0.0 {
        var j :| 0 <= j < |de| && de[j] == x;
      }
    }
    AppendNonNegative(de, ch);
    AppendNonNegative(de + ch, st);
    AppendNonNegative(ad, ae);
    AppendNonNegative(ad + ae, al);
    AppendNonNegative(de + ch + st, ad + ae + al);
    var all := de + ch + st + (ad + ae + al);
    assert all == de + ch + st + ConnectWrites(nodes, norm);
    LinkedNonNegative(EmptyGraph(), all);
  }

  /** Two lists of edges of non-negative weight make one. */
  lemma {:induction false} AppendNonNegative(xs: seq<Connection>, ys: seq<Connection>)
    requires forall x | x in xs :: x.distance >= 0.0
    requires forall y | y in ys :: y.distance >= 0.0
    ensures forall x | x in xs + ys :: x.distance >= 0.0
    ensures forall i | 0 <= i < |xs + ys| :: (xs + ys)[i].distance >= 0.0
  {
    forall i | 0 <= i < |xs + ys| ensures (xs + ys)[i].distance >= 0.0 {
      if i < |xs| {
        assert (xs + ys)[i] == xs[i] && xs[i] in xs;
      } else {
        assert (xs + ys)[i] == ys[i - |xs|] && ys[i - |xs|] in ys;
      }
    }
  }

  /** get_shortest_path, given a correct shortest path function and a norm that is never
      negative, returns a shortest walk between the nodes the two locations name, and
      returns nothing exactly when no walk joins them. */
  lemma {:induction false} ShortestPathMeaning(nb: NodeBasedBuilding, norm: Norm, start: string, end: string)
    requires nb.building.Valid() && nb.graph.Valid() && nb.graph.weight == BuiltWeights(nb.building, norm)
    requires NonNegativeNorm(norm) && IsShortestPathFinder(nb.find)
    ensures var r, g, s, t := nb.GetShortestPath(start, end), nb.graph, nb.NodeFor(start), nb.NodeFor(end);
      && (r.0 != [] ==> WalkBetween(g, r.0, s, t) && forall q | WalkBetween(g, q, s, t) :: WalkLength(g, r.0) <= WalkLength(g, q))
      && (r.0 == [] <==> forall q :: !WalkBetween(g, q, s, t))
  {
    var g, s, t := nb.graph, nb.NodeFor(start), nb.NodeFor(end);
    BuiltWeightsNonNegative(nb.building, norm);
    assert CorrectAnswer(g, s, t, nb.find(g, s, t));
    if nb.find(g, s, t).Found? {
      var p := nb.find(g, s, t).path;
      assert forall n | n in p :: n in g.nodes.entries;
    }
  }
}
