/** src/models/graph.py: the coarse navigation graph of a Building. Rooms, exits,
    corridors (at their midpoints) and one landing per stair and floor become nodes;
    every connection whose two ends are nodes becomes an edge. */
module CoarseGraph {
  import opened Common
  import opened Dicts
  import opened Sorting
  import opened Facility
  import opened Networks

  /** A stair landing id: the stair id, "_F", and the floor number. */
  function LandingId(stairId: string, floor: int): string {
    stairId + "_F" + IntToString(floor)
  }

  /** add_node for every id in order: the last attributes given for an id win. */
  method AddNodes(g: Graph, ids: seq<string>, infos: seq<NodeInfo>) returns (h: Graph)
    requires g.Valid() && |ids| == |infos|
    ensures h.Valid() && h.weight == g.weight
    ensures forall n :: n in h.nodes.entries <==> n in g.nodes.entries || n in ids
    ensures forall n | n in g.nodes.entries && n !in ids :: n in h.nodes.entries && h.nodes.entries[n] == g.nodes.entries[n]
    ensures forall i | 0 <= i < |ids| && (forall j | i < j < |ids| :: ids[j] != ids[i]) ::
              ids[i] in h.nodes.entries && h.nodes.entries[ids[i]] == infos[i]
  {
    h := g;
    var k := 0;
    while k < |ids|
      invariant 0 <= k <= |ids|
      invariant h.Valid() && h.weight == g.weight
      invariant forall n :: n in h.nodes.entries <==> n in g.nodes.entries || n in ids[..k]
      invariant forall n | n in g.nodes.entries && n !in ids[..k] :: n in h.nodes.entries && h.nodes.entries[n] == g.nodes.entries[n]
      invariant forall i | 0 <= i < k && (forall j | i < j < k :: ids[j] != ids[i]) ::
                  ids[i] in h.nodes.entries && h.nodes.entries[ids[i]] == infos[i]
    {
      AddNodesStep(g, h, ids, infos, k);
      h := h.AddNode(ids[k], infos[k]);
      k := k + 1;
    }
    assert ids[..k] == ids;
  }

  /** One pass of the add_node loop keeps its three facts with one more id. */
  lemma {:induction false} AddNodesStep(g: Graph, h: Graph, ids: seq<string>, infos: seq<NodeInfo>, k: nat)
    requires g.Valid() && h.Valid() && |ids| == |infos| && k < |ids|
    requires forall n :: n in h.nodes.entries <==> n in g.nodes.entries || n in ids[..k]
    requires forall n | n in g.nodes.entries && n !in ids[..k] :: n in h.nodes.entries && h.nodes.entries[n] == g.nodes.entries[n]
    requires forall i | 0 <= i < k && (forall j | i < j < k :: ids[j] != ids[i]) ::
               ids[i] in h.nodes.entries && h.nodes.entries[ids[i]] == infos[i]
    ensures var h' := h.AddNode(ids[k], infos[k]);
      && (forall n :: n in h'.nodes.entries <==> n in g.nodes.entries || n in ids[..k + 1])
      && (forall n | n in g.nodes.entries && n !in ids[..k + 1] :: n in h'.nodes.entries && h'.nodes.entries[n] == g.nodes.entries[n])
      && (forall i | 0 <= i < k + 1 && (forall j | i < j < k + 1 :: ids[j] != ids[i]) ::
            ids[i] in h'.nodes.entries && h'.nodes.entries[ids[i]] == infos[i])
  {
    var e := h.AddNode(ids[k], infos[k]).nodes.entries;
    assert e == h.nodes.entries[ids[k] := infos[k]];
    assert ids[..k + 1] == ids[..k] + [ids[k]];
    forall i | 0 <= i < k + 1 && (forall j | i < j < k + 1 :: ids[j] != ids[i])
      ensures ids[i] in e && e[ids[i]] == infos[i]
    {
      if i < k {
        assert ids[k] != ids[i];
      }
    }
  }

  /** The node every room, exit and corridor of the building becomes. */
  function RoomInfo(r: Room): NodeInfo {
    NodeInfo(RoomNode, r.position, r.floor)
  }

  function ExitInfo(e: Exit): NodeInfo {
    NodeInfo(ExitNode, e.position, e.floor)
  }

  function CorridorInfo(c: Corridor): NodeInfo {
    NodeInfo(CorridorNode, Midpoint(c.start, c.end), c.floor)
  }

  function MapInfos<V>(vs: seq<V>, f: V -> NodeInfo): (infos: seq<NodeInfo>)
    ensures |infos| == |vs| && forall i | 0 <= i < |vs| :: infos[i] == f(vs[i])
  {
    seq(|vs|, i requires 0 <= i < |vs| => f(vs[i]))
  }

  /** The landings of one stair: one per entry of connects, in order. */
  function StairLandings(stairId: string, s: Stair): (ls: seq<(string, NodeInfo)>)
    ensures |ls| == |s.connects|
    ensures forall i | 0 <= i < |ls| :: ls[i] == (LandingId(stairId, s.connects[i]), NodeInfo(StairNode, s.position, s.connects[i]))
  {
    seq(|s.connects|, i requires 0 <= i < |s.connects| => (LandingId(stairId, s.connects[i]), NodeInfo(StairNode, s.position, s.connects[i])))
  }

  /** The landings of all stairs, stair by stair. */
  function AllLandings(stairs: Dict<Stair>, keys: seq<string>): (ls: seq<(string, NodeInfo)>)
    requires forall k | k in keys :: k in stairs.entries
    ensures forall p | p in ls :: exists k, f :: (k in keys && f in stairs.entries[k].connects
              && p == (LandingId(k, f), NodeInfo(StairNode, stairs.entries[k].position, f)))
    ensures forall k, f | k in keys && f in stairs.entries[k].connects ::
              (LandingId(k, f), NodeInfo(StairNode, stairs.entries[k].position, f)) in ls
  {
    if keys == [] then []
    else
      var here := StairLandings(keys[0], stairs.entries[keys[0]]);
      var rest := AllLandings(stairs, keys[1..]);
      forall k, f | k in keys && f in stairs.entries[k].connects
        ensures (LandingId(k, f), NodeInfo(StairNode, stairs.entries[k].position, f)) in here + rest
      {
        if k == keys[0] {
          var i :| 0 <= i < |stairs.entries[k].connects| && stairs.entries[k].connects[i] == f;
          assert here[i] == (LandingId(k, f), NodeInfo(StairNode, stairs.entries[k].position, f));
        }
      }
      here + rest
  }

  /** The landings of one more stair come after those of the stairs before it. */
  lemma {:induction false} AllLandingsSnoc(stairs: Dict<Stair>, keys: seq<string>, k: string)
    requires forall j | j in keys :: j in stairs.entries
    requires k in stairs.entries
    ensures AllLandings(stairs, keys + [k]) == AllLandings(stairs, keys) + StairLandings(k, stairs.entries[k])
  {
    if keys == [] {
      assert keys + [k] == [k];
    } else {
      assert (keys + [k])[1..] == keys[1..] + [k];
      AllLandingsSnoc(stairs, keys[1..], k);
    }
  }

  /** The ids of all stair landings, one for every floor a stair connects. */
  function LandingIds(stairs: Dict<Stair>): (ids: seq<string>)
    requires stairs.Valid()
  {
    Firsts(AllLandings(stairs, stairs.keys))
  }

  /** The edges the connection loop leaves: an edge exactly where some connection joins two
      nodes, weighted by the last such connection. */
  ghost predicate EdgesFromConnections(g: Graph, conns: seq<Connection>) {
    forall u, v :: ((u, v) in g.weight <==>
      u in g.nodes.entries && v in g.nodes.entries && LastLink(conns, u, v).Some?)
      && ((u, v) in g.weight ==> g.weight[(u, v)] == LastLink(conns, u, v).value)
  }

  /** One connection of the edge loop whose ends are both nodes: it becomes an edge. */
  lemma {:induction false} EdgeStepAdded(h: Graph, conns: seq<Connection>, k: nat)
    requires h.Valid() && k < |conns| && EdgesFromConnections(h, conns[..k])
    requires h.HasNode(conns[k].fromId) && h.HasNode(conns[k].toId)
    ensures EdgesFromConnections(h.AddEdge(conns[k].fromId, conns[k].toId, conns[k].distance), conns[..k + 1])
  {
    var pre, c := conns[..k + 1], conns[k];
    assert pre[..|pre| - 1] == conns[..k] && pre[|pre| - 1] == c;
    var h' := h.AddEdge(c.fromId, c.toId, c.distance);
    forall u, v
      ensures (u, v) in h'.weight <==> u in h'.nodes.entries && v in h'.nodes.entries && LastLink(pre, u, v).Some?
      ensures (u, v) in h'.weight ==> h'.weight[(u, v)] == LastLink(pre, u, v).value
    {
      if !Links(c, u, v) {
        assert LastLink(pre, u, v) == LastLink(conns[..k], u, v);
        assert ((u, v) in h'.weight) == ((u, v) in h.weight);
      }
    }
  }

  /** One connection of the edge loop with an end that is no node: it is skipped, and it
      joins no pair of nodes. */
  lemma {:induction false} EdgeStepSkipped(h: Graph, conns: seq<Connection>, k: nat)
    requires h.Valid() && k < |conns| && EdgesFromConnections(h, conns[..k])
    requires !(h.HasNode(conns[k].fromId) && h.HasNode(conns[k].toId))
    ensures EdgesFromConnections(h, conns[..k + 1])
  {
    var pre := conns[..k + 1];
    assert pre[..|pre| - 1] == conns[..k] && pre[|pre| - 1] == conns[k];
  }

  /** The edge loop of _build_graph. */
  method AddConnectionEdges(g: Graph, conns: seq<Connection>) returns (h: Graph)
    requires g.Valid() && g.weight == map[]
    ensures h.Valid() && h.nodes == g.nodes
    ensures EdgesFromConnections(h, conns)
  {
    h := g;
    var k := 0;
    while k < |conns|
      invariant 0 <= k <= |conns|
      invariant h.Valid() && h.nodes == g.nodes
      invariant EdgesFromConnections(h, conns[..k])
    {
      var conn := conns[k];
      if h.HasNode(conn.fromId) && h.HasNode(conn.toId) {
        EdgeStepAdded(h, conns, k);
        h := h.AddEdge(conn.fromId, conn.toId, conn.distance);
      } else {
        EdgeStepSkipped(h, conns, k);
      }
      k := k + 1;
    }
    assert conns[..k] == conns;
  }

  /** _build_graph: node membership, the attributes each node ends up with (later kinds
      overwrite earlier ones under the same id), and the edges. */
  method BuildGraph(b: Building) returns (g: Graph)
    requires b.Valid()
    ensures g.Valid()
    ensures forall n :: n in g.nodes.entries <==>
      n in b.rooms.entries || n in b.exits.entries || n in b.corridors.entries || n in LandingIds(b.stairs)
    ensures forall n | n in LandingIds(b.stairs) :: n in g.nodes.entries
              && (n, g.nodes.entries[n]) in AllLandings(b.stairs, b.stairs.keys)
    ensures forall n | n in b.corridors.entries && n !in LandingIds(b.stairs) ::
              n in g.nodes.entries && g.nodes.entries[n] == CorridorInfo(b.corridors.entries[n])
    ensures forall n | n in b.exits.entries && n !in b.corridors.entries && n !in LandingIds(b.stairs) ::
              n in g.nodes.entries && g.nodes.entries[n] == ExitInfo(b.exits.entries[n])
    ensures forall n | n in b.rooms.entries && n !in b.exits.entries && n !in b.corridors.entries && n !in LandingIds(b.stairs) ::
              n in g.nodes.entries && g.nodes.entries[n] == RoomInfo(b.rooms.entries[n])
    ensures EdgesFromConnections(g, b.connections)
  {
    g := AddAllNodes(b);
    g := AddConnectionEdges(g, b.connections);
  }

  /** The four node loops of _build_graph. */
  method AddAllNodes(b: Building) returns (g: Graph)
    requires b.Valid()
    ensures g.Valid() && g.weight == map[]
    ensures forall n :: n in g.nodes.entries <==>
      n in b.rooms.entries || n in b.exits.entries || n in b.corridors.entries || n in LandingIds(b.stairs)
    ensures forall n | n in LandingIds(b.stairs) :: n in g.nodes.entries
              && (n, g.nodes.entries[n]) in AllLandings(b.stairs, b.stairs.keys)
    ensures forall n | n in b.corridors.entries && n !in LandingIds(b.stairs) ::
              n in g.nodes.entries && g.nodes.entries[n] == CorridorInfo(b.corridors.entries[n])
    ensures forall n | n in b.exits.entries && n !in b.corridors.entries && n !in LandingIds(b.stairs) ::
              n in g.nodes.entries && g.nodes.entries[n] == ExitInfo(b.exits.entries[n])
    ensures forall n | n in b.rooms.entries && n !in b.exits.entries && n !in b.corridors.entries && n !in LandingIds(b.stairs) ::
              n in g.nodes.entries && g.nodes.entries[n] == RoomInfo(b.rooms.entries[n])
  {
    g := EmptyGraph();
    g := AddDictNodes(g, b.rooms, RoomInfo);
    g := AddDictNodes(g, b.exits, ExitInfo);
    g := AddDictNodes(g, b.corridors, CorridorInfo);
    g := AddLandings(g, b.stairs);
  }

  /** One of the node loops over a dictionary: each entry's node, described by f. */
  method AddDictNodes<V>(g: Graph, d: Dict<V>, f: V -> NodeInfo) returns (h: Graph)
    requires g.Valid() && d.Valid()
    ensures h.Valid() && h.weight == g.weight
    ensures forall n :: n in h.nodes.entries <==> n in g.nodes.entries || n in d.entries
    ensures forall n | n in g.nodes.entries && n !in d.entries :: h.nodes.entries[n] == g.nodes.entries[n]
    ensures forall n | n in d.entries :: h.nodes.entries[n] == f(d.entries[n])
  {
    h := AddNodes(g, d.keys, MapInfos(d.Values(), f));
    LastOfDistinct(d.keys);
    forall n | n in d.entries ensures h.nodes.entries[n] == f(d.entries[n]) {
      var i := KeyIndex(d, n);
    }
  }

  /** The landing loop: one node per floor each stair connects. */
  method AddLandings(g: Graph, stairs: Dict<Stair>) returns (h: Graph)
    requires g.Valid() && stairs.Valid()
    ensures h.Valid() && h.weight == g.weight
    ensures forall n :: n in h.nodes.entries <==> n in g.nodes.entries || n in LandingIds(stairs)
    ensures forall n | n in g.nodes.entries && n !in LandingIds(stairs) :: h.nodes.entries[n] == g.nodes.entries[n]
    ensures forall n | n in LandingIds(stairs) :: (n, h.nodes.entries[n]) in AllLandings(stairs, stairs.keys)
  {
    var landings := AllLandings(stairs, stairs.keys);
    h := AddNodes(g, Firsts(landings), Seconds(landings));
    forall n | n in LandingIds(stairs) ensures (n, h.nodes.entries[n]) in landings {
      var i := LastIndex(Firsts(landings), n);
      assert landings[i] == (n, h.nodes.entries[n]);
    }
  }

  lemma {:induction false} LastOfDistinct(ids: seq<string>)
    requires NoDup(ids)
    ensures forall i | 0 <= i < |ids| :: forall j | i < j < |ids| :: ids[j] != ids[i]
  {
  }

  lemma {:induction false} LastIndex(ids: seq<string>, n: string) returns (i: nat)
    requires n in ids
    ensures i < |ids| && ids[i] == n && forall j | i < j < |ids| :: ids[j] != ids[i]
  {
    if ids[|ids| - 1] == n {
      i := |ids| - 1;
    } else {
      i := LastIndex(ids[..|ids| - 1], n);
    }
  }

  // ---------------------------------------------------------------------------
  // BuildingGraph

  class BuildingGraph {
    const building: Building
    const graph: Graph
    /** The shortest path search over the graph. */
    const find: PathFinder

    constructor (building: Building, find: PathFinder)
      requires building.Valid()
      ensures this.building == building && this.find == find
      ensures graph.Valid()
      ensures forall n :: n in graph.nodes.entries <==>
        n in building.rooms.entries || n in building.exits.entries || n in building.corridors.entries
        || n in LandingIds(building.stairs)
      ensures forall n | n in building.rooms.entries && n !in building.exits.entries
                && n !in building.corridors.entries && n !in LandingIds(building.stairs) ::
                n in graph.nodes.entries && graph.nodes.entries[n] == RoomInfo(building.rooms.entries[n])
      ensures EdgesFromConnections(graph, building.connections)
    {
      var g := BuildGraph(building);
      this.building := building;
      this.graph := g;
      this.find := find;
    }

    /** shortest_path: NetworkXNoPath becomes ([], inf); NodeNotFound is not caught. */
    function ShortestPath(source: string, target: string): (r: Result<(seq<string>, Ext)>)
      ensures r.Err? <==> find(graph, source, target).MissingNode?
      ensures r.Err? ==> r.error == NodeNotFound(source, target)
      ensures r.Ok? && r.value.1.Inf? <==> find(graph, source, target).NoPath?
      ensures r.Ok? && r.value.1.Inf? ==> r.value.0 == []
      ensures find(graph, source, target).Found? ==>
                r == Ok((find(graph, source, target).path, Fin(find(graph, source, target).length)))
    {
      match find(graph, source, target)
      case Found(p, d) => Ok((p, Fin(d)))
      case NoPath => Ok(([], Inf))
      case MissingNode => Err(NodeNotFound(source, target))
    }

    /** get_room_nodes: exactly the nodes tagged 'room', in node order, each once. */
    function GetRoomNodes(): (ns: seq<string>)
      requires graph.Valid()
      ensures forall n :: n in ns <==> graph.HasNode(n) && graph.nodes.entries[n].kind == RoomNode
      ensures NoDup(ns)
    {
      NodesOfKind(graph, graph.nodes.keys, RoomNode)
    }

    /** get_exit_nodes */
    function GetExitNodes(): (ns: seq<string>)
      requires graph.Valid()
      ensures forall n :: n in ns <==> graph.HasNode(n) && graph.nodes.entries[n].kind == ExitNode
      ensures NoDup(ns)
    {
      NodesOfKind(graph, graph.nodes.keys, ExitNode)
    }

    /** get_node_position */
    function GetNodePosition(n: string): (p: Option<Point>)
      ensures p.Some? <==> graph.HasNode(n)
      ensures p.Some? ==> p.value == graph.nodes.entries[n].position
    {
      if graph.HasNode(n) then Some(graph.nodes.entries[n].position) else None
    }

    /** is_same_floor: false when either node is missing, otherwise the floors compare equal
        (every node of this graph has a floor, so the default 1 never applies). */
    function IsSameFloor(n1: string, n2: string): (same: bool)
      ensures same <==> graph.HasNode(n1) && graph.HasNode(n2)
                        && graph.nodes.entries[n1].floor == graph.nodes.entries[n2].floor
    {
      if graph.HasNode(n1) && graph.HasNode(n2) then graph.nodes.entries[n1].floor == graph.nodes.entries[n2].floor
      else false
    }

    /** The rooms of `rooms` reachable from location, with their distances, in order. */
    function Reachable(location: string, rooms: seq<string>): (ds: seq<(string, real)>)
      ensures forall p :: p in ds <==> (p.0 in rooms && find(graph, location, p.0).Found?
                                        && p.1 == find(graph, location, p.0).length)
    {
      if rooms == [] then []
      else
        var last := rooms[|rooms| - 1];
        var init := Reachable(location, rooms[..|rooms| - 1]);
        assert forall x :: x in rooms <==> x in rooms[..|rooms| - 1] || x == last by {
          assert rooms == rooms[..|rooms| - 1] + [last];
        }
        match find(graph, location, last)
        case Found(_, d) => init + [(last, d)]
        case _ => init
    }

    /** get_nearest_rooms: NodeNotFound from any room propagates; otherwise the reachable
        rooms with their distances, stably sorted by distance, cut to the first n. */
    method GetNearestRooms(location: string, n: int) returns (r: Result<seq<(string, real)>>)
      requires graph.Valid()
      ensures r.Err? <==> exists room | room in GetRoomNodes() :: find(graph, location, room).MissingNode?
      ensures r.Err? ==> exists room | room in GetRoomNodes() :: r.error == NodeNotFound(location, room)
      ensures r.Ok? ==> var all := SortBy(Reachable(location, GetRoomNodes()), DistanceLe);
                        r.value == all[..Slice(n, |all|)]
      ensures r.Ok? ==> SortedBy(r.value, DistanceLe)
    {
      var roomNodes := GetRoomNodes();
      var distances: seq<(string, real)> := [];
      var i := 0;
      while i < |roomNodes|
        invariant 0 <= i <= |roomNodes|
        invariant distances == Reachable(location, roomNodes[..i])
        invariant forall j | 0 <= j < i :: !find(graph, location, roomNodes[j]).MissingNode?
      {
        assert roomNodes[..i + 1][..i] == roomNodes[..i];
        var sp := ShortestPath(location, roomNodes[i]);
        if sp.Err? {
          return Err(sp.error);
        }
        if sp.value.1.Fin? {
          distances := distances + [(roomNodes[i], sp.value.1.v)];
        }
        i := i + 1;
      }
      assert roomNodes[..i] == roomNodes;
      DistanceLeIsTotalPreorder();
      SortSorted(distances, DistanceLe);
      var sorted := SortBy(distances, DistanceLe);
      var cut := Slice(n, |sorted|);
      SortedPrefix(sorted, cut);
      r := Ok(sorted[..cut]);
    }
  }

  predicate DistanceLe(a: (string, real), b: (string, real)) {
    a.1 <= b.1
  }

  lemma {:induction false} DistanceLeIsTotalPreorder()
    ensures TotalPreorder(DistanceLe)
  {
  }

  lemma {:induction false} SortedPrefix(s: seq<(string, real)>, k: nat)
    requires k <= |s| && SortedBy(s, DistanceLe)
    ensures SortedBy(s[..k], DistanceLe)
  {
  }

  /** How many elements a Python prefix slice up to n keeps of a list of length len. */
  function Slice(n: int, len: nat): (k: nat)
    ensures k <= len
    ensures n >= 0 ==> k == if n < len then n else len
    ensures n < 0 ==> k == if len + n > 0 then len + n else 0
  {
    if n >= 0 then (if n < len then n else len)
    else if len + n > 0 then len + n else 0
  }
}
