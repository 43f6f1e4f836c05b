/** The part of networkx this system relies on: an undirected weighted graph whose nodes
    keep their insertion order and carry a type, a position and a floor, and a shortest
    path function that is not implemented here but specified by what Dijkstra's algorithm
    guarantees. */
module Networks {
  import opened Common
  import opened Dicts
  import opened Facility

  /** The 'type' / 'node_type' attribute of a node. */
  datatype NodeKind = RoomNode | ExitNode | CorridorNode | StairNode | RoomCenterNode | DoorNode

  /** The attribute value as the Python code spells it. */
  function KindName(k: NodeKind): (s: string)
    ensures k == RoomNode <==> s == "room"
    ensures k == ExitNode <==> s == "exit"
  {
    match k
    case RoomNode => "room"
    case ExitNode => "exit"
    case CorridorNode => "corridor"
    case StairNode => "stair"
    case RoomCenterNode => "room_center"
    case DoorNode => "door"
  }

  datatype NodeInfo = NodeInfo(kind: NodeKind, position: Point, floor: int)

  /** An undirected graph: nodes in insertion order with their attributes, and symmetric edge weights. */
  datatype Graph = Graph(nodes: Dict<NodeInfo>, weight: map<(string, string), real>) {

    ghost predicate Valid() {
      && nodes.Valid()
      && (forall e | e in weight :: e.0 in nodes.entries && e.1 in nodes.entries)
      && (forall e | e in weight :: (e.1, e.0) in weight && weight[(e.1, e.0)] == weight[e])
    }

    predicate HasNode(n: string) {
      n in nodes.entries
    }

    predicate HasEdge(u: string, v: string) {
      (u, v) in weight
    }

    /** Adding a node with attributes: a new node goes last; an existing one keeps its place and
        gets the new attributes; edges are untouched. */
    function AddNode(id: string, info: NodeInfo): (g: Graph)
      requires Valid()
      ensures g.Valid() && g.nodes == nodes.Put(id, info) && g.weight == weight
    {
      Graph(nodes.Put(id, info), weight)
    }

    /** Adding a weighted edge between existing nodes: both directions get the weight. */
    function AddEdge(u: string, v: string, w: real): (g: Graph)
      requires Valid() && HasNode(u) && HasNode(v)
      ensures g.Valid() && g.nodes == nodes
      ensures g.weight == weight[(u, v) := w][(v, u) := w]
      ensures g.HasEdge(u, v) && g.HasEdge(v, u) && g.weight[(u, v)] == w && g.weight[(v, u)] == w
    {
      Graph(nodes, weight[(u, v) := w][(v, u) := w])
    }
  }

  function EmptyGraph(): (g: Graph)
    ensures g.Valid() && g.nodes.keys == [] && g.weight == map[]
  {
    Graph(EmptyDict(), map[])
  }

  // ---------------------------------------------------------------------------
  // Walks and the shortest-path oracle

  /** A sequence of nodes in which consecutive nodes are joined by edges. */
  ghost predicate IsWalk(g: Graph, p: seq<string>) {
    && |p| >= 1
    && (forall i | 0 <= i < |p| :: p[i] in g.nodes.entries)
    && (forall i | 0 <= i < |p| - 1 :: (p[i], p[i + 1]) in g.weight)
  }

  ghost function WalkLength(g: Graph, p: seq<string>): real
    requires IsWalk(g, p)
  {
    if |p| == 1 then 0.0 else g.weight[(p[0], p[1])] + WalkLength(g, p[1..])
  }

  ghost predicate WalkBetween(g: Graph, p: seq<string>, s: string, t: string) {
    IsWalk(g, p) && p[0] == s && p[|p| - 1] == t
  }

  ghost predicate NonNegativeWeights(g: Graph) {
    forall e | e in g.weight :: g.weight[e] >= 0.0
  }

  /** The outcome of a shortest path search on one pair of nodes. */
  datatype PathResult =
    | Found(path: seq<string>, length: real)
    | NoPath          // nx.NetworkXNoPath
    | MissingNode     // nx.NodeNotFound

  /** What Dijkstra's algorithm promises on a graph with non-negative weights. */
  ghost predicate CorrectAnswer(g: Graph, s: string, t: string, r: PathResult) {
    match r
    case MissingNode => s !in g.nodes.entries || t !in g.nodes.entries
    case NoPath =>
      s in g.nodes.entries && t in g.nodes.entries && forall p :: !WalkBetween(g, p, s, t)
    case Found(p, d) =>
      && WalkBetween(g, p, s, t) && WalkLength(g, p) == d
      && forall q | WalkBetween(g, q, s, t) :: d <= WalkLength(g, q)
  }

  type PathFinder = (Graph, string, string) -> PathResult

  /** The contract of the shortest path function the callers are given. */
  ghost predicate IsShortestPathFinder(find: PathFinder) {
    forall g: Graph, s: string, t: string | g.Valid() && NonNegativeWeights(g) :: CorrectAnswer(g, s, t, find(g, s, t))
  }

  lemma {:induction false} WalkLengthNonNegative(g: Graph, p: seq<string>)
    requires IsWalk(g, p) && NonNegativeWeights(g)
    ensures WalkLength(g, p) >= 0.0
  {
    if |p| > 1 {
      WalkLengthNonNegative(g, p[1..]);
    }
  }

  /** A path that is found has a non-negative length and runs from the source to the target. */
  lemma {:induction false} FoundPathFacts(find: PathFinder, g: Graph, s: string, t: string)
    requires IsShortestPathFinder(find) && g.Valid() && NonNegativeWeights(g)
    ensures find(g, s, t).Found? ==>
      && find(g, s, t).length >= 0.0
      && |find(g, s, t).path| >= 1
      && find(g, s, t).path[0] == s && find(g, s, t).path[|find(g, s, t).path| - 1] == t
      && forall i | 0 <= i < |find(g, s, t).path| :: find(g, s, t).path[i] in g.nodes.entries
    ensures find(g, s, t).MissingNode? <==> !g.HasNode(s) || !g.HasNode(t)
  {
    assert CorrectAnswer(g, s, t, find(g, s, t));
    if find(g, s, t).Found? {
      WalkLengthNonNegative(g, find(g, s, t).path);
    }
  }

  /** From a node to itself the distance is 0. */
  lemma {:induction false} SelfDistanceZero(find: PathFinder, g: Graph, s: string)
    requires IsShortestPathFinder(find) && g.Valid() && NonNegativeWeights(g) && g.HasNode(s)
    ensures find(g, s, s).Found? && find(g, s, s).length == 0.0
  {
    assert CorrectAnswer(g, s, s, find(g, s, s));
    assert WalkBetween(g, [s], s, s);
    if find(g, s, s).Found? {
      WalkLengthNonNegative(g, find(g, s, s).path);
    }
  }

  /** Nodes of one kind, in node order. */
  function NodesOfKind(g: Graph, keys: seq<string>, kind: NodeKind): (ns: seq<string>)
    requires forall k | k in keys :: k in g.nodes.entries
    ensures forall n :: n in ns <==> n in keys && g.nodes.entries[n].kind == kind
    ensures |ns| <= |keys|
    ensures NoDup(keys) ==> NoDup(ns)
  {
    if keys == [] then []
    else
      var rest := NodesOfKind(g, keys[1..], kind);
      if g.nodes.entries[keys[0]].kind == kind then [keys[0]] + rest else rest
  }

  // ---------------------------------------------------------------------------
  // Building a graph step by step. The node-building loops add nodes and edges one
  // at a time; what they leave is described by the list of writes they perform,
  // where for every node and every pair of nodes the last write wins.

  /** Connection c joins u and v, in either direction. */
  predicate Links(c: Connection, u: string, v: string) {
    (c.fromId == u && c.toId == v) || (c.fromId == v && c.toId == u)
  }

  /** The distance of the last connection joining u and v, in either direction. */
  function LastLink(conns: seq<Connection>, u: string, v: string): Option<real> {
    if conns == [] then None
    else if Links(conns[|conns| - 1], u, v) then Some(conns[|conns| - 1].distance)
    else LastLink(conns[..|conns| - 1], u, v)
  }

  /** LastLink finds something exactly when some connection joins the pair, and then it is
      the distance of a joining connection after which none joins it. */
  lemma {:induction false} LastLinkMeaning(conns: seq<Connection>, u: string, v: string)
    ensures LastLink(conns, u, v).Some? <==> exists i | 0 <= i < |conns| :: Links(conns[i], u, v)
    ensures LastLink(conns, u, v).Some? ==> exists i | 0 <= i < |conns| ::
              (Links(conns[i], u, v) && LastLink(conns, u, v).value == conns[i].distance
               && forall j | i < j < |conns| :: !Links(conns[j], u, v))
    ensures LastLink(conns, u, v) == LastLink(conns, v, u)
  {
    if conns != [] {
      var init := conns[..|conns| - 1];
      LastLinkMeaning(init, u, v);
      LastLinkMeaning(init, v, u);
      assert forall i | 0 <= i < |init| :: init[i] == conns[i];
      if !Links(conns[|conns| - 1], u, v) && LastLink(conns, u, v).Some? {
        var i :| 0 <= i < |init| && Links(init[i], u, v) && LastLink(init, u, v).value == init[i].distance
                 && forall j | i < j < |init| :: !Links(init[j], u, v);
        assert Links(conns[i], u, v);
      }
    }
  }

  /** add_node for every write in order. */
  function PutAll(d: Dict<NodeInfo>, ws: seq<(string, NodeInfo)>): (r: Dict<NodeInfo>)
    requires d.Valid()
    ensures r.Valid()
  {
    if ws == [] then d
    else PutAll(d, ws[..|ws| - 1]).Put(ws[|ws| - 1].0, ws[|ws| - 1].1)
  }

  /** One more node write, taken from a list of writes. */
  lemma {:induction false} PutAllSnoc(d: Dict<NodeInfo>, ws: seq<(string, NodeInfo)>, i: nat)
    requires d.Valid() && i < |ws|
    ensures PutAll(d, ws[..i + 1]) == PutAll(d, ws[..i]).Put(ws[i].0, ws[i].1)
  {
    assert ws[..i + 1][..i] == ws[..i];
  }

  /** The nodes after a list of writes: the old ones and every one written. */
  lemma {:induction false} PutAllKeys(d: Dict<NodeInfo>, ws: seq<(string, NodeInfo)>)
    requires d.Valid()
    ensures forall n :: n in PutAll(d, ws).entries <==> n in d.entries || n in Firsts(ws)
  {
    if ws != [] {
      var init := ws[..|ws| - 1];
      assert Firsts(ws) == Firsts(init) + [ws[|ws| - 1].0];
      PutAllKeys(d, init);
    }
  }

  function Firsts<A, B>(ps: seq<(A, B)>): (s: seq<A>)
    ensures |s| == |ps| && forall i | 0 <= i < |ps| :: s[i] == ps[i].0
  {
    seq(|ps|, i requires 0 <= i < |ps| => ps[i].0)
  }

  function Seconds<A, B>(ps: seq<(A, B)>): (s: seq<B>)
    ensures |s| == |ps| && forall i | 0 <= i < |ps| :: s[i] == ps[i].1
  {
    seq(|ps|, i requires 0 <= i < |ps| => ps[i].1)
  }

  /** The attributes of the last write to node n. */
  function LastWrite(ws: seq<(string, NodeInfo)>, n: string): Option<NodeInfo> {
    if ws == [] then None
    else if ws[|ws| - 1].0 == n then Some(ws[|ws| - 1].1)
    else LastWrite(ws[..|ws| - 1], n)
  }

  /** After a list of writes a node carries the attributes of its last write, or keeps
      the ones it had. */
  lemma {:induction false} PutAllLast(d: Dict<NodeInfo>, ws: seq<(string, NodeInfo)>, n: string)
    requires d.Valid()
    ensures LastWrite(ws, n).Some? <==> n in Firsts(ws)
    ensures n in PutAll(d, ws).entries <==> n in d.entries || n in Firsts(ws)
    ensures LastWrite(ws, n).Some? ==> PutAll(d, ws).entries[n] == LastWrite(ws, n).value
    ensures LastWrite(ws, n).None? && n in d.entries ==> PutAll(d, ws).entries[n] == d.entries[n]
  {
    if ws != [] {
      var init := ws[..|ws| - 1];
      assert Firsts(ws) == Firsts(init) + [ws[|ws| - 1].0];
      PutAllLast(d, init, n);
      PutAllKeys(d, init);
    }
  }

  /** The last write to a node is one of the writes. */
  lemma {:induction false} LastWriteIsWrite(ws: seq<(string, NodeInfo)>, n: string)
    ensures LastWrite(ws, n).Some? ==> (n, LastWrite(ws, n).value) in ws
  {
    if ws != [] && ws[|ws| - 1].0 != n {
      LastWriteIsWrite(ws[..|ws| - 1], n);
    }
  }

  lemma {:induction false} LastWriteNone(ws: seq<(string, NodeInfo)>, n: string)
    requires forall p | p in ws :: p.0 != n
    ensures LastWrite(ws, n) == None
  {
    if ws != [] {
      LastWriteNone(ws[..|ws| - 1], n);
    }
  }

  /** A write that no later write to the same node follows is the last one. */
  lemma {:induction false} LastWriteAt(ws: seq<(string, NodeInfo)>, i: nat)
    requires i < |ws| && forall j | i < j < |ws| :: ws[j].0 != ws[i].0
    ensures LastWrite(ws, ws[i].0) == Some(ws[i].1)
  {
    if i < |ws| - 1 {
      LastWriteAt(ws[..|ws| - 1], i);
    }
  }

  lemma {:induction false} LastWriteAppend(a: seq<(string, NodeInfo)>, b: seq<(string, NodeInfo)>, n: string)
    ensures LastWrite(a + b, n) == if LastWrite(b, n).Some? then LastWrite(b, n) else LastWrite(a, n)
  {
    if b != [] {
      assert (a + b)[..|a + b| - 1] == a + b[..|b| - 1];
      LastWriteAppend(a, b[..|b| - 1], n);
    } else {
      assert a + b == a;
    }
  }

  lemma {:induction false} PutAllAppend(d: Dict<NodeInfo>, a: seq<(string, NodeInfo)>, b: seq<(string, NodeInfo)>)
    requires d.Valid()
    ensures PutAll(d, a + b) == PutAll(PutAll(d, a), b)
  {
    if b == [] {
      assert a + b == a;
    } else {
      assert (a + b)[..|a + b| - 1] == a + b[..|b| - 1];
      PutAllAppend(d, a, b[..|b| - 1]);
    }
  }

  lemma {:induction false} LastLinkAppend(a: seq<Connection>, b: seq<Connection>, u: string, v: string)
    ensures LastLink(a + b, u, v) == if LastLink(b, u, v).Some? then LastLink(b, u, v) else LastLink(a, u, v)
  {
    if b != [] {
      assert (a + b)[..|a + b| - 1] == a + b[..|b| - 1];
      LastLinkAppend(a, b[..|b| - 1], u, v);
    } else {
      assert a + b == a;
    }
  }

  /** A pair that every write joining it gives weight w ends with weight w. */
  lemma {:induction false} LastLinkUniform(ws: seq<Connection>, u: string, v: string, w: real)
    requires exists i | 0 <= i < |ws| :: Links(ws[i], u, v)
    requires forall i | 0 <= i < |ws| && Links(ws[i], u, v) :: ws[i].distance == w
    ensures LastLink(ws, u, v) == Some(w)
  {
    LastLinkMeaning(ws, u, v);
  }

  /** A connection that no later connection joining the same pair follows is the last one. */
  lemma {:induction false} LastLinkAt(ws: seq<Connection>, i: nat, u: string, v: string)
    requires i < |ws| && Links(ws[i], u, v)
    requires forall j | i < j < |ws| :: !Links(ws[j], u, v)
    ensures LastLink(ws, u, v) == Some(ws[i].distance)
  {
    if i < |ws| - 1 {
      LastLinkAt(ws[..|ws| - 1], i, u, v);
    }
  }

  /** add_edge for every write in order, on the weights alone: both directions of each
      pair get the write's distance. */
  function Linked(w: map<(string, string), real>, ws: seq<Connection>): map<(string, string), real> {
    if ws == [] then w
    else
      var c := ws[|ws| - 1];
      Linked(w, ws[..|ws| - 1])[(c.fromId, c.toId) := c.distance][(c.toId, c.fromId) := c.distance]
  }

  /** One more edge write, taken from a list of writes. */
  lemma {:induction false} LinkedSnoc(w: map<(string, string), real>, ws: seq<Connection>, i: nat)
    requires i < |ws|
    ensures Linked(w, ws[..i + 1])
      == Linked(w, ws[..i])[(ws[i].fromId, ws[i].toId) := ws[i].distance][(ws[i].toId, ws[i].fromId) := ws[i].distance]
  {
    assert ws[..i + 1][..i] == ws[..i];
  }

  lemma {:induction false} LinkedPush(w: map<(string, string), real>, ws: seq<Connection>, c: Connection)
    ensures Linked(w, ws + [c]) == Linked(w, ws)[(c.fromId, c.toId) := c.distance][(c.toId, c.fromId) := c.distance]
  {
    assert (ws + [c])[..|ws|] == ws;
  }

  lemma {:induction false} LinkedAppend(w: map<(string, string), real>, a: seq<Connection>, b: seq<Connection>)
    ensures Linked(w, a + b) == Linked(Linked(w, a), b)
  {
    if b == [] {
      assert a + b == a;
    } else {
      assert (a + b)[..|a + b| - 1] == a + b[..|b| - 1];
      LinkedAppend(w, a, b[..|b| - 1]);
    }
  }

  /** The weights h has after the writes ws on g: the old edges plus those the writes
      add, each pair weighted by its last write. */
  ghost predicate Extends(g: map<(string, string), real>, h: map<(string, string), real>, ws: seq<Connection>) {
    forall u, v ::
      && ((u, v) in h <==> (u, v) in g || LastLink(ws, u, v).Some?)
      && ((u, v) in h ==> h[(u, v)] == if LastLink(ws, u, v).Some? then LastLink(ws, u, v).value else g[(u, v)])
  }

  /** The last write to a pair wins; a pair no write joins keeps its old weight. */
  lemma {:induction false} LinkedMeaning(w: map<(string, string), real>, ws: seq<Connection>)
    ensures Extends(w, Linked(w, ws), ws)
  {
    if ws != [] {
      var init, c := ws[..|ws| - 1], ws[|ws| - 1];
      LinkedMeaning(w, init);
      assert ws == init + [c];
    }
  }

  /** A pair some write joins has the weight of the last such write, in both directions. */
  lemma {:induction false} LinkedLast(w: map<(string, string), real>, ws: seq<Connection>, u: string, v: string)
    requires LastLink(ws, u, v).Some?
    ensures (u, v) in Linked(w, ws) && Linked(w, ws)[(u, v)] == LastLink(ws, u, v).value
    ensures (v, u) in Linked(w, ws) && Linked(w, ws)[(v, u)] == LastLink(ws, u, v).value
  {
    LinkedMeaning(w, ws);
    LastLinkMeaning(ws, u, v);
  }

  /** Writes that never join u and v leave the last write to them alone. */
  lemma {:induction false} LastLinkIgnores(a: seq<Connection>, rest: seq<Connection>, u: string, v: string)
    requires forall x | x in rest :: !Links(x, u, v)
    ensures LastLink(a + rest, u, v) == LastLink(a, u, v)
  {
    LastLinkMeaning(rest, u, v);
    LastLinkAppend(a, rest, u, v);
  }

  /** A pair that some write in the middle joins, that every such write gives weight d, and
      that no later write joins, has weight d. */
  lemma {:induction false} LinkedThrough(w: map<(string, string), real>, front: seq<Connection>, mid: seq<Connection>,
                      back: seq<Connection>, u: string, v: string, d: real)
    requires forall x | x in back :: !Links(x, u, v)
    requires exists x | x in mid :: Links(x, u, v)
    requires forall x | x in mid && Links(x, u, v) :: x.distance == d
    ensures (u, v) in Linked(w, front + mid + back) && Linked(w, front + mid + back)[(u, v)] == d
    ensures (v, u) in Linked(w, front + mid + back) && Linked(w, front + mid + back)[(v, u)] == d
  {
    assert forall i | 0 <= i < |mid| :: mid[i] in mid;
    LastLinkIgnores(front + mid, back, u, v);
    LastLinkUniform(mid, u, v, d);
    LastLinkAppend(front, mid, u, v);
    LinkedLast(w, front + mid + back, u, v);
  }

  /** An edge of a graph built from nothing comes from a write joining its ends, and has
      the weight of the last such write. */
  lemma {:induction false} LinkedFromNothing(ws: seq<Connection>, u: string, v: string)
    requires (u, v) in Linked(map[], ws)
    ensures LastLink(ws, u, v).Some? && Linked(map[], ws)[(u, v)] == LastLink(ws, u, v).value
    ensures exists k | 0 <= k < |ws| :: Links(ws[k], u, v)
  {
    LinkedMeaning(map[], ws);
    LastLinkMeaning(ws, u, v);
  }

  /** When only writes from `mid` can join u and v and each of them has weight d, an edge
      between u and v in a graph built from nothing has weight d and comes from `mid`. */
  lemma {:induction false} LinkedOnlyFrom(ws: seq<Connection>, mid: seq<Connection>, u: string, v: string, d: real)
    requires (u, v) in Linked(map[], ws)
    requires forall x | x in ws && Links(x, u, v) :: x in mid
    requires forall x | x in mid :: x.distance == d
    ensures Linked(map[], ws)[(u, v)] == d
    ensures exists x | x in mid :: Links(x, u, v)
  {
    LinkedFromNothing(ws, u, v);
    assert forall k | 0 <= k < |ws| :: ws[k] in ws;
    LastLinkUniform(ws, u, v, d);
  }

  /** When every write touching u joins it to r, r is u's only neighbour in a graph built
      from nothing. */
  lemma {:induction false} LinkedOnlyTo(ws: seq<Connection>, u: string, r: string)
    requires forall x | x in ws :: (x.fromId == u ==> x.toId == r) && (x.toId == u ==> x.fromId == r)
    ensures forall m | (u, m) in Linked(map[], ws) :: m == r
  {
    forall m | (u, m) in Linked(map[], ws) ensures m == r {
      LinkedFromNothing(ws, u, m);
      var i :| 0 <= i < |ws| && Links(ws[i], u, m);
      assert ws[i] in ws;
    }
  }

  /** When every write has a non-negative weight, so does every edge. */
  lemma {:induction false} LinkedNonNegative(g: Graph, ws: seq<Connection>)
    requires NonNegativeWeights(g)
    requires forall i | 0 <= i < |ws| :: ws[i].distance >= 0.0
    ensures forall e | e in Linked(g.weight, ws) :: Linked(g.weight, ws)[e] >= 0.0
  {
    LinkedMeaning(g.weight, ws);
    forall e | e in Linked(g.weight, ws) ensures Linked(g.weight, ws)[e] >= 0.0 {
      LastLinkMeaning(ws, e.0, e.1);
    }
  }
}
