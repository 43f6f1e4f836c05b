/** The nearest-neighbour visiting order of _optimize_path_order that the priority
    strategies apply to each responder's list of rooms. */
module Routes {
  import opened Common
  import opened Sorting
  import opened Sweep
  import opened Plans

  /** The nearest unvisited room seen from `from`: the first in set order among the
      nearest, None when none can be reached, or the first error a query raises. */
  function Pick(dist: Query, from: string, unvisited: seq<string>): (r: Result<Option<nat>>)
    ensures r.Ok? && r.value.Some? ==> r.value.value < |unvisited|
  {
    match PairCands(dist, 0, from, unvisited)
    case Err(e) => Err(e)
    case Ok(cs) =>
      var best := Scan(None, cs);
      if best.None? then Ok(None) else Ok(Some(best.value.at))
  }

  /** The loop over the unvisited rooms: from `from`, go to the nearest unvisited room;
      when none can be reached, the rest follow in set order. */
  function Walk(dist: Query, from: string, unvisited: seq<string>, ordered: seq<string>): Result<seq<string>>
    decreases |unvisited|
  {
    if unvisited == [] then Ok(ordered)
    else
      match Pick(dist, from, unvisited)
      case Err(e) => Err(e)
      case Ok(None) => Ok(ordered + unvisited)
      case Ok(Some(at)) =>
        var x := unvisited[at];
        Walk(dist, x, Remove(unvisited, at), ordered + [x])
  }

  /** _optimize_path_order: lists of at most one room come back as they are. */
  function PathOrder(dist: Query, order: SetOrder, start: string, roomIds: seq<string>): Result<seq<string>> {
    if |roomIds| <= 1 then Ok(roomIds) else Walk(dist, start, order(roomIds), [])
  }

  /** The position a route stands at before its i-th room. */
  function Prev(start: string, route: seq<string>, i: nat): string
    requires i <= |route|
  {
    if i == 0 then start else route[i - 1]
  }

  /** Room i of the route is at a finite distance from the position before it, and
      no later room is strictly nearer to that position. */
  ghost predicate NearestAt(dist: Query, start: string, route: seq<string>, i: nat)
    requires i < |route|
  {
    var from := Prev(start, route, i);
    && dist(from, route[i]).Ok? && dist(from, route[i]).value.Fin?
    && forall j | i < j < |route| :: dist(from, route[j]).Ok? && !dist(from, route[j]).value.Lt(dist(from, route[i]).value)
  }

  /** An independent description of a nearest-neighbour route from `start`: each of
      the first m rooms is a nearest choice, and the rooms from m on are all out of
      reach of the position before m. */
  ghost predicate NearestRoute(dist: Query, start: string, route: seq<string>, m: nat) {
    && m <= |route|
    && (forall i | 0 <= i < m :: NearestAt(dist, start, route, i))
    && (forall j | m <= j < |route| :: dist(Prev(start, route, m), route[j]) == Ok(Inf))
  }

  /** One step of the walk: when some room is reachable the chosen one is at a
      finite distance and none is strictly nearer; otherwise none is reachable. */
  lemma {:induction false} PickMeaning(dist: Query, from: string, rooms: seq<string>)
    requires Pick(dist, from, rooms).Ok?
    ensures forall j | 0 <= j < |rooms| :: dist(from, rooms[j]).Ok?
    ensures Pick(dist, from, rooms).value.None? ==> forall j | 0 <= j < |rooms| :: dist(from, rooms[j]) == Ok(Inf)
    ensures Pick(dist, from, rooms).value.Some? ==>
              var at := Pick(dist, from, rooms).value.value;
              && at < |rooms| && dist(from, rooms[at]).Ok? && dist(from, rooms[at]).value.Fin?
              && forall j | 0 <= j < |rooms| :: !dist(from, rooms[j]).value.Lt(dist(from, rooms[at]).value)
  {
    var cs := PairCands(dist, 0, from, rooms).value;
    ScanMeaning(None, cs);
    ScanFromNothing(cs);
    var best := Scan(None, cs);
    if best.Some? {
      var j :| 0 <= j < |cs| && cs[j] == best.value;
    }
  }

  ghost predicate IsNearestRoute(dist: Query, start: string, route: seq<string>) {
    exists m :: NearestRoute(dist, start, route, m)
  }

  /** A walk that returns keeps `ordered` in front and appends as many rooms as
      were unvisited. */
  lemma {:induction false} WalkExtends(dist: Query, from: string, unvisited: seq<string>, ordered: seq<string>)
    requires Walk(dist, from, unvisited, ordered).Ok?
    ensures |Walk(dist, from, unvisited, ordered).value| == |ordered| + |unvisited|
    ensures Walk(dist, from, unvisited, ordered).value[..|ordered|] == ordered
    decreases |unvisited|
  {
    if unvisited != [] {
      var pick := Pick(dist, from, unvisited).value;
      if pick.Some? {
        var at := pick.value;
        var x := unvisited[at];
        WalkExtends(dist, x, Remove(unvisited, at), ordered + [x]);
        var w := Walk(dist, x, Remove(unvisited, at), ordered + [x]).value;
        assert w[..|ordered|] == w[..|ordered| + 1][..|ordered|];
      }
    }
  }

  /** A walk that returns appends every unvisited room, each as often as it was
      unvisited. */
  lemma {:induction false} WalkPermutes(dist: Query, from: string, unvisited: seq<string>, ordered: seq<string>)
    requires Walk(dist, from, unvisited, ordered).Ok?
    ensures |ordered| <= |Walk(dist, from, unvisited, ordered).value|
    ensures multiset(Walk(dist, from, unvisited, ordered).value) == multiset(ordered) + multiset(unvisited)
    decreases |unvisited|
  {
    WalkExtends(dist, from, unvisited, ordered);
    if unvisited != [] {
      var pick := Pick(dist, from, unvisited).value;
      if pick.Some? {
        var at := pick.value;
        var x := unvisited[at];
        WalkPermutes(dist, x, Remove(unvisited, at), ordered + [x]);
        assert unvisited == unvisited[..at] + [x] + unvisited[at + 1..];
      }
    }
  }

  /** What a walk appends to `ordered` is a reordering of the unvisited rooms. */
  lemma {:induction false} WalkAppends(dist: Query, from: string, unvisited: seq<string>, ordered: seq<string>)
    requires Walk(dist, from, unvisited, ordered).Ok?
    ensures |ordered| <= |Walk(dist, from, unvisited, ordered).value|
    ensures multiset(Walk(dist, from, unvisited, ordered).value[|ordered|..]) == multiset(unvisited)
  {
    WalkExtends(dist, from, unvisited, ordered);
    WalkPermutes(dist, from, unvisited, ordered);
    SuffixMultiset(Walk(dist, from, unvisited, ordered).value, ordered, unvisited);
  }

  lemma {:induction false} SuffixMultiset(w: seq<string>, o: seq<string>, u: seq<string>)
    requires |o| <= |w| && w[..|o|] == o && multiset(w) == multiset(o) + multiset(u)
    ensures multiset(w[|o|..]) == multiset(u)
  {
    assert w == o + w[|o|..];
    assert multiset(w) == multiset(o) + multiset(w[|o|..]);
    assert forall x :: multiset(w[|o|..])[x] == multiset(w)[x] - multiset(o)[x] == multiset(u)[x];
  }

  lemma {:induction false} SuffixCons(w: seq<string>, o: seq<string>, x: string)
    requires |o| + 1 <= |w| && w[..|o| + 1] == o + [x]
    ensures w[|o|..] == [x] + w[|o| + 1..]
  {
    assert w[|o|] == w[..|o| + 1][|o|] == x;
  }

  /** The part of a walk after `ordered` is a nearest-neighbour route from `from`. */
  lemma {:induction false} WalkIsNearestRoute(dist: Query, from: string, unvisited: seq<string>, ordered: seq<string>)
    returns (m: nat)
    requires Walk(dist, from, unvisited, ordered).Ok?
    ensures |ordered| <= |Walk(dist, from, unvisited, ordered).value|
    ensures NearestRoute(dist, from, Walk(dist, from, unvisited, ordered).value[|ordered|..], m)
    decreases |unvisited|
  {
    WalkExtends(dist, from, unvisited, ordered);
    m := 0;
    if unvisited != [] {
      PickMeaning(dist, from, unvisited);
      var pick := Pick(dist, from, unvisited).value;
      if pick.None? {
        assert (ordered + unvisited)[|ordered|..] == unvisited;
      } else {
        var at := pick.value;
        var x := unvisited[at];
        var rest := Remove(unvisited, at);
        var m' := WalkIsNearestRoute(dist, x, rest, ordered + [x]);
        WalkExtends(dist, x, rest, ordered + [x]);
        WalkAppends(dist, x, rest, ordered + [x]);
        assert Walk(dist, from, unvisited, ordered) == Walk(dist, x, rest, ordered + [x]);
        var w := Walk(dist, x, rest, ordered + [x]).value;
        SuffixCons(w, ordered, x);
        RouteFromPick(dist, from, unvisited, at, w, |ordered|, m');
        m := m' + 1;
      }
    }
  }

  /** The step of WalkIsNearestRoute after the pick, stated without the walk. */
  lemma {:induction false} RouteFromPick(dist: Query, from: string, unvisited: seq<string>, at: nat,
                                         w: seq<string>, n: nat, m: nat)
    requires at < |unvisited| && n + 1 <= |w| && w[n..] == [unvisited[at]] + w[n + 1..]
    requires dist(from, unvisited[at]).Ok? && dist(from, unvisited[at]).value.Fin?
    requires forall j | 0 <= j < |unvisited| :: dist(from, unvisited[j]).Ok?
    requires forall j | 0 <= j < |unvisited| :: !dist(from, unvisited[j]).value.Lt(dist(from, unvisited[at]).value)
    requires NearestRoute(dist, unvisited[at], w[n + 1..], m)
    requires multiset(w[n + 1..]) == multiset(Remove(unvisited, at))
    ensures NearestRoute(dist, from, w[n..], m + 1)
  {
    var x, tail := unvisited[at], w[n + 1..];
    forall y | y in tail ensures y in unvisited {
      assert y in multiset(Remove(unvisited, at));
    }
    forall y | y in unvisited ensures dist(from, y).Ok? && !dist(from, y).value.Lt(dist(from, x).value) {
      var j :| 0 <= j < |unvisited| && unvisited[j] == y;
    }
    RouteCons(dist, from, x, tail, m, unvisited);
  }

  /** Prepending the nearest room to a nearest-neighbour route from it. */
  lemma {:induction false} RouteCons(dist: Query, from: string, x: string, tail: seq<string>, m: nat, rooms: seq<string>)
    requires NearestRoute(dist, x, tail, m)
    requires forall y | y in tail :: y in rooms
    requires dist(from, x).Ok? && dist(from, x).value.Fin?
    requires forall y | y in rooms :: dist(from, y).Ok? && !dist(from, y).value.Lt(dist(from, x).value)
    ensures NearestRoute(dist, from, [x] + tail, m + 1)
  {
    var route := [x] + tail;
    forall i | 0 <= i < m + 1 ensures NearestAt(dist, from, route, i) {
      if i == 0 {
        forall j | 0 < j < |route| ensures route[j] in rooms {
          assert route[j] == tail[j - 1];
        }
      } else {
        assert NearestAt(dist, x, tail, i - 1);
        assert Prev(from, route, i) == Prev(x, tail, i - 1);
        forall j | i <= j < |route| ensures route[j] == tail[j - 1] { }
      }
    }
    assert Prev(from, route, m + 1) == Prev(x, tail, m);
    forall j | m + 1 <= j < |route| ensures route[j] == tail[j - 1] { }
  }

  /** The walk from `[]` reorders the rooms: same rooms, same number of times. */
  lemma {:induction false} PathOrderPermutes(dist: Query, order: SetOrder, start: string, roomIds: seq<string>)
    requires IsSetOrder(order) && NoDup(roomIds)
    requires PathOrder(dist, order, start, roomIds).Ok?
    ensures multiset(PathOrder(dist, order, start, roomIds).value) == multiset(roomIds)
  {
    if |roomIds| > 1 {
      WalkAppends(dist, start, order(roomIds), []);
      SameElements(order(roomIds), roomIds);
      assert PathOrder(dist, order, start, roomIds).value[0..] == PathOrder(dist, order, start, roomIds).value;
    }
  }

  /** A list of two or more rooms comes back as a nearest-neighbour route from the
      start position; shorter lists come back unchanged. */
  lemma {:induction false} PathOrderIsNearestRoute(dist: Query, order: SetOrder, start: string, roomIds: seq<string>)
    returns (m: nat)
    requires PathOrder(dist, order, start, roomIds).Ok?
    ensures |roomIds| <= 1 ==> PathOrder(dist, order, start, roomIds).value == roomIds
    ensures |roomIds| > 1 ==> NearestRoute(dist, start, PathOrder(dist, order, start, roomIds).value, m)
  {
    m := 0;
    if |roomIds| > 1 {
      m := WalkIsNearestRoute(dist, start, order(roomIds), []);
      assert PathOrder(dist, order, start, roomIds).value[0..] == PathOrder(dist, order, start, roomIds).value;
    }
  }

  /** When no query raises, neither does the walk. */
  lemma {:induction false} WalkTotal(dist: Query, from: string, unvisited: seq<string>, ordered: seq<string>)
    requires forall a, b :: dist(a, b).Ok?
    ensures Walk(dist, from, unvisited, ordered).Ok?
    decreases |unvisited|
  {
    if unvisited != [] {
      var pick := Pick(dist, from, unvisited);
      assert pick.Ok?;
      if pick.value.Some? {
        var at := pick.value.value;
        WalkTotal(dist, unvisited[at], Remove(unvisited, at), ordered + [unvisited[at]]);
      }
    }
  }
}
