/** TopDownOptimizer: for a building of several floors, every responder sweeps from
    the top floor down. The rooms of floors n_floors, n_floors - 1, ..., 1 are
    taken floor by floor, each floor by priority, and dealt round robin with one
    counter that runs on across floors. A building of one floor is dealt by
    priority alone. */
module TopDown {
  import opened Common
  import opened Dicts
  import opened Facility
  import opened Responders
  import opened Sweep
  import opened Dealing
  import opened Greedy
  import opened Sorting

  // ---------------------------------------------------------------------------
  // Specification functions

  /** sorted(range(1, n_floors + 1), reverse=True): the floors, top first. */
  function FloorsDesc(nFloors: int): (fs: seq<int>)
    ensures |fs| == if nFloors > 0 then nFloors else 0
    ensures forall i | 0 <= i < |fs| :: fs[i] == nFloors - i
    decreases nFloors
  {
    if nFloors <= 0 then [] else [nFloors] + FloorsDesc(nFloors - 1)
  }

  /** The rooms on floor f, in order. */
  function OnFloor(rs: seq<Room>, f: int): seq<Room> {
    if rs == [] then [] else (if rs[0].floor == f then [rs[0]] else []) + OnFloor(rs[1..], f)
  }

  lemma {:induction false} OnFloorMembers(rs: seq<Room>, f: int)
    ensures forall r :: r in OnFloor(rs, f) <==> r in rs && r.floor == f
    decreases |rs|
  {
    if rs != [] {
      OnFloorMembers(rs[1..], f);
      assert forall r :: r in rs <==> r == rs[0] || r in rs[1..];
    }
  }

  /** The rooms on floors 1..n, in order. */
  function Between(rs: seq<Room>, n: int): seq<Room> {
    if rs == [] then [] else (if 1 <= rs[0].floor <= n then [rs[0]] else []) + Between(rs[1..], n)
  }

  lemma {:induction false} BetweenMembers(rs: seq<Room>, n: int)
    ensures forall r :: r in Between(rs, n) <==> r in rs && 1 <= r.floor <= n
    decreases |rs|
  {
    if rs != [] {
      BetweenMembers(rs[1..], n);
      assert forall r :: r in rs <==> r == rs[0] || r in rs[1..];
    }
  }

  /** The floor's rooms by (-priority, y, x). */
  function FloorRooms(rs: seq<Room>, f: int): seq<Room> {
    SortByPriority(OnFloor(rs, f))
  }

  /** The order in which the nested loops visit the rooms of the floors fs. */
  function SweepOrder(rs: seq<Room>, fs: seq<int>): seq<string>
    decreases |fs|
  {
    if fs == [] then [] else RoomIds(FloorRooms(rs, fs[0])) + SweepOrder(rs, fs[1..])
  }

  /** _optimize_single_floor */
  function SingleFloorPlan(rs: seq<Room>, n: nat): Result<Assignment> {
    RoundRobin(RoomIds(SortByPriority(rs)), n)
  }

  /** _optimize_top_down */
  function TopDownPlan(rs: seq<Room>, nFloors: int, n: nat): Result<Assignment> {
    RoundRobin(SweepOrder(rs, FloorsDesc(nFloors)), n)
  }

  /** The floor of a room id of the building (0 for an id it does not have). */
  function FloorOf(rooms: Dict<Room>, x: string): int {
    if x in rooms.entries then rooms.entries[x].floor else 0
  }

  // ---------------------------------------------------------------------------
  // The optimizer

  class TopDownOptimizer {
    const building: Building
    const nResponders: nat
    const team: ResponderTeam

    ghost predicate Valid() {
      |team.responders| == nResponders && team.Numbered()
    }

    /** __init__: the team, from the exits when no initial positions are given. */
    constructor (building: Building, nResponders: nat, initialPositions: Option<seq<string>>,
                 capabilities: map<string, real>)
      requires initialPositions.Some? || DefaultPositions(building.exits.keys, nResponders).Ok?
      ensures Valid() && this.building == building && this.nResponders == nResponders
      ensures initialPositions.Some? ==>
                team.BuiltFrom(nResponders, PaddedPositions(nResponders, initialPositions), capabilities)
      ensures initialPositions.None? ==>
                team.BuiltFrom(nResponders, DefaultPositions(building.exits.keys, nResponders).value, capabilities)
    {
      var positions := initialPositions;
      if positions.None? {
        positions := Some(DefaultPositions(building.exits.keys, nResponders).value);
      }
      this.building := building;
      this.nResponders := nResponders;
      var t := new ResponderTeam(nResponders, positions, capabilities);
      team := t;
    }

    /** __init__ as the caller sees it: with no initial positions and no exit to start
        from, working out the default positions divides by zero and no optimizer results. */
    static method Create(building: Building, nResponders: nat, initialPositions: Option<seq<string>>,
                         capabilities: map<string, real>)
      returns (r: Result<TopDownOptimizer>)
      ensures r.Err? <==> initialPositions.None? && building.exits.keys == [] && nResponders > 0
      ensures r.Err? ==> r.error == ZeroDivision
      ensures r.Ok? ==> fresh(r.value) && r.value.Valid() && r.value.building == building
                        && r.value.nResponders == nResponders
    {
      if initialPositions.None? && DefaultPositions(building.exits.keys, nResponders).Err? {
        return Err(ZeroDivision);
      }
      var o := new TopDownOptimizer(building, nResponders, initialPositions, capabilities);
      return Ok(o);
    }

    /** optimize: one floor is dealt by priority alone, anything else top down. */
    method Optimize() returns (r: Result<Assignment>)
      requires Valid() && building.Valid()
      ensures building.nFloors == 1 ==> r == SingleFloorPlan(building.rooms.Values(), nResponders)
      ensures building.nFloors != 1 ==> r == TopDownPlan(building.rooms.Values(), building.nFloors, nResponders)
    {
      if building.nFloors == 1 {
        r := OptimizeSingleFloor();
      } else {
        r := OptimizeTopDown();
      }
    }

    /** _optimize_single_floor: every room, whatever its floor field, by priority. */
    method OptimizeSingleFloor() returns (r: Result<Assignment>)
      requires Valid() && building.Valid()
      ensures r == SingleFloorPlan(building.rooms.Values(), nResponders)
    {
      var rooms := building.rooms.Values();
      rooms := SortByPriority(rooms);
      r := DealRooms(rooms, |team.responders|);
    }

    /** _optimize_top_down */
    method OptimizeTopDown() returns (r: Result<Assignment>)
      requires Valid() && building.Valid()
      ensures r == TopDownPlan(building.rooms.Values(), building.nFloors, nResponders)
    {
      var all := building.rooms.Values();
      var floorsDesc := FloorsDesc(building.nFloors);
      var roomsByFloor := CollectFloors(all, floorsDesc);
      assert forall i | 0 <= i < |floorsDesc| :: floorsDesc[i] in floorsDesc;
      r := DealFloors(all, floorsDesc, roomsByFloor, |team.responders|);
    }

    /** get_strategy_name */
    function GetStrategyName(): (s: string)
      ensures s == "top_down" <==> building.nFloors > 1
      ensures s != "top_down" ==> s == "balanced"
    {
      if building.nFloors > 1 then "top_down" else "balanced"
    }
  }

  /** The first loop of _optimize_top_down: rooms_by_floor, one entry per floor. */
  method CollectFloors(all: seq<Room>, floorsDesc: seq<int>) returns (roomsByFloor: map<int, seq<Room>>)
    ensures forall f :: f in roomsByFloor <==> f in floorsDesc
    ensures forall f | f in roomsByFloor :: roomsByFloor[f] == FloorRooms(all, f)
  {
    roomsByFloor := map[];
    var i := 0;
    while i < |floorsDesc|
      invariant 0 <= i <= |floorsDesc|
      invariant forall f :: f in roomsByFloor <==> f in floorsDesc[..i]
      invariant forall f | f in roomsByFloor :: roomsByFloor[f] == FloorRooms(all, f)
    {
      var floor := floorsDesc[i];
      var floorRooms := OnFloor(all, floor);
      floorRooms := SortByPriority(floorRooms);
      roomsByFloor := roomsByFloor[floor := floorRooms];
      assert floorsDesc[..i + 1] == floorsDesc[..i] + [floor];
      i := i + 1;
    }
    assert floorsDesc[..i] == floorsDesc;
  }

  /** The floor loop of _optimize_top_down: the floors' rooms dealt round robin in the
      order of the floors, one counter for all of them. */
  method DealFloors(ghost all: seq<Room>, floorsDesc: seq<int>, roomsByFloor: map<int, seq<Room>>, n: nat)
    returns (r: Result<Assignment>)
    requires forall i | 0 <= i < |floorsDesc| ::
               floorsDesc[i] in roomsByFloor && roomsByFloor[floorsDesc[i]] == FloorRooms(all, floorsDesc[i])
    ensures r == RoundRobin(SweepOrder(all, floorsDesc), n)
  {
    var assignment: Assignment := Repeat([], n);
    var responderIdx := 0;
    var fi := 0;
    while fi < |floorsDesc|
      invariant 0 <= fi <= |floorsDesc|
      invariant n == 0 ==> responderIdx == 0 && assignment == [] && SweepOrder(all, floorsDesc[..fi]) == []
      invariant n > 0 ==> responderIdx == |SweepOrder(all, floorsDesc[..fi])|
      invariant n > 0 ==> assignment == Deal(SweepOrder(all, floorsDesc[..fi]), n)
    {
      var rooms := roomsByFloor[floorsDesc[fi]];
      var ok;
      ok, assignment, responderIdx := DealFloor(all, floorsDesc, fi, rooms, assignment, responderIdx, n);
      if !ok {
        return Err(ZeroDivision);
      }
      fi := fi + 1;
    }
    assert floorsDesc[..fi] == floorsDesc;
    return Ok(assignment);
  }

  /** One pass of the floor loop of _optimize_top_down: the floor's rooms dealt on
      from the counter, or ZeroDivisionError (ok false) at the first room when there
      is no responder. */
  method DealFloor(ghost all: seq<Room>, ghost fs: seq<int>, ghost fi: nat, rooms: seq<Room>,
                   assignment: Assignment, responderIdx: nat, n: nat)
    returns (ok: bool, assignment': Assignment, responderIdx': nat)
    requires fi < |fs| && rooms == FloorRooms(all, fs[fi])
    requires n == 0 ==> responderIdx == 0 && assignment == [] && SweepOrder(all, fs[..fi]) == []
    requires n > 0 ==> responderIdx == |SweepOrder(all, fs[..fi])| && assignment == Deal(SweepOrder(all, fs[..fi]), n)
    ensures !ok ==> n == 0 && SweepOrder(all, fs) != []
    ensures ok && n == 0 ==> responderIdx' == 0 && assignment' == [] && SweepOrder(all, fs[..fi + 1]) == []
    ensures ok && n > 0 ==> responderIdx' == |SweepOrder(all, fs[..fi + 1])|
                            && assignment' == Deal(SweepOrder(all, fs[..fi + 1]), n)
  {
    SweepOrderNext(all, fs, fi);
    ok, assignment', responderIdx' := true, assignment, responderIdx;
    if n == 0 {
      if rooms != [] {
        ZeroDealt(all, fs, fi);
        ok := false;
      }
    } else {
      assignment', responderIdx' := DealShare(SweepOrder(all, fs[..fi]), rooms, assignment, responderIdx, n);
    }
  }

  /** The inner loop of _optimize_top_down over one floor's rooms: the counter
      carries on from the rooms dealt so far. */
  method DealShare(ghost done: seq<string>, rooms: seq<Room>, assignment: Assignment, responderIdx: nat, n: nat)
    returns (assignment': Assignment, responderIdx': nat)
    requires n > 0 && responderIdx == |done| && assignment == Deal(done, n)
    ensures responderIdx' == |done| + |rooms| && assignment' == Deal(done + RoomIds(rooms), n)
  {
    assignment', responderIdx' := assignment, responderIdx;
    var j := 0;
    assert done + RoomIds(rooms)[..0] == done;
    while j < |rooms|
      invariant 0 <= j <= |rooms|
      invariant responderIdx' == |done| + j
      invariant assignment' == Deal(done + RoomIds(rooms)[..j], n)
    {
      assert (done + RoomIds(rooms)[..j + 1])[..|done| + j] == done + RoomIds(rooms)[..j];
      var k := responderIdx' % n;
      assignment' := assignment'[k := assignment'[k] + [rooms[j].id]];
      responderIdx' := responderIdx' + 1;
      j := j + 1;
    }
    assert RoomIds(rooms)[..j] == RoomIds(rooms);
  }

  // ---------------------------------------------------------------------------
  // Facts about the visiting order

  lemma {:induction false} SweepOrderAppend(rs: seq<Room>, a: seq<int>, b: seq<int>)
    ensures SweepOrder(rs, a + b) == SweepOrder(rs, a) + SweepOrder(rs, b)
    decreases |a|
  {
    if a != [] {
      var h := RoomIds(FloorRooms(rs, a[0]));
      assert (a + b)[0] == a[0] && (a + b)[1..] == a[1..] + b;
      assert SweepOrder(rs, a + b) == h + SweepOrder(rs, a[1..] + b);
      assert SweepOrder(rs, a) == h + SweepOrder(rs, a[1..]);
      SweepOrderAppend(rs, a[1..], b);
    } else {
      assert a + b == b;
    }
  }

  /** The next floor's rooms follow the floors already done. */
  lemma {:induction false} SweepOrderNext(rs: seq<Room>, fs: seq<int>, i: nat)
    requires i < |fs|
    ensures SweepOrder(rs, fs[..i + 1]) == SweepOrder(rs, fs[..i]) + RoomIds(FloorRooms(rs, fs[i]))
  {
    assert fs[..i + 1] == fs[..i] + [fs[i]];
    SweepOrderAppend(rs, fs[..i], [fs[i]]);
  }

  /** With no responder the first room met divides by zero, so no room came before. */
  lemma {:induction false} ZeroDealt(rs: seq<Room>, fs: seq<int>, i: nat)
    requires i < |fs| && SweepOrder(rs, fs[..i]) == [] && RoomIds(FloorRooms(rs, fs[i])) != []
    ensures SweepOrder(rs, fs) != []
  {
    var done, rest := fs[..i], fs[i..];
    assert done + rest == fs;
    SweepOrderAppend(rs, done, rest);
    assert rest[0] == fs[i];
    assert SweepOrder(rs, rest) == RoomIds(FloorRooms(rs, fs[i])) + SweepOrder(rs, rest[1..]);
  }

  /** A floor's share holds the ids of exactly the rooms on that floor. */
  lemma {:induction false} FloorRoomsMembers(rs: seq<Room>, f: int)
    ensures forall x :: x in RoomIds(FloorRooms(rs, f)) <==> exists r | r in rs && r.floor == f :: r.id == x
  {
    var s := FloorRooms(rs, f);
    OnFloorMembers(rs, f);
    assert forall r :: r in s <==> r in OnFloor(rs, f) by {
      forall r ensures r in s <==> r in OnFloor(rs, f) {
        assert r in s <==> multiset(s)[r] > 0;
      }
    }
    RoomIdsMembers(s);
  }

  /** The ids of a list of rooms are those of its members. */
  lemma {:induction false} RoomIdsMembers(s: seq<Room>)
    ensures forall x :: x in RoomIds(s) <==> exists r | r in s :: r.id == x
  {
    forall x ensures x in RoomIds(s) <==> exists r | r in s :: r.id == x {
      if x in RoomIds(s) {
        var i :| 0 <= i < |s| && RoomIds(s)[i] == x;
        assert s[i] in s;
      }
      if exists r | r in s :: r.id == x {
        var r :| r in s && r.id == x;
        var i :| 0 <= i < |s| && s[i] == r;
        assert RoomIds(s)[i] == x;
      }
    }
  }

  /** Room ids in the visiting order are those of the rooms on the floors fs. */
  lemma {:induction false} SweepOrderMembers(rs: seq<Room>, fs: seq<int>)
    ensures forall x :: x in SweepOrder(rs, fs) <==> exists r | r in rs && r.floor in fs :: r.id == x
    decreases |fs|
  {
    if fs != [] {
      FloorRoomsMembers(rs, fs[0]);
      SweepOrderMembers(rs, fs[1..]);
      assert forall f :: f in fs <==> f == fs[0] || f in fs[1..];
    }
  }

  lemma {:induction false} RoomIdsCons(r: Room, rs: seq<Room>)
    ensures RoomIds([r] + rs) == [r.id] + RoomIds(rs)
  {
    RoomIdsAppend([r], rs);
  }

  lemma {:induction false} IdsCons(r: Room, rs: seq<Room>)
    ensures multiset(RoomIds([r] + rs)) == multiset{r.id} + multiset(RoomIds(rs))
  {
    RoomIdsCons(r, rs);
  }

  /** Floor n's rooms and those of floors 1..n-1 make up those of floors 1..n. */
  lemma {:induction false} BetweenSplit(rs: seq<Room>, n: int)
    requires n >= 1
    ensures multiset(RoomIds(Between(rs, n))) == multiset(RoomIds(OnFloor(rs, n))) + multiset(RoomIds(Between(rs, n - 1)))
    decreases |rs|
  {
    if rs != [] {
      BetweenSplit(rs[1..], n);
      var r := rs[0];
      var a, b, c := Between(rs[1..], n), OnFloor(rs[1..], n), Between(rs[1..], n - 1);
      if r.floor == n {
        assert Between(rs, n) == [r] + a && OnFloor(rs, n) == [r] + b;
        assert Between(rs, n - 1) == [] + c == c;
        IdsCons(r, a);
        IdsCons(r, b);
      } else if 1 <= r.floor < n {
        assert Between(rs, n) == [r] + a && Between(rs, n - 1) == [r] + c;
        assert OnFloor(rs, n) == [] + b == b;
        IdsCons(r, a);
        IdsCons(r, c);
      } else {
        assert Between(rs, n) == [] + a == a;
        assert OnFloor(rs, n) == [] + b == b;
        assert Between(rs, n - 1) == [] + c == c;
      }
    }
  }

  /** No room is on floors 1..n when n < 1. */
  lemma {:induction false} BetweenNone(rs: seq<Room>, n: int)
    requires n < 1
    ensures Between(rs, n) == []
    decreases |rs|
  {
    if rs != [] {
      BetweenNone(rs[1..], n);
    }
  }

  /** The top-down order holds each room of floors 1..n as often as the building does. */
  lemma {:induction false} SweepOrderMultiset(rs: seq<Room>, n: int)
    ensures multiset(SweepOrder(rs, FloorsDesc(n))) == multiset(RoomIds(Between(rs, n)))
    decreases n
  {
    if n <= 0 {
      BetweenNone(rs, n);
    } else {
      SweepOrderMultiset(rs, n - 1);
      assert FloorsDesc(n)[1..] == FloorsDesc(n - 1);
      RoomIdsPermute(FloorRooms(rs, n), OnFloor(rs, n));
      BetweenSplit(rs, n);
    }
  }

  /** Picking out rooms keeps their ids distinct. */
  lemma {:induction false} BetweenDistinct(rs: seq<Room>, n: int)
    requires NoDup(RoomIds(rs))
    ensures NoDup(RoomIds(Between(rs, n)))
    decreases |rs|
  {
    if rs != [] {
      var r, t := rs[0], rs[1..];
      RoomIdsCons(r, t);
      assert rs == [r] + t;
      NoDupCons(RoomIds(rs));
      assert RoomIds(rs)[1..] == RoomIds(t);
      BetweenDistinct(t, n);
      if 1 <= r.floor <= n {
        var b := Between(t, n);
        BetweenMembers(t, n);
        forall j | 0 <= j < |b| ensures b[j].id != r.id {
          assert b[j] in t;
          var i :| 0 <= i < |t| && t[i] == b[j];
          assert RoomIds(t)[i] == b[j].id;
        }
        RoomIdsCons(r, b);
        NoDupCons([r.id] + RoomIds(b));
        assert ([r.id] + RoomIds(b))[1..] == RoomIds(b);
      }
    }
  }

  /** Along the top-down order every room's floor lies within 1..n. */
  lemma {:induction false} SweepOrderRange(rs: seq<Room>, n: int, rank: string -> int)
    requires forall r | r in rs :: rank(r.id) == r.floor
    ensures forall x | x in SweepOrder(rs, FloorsDesc(n)) :: 1 <= rank(x) <= n
  {
    SweepOrderMembers(rs, FloorsDesc(n));
  }

  /** Followed by rooms no higher, one floor's rooms keep the order non-increasing. */
  lemma {:induction false} ConcatOrdered(a: seq<string>, b: seq<string>, rank: string -> int, m: int)
    requires forall x | x in a :: rank(x) == m
    requires forall x | x in b :: rank(x) <= m
    requires forall i, j | 0 <= i < j < |b| :: rank(b[i]) >= rank(b[j])
    ensures forall i, j | 0 <= i < j < |a + b| :: rank((a + b)[i]) >= rank((a + b)[j])
  {
    var s := a + b;
    forall i, j | 0 <= i < j < |s| ensures rank(s[i]) >= rank(s[j]) {
      if i >= |a| {
        assert s[i] == b[i - |a|] && s[j] == b[j - |a|];
      } else if j >= |a| {
        assert s[i] == a[i] && s[j] == b[j - |a|];
        assert s[i] in a && s[j] in b;
      } else {
        assert s[i] in a && s[j] in a;
      }
    }
  }

  /** Each floor's rooms come before those of every lower floor: along the
      top-down order, floors never increase. */
  lemma {:induction false} SweepOrderFloors(rs: seq<Room>, n: int, rank: string -> int)
    requires forall r | r in rs :: rank(r.id) == r.floor
    ensures forall i, j | 0 <= i < j < |SweepOrder(rs, FloorsDesc(n))| ::
              rank(SweepOrder(rs, FloorsDesc(n))[i]) >= rank(SweepOrder(rs, FloorsDesc(n))[j])
    decreases n
  {
    if n > 0 {
      SweepOrderFloors(rs, n - 1, rank);
      SweepOrderRange(rs, n - 1, rank);
      assert FloorsDesc(n)[0] == n && FloorsDesc(n)[1..] == FloorsDesc(n - 1);
      assert SweepOrder(rs, FloorsDesc(n)) == RoomIds(FloorRooms(rs, n)) + SweepOrder(rs, FloorsDesc(n - 1));
      var a := RoomIds(FloorRooms(rs, n));
      FloorRoomsMembers(rs, n);
      ConcatOrdered(a, SweepOrder(rs, FloorsDesc(n - 1)), rank, n);
    }
  }

  // ---------------------------------------------------------------------------
  // What the strategies promise

  /** The ids of a building's rooms, in dict order, are its keys. */
  lemma {:induction false} KeyedRooms(rooms: Dict<Room>)
    requires rooms.Valid() && forall k | k in rooms.entries :: rooms.entries[k].id == k
    ensures RoomIds(rooms.Values()) == rooms.keys
    ensures forall r | r in rooms.Values() :: r.id in rooms.entries && rooms.entries[r.id] == r
  {
    forall r | r in rooms.Values() ensures r.id in rooms.entries && rooms.entries[r.id] == r {
      var i :| 0 <= i < |rooms.keys| && rooms.Values()[i] == r;
      assert rooms.keys[i] in rooms.entries;
    }
  }

  /** _optimize_single_floor deals every room of the building once, by priority and
      whatever its floor; shares differ by at most one room. With no responder it
      fails as soon as there is a room. */
  lemma {:induction false} SingleFloorOutcome(rooms: Dict<Room>, n: nat)
    requires rooms.Valid() && forall k | k in rooms.entries :: rooms.entries[k].id == k
    ensures SingleFloorPlan(rooms.Values(), n).Err? <==> n == 0 && rooms.keys != []
    ensures SingleFloorPlan(rooms.Values(), n).Ok? ==>
      var a := SingleFloorPlan(rooms.Values(), n).value;
      && |a| == n
      && multiset(Flatten(a)) == multiset(rooms.keys)
      && NoDup(Flatten(a))
      && (forall k, k' | 0 <= k < n && 0 <= k' < n :: |a[k]| <= |a[k']| + 1)
  {
    var vs := rooms.Values();
    KeyedRooms(rooms);
    RoomIdsPermute(SortByPriority(vs), vs);
    var ids := RoomIds(SortByPriority(vs));
    if n > 0 {
      DealPermutes(ids, n);
      DealBalanced(ids, n);
      MultisetNoDup(rooms.keys, Flatten(Deal(ids, n)));
    }
  }

  /** The top-down order of a building's rooms holds every room on floors
      1..n_floors once and no other, top floor first. */
  lemma {:induction false} SweepOrderOfBuilding(rooms: Dict<Room>, nFloors: int)
    requires rooms.Valid() && forall k | k in rooms.entries :: rooms.entries[k].id == k
    ensures forall x :: x in SweepOrder(rooms.Values(), FloorsDesc(nFloors)) <==>
                          x in rooms.entries && 1 <= rooms.entries[x].floor <= nFloors
    ensures NoDup(SweepOrder(rooms.Values(), FloorsDesc(nFloors)))
    ensures forall i, j | 0 <= i < j < |SweepOrder(rooms.Values(), FloorsDesc(nFloors))| ::
              FloorOf(rooms, SweepOrder(rooms.Values(), FloorsDesc(nFloors))[i])
              >= FloorOf(rooms, SweepOrder(rooms.Values(), FloorsDesc(nFloors))[j])
  {
    var vs := rooms.Values();
    var s := SweepOrder(vs, FloorsDesc(nFloors));
    KeyedRooms(rooms);
    SweepOrderMembers(vs, FloorsDesc(nFloors));
    assert forall f :: f in FloorsDesc(nFloors) <==> 1 <= f <= nFloors by {
      forall f | 1 <= f <= nFloors ensures f in FloorsDesc(nFloors) {
        assert FloorsDesc(nFloors)[nFloors - f] == f;
      }
    }
    forall x | x in rooms.entries && 1 <= rooms.entries[x].floor <= nFloors ensures x in s {
      var i := KeyIndex(rooms, x);
      assert vs[i] in vs && vs[i].id == x;
    }
    SweepOrderMultiset(vs, nFloors);
    BetweenDistinct(vs, nFloors);
    MultisetNoDup(RoomIds(Between(vs, nFloors)), s);
    SweepOrderFloors(vs, nFloors, x => FloorOf(rooms, x));
  }

  /** _optimize_top_down, for a building of several floors:
      - every room on floors 1..n_floors is assigned exactly once, and no other room;
      - along each responder's list the floors never increase;
      - shares differ by at most one room;
      - with no responder it fails exactly when some room is on floors 1..n_floors. */
  lemma {:induction false} TopDownOutcome(rooms: Dict<Room>, nFloors: int, n: nat)
    requires rooms.Valid() && forall k | k in rooms.entries :: rooms.entries[k].id == k
    ensures TopDownPlan(rooms.Values(), nFloors, n).Err? <==>
              n == 0 && exists x | x in rooms.entries :: 1 <= rooms.entries[x].floor <= nFloors
    ensures TopDownPlan(rooms.Values(), nFloors, n).Ok? ==>
      var a := TopDownPlan(rooms.Values(), nFloors, n).value;
      && |a| == n
      && (forall x :: x in Flatten(a) <==> x in rooms.entries && 1 <= rooms.entries[x].floor <= nFloors)
      && NoDup(Flatten(a))
      && (forall k, i, j | 0 <= k < n && 0 <= i < j < |a[k]| :: FloorOf(rooms, a[k][i]) >= FloorOf(rooms, a[k][j]))
      && (forall k, k' | 0 <= k < n && 0 <= k' < n :: |a[k]| <= |a[k']| + 1)
  {
    var s := SweepOrder(rooms.Values(), FloorsDesc(nFloors));
    SweepOrderOfBuilding(rooms, nFloors);
    if n == 0 {
      if s != [] {
        assert s[0] in s;
      }
    } else {
      var a := Deal(s, n);
      DealPermutes(s, n);
      DealBalanced(s, n);
      forall x ensures x in Flatten(a) <==> x in s {
        assert x in Flatten(a) <==> multiset(Flatten(a))[x] > 0;
      }
      MultisetNoDup(s, Flatten(a));
      DealKeepsOrder(s, n, x => FloorOf(rooms, x));
    }
  }
}
