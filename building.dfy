/** The facility data model of src/models/building.py: rooms with their check-time
    arithmetic and clearance state, and a Building that collects rooms, exits,
    corridors, stairs and the flat list of symmetric connections, with a distance
    lookup that memoises what it finds. */
module Facility {
  import opened Common
  import opened Dicts
  import opened Sorting

  /** A room. The clearance fields are the only ones that ever change. */
  datatype Room = Room(
    id: string, area: real, position: Point, floor: int, roomType: string,
    occupancy: int, priority: int, checkComplexity: real,
    cleared: bool, clearedAt: Option<real>, clearedBy: Option<int>)
  {
    /** Areas and complexity multipliers are non-negative, so check times do not go backwards. */
    predicate Sane() {
      area >= 0.0 && checkComplexity >= 0.0
    }

    /** calculate_check_time: the base time plus the rate per square metre, scaled by the complexity. */
    function CheckTime(baseTime: real, rate: real): (t: real)
      ensures rate >= 0.0 && Sane() ==> t >= baseTime
      ensures t - baseTime == rate * area * checkComplexity
    {
      baseTime + rate * area * checkComplexity
    }

    function Uncleared(): (r: Room)
      ensures !r.cleared && r.clearedAt == None && r.clearedBy == None
      ensures r.(cleared := cleared, clearedAt := clearedAt, clearedBy := clearedBy) == this
    {
      this.(cleared := false, clearedAt := None, clearedBy := None)
    }
  }

  /** Room(...) as the constructor builds it: not cleared. */
  function NewRoom(id: string, area: real, position: Point, floor: int, roomType: string,
                   occupancy: int, priority: int, checkComplexity: real): (r: Room)
    ensures r.id == id && !r.cleared && r.clearedAt == None && r.clearedBy == None
  {
    Room(id, area, position, floor, roomType, occupancy, priority, checkComplexity, false, None, None)
  }

  /** Room('R1', area=16, position=(5, 10)) with the default rates takes 10 + 16 seconds. */
  lemma {:induction false} CheckTimeExample()
    ensures NewRoom("R1", 16.0, Point(5.0, 10.0), 1, "office", 0, 1, 1.0).CheckTime(10.0, 1.0) == 26.0
  {
  }

  datatype Exit = Exit(id: string, position: Point, floor: int)
  datatype Corridor = Corridor(id: string, start: Point, end: Point, floor: int, width: real, length: real)
  datatype Stair = Stair(id: string, position: Point, connects: seq<int>)
  datatype Connection = Connection(fromId: string, toId: string, distance: real)

  /** The distance of the first directed connection from a to b, or inf. */
  function FirstDistance(conns: seq<Connection>, a: string, b: string): Ext {
    if conns == [] then Inf
    else if conns[0].fromId == a && conns[0].toId == b then Fin(conns[0].distance)
    else FirstDistance(conns[1..], a, b)
  }

  /** The lookup is finite exactly when some connection goes from a to b, and then it is
      the distance of the first such connection. */
  lemma {:induction false} FirstDistanceMeaning(conns: seq<Connection>, a: string, b: string)
    ensures FirstDistance(conns, a, b).Fin? <==> exists i | 0 <= i < |conns| :: conns[i].fromId == a && conns[i].toId == b
    ensures FirstDistance(conns, a, b).Fin? ==>
      exists i | 0 <= i < |conns| :: conns[i] == Connection(a, b, FirstDistance(conns, a, b).v)
        && forall j | 0 <= j < i :: !(conns[j].fromId == a && conns[j].toId == b)
  {
    if conns != [] && !(conns[0].fromId == a && conns[0].toId == b) {
      FirstDistanceMeaning(conns[1..], a, b);
      assert forall i | 1 <= i < |conns| :: conns[i] == conns[1..][i - 1];
      var d := FirstDistance(conns, a, b);
      if d.Fin? {
        var i :| 0 <= i < |conns[1..]| && conns[1..][i] == Connection(a, b, d.v)
                  && forall j | 0 <= j < i :: !(conns[1..][j].fromId == a && conns[1..][j].toId == b);
        assert conns[i + 1] == Connection(a, b, d.v);
      }
    }
  }

  /** A distance found among the first connections stays the answer when more are appended. */
  lemma {:induction false} FirstDistanceStable(s: seq<Connection>, t: seq<Connection>, a: string, b: string)
    requires FirstDistance(s, a, b).Fin?
    ensures FirstDistance(s + t, a, b) == FirstDistance(s, a, b)
  {
    if s[0].fromId == a && s[0].toId == b {
    } else {
      assert (s + t)[1..] == s[1..] + t;
      FirstDistanceStable(s[1..], t, a, b);
    }
  }

  /** The connection list is made of (from, to, d), (to, from, d) pairs, as add_connection appends them. */
  ghost predicate Paired(conns: seq<Connection>) {
    |conns| % 2 == 0 &&
    forall k | 0 <= k < |conns| / 2 :: conns[2 * k + 1] == Connection(conns[2 * k].toId, conns[2 * k].fromId, conns[2 * k].distance)
  }

  /** Because connections come in mirrored pairs, the lookup gives the same answer both ways round. */
  lemma {:induction false} FirstDistanceSymmetric(conns: seq<Connection>, a: string, b: string)
    requires Paired(conns)
    ensures FirstDistance(conns, a, b) == FirstDistance(conns, b, a)
  {
    if conns != [] {
      var rest := conns[2..];
      assert 0 < |conns| / 2;
      assert conns[2 * 0 + 1] == Connection(conns[2 * 0].toId, conns[2 * 0].fromId, conns[2 * 0].distance);
      assert Paired(rest) by {
        forall k | 0 <= k < |rest| / 2
          ensures rest[2 * k + 1] == Connection(rest[2 * k].toId, rest[2 * k].fromId, rest[2 * k].distance)
        {
          assert rest[2 * k + 1] == conns[2 * (k + 1) + 1] && rest[2 * k] == conns[2 * (k + 1)];
        }
      }
      FirstDistanceSymmetric(rest, a, b);
      assert conns[1..][1..] == rest;
    }
  }

  lemma {:induction false} PairedAppend(conns: seq<Connection>, f: string, t: string, d: real)
    requires Paired(conns)
    ensures Paired(conns + [Connection(f, t, d), Connection(t, f, d)])
  {
    var s := conns + [Connection(f, t, d), Connection(t, f, d)];
    forall k | 0 <= k < |s| / 2
      ensures s[2 * k + 1] == Connection(s[2 * k].toId, s[2 * k].fromId, s[2 * k].distance)
    {
      if k < |conns| / 2 {
        assert s[2 * k + 1] == conns[2 * k + 1] && s[2 * k] == conns[2 * k];
      }
    }
  }

  /** The rooms that pass keep, in dictionary order. */
  function FilterRooms(rs: seq<Room>, keep: Room -> bool): (out: seq<Room>)
    ensures |out| <= |rs|
    ensures forall r :: r in out <==> r in rs && keep(r)
  {
    if rs == [] then []
    else if keep(rs[0]) then [rs[0]] + FilterRooms(rs[1..], keep)
    else FilterRooms(rs[1..], keep)
  }

  /** The sort key (-priority, y, x) used by every priority ordering, as Python compares tuples. */
  predicate PriorityKeyLe(a: Room, b: Room) {
    || -a.priority < -b.priority
    || (-a.priority == -b.priority && a.position.y < b.position.y)
    || (-a.priority == -b.priority && a.position.y == b.position.y && a.position.x <= b.position.x)
  }

  lemma {:induction false} PriorityKeyIsTotalPreorder()
    ensures TotalPreorder(PriorityKeyLe)
  {
  }

  /** sorted(rooms, key=lambda r: (-r.priority, r.position[1], r.position[0])): stable. */
  function SortByPriority(rs: seq<Room>): (out: seq<Room>)
    ensures multiset(out) == multiset(rs) && |out| == |rs|
    ensures SortedBy(out, PriorityKeyLe)
  {
    PriorityKeyIsTotalPreorder();
    SortSorted(rs, PriorityKeyLe);
    SortBy(rs, PriorityKeyLe)
  }

  function RoomIds(rs: seq<Room>): (ids: seq<string>)
    ensures |ids| == |rs| && forall i | 0 <= i < |rs| :: ids[i] == rs[i].id
  {
    seq(|rs|, i requires 0 <= i < |rs| => rs[i].id)
  }

  lemma {:induction false} RoomIdsAppend(a: seq<Room>, b: seq<Room>)
    ensures RoomIds(a + b) == RoomIds(a) + RoomIds(b)
  {
    assert forall i | 0 <= i < |a + b| :: RoomIds(a + b)[i] == (RoomIds(a) + RoomIds(b))[i];
  }

  lemma {:induction false} MultisetCancel<T>(x: T, s: seq<T>, t: seq<T>)
    requires multiset{x} + multiset(s) == multiset{x} + multiset(t)
    ensures multiset(s) == multiset(t)
  {
    assert forall y :: multiset(s)[y] == (multiset{x} + multiset(s))[y] - multiset{x}[y] == multiset(t)[y];
  }

  /** Reordering rooms reorders their ids. */
  lemma {:induction false} RoomIdsPermute(rs: seq<Room>, ss: seq<Room>)
    requires multiset(rs) == multiset(ss)
    ensures multiset(RoomIds(rs)) == multiset(RoomIds(ss))
    decreases |rs|
  {
    if rs == [] {
      assert |ss| == |multiset(ss)| == 0;
    } else {
      var r := rs[0];
      assert r in multiset(ss);
      var j :| 0 <= j < |ss| && ss[j] == r;
      var front, back := ss[..j], ss[j + 1..];
      assert ss == front + [r] + back;
      assert rs == [r] + rs[1..];
      MultisetCancel(r, rs[1..], front + back);
      RoomIdsPermute(rs[1..], front + back);
      RoomIdsAppend([r], rs[1..]);
      RoomIdsAppend(front + [r], back);
      RoomIdsAppend(front, [r]);
      RoomIdsAppend(front, back);
    }
  }

  class Building {
    const name: string
    const nFloors: int
    var rooms: Dict<Room>
    var corridors: Dict<Corridor>
    var exits: Dict<Exit>
    var stairs: Dict<Stair>
    var connections: seq<Connection>
    var distanceCache: map<(string, string), real>

    ghost predicate Valid()
      reads this
    {
      && rooms.Valid() && corridors.Valid() && exits.Valid() && stairs.Valid()
      && (forall k | k in rooms.entries :: rooms.entries[k].id == k)
      && Paired(connections)
      && (forall key | key in distanceCache :: FirstDistance(connections, key.0, key.1) == Fin(distanceCache[key]))
    }

    constructor (name: string, nFloors: int)
      ensures Valid() && this.name == name && this.nFloors == nFloors
      ensures rooms.keys == [] && corridors.keys == [] && exits.keys == [] && stairs.keys == []
      ensures connections == [] && distanceCache == map[]
    {
      this.name := name;
      this.nFloors := nFloors;
      rooms, corridors, exits, stairs := EmptyDict(), EmptyDict(), EmptyDict(), EmptyDict();
      connections, distanceCache := [], map[];
    }

    /** add_room: keyed by the room's own id; a second room with the same id replaces the first. */
    method AddRoom(room: Room)
      requires Valid()
      modifies this`rooms
      ensures Valid()
      ensures rooms.entries == old(rooms.entries)[room.id := room]
      ensures rooms.keys == if room.id in old(rooms.entries) then old(rooms.keys) else old(rooms.keys) + [room.id]
    {
      rooms := rooms.Put(room.id, room);
    }

    method AddExit(exitId: string, position: Point, floor: int)
      requires Valid()
      modifies this`exits
      ensures Valid() && exits == old(exits).Put(exitId, Exit(exitId, position, floor))
    {
      exits := exits.Put(exitId, Exit(exitId, position, floor));
    }

    /** add_corridor; length is the Euclidean distance from start to end, computed by the caller. */
    method AddCorridor(corridorId: string, start: Point, end: Point, floor: int, width: real, length: real)
      requires Valid()
      modifies this`corridors
      ensures Valid() && corridors == old(corridors).Put(corridorId, Corridor(corridorId, start, end, floor, width, length))
    {
      corridors := corridors.Put(corridorId, Corridor(corridorId, start, end, floor, width, length));
    }

    method AddStairs(stairId: string, position: Point, connects: seq<int>)
      requires Valid()
      modifies this`stairs
      ensures Valid() && stairs == old(stairs).Put(stairId, Stair(stairId, position, connects))
    {
      stairs := stairs.Put(stairId, Stair(stairId, position, connects));
    }

    /** add_connection appends the connection and its reverse; cached distances stay right. */
    method AddConnection(fromId: string, toId: string, distance: real)
      requires Valid()
      modifies this`connections
      ensures Valid()
      ensures connections == old(connections) + [Connection(fromId, toId, distance), Connection(toId, fromId, distance)]
    {
      var added := [Connection(fromId, toId, distance), Connection(toId, fromId, distance)];
      forall key | key in distanceCache
        ensures FirstDistance(connections + added, key.0, key.1) == Fin(distanceCache[key])
      {
        FirstDistanceStable(connections, added, key.0, key.1);
      }
      PairedAppend(connections, fromId, toId, distance);
      connections := connections + added;
    }

    /** get_distance: the first matching directed connection, or inf; only found distances are cached. */
    method GetDistance(loc1: string, loc2: string) returns (d: Ext)
      requires Valid()
      modifies this`distanceCache
      ensures Valid()
      ensures d == FirstDistance(connections, loc1, loc2)
      ensures (loc1, loc2) in old(distanceCache) || d.Inf? ==> distanceCache == old(distanceCache)
      ensures (loc1, loc2) !in old(distanceCache) && d.Fin? ==> distanceCache == old(distanceCache)[(loc1, loc2) := d.v]
    {
      if (loc1, loc2) in distanceCache {
        return Fin(distanceCache[(loc1, loc2)]);
      }
      var i := 0;
      while i < |connections|
        invariant 0 <= i <= |connections|
        invariant forall j | 0 <= j < i :: !(connections[j].fromId == loc1 && connections[j].toId == loc2)
      {
        var conn := connections[i];
        if conn.fromId == loc1 && conn.toId == loc2 {
          assert connections == connections[..i] + connections[i..];
          FirstFromSuffix(connections, i, loc1, loc2);
          distanceCache := distanceCache[(loc1, loc2) := conn.distance];
          return Fin(conn.distance);
        }
        i := i + 1;
      }
      FirstDistanceMeaning(connections, loc1, loc2);
      return Inf;
    }

    lemma {:induction false} FirstFromSuffix(conns: seq<Connection>, i: nat, a: string, b: string)
      requires i < |conns| && conns[i].fromId == a && conns[i].toId == b
      requires forall j | 0 <= j < i :: !(conns[j].fromId == a && conns[j].toId == b)
      ensures FirstDistance(conns, a, b) == Fin(conns[i].distance)
    {
      if i > 0 {
        FirstFromSuffix(conns[1..], i - 1, a, b);
      }
    }

    function GetAllRooms(): (rs: seq<Room>)
      reads this
      requires Valid()
      ensures |rs| == |rooms.keys|
      ensures forall i | 0 <= i < |rs| :: rs[i] == rooms.entries[rooms.keys[i]]
    {
      rooms.Values()
    }

    /** get_rooms_by_floor: exactly the rooms on that floor, in insertion order. */
    function GetRoomsByFloor(floor: int): (rs: seq<Room>)
      reads this
      requires Valid()
      ensures forall r :: r in rs <==> r in rooms.entries.Values && r.floor == floor
    {
      ValuesAreEntries();
      FilterRooms(rooms.Values(), (r: Room) => r.floor == floor)
    }

    /** get_high_priority_rooms: exactly the rooms with priority at least 2. */
    function GetHighPriorityRooms(): (rs: seq<Room>)
      reads this
      requires Valid()
      ensures forall r :: r in rs <==> r in rooms.entries.Values && r.priority >= 2
    {
      ValuesAreEntries();
      FilterRooms(rooms.Values(), (r: Room) => r.priority >= 2)
    }

    lemma {:induction false} ValuesAreEntries()
      requires Valid()
      ensures forall r :: r in rooms.Values() <==> r in rooms.entries.Values
    {
      forall r | r in rooms.entries.Values ensures r in rooms.Values() {
        var k :| k in rooms.entries && rooms.entries[k] == r;
        var i := KeyIndex(rooms, k);
        assert rooms.Values()[i] == r;
      }
    }

    /** reset_clearance: every room uncleared, nothing else in the building touched. */
    method ResetClearance()
      requires Valid()
      modifies this`rooms
      ensures Valid()
      ensures rooms.keys == old(rooms.keys) && rooms.entries.Keys == old(rooms.entries.Keys)
      ensures forall k | k in rooms.entries :: rooms.entries[k] == old(rooms.entries[k]).Uncleared()
    {
      ghost var orig := rooms;
      var i := 0;
      while i < |rooms.keys|
        invariant 0 <= i <= |rooms.keys|
        invariant rooms.keys == orig.keys && rooms.entries.Keys == orig.entries.Keys
        invariant forall k | k in rooms.entries ::
                    rooms.entries[k] == if k in orig.keys[..i] then orig.entries[k].Uncleared() else orig.entries[k]
      {
        var k := rooms.keys[i];
        assert orig.keys[..i + 1] == orig.keys[..i] + [k];
        rooms := rooms.Put(k, rooms.entries[k].Uncleared());
        i := i + 1;
      }
      assert orig.keys[..i] == orig.keys;
    }
  }

  // ---------------------------------------------------------------------------
  // Building.create_simple

  function SimpleRoomId(i: nat): string {
    "R" + NatToString(i + 1)
  }

  lemma {:induction false} SimpleRoomIdsDistinct(i: nat, j: nat)
    requires i != j
    ensures SimpleRoomId(i) != SimpleRoomId(j)
  {
    PrefixedNumbersDistinct("R", i + 1, j + 1);
  }

  /** The rooms of the two-sided layout: R1..Rk at x = 5, then R(k+1)..R(2k) at x = 25. */
  function SimpleRoom(i: nat, perSide: nat, roomSize: real, corridorLength: real): Room
    requires i < 2 * perSide
  {
    var spacing := corridorLength / ((perSide + 1) as real);
    var side := if i < perSide then i else i - perSide;
    NewRoom(SimpleRoomId(i), roomSize, Point(if i < perSide then 5.0 else 25.0, spacing * ((side + 1) as real)),
            1, "office", 0, 1, 1.0)
  }

  /** The connections create_simple adds: every room to the corridor, then the corridor to both exits. */
  function SimpleConnections(ids: seq<string>): seq<Connection> {
    if ids == [] then
      [Connection("C_main", "E1", 0.0), Connection("E1", "C_main", 0.0),
       Connection("C_main", "E2", 0.0), Connection("E2", "C_main", 0.0)]
    else [Connection(ids[0], "C_main", 12.0), Connection("C_main", ids[0], 12.0)] + SimpleConnections(ids[1..])
  }

  /** The first `count` rooms of the two-sided layout are in place, in order. */
  ghost predicate SimpleRoomsUpTo(rooms: Dict<Room>, count: nat, perSide: nat, roomSize: real, corridorLength: real)
  {
    && |rooms.keys| == count
    && count <= 2 * perSide
    && forall i | 0 <= i < count :: rooms.keys[i] == SimpleRoomId(i) && SimpleRoomId(i) in rooms.entries
          && rooms.entries[SimpleRoomId(i)] == SimpleRoom(i, perSide, roomSize, corridorLength)
  }

  ghost predicate IsSimpleLayout(b: Building, perSide: nat, roomSize: real, corridorLength: real)
    reads b
  {
    && SimpleRoomsUpTo(b.rooms, 2 * perSide, perSide, roomSize, corridorLength)
    && b.corridors.keys == ["C_main"] && "C_main" in b.corridors.entries
    && b.corridors.entries["C_main"] == Corridor("C_main", Point(15.0, 0.0), Point(15.0, corridorLength), 1, 2.0, Abs(corridorLength))
    && b.exits.keys == ["E1", "E2"] && "E1" in b.exits.entries && "E2" in b.exits.entries
    && b.exits.entries["E1"] == Exit("E1", Point(15.0, 0.0), 1)
    && b.exits.entries["E2"] == Exit("E2", Point(15.0, corridorLength), 1)
    && b.stairs.keys == []
    && b.connections == SimpleConnections(b.rooms.keys)
  }

  /** create_simple. The two-sided layout has 2 * (nRooms // 2) rooms on one floor, one
      corridor and the exits E1 and E2; any other layout name yields an empty building. */
  method NewSimpleBuilding(nRooms: nat, layout: string, roomSize: real, corridorLength: real) returns (b: Building)
    ensures fresh(b) && b.Valid() && b.nFloors == 1
    ensures layout == "two_sided_corridor" ==> IsSimpleLayout(b, nRooms / 2, roomSize, corridorLength)
    ensures layout != "two_sided_corridor" ==>
      b.rooms.keys == [] && b.corridors.keys == [] && b.exits.keys == [] && b.connections == []
  {
    b := new Building("Simple", 1);
    if layout == "two_sided_corridor" {
      BuildTwoSided(b, nRooms / 2, roomSize, corridorLength);
    }
  }

  method BuildTwoSided(b: Building, perSide: nat, roomSize: real, corridorLength: real)
    requires b.Valid()
    requires b.rooms.keys == [] && b.corridors.keys == [] && b.exits.keys == [] && b.stairs.keys == [] && b.connections == []
    modifies b`rooms, b`corridors, b`exits, b`connections
    ensures b.Valid() && IsSimpleLayout(b, perSide, roomSize, corridorLength)
  {
    AddSimpleRooms(b, perSide, roomSize, corridorLength);
    AddSimpleCorridor(b, corridorLength);
    AddSimpleConnections(b, perSide, roomSize, corridorLength);
  }

  /** The room-to-corridor connections, then the corridor's two exits at distance 0. */
  method AddSimpleConnections(b: Building, perSide: nat, roomSize: real, corridorLength: real)
    requires b.Valid() && b.connections == [] && SimpleRoomsUpTo(b.rooms, 2 * perSide, perSide, roomSize, corridorLength)
    modifies b`connections
    ensures b.Valid() && b.connections == SimpleConnections(b.rooms.keys)
  {
    ConnectSimpleRooms(b, perSide, roomSize, corridorLength);
    ghost var roomLinks := b.connections;
    b.AddConnection("C_main", "E1", 0.0);
    b.AddConnection("C_main", "E2", 0.0);
    assert b.connections == roomLinks + SimpleConnections([]);
  }

  /** The main corridor along x = 15 and an exit at each of its ends. */
  method AddSimpleCorridor(b: Building, corridorLength: real)
    requires b.Valid() && b.corridors.keys == [] && b.exits.keys == []
    modifies b`corridors, b`exits
    ensures b.Valid()
    ensures b.corridors.keys == ["C_main"] && "C_main" in b.corridors.entries
    ensures b.corridors.entries["C_main"] == Corridor("C_main", Point(15.0, 0.0), Point(15.0, corridorLength), 1, 2.0, Abs(corridorLength))
    ensures b.exits.keys == ["E1", "E2"] && "E1" in b.exits.entries && "E2" in b.exits.entries
    ensures b.exits.entries["E1"] == Exit("E1", Point(15.0, 0.0), 1)
    ensures b.exits.entries["E2"] == Exit("E2", Point(15.0, corridorLength), 1)
  {
    b.AddCorridor("C_main", Point(15.0, 0.0), Point(15.0, corridorLength), 1, 2.0, Abs(corridorLength));
    b.AddExit("E1", Point(15.0, 0.0), 1);
    b.AddExit("E2", Point(15.0, corridorLength), 1);
  }

  /** The two room loops of create_simple: the left side at x = 5, then the right side at x = 25. */
  method AddSimpleRooms(b: Building, perSide: nat, roomSize: real, corridorLength: real)
    requires b.Valid() && b.rooms.keys == []
    modifies b`rooms
    ensures b.Valid() && SimpleRoomsUpTo(b.rooms, 2 * perSide, perSide, roomSize, corridorLength)
  {
    AddSimpleSide(b, 0, perSide, roomSize, corridorLength);
    AddSimpleSide(b, perSide, perSide, roomSize, corridorLength);
  }

  method AddSimpleSide(b: Building, first: nat, perSide: nat, roomSize: real, corridorLength: real)
    requires first + perSide <= 2 * perSide
    requires b.Valid() && SimpleRoomsUpTo(b.rooms, first, perSide, roomSize, corridorLength)
    modifies b`rooms
    ensures b.Valid() && SimpleRoomsUpTo(b.rooms, first + perSide, perSide, roomSize, corridorLength)
  {
    var i := 0;
    while i < perSide
      invariant 0 <= i <= perSide
      invariant b.Valid() && SimpleRoomsUpTo(b.rooms, first + i, perSide, roomSize, corridorLength)
    {
      var room := SimpleRoom(first + i, perSide, roomSize, corridorLength);
      SimpleRoomsStep(b.rooms, first + i, perSide, roomSize, corridorLength);
      b.AddRoom(room);
      i := i + 1;
    }
  }

  lemma {:induction false} SimpleRoomsStep(rooms: Dict<Room>, count: nat, perSide: nat, roomSize: real, corridorLength: real)
    requires count < 2 * perSide
    requires rooms.Valid() && SimpleRoomsUpTo(rooms, count, perSide, roomSize, corridorLength)
    ensures SimpleRoomId(count) !in rooms.entries
    ensures SimpleRoomsUpTo(rooms.Put(SimpleRoomId(count), SimpleRoom(count, perSide, roomSize, corridorLength)),
                            count + 1, perSide, roomSize, corridorLength)
  {
    NewIdIsNew(rooms, count);
  }

  /** The connection loop of create_simple: each room to the corridor at |x - 15| + 2, which is 12 on both sides. */
  method ConnectSimpleRooms(b: Building, perSide: nat, roomSize: real, corridorLength: real)
    requires b.Valid() && b.connections == [] && SimpleRoomsUpTo(b.rooms, 2 * perSide, perSide, roomSize, corridorLength)
    modifies b`connections
    ensures b.Valid() && b.connections + SimpleConnections([]) == SimpleConnections(b.rooms.keys)
  {
    var values := b.rooms.Values();
    ghost var ids := b.rooms.keys;
    var i := 0;
    while i < |values|
      invariant 0 <= i <= |values| == 2 * perSide
      invariant b.Valid() && values == b.rooms.Values() && ids == b.rooms.keys
      invariant SimpleRoomsUpTo(b.rooms, 2 * perSide, perSide, roomSize, corridorLength)
      invariant b.connections + SimpleConnections(ids[i..]) == SimpleConnections(ids)
    {
      ConnectSimpleRoom(b, values[i], i, perSide, roomSize, corridorLength);
      i := i + 1;
    }
    assert ids[|values|..] == [];
  }

  /** One pass of the connection loop: the i-th room joined to the main corridor. */
  method ConnectSimpleRoom(b: Building, room: Room, i: nat, perSide: nat, roomSize: real, corridorLength: real)
    requires b.Valid() && i < 2 * perSide && SimpleRoomsUpTo(b.rooms, 2 * perSide, perSide, roomSize, corridorLength)
    requires room == b.rooms.Values()[i]
    requires b.connections + SimpleConnections(b.rooms.keys[i..]) == SimpleConnections(b.rooms.keys)
    modifies b`connections
    ensures b.Valid() && b.connections + SimpleConnections(b.rooms.keys[i + 1..]) == SimpleConnections(b.rooms.keys)
  {
    assert room == SimpleRoom(i, perSide, roomSize, corridorLength);
    SimpleRoomFacts(i, perSide, roomSize, corridorLength);
    SimpleConnectionsStep(b.rooms.keys, i, b.connections);
    b.AddConnection(room.id, "C_main", Abs(room.position.x - 15.0) + 2.0);
  }

  lemma {:induction false} SimpleRoomFacts(i: nat, perSide: nat, roomSize: real, corridorLength: real)
    requires i < 2 * perSide
    ensures SimpleRoom(i, perSide, roomSize, corridorLength).id == SimpleRoomId(i)
    ensures Abs(SimpleRoom(i, perSide, roomSize, corridorLength).position.x - 15.0) + 2.0 == 12.0
  {
  }

  lemma {:induction false} SimpleConnectionsStep(ids: seq<string>, i: nat, done: seq<Connection>)
    requires i < |ids| && done + SimpleConnections(ids[i..]) == SimpleConnections(ids)
    ensures done + [Connection(ids[i], "C_main", 12.0), Connection("C_main", ids[i], 12.0)]
            + SimpleConnections(ids[i + 1..]) == SimpleConnections(ids)
  {
    var t := ids[i..];
    var pair := [Connection(ids[i], "C_main", 12.0), Connection("C_main", ids[i], 12.0)];
    assert t[1..] == ids[i + 1..];
    assert SimpleConnections(t) == pair + SimpleConnections(ids[i + 1..]);
    assert done + pair + SimpleConnections(ids[i + 1..]) == done + (pair + SimpleConnections(ids[i + 1..]));
  }

  lemma {:induction false} NewIdIsNew(rooms: Dict<Room>, i: nat)
    requires rooms.Valid() && |rooms.keys| == i
    requires forall j | 0 <= j < i :: rooms.keys[j] == SimpleRoomId(j)
    ensures SimpleRoomId(i) !in rooms.entries
  {
    if SimpleRoomId(i) in rooms.entries {
      var j := KeyIndex(rooms, SimpleRoomId(i));
      SimpleRoomIdsDistinct(i, j);
    }
  }
}
