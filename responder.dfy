/** src/models/responder.py: a responder walks from location to location, checks rooms
    and keeps a timeline of what it did; a team numbers its responders 1..n. */
module Responders {
  import opened Common
  import opened Facility

  /** What a timeline entry records, with the extra key it carries. */
  datatype Action =
    | Start
    | Arrive(travelTime: Option<real>)   // 'arrive'; move_to adds 'travel_time', the node simulator does not
    | ArriveRoom                         // 'arrive_room', written by the detailed simulator
    | Passing(nodeType: string)          // 'passing', written by the node and detailed simulators
    | CheckComplete(checkTime: real)     // 'check_complete'

  datatype Event = Event(time: real, action: Action, location: string)

  function StartEvent(location: string): Event {
    Event(0.0, Start, location)
  }

  /** Timestamps never go down and none is later than `now`. */
  ghost predicate Chronological(timeline: seq<Event>, now: real) {
    && (forall i, j | 0 <= i < j < |timeline| :: timeline[i].time <= timeline[j].time)
    && (forall i | 0 <= i < |timeline| :: timeline[i].time <= now)
  }

  /** The timestamps are in order and the newest one is the current time. */
  ghost predicate SettledTimeline(timeline: seq<Event>, now: real) {
    && |timeline| >= 1
    && Chronological(timeline, now)
    && timeline[|timeline| - 1].time == now
  }

  /** Appending an event stamped no earlier than anything before keeps the timeline in order. */
  lemma {:induction false} ChronologicalExtend(timeline: seq<Event>, now: real, e: Event, later: real)
    requires Chronological(timeline, now) && now <= e.time <= later
    ensures Chronological(timeline + [e], later)
  {
  }

  lemma {:induction false} SettledExtend(timeline: seq<Event>, now: real, e: Event)
    requires Chronological(timeline, now) && now <= e.time
    ensures SettledTimeline(timeline + [e], e.time)
  {
    ChronologicalExtend(timeline, now, e, e.time);
  }

  /** The travel time an event carries, or 0 when it carries none. */
  function TravelTimeOf(e: Event): real {
    if e.action.Arrive? && e.action.travelTime.Some? then e.action.travelTime.value else 0.0
  }

  /** get_total_distance: the sum of travel_time * walk_speed over the events that carry travel_time. */
  function TravelDistance(timeline: seq<Event>, walkSpeed: real): real {
    if timeline == [] then 0.0
    else TravelDistance(timeline[..|timeline| - 1], walkSpeed) + TravelTimeOf(timeline[|timeline| - 1]) * walkSpeed
  }

  lemma {:induction false} TravelDistanceAppend(timeline: seq<Event>, e: Event, walkSpeed: real)
    ensures TravelDistance(timeline + [e], walkSpeed) == TravelDistance(timeline, walkSpeed) + TravelTimeOf(e) * walkSpeed
  {
    assert (timeline + [e])[..|timeline|] == timeline;
  }

  /** A walking move of d metres adds exactly d to the distance estimate. */
  lemma {:induction false} WalkAddsDistance(timeline: seq<Event>, location: string, d: real, walkSpeed: real, time: real)
    requires walkSpeed != 0.0
    ensures TravelDistance(timeline + [Event(time, Arrive(Some(d / walkSpeed)), location)], walkSpeed)
         == TravelDistance(timeline, walkSpeed) + d
  {
    TravelDistanceAppend(timeline, Event(time, Arrive(Some(d / walkSpeed)), location), walkSpeed);
  }

  /** Events without travel_time ('start', 'passing', 'check_complete', ...) add nothing. */
  lemma {:induction false} UntimedEventAddsNothing(timeline: seq<Event>, e: Event, walkSpeed: real)
    requires !e.action.Arrive? || e.action.travelTime.None?
    ensures TravelDistance(timeline + [e], walkSpeed) == TravelDistance(timeline, walkSpeed)
  {
    TravelDistanceAppend(timeline, e, walkSpeed);
  }

  lemma {:induction false} TravelDistanceNonNegative(timeline: seq<Event>, walkSpeed: real)
    requires walkSpeed >= 0.0
    requires forall i | 0 <= i < |timeline| :: TravelTimeOf(timeline[i]) >= 0.0
    ensures TravelDistance(timeline, walkSpeed) >= 0.0
  {
    if timeline != [] {
      TravelDistanceNonNegative(timeline[..|timeline| - 1], walkSpeed);
      assert TravelTimeOf(timeline[|timeline| - 1]) * walkSpeed >= 0.0;
    }
  }

  class Responder {
    const id: int
    const initialPosition: string
    const walkSpeed: real
    const stairUpSpeed: real
    const stairDownSpeed: real
    const checkRate: real
    const baseCheckTime: real
    var position: string
    var path: seq<string>
    var timeline: seq<Event>
    var currentTime: real
    var roomsChecked: seq<string>
    /** Attributes the node simulator attaches; empty until it does. */
    var detailedPathNodes: seq<string>
    var detailedPathPositions: seq<Point>

    /** The state __init__ and reset leave behind. */
    ghost predicate AtStart()
      reads this
    {
      && position == initialPosition
      && path == [initialPosition]
      && timeline == [StartEvent(initialPosition)]
      && currentTime == 0.0
      && roomsChecked == []
    }

    /** Speeds are positive and check parameters non-negative. */
    predicate Capable() {
      walkSpeed > 0.0 && stairUpSpeed > 0.0 && stairDownSpeed > 0.0 && checkRate >= 0.0 && baseCheckTime >= 0.0
    }

    constructor (id: int, initialPosition: string, walkSpeed: real, stairUpSpeed: real,
                 stairDownSpeed: real, checkRate: real, baseCheckTime: real)
      ensures this.id == id && this.initialPosition == initialPosition
      ensures this.walkSpeed == walkSpeed && this.stairUpSpeed == stairUpSpeed && this.stairDownSpeed == stairDownSpeed
      ensures this.checkRate == checkRate && this.baseCheckTime == baseCheckTime
      ensures AtStart() && detailedPathNodes == [] && detailedPathPositions == []
    {
      this.id := id;
      this.initialPosition := initialPosition;
      this.walkSpeed := walkSpeed;
      this.stairUpSpeed := stairUpSpeed;
      this.stairDownSpeed := stairDownSpeed;
      this.checkRate := checkRate;
      this.baseCheckTime := baseCheckTime;
      position := initialPosition;
      path := [initialPosition];
      timeline := [StartEvent(initialPosition)];
      currentTime := 0.0;
      roomsChecked := [];
      detailedPathNodes := [];
      detailedPathPositions := [];
    }

    /** The speed move_to divides by: stairs up when floor_change > 0, stairs down otherwise
        (floor_change = 0 included), walking when not on stairs. */
    function SpeedFor(isStairs: bool, floorChange: int): (s: real)
      ensures !isStairs ==> s == walkSpeed
      ensures isStairs && floorChange > 0 ==> s == stairUpSpeed
      ensures isStairs && floorChange <= 0 ==> s == stairDownSpeed
      ensures Capable() ==> s > 0.0
    {
      if isStairs then (if floorChange > 0 then stairUpSpeed else stairDownSpeed) else walkSpeed
    }

    /** move_to: the clock advances by distance / speed; the target becomes the position, the
        end of the path, and the location of one new 'arrive' event at the new time. */
    method MoveTo(location: string, distance: real, isStairs: bool, floorChange: int)
      requires SpeedFor(isStairs, floorChange) != 0.0
      modifies this
      ensures currentTime == old(currentTime) + distance / SpeedFor(isStairs, floorChange)
      ensures position == location && path == old(path) + [location]
      ensures timeline == old(timeline) + [Event(currentTime, Arrive(Some(distance / SpeedFor(isStairs, floorChange))), location)]
      ensures roomsChecked == old(roomsChecked)
      ensures detailedPathNodes == old(detailedPathNodes) && detailedPathPositions == old(detailedPathPositions)
      ensures Capable() && distance >= 0.0 && old(Chronological(timeline, currentTime)) ==>
                SettledTimeline(timeline, currentTime) && currentTime >= old(currentTime)
    {
      var travelTime := distance / SpeedFor(isStairs, floorChange);
      ghost var before := currentTime;
      currentTime := currentTime + travelTime;
      position := location;
      path := path + [location];
      if Capable() && distance >= 0.0 && Chronological(timeline, before) {
        SettledExtend(timeline, before, Event(currentTime, Arrive(Some(travelTime)), location));
      }
      timeline := timeline + [Event(currentTime, Arrive(Some(travelTime)), location)];
    }

    /** check_room: the clock advances by the room's check time; the room id is recorded and
        the returned room is the given one, cleared at the new time by this responder. */
    method CheckRoom(room: Room) returns (checked: Room)
      modifies this
      ensures currentTime == old(currentTime) + room.CheckTime(baseCheckTime, checkRate)
      ensures roomsChecked == old(roomsChecked) + [room.id]
      ensures checked == room.(cleared := true, clearedAt := Some(currentTime), clearedBy := Some(id))
      ensures timeline == old(timeline) + [Event(currentTime, CheckComplete(room.CheckTime(baseCheckTime, checkRate)), room.id)]
      ensures position == old(position) && path == old(path)
      ensures detailedPathNodes == old(detailedPathNodes) && detailedPathPositions == old(detailedPathPositions)
      ensures Capable() && room.Sane() && old(Chronological(timeline, currentTime)) ==>
                SettledTimeline(timeline, currentTime) && currentTime >= old(currentTime)
    {
      var checkTime := room.CheckTime(baseCheckTime, checkRate);
      ghost var before := currentTime;
      currentTime := currentTime + checkTime;
      roomsChecked := roomsChecked + [room.id];
      checked := room.(cleared := true, clearedAt := Some(currentTime), clearedBy := Some(id));
      if Capable() && room.Sane() && Chronological(timeline, before) {
        SettledExtend(timeline, before, Event(currentTime, CheckComplete(checkTime), room.id));
      }
      timeline := timeline + [Event(currentTime, CheckComplete(checkTime), room.id)];
    }

    /** reset: back to the starting state; the node simulator's detailed paths are left alone. */
    method Reset()
      modifies this
      ensures AtStart() && SettledTimeline(timeline, currentTime)
      ensures detailedPathNodes == old(detailedPathNodes) && detailedPathPositions == old(detailedPathPositions)
    {
      position := initialPosition;
      path := [initialPosition];
      timeline := [StartEvent(initialPosition)];
      currentTime := 0.0;
      roomsChecked := [];
    }

    /** get_total_distance: the loop over the timeline. */
    method GetTotalDistance() returns (total: real)
      ensures total == TravelDistance(timeline, walkSpeed)
    {
      total := 0.0;
      var i := 0;
      while i < |timeline|
        invariant 0 <= i <= |timeline|
        invariant total == TravelDistance(timeline[..i], walkSpeed)
      {
        var event := timeline[i];
        assert timeline[..i + 1][..i] == timeline[..i];
        if event.action.Arrive? && event.action.travelTime.Some? {
          total := total + event.action.travelTime.value * walkSpeed;
        }
        i := i + 1;
      }
      assert timeline[..i] == timeline;
    }
  }

  // ---------------------------------------------------------------------------
  // ResponderTeam

  /** The starting positions the team constructor uses: all 'E1' when none are given,
      the given list padded with 'E1' when it is too short, the given list otherwise. */
  function PaddedPositions(n: int, given: Option<seq<string>>): (ps: seq<string>)
    ensures n >= 0 ==> |ps| >= n
    ensures given.None? && n >= 0 ==> ps == Repeat("E1", n)
    ensures given.Some? ==> |ps| >= |given.value| && ps[..|given.value|] == given.value
    ensures given.Some? ==> forall i | |given.value| <= i < |ps| :: ps[i] == "E1"
  {
    match given
    case None => if n <= 0 then [] else Repeat("E1", n)
    case Some(ps) => if |ps| < n then ps + Repeat("E1", n - |ps|) else ps
  }

  /** A capability's given value, or its default when it is not given. */
  function CapabilityOr(capabilities: map<string, real>, key: string, default: real): (v: real)
    ensures key in capabilities ==> v == capabilities[key]
    ensures key !in capabilities ==> v == default
  {
    if key in capabilities then capabilities[key] else default
  }

  function TimesOf(rs: seq<Responder>): (ts: seq<real>)
    reads set r | r in rs
    ensures |ts| == |rs| && forall i | 0 <= i < |rs| :: ts[i] == rs[i].currentTime
  {
    if rs == [] then [] else [rs[0].currentTime] + TimesOf(rs[1..])
  }

  function DistancesOf(rs: seq<Responder>): (ds: seq<real>)
    reads set r | r in rs
    ensures |ds| == |rs| && forall i | 0 <= i < |rs| :: ds[i] == TravelDistance(rs[i].timeline, rs[i].walkSpeed)
  {
    if rs == [] then [] else [TravelDistance(rs[0].timeline, rs[0].walkSpeed)] + DistancesOf(rs[1..])
  }

  class ResponderTeam {
    const responders: seq<Responder>

    /** Responder i (0-based) has id i + 1. */
    predicate Numbered() {
      forall i | 0 <= i < |responders| :: responders[i].id == i + 1
    }

    /** The team as __init__ builds it, for n responders at the given positions. */
    ghost predicate BuiltFrom(n: int, positions: seq<string>, capabilities: map<string, real>)
      reads set r | r in responders
    {
      && |responders| == (if n <= 0 then 0 else n)
      && |positions| >= |responders|
      && Numbered()
      && forall i | 0 <= i < |responders| ::
           && responders[i].initialPosition == positions[i]
           && responders[i].walkSpeed == CapabilityOr(capabilities, "walk_speed", 1.5)
           && responders[i].stairUpSpeed == CapabilityOr(capabilities, "stair_up_speed", 0.4)
           && responders[i].stairDownSpeed == CapabilityOr(capabilities, "stair_down_speed", 0.7)
           && responders[i].checkRate == CapabilityOr(capabilities, "check_rate", 1.0)
           && responders[i].baseCheckTime == CapabilityOr(capabilities, "base_check_time", 10.0)
           && responders[i].AtStart()
    }

    constructor (n: int, initialPositions: Option<seq<string>>, capabilities: map<string, real>)
      ensures BuiltFrom(n, PaddedPositions(n, initialPositions), capabilities)
      ensures forall r | r in responders :: fresh(r)
    {
      var positions := PaddedPositions(n, initialPositions);
      var rs: seq<Responder> := [];
      var i := 0;
      while i < n
        invariant 0 <= i && (n > 0 ==> i <= n) && (n <= 0 ==> i == 0) && |rs| == i && i <= |positions|
        invariant forall j | 0 <= j < i :: fresh(rs[j])
        invariant forall j | 0 <= j < i ::
           && rs[j].id == j + 1
           && rs[j].initialPosition == positions[j]
           && rs[j].walkSpeed == CapabilityOr(capabilities, "walk_speed", 1.5)
           && rs[j].stairUpSpeed == CapabilityOr(capabilities, "stair_up_speed", 0.4)
           && rs[j].stairDownSpeed == CapabilityOr(capabilities, "stair_down_speed", 0.7)
           && rs[j].checkRate == CapabilityOr(capabilities, "check_rate", 1.0)
           && rs[j].baseCheckTime == CapabilityOr(capabilities, "base_check_time", 10.0)
           && rs[j].AtStart()
      {
        var r := new Responder(i + 1, positions[i],
                               CapabilityOr(capabilities, "walk_speed", 1.5),
                               CapabilityOr(capabilities, "stair_up_speed", 0.4),
                               CapabilityOr(capabilities, "stair_down_speed", 0.7),
                               CapabilityOr(capabilities, "check_rate", 1.0),
                               CapabilityOr(capabilities, "base_check_time", 10.0));
        rs := rs + [r];
        i := i + 1;
      }
      responders := rs;
    }

    /** get_responder: the first responder with that id, or ValueError. */
    method GetResponder(responderId: int) returns (r: Result<Responder>)
      ensures r.Ok? <==> exists i | 0 <= i < |responders| :: responders[i].id == responderId
      ensures r.Ok? ==> exists i | 0 <= i < |responders| :: responders[i] == r.value
                          && responders[i].id == responderId
                          && forall j | 0 <= j < i :: responders[j].id != responderId
      ensures r.Err? ==> r.error == ResponderNotFound(responderId)
    {
      var i := 0;
      while i < |responders|
        invariant 0 <= i <= |responders|
        invariant forall j | 0 <= j < i :: responders[j].id != responderId
      {
        if responders[i].id == responderId {
          return Ok(responders[i]);
        }
        i := i + 1;
      }
      return Err(ResponderNotFound(responderId));
    }

    /** With ids 1..n, an id is found exactly when it is in 1..n, at position id - 1. */
    lemma {:induction false} NumberedLookup(responderId: int)
      requires Numbered()
      ensures (exists i | 0 <= i < |responders| :: responders[i].id == responderId) <==> 1 <= responderId <= |responders|
      ensures forall i | 0 <= i < |responders| && responders[i].id == responderId :: i == responderId - 1
    {
      if 1 <= responderId <= |responders| {
        assert responders[responderId - 1].id == responderId;
      }
    }

    /** reset_all */
    method ResetAll()
      modifies set r | r in responders
      ensures forall r | r in responders :: r.AtStart()
      ensures forall r | r in responders :: r.detailedPathNodes == old(r.detailedPathNodes)
                                         && r.detailedPathPositions == old(r.detailedPathPositions)
    {
      var i := 0;
      while i < |responders|
        invariant 0 <= i <= |responders|
        invariant forall j | 0 <= j < i :: responders[j].AtStart()
        invariant forall r | r in responders :: r.detailedPathNodes == old(r.detailedPathNodes)
                                              && r.detailedPathPositions == old(r.detailedPathPositions)
      {
        responders[i].Reset();
        i := i + 1;
      }
    }

    /** get_max_time: the largest current time; max() of an empty team raises. */
    function GetMaxTime(): (m: Result<real>)
      reads set r | r in responders
      ensures m.Ok? <==> |responders| > 0
      ensures m.Ok? ==> forall i | 0 <= i < |responders| :: responders[i].currentTime <= m.value
      ensures m.Ok? ==> exists i | 0 <= i < |responders| :: responders[i].currentTime == m.value
    {
      Max(TimesOf(responders))
    }

    /** get_total_distance of the team: the sum of every responder's estimate. */
    method GetTotalDistance() returns (total: real)
      ensures total == Sum(DistancesOf(responders))
    {
      ghost var ds := DistancesOf(responders);
      total := 0.0;
      var i := 0;
      while i < |responders|
        invariant 0 <= i <= |responders|
        invariant total == Sum(ds[..i])
      {
        var d := responders[i].GetTotalDistance();
        SumAppend(ds[..i], d);
        assert ds[..i + 1] == ds[..i] + [d];
        total := total + d;
        i := i + 1;
      }
      assert ds[..i] == ds;
    }
  }
}
