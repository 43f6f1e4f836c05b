/** What the three simulators (src/algorithms/simulator.py, node_simulator.py and
    detailed_simulator.py) share: the state a responder's sweep changes, the team loop of
    run(), and the parts of _collect_results that the three compute the same way. */
module Outcomes {
  import opened Common
  import opened Dicts
  import opened Facility
  import opened Responders

  /** The fields of a Responder that a sweep changes. */
  datatype Walker = Walker(position: string, path: seq<string>, timeline: seq<Event>, time: real, checked: seq<string>)

  /** A sweep under way: the location the next path starts from (`current_location`),
      the responder's state, and the building's rooms. */
  datatype Progress = Progress(at: string, walker: Walker, rooms: Dict<Room>)

  /** The state reset() leaves a responder in. */
  function StartOf(r: Responder): (w: Walker)
    ensures w.checked == [] && w.time == 0.0 && SettledTimeline(w.timeline, w.time)
  {
    Walker(r.initialPosition, [r.initialPosition], [StartEvent(r.initialPosition)], 0.0, [])
  }

  ghost function StateOf(r: Responder): Walker
    reads r
  {
    Walker(r.position, r.path, r.timeline, r.currentTime, r.roomsChecked)
  }

  ghost function StatesOf(rs: seq<Responder>): (ws: seq<Walker>)
    reads set r | r in rs
    ensures |ws| == |rs| && forall i | 0 <= i < |rs| :: ws[i] == StateOf(rs[i])
  {
    if rs == [] then [] else [StateOf(rs[0])] + StatesOf(rs[1..])
  }

  lemma {:induction false} StartState(r: Responder)
    requires r.AtStart()
    ensures StateOf(r) == StartOf(r)
  {
  }

  // ---------------------------------------------------------------------------
  // Rooms

  /** The rooms' check parameters are never negative. */
  ghost predicate SaneRooms(rooms: Dict<Room>) {
    forall k | k in rooms.entries :: rooms.entries[k].Sane()
  }

  /** The room marked cleared, at the given time, by the given responder. */
  function Cleared(room: Room, time: real, who: int): (c: Room)
    ensures c.id == room.id && c.cleared && c.clearedAt == Some(time) && c.clearedBy == Some(who)
  {
    room.(cleared := true, clearedAt := Some(time), clearedBy := Some(who))
  }

  /** A room object changed in place: the dictionary keeps its keys and their order. */
  function Store(rooms: Dict<Room>, k: string, room: Room): (d: Dict<Room>)
    ensures d.keys == rooms.keys && d.entries == rooms.entries[k := room]
    ensures rooms.Valid() && k in rooms.entries ==> d.Valid() && d == rooms.Put(k, room)
  {
    Dict(rooms.keys, rooms.entries[k := room])
  }

  /** reset_clearance as a function of the rooms. */
  function ResetRooms(rooms: Dict<Room>): (d: Dict<Room>)
    ensures d.keys == rooms.keys && d.entries.Keys == rooms.entries.Keys
    ensures forall k | k in d.entries :: d.entries[k] == rooms.entries[k].Uncleared()
    ensures rooms.Valid() ==> d.Valid()
  {
    Dict(rooms.keys, map k | k in rooms.entries :: rooms.entries[k].Uncleared())
  }

  /** A sweep clears the rooms it checks and nothing else: the dictionary keeps its keys,
      every checked id is one of them, and a room is cleared afterwards exactly when it
      was cleared before or was checked. */
  ghost predicate ClearsChecked(before: Dict<Room>, after: Dict<Room>, checked: seq<string>) {
    && after.keys == before.keys && after.entries.Keys == before.entries.Keys
    && (forall i | 0 <= i < |checked| :: checked[i] in before.entries)
    && (forall k | k in after.entries :: after.entries[k].cleared == (before.entries[k].cleared || k in checked))
  }

  lemma {:induction false} ClearsNothing(rooms: Dict<Room>)
    ensures ClearsChecked(rooms, rooms, [])
  {
  }

  /** Checking one more room of the dictionary. */
  lemma {:induction false} ClearsOneMore(before: Dict<Room>, after: Dict<Room>, checked: seq<string>, k: string, room: Room)
    requires ClearsChecked(before, after, checked) && k in after.entries && room.cleared
    ensures ClearsChecked(before, Store(after, k, room), checked + [k])
  {
    var d := Store(after, k, room);
    forall j | j in d.entries
      ensures d.entries[j].cleared == (before.entries[j].cleared || j in checked + [k])
    {
      if j != k {
        assert d.entries[j] == after.entries[j];
      }
    }
  }

  /** Two sweeps one after the other clear what either checked. */
  lemma {:induction false} ClearsThen(a: Dict<Room>, b: Dict<Room>, c: Dict<Room>, c1: seq<string>, c2: seq<string>)
    requires ClearsChecked(a, b, c1) && ClearsChecked(b, c, c2)
    ensures ClearsChecked(a, c, c1 + c2)
  {
    forall i | 0 <= i < |c1 + c2|
      ensures (c1 + c2)[i] in a.entries
    {
      if i >= |c1| {
        assert (c1 + c2)[i] == c2[i - |c1|];
      }
    }
  }

  /** Two sweeps in a row, the first over the head of a list and the second over its rest. */
  lemma {:induction false} JoinClears(p: Progress, v: Progress, q: Progress, ids: seq<string>, step: seq<string>, more: seq<string>)
    requires ids != []
    requires v.walker.checked == p.walker.checked + step && (step == [] || step == [ids[0]])
    requires ClearsChecked(p.rooms, v.rooms, step)
    requires q.walker.checked == v.walker.checked + more
    requires |more| <= |ids| - 1 && forall x | x in more :: x in ids[1..]
    requires ClearsChecked(v.rooms, q.rooms, more)
    ensures q.walker.checked == p.walker.checked + (step + more)
    ensures |step + more| <= |ids| && forall x | x in step + more :: x in ids
    ensures ClearsChecked(p.rooms, q.rooms, step + more)
  {
    ClearsThen(p.rooms, v.rooms, q.rooms, step, more);
    assert (p.walker.checked + step) + more == p.walker.checked + (step + more);
    forall x | x in step + more ensures x in ids {
      if x !in step {
        assert x in more && x in ids[1..];
      }
    }
  }

  // ---------------------------------------------------------------------------
  // run(): the team loop

  /** One responder's _execute_path from the state reset() leaves: the responder, the
      rooms before, and its list of room ids. */
  type Exec = (Responder, Dict<Room>, seq<string>) -> Result<Progress>

  /** The loop of run(): each responder in team order sweeps its list, and
      looking up a responder's list raises KeyError when its id is missing; the rooms carry
      over from one responder to the next. */
  function RunTeam(exec: Exec, rs: seq<Responder>, assignment: map<int, seq<string>>, rooms: Dict<Room>)
    : (r: Result<(seq<Walker>, Dict<Room>)>)
    ensures r.Ok? ==> |r.value.0| == |rs|
    decreases |rs|
  {
    if rs == [] then Ok(([], rooms))
    else if rs[0].id !in assignment then Err(KeyError)
    else
      match exec(rs[0], rooms, assignment[rs[0].id])
      case Err(e) => Err(e)
      case Ok(p) => Prepend([p.walker], RunTeam(exec, rs[1..], assignment, p.rooms))
  }

  /** The walkers of the responders already done, in front of those of the rest. */
  function Prepend(ws: seq<Walker>, r: Result<(seq<Walker>, Dict<Room>)>): (q: Result<(seq<Walker>, Dict<Room>)>)
    ensures q.Ok? <==> r.Ok?
    ensures q.Ok? ==> q.value == (ws + r.value.0, r.value.1)
    ensures q.Err? ==> q.error == r.error
  {
    match r
    case Err(e) => Err(e)
    case Ok((vs, d)) => Ok((ws + vs, d))
  }

  lemma {:induction false} PrependTwice(a: seq<Walker>, b: seq<Walker>, r: Result<(seq<Walker>, Dict<Room>)>)
    ensures Prepend(a, Prepend(b, r)) == Prepend(a + b, r)
  {
    if r.Ok? {
      assert a + (b + r.value.0) == (a + b) + r.value.0;
    }
  }

  lemma {:induction false} PrependNothing(r: Result<(seq<Walker>, Dict<Room>)>)
    ensures Prepend([], r) == r
  {
    if r.Ok? {
      assert [] + r.value.0 == r.value.0;
    }
  }

  /** A run that gets through the whole team found every responder's id in the assignment. */
  lemma {:induction false} RunTeamNeedsIds(exec: Exec, rs: seq<Responder>, assignment: map<int, seq<string>>, rooms: Dict<Room>)
    ensures RunTeam(exec, rs, assignment, rooms).Ok? ==> forall i | 0 <= i < |rs| :: rs[i].id in assignment
    decreases |rs|
  {
    if rs != [] && rs[0].id in assignment {
      var e := exec(rs[0], rooms, assignment[rs[0].id]);
      if e.Ok? {
        RunTeamNeedsIds(exec, rs[1..], assignment, e.value.rooms);
        if RunTeam(exec, rs, assignment, rooms).Ok? {
          forall i | 1 <= i < |rs| ensures rs[i].id in assignment {
            assert rs[i] == rs[1..][i - 1];
          }
        }
      }
    }
  }

  /** Every sweep of these responders clears exactly what it checks. */
  ghost predicate ClearsWhatItChecks(exec: Exec, rs: seq<Responder>) {
    forall i, d: Dict<Room>, ids: seq<string> | 0 <= i < |rs| && exec(rs[i], d, ids).Ok? ::
      ClearsChecked(d, exec(rs[i], d, ids).value.rooms, exec(rs[i], d, ids).value.walker.checked)
  }

  /** Every room id the team checked, responder after responder. */
  function AllChecked(ws: seq<Walker>): seq<string> {
    if ws == [] then [] else ws[0].checked + AllChecked(ws[1..])
  }

  lemma {:induction false} AllCheckedMembers(ws: seq<Walker>, k: string)
    ensures k in AllChecked(ws) <==> exists i | 0 <= i < |ws| :: k in ws[i].checked
  {
    if ws != [] {
      AllCheckedMembers(ws[1..], k);
      if k in AllChecked(ws[1..]) {
        var i :| 0 <= i < |ws[1..]| && k in ws[1..][i].checked;
        assert k in ws[i + 1].checked;
      }
      if exists i | 0 <= i < |ws| :: k in ws[i].checked {
        var i :| 0 <= i < |ws| && k in ws[i].checked;
        if i > 0 {
          assert ws[1..][i - 1] == ws[i];
        }
      }
    }
  }

  /** The rooms of the first i + 1 walkers are those of the first i, then walker i's. */
  lemma {:induction false} AllCheckedTake(ws: seq<Walker>, i: nat)
    requires i < |ws|
    ensures AllChecked(ws[..i + 1]) == AllChecked(ws[..i]) + ws[i].checked
  {
    assert ws[..i + 1] == ws[..i] + [ws[i]];
    AllCheckedSnoc(ws[..i], ws[i]);
  }

  lemma {:induction false} AllCheckedSnoc(ws: seq<Walker>, w: Walker)
    ensures AllChecked(ws + [w]) == AllChecked(ws) + w.checked
  {
    if ws == [] {
      assert [w][1..] == [];
    } else {
      assert (ws + [w])[1..] == ws[1..] + [w];
      AllCheckedSnoc(ws[1..], w);
    }
  }

  /** Over the whole team: the rooms keep their keys, every checked id is a room, and a
      room ends up cleared exactly when it was cleared before the run or some responder
      checked it. */
  lemma {:induction false} RunTeamClears(exec: Exec, rs: seq<Responder>, assignment: map<int, seq<string>>, rooms: Dict<Room>)
    requires ClearsWhatItChecks(exec, rs)
    ensures var r := RunTeam(exec, rs, assignment, rooms);
      r.Ok? ==> ClearsChecked(rooms, r.value.1, AllChecked(r.value.0))
    decreases |rs|
  {
    if rs == [] {
      ClearsNothing(rooms);
    } else if rs[0].id in assignment {
      var e := exec(rs[0], rooms, assignment[rs[0].id]);
      if e.Ok? {
        var p := e.value;
        var rest := RunTeam(exec, rs[1..], assignment, p.rooms);
        assert ClearsWhatItChecks(exec, rs[1..]) by {
          forall i, d: Dict<Room>, ids: seq<string> | 0 <= i < |rs[1..]| && exec(rs[1..][i], d, ids).Ok?
            ensures ClearsChecked(d, exec(rs[1..][i], d, ids).value.rooms, exec(rs[1..][i], d, ids).value.walker.checked)
          {
            assert rs[1..][i] == rs[i + 1];
          }
        }
        assert exec(rs[0], rooms, assignment[rs[0].id]) == e;
        RunTeamClears(exec, rs[1..], assignment, p.rooms);
        if rest.Ok? {
          ClearsThen(rooms, p.rooms, rest.value.1, p.walker.checked, AllChecked(rest.value.0));
          var ws := [p.walker] + rest.value.0;
          assert ws[0] == p.walker && ws[1..] == rest.value.0;
        }
      }
    }
  }

  /** After a run from reset rooms, a room is cleared exactly when some responder
      checked it. */
  lemma {:induction false} ClearedByRun(rooms: Dict<Room>, fin: Dict<Room>, ws: seq<Walker>)
    requires ClearsChecked(ResetRooms(rooms), fin, AllChecked(ws))
    ensures fin.keys == rooms.keys && fin.entries.Keys == rooms.entries.Keys
    ensures forall k | k in AllChecked(ws) :: k in fin.entries
    ensures forall k | k in fin.entries :: fin.entries[k].cleared <==> exists i | 0 <= i < |ws| :: k in ws[i].checked
  {
    var start, all := ResetRooms(rooms), AllChecked(ws);
    forall k | k in fin.entries
      ensures fin.entries[k].cleared <==> exists i | 0 <= i < |ws| :: k in ws[i].checked
    {
      assert !start.entries[k].cleared;
      AllCheckedMembers(ws, k);
    }
    forall k | k in all ensures k in fin.entries {
      var i :| 0 <= i < |all| && all[i] == k;
    }
  }

  // ---------------------------------------------------------------------------
  // _collect_results

  datatype Clearance = Clearance(cleared: bool, clearedAt: Option<real>, clearedBy: Option<int>)

  /** One entry of responder_paths. `detail` holds the node-level path and positions the
      node and detailed simulators add. */
  datatype Report = Report(
    responderId: int, path: seq<string>, timeline: seq<Event>, totalTime: real,
    roomsChecked: seq<string>, totalDistance: real, detail: Option<(seq<string>, seq<Point>)>)

  /** The metrics of a run. A load balance that is not a number is None. */
  datatype Metrics = Metrics(
    allRoomsCleared: bool, averageClearanceTime: real, loadBalance: Option<real>,
    redundancyCoverage: real, totalDistanceTraveled: real, nResponders: nat, nRooms: nat)

  datatype Results = Results(
    success: bool, totalTime: real, responderPaths: seq<Report>,
    roomClearance: Dict<Clearance>, metrics: Metrics)

  function ClearanceOf(room: Room): Clearance {
    Clearance(room.cleared, room.clearedAt, room.clearedBy)
  }

  /** room_clearance: the clearance fields of every room, under the same keys in the
      same order. */
  function ClearanceTable(rooms: Dict<Room>): (d: Dict<Clearance>)
    ensures d.keys == rooms.keys && d.entries.Keys == rooms.entries.Keys
    ensures forall k | k in d.entries :: d.entries[k] == ClearanceOf(rooms.entries[k])
    ensures rooms.Valid() ==> d.Valid()
  {
    Dict(rooms.keys, map k | k in rooms.entries :: ClearanceOf(rooms.entries[k]))
  }

  /** The loop that fills room_clearance. */
  method BuildClearanceTable(rooms: Dict<Room>) returns (d: Dict<Clearance>)
    requires rooms.Valid()
    ensures d == ClearanceTable(rooms)
  {
    d := EmptyDict();
    var i := 0;
    while i < |rooms.keys|
      invariant 0 <= i <= |rooms.keys|
      invariant d.Valid() && d.keys == rooms.keys[..i]
      invariant forall k :: k in d.entries <==> k in rooms.keys[..i]
      invariant forall k | k in d.entries :: d.entries[k] == ClearanceOf(rooms.entries[k])
    {
      var k := rooms.keys[i];
      TakeSnoc(rooms.keys, i);
      assert k !in rooms.keys[..i];
      d := d.Put(k, ClearanceOf(rooms.entries[k]));
      i := i + 1;
    }
    assert rooms.keys[..i] == rooms.keys;
    assert d.entries == ClearanceTable(rooms).entries;
  }

  /** Whether every room is cleared. */
  function AllCleared(rooms: Dict<Room>): (b: bool)
    requires rooms.Valid()
    ensures b <==> forall k | k in rooms.entries :: rooms.entries[k].cleared
  {
    forall i | 0 <= i < |rooms.keys| :: rooms.entries[rooms.keys[i]].cleared
  }

  /** The clearance times of the rooms that have one, in order. */
  function ClearanceTimes(rs: seq<Room>): (ts: seq<real>)
    ensures |ts| <= |rs|
  {
    if rs == [] then []
    else (if rs[0].clearedAt.Some? then [rs[0].clearedAt.value] else []) + ClearanceTimes(rs[1..])
  }

  /** The list holds exactly the clearance times the rooms have. */
  lemma {:induction false} ClearanceTimesMeaning(rs: seq<Room>, t: real)
    ensures t in ClearanceTimes(rs) <==> exists i | 0 <= i < |rs| :: rs[i].clearedAt == Some(t)
  {
    if rs != [] {
      ClearanceTimesMeaning(rs[1..], t);
      if exists i | 0 <= i < |rs| :: rs[i].clearedAt == Some(t) {
        var i :| 0 <= i < |rs| && rs[i].clearedAt == Some(t);
        if i > 0 {
          assert rs[1..][i - 1] == rs[i];
        }
      }
      if t in ClearanceTimes(rs[1..]) {
        var i :| 0 <= i < |rs[1..]| && rs[1..][i].clearedAt == Some(t);
        assert rs[i + 1].clearedAt == Some(t);
      }
    }
  }

  /** average_clearance_time: the mean of the clearance times, 0 when no room has one. */
  function AverageClearance(rooms: Dict<Room>): real
    requires rooms.Valid()
  {
    var ts := ClearanceTimes(rooms.Values());
    if ts == [] then 0.0 else Mean(ts)
  }

  lemma {:induction false} SumBetween(s: seq<real>, lo: real, hi: real)
    requires forall i | 0 <= i < |s| :: lo <= s[i] <= hi
    ensures |s| as real * lo <= Sum(s) <= |s| as real * hi
  {
    if s != [] {
      SumBetween(s[1..], lo, hi);
    }
  }

  lemma {:induction false} QuotientBetween(a: real, n: real, lo: real, hi: real)
    requires n > 0.0 && n * lo <= a <= n * hi
    ensures lo <= a / n <= hi
  {
  }

  /** A mean lies between any bounds of its terms. */
  lemma {:induction false} MeanBetween(s: seq<real>, lo: real, hi: real)
    requires |s| > 0 && forall i | 0 <= i < |s| :: lo <= s[i] <= hi
    ensures lo <= Mean(s) <= hi
  {
    SumBetween(s, lo, hi);
    QuotientBetween(Sum(s), |s| as real, lo, hi);
  }

  /** When every room's clearance time lies in [lo, hi] and lo <= 0 <= hi, so does the
      average (lo <= 0 covers the 0 of a building where no room was cleared). */
  lemma {:induction false} AverageClearanceBetween(rooms: Dict<Room>, lo: real, hi: real)
    requires rooms.Valid() && lo <= 0.0 <= hi
    requires forall k | k in rooms.entries && rooms.entries[k].clearedAt.Some? :: lo <= rooms.entries[k].clearedAt.value <= hi
    ensures lo <= AverageClearance(rooms) <= hi
  {
    var vs := rooms.Values();
    var ts := ClearanceTimes(vs);
    if ts != [] {
      forall i | 0 <= i < |ts| ensures lo <= ts[i] <= hi {
        ClearanceTimesMeaning(vs, ts[i]);
        var j :| 0 <= j < |vs| && vs[j].clearedAt == Some(ts[i]);
        assert vs[j] == rooms.entries[rooms.keys[j]];
      }
      MeanBetween(ts, lo, hi);
    }
  }

  /** load_balance: 1 - std/mean of the responders' times, and 1.0 for an empty team.
      np.std is the parameter `std`. A mean of 0 gives numpy's nan (None) unless the
      caller guards it (`guarded`: the node simulator, whose guard `mean > 0` gives 1.0
      for every mean that is not positive). */
  function LoadBalance(times: seq<real>, std: seq<real> -> real, guarded: bool): (lb: Option<real>)
    ensures times == [] ==> lb == Some(1.0)
    ensures lb.None? <==> !guarded && times != [] && Mean(times) == 0.0
    ensures guarded && times != [] && Mean(times) <= 0.0 ==> lb == Some(1.0)
  {
    if times == [] then Some(1.0)
    else if guarded && Mean(times) <= 0.0 then Some(1.0)
    else if Mean(times) == 0.0 then None
    else Some(1.0 - std(times) / Mean(times))
  }

  /** With a non-zero mean that the guard lets through, the balance is perfect exactly
      when the times do not spread. */
  lemma {:induction false} LoadBalanceOne(times: seq<real>, std: seq<real> -> real, guarded: bool)
    requires times != [] && Mean(times) != 0.0 && (guarded ==> Mean(times) > 0.0)
    ensures LoadBalance(times, std, guarded) == Some(1.0) <==> std(times) == 0.0
  {
    var m := Mean(times);
    if std(times) / m == 0.0 {
      assert std(times) == std(times) / m * m;
    }
  }

  function Times(ws: seq<Walker>): (ts: seq<real>)
    ensures |ts| == |ws| && forall i | 0 <= i < |ws| :: ts[i] == ws[i].time
  {
    seq(|ws|, i requires 0 <= i < |ws| => ws[i].time)
  }

  /** The team's times are the times of the responders' states. */
  lemma {:induction false} StatesAre(rs: seq<Responder>, ws: seq<Walker>)
    requires |ws| == |rs| && forall j | 0 <= j < |rs| :: StateOf(rs[j]) == ws[j]
    ensures StatesOf(rs) == ws
  {
  }

  lemma {:induction false} ResetRoomsIs(before: Dict<Room>, after: Dict<Room>)
    requires after.keys == before.keys && after.entries.Keys == before.entries.Keys
    requires forall k | k in after.entries :: after.entries[k] == before.entries[k].Uncleared()
    ensures after == ResetRooms(before)
  {
  }

  /** The distance estimate of the node and detailed sweeps: time at the walking speed. */
  function Estimates(rs: seq<Responder>, ws: seq<Walker>): (ds: seq<real>)
    requires |ws| == |rs|
    ensures |ds| == |rs| && forall i | 0 <= i < |rs| :: ds[i] == ws[i].time * rs[i].walkSpeed
  {
    seq(|ws|, i requires 0 <= i < |ws| => ws[i].time * rs[i].walkSpeed)
  }

  /** The distances the results add up: each report's 'total_distance'. */
  function ReportDistances(reports: seq<Report>): (ds: seq<real>)
    ensures |ds| == |reports| && forall i | 0 <= i < |reports| :: ds[i] == reports[i].totalDistance
  {
    seq(|reports|, i requires 0 <= i < |reports| => reports[i].totalDistance)
  }

  lemma {:induction false} TimesAgree(rs: seq<Responder>)
    ensures TimesOf(rs) == Times(StatesOf(rs))
  {
  }

  /** The lengths of a sequence without duplicates and of the set of its elements agree. */
  lemma {:induction false} DistinctCount(s: seq<string>)
    requires NoDup(s)
    ensures |set x | x in s| == |s|
  {
    if s != [] {
      NoDupCons(s);
      DistinctCount(s[1..]);
      assert (set x | x in s) == {s[0]} + (set x | x in s[1..]);
    }
  }
}
