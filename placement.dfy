/** Geometry shared by the two dense navigation graphs (src/models/node_based_building.py
    and src/models/building_v2.py): truncation to int, points along a corridor, the
    running search for the nearest candidate, and the rule that puts a room's door on
    the side facing its corridor. */
module Placement {
  import opened Common
  import opened Dicts
  import opened Facility

  /** Python's int() on a float: truncation toward zero. */
  function Trunc(x: real): (n: int)
    ensures x >= 0.0 ==> 0 <= n && n as real <= x < n as real + 1.0
    ensures x < 0.0 ==> n <= 0 && x <= n as real && (n as real) - 1.0 < x
  {
    if x >= 0.0 then x.Floor else -((-x).Floor)
  }

  /** start + t * (end - start) */
  function Lerp(start: Point, end: Point, t: real): (p: Point)
    ensures t == 0.0 ==> p == start
    ensures t == 1.0 ==> p == end
  {
    Point(start.x + t * (end.x - start.x), start.y + t * (end.y - start.y))
  }

  /** The keys, in order, whose entries pass `keep`. */
  function Eligible<V>(entries: map<string, V>, keys: seq<string>, keep: V -> bool): (r: seq<string>)
    requires forall k | k in keys :: k in entries
    ensures forall k :: k in r <==> k in keys && keep(entries[k])
  {
    if keys == [] then []
    else
      var last := keys[|keys| - 1];
      var init := Eligible(entries, keys[..|keys| - 1], keep);
      assert forall k :: k in keys <==> k in keys[..|keys| - 1] || k == last by {
        assert keys == keys[..|keys| - 1] + [last];
      }
      if keep(entries[last]) then init + [last] else init
  }

  lemma {:induction false} EligibleAppend<V>(entries: map<string, V>, a: seq<string>, b: seq<string>, keep: V -> bool)
    requires forall k | k in a + b :: k in entries
    ensures Eligible(entries, a + b, keep) == Eligible(entries, a, keep) + Eligible(entries, b, keep)
  {
    if b == [] {
      assert a + b == a;
    } else {
      assert (a + b)[..|a + b| - 1] == a + b[..|b| - 1];
      EligibleAppend(entries, a, b[..|b| - 1], keep);
    }
  }

  /** The running minimum with min_dist starting at inf and a strict `<`: among the
      candidates the first of the nearest wins. */
  function NearestAmong<V>(cands: seq<string>, entries: map<string, V>, posOf: V -> Point,
                           from: Point, norm: Norm): (r: Option<(string, real)>)
    requires forall c | c in cands :: c in entries
    ensures r.None? <==> cands == []
    ensures r.Some? ==> r.value.0 in cands && r.value.1 == norm(from, posOf(entries[r.value.0]))
  {
    if cands == [] then None
    else
      var init := cands[..|cands| - 1];
      var last := cands[|cands| - 1];
      assert cands == init + [last];
      var best := NearestAmong(init, entries, posOf, from, norm);
      var d := norm(from, posOf(entries[last]));
      if best.None? || d < best.value.1 then Some((last, d)) else best
  }

  /** No candidate is nearer than the one chosen. */
  lemma {:induction false} NearestAmongLeast<V>(cands: seq<string>, entries: map<string, V>, posOf: V -> Point,
                                                from: Point, norm: Norm)
    requires forall c | c in cands :: c in entries
    ensures var r := NearestAmong(cands, entries, posOf, from, norm);
      r.Some? ==> forall c | c in cands :: r.value.1 <= norm(from, posOf(entries[c]))
  {
    if cands != [] {
      var init := cands[..|cands| - 1];
      assert cands == init + [cands[|cands| - 1]];
      NearestAmongLeast(init, entries, posOf, from, norm);
    }
  }

  /** Every candidate before the one chosen is strictly farther: the strict < keeps the
      first of equally near candidates. */
  lemma {:induction false} NearestAmongFirst<V>(cands: seq<string>, entries: map<string, V>, posOf: V -> Point,
                                                from: Point, norm: Norm) returns (i: nat)
    requires forall c | c in cands :: c in entries
    ensures var r := NearestAmong(cands, entries, posOf, from, norm);
      r.Some? ==> (i < |cands| && cands[i] == r.value.0
        && forall j | 0 <= j < i :: norm(from, posOf(entries[cands[j]])) > r.value.1)
  {
    i := 0;
    if cands != [] {
      var init := cands[..|cands| - 1];
      var last := cands[|cands| - 1];
      var r := NearestAmong(cands, entries, posOf, from, norm);
      var best := NearestAmong(init, entries, posOf, from, norm);
      var d := norm(from, posOf(entries[last]));
      var k := NearestAmongFirst(init, entries, posOf, from, norm);
      NearestAmongLeast(init, entries, posOf, from, norm);
      if best.None? || d < best.value.1 {
        assert r == Some((last, d));
        i := |cands| - 1;
        forall j | 0 <= j < i ensures norm(from, posOf(entries[cands[j]])) > d {
          assert cands[j] == init[j] && init[j] in init;
        }
      } else {
        assert r == best;
        i := k;
        assert forall j | 0 <= j < i :: cands[j] == init[j];
      }
    }
  }

  /** One more key of the search: it is the new best exactly when it is kept and strictly
      nearer than the best so far. */
  lemma {:induction false} NearestStep<V>(d: Dict<V>, keep: V -> bool, posOf: V -> Point, from: Point, norm: Norm, k: nat)
    requires d.Valid() && k < |d.keys|
    ensures var best := NearestAmong(Eligible(d.entries, d.keys[..k], keep), d.entries, posOf, from, norm);
      var e := d.entries[d.keys[k]];
      var dist := norm(from, posOf(e));
      NearestAmong(Eligible(d.entries, d.keys[..k + 1], keep), d.entries, posOf, from, norm)
        == if keep(e) && (best.None? || dist < best.value.1) then Some((d.keys[k], dist)) else best
  {
    var keys := d.keys[..k + 1];
    assert keys[..|keys| - 1] == d.keys[..k] && keys[|keys| - 1] == d.keys[k];
    var cands := Eligible(d.entries, d.keys[..k], keep);
    if keep(d.entries[d.keys[k]]) {
      var more := cands + [d.keys[k]];
      assert Eligible(d.entries, keys, keep) == more;
      assert more[..|more| - 1] == cands && more[|more| - 1] == d.keys[k];
    } else {
      assert Eligible(d.entries, keys, keep) == cands;
    }
  }

  method FindNearest<V>(d: Dict<V>, keep: V -> bool, posOf: V -> Point, from: Point, norm: Norm)
    returns (best: Option<(string, real)>)
    requires d.Valid()
    ensures best == NearestAmong(Eligible(d.entries, d.keys, keep), d.entries, posOf, from, norm)
  {
    best := None;
    var k := 0;
    while k < |d.keys|
      invariant 0 <= k <= |d.keys|
      invariant best == NearestAmong(Eligible(d.entries, d.keys[..k], keep), d.entries, posOf, from, norm)
    {
      var key := d.keys[k];
      NearestStep(d, keep, posOf, from, norm, k);
      var entry := d.entries[key];
      if keep(entry) {
        var dist := norm(from, posOf(entry));
        if best.None? || dist < best.value.1 {
          best := Some((key, dist));
        }
      }
      k := k + 1;
    }
    assert d.keys[..k] == d.keys;
  }

  /** A corridor on the given floor. */
  function CorridorOnFloor(floor: int): Corridor -> bool {
    (c: Corridor) => c.floor == floor
  }

  /** (c_start + c_end) / 2 */
  function CorridorMidpoint(): Corridor -> Point {
    (c: Corridor) => Midpoint(c.start, c.end)
  }

  /** The nearest corridor on the room's floor, measured to corridor midpoints. */
  function NearestCorridor(corridors: Dict<Corridor>, room: Room, norm: Norm): (r: Option<(string, real)>)
    requires corridors.Valid()
    ensures r.None? <==> forall k | k in corridors.entries :: corridors.entries[k].floor != room.floor
    ensures r.Some? ==> r.value.0 in corridors.entries && corridors.entries[r.value.0].floor == room.floor
  {
    var cands := Eligible(corridors.entries, corridors.keys, CorridorOnFloor(room.floor));
    assert forall k | k in corridors.entries && corridors.entries[k].floor == room.floor :: k in cands;
    NearestAmong(cands, corridors.entries, CorridorMidpoint(), room.position, norm)
  }

  /** |Δx| < 1: the corridor runs vertically. */
  predicate Vertical(c: Corridor) {
    Abs(c.end.x - c.start.x) < 1.0
  }

  /** The door-side rule: on a vertical corridor the door is `half` to the right or the
      left of the centre, whichever side the corridor's x lies on; otherwise it is `half`
      above or below, whichever side the corridor's y lies on. A corridor exactly level
      with the centre counts as left (or below). */
  function DoorSide(center: Point, c: Corridor, half: real): (p: Point)
    ensures Vertical(c) ==> p.y == center.y && Abs(p.x - center.x) == Abs(half)
    ensures !Vertical(c) ==> p.x == center.x && Abs(p.y - center.y) == Abs(half)
    ensures half > 0.0 && Vertical(c) ==> (p.x > center.x <==> c.start.x > center.x)
    ensures half > 0.0 && !Vertical(c) ==> (p.y > center.y <==> c.start.y > center.y)
  {
    if Vertical(c) then
      if c.start.x > center.x then Point(center.x + half, center.y) else Point(center.x - half, center.y)
    else
      if c.start.y > center.y then Point(center.x, center.y + half) else Point(center.x, center.y - half)
  }
}
