/** The ids the dense navigation graphs give their nodes, built by f-strings from the ids
    of the building's rooms, corridors and stairs, and the facts that keep ids of
    different kinds apart: a room centre or door id ends in a letter, a waypoint or
    landing id in a digit, and stripping the trailing digits of a waypoint id leaves its
    corridor and tag, of a landing id its stair and "_F" (or "_F-" below floor 0). */
module NodeIds {
  import opened Common
  import opened CoarseGraph

  predicate IsDigitChar(c: char) {
    '0' <= c <= '9'
  }

  /** A room's centre node: the room id and "_center". */
  function CenterId(room: string): string {
    room + "_center"
  }

  /** A room's door node: the room id and "_door". */
  function DoorId(room: string): string {
    room + "_door"
  }

  /** A corridor waypoint: the corridor id, "_", a tag letter and the index; tag 'p' in the node-based building, 'n' in the
      building with doors. */
  function WaypointId(corridor: string, tag: char, i: nat): string {
    corridor + "_" + [tag] + NatToString(i)
  }

  function StripDigits(s: string): string {
    if |s| > 0 && IsDigitChar(s[|s| - 1]) then StripDigits(s[..|s| - 1]) else s
  }

  lemma {:induction false} StripAppendDigits(x: string, d: string)
    requires |x| > 0 && !IsDigitChar(x[|x| - 1])
    requires forall i | 0 <= i < |d| :: IsDigitChar(d[i])
    ensures StripDigits(x + d) == x
  {
    if d == [] {
      assert x + d == x;
    } else {
      assert (x + d)[..|x + d| - 1] == x + d[..|d| - 1];
      StripAppendDigits(x, d[..|d| - 1]);
    }
  }

  /** A prefix ending in a non-digit followed by a number: both parts can be read back. */
  lemma {:induction false} NumberedInjective(x1: string, x2: string, a: nat, b: nat)
    requires |x1| > 0 && !IsDigitChar(x1[|x1| - 1]) && |x2| > 0 && !IsDigitChar(x2[|x2| - 1])
    requires x1 + NatToString(a) == x2 + NatToString(b)
    ensures x1 == x2 && a == b
  {
    StripAppendDigits(x1, NatToString(a));
    StripAppendDigits(x2, NatToString(b));
    assert NatToString(a) == (x1 + NatToString(a))[|x1|..];
    assert NatToString(b) == (x2 + NatToString(b))[|x2|..];
    NatToStringInjective(a, b);
  }

  /** A waypoint id names its corridor and position. */
  lemma {:induction false} WaypointInjective(c1: string, c2: string, tag: char, i: nat, j: nat)
    requires !IsDigitChar(tag) && WaypointId(c1, tag, i) == WaypointId(c2, tag, j)
    ensures c1 == c2 && i == j
  {
    var p1, p2 := c1 + "_" + [tag], c2 + "_" + [tag];
    assert WaypointId(c1, tag, i) == p1 + NatToString(i) && WaypointId(c2, tag, j) == p2 + NatToString(j);
    NumberedInjective(p1, p2, i, j);
    assert c1 == p1[..|c1|] && c2 == p2[..|c2|];
  }

  /** The stair and the floor's digits of a landing id. */
  function LandingPrefix(s: string, f: int): (x: string)
    ensures |x| > 0 && !IsDigitChar(x[|x| - 1])
    ensures x[|x| - 1] == if f >= 0 then 'F' else '-'
  {
    if f >= 0 then s + "_F" else s + "_F-"
  }

  function Magnitude(f: int): nat {
    if f >= 0 then f else -f
  }

  lemma {:induction false} LandingSplit(s: string, f: int)
    ensures LandingId(s, f) == LandingPrefix(s, f) + NatToString(Magnitude(f))
  {
  }

  /** A landing id names its stair and floor. */
  lemma {:induction false} LandingInjective(s1: string, s2: string, f1: int, f2: int)
    requires LandingId(s1, f1) == LandingId(s2, f2)
    ensures s1 == s2 && f1 == f2
  {
    LandingSplit(s1, f1);
    LandingSplit(s2, f2);
    var x1, x2 := LandingPrefix(s1, f1), LandingPrefix(s2, f2);
    NumberedInjective(x1, x2, Magnitude(f1), Magnitude(f2));
    assert (f1 >= 0) == (f2 >= 0);
    assert s1 == x1[..|s1|] && s2 == x2[..|s2|];
  }

  /** No waypoint id is a landing id. */
  lemma {:induction false} WaypointNotLanding(c: string, tag: char, i: nat, s: string, f: int)
    requires !IsDigitChar(tag) && tag != 'F' && tag != '-'
    ensures WaypointId(c, tag, i) != LandingId(s, f)
  {
    var w := c + "_" + [tag];
    assert w[|w| - 1] == tag;
    if WaypointId(c, tag, i) == LandingId(s, f) {
      assert WaypointId(c, tag, i) == w + NatToString(i);
      LandingSplit(s, f);
      NumberedInjective(w, LandingPrefix(s, f), i, Magnitude(f));
    }
  }

  predicate EndsInDigit(s: string) {
    |s| > 0 && IsDigitChar(s[|s| - 1])
  }

  /** Waypoint and landing ids end in a digit; room centre and door ids do not. */
  lemma {:induction false} WaypointEndsInDigit(c: string, tag: char, i: nat)
    ensures EndsInDigit(WaypointId(c, tag, i))
  {
    var w, d := WaypointId(c, tag, i), NatToString(i);
    assert w[|w| - 1] == d[|d| - 1];
  }

  lemma {:induction false} LandingEndsInDigit(s: string, f: int)
    ensures EndsInDigit(LandingId(s, f))
  {
    LandingSplit(s, f);
    var x, d := LandingPrefix(s, f), NatToString(Magnitude(f));
    assert (x + d)[|x + d| - 1] == d[|d| - 1];
  }

  /** The id of a waypoint of the node-based building. */
  ghost predicate IsWaypoint(s: string) {
    exists k: string, j: nat :: s == WaypointId(k, 'p', j)
  }

  /** A waypoint id ends in a digit and is no landing id. */
  lemma {:induction false} WaypointFacts(s: string)
    ensures IsWaypoint(s) ==> EndsInDigit(s)
    ensures IsWaypoint(s) ==> forall sid, f :: s != LandingId(sid, f)
  {
    if IsWaypoint(s) {
      var k: string, j: nat :| s == WaypointId(k, 'p', j);
      WaypointEndsInDigit(k, 'p', j);
      forall sid, f ensures s != LandingId(sid, f) {
        WaypointNotLanding(k, 'p', j, sid, f);
      }
    }
  }

  lemma {:induction false} RoomIdsEndInLetter(r: string)
    ensures !EndsInDigit(CenterId(r)) && !EndsInDigit(DoorId(r))
  {
    var c, d := CenterId(r), DoorId(r);
    assert c[|c| - 1] == 'r' && d[|d| - 1] == 'r';
  }

  /** Room centre ids, door ids and the two kinds apart. */
  lemma {:induction false} RoomIdsDistinct(r1: string, r2: string)
    ensures CenterId(r1) == CenterId(r2) ==> r1 == r2
    ensures DoorId(r1) == DoorId(r2) ==> r1 == r2
    ensures CenterId(r1) != DoorId(r2)
  {
    if CenterId(r1) == CenterId(r2) {
      assert r1 == CenterId(r1)[..|r1|];
    }
    if DoorId(r1) == DoorId(r2) {
      assert r1 == DoorId(r1)[..|r1|];
    }
    var c, d := CenterId(r1), DoorId(r2);
    assert c[|c| - 2] == 'e' && d[|d| - 2] == 'o';
  }
}
