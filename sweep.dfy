/** The assignment machinery the optimizers share.

    An optimizer answers with one list of room ids per responder. Entry k of an
    Assignment belongs to the responder with id k + 1, since teams are numbered
    1..n in order.

    The greedy, detailed and priority strategies are built from a few pieces:
    - a running minimum over distance queries;
    - order-preserving removal from a Python set;
    - round-robin dealing;
    - nearest-neighbour ordering.
    They differ only in the distance query they ask (a query that may raise, or one
    whose failures are skipped). So that query is a parameter: `Query`. */
module Sweep {
  import opened Common
  import opened Facility

  type Assignment = seq<seq<string>>

  /** A distance query from a position to a room: Ok(Inf) when no path exists,
      Err when the query raises. */
  type Query = (string, string) -> Result<Ext>

  /** The order in which CPython iterates set(xs). It depends on string hashes,
      so the model takes it as a parameter. Removing an element leaves the order
      of the others unchanged. */
  type SetOrder = seq<string> -> seq<string>

  ghost predicate IsSetOrder(order: SetOrder) {
    forall xs :: NoDup(order(xs)) && forall x :: x in order(xs) <==> x in xs
  }

  /** Finite answers of the query are never negative. */
  ghost predicate NonNegativeQuery(dist: Query) {
    forall a, b :: dist(a, b).Ok? && dist(a, b).value.Fin? ==> dist(a, b).value.v >= 0.0
  }

  function Flatten(a: Assignment): seq<string> {
    if a == [] then [] else a[0] + Flatten(a[1..])
  }

  lemma {:induction false} FlattenEmpty(n: nat)
    ensures Flatten(Repeat<seq<string>>([], n)) == []
  {
    if n > 0 {
      assert Repeat<seq<string>>([], n)[1..] == Repeat([], n - 1);
      FlattenEmpty(n - 1);
    }
  }

  /** Appending a room to one list adds exactly that room to the flattened assignment. */
  lemma {:induction false} FlattenAppend(a: Assignment, w: nat, x: string)
    requires w < |a|
    ensures multiset(Flatten(a[w := a[w] + [x]])) == multiset(Flatten(a)) + multiset{x}
    decreases |a|
  {
    var b := a[w := a[w] + [x]];
    if w == 0 {
      assert b[1..] == a[1..];
    } else {
      assert b[1..] == a[1..][w - 1 := a[1..][w - 1] + [x]];
      FlattenAppend(a[1..], w - 1, x);
    }
  }

  /** Lists that hold the same rooms one by one hold the same rooms together. */
  lemma {:induction false} FlattenSameLists(a: Assignment, b: Assignment)
    requires |a| == |b| && forall k | 0 <= k < |a| :: multiset(a[k]) == multiset(b[k])
    ensures multiset(Flatten(a)) == multiset(Flatten(b))
    decreases |a|
  {
    if a != [] {
      FlattenSameLists(a[1..], b[1..]);
    }
  }

  /** set.remove on the iteration order. */
  function Remove(s: seq<string>, i: nat): (t: seq<string>)
    requires i < |s|
    ensures |t| == |s| - 1
    ensures s == s[..i] + [s[i]] + t[i..] && t == s[..i] + s[i + 1..]
  {
    s[..i] + s[i + 1..]
  }

  // ---------------------------------------------------------------------------
  // The running minimum with a strict comparison

  /** One candidate: the responder (by index), the room (by its index in the
      iteration order of the unchecked set) and the query's answer. */
  datatype Cand = Cand(who: nat, at: nat, dist: Ext)

  function DistOf(best: Option<Cand>): Ext {
    if best.Some? then best.value.dist else Inf
  }

  /** A candidate replaces the best one so far only when it is strictly nearer;
      nothing beats the initial inf except a finite distance. */
  function Step(best: Option<Cand>, c: Cand): Option<Cand> {
    if c.dist.Lt(DistOf(best)) then Some(c) else best
  }

  function Scan(best: Option<Cand>, cs: seq<Cand>): (r: Option<Cand>)
    ensures r == best || (r.Some? && r.value in cs && r.value.dist.Lt(DistOf(best)))
    decreases |cs|
  {
    if cs == [] then best
    else
      var init := cs[..|cs| - 1];
      var s := Scan(best, init);
      assert forall c | c in init :: c in cs;
      Step(s, cs[|cs| - 1])
  }

  lemma {:induction false} LtTrans(a: Ext, b: Ext, c: Ext)
    ensures a.Lt(b) && !c.Lt(b) ==> a.Lt(c)
    ensures a.Lt(b) && b.Lt(c) ==> a.Lt(c)
    ensures !a.Lt(b) && !b.Lt(c) ==> !a.Lt(c)
  {
  }

  /** The scan ends with a candidate that none is strictly nearer than, and every
      candidate before it is strictly farther: on ties the first one seen wins. */
  lemma {:induction false} ScanMeaning(best: Option<Cand>, cs: seq<Cand>)
    ensures forall j | 0 <= j < |cs| :: !cs[j].dist.Lt(DistOf(Scan(best, cs)))
    ensures !DistOf(best).Lt(DistOf(Scan(best, cs)))
    ensures Scan(best, cs) == best ||
            exists i | 0 <= i < |cs| :: cs[i] == Scan(best, cs).value
                                        && forall j | 0 <= j < i :: cs[i].dist.Lt(cs[j].dist)
  {
    ScanLeast(best, cs);
    var i := ScanFirst(best, cs);
  }

  lemma {:induction false} ScanLeast(best: Option<Cand>, cs: seq<Cand>)
    ensures forall j | 0 <= j < |cs| :: !cs[j].dist.Lt(DistOf(Scan(best, cs)))
    ensures !DistOf(best).Lt(DistOf(Scan(best, cs)))
    decreases |cs|
  {
    if cs != [] {
      var init, c := cs[..|cs| - 1], cs[|cs| - 1];
      var s := Scan(best, init);
      ScanLeast(best, init);
      assert Scan(best, cs) == Step(s, c);
      LtTrans(c.dist, DistOf(s), DistOf(best));
      forall j | 0 <= j < |cs| ensures !cs[j].dist.Lt(DistOf(Step(s, c))) {
        if j < |init| {
          assert cs[j] == init[j];
          LtTrans(cs[j].dist, c.dist, DistOf(s));
        }
      }
    }
  }

  /** The position of the candidate the scan ends with, when it is not the one it
      started from. */
  lemma {:induction false} ScanFirst(best: Option<Cand>, cs: seq<Cand>) returns (i: nat)
    ensures Scan(best, cs) != best ==>
              && i < |cs| && cs[i] == Scan(best, cs).value
              && forall j | 0 <= j < i :: cs[i].dist.Lt(cs[j].dist)
    decreases |cs|
  {
    i := 0;
    if cs != [] {
      var init, c := cs[..|cs| - 1], cs[|cs| - 1];
      var s := Scan(best, init);
      assert Scan(best, cs) == Step(s, c);
      if c.dist.Lt(DistOf(s)) {
        ScanLeast(best, init);
        i := |cs| - 1;
        forall j | 0 <= j < i ensures cs[i].dist.Lt(cs[j].dist) {
          assert cs[j] == init[j];
          LtTrans(c.dist, DistOf(s), cs[j].dist);
        }
      } else {
        i := ScanFirst(best, init);
        if s != best {
          assert cs[i] == init[i];
          forall j | 0 <= j < i ensures cs[i].dist.Lt(cs[j].dist) {
            assert cs[j] == init[j];
          }
        }
      }
    }
  }

  /** From the initial inf the scan finds nothing exactly when every candidate is inf. */
  lemma {:induction false} ScanFromNothing(cs: seq<Cand>)
    ensures Scan(None, cs).None? <==> forall j | 0 <= j < |cs| :: cs[j].dist.Inf?
    ensures Scan(None, cs).Some? ==> Scan(None, cs).value.dist.Fin?
  {
    ScanMeaning(None, cs);
  }

  lemma {:induction false} ScanAppend(best: Option<Cand>, a: seq<Cand>, b: seq<Cand>)
    ensures Scan(best, a + b) == Scan(Scan(best, a), b)
    decreases |b|
  {
    if b == [] {
      assert a + b == a;
    } else {
      assert (a + b)[..|a + b| - 1] == a + b[..|b| - 1];
      ScanAppend(best, a, b[..|b| - 1]);
    }
  }

  // ---------------------------------------------------------------------------
  // Candidates

  /** The queries of one responder standing at `from`, over the rooms in order;
      the first query that raises ends the scan with its error. */
  function PairCands(dist: Query, who: nat, from: string, rooms: seq<string>): (r: Result<seq<Cand>>)
    ensures r.Ok? <==> forall j | 0 <= j < |rooms| :: dist(from, rooms[j]).Ok?
    ensures r.Ok? ==> |r.value| == |rooms|
    ensures r.Ok? ==> forall j | 0 <= j < |rooms| :: r.value[j] == Cand(who, j, dist(from, rooms[j]).value)
    decreases |rooms|
  {
    if rooms == [] then Ok([])
    else
      var init := rooms[..|rooms| - 1];
      match PairCands(dist, who, from, init)
      case Err(e) => Err(e)
      case Ok(cs) =>
        match dist(from, rooms[|rooms| - 1])
        case Err(e) => Err(e)
        case Ok(d) => Ok(cs + [Cand(who, |rooms| - 1, d)])
  }

  /** Once one query has raised, later rooms do not change the outcome. */
  lemma {:induction false} PairCandsErr(dist: Query, who: nat, from: string, rooms: seq<string>, j: nat)
    requires j <= |rooms| && PairCands(dist, who, from, rooms[..j]).Err?
    ensures PairCands(dist, who, from, rooms) == PairCands(dist, who, from, rooms[..j])
    decreases |rooms| - j
  {
    if j < |rooms| {
      assert rooms[..j + 1][..j] == rooms[..j];
      PairCandsErr(dist, who, from, rooms, j + 1);
    } else {
      assert rooms[..j] == rooms;
    }
  }

  /** The inner loop over the unchecked rooms of every strategy: one
      responder at `from` queries each room in order and keeps the strictly nearest;
      a query that raises ends the loop with its error. */
  method ScanRooms(dist: Query, who: nat, from: string, rooms: seq<string>, best0: Option<Cand>)
    returns (r: Result<Option<Cand>>)
    ensures PairCands(dist, who, from, rooms).Err? ==> r == Err(PairCands(dist, who, from, rooms).error)
    ensures PairCands(dist, who, from, rooms).Ok? ==> r == Ok(Scan(best0, PairCands(dist, who, from, rooms).value))
  {
    var best := best0;
    var j := 0;
    while j < |rooms|
      invariant 0 <= j <= |rooms|
      invariant PairCands(dist, who, from, rooms[..j]).Ok?
      invariant best == Scan(best0, PairCands(dist, who, from, rooms[..j]).value)
    {
      assert rooms[..j + 1][..j] == rooms[..j];
      var d := dist(from, rooms[j]);
      if d.Err? {
        PairCandsErr(dist, who, from, rooms, j + 1);
        return Err(d.error);
      }
      var c := Cand(who, j, d.value);
      assert PairCands(dist, who, from, rooms[..j + 1]).value == PairCands(dist, who, from, rooms[..j]).value + [c];
      if d.value.Lt(DistOf(best)) {
        best := Some(c);
      }
      j := j + 1;
    }
    assert rooms[..j] == rooms;
    return Ok(best);
  }

  /** Every responder in team order, each over every unchecked room. */
  function AllCands(dist: Query, positions: seq<string>, rooms: seq<string>): Result<seq<Cand>>
    decreases |positions|
  {
    if positions == [] then Ok([])
    else
      match AllCands(dist, positions[..|positions| - 1], rooms)
      case Err(e) => Err(e)
      case Ok(cs) =>
        match PairCands(dist, |positions| - 1, positions[|positions| - 1], rooms)
        case Err(e) => Err(e)
        case Ok(ds) => Ok(cs + ds)
  }

  lemma {:induction false} AllCandsErr(dist: Query, positions: seq<string>, rooms: seq<string>, k: nat)
    requires k <= |positions| && AllCands(dist, positions[..k], rooms).Err?
    ensures AllCands(dist, positions, rooms) == AllCands(dist, positions[..k], rooms)
    decreases |positions| - k
  {
    if k < |positions| {
      assert positions[..k + 1][..k] == positions[..k];
      AllCandsErr(dist, positions, rooms, k + 1);
    } else {
      assert positions[..k] == positions;
    }
  }

  /** Responder-major, then room order: the order the nested loops look at pairs. */
  predicate Before(c: Cand, d: Cand) {
    c.who < d.who || (c.who == d.who && c.at < d.at)
  }

  ghost predicate Sound(dist: Query, positions: seq<string>, rooms: seq<string>, cs: seq<Cand>) {
    forall c | c in cs :: c.who < |positions| && c.at < |rooms| && dist(positions[c.who], rooms[c.at]) == Ok(c.dist)
  }

  /** The scan raises exactly when some query raises. */
  lemma {:induction false} AllCandsOk(dist: Query, positions: seq<string>, rooms: seq<string>)
    ensures AllCands(dist, positions, rooms).Ok? <==>
              forall k, j | 0 <= k < |positions| && 0 <= j < |rooms| :: dist(positions[k], rooms[j]).Ok?
    decreases |positions|
  {
    if positions != [] {
      var init, n := positions[..|positions| - 1], |positions| - 1;
      AllCandsOk(dist, init, rooms);
      forall k | 0 <= k < n ensures positions[k] == init[k] { }
    }
  }

  /** Every candidate is a pair of a responder and an unchecked room with its answer. */
  lemma {:induction false} AllCandsSound(dist: Query, positions: seq<string>, rooms: seq<string>)
    requires AllCands(dist, positions, rooms).Ok?
    ensures Sound(dist, positions, rooms, AllCands(dist, positions, rooms).value)
    decreases |positions|
  {
    if positions != [] {
      var init, n := positions[..|positions| - 1], |positions| - 1;
      AllCandsSound(dist, init, rooms);
      var cs, ds := AllCands(dist, init, rooms).value, PairCands(dist, n, positions[n], rooms).value;
      forall c | c in cs ensures c.who < |positions| && c.at < |rooms| && dist(positions[c.who], rooms[c.at]) == Ok(c.dist) {
        assert positions[c.who] == init[c.who];
      }
      forall c | c in ds ensures c.who < |positions| && c.at < |rooms| && dist(positions[c.who], rooms[c.at]) == Ok(c.dist) {
        var j :| 0 <= j < |ds| && ds[j] == c;
      }
    }
  }

  /** Every pair is a candidate. */
  lemma {:induction false} AllCandsComplete(dist: Query, positions: seq<string>, rooms: seq<string>)
    requires AllCands(dist, positions, rooms).Ok?
    ensures forall k, j | 0 <= k < |positions| && 0 <= j < |rooms| :: dist(positions[k], rooms[j]).Ok?
    ensures forall k, j | 0 <= k < |positions| && 0 <= j < |rooms| ::
              Cand(k, j, dist(positions[k], rooms[j]).value) in AllCands(dist, positions, rooms).value
    decreases |positions|
  {
    AllCandsOk(dist, positions, rooms);
    if positions != [] {
      var init, n := positions[..|positions| - 1], |positions| - 1;
      AllCandsComplete(dist, init, rooms);
      var cs, ds := AllCands(dist, init, rooms).value, PairCands(dist, n, positions[n], rooms).value;
      forall k, j | 0 <= k < |positions| && 0 <= j < |rooms|
        ensures Cand(k, j, dist(positions[k], rooms[j]).value) in cs + ds
      {
        if k == n {
          assert ds[j] == Cand(k, j, dist(positions[k], rooms[j]).value);
        } else {
          assert positions[k] == init[k];
        }
      }
    }
  }

  /** The candidates come in nested-loop order. */
  lemma {:induction false} AllCandsOrdered(dist: Query, positions: seq<string>, rooms: seq<string>)
    requires AllCands(dist, positions, rooms).Ok?
    ensures var cs := AllCands(dist, positions, rooms).value;
            forall i, i' | 0 <= i < i' < |cs| :: Before(cs[i], cs[i'])
    decreases |positions|
  {
    if positions != [] {
      var init, n := positions[..|positions| - 1], |positions| - 1;
      AllCandsOrdered(dist, init, rooms);
      AllCandsSound(dist, init, rooms);
      var cs, ds := AllCands(dist, init, rooms).value, PairCands(dist, n, positions[n], rooms).value;
      forall i, i' | 0 <= i < i' < |cs + ds| ensures Before((cs + ds)[i], (cs + ds)[i'])
      {
        if i' < |cs| {
          assert (cs + ds)[i] == cs[i] && (cs + ds)[i'] == cs[i'];
        } else if i < |cs| {
          assert cs[i] in cs;
          assert (cs + ds)[i] == cs[i] && (cs + ds)[i'] == ds[i' - |cs|];
        } else {
          assert (cs + ds)[i] == ds[i - |cs|] && (cs + ds)[i'] == ds[i' - |cs|];
        }
      }
    }
  }

  /** One step of the nearest strategy: when some pair is reachable, the chosen
      pair has a finite distance no pair beats, and every pair looked at earlier is
      strictly farther; when none is reachable, every pair is at inf. */
  lemma {:induction false} NearestPick(dist: Query, positions: seq<string>, rooms: seq<string>)
    requires AllCands(dist, positions, rooms).Ok?
    ensures forall k, j | 0 <= k < |positions| && 0 <= j < |rooms| :: dist(positions[k], rooms[j]).Ok?
    ensures var best := Scan(None, AllCands(dist, positions, rooms).value);
      best.None? <==> forall k, j | 0 <= k < |positions| && 0 <= j < |rooms| :: dist(positions[k], rooms[j]) == Ok(Inf)
    ensures var best := Scan(None, AllCands(dist, positions, rooms).value);
      best.Some? ==>
        && best.value.who < |positions| && best.value.at < |rooms| && best.value.dist.Fin?
        && dist(positions[best.value.who], rooms[best.value.at]) == Ok(best.value.dist)
        && (forall k, j | 0 <= k < |positions| && 0 <= j < |rooms| ::
              !dist(positions[k], rooms[j]).value.Lt(best.value.dist))
        && (forall k, j | 0 <= k < |positions| && 0 <= j < |rooms| && Before(Cand(k, j, Inf), best.value) ::
              best.value.dist.Lt(dist(positions[k], rooms[j]).value))
  {
    var cs := AllCands(dist, positions, rooms).value;
    AllCandsOk(dist, positions, rooms);
    ScanLeast(None, cs);
    ScanFromNothing(cs);
    var best := Scan(None, cs);
    forall k, j | 0 <= k < |positions| && 0 <= j < |rooms|
      ensures !dist(positions[k], rooms[j]).value.Lt(DistOf(best))
    {
      var i := CandIndex(dist, positions, rooms, k, j);
    }
    if best.Some? {
      AllCandsSound(dist, positions, rooms);
      EarlierFarther(dist, positions, rooms);
    } else {
      forall k, j | 0 <= k < |positions| && 0 <= j < |rooms| ensures dist(positions[k], rooms[j]) == Ok(Inf) {
        var i := CandIndex(dist, positions, rooms, k, j);
      }
    }
  }

  lemma {:induction false} EarlierFarther(dist: Query, positions: seq<string>, rooms: seq<string>)
    requires AllCands(dist, positions, rooms).Ok?
    requires Scan(None, AllCands(dist, positions, rooms).value).Some?
    ensures forall k, j | 0 <= k < |positions| && 0 <= j < |rooms| :: dist(positions[k], rooms[j]).Ok?
    ensures var best := Scan(None, AllCands(dist, positions, rooms).value).value;
      forall k, j | 0 <= k < |positions| && 0 <= j < |rooms| && Before(Cand(k, j, Inf), best) ::
        best.dist.Lt(dist(positions[k], rooms[j]).value)
  {
    var cs := AllCands(dist, positions, rooms).value;
    AllCandsOk(dist, positions, rooms);
    var i := ScanFirst(None, cs);
    var best := Scan(None, cs).value;
    forall k, j | 0 <= k < |positions| && 0 <= j < |rooms| && Before(Cand(k, j, Inf), best)
      ensures best.dist.Lt(dist(positions[k], rooms[j]).value)
    {
      var i' := CandIndex(dist, positions, rooms, k, j);
      if i' > i {
        CandsOrderedAt(dist, positions, rooms, i, i');
        assert false;
      } else if i' == i {
        assert false;
      }
    }
  }

  /** Where the pair of responder k and room j sits among the candidates. */
  lemma {:induction false} CandIndex(dist: Query, positions: seq<string>, rooms: seq<string>, k: nat, j: nat)
    returns (i: nat)
    requires AllCands(dist, positions, rooms).Ok? && k < |positions| && j < |rooms|
    ensures dist(positions[k], rooms[j]).Ok?
    ensures i < |AllCands(dist, positions, rooms).value|
    ensures AllCands(dist, positions, rooms).value[i] == Cand(k, j, dist(positions[k], rooms[j]).value)
  {
    AllCandsComplete(dist, positions, rooms);
    var cs := AllCands(dist, positions, rooms).value;
    i :| 0 <= i < |cs| && cs[i] == Cand(k, j, dist(positions[k], rooms[j]).value);
  }

  lemma {:induction false} CandsOrderedAt(dist: Query, positions: seq<string>, rooms: seq<string>, a: nat, b: nat)
    requires AllCands(dist, positions, rooms).Ok? && a < b < |AllCands(dist, positions, rooms).value|
    ensures Before(AllCands(dist, positions, rooms).value[a], AllCands(dist, positions, rooms).value[b])
  {
    AllCandsOrdered(dist, positions, rooms);
  }
}
