/** Round-robin dealing, the i-th room (from 0) to responder (i mod n) + 1, shared by the
    priority strategies and the top-down sweep. */
module Dealing {
  import opened Common
  import opened Facility
  import opened Sweep

  /** The i-th room (0-based) goes to list i mod n. */
  function Deal(ids: seq<string>, n: nat): (a: Assignment)
    requires n > 0
    ensures |a| == n
    decreases |ids|
  {
    if ids == [] then Repeat([], n)
    else
      var a := Deal(ids[..|ids| - 1], n);
      var k := (|ids| - 1) % n;
      a[k := a[k] + [ids[|ids| - 1]]]
  }

  /** The whole loop, which divides by zero when there is no responder but a room. */
  function RoundRobin(ids: seq<string>, n: nat): (r: Result<Assignment>)
    ensures r.Err? <==> n == 0 && ids != []
    ensures r.Err? ==> r.error == ZeroDivision
    ensures r.Ok? ==> |r.value| == n
  {
    if n == 0 then (if ids == [] then Ok([]) else Err(ZeroDivision))
    else Ok(Deal(ids, n))
  }

  /** The dealing loop: room i (from 0) is appended to the list of responder (i mod n) + 1. */
  method DealRooms(rooms: seq<Room>, n: nat) returns (r: Result<Assignment>)
    ensures r == RoundRobin(RoomIds(rooms), n)
  {
    var assignment: Assignment := Repeat([], n);
    var i := 0;
    while i < |rooms|
      invariant 0 <= i <= |rooms|
      invariant n == 0 ==> i == 0 && assignment == []
      invariant n > 0 ==> assignment == Deal(RoomIds(rooms)[..i], n)
    {
      if n == 0 {
        return Err(ZeroDivision);
      }
      assert RoomIds(rooms)[..i + 1][..i] == RoomIds(rooms)[..i];
      var k := i % n;
      assignment := assignment[k := assignment[k] + [rooms[i].id]];
      i := i + 1;
    }
    assert RoomIds(rooms)[..i] == RoomIds(rooms);
    return Ok(assignment);
  }

  lemma {:induction false} MulAtLeast(a: int, n: nat)
    requires a >= 1
    ensures a * n >= n
  {
    assert a * n == (a - 1) * n + n;
  }

  /** Euclidean division has one quotient and one remainder. */
  lemma {:induction false} DivModUnique(m: nat, n: nat, q: int, r: int)
    requires n > 0 && 0 <= r < n && m == q * n + r
    ensures m / n == q && m % n == r
  {
    var q', r' := m / n, m % n;
    assert m == q' * n + r';
    assert (q - q') * n == r' - r;
    if q - q' >= 1 {
      MulAtLeast(q - q', n);
    } else if q' - q >= 1 {
      MulAtLeast(q' - q, n);
    }
  }

  lemma {:induction false} NextDivMod(m: nat, n: nat)
    requires n > 0
    ensures (m + 1) % n == (if m % n + 1 < n then m % n + 1 else 0)
    ensures (m + 1) / n == (if m % n + 1 < n then m / n else m / n + 1)
  {
    var q, r := m / n, m % n;
    assert m == q * n + r;
    if r + 1 < n {
      DivModUnique(m + 1, n, q, r + 1);
    } else {
      assert m + 1 == (q + 1) * n;
      DivModUnique(m + 1, n, q + 1, 0);
    }
  }

  /** List k holds |ids| div n rooms, plus one for the first |ids| mod n lists. */
  lemma {:induction false} DealCounts(ids: seq<string>, n: nat)
    requires n > 0
    ensures forall k | 0 <= k < n :: |Deal(ids, n)[k]| == |ids| / n + (if k < |ids| % n then 1 else 0)
    decreases |ids|
  {
    if ids != [] {
      var m := |ids| - 1;
      DealCounts(ids[..m], n);
      NextDivMod(m, n);
    }
  }

  /** Per-responder counts differ by at most one. */
  lemma {:induction false} DealBalanced(ids: seq<string>, n: nat)
    requires n > 0
    ensures forall k, k' | 0 <= k < n && 0 <= k' < n :: |Deal(ids, n)[k]| <= |Deal(ids, n)[k']| + 1
  {
    DealCounts(ids, n);
  }

  /** A room is in list k exactly when it stands at a position congruent to k. */
  lemma {:induction false} DealMembers(ids: seq<string>, n: nat)
    requires n > 0
    ensures forall k, x | 0 <= k < n ::
              x in Deal(ids, n)[k] <==> exists i | 0 <= i < |ids| :: ids[i] == x && i % n == k
    decreases |ids|
  {
    if ids != [] {
      var m := |ids| - 1;
      DealMembers(ids[..m], n);
      forall k, x | 0 <= k < n
        ensures x in Deal(ids, n)[k] <==> exists i | 0 <= i < |ids| :: ids[i] == x && i % n == k
      {
        if x in Deal(ids, n)[k] {
          if x in Deal(ids[..m], n)[k] {
            var i :| 0 <= i < m && ids[..m][i] == x && i % n == k;
            assert ids[i] == x;
          } else {
            assert ids[m] == x && m % n == k;
          }
        }
        if exists i | 0 <= i < |ids| :: ids[i] == x && i % n == k {
          var i :| 0 <= i < |ids| && ids[i] == x && i % n == k;
          if i < m {
            assert ids[..m][i] == x;
          }
        }
      }
    }
  }

  /** Dealing loses no room and adds none. */
  lemma {:induction false} DealPermutes(ids: seq<string>, n: nat)
    requires n > 0
    ensures multiset(Flatten(Deal(ids, n))) == multiset(ids)
    decreases |ids|
  {
    if ids == [] {
      FlattenEmpty(n);
    } else {
      var m := |ids| - 1;
      var init, k := ids[..m], m % n;
      var a := Deal(init, n);
      DealPermutes(init, n);
      assert Deal(ids, n) == a[k := a[k] + [ids[m]]];
      FlattenAppend(a, k, ids[m]);
      assert ids == init + [ids[m]];
      assert multiset(ids) == multiset(init) + multiset{ids[m]};
    }
  }

  /** Dealing keeps the order of the input within each list: when a rank never
      increases along ids, it never increases along any list. */
  lemma {:induction false} DealKeepsOrder(ids: seq<string>, n: nat, rank: string -> int)
    requires n > 0
    requires forall i, j | 0 <= i < j < |ids| :: rank(ids[i]) >= rank(ids[j])
    ensures forall k, i, j | 0 <= k < n && 0 <= i < j < |Deal(ids, n)[k]| ::
              rank(Deal(ids, n)[k][i]) >= rank(Deal(ids, n)[k][j])
    decreases |ids|
  {
    if ids != [] {
      var m := |ids| - 1;
      DealKeepsOrder(ids[..m], n, rank);
      DealMembers(ids[..m], n);
      var a := Deal(ids[..m], n);
      forall k, i | 0 <= k < n && 0 <= i < |a[k]| ensures rank(a[k][i]) >= rank(ids[m]) {
        assert a[k][i] in a[k];
        var i' :| 0 <= i' < m && ids[..m][i'] == a[k][i] && i' % n == k;
        assert ids[i'] == a[k][i];
      }
    }
  }

  /** Dealing distinct rooms gives lists of distinct rooms. */
  lemma {:induction false} DealDistinct(ids: seq<string>, n: nat)
    requires n > 0 && NoDup(ids)
    ensures forall k | 0 <= k < n :: NoDup(Deal(ids, n)[k])
    decreases |ids|
  {
    if ids != [] {
      var m := |ids| - 1;
      DealDistinct(ids[..m], n);
      DealMembers(ids[..m], n);
      var a, k, x := Deal(ids[..m], n), m % n, ids[m];
      forall y | y in a[k] ensures y != x {
        var i :| 0 <= i < m && ids[..m][i] == y && i % n == k;
        assert ids[i] == y;
      }
      forall i, j | 0 <= i < j < |a[k] + [x]| ensures (a[k] + [x])[i] != (a[k] + [x])[j] {
        if j == |a[k]| {
          assert a[k][i] in a[k];
        }
      }
    }
  }
}
