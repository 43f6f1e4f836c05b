/** Python's sorting with a key: a stable sort. The model is an
    insertion sort that puts each element before the first element of the already
    sorted rest whose key is not smaller, so elements with equal keys keep their
    original order; that is the unique result a stable sort can have. */
module Sorting {

  ghost predicate TotalPreorder<T(!new)>(le: (T, T) -> bool) {
    && (forall a, b :: le(a, b) || le(b, a))
    && (forall a, b, c :: le(a, b) && le(b, c) ==> le(a, c))
  }

  ghost predicate SortedBy<T>(s: seq<T>, le: (T, T) -> bool) {
    forall i, j | 0 <= i < j < |s| :: le(s[i], s[j])
  }

  function Insert<T>(x: T, s: seq<T>, le: (T, T) -> bool): (r: seq<T>)
    ensures |r| == |s| + 1
    ensures multiset(r) == multiset(s) + multiset{x}
  {
    if s == [] || le(x, s[0]) then [x] + s
    else
      assert s == [s[0]] + s[1..];
      [s[0]] + Insert(x, s[1..], le)
  }

  function SortBy<T>(s: seq<T>, le: (T, T) -> bool): (r: seq<T>)
    ensures |r| == |s|
    ensures multiset(r) == multiset(s)
  {
    if s == [] then []
    else
      assert s == [s[0]] + s[1..];
      Insert(s[0], SortBy(s[1..], le), le)
  }

  lemma {:induction false} InsertSorted<T(!new)>(x: T, s: seq<T>, le: (T, T) -> bool)
    requires TotalPreorder(le) && SortedBy(s, le)
    ensures SortedBy(Insert(x, s, le), le)
  {
    if s == [] || le(x, s[0]) {
    } else {
      InsertSorted(x, s[1..], le);
      var r := Insert(x, s[1..], le);
      forall k | 0 <= k < |r| ensures le(s[0], r[k]) {
        assert r[k] in multiset(r);
        assert r[k] in multiset(s[1..]) + multiset{x};
        if r[k] in multiset(s[1..]) {
          var m :| 0 <= m < |s[1..]| && s[1..][m] == r[k];
          assert s[1 + m] == r[k];
        }
      }
    }
  }

  /** The result of a sort is sorted (the multiset half is SortBy's own contract). */
  lemma {:induction false} SortSorted<T(!new)>(s: seq<T>, le: (T, T) -> bool)
    requires TotalPreorder(le)
    ensures SortedBy(SortBy(s, le), le)
  {
    if s != [] {
      SortSorted(s[1..], le);
      InsertSorted(s[0], SortBy(s[1..], le), le);
    }
  }

  /** The elements of s whose key equals x's key, in their order in s. */
  function SameKey<T>(s: seq<T>, x: T, le: (T, T) -> bool): (r: seq<T>)
    ensures |r| <= |s|
    ensures forall y | y in r :: y in s && le(x, y) && le(y, x)
  {
    if s == [] then []
    else (if le(s[0], x) && le(x, s[0]) then [s[0]] else []) + SameKey(s[1..], x, le)
  }

  /** Inserting y only passes over elements whose key is smaller than y's, so the
      elements that share a key keep the order they had with y in front. */
  lemma {:induction false} InsertStable<T>(y: T, s: seq<T>, x: T, le: (T, T) -> bool)
    requires forall z | z in s :: le(y, x) && le(x, z) ==> le(y, z)
    ensures SameKey(Insert(y, s, le), x, le) == SameKey([y] + s, x, le)
  {
    if s != [] && !le(y, s[0]) {
      var t := s[1..];
      var r := Insert(y, t, le);
      assert s == [s[0]] + t;
      assert Insert(y, s, le) == [s[0]] + r;
      InsertStable(y, t, x, le);
      var k0 := if le(s[0], x) && le(x, s[0]) then [s[0]] else [];
      var ky := if le(y, x) && le(x, y) then [y] else [];
      assert k0 == [] || ky == [] by {
        assert s[0] in s;
      }
      calc {
        SameKey([s[0]] + r, x, le);
        { SameKeyCons(s[0], r, x, le); }
        k0 + SameKey(r, x, le);
        { SameKeyCons(y, t, x, le); }
        k0 + (ky + SameKey(t, x, le));
        { SwapEmpty(k0, ky, SameKey(t, x, le)); }
        ky + (k0 + SameKey(t, x, le));
        { SameKeyCons(s[0], t, x, le); }
        ky + SameKey(s, x, le);
        { SameKeyCons(y, s, x, le); }
        SameKey([y] + s, x, le);
      }
    }
  }

  lemma {:induction false} SwapEmpty<T>(a: seq<T>, b: seq<T>, c: seq<T>)
    requires a == [] || b == []
    ensures a + (b + c) == b + (a + c)
  {
    if a == [] {
      assert a + (b + c) == b + c == b + (a + c);
    } else {
      assert a + (b + c) == a + c == b + (a + c);
    }
  }

  lemma {:induction false} SameKeyCons<T>(y: T, s: seq<T>, x: T, le: (T, T) -> bool)
    ensures SameKey([y] + s, x, le) == (if le(y, x) && le(x, y) then [y] else []) + SameKey(s, x, le)
  {
    assert ([y] + s)[0] == y && ([y] + s)[1..] == s;
  }

  /** The sort is stable: the elements with any one key come out in the order they
      went in. */
  lemma {:induction false} SortStable<T(!new)>(s: seq<T>, x: T, le: (T, T) -> bool)
    requires TotalPreorder(le)
    ensures SameKey(SortBy(s, le), x, le) == SameKey(s, x, le)
  {
    if s != [] {
      SortStable(s[1..], x, le);
      var t := SortBy(s[1..], le);
      InsertStable(s[0], t, x, le);
      assert ([s[0]] + t)[0] == s[0] && ([s[0]] + t)[1..] == t;
    }
  }

  lemma {:induction false} MultisetNoDup<T>(s: seq<T>, t: seq<T>)
    requires multiset(s) == multiset(t)
    ensures (forall i, j | 0 <= i < j < |s| :: s[i] != s[j]) ==> (forall i, j | 0 <= i < j < |t| :: t[i] != t[j])
  {
    if exists i, j | 0 <= i < j < |t| :: t[i] == t[j] {
      var i, j :| 0 <= i < j < |t| && t[i] == t[j];
      var x := t[i];
      assert multiset(t)[x] >= 2 by {
        assert t == t[..i] + [x] + t[i+1..j] + [x] + t[j+1..];
        calc {
          multiset(t)[x];
          == multiset(t[..i])[x] + multiset([x])[x] + multiset(t[i+1..j])[x] + multiset([x])[x] + multiset(t[j+1..])[x];
          >= 2;
        }
      }
      if forall a, b | 0 <= a < b < |s| :: s[a] != s[b] {
        DistinctCountOne(s, x);
        assert false;
      }
    }
  }

  lemma {:induction false} DistinctCountOne<T>(s: seq<T>, x: T)
    requires forall a, b | 0 <= a < b < |s| :: s[a] != s[b]
    ensures multiset(s)[x] <= 1
  {
    if s != [] {
      assert s == [s[0]] + s[1..];
      DistinctCountOne(s[1..], x);
      if s[0] == x {
        assert x !in s[1..];
        assert multiset(s[1..])[x] == 0;
      }
    }
  }
}
