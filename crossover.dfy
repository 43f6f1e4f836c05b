/** The order crossover (OX) of the genetic optimizer. A child keeps one parent's
    genes between two cut points at the same positions, and the other positions are
    filled, cyclically from the second cut point, with the other parent's genes in
    the order they appear in it from that same point, skipping genes the child
    already has. */
module OrderCrossover {
  import opened Common
  import opened Dealing

  /** `set(child) - {-1}`: the genes already placed in a child. */
  function Placed(child: seq<int>): (s: set<int>)
    ensures forall x :: x in s <==> x in child && x != -1
  {
    set x | x in child && x != -1
  }

  /** The parent rotated to begin at position start; a start past the end, as a Python slice clamps it, leaves the parent as it is. */
  function Rotate(parent: seq<int>, start: nat): (r: seq<int>)
    ensures |r| == |parent| && multiset(r) == multiset(parent)
    ensures start <= |parent| ==> r == parent[start..] + parent[..start]
  {
    var s := if start <= |parent| then start else |parent|;
    assert parent == parent[..s] + parent[s..];
    parent[s..] + parent[..s]
  }

  /** The loop of _fill_child, one gene of the rotated parent at a time: a gene
      not yet placed goes to position pos modulo the child's length, and pos moves on. */
  function Fill(child: seq<int>, genes: seq<int>, pos: nat, placed: set<int>): (c: seq<int>)
    requires |child| > 0
    ensures |c| == |child|
    decreases |genes|
  {
    if genes == [] then child
    else if genes[0] in placed then Fill(child, genes[1..], pos, placed)
    else Fill(child[pos % |child| := genes[0]], genes[1..], pos + 1, placed + {genes[0]})
  }

  /** The genes Fill writes, in the order it writes them: each gene not placed yet,
      once. */
  function Fresh(genes: seq<int>, placed: set<int>): seq<int>
    decreases |genes|
  {
    if genes == [] then []
    else if genes[0] in placed then Fresh(genes[1..], placed)
    else [genes[0]] + Fresh(genes[1..], placed + {genes[0]})
  }

  /** Writing xs[0], xs[1], ... at positions pos, pos + 1, ... modulo the length. */
  function WriteFrom(child: seq<int>, xs: seq<int>, pos: nat): (c: seq<int>)
    requires |child| > 0
    ensures |c| == |child|
    decreases |xs|
  {
    if xs == [] then child else WriteFrom(child[pos % |child| := xs[0]], xs[1..], pos + 1)
  }

  /** A child right after the cut is copied: the parent's genes inside the
      cut, -1 outside. */
  function Segment(p: seq<int>, c1: nat, c2: nat): (s: seq<int>)
    requires c1 <= c2 <= |p|
    ensures |s| == |p| && forall i | 0 <= i < |p| :: s[i] == if c1 <= i < c2 then p[i] else -1
  {
    seq(|p|, i requires 0 <= i < |p| => if c1 <= i < c2 then p[i] else -1)
  }

  /** One child of the order crossover: keep's slice [c1, c2), then the donor's
      genes from c2 on, cyclically. */
  function OxChild(keep: seq<int>, donor: seq<int>, c1: nat, c2: nat): (c: seq<int>)
    requires c1 < c2 <= |keep|
    ensures |c| == |keep|
  {
    var seg := Segment(keep, c1, c2);
    Fill(seg, Rotate(donor, c2), c2, Placed(seg))
  }

  /** random.randint(lo, hi) for the raw draw d: any value of [lo, hi] (see
      RandIntCovers), and ValueError for an empty range. */
  function RandInt(lo: int, hi: int, d: nat): (r: Result<int>)
    ensures r.Ok? <==> lo <= hi
    ensures r.Ok? ==> lo <= r.value <= hi
  {
    if hi < lo then Err(ValueError) else Ok(lo + Below(d, hi - lo + 1))
  }

  /** The two cut points: the first drawn from 0..size - 1, the second from first + 1..size. */
  function Cuts(size: nat, d: (nat, nat)): (r: Result<(nat, nat)>)
    ensures r.Ok? <==> size > 0
    ensures r.Err? ==> r.error == ValueError
    ensures r.Ok? ==> r.value.0 < r.value.1 <= size
  {
    match RandInt(0, size - 1, d.0)
    case Err(e) => Err(e)
    case Ok(c1) => Ok((c1, RandInt(c1 + 1, size, d.1).value))
  }

  /** _crossover: two children, each keeping its own parent's slice and filled
      from the other parent. */
  function CrossoverOf(p1: seq<int>, p2: seq<int>, d: (nat, nat)): (r: Result<(seq<int>, seq<int>)>)
    requires |p1| == |p2|
    ensures r.Ok? <==> |p1| > 0
    ensures r.Err? ==> r.error == ValueError
    ensures r.Ok? ==> |r.value.0| == |r.value.1| == |p1|
  {
    match Cuts(|p1|, d)
    case Err(e) => Err(e)
    case Ok((c1, c2)) => Ok((OxChild(p1, p2, c1, c2), OxChild(p2, p1, c1, c2)))
  }

  // ---------------------------------------------------------------------------
  // The code

  /** _fill_child, in place. */
  method FillChild(child: array<int>, parent: seq<int>, startPos: nat)
    requires child.Length > 0
    modifies child
    ensures child[..] == Fill(old(child[..]), Rotate(parent, startPos), startPos, Placed(old(child[..])))
  {
    var size := child.Length;
    var childSet := Placed(child[..]);
    var genes := Rotate(parent, startPos);
    var pos: nat := startPos;
    var i := 0;
    while i < |genes|
      invariant 0 <= i <= |genes|
      invariant Fill(child[..], genes[i..], pos, childSet)
                == Fill(old(child[..]), genes, startPos, Placed(old(child[..])))
    {
      var gene := genes[i];
      assert genes[i..][0] == gene && genes[i..][1..] == genes[i + 1..];
      if gene !in childSet {
        child[pos % size] := gene;
        childSet := childSet + {gene};
        pos := pos + 1;
      }
      i := i + 1;
    }
    assert genes[i..] == [];
  }

  /** _crossover for the raw draws of its two randint calls. */
  method Crossover(parent1: seq<int>, parent2: seq<int>, d: (nat, nat)) returns (r: Result<(seq<int>, seq<int>)>)
    requires |parent1| == |parent2|
    ensures r == CrossoverOf(parent1, parent2, d)
  {
    var size := |parent1|;
    var x1 := RandInt(0, size - 1, d.0);
    if x1.Err? {
      return Err(x1.error);
    }
    var cxPoint1: nat := x1.value;
    var cxPoint2: nat := RandInt(cxPoint1 + 1, size, d.1).value;
    var child1 := MakeChild(parent1, parent2, cxPoint1, cxPoint2);
    var child2 := MakeChild(parent2, parent1, cxPoint1, cxPoint2);
    r := Ok((child1, child2));
  }

  /** One child: its own parent's slice, then filled from the other parent. */
  method MakeChild(keep: seq<int>, donor: seq<int>, c1: nat, c2: nat) returns (c: seq<int>)
    requires c1 < c2 <= |keep|
    ensures c == OxChild(keep, donor, c1, c2)
  {
    var child := NewChild(keep, c1, c2);
    FillChild(child, donor, c2);
    c := child[..];
  }

  /** A new child of the parent's length, empty (-1) everywhere but the cut, which holds the parent's genes. */
  method NewChild(parent: seq<int>, c1: nat, c2: nat) returns (child: array<int>)
    requires c1 <= c2 <= |parent|
    ensures fresh(child) && child[..] == Segment(parent, c1, c2)
  {
    child := new int[|parent|](_ => -1);
    forall i | c1 <= i < c2 {
      child[i] := parent[i];
    }
    assert child[..] == Segment(parent, c1, c2);
  }

  // ---------------------------------------------------------------------------
  // What the crossover promises

  /** Every value of [lo, hi] is the outcome of some draw. */
  lemma {:induction false} RandIntCovers(lo: int, hi: int, x: int)
    requires lo <= x <= hi
    ensures RandInt(lo, hi, (x - lo) as nat) == Ok(x)
  {
  }

  /** Fill writes the fresh genes one after the other. */
  lemma {:induction false} FillIsWrite(child: seq<int>, genes: seq<int>, pos: nat, placed: set<int>)
    requires |child| > 0
    ensures Fill(child, genes, pos, placed) == WriteFrom(child, Fresh(genes, placed), pos)
    decreases |genes|
  {
    if genes != [] {
      if genes[0] in placed {
        FillIsWrite(child, genes[1..], pos, placed);
      } else {
        var rest := Fresh(genes[1..], placed + {genes[0]});
        assert ([genes[0]] + rest)[0] == genes[0] && ([genes[0]] + rest)[1..] == rest;
        FillIsWrite(child[pos % |child| := genes[0]], genes[1..], pos + 1, placed + {genes[0]});
      }
    }
  }

  /** Where the k-th of the values written from pos lands. */
  function Slot(pos: nat, k: nat, size: nat): nat
    requires size > 0
  {
    (pos + k) % size
  }

  lemma {:induction false} ModShift(pos: nat, m: nat, size: nat)
    requires size > 0 && 0 < m < size
    ensures Slot(pos, m, size) != Slot(pos, 0, size)
  {
    var q, r := pos / size, pos % size;
    if r + m < size {
      DivModUnique(pos + m, size, q, r + m);
    } else {
      DivModUnique(pos + m, size, q + 1, r + m - size);
    }
  }

  /** At most one lap: the k-th value lands at Slot(pos, k), and the other
      positions keep what they held. */
  lemma {:induction false} WriteFromAt(child: seq<int>, xs: seq<int>, pos: nat)
    requires |child| > 0 && |xs| <= |child|
    ensures forall k | 0 <= k < |xs| :: WriteFrom(child, xs, pos)[Slot(pos, k, |child|)] == xs[k]
    ensures forall j | 0 <= j < |child| && (forall k | 0 <= k < |xs| :: Slot(pos, k, |child|) != j) ::
              WriteFrom(child, xs, pos)[j] == child[j]
    decreases |xs|
  {
    if xs != [] {
      var size := |child|;
      var c' := child[pos % size := xs[0]];
      WriteFromAt(c', xs[1..], pos + 1);
      var w := WriteFrom(child, xs, pos);
      assert w == WriteFrom(c', xs[1..], pos + 1);
      forall k | 0 <= k < |xs| ensures w[Slot(pos, k, size)] == xs[k] {
        if k == 0 {
          var next := pos + 1;
          forall k' | 0 <= k' < |xs| - 1 ensures Slot(next, k', size) != Slot(pos, 0, size) {
            ModShift(pos, 1 + k', size);
          }
        } else {
          assert Slot(pos, k, size) == Slot(pos + 1, k - 1, size);
          assert xs[1..][k - 1] == xs[k];
        }
      }
      forall j | 0 <= j < size && (forall k | 0 <= k < |xs| :: Slot(pos, k, size) != j) ensures w[j] == child[j] {
        assert Slot(pos, 0, size) != j;
        var next := pos + 1;
        forall k' | 0 <= k' < |xs| - 1 ensures Slot(next, k', size) != j {
          assert Slot(pos, k' + 1, size) != j;
        }
      }
    }
  }

  lemma {:induction false} ModWrap(p: nat, size: nat)
    requires size > 0 && p < 2 * size
    ensures p % size == if p < size then p else p - size
  {
    if p < size {
      DivModUnique(p, size, 0, p);
    } else {
      DivModUnique(p, size, 1, p - size);
    }
  }

  /** A list without duplicates counts each value at most once, and conversely. */
  lemma {:induction false} NoDupCounts(s: seq<int>)
    ensures NoDup(s) <==> forall x :: multiset(s)[x] <= 1
    decreases |s|
  {
    if s != [] {
      var t := s[1..];
      NoDupCounts(t);
      NoDupCons(s);
      assert s == [s[0]] + t;
      assert forall x :: multiset(s)[x] == multiset(t)[x] + (if x == s[0] then 1 else 0);
      assert s[0] in t <==> multiset(t)[s[0]] > 0;
    }
  }

  /** For distinct genes, the fresh ones are the genes not placed, each counted once. */
  lemma {:induction false} FreshCounts(genes: seq<int>, placed: set<int>)
    requires NoDup(genes)
    ensures forall x :: multiset(Fresh(genes, placed))[x] == if x in placed then 0 else multiset(genes)[x]
    decreases |genes|
  {
    if genes != [] {
      var g, tail := genes[0], genes[1..];
      assert genes == [g] + tail;
      assert forall i, j | 0 <= i < j < |tail| :: tail[i] == genes[i + 1] && tail[j] == genes[j + 1];
      assert g !in tail;
      if g in placed {
        FreshCounts(tail, placed);
      } else {
        FreshCounts(tail, placed + {g});
      }
    }
  }

  /** For genes other than -1, the placed genes of a segment are those of its slice. */
  lemma {:induction false} PlacedSlice(keep: seq<int>, c1: nat, c2: nat)
    requires c1 <= c2 <= |keep|
    requires forall i | 0 <= i < |keep| :: keep[i] != -1
    ensures forall x :: x in Placed(Segment(keep, c1, c2)) <==> x in keep[c1..c2]
  {
    var seg := Segment(keep, c1, c2);
    forall x ensures x in Placed(seg) <==> x in keep[c1..c2] {
      if x in keep[c1..c2] {
        var i :| 0 <= i < c2 - c1 && keep[c1..c2][i] == x;
        assert seg[c1 + i] == x;
      }
      if x in seg && x != -1 {
        var i :| 0 <= i < |seg| && seg[i] == x;
        assert keep[c1..c2][i - c1] == x;
      }
    }
  }

  /** A list counting every value of a distinct list outside a slice, and nothing
      else, makes up the list together with the slice. */
  lemma {:induction false} OutsideSlice(keep: seq<int>, c1: nat, c2: nat, rest: seq<int>)
    requires c1 <= c2 <= |keep| && NoDup(keep)
    requires forall x :: multiset(rest)[x] == if x in keep[c1..c2] then 0 else multiset(keep)[x]
    ensures multiset(rest) + multiset(keep[c1..c2]) == multiset(keep)
    ensures |rest| == |keep| - (c2 - c1)
  {
    var m := multiset(keep[c1..c2]);
    NoDupCounts(keep);
    assert keep == keep[..c1] + keep[c1..c2] + keep[c2..];
    assert multiset(keep) == multiset(keep[..c1]) + m + multiset(keep[c2..]);
    forall x ensures (multiset(rest) + m)[x] == multiset(keep)[x] {
      if x in keep[c1..c2] {
        assert x in m;
      }
    }
    assert multiset(rest) + m == multiset(keep);
    assert |multiset(rest) + m| == |rest| + (c2 - c1);
  }

  /** The genes Fill hands out for a child of the crossover: exactly the keeper's
      genes outside its slice, when the donor is a permutation of the keeper. */
  lemma {:induction false} RestOfChild(keep: seq<int>, donor: seq<int>, c1: nat, c2: nat)
    requires c1 < c2 <= |keep| == |donor|
    requires NoDup(keep) && multiset(keep) == multiset(donor)
    requires forall i | 0 <= i < |keep| :: keep[i] != -1
    ensures multiset(Fresh(Rotate(donor, c2), Placed(Segment(keep, c1, c2)))) + multiset(keep[c1..c2]) == multiset(keep)
    ensures |Fresh(Rotate(donor, c2), Placed(Segment(keep, c1, c2)))| == |keep| - (c2 - c1)
  {
    var genes := Rotate(donor, c2);
    var placed := Placed(Segment(keep, c1, c2));
    PlacedSlice(keep, c1, c2);
    NoDupCounts(keep);
    NoDupCounts(genes);
    FreshCounts(genes, placed);
    OutsideSlice(keep, c1, c2, Fresh(genes, placed));
  }

  /** Writing rest from c2 around a segment fills c2.. and then ..c1, in order. */
  lemma {:induction false} WriteLayout(keep: seq<int>, rest: seq<int>, c1: nat, c2: nat)
    requires c1 < c2 <= |keep| && |rest| == |keep| - (c2 - c1)
    ensures WriteFrom(Segment(keep, c1, c2), rest, c2) == rest[|keep| - c2..] + keep[c1..c2] + rest[..|keep| - c2]
  {
    var size := |keep|;
    var seg := Segment(keep, c1, c2);
    WriteFromAt(seg, rest, c2);
    var child := WriteFrom(seg, rest, c2);
    var layout := rest[size - c2..] + keep[c1..c2] + rest[..size - c2];
    forall j | 0 <= j < size ensures child[j] == layout[j] {
      if j < c1 {
        ModWrap(c2 + (j + size - c2), size);
        assert Slot(c2, j + size - c2, size) == j;
      } else if j < c2 {
        forall k | 0 <= k < |rest| ensures Slot(c2, k, size) != j {
          ModWrap(c2 + k, size);
        }
      } else {
        ModWrap(c2 + (j - c2), size);
        assert Slot(c2, j - c2, size) == j;
      }
    }
  }

  /** The layout of a child: the keeper's slice in place, and the fresh genes from
      c2 to the end and then from the start up to c1. */
  lemma {:induction false} OxLayout(keep: seq<int>, donor: seq<int>, c1: nat, c2: nat)
    requires c1 < c2 <= |keep| == |donor|
    requires NoDup(keep) && multiset(keep) == multiset(donor)
    requires forall i | 0 <= i < |keep| :: keep[i] != -1
    ensures var rest := Fresh(Rotate(donor, c2), Placed(Segment(keep, c1, c2)));
      && |rest| == |keep| - (c2 - c1)
      && OxChild(keep, donor, c1, c2) == rest[|keep| - c2..] + keep[c1..c2] + rest[..|keep| - c2]
  {
    var seg, genes := Segment(keep, c1, c2), Rotate(donor, c2);
    RestOfChild(keep, donor, c1, c2);
    FillIsWrite(seg, genes, c2, Placed(seg));
    WriteLayout(keep, Fresh(genes, Placed(seg)), c1, c2);
  }

  /** The crossover of two permutations of the same genes: the child is a
      permutation of them too, it keeps the slice, and read cyclically from c2 its
      other positions are the donor's remaining genes in the donor's cyclic order. */
  lemma {:induction false} OxPermutation(keep: seq<int>, donor: seq<int>, c1: nat, c2: nat)
    requires c1 < c2 <= |keep| == |donor|
    requires NoDup(keep) && multiset(keep) == multiset(donor)
    requires forall i | 0 <= i < |keep| :: keep[i] != -1
    ensures multiset(OxChild(keep, donor, c1, c2)) == multiset(keep)
    ensures NoDup(OxChild(keep, donor, c1, c2))
    ensures OxChild(keep, donor, c1, c2)[c1..c2] == keep[c1..c2]
    ensures OxChild(keep, donor, c1, c2)[c2..] + OxChild(keep, donor, c1, c2)[..c1]
            == Fresh(Rotate(donor, c2), Placed(Segment(keep, c1, c2)))
  {
    var size := |keep|;
    var rest := Fresh(Rotate(donor, c2), Placed(Segment(keep, c1, c2)));
    OxLayout(keep, donor, c1, c2);
    RestOfChild(keep, donor, c1, c2);
    var child := OxChild(keep, donor, c1, c2);
    var a, b := rest[size - c2..], rest[..size - c2];
    assert rest == b + a;
    Reassembled(child, a, keep[c1..c2], b);
    NoDupCounts(keep);
    NoDupCounts(child);
  }

  /** A list made of three parts, read from its middle part's end, cyclically. */
  lemma {:induction false} Reassembled(child: seq<int>, a: seq<int>, s: seq<int>, b: seq<int>)
    requires child == a + s + b
    ensures multiset(child) == multiset(b + a) + multiset(s)
    ensures child[|a|..|a| + |s|] == s
    ensures child[|a| + |s|..] + child[..|a|] == b + a
  {
    assert child[|a|..|a| + |s|] == s;
    assert child[|a| + |s|..] == b && child[..|a|] == a;
  }

  /** Both children of the crossover of two permutations of the same genes are
      permutations of them. */
  lemma {:induction false} CrossoverPermutation(p1: seq<int>, p2: seq<int>, d: (nat, nat))
    requires |p1| == |p2| && NoDup(p1) && multiset(p1) == multiset(p2)
    requires forall i | 0 <= i < |p1| :: p1[i] != -1
    ensures CrossoverOf(p1, p2, d).Ok? ==>
              && multiset(CrossoverOf(p1, p2, d).value.0) == multiset(p1)
              && multiset(CrossoverOf(p1, p2, d).value.1) == multiset(p1)
  {
    if |p1| > 0 {
      var (c1, c2) := Cuts(|p1|, d).value;
      OxPermutation(p1, p2, c1, c2);
      NoDupCounts(p1);
      NoDupCounts(p2);
      assert forall i | 0 <= i < |p2| :: p2[i] != -1 by {
        forall i | 0 <= i < |p2| ensures p2[i] != -1 {
          assert p2[i] in multiset(p1);
        }
      }
      OxPermutation(p2, p1, c1, c2);
    }
  }
}
