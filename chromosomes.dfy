/** The chromosomes of the genetic optimizer: permutations of the room indices
    0..R-1, read as consecutive blocks of rooms, one block per responder. The
    random choices of Python's `random` module are given as raw draws, and each
    operation turns them into a value the way the library call would. */
module Chromosomes {
  import opened Common
  import opened Sweep
  import opened Dealing
  import opened OrderCrossover

  /** A supply of raw random draws: the i-th draw of one call. */
  type Draws = nat -> nat

  ghost predicate IsPermutation(c: seq<int>, nRooms: nat) {
    multiset(c) == multiset(Range(nRooms))
  }

  // ---------------------------------------------------------------------------
  // random.sample and random.shuffle

  /** Removes pool[i]. */
  function Without(pool: seq<int>, i: nat): (p: seq<int>)
    requires i < |pool|
    ensures |p| == |pool| - 1
  {
    pool[..i] + pool[i + 1..]
  }

  lemma {:induction false} WithoutFacts(pool: seq<int>, i: nat)
    requires i < |pool| && NoDup(pool)
    ensures NoDup(Without(pool, i)) && pool[i] !in Without(pool, i)
    ensures forall x | x in Without(pool, i) :: x in pool
  {
    var p := Without(pool, i);
    assert forall j | 0 <= j < |p| :: p[j] == if j < i then pool[j] else pool[j + 1];
  }

  /** k picks from the pool, each taking one of the values still left. */
  function Picks(pool: seq<int>, k: nat, draws: Draws, j: nat): (s: seq<int>)
    requires k <= |pool|
    ensures |s| == k
    decreases k
  {
    if k == 0 then []
    else
      var i := Below(draws(j), |pool|);
      [pool[i]] + Picks(Without(pool, i), k - 1, draws, j + 1)
  }

  lemma {:induction false} PicksDistinct(pool: seq<int>, k: nat, draws: Draws, j: nat)
    requires k <= |pool| && NoDup(pool)
    ensures NoDup(Picks(pool, k, draws, j))
    ensures forall x | x in Picks(pool, k, draws, j) :: x in pool
    decreases k
  {
    if k > 0 {
      var i := Below(draws(j), |pool|);
      WithoutFacts(pool, i);
      PicksDistinct(Without(pool, i), k - 1, draws, j + 1);
      var s := Picks(pool, k, draws, j);
      assert s == [pool[i]] + Picks(Without(pool, i), k - 1, draws, j + 1);
      assert forall a | 1 <= a < |s| :: s[a] == Picks(Without(pool, i), k - 1, draws, j + 1)[a - 1];
    }
  }

  /** Sampling k of the indices below n: k distinct indices, and ValueError when
      k exceeds n. */
  function Sample(n: nat, k: nat, draws: Draws): (r: Result<seq<int>>)
    ensures r.Ok? <==> k <= n
    ensures r.Err? ==> r.error == ValueError
    ensures r.Ok? ==> |r.value| == k
  {
    if k > n then Err(ValueError) else Ok(Picks(Range(n), k, draws, 0))
  }

  lemma {:induction false} SampleDistinct(n: nat, k: nat, draws: Draws)
    requires k <= n
    ensures NoDup(Sample(n, k, draws).value)
    ensures forall i | 0 <= i < k :: 0 <= Sample(n, k, draws).value[i] < n
  {
    PicksDistinct(Range(n), k, draws, 0);
    var s := Sample(n, k, draws).value;
    forall i | 0 <= i < k ensures 0 <= s[i] < n {
      assert s[i] in s;
      var j :| 0 <= j < n && Range(n)[j] == s[i];
    }
  }

  /** s with the elements at positions i and j exchanged. */
  function Swap(s: seq<int>, i: nat, j: nat): (r: seq<int>)
    requires i < |s| && j < |s|
    ensures |r| == |s| && r[i] == s[j] && r[j] == s[i]
    ensures forall k | 0 <= k < |s| && k != i && k != j :: r[k] == s[k]
    ensures multiset(r) == multiset(s)
  {
    s[i := s[j]][j := s[i]]
  }

  /** The Fisher-Yates steps of random.shuffle for i, i-1, ..., 1: step i swaps
      position i with a position drawn from [0, i]. */
  function FisherYates(s: seq<int>, i: nat, draws: Draws): (r: seq<int>)
    requires i < |s|
    ensures |r| == |s| && multiset(r) == multiset(s)
    decreases i
  {
    if i == 0 then s else FisherYates(Swap(s, i, Below(draws(|s| - 1 - i), i + 1)), i - 1, draws)
  }

  /** Python's shuffle of s, driven by the given draws. */
  function Shuffle(s: seq<int>, draws: Draws): (r: seq<int>)
    ensures |r| == |s| && multiset(r) == multiset(s)
  {
    if |s| <= 1 then s else FisherYates(s, |s| - 1, draws)
  }

  /** _initialize_population: population_size shuffles of the indices 0..R - 1. */
  method InitializePopulation(populationSize: nat, nRooms: nat, shuffles: nat -> Draws)
    returns (population: seq<seq<int>>)
    ensures |population| == populationSize
    ensures forall k | 0 <= k < populationSize :: population[k] == Shuffle(Range(nRooms), shuffles(k))
  {
    population := [];
    var k := 0;
    while k < populationSize
      invariant 0 <= k <= populationSize && |population| == k
      invariant forall m | 0 <= m < k :: population[m] == Shuffle(Range(nRooms), shuffles(m))
    {
      var chromosome := Range(nRooms);
      chromosome := Shuffle(chromosome, shuffles(k));
      population := population + [chromosome];
      k := k + 1;
    }
  }

  // ---------------------------------------------------------------------------
  // Swap mutation

  /** _mutate: a copy with two distinct positions, drawn by random.sample, swapped;
      ValueError for fewer than two genes. */
  function Mutation(c: seq<int>, draws: Draws): (r: Result<seq<int>>)
    ensures r.Ok? <==> |c| >= 2
    ensures r.Err? ==> r.error == ValueError
    ensures r.Ok? ==> |r.value| == |c| && multiset(r.value) == multiset(c)
  {
    match Sample(|c|, 2, draws)
    case Err(e) => Err(e)
    case Ok(ix) =>
      SampleDistinct(|c|, 2, draws);
      Ok(Swap(c, ix[0], ix[1]))
  }

  method Mutate(chromosome: seq<int>, draws: Draws) returns (r: Result<seq<int>>)
    ensures r == Mutation(chromosome, draws)
  {
    var mutant := new int[|chromosome|](i requires 0 <= i < |chromosome| => chromosome[i]);
    var picks := Sample(mutant.Length, 2, draws);
    if picks.Err? {
      return Err(picks.error);
    }
    SampleDistinct(mutant.Length, 2, draws);
    var idx1, idx2 := picks.value[0], picks.value[1];
    mutant[idx1], mutant[idx2] := mutant[idx2], mutant[idx1];
    assert mutant[..] == Swap(chromosome, idx1, idx2);
    r := Ok(mutant[..]);
  }

  /** A mutant of a chromosome without repeated genes differs from it in exactly two
      positions, which hold each other's genes. */
  lemma {:induction false} MutationSwapsTwo(c: seq<int>, draws: Draws)
    requires NoDup(c) && |c| >= 2
    ensures var m := Mutation(c, draws).value;
      exists i, j | 0 <= i < j < |c| ::
        && m[i] == c[j] && m[j] == c[i] && m[i] != c[i] && m[j] != c[j]
        && forall k | 0 <= k < |c| && k != i && k != j :: m[k] == c[k]
  {
    SampleDistinct(|c|, 2, draws);
    var ix := Sample(|c|, 2, draws).value;
    var m := Mutation(c, draws).value;
    assert m == Swap(c, ix[0], ix[1]);
    var lo, hi := if ix[0] < ix[1] then ix[0] else ix[1], if ix[0] < ix[1] then ix[1] else ix[0];
    assert 0 <= lo < hi < |c| && c[lo] != c[hi];
    assert m[lo] == c[hi] && m[hi] == c[lo];
    assert forall k | 0 <= k < |c| && k != lo && k != hi :: m[k] == c[k];
  }

  // ---------------------------------------------------------------------------
  // Decoding

  /** The room id at a gene, with Python's negative indices counting from the end. */
  function RoomAt(roomIds: seq<string>, g: int): (r: Result<string>)
    ensures r.Ok? <==> -|roomIds| <= g < |roomIds|
    ensures r.Err? ==> r.error == IndexError
    ensures r.Ok? && g >= 0 ==> r.value == roomIds[g]
  {
    if 0 <= g < |roomIds| then Ok(roomIds[g])
    else if -|roomIds| <= g < 0 then Ok(roomIds[|roomIds| + g])
    else Err(IndexError)
  }

  /** The rooms a chromosome names, in its order; IndexError at the first gene that
      is out of range. */
  function RoomsOf(roomIds: seq<string>, c: seq<int>): (r: Result<seq<string>>)
    ensures r.Ok? ==> |r.value| == |c|
    decreases |c|
  {
    if c == [] then Ok([])
    else match RoomsOf(roomIds, c[..|c| - 1])
      case Err(e) => Err(e)
      case Ok(names) =>
        match RoomAt(roomIds, c[|c| - 1])
        case Err(e) => Err(e)
        case Ok(x) => Ok(names + [x])
  }

  lemma {:induction false} MulLe(a: nat, b: nat, c: nat)
    requires a <= b
    ensures a * c <= b * c
  {
    assert b * c - a * c == (b - a) * c;
  }

  /** The block boundaries of n responders over len positions: responder k takes
      [b[k], b[k + 1]), where b[k] = k * (len // n) and the last block runs to len. */
  function Bounds(n: nat, len: nat): (b: seq<nat>)
    requires n > 0
    ensures |b| == n + 1 && b[0] == 0 && b[n] == len
    ensures forall k | 0 <= k < n :: b[k] == k * (len / n)
    ensures forall k, k' | 0 <= k <= k' <= n :: b[k] <= b[k']
  {
    var per := len / n;
    var b: seq<nat> := seq(n + 1, k requires 0 <= k <= n => if k == n then len else k * per);
    assert n * per <= len;
    forall k, k' | 0 <= k <= k' <= n ensures b[k] <= b[k'] {
      if k' < n {
        MulLe(k, k', per);
      } else {
        MulLe(k, n, per);
      }
    }
    b
  }

  /** _chromosome_to_assignment: with per = R // n, responder k (0-based) gets the
      rooms of positions [k * per, (k + 1) * per), and the last one runs to the end.
      Computing per divides by zero for no responder, and computing an owner divides by
      zero for a chromosome with fewer genes than responders. */
  function Decode(roomIds: seq<string>, c: seq<int>, n: nat): (r: Result<Assignment>)
    ensures r.Ok? ==> |r.value| == n
  {
    if n == 0 then Err(ZeroDivision)
    else if c != [] && |c| / n == 0 then Err(ZeroDivision)
    else match RoomsOf(roomIds, c)
      case Err(e) => Err(e)
      case Ok(names) =>
        var b := Bounds(n, |c|);
        Ok(seq(n, k requires 0 <= k < n => names[b[k]..b[k + 1]]))
  }

  /** The 0-based responder of position i: i div per, but at most n - 1. */
  function Owner(i: nat, per: nat, n: nat): nat
    requires per > 0 && n > 0
  {
    if i / per < n - 1 then i / per else n - 1
  }

  /** Position i lies in its owner's block, and so in no other. */
  lemma {:induction false} OwnerBlock(i: nat, n: nat, len: nat)
    requires n > 0 && len / n > 0 && i < len
    ensures Owner(i, len / n, n) < n
    ensures Bounds(n, len)[Owner(i, len / n, n)] <= i < Bounds(n, len)[Owner(i, len / n, n) + 1]
  {
    var per, b := len / n, Bounds(n, len);
    var q, r := i / per, i % per;
    assert i == q * per + r && 0 <= r < per;
    if q < n - 1 {
      assert b[q + 1] == (q + 1) * per == q * per + per;
    } else {
      MulLe(n - 1, q, per);
    }
  }

  function Clip(x: nat, i: nat): nat {
    if x < i then x else i
  }

  /** The lists after the first i positions: each block cut off at i. */
  ghost predicate PartlyDealt(a: Assignment, names: seq<string>, i: nat, b: seq<nat>)
    requires |names| == i && |b| > 0
    requires forall k, k' | 0 <= k <= k' < |b| :: b[k] <= b[k']
  {
    && |a| == |b| - 1
    && forall k | 0 <= k < |a| :: a[k] == names[Clip(b[k], i) .. Clip(b[k + 1], i)]
  }

  lemma {:induction false} SliceGrows(names: seq<string>, x: string, lo: nat, hi: nat, i: nat)
    requires |names| == i && lo <= i < hi
    ensures (names + [x])[Clip(lo, i + 1) .. Clip(hi, i + 1)] == names[Clip(lo, i) .. Clip(hi, i)] + [x]
  {
  }

  lemma {:induction false} SliceStays(names: seq<string>, x: string, lo: nat, hi: nat, i: nat)
    requires |names| == i && lo <= hi && (i < lo || hi <= i)
    ensures (names + [x])[Clip(lo, i + 1) .. Clip(hi, i + 1)] == names[Clip(lo, i) .. Clip(hi, i)]
  {
  }

  /** Appending position i's room to its owner's list keeps the lists cut at i + 1. */
  lemma {:induction false} DealNext(a: Assignment, names: seq<string>, x: string, i: nat, n: nat, len: nat)
    requires n > 0 && len / n > 0 && i < len && |names| == i
    requires PartlyDealt(a, names, i, Bounds(n, len))
    ensures Owner(i, len / n, n) < n
    ensures var o := Owner(i, len / n, n);
      PartlyDealt(a[o := a[o] + [x]], names + [x], i + 1, Bounds(n, len))
  {
    var o, b := Owner(i, len / n, n), Bounds(n, len);
    OwnerBlock(i, n, len);
    var a' := a[o := a[o] + [x]];
    forall k | 0 <= k < n ensures a'[k] == (names + [x])[Clip(b[k], i + 1) .. Clip(b[k + 1], i + 1)] {
      if k == o {
        SliceGrows(names, x, b[k], b[k + 1], i);
      } else if k < o {
        SliceStays(names, x, b[k], b[k + 1], i);
      } else {
        SliceStays(names, x, b[k], b[k + 1], i);
      }
    }
  }

  method ChromosomeToAssignment(roomIds: seq<string>, chromosome: seq<int>, n: nat) returns (r: Result<Assignment>)
    ensures r == Decode(roomIds, chromosome, n)
  {
    var assignment: Assignment := Repeat([], n);
    if n == 0 {
      return Err(ZeroDivision);
    }
    var roomsPerResponder := |chromosome| / n;
    ghost var b := Bounds(n, |chromosome|);
    ghost var names: seq<string> := [];
    var i := 0;
    assert chromosome[..0] == [];
    while i < |chromosome|
      invariant 0 <= i <= |chromosome| && |names| == i
      invariant RoomsOf(roomIds, chromosome[..i]) == Ok(names)
      invariant PartlyDealt(assignment, names, i, b)
      invariant i > 0 ==> roomsPerResponder > 0
    {
      if roomsPerResponder == 0 {
        return Err(ZeroDivision);
      }
      var responderIndex := Owner(i, roomsPerResponder, n);
      var room := RoomAt(roomIds, chromosome[i]);
      assert chromosome[..i + 1][..i] == chromosome[..i] && chromosome[..i + 1][i] == chromosome[i];
      if room.Err? {
        RoomsOfPrefix(roomIds, chromosome, i + 1);
        return Err(room.error);
      }
      DealNext(assignment, names, room.value, i, n, |chromosome|);
      assignment := assignment[responderIndex := assignment[responderIndex] + [room.value]];
      names := names + [room.value];
      i := i + 1;
    }
    assert chromosome[..i] == chromosome;
    AllDealt(assignment, names, b);
    r := Ok(assignment);
  }

  /** Once every position is dealt, each list is its whole block. */
  lemma {:induction false} AllDealt(a: Assignment, names: seq<string>, b: seq<nat>)
    requires |b| > 0 && b[|b| - 1] == |names|
    requires forall k, k' | 0 <= k <= k' < |b| :: b[k] <= b[k']
    requires PartlyDealt(a, names, |names|, b)
    ensures a == seq(|b| - 1, k requires 0 <= k < |b| - 1 => names[b[k]..b[k + 1]])
  {
  }

  /** RoomsOf stops at the first bad gene: a failing prefix fails the whole. */
  lemma {:induction false} RoomsOfPrefix(roomIds: seq<string>, c: seq<int>, i: nat)
    requires i <= |c| && RoomsOf(roomIds, c[..i]).Err?
    ensures RoomsOf(roomIds, c) == RoomsOf(roomIds, c[..i])
    decreases |c| - i
  {
    if i < |c| {
      assert c[..i + 1][..i] == c[..i];
      RoomsOfPrefix(roomIds, c, i + 1);
    } else {
      assert c[..i] == c;
    }
  }

  // ---------------------------------------------------------------------------
  // What decoding promises

  /** Genes in range name the rooms at those indices. */
  lemma {:induction false} RoomsOfInRange(roomIds: seq<string>, c: seq<int>)
    requires forall i | 0 <= i < |c| :: 0 <= c[i] < |roomIds|
    ensures RoomsOf(roomIds, c).Ok?
    ensures forall i | 0 <= i < |c| :: RoomsOf(roomIds, c).value[i] == roomIds[c[i]]
    decreases |c|
  {
    if c != [] {
      RoomsOfInRange(roomIds, c[..|c| - 1]);
    }
  }

  /** A permutation of 0..R-1 has each gene in range, once. */
  lemma {:induction false} PermutationGenes(c: seq<int>, nRooms: nat)
    requires IsPermutation(c, nRooms)
    ensures |c| == nRooms && NoDup(c)
    ensures forall i | 0 <= i < |c| :: 0 <= c[i] < nRooms
  {
    assert |multiset(c)| == |multiset(Range(nRooms))|;
    forall i | 0 <= i < |c| ensures 0 <= c[i] < nRooms {
      assert c[i] in multiset(Range(nRooms));
    }
    assert NoDup(Range(nRooms));
    NoDupCounts(Range(nRooms));
    NoDupCounts(c);
  }

  /** Decoding fails only by dividing by zero (no responder, or fewer genes than
      responders) or on a gene out of range. */
  lemma {:induction false} DecodeFails(roomIds: seq<string>, c: seq<int>, n: nat)
    ensures Decode(roomIds, c, n).Err? <==> n == 0 || 0 < |c| < n || RoomsOf(roomIds, c).Err?
    ensures n == 0 || 0 < |c| < n ==> Decode(roomIds, c, n) == Err(ZeroDivision)
  {
    if n > 0 && |c| >= n {
      MulLe(1, |c| / n, n);
      assert |c| / n >= 1;
    }
  }

  /** A permutation of the room indices decodes unless there is no responder or
      there are fewer rooms than responders, and then by dividing by zero. */
  lemma {:induction false} DecodePermutation(roomIds: seq<string>, c: seq<int>, n: nat)
    requires IsPermutation(c, |roomIds|)
    ensures Decode(roomIds, c, n).Err? <==> n == 0 || 0 < |roomIds| < n
    ensures Decode(roomIds, c, n).Err? ==> Decode(roomIds, c, n).error == ZeroDivision
  {
    PermutationGenes(c, |roomIds|);
    RoomsOfInRange(roomIds, c);
    DecodeFails(roomIds, c, n);
  }

  /** Consecutive slices, concatenated, are the whole stretch they cover. */
  lemma {:induction false} BlocksFlatten(a: Assignment, names: seq<string>, b: seq<nat>, k: nat)
    requires |b| == |a| + 1 && k <= |a| && b[|a|] == |names|
    requires forall j, j' | 0 <= j <= j' < |b| :: b[j] <= b[j']
    requires forall j | 0 <= j < |a| :: a[j] == names[b[j]..b[j + 1]]
    ensures Flatten(a[k..]) == names[b[k]..]
    decreases |a| - k
  {
    if k < |a| {
      BlocksFlatten(a, names, b, k + 1);
      assert a[k..][0] == a[k] && a[k..][1..] == a[k + 1..];
      assert names[b[k]..] == names[b[k]..b[k + 1]] + names[b[k + 1]..];
    } else {
      assert a[k..] == [];
    }
  }

  /** The blocks of a decoding, concatenated in responder order, are the rooms of the
      chromosome in its order. */
  lemma {:induction false} DecodeFlatten(roomIds: seq<string>, c: seq<int>, n: nat)
    requires Decode(roomIds, c, n).Ok?
    ensures Flatten(Decode(roomIds, c, n).value) == RoomsOf(roomIds, c).value
  {
    var names := RoomsOf(roomIds, c).value;
    var a := Decode(roomIds, c, n).value;
    BlocksFlatten(a, names, Bounds(n, |c|), 0);
    assert a[0..] == a && names[0..] == names;
  }

  /** Position i's room goes to responder min(i // per, n - 1) + 1, at its place
      within that responder's block. */
  lemma {:induction false} DecodeOwner(roomIds: seq<string>, c: seq<int>, n: nat, i: nat)
    requires Decode(roomIds, c, n).Ok? && i < |c|
    ensures n > 0 && |c| / n > 0
    ensures var per, a := |c| / n, Decode(roomIds, c, n).value;
      var o := Owner(i, per, n);
      && o * per <= i < o * per + |a[o]|
      && a[o][i - o * per] == RoomsOf(roomIds, c).value[i]
  {
    OwnerBlock(i, n, |c|);
  }

  /** Every responder but the last gets per = R // n rooms, and the last one the
      remainder. */
  lemma {:induction false} DecodeSizes(roomIds: seq<string>, c: seq<int>, n: nat)
    requires Decode(roomIds, c, n).Ok?
    ensures n > 0
    ensures forall k | 0 <= k < n - 1 :: |Decode(roomIds, c, n).value[k]| == |c| / n
    ensures |Decode(roomIds, c, n).value[n - 1]| == |c| - (n - 1) * (|c| / n)
  {
    var per, b := |c| / n, Bounds(n, |c|);
    forall k | 0 <= k < n - 1 ensures |Decode(roomIds, c, n).value[k]| == per {
      assert b[k + 1] - b[k] == (k + 1) * per - k * per == per;
    }
  }
}
