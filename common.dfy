/** Shared vocabulary of the sweep-planning model: optional values, the errors the
    Python code raises, floats that may be infinite, points, and a few sequence
    helpers. */
module Common {

  datatype Option<+T> = None | Some(value: T) {
    function GetOr(default: T): T {
      match this
      case Some(v) => v
      case None => default
    }
  }

  /** The exceptions the modelled code raises and does not catch. */
  datatype Error =
    | NodeNotFound(source: string, target: string)  // networkx.NodeNotFound
    | ResponderNotFound(id: int)                     // ValueError in get_responder
    | EmptyMax                                       // max() of an empty sequence
    | ZeroDivision                                   // ZeroDivisionError
    | NoSolution                                     // len(None) when decoding no chromosome
    | IndexError                                     // a list index out of range
    | ValueError                                     // random.sample/randint on too small a range, argmin of []
    | KeyError                                       // a dictionary lookup of a missing key

  datatype Result<+T> = Ok(value: T) | Err(error: Error)

  /** A Python float that may be positive infinity. */
  datatype Ext = Fin(v: real) | Inf {
    /** Python's `<` on floats, with inf above every finite value. */
    predicate Lt(other: Ext) {
      match (this, other)
      case (Fin(a), Fin(b)) => a < b
      case (Fin(_), Inf) => true
      case (Inf, _) => false
    }
  }

  datatype Point = Point(x: real, y: real)

  /** The Euclidean distance between two points, supplied by the caller: the model never computes a square root. */
  type Norm = (Point, Point) -> real

  ghost predicate NonNegativeNorm(norm: Norm) {
    forall p, q :: norm(p, q) >= 0.0
  }

  function Midpoint(p: Point, q: Point): (m: Point)
    ensures m.x - p.x == q.x - m.x && m.y - p.y == q.y - m.y
  {
    Point((p.x + q.x) / 2.0, (p.y + q.y) / 2.0)
  }

  function Abs(r: real): (a: real)
    ensures a >= 0.0 && (a == r || a == -r)
  {
    if r < 0.0 then -r else r
  }

  ghost predicate NoDup<T>(s: seq<T>) {
    forall i, j | 0 <= i < j < |s| :: s[i] != s[j]
  }

  /** A non-empty list has no duplicates exactly when its head is not in its tail
      and its tail has none. */
  lemma {:induction false} NoDupCons<T>(s: seq<T>)
    requires s != []
    ensures NoDup(s) <==> s[0] !in s[1..] && NoDup(s[1..])
  {
    var t := s[1..];
    assert forall i | 0 <= i < |t| :: t[i] == s[i + 1];
    if NoDup(s) {
      assert forall i, j | 0 <= i < j < |t| :: t[i] == s[i + 1] && t[j] == s[j + 1];
      forall i | 0 <= i < |t| ensures t[i] != s[0] {
        assert t[i] == s[i + 1];
      }
    }
    if s[0] !in t && NoDup(t) {
      forall i, j | 0 <= i < j < |s| ensures s[i] != s[j] {
        if i == 0 {
          assert s[j] == t[j - 1];
        } else {
          assert s[i] == t[i - 1] && s[j] == t[j - 1];
        }
      }
    }
  }

  /** One more element of a prefix. */
  lemma {:induction false} TakeSnoc<T>(s: seq<T>, i: nat)
    requires i < |s|
    ensures s[..i + 1] == s[..i] + [s[i]] && s[..i + 1][..i] == s[..i]
  {
  }

  function Repeat<T>(x: T, n: nat): (s: seq<T>)
    ensures |s| == n && forall i | 0 <= i < n :: s[i] == x
  {
    seq(n, _ => x)
  }

  /** The index below n that a raw random draw d selects: d itself when it is below
      n, the last index otherwise. Every index is selected by some draw, which is all
      the model needs of Python's random module. */
  function Below(d: nat, n: nat): (i: nat)
    requires n > 0
    ensures i < n && (d < n ==> i == d)
  {
    if d < n then d else n - 1
  }

  function Range(n: nat): (s: seq<int>)
    ensures |s| == n && forall i | 0 <= i < n :: s[i] == i
  {
    seq(n, i => i)
  }

  function Sum(s: seq<real>): real {
    if s == [] then 0.0 else s[0] + Sum(s[1..])
  }

  lemma {:induction false} SumAppend(s: seq<real>, x: real)
    ensures Sum(s + [x]) == Sum(s) + x
  {
    if s == [] {
      assert s + [x] == [x];
    } else {
      assert (s + [x])[1..] == s[1..] + [x];
      SumAppend(s[1..], x);
    }
  }

  /** A sum of equal terms is their count times the term. */
  lemma {:induction false} SumUniform(s: seq<real>, x: real)
    requires forall i | 0 <= i < |s| :: s[i] == x
    ensures Sum(s) == |s| as real * x
  {
    if s != [] {
      SumUniform(s[1..], x);
    }
  }

  /** Dividing a sum is summing the quotients. */
  lemma {:induction false} SplitQuotient(a: real, b: real, s: real)
    requires s != 0.0
    ensures a / s + b / s == (a + b) / s
  {
  }

  /** Python's max() over a sequence of floats; it raises on an empty sequence. */
  function Max(s: seq<real>): (r: Result<real>)
    ensures r.Ok? <==> |s| > 0
    ensures r.Ok? ==> r.value in s && forall i | 0 <= i < |s| :: s[i] <= r.value
  {
    if |s| == 0 then Err(EmptyMax)
    else if |s| == 1 then Ok(s[0])
    else
      var rest := Max(s[1..]);
      assert s[1..][0] in s[1..];
      if s[0] >= rest.value then Ok(s[0]) else Ok(rest.value)
  }

  /** The arithmetic mean; the callers only use it on non-empty sequences. */
  function Mean(s: seq<real>): real
    requires |s| > 0
  {
    Sum(s) / (|s| as real)
  }

  // ---------------------------------------------------------------------------
  // Decimal rendering of integers, as in the f-strings that build node ids.

  function Digit(d: nat): (c: char)
    requires d < 10
    ensures '0' <= c <= '9'
  {
    "0123456789"[d]
  }

  lemma {:induction false} DigitInjective(a: nat, b: nat)
    requires a < 10 && b < 10 && Digit(a) == Digit(b)
    ensures a == b
  {
  }

  /** The decimal digits of a natural number. */
  function NatToString(n: nat): (s: string)
    ensures |s| >= 1 && forall i | 0 <= i < |s| :: '0' <= s[i] <= '9'
    ensures n >= 10 <==> |s| >= 2
  {
    if n < 10 then [Digit(n)] else NatToString(n / 10) + [Digit(n % 10)]
  }

  lemma {:induction false} NatToStringInjective(a: nat, b: nat)
    requires NatToString(a) == NatToString(b)
    ensures a == b
  {
    if a >= 10 && b >= 10 {
      var sa, sb := NatToString(a), NatToString(b);
      assert sa[|sa| - 1] == Digit(a % 10) && sb[|sb| - 1] == Digit(b % 10);
      DigitInjective(a % 10, b % 10);
      assert sa[..|sa| - 1] == NatToString(a / 10);
      assert sb[..|sb| - 1] == NatToString(b / 10);
      NatToStringInjective(a / 10, b / 10);
    } else if a < 10 && b < 10 {
      DigitInjective(a, b);
    }
  }

  /** The decimal form of an integer, with a minus sign when negative. */
  function IntToString(i: int): string {
    if i < 0 then "-" + NatToString(-i) else NatToString(i)
  }

  /** Two ids that share a prefix and differ in a trailing number are different. */
  lemma {:induction false} PrefixedNumbersDistinct(prefix: string, a: nat, b: nat)
    requires a != b
    ensures prefix + NatToString(a) != prefix + NatToString(b)
  {
    if prefix + NatToString(a) == prefix + NatToString(b) {
      assert NatToString(a) == (prefix + NatToString(a))[|prefix|..];
      assert NatToString(b) == (prefix + NatToString(b))[|prefix|..];
      NatToStringInjective(a, b);
    }
  }
}
