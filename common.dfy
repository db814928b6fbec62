/** Small shared vocabulary: optional values, fatal outcomes, the
    nearest-neighbour oracle's result type, real sums and the byte-wise
    order that std::string and std::set<std::string> use. */
module Common {

  datatype Option<T> = None | Some(value: T)

  /** A call either completes or dies on a CHECK / LOG(FATAL) / raise. */
  datatype Result<T> = Ok(value: T) | Fatal(reason: string)

  datatype Outcome = Pass | Fail(reason: string)

  /** One answer of a k-nearest-neighbour search: the row of the
      searched matrix and the squared L2 distance to it. */
  datatype Neighbor = Neighbor(index: int, dist: real)

  /** A neighbour list as a nearest-neighbour index may return it: the
      requested length, indices in [0, bound) and non-negative distances. */
  predicate WellFormedNeighbors(ns: seq<Neighbor>, count: nat, bound: int)
  {
    |ns| == count &&
    forall j :: 0 <= j < |ns| ==> 0 <= ns[j].index < bound && ns[j].dist >= 0.0
  }

  /** Sum of a sequence of reals, accumulated left to right. */
  function Sum(s: seq<real>): real
  {
    if |s| == 0 then 0.0 else Sum(s[..|s| - 1]) + s[|s| - 1]
  }

  lemma {:induction false} SumAppend(s: seq<real>, t: seq<real>)
    ensures Sum(s + t) == Sum(s) + Sum(t)
    decreases |t|
  {
    if |t| == 0 {
      assert s + t == s;
    } else {
      assert (s + t)[..|s + t| - 1] == s + t[..|t| - 1];
      SumAppend(s, t[..|t| - 1]);
    }
  }

  lemma {:induction false} SumNonNegative(s: seq<real>)
    requires forall i :: 0 <= i < |s| ==> s[i] >= 0.0
    ensures Sum(s) >= 0.0
    decreases |s|
  {
    if |s| > 0 {
      SumNonNegative(s[..|s| - 1]);
    }
  }

  /** Squared distances between vectors of values in [0, 127]; dividing by 127 * 127
      rescales them as if the values were in [0, 1]. */
  function Rescaled(dist: real): real
  {
    dist / 16129.0
  }

  function Min(x: real, y: real): real { if x <= y then x else y }

  function Pow2(e: nat): nat
  {
    if e == 0 then 1 else 2 * Pow2(e - 1)
  }

  lemma {:induction false} Pow2Positive(e: nat)
    ensures Pow2(e) >= 1
  {
    if e > 0 { Pow2Positive(e - 1); }
  }

  /** Sum of naturals, accumulated left to right. */
  function SumNat(s: seq<nat>): nat
  {
    if |s| == 0 then 0 else SumNat(s[..|s| - 1]) + s[|s| - 1]
  }

  lemma {:induction false} SumNatAppend(s: seq<nat>, t: seq<nat>)
    ensures SumNat(s + t) == SumNat(s) + SumNat(t)
    decreases |t|
  {
    if |t| == 0 {
      assert s + t == s;
    } else {
      assert (s + t)[..|s + t| - 1] == s + t[..|t| - 1];
      SumNatAppend(s, t[..|t| - 1]);
    }
  }

  /** std::string's operator< : byte-wise lexicographic order, where a
      proper prefix comes first. */
  predicate LexLess(a: string, b: string)
  {
    if |a| == 0 then |b| > 0
    else if |b| == 0 then false
    else if a[0] != b[0] then a[0] < b[0]
    else LexLess(a[1..], b[1..])
  }

  lemma {:induction false} LexLessIrreflexive(a: string)
    ensures !LexLess(a, a)
  {
    if |a| > 0 { LexLessIrreflexive(a[1..]); }
  }

  lemma {:induction false} LexLessTransitive(a: string, b: string, c: string)
    requires LexLess(a, b) && LexLess(b, c)
    ensures LexLess(a, c)
  {
    if |a| > 0 && |b| > 0 && |c| > 0 && a[0] == b[0] && b[0] == c[0] {
      LexLessTransitive(a[1..], b[1..], c[1..]);
    }
  }

  lemma {:induction false} LexLessTotal(a: string, b: string)
    ensures a == b || LexLess(a, b) || LexLess(b, a)
  {
    if |a| > 0 && |b| > 0 && a[0] == b[0] {
      LexLessTotal(a[1..], b[1..]);
      if a[1..] == b[1..] {
        assert a == [a[0]] + a[1..] && b == [b[0]] + b[1..];
      }
    }
  }

  lemma LexLessAsymmetric(a: string, b: string)
    requires LexLess(a, b)
    ensures !LexLess(b, a)
  {
    if LexLess(b, a) {
      LexLessTransitive(a, b, a);
      LexLessIrreflexive(a);
    }
  }

  /** The iteration order of a std::set<std::string>. */
  predicate StrictlySorted(s: seq<string>)
  {
    forall i, j :: 0 <= i < j < |s| ==> LexLess(s[i], s[j])
  }

  /** std::set<std::string>::insert on the ordered key sequence. */
  function InsertSorted(s: seq<string>, x: string): (r: seq<string>)
    requires StrictlySorted(s)
    ensures StrictlySorted(r)
    ensures forall y :: y in r <==> y in s || y == x
    ensures x in s ==> r == s
    ensures x !in s ==> |r| == |s| + 1
    decreases |s|
  {
    if |s| == 0 then [x]
    else if s[0] == x then s
    else if LexLess(x, s[0]) then
      assert forall j :: 0 <= j < |s| ==> LexLess(x, s[j]) by {
        forall j | 0 <= j < |s| ensures LexLess(x, s[j]) {
          if j > 0 { LexLessTransitive(x, s[0], s[j]); }
        }
      }
      LexLessIrreflexive(x);
      [x] + s
    else
      LexLessTotal(x, s[0]);
      var t := InsertSorted(s[1..], x);
      assert forall y :: y in t ==> LexLess(s[0], y) by {
        forall y | y in t ensures LexLess(s[0], y) {
          if y != x {
            var j :| 0 <= j < |s[1..]| && s[1..][j] == y;
            assert s[j + 1] == y;
          }
        }
      }
      [s[0]] + t
  }

  /** The capacity after the doubling loop: doubled until it reaches the
      required number of rows. */
  function Grown(capacity: nat, required: nat): (r: nat)
    requires capacity >= 1
    decreases if capacity >= required then 0 else required - capacity
  {
    if capacity >= required then capacity else Grown(2 * capacity, required)
  }

  /** The grown capacity suffices, never shrinks, and overshoots by less
      than a factor of two when growth was needed. */
  lemma {:induction false} GrownBounds(capacity: nat, required: nat)
    requires capacity >= 1
    ensures Grown(capacity, required) >= required && Grown(capacity, required) >= capacity
    ensures capacity < required ==> Grown(capacity, required) < 2 * required
    ensures capacity >= required ==> Grown(capacity, required) == capacity
    decreases if capacity >= required then 0 else required - capacity
  {
    if capacity < required {
      GrownBounds(2 * capacity, required);
    }
  }

  /** Division by a positive g has a unique answer: c = q * g + r with
      0 <= r < g gives the quotient q and the remainder r. */
  lemma DivModUnique(c: int, g: int, q: int, r: int)
    requires g > 0 && 0 <= r < g && c == q * g + r
    ensures c / g == q && c % g == r
  {
    var q0, r0 := c / g, c % g;
    assert c == q0 * g + r0;
    if q > q0 {
      MulAtLeast(q, q0, g);
      assert false;
    } else if q < q0 {
      MulAtLeast(q0, q, g);
      assert false;
    }
  }

  /** Quotients one or more apart give products at least g apart. */
  lemma {:induction false} MulAtLeast(a: int, b: int, g: int)
    requires a > b && g > 0
    ensures a * g - b * g >= g
    decreases a - b
  {
    if a - 1 > b {
      MulAtLeast(a - 1, b, g);
    }
    assert a * g == (a - 1) * g + g;
  }

  /** Taking one more element of a sequence appends that element. */
  lemma PrefixExtend<T>(s: seq<T>, k: nat)
    requires k < |s|
    ensures s[..k + 1] == s[..k] + [s[k]]
  {
    assert s[..k + 1] == s[..k] + [s[k]];
  }
}
