/** The clustering steps of CodebookBuilder::ClusterApproximately
    (codebooks/codebook_builder.cc): the candidate pool, k-means++ seeding
    with its running table of squared distances, random seeding, one
    Lloyd update and the sorted cluster sizes. The data rows are a
    sequence of equal-width vectors; the centroids live in an array that
    the steps overwrite in place. */
module KMeans {
  import opened Common

  type Vector = seq<real>

  /** Every vector has exactly dims coordinates. */
  predicate Width(vs: seq<Vector>, dims: nat)
  {
    forall i :: 0 <= i < |vs| ==> |vs[i]| == dims
  }

  /** Every pool entry names a row of an n-row matrix. */
  predicate PoolIn(pool: seq<int>, n: nat)
  {
    forall i :: 0 <= i < |pool| ==> 0 <= pool[i] < n
  }

  // ---------------------------------------------------------------------
  // Squared distances.

  /** The squared distance over the first m coordinates, accumulated in
      coordinate order as the distance loops do. */
  function PartialSqDist(p: Vector, q: Vector, m: nat): (r: real)
    requires m <= |p| && m <= |q|
    ensures r >= 0.0
  {
    if m == 0 then 0.0
    else
      var diff := p[m - 1] - q[m - 1];
      PartialSqDist(p, q, m - 1) + diff * diff
  }

  function SqDist(p: Vector, q: Vector): real
    requires |p| == |q|
  {
    PartialSqDist(p, q, |p|)
  }

  /** Adding coordinates never shrinks the partial distance, which is what
      makes the early exit of the weight update safe. */
  lemma {:induction false} PartialSqDistMonotone(p: Vector, q: Vector, m: nat, m': nat)
    requires m <= m' <= |p| && m' <= |q|
    ensures PartialSqDist(p, q, m) <= PartialSqDist(p, q, m')
    decreases m' - m
  {
    if m < m' {
      PartialSqDistMonotone(p, q, m, m' - 1);
      var diff := p[m' - 1] - q[m' - 1];
      assert diff * diff >= 0.0;
    }
  }

  lemma {:induction false} PartialSqDistSelf(p: Vector, m: nat)
    requires m <= |p|
    ensures PartialSqDist(p, p, m) == 0.0
  {
    if m > 0 { PartialSqDistSelf(p, m - 1); }
  }

  /** The squared distance from p to its nearest vector of cs. */
  function MinSqDist(p: Vector, cs: seq<Vector>): (r: real)
    requires |cs| >= 1 && Width(cs, |p|)
    ensures r >= 0.0
  {
    if |cs| == 1 then SqDist(p, cs[0])
    else Min(MinSqDist(p, cs[..|cs| - 1]), SqDist(p, cs[|cs| - 1]))
  }

  /** It is the smallest of the distances to the vectors of cs, and one
      of them. */
  lemma {:induction false} MinSqDistIsMinimum(p: Vector, cs: seq<Vector>)
    requires |cs| >= 1 && Width(cs, |p|)
    ensures forall j :: 0 <= j < |cs| ==> MinSqDist(p, cs) <= SqDist(p, cs[j])
    ensures exists j :: 0 <= j < |cs| && MinSqDist(p, cs) == SqDist(p, cs[j])
  {
    if |cs| > 1 {
      var front := cs[..|cs| - 1];
      MinSqDistIsMinimum(p, front);
      assert forall j :: 0 <= j < |cs| - 1 ==> front[j] == cs[j];
      var j :| 0 <= j < |front| && MinSqDist(p, front) == SqDist(p, front[j]);
      if MinSqDist(p, cs) == SqDist(p, cs[|cs| - 1]) {
        assert 0 <= |cs| - 1 < |cs| && MinSqDist(p, cs) == SqDist(p, cs[|cs| - 1]);
      } else {
        assert MinSqDist(p, cs) == SqDist(p, cs[j]);
      }
    } else {
      assert MinSqDist(p, cs) == SqDist(p, cs[0]);
    }
  }

  /** The k-means++ weight table: for each pool position, the squared
      distance from its row to the nearest centre chosen so far. */
  function Weights(rows: seq<Vector>, dims: nat, pool: seq<int>, cs: seq<Vector>): (w: seq<real>)
    requires Width(rows, dims) && PoolIn(pool, |rows|) && |cs| >= 1 && Width(cs, dims)
    ensures |w| == |pool|
  {
    seq(|pool|, i requires 0 <= i < |pool| => MinSqDist(rows[pool[i]], cs))
  }

  /** One more centre lowers each weight to the distance to that centre
      when it is closer. */
  lemma WeightsExtend(rows: seq<Vector>, dims: nat, pool: seq<int>, cs: seq<Vector>, c: Vector, i: int)
    requires Width(rows, dims) && PoolIn(pool, |rows|) && |cs| >= 1 && Width(cs, dims) && |c| == dims
    requires 0 <= i < |pool|
    ensures Weights(rows, dims, pool, cs + [c])[i] ==
      Min(Weights(rows, dims, pool, cs)[i], SqDist(rows[pool[i]], c))
  {
    assert (cs + [c])[..|cs|] == cs;
  }

  // ---------------------------------------------------------------------
  // The candidate pool.

  predicate Increasing(s: seq<int>)
  {
    forall i, j :: 0 <= i < j < |s| ==> s[i] < s[j]
  }

  /** std::set<uint32_t>::insert on the ascending element sequence. */
  function InsertInt(s: seq<int>, x: int): (r: seq<int>)
    requires Increasing(s)
    ensures Increasing(r)
    ensures forall y :: y in r <==> y in s || y == x
  {
    if |s| == 0 then [x]
    else if s[0] == x then s
    else if x < s[0] then [x] + s
    else
      var t := InsertInt(s[1..], x);
      assert s == [s[0]] + s[1..];
      assert forall k :: 0 <= k < |t| ==> s[0] < t[k] by {
        forall k | 0 <= k < |t| ensures s[0] < t[k] {
          assert t[k] in t;
        }
      }
      [s[0]] + t
  }

  /** Inserting a present value changes nothing; an absent one adds one
      element. */
  lemma {:induction false} InsertIntSize(s: seq<int>, x: int)
    requires Increasing(s)
    ensures x in s ==> InsertInt(s, x) == s
    ensures x !in s ==> |InsertInt(s, x)| == |s| + 1
  {
    if |s| > 0 && s[0] != x && x >= s[0] {
      InsertIntSize(s[1..], x);
      assert s == [s[0]] + s[1..];
    }
  }

  /** The distinct values among the draws, ascending: the set that the
      subsampling loop builds. */
  function Seen(draws: seq<int>): (r: seq<int>)
    ensures Increasing(r)
    ensures forall y :: y in r <==> y in draws
  {
    if |draws| == 0 then []
    else
      var r := InsertInt(Seen(draws[..|draws| - 1]), draws[|draws| - 1]);
      assert draws == draws[..|draws| - 1] + [draws[|draws| - 1]];
      r
  }

  /** One more draw inserts its value into what the earlier draws saw. */
  lemma SeenStep(draws: seq<int>, used: nat)
    requires used < |draws|
    ensures Seen(draws[..used + 1]) == InsertInt(Seen(draws[..used]), draws[used])
  {
    assert draws[..used + 1][..used] == draws[..used];
  }

  /** The pool size of subsampled k-means++: 10% of n, rounded. */
  function SubsampleSize(n: nat): (r: int)
    ensures 0 <= r <= n
    ensures r >= 1 <==> n >= 5
  {
    (n as real * 0.1 + 0.5).Floor
  }

  /** The length of the shortest prefix of the draws, from u on, that
      holds need distinct values. */
  function ShortestPrefix(draws: seq<int>, need: nat, u: nat): (r: nat)
    requires u <= |draws| && |Seen(draws)| >= need
    ensures u <= r <= |draws|
    decreases |draws| - u
  {
    if |Seen(draws[..u])| >= need then u
    else
      assert u < |draws| by { assert draws[..|draws|] == draws; }
      ShortestPrefix(draws, need, u + 1)
  }

  /** The candidate pool of subsampled k-means++: the distinct values of
      the shortest prefix of the draws that holds need of them. */
  function SubsamplePool(draws: seq<int>, need: nat): seq<int>
    requires |Seen(draws)| >= need
  {
    Seen(draws[..ShortestPrefix(draws, need, 0)])
  }

  lemma {:induction false} ShortestPrefixIs(draws: seq<int>, need: nat, u: nat, used: nat)
    requires u <= used <= |draws| && |Seen(draws)| >= need
    requires forall v :: u <= v < used ==> |Seen(draws[..v])| < need
    requires |Seen(draws[..used])| >= need
    ensures ShortestPrefix(draws, need, u) == used
    decreases used - u
  {
    if u < used {
      ShortestPrefixIs(draws, need, u + 1, used);
    }
  }

  /** Draws row numbers and keeps the new ones until the set holds need
      rows, then returns them ascending. The caller's draws must hold at
      least need distinct values (the generator produces every value
      eventually). */
  method SubsampleRows(n: nat, need: nat, draws: seq<int>) returns (pool: seq<int>)
    requires forall k :: 0 <= k < |draws| ==> 0 <= draws[k] < n
    requires |Seen(draws)| >= need
    ensures pool == SubsamplePool(draws, need)
    ensures |pool| == need
    ensures Increasing(pool) && PoolIn(pool, n)
  {
    var used;
    pool, used := DrawDistinct(draws, need);
    ShortestPrefixIs(draws, need, 0, used);
    forall i | 0 <= i < |pool| ensures 0 <= pool[i] < n {
      assert pool[i] in draws[..used];
      var k :| 0 <= k < used && draws[..used][k] == pool[i];
      assert draws[k] == pool[i];
    }
  }

  /** The drawing loop: stops at the first prefix with need distinct values. */
  method DrawDistinct(draws: seq<int>, need: nat) returns (pool: seq<int>, used: nat)
    requires |Seen(draws)| >= need
    ensures used <= |draws| && pool == Seen(draws[..used]) && |pool| == need
    ensures forall v :: 0 <= v < used ==> |Seen(draws[..v])| < need
  {
    pool := [];
    used := 0;
    assert draws[..|draws|] == draws;
    while |pool| < need
      invariant used <= |draws| && pool == Seen(draws[..used])
      invariant |pool| <= need
      invariant forall v :: 0 <= v < used ==> |Seen(draws[..v])| < need
      decreases |draws| - used
    {
      var index := draws[used];
      ghost var short := used;
      assert |Seen(draws[..short])| < need;
      SeenStep(draws, used);
      InsertIntSize(pool, index);
      if index !in pool {
        pool := InsertInt(pool, index);
      }
      used := used + 1;
      forall v | 0 <= v < used
        ensures |Seen(draws[..v])| < need
      {
        if v < short {
        } else {
          assert v == short;
        }
      }
    }
  }

  /** Plain k-means++ uses every row as a candidate. */
  method AllRows(n: nat) returns (pool: seq<int>)
    ensures |pool| == n && forall i :: 0 <= i < n ==> pool[i] == i
  {
    pool := [];
    for i := 0 to n
      invariant |pool| == i && forall k :: 0 <= k < i ==> pool[k] == k
    {
      pool := pool + [i];
    }
  }

  // ---------------------------------------------------------------------
  // k-means++ seeding.

  /** D2[i] = squared distance from candidate i to the first centre, and
      the returned total is their sum. */
  method InitialWeights(rows: seq<Vector>, dims: nat, pool: seq<int>, center: Vector, d2: array<real>)
    returns (total: real)
    requires Width(rows, dims) && PoolIn(pool, |rows|) && |center| == dims
    requires d2.Length == |pool|
    modifies d2
    ensures d2[..] == Weights(rows, dims, pool, [center])
    ensures total == Sum(d2[..])
  {
    total := 0.0;
    for i := 0 to |pool|
      invariant forall j :: 0 <= j < i ==> d2[j] == SqDist(rows[pool[j]], center)
      invariant total == Sum(d2[..i])
    {
      var row := rows[pool[i]];
      var distanceSquared := 0.0;
      for d := 0 to dims
        invariant distanceSquared == PartialSqDist(row, center, d)
      {
        var diff := row[d] - center[d];
        distanceSquared := distanceSquared + diff * diff;
      }
      d2[i] := distanceSquared;
      assert d2[..i + 1][..i] == d2[..i];
      total := total + distanceSquared;
    }
    assert d2[..|pool|] == d2[..];
  }

  /** The running weight total up to and including position j. */
  function Through(w: seq<real>, j: int): real
    requires 0 <= j < |w|
  {
    Sum(w[..j + 1])
  }

  /** The roulette-wheel choice: position p is the first whose running
      weight total reaches r. */
  predicate Roulette(w: seq<real>, r: real, p: int)
  {
    0 <= p < |w| && r <= Through(w, p) &&
    forall j :: 0 <= j < p ==> r > Through(w, j)
  }

  /** The scan that subtracts each weight from the draw until the rest
      fits: -1 when the draw exceeds every running total. */
  method PickNextCenter(d2: array<real>, randomValue: real) returns (position: int)
    ensures position == -1 ==> forall j :: 0 <= j < d2.Length ==> randomValue > Through(d2[..], j)
    ensures position != -1 ==> Roulette(d2[..], randomValue, position)
  {
    var rest := randomValue;
    for index := 0 to d2.Length
      invariant rest == randomValue - Sum(d2[..index])
      invariant forall j :: 0 <= j < index ==> randomValue > Through(d2[..], j)
    {
      assert d2[..index + 1][..index] == d2[..index];
      if rest <= d2[index] {
        return index;
      }
      rest := rest - d2[index];
    }
    return -1;
  }

  /** The CHECK after the scan never fails: a draw within the total always
      finds a position. */
  lemma RouletteFinds(w: seq<real>, r: real)
    requires |w| >= 1 && r <= Sum(w)
    ensures !(forall j :: 0 <= j < |w| ==> r > Through(w, j))
  {
    assert w[..|w| - 1 + 1] == w;
    assert r <= Through(w, |w| - 1);
  }

  /** At most one position satisfies the roulette choice. */
  lemma RouletteUnique(w: seq<real>, r: real, p: int, q: int)
    requires Roulette(w, r, p) && Roulette(w, r, q)
    ensures p == q
  {
  }

  /** A positive draw never lands on a zero weight, so a candidate already
      chosen as a centre (weight 0) is not chosen again. */
  lemma RoulettePicksPositiveWeight(w: seq<real>, r: real, p: int)
    requires Roulette(w, r, p) && r > 0.0
    ensures w[p] > 0.0
  {
    assert w[..p + 1][..p] == w[..p];
    assert Through(w, p) == Sum(w[..p]) + w[p];
    if p > 0 {
      assert r > Through(w, p - 1);
      assert Through(w, p - 1) == Sum(w[..p]);
    }
  }

  /** A candidate with positive weight differs from every chosen centre. */
  lemma PositiveWeightIsNewCentre(rows: seq<Vector>, dims: nat, pool: seq<int>, cs: seq<Vector>, i: int)
    requires Width(rows, dims) && PoolIn(pool, |rows|) && |cs| >= 1 && Width(cs, dims)
    requires 0 <= i < |pool| && Weights(rows, dims, pool, cs)[i] > 0.0
    ensures forall j :: 0 <= j < |cs| ==> rows[pool[i]] != cs[j]
  {
    MinSqDistIsMinimum(rows[pool[i]], cs);
    forall j | 0 <= j < |cs| ensures rows[pool[i]] != cs[j] {
      PartialSqDistSelf(cs[j], dims);
      assert SqDist(cs[j], cs[j]) == 0.0;
      assert SqDist(rows[pool[i]], cs[j]) > 0.0;
    }
  }

  /** The distance sum of the weight update, abandoned as soon as it
      exceeds the bound: below the bound it is the full squared distance,
      and otherwise the full distance is not below the bound either. */
  method PrunedSqDist(row: Vector, center: Vector, bound: real) returns (distanceSquared: real)
    requires |row| == |center|
    ensures distanceSquared < bound ==> distanceSquared == SqDist(row, center)
    ensures distanceSquared >= bound ==> SqDist(row, center) >= bound
  {
    var dims := |row|;
    distanceSquared := 0.0;
    var d := 0;
    var pruned := false;
    while d < dims && !pruned
      invariant 0 <= d <= dims
      invariant !pruned ==> distanceSquared == PartialSqDist(row, center, d)
      invariant pruned ==> d < dims && distanceSquared == PartialSqDist(row, center, d + 1)
      invariant pruned ==> distanceSquared > bound
      decreases dims - d, if pruned then 0 else 1
    {
      var diff := row[d] - center[d];
      distanceSquared := distanceSquared + diff * diff;
      if distanceSquared > bound {
        pruned := true;
      } else {
        d := d + 1;
      }
    }
    if pruned {
      PartialSqDistMonotone(row, center, d + 1, dims);
    }
  }

  /** Lowers each weight to the distance to the new centre when that is
      smaller, abandoning a distance sum as soon as it exceeds the current
      weight; returns the new total. */
  method UpdateWeights(rows: seq<Vector>, dims: nat, pool: seq<int>, center: Vector, d2: array<real>)
    returns (total: real)
    requires Width(rows, dims) && PoolIn(pool, |rows|) && |center| == dims
    requires d2.Length == |pool|
    modifies d2
    ensures forall i :: 0 <= i < |pool| ==> d2[i] == Min(old(d2[i]), SqDist(rows[pool[i]], center))
    ensures total == Sum(d2[..])
  {
    total := 0.0;
    for i := 0 to |pool|
      invariant forall j :: 0 <= j < i ==> d2[j] == Min(old(d2[j]), SqDist(rows[pool[j]], center))
      invariant forall j :: i <= j < |pool| ==> d2[j] == old(d2[j])
      invariant total == Sum(d2[..i])
    {
      var distanceSquared := PrunedSqDist(rows[pool[i]], center, d2[i]);
      if distanceSquared < d2[i] {
        d2[i] := distanceSquared;
      }
      assert d2[..i + 1][..i] == d2[..i];
      total := total + d2[i];
    }
    assert d2[..|pool|] == d2[..];
  }

  /** Every picked position lies in the pool. */
  predicate Picks(picked: seq<int>, poolSize: nat)
  {
    forall c :: 0 <= c < |picked| ==> 0 <= picked[c] < poolSize
  }

  /** The centres that a list of picked pool positions stands for. */
  function Centres(rows: seq<Vector>, dims: nat, pool: seq<int>, picked: seq<int>): (cs: seq<Vector>)
    requires Width(rows, dims) && PoolIn(pool, |rows|) && Picks(picked, |pool|)
    ensures |cs| == |picked| && Width(cs, dims)
    ensures forall c :: 0 <= c < |picked| ==> cs[c] == rows[pool[picked[c]]]
  {
    seq(|picked|, c requires 0 <= c < |picked| => rows[pool[picked[c]]])
  }

  /** One k-means++ step: next is the roulette position for the draw
      after the centres picked so far, scaled by their total weight. */
  predicate RouletteStep(rows: seq<Vector>, dims: nat, pool: seq<int>, draws: seq<real>,
                         earlier: seq<int>, next: int)
    requires Width(rows, dims) && PoolIn(pool, |rows|) && Picks(earlier, |pool|)
    requires 1 <= |earlier| <= |draws|
  {
    RouletteOver(Weights(rows, dims, pool, Centres(rows, dims, pool, earlier)), draws[|earlier| - 1], next)
  }

  /** The roulette choice for a draw u in [0, 1], scaled by the total weight. */
  predicate RouletteOver(w: seq<real>, u: real, next: int)
  {
    Roulette(w, u * Sum(w), next)
  }

  lemma CentresExtend(rows: seq<Vector>, dims: nat, pool: seq<int>, picked: seq<int>, p: int)
    requires Width(rows, dims) && PoolIn(pool, |rows|) && Picks(picked, |pool|) && 0 <= p < |pool|
    ensures Picks(picked + [p], |pool|)
    ensures Centres(rows, dims, pool, picked + [p]) == Centres(rows, dims, pool, picked) + [rows[pool[p]]]
  {
  }

  /** The k-means++ rule over a whole seeding: centre 0 is the pool row
      at the first draw, and centre c >= 1 is the pool row at the roulette
      position for draw c-1 scaled by the total weight over centres
      0..c-1. */
  predicate PlusPlusPicks(rows: seq<Vector>, dims: nat, pool: seq<int>, first: int, draws: seq<real>,
                          picked: seq<int>)
    requires Width(rows, dims) && PoolIn(pool, |rows|) && Picks(picked, |pool|)
  {
    |picked| >= 1 && picked[0] == first && |draws| >= |picked| - 1 &&
    (|picked| > 1 ==>
      PlusPlusPicks(rows, dims, pool, first, draws, picked[..|picked| - 1]) &&
      RouletteStep(rows, dims, pool, draws, picked[..|picked| - 1], picked[|picked| - 1]))
  }

  lemma StepFromScan(rows: seq<Vector>, dims: nat, pool: seq<int>, draws: seq<real>,
                     picked: seq<int>, w: seq<real>, total: real, u: real, position: int)
    requires Width(rows, dims) && PoolIn(pool, |rows|) && Picks(picked, |pool|)
    requires 1 <= |picked| <= |draws| && u == draws[|picked| - 1]
    requires w == Weights(rows, dims, pool, Centres(rows, dims, pool, picked)) && total == Sum(w)
    requires Roulette(w, u * total, position)
    ensures RouletteStep(rows, dims, pool, draws, picked, position)
  {
    var scaled := u * total;
    assert scaled == u * Sum(w);
    assert Roulette(w, scaled, position);
    assert RouletteOver(w, u, position);
  }

  /** A roulette choice over the current weights extends a seeding. */
  lemma PlusPlusPicksExtend(rows: seq<Vector>, dims: nat, pool: seq<int>, first: int, draws: seq<real>,
                            picked: seq<int>, p: int)
    requires Width(rows, dims) && PoolIn(pool, |rows|) && Picks(picked, |pool|)
    requires PlusPlusPicks(rows, dims, pool, first, draws, picked)
    requires |draws| >= |picked| && 0 <= p < |pool|
    requires RouletteStep(rows, dims, pool, draws, picked, p)
    ensures Picks(picked + [p], |pool|)
    ensures PlusPlusPicks(rows, dims, pool, first, draws, picked + [p])
  {
    var q := picked + [p];
    assert q[..|q| - 1] == picked;
  }

  /** k-means++ over the candidate pool, writing centroids 0..K-1 in
      place. Returns the picked pool positions. */
  method SeedPlusPlus(rows: seq<Vector>, dims: nat, pool: seq<int>, first: int, draws: seq<real>,
                      centroids: array<Vector>)
    returns (picked: seq<int>)
    requires Width(rows, dims) && PoolIn(pool, |rows|)
    requires 0 <= first < |pool|
    requires centroids.Length >= 1 && |draws| >= centroids.Length - 1
    requires forall k :: 0 <= k < |draws| ==> 0.0 <= draws[k] <= 1.0
    modifies centroids
    ensures Picks(picked, |pool|) && |picked| == centroids.Length
    ensures centroids[..] == Centres(rows, dims, pool, picked)
    ensures PlusPlusPicks(rows, dims, pool, first, draws, picked)
  {
    var index := pool[first];
    centroids[0] := rows[index];
    picked := [first];
    var distanceWeighting := new real[|pool|];
    var weightTotal := InitialWeights(rows, dims, pool, centroids[0], distanceWeighting);
    assert centroids[..1] == Centres(rows, dims, pool, picked);
    for centerId := 1 to centroids.Length
      invariant Picks(picked, |pool|) && |picked| == centerId
      invariant centroids[..centerId] == Centres(rows, dims, pool, picked)
      invariant PlusPlusPicks(rows, dims, pool, first, draws, picked)
      invariant distanceWeighting[..] == Weights(rows, dims, pool, Centres(rows, dims, pool, picked))
      invariant weightTotal == Sum(distanceWeighting[..])
    {
      picked, weightTotal := AddCentre(rows, dims, pool, first, draws, centroids, distanceWeighting,
                                       weightTotal, picked);
    }
    assert centroids[..centroids.Length] == centroids[..];
  }

  /** One round of k-means++: the scan picks pool position p with the
      draw for this round, its row becomes the next centroid, and the
      weights take the new centre into account. */
  method AddCentre(rows: seq<Vector>, dims: nat, pool: seq<int>, first: int, draws: seq<real>,
                   centroids: array<Vector>, distanceWeighting: array<real>, weightTotal: real,
                   picked: seq<int>)
    returns (picked': seq<int>, weightTotal': real)
    requires Width(rows, dims) && PoolIn(pool, |rows|) && Picks(picked, |pool|)
    requires 1 <= |picked| < centroids.Length && |draws| >= centroids.Length - 1
    requires forall k :: 0 <= k < |draws| ==> 0.0 <= draws[k] <= 1.0
    requires centroids[..|picked|] == Centres(rows, dims, pool, picked)
    requires PlusPlusPicks(rows, dims, pool, first, draws, picked)
    requires distanceWeighting[..] == Weights(rows, dims, pool, Centres(rows, dims, pool, picked))
    requires weightTotal == Sum(distanceWeighting[..])
    modifies centroids, distanceWeighting
    ensures Picks(picked', |pool|) && |picked'| == |picked| + 1
    ensures centroids[..|picked'|] == Centres(rows, dims, pool, picked')
    ensures PlusPlusPicks(rows, dims, pool, first, draws, picked')
    ensures distanceWeighting[..] == Weights(rows, dims, pool, Centres(rows, dims, pool, picked'))
    ensures weightTotal' == Sum(distanceWeighting[..])
  {
    var centerId := |picked|;
    ghost var chosen := Centres(rows, dims, pool, picked);
    WeightsNonNegative(rows, dims, pool, chosen);
    ghost var w := distanceWeighting[..];
    var u := draws[centerId - 1];
    var position := ChooseCenter(distanceWeighting, u, weightTotal);
    StepFromScan(rows, dims, pool, draws, picked, w, weightTotal, u, position);
    var nextCenter := pool[position];
    ghost var before := centroids[..];
    assert before[..centerId] == chosen;
    centroids[centerId] := rows[nextCenter];
    assert centroids[..] == before[centerId := rows[nextCenter]];
    weightTotal' := UpdateWeights(rows, dims, pool, rows[nextCenter], distanceWeighting);
    WeightsAfterUpdate(rows, dims, pool, chosen, rows[nextCenter], w, distanceWeighting[..]);
    PlusPlusPicksExtend(rows, dims, pool, first, draws, picked, position);
    CentresExtend(rows, dims, pool, picked, position);
    picked' := picked + [position];
    assert centroids[..centerId + 1] == before[..centerId] + [rows[nextCenter]];
  }

  /** The scan over the weights for a draw u in [0, 1] scaled by the
      total: with non-negative weights it always finds a position, so the
      CHECK that follows it in the source never fails. */
  method ChooseCenter(distanceWeighting: array<real>, u: real, weightTotal: real) returns (position: int)
    requires distanceWeighting.Length >= 1 && weightTotal == Sum(distanceWeighting[..]) && 0.0 <= u <= 1.0
    requires forall i :: 0 <= i < distanceWeighting.Length ==> distanceWeighting[i] >= 0.0
    ensures Roulette(distanceWeighting[..], u * weightTotal, position)
  {
    var randomValue := u * weightTotal;
    SumNonNegative(distanceWeighting[..]);
    ScaledBelow(u, weightTotal);
    position := PickNextCenter(distanceWeighting, randomValue);
    if position == -1 {
      RouletteFinds(distanceWeighting[..], randomValue);
      assert false;
    }
  }

  lemma WeightsNonNegative(rows: seq<Vector>, dims: nat, pool: seq<int>, cs: seq<Vector>)
    requires Width(rows, dims) && PoolIn(pool, |rows|) && |cs| >= 1 && Width(cs, dims)
    ensures forall i :: 0 <= i < |pool| ==> Weights(rows, dims, pool, cs)[i] >= 0.0
  {
  }

  /** The early-exit update turns the weights over cs into the weights over
      cs with one more centre c. */
  lemma WeightsAfterUpdate(rows: seq<Vector>, dims: nat, pool: seq<int>, cs: seq<Vector>, c: Vector,
                           before: seq<real>, after: seq<real>)
    requires Width(rows, dims) && PoolIn(pool, |rows|) && |cs| >= 1 && Width(cs, dims) && |c| == dims
    requires before == Weights(rows, dims, pool, cs) && |after| == |pool|
    requires forall i :: 0 <= i < |pool| ==> after[i] == Min(before[i], SqDist(rows[pool[i]], c))
    ensures after == Weights(rows, dims, pool, cs + [c])
  {
    forall i | 0 <= i < |pool| ensures after[i] == Weights(rows, dims, pool, cs + [c])[i] {
      WeightsExtend(rows, dims, pool, cs, c, i);
    }
  }

  lemma ScaledBelow(u: real, total: real)
    requires 0.0 <= u <= 1.0 && total >= 0.0
    ensures u * total <= total
  {
  }

  // ---------------------------------------------------------------------
  // Random seeding.

  /** The centres random seeding produces: centre c copies the row of the
      c-th draw. The "already selected" set is never filled, so nothing
      stops two draws from naming the same row. */
  function RandomSeeds(rows: seq<Vector>, draws: seq<int>, k: nat): (r: seq<Vector>)
    requires |draws| >= k && forall c :: 0 <= c < k ==> 0 <= draws[c] < |rows|
    ensures |r| == k && forall c :: 0 <= c < k ==> r[c] in rows
  {
    seq(k, c requires 0 <= c < k => rows[draws[c]])
  }

  method SeedRandom(rows: seq<Vector>, draws: seq<int>, centroids: array<Vector>)
    requires |draws| >= centroids.Length
    requires forall c :: 0 <= c < centroids.Length ==> 0 <= draws[c] < |rows|
    modifies centroids
    ensures centroids[..] == RandomSeeds(rows, draws, centroids.Length)
  {
    for centerId := 0 to centroids.Length
      invariant forall c :: 0 <= c < centerId ==> centroids[c] == rows[draws[c]]
    {
      var selectedIndex := draws[centerId];
      centroids[centerId] := rows[selectedIndex];
    }
  }

  /** Two equal draws give two equal centres. */
  lemma RandomSeedsMayRepeat()
    ensures var r := RandomSeeds([[0.0], [1.0]], [1, 1], 2); r[0] == r[1]
  {
  }

  // ---------------------------------------------------------------------
  // The Lloyd update.

  /** How many points the assignment sends to cluster c. */
  function Count(assign: seq<Neighbor>, c: int): nat
  {
    if |assign| == 0 then 0
    else Count(assign[..|assign| - 1], c) + (if assign[|assign| - 1].index == c then 1 else 0)
  }

  /** The rows assigned to cluster c, in row order. */
  function Members(rows: seq<Vector>, assign: seq<Neighbor>, c: int): (r: seq<Vector>)
    requires |rows| == |assign|
    ensures |r| == Count(assign, c)
    ensures forall k :: 0 <= k < |r| ==> r[k] in rows
  {
    if |assign| == 0 then []
    else
      var front := Members(rows[..|rows| - 1], assign[..|assign| - 1], c);
      assert forall k :: 0 <= k < |front| ==> front[k] in rows by {
        forall k | 0 <= k < |front| ensures front[k] in rows {
          var j :| 0 <= j < |rows| - 1 && rows[..|rows| - 1][j] == front[k];
          assert rows[j] == front[k];
        }
      }
      front + (if assign[|assign| - 1].index == c then [rows[|rows| - 1]] else [])
  }

  function Zero(dims: nat): (r: Vector)
    ensures |r| == dims && forall d :: 0 <= d < dims ==> r[d] == 0.0
  {
    seq(dims, _ => 0.0)
  }

  function Add(u: Vector, v: Vector): (r: Vector)
    requires |u| == |v|
    ensures |r| == |u| && forall d :: 0 <= d < |u| ==> r[d] == u[d] + v[d]
  {
    seq(|u|, d requires 0 <= d < |u| => u[d] + v[d])
  }

  /** The coordinate-wise sum of equal-width vectors. */
  function VecSum(vs: seq<Vector>, dims: nat): (r: Vector)
    requires Width(vs, dims)
    ensures |r| == dims
  {
    if |vs| == 0 then Zero(dims) else Add(VecSum(vs[..|vs| - 1], dims), vs[|vs| - 1])
  }

  /** The coordinate-wise mean of a non-empty set of vectors. */
  function Mean(vs: seq<Vector>, dims: nat): (r: Vector)
    requires |vs| >= 1 && Width(vs, dims)
    ensures |r| == dims
  {
    var s := VecSum(vs, dims);
    seq(dims, d requires 0 <= d < dims => s[d] / |vs| as real)
  }

  /** Summing m copies of v gives m times v. */
  lemma {:induction false} VecSumOfCopies(vs: seq<Vector>, v: Vector)
    requires Width(vs, |v|) && forall k :: 0 <= k < |vs| ==> vs[k] == v
    ensures forall d :: 0 <= d < |v| ==> VecSum(vs, |v|)[d] == |vs| as real * v[d]
  {
    if |vs| > 0 {
      VecSumOfCopies(vs[..|vs| - 1], v);
    }
  }

  /** A cluster whose points all coincide has that point as its mean. */
  lemma MeanOfCopies(vs: seq<Vector>, v: Vector)
    requires |vs| >= 1 && Width(vs, |v|) && forall k :: 0 <= k < |vs| ==> vs[k] == v
    ensures Mean(vs, |v|) == v
  {
    VecSumOfCopies(vs, v);
    var n := |vs| as real;
    forall d | 0 <= d < |v| ensures Mean(vs, |v|)[d] == v[d] {
      assert VecSum(vs, |v|)[d] == n * v[d];
      assert (n * v[d]) / n == v[d];
    }
  }

  /** The centroids after one update: the mean of the assigned rows for a
      non-empty cluster, the previous centroid for an empty one. */
  function LloydCentroids(rows: seq<Vector>, dims: nat, cs: seq<Vector>, assign: seq<Neighbor>): (r: seq<Vector>)
    requires |rows| == |assign| && Width(rows, dims) && Width(cs, dims)
    ensures |r| == |cs| && Width(r, dims)
  {
    seq(|cs|, c requires 0 <= c < |cs| =>
      if Count(assign, c) == 0 then cs[c] else Mean(Members(rows, assign, c), dims))
  }

  predicate Assignments(assigns: seq<seq<Neighbor>>, n: nat, k: nat)
  {
    forall t :: 0 <= t < |assigns| ==> WellFormedNeighbors(assigns[t], n, k)
  }

  /** The centroids after one update per assignment, in order. */
  function LloydIterations(rows: seq<Vector>, dims: nat, cs: seq<Vector>, assigns: seq<seq<Neighbor>>): (r: seq<Vector>)
    requires Width(rows, dims) && Width(cs, dims) && Assignments(assigns, |rows|, |cs|)
    ensures |r| == |cs| && Width(r, dims)
  {
    if |assigns| == 0 then cs
    else
      LloydCentroids(rows, dims, LloydIterations(rows, dims, cs, assigns[..|assigns| - 1]), assigns[|assigns| - 1])
  }

  function Counts(assign: seq<Neighbor>, k: nat): (r: seq<nat>)
    ensures |r| == k
  {
    seq(k, c requires 0 <= c < k => Count(assign, c))
  }

  /** Number of zero entries. */
  function CountZeros(s: seq<nat>): nat
  {
    if |s| == 0 then 0 else CountZeros(s[..|s| - 1]) + (if s[|s| - 1] == 0 then 1 else 0)
  }

  lemma {:induction false} SumNatIncrement(s: seq<nat>, a: int)
    requires 0 <= a < |s|
    ensures SumNat(s[a := s[a] + 1]) == SumNat(s) + 1
  {
    var t := s[a := s[a] + 1];
    if a < |s| - 1 {
      assert t[..|t| - 1] == s[..|s| - 1][a := s[a] + 1];
      SumNatIncrement(s[..|s| - 1], a);
    } else {
      assert t[..|t| - 1] == s[..|s| - 1];
    }
  }

  /** Every point lands in exactly one cluster: the sizes add up to n. */
  lemma {:induction false} SizesSumToN(assign: seq<Neighbor>, k: nat)
    requires forall i :: 0 <= i < |assign| ==> 0 <= assign[i].index < k
    ensures SumNat(Counts(assign, k)) == |assign|
  {
    if |assign| == 0 {
      assert forall c :: 0 <= c < k ==> Counts(assign, k)[c] == 0;
      ZeroSum(Counts(assign, k));
    } else {
      var front := assign[..|assign| - 1];
      var a := assign[|assign| - 1].index;
      SizesSumToN(front, k);
      assert Counts(assign, k) == Counts(front, k)[a := Counts(front, k)[a] + 1];
      SumNatIncrement(Counts(front, k), a);
    }
  }

  lemma {:induction false} ZeroSum(s: seq<nat>)
    requires forall i :: 0 <= i < |s| ==> s[i] == 0
    ensures SumNat(s) == 0
  {
    if |s| > 0 { ZeroSum(s[..|s| - 1]); }
  }

  /** One Lloyd update in place: sums and counts the rows of each cluster,
      then moves every non-empty cluster's centroid to the mean of its
      rows. The empty-cluster counter is bumped once per coordinate of an
      empty cluster. */
  method LloydStep(rows: seq<Vector>, dims: nat, assign: seq<Neighbor>, centroids: array<Vector>)
    returns (sizes: seq<nat>, emptyClusterCount: nat)
    requires Width(rows, dims) && Width(centroids[..], dims)
    requires WellFormedNeighbors(assign, |rows|, centroids.Length)
    modifies centroids
    ensures centroids[..] == LloydCentroids(rows, dims, old(centroids[..]), assign)
    ensures sizes == Counts(assign, centroids.Length)
    ensures emptyClusterCount == dims * CountZeros(sizes)
  {
    var k := centroids.Length;
    var newCentroids, centroidSizes := SumClusters(rows, dims, assign, k);
    emptyClusterCount := ApplyMeans(rows, dims, assign, newCentroids, centroidSizes, centroids);
    sizes := centroidSizes[..];
    assert sizes == Counts(assign, k);
    EmptyCoordinatesCount(sizes, dims);
  }

  /** The second pass of the update: every centroid moves to its
      cluster's mean, or stays where it is when the cluster is empty. */
  method ApplyMeans(rows: seq<Vector>, dims: nat, assign: seq<Neighbor>,
                    newCentroids: array<Vector>, centroidSizes: array<nat>, centroids: array<Vector>)
    returns (emptyClusterCount: nat)
    requires Width(rows, dims) && Width(centroids[..], dims) && newCentroids != centroids
    requires WellFormedNeighbors(assign, |rows|, centroids.Length)
    requires newCentroids.Length == centroids.Length && centroidSizes.Length == centroids.Length
    requires forall c :: 0 <= c < centroids.Length ==>
      centroidSizes[c] == Count(assign, c) && newCentroids[c] == VecSum(Members(rows, assign, c), dims)
    modifies centroids
    ensures centroids[..] == LloydCentroids(rows, dims, old(centroids[..]), assign)
    ensures emptyClusterCount == EmptyCoordinates(centroidSizes[..], dims)
  {
    var k := centroids.Length;
    ghost var previous := centroids[..];
    emptyClusterCount := 0;
    for i := 0 to k
      invariant forall c :: 0 <= c < i ==> centroids[c] == LloydCentroids(rows, dims, previous, assign)[c]
      invariant forall c :: i <= c < k ==> centroids[c] == previous[c]
      invariant emptyClusterCount == EmptyCoordinates(centroidSizes[..i], dims)
    {
      emptyClusterCount := MoveToMean(rows, dims, assign, i, newCentroids[i], centroidSizes[i],
                                      centroids, previous, emptyClusterCount);
      assert centroidSizes[..i + 1][..i] == centroidSizes[..i];
    }
    assert centroidSizes[..k] == centroidSizes[..];
    assert centroids[..] == LloydCentroids(rows, dims, previous, assign);
  }

  /** dims for every empty cluster: what the per-coordinate counter adds up to. */
  function EmptyCoordinates(sizes: seq<nat>, dims: nat): nat
  {
    if |sizes| == 0 then 0
    else EmptyCoordinates(sizes[..|sizes| - 1], dims) + (if sizes[|sizes| - 1] == 0 then dims else 0)
  }

  lemma {:induction false} EmptyCoordinatesCount(sizes: seq<nat>, dims: nat)
    ensures EmptyCoordinates(sizes, dims) == dims * CountZeros(sizes)
  {
    if |sizes| > 0 {
      EmptyCoordinatesCount(sizes[..|sizes| - 1], dims);
    }
  }

  /** The first pass of the update: the coordinate-wise sum and the
      size of every cluster. */
  method SumClusters(rows: seq<Vector>, dims: nat, assign: seq<Neighbor>, k: nat)
    returns (newCentroids: array<Vector>, centroidSizes: array<nat>)
    requires Width(rows, dims) && WellFormedNeighbors(assign, |rows|, k)
    ensures fresh(newCentroids) && fresh(centroidSizes)
    ensures newCentroids.Length == k && centroidSizes.Length == k
    ensures forall c :: 0 <= c < k ==>
      centroidSizes[c] == Count(assign, c) && newCentroids[c] == VecSum(Members(rows, assign, c), dims)
  {
    newCentroids := new Vector[k](_ => Zero(dims));
    centroidSizes := new nat[k](_ => 0);
    for i := 0 to |rows|
      invariant forall c :: 0 <= c < k ==>
        centroidSizes[c] == Count(assign[..i], c) &&
        newCentroids[c] == VecSum(Members(rows[..i], assign[..i], c), dims)
    {
      AccumulateRow(rows, dims, assign, i, newCentroids, centroidSizes);
    }
    assert rows[..|rows|] == rows && assign[..|rows|] == assign;
  }

  /** Adds row i to its cluster's running sum and count. */
  method AccumulateRow(rows: seq<Vector>, dims: nat, assign: seq<Neighbor>, i: int,
                       newCentroids: array<Vector>, centroidSizes: array<nat>)
    requires Width(rows, dims) && WellFormedNeighbors(assign, |rows|, newCentroids.Length)
    requires 0 <= i < |rows| && centroidSizes.Length == newCentroids.Length
    requires forall c :: 0 <= c < newCentroids.Length ==>
      centroidSizes[c] == Count(assign[..i], c) &&
      newCentroids[c] == VecSum(Members(rows[..i], assign[..i], c), dims)
    modifies newCentroids, centroidSizes
    ensures forall c :: 0 <= c < newCentroids.Length ==>
      centroidSizes[c] == Count(assign[..i + 1], c) &&
      newCentroids[c] == VecSum(Members(rows[..i + 1], assign[..i + 1], c), dims)
  {
    var assignedCentroid := assign[i].index;
    assert rows[..i + 1][..i] == rows[..i] && assign[..i + 1][..i] == assign[..i];
    assert forall c :: 0 <= c < newCentroids.Length ==>
      Members(rows[..i + 1], assign[..i + 1], c) ==
      Members(rows[..i], assign[..i], c) + (if c == assignedCentroid then [rows[i]] else []);
    ghost var m := Members(rows[..i], assign[..i], assignedCentroid);
    assert Width(m, dims);
    assert (m + [rows[i]])[..|m|] == m;
    ghost var sums := newCentroids[..];
    ghost var sizes := centroidSizes[..];
    newCentroids[assignedCentroid] := Add(newCentroids[assignedCentroid], rows[i]);
    centroidSizes[assignedCentroid] := centroidSizes[assignedCentroid] + 1;
    forall c | 0 <= c < newCentroids.Length
      ensures centroidSizes[c] == Count(assign[..i + 1], c)
      ensures newCentroids[c] == VecSum(Members(rows[..i + 1], assign[..i + 1], c), dims)
    {
      if c == assignedCentroid {
        assert Members(rows[..i + 1], assign[..i + 1], c) == m + [rows[i]];
        assert VecSum(m + [rows[i]], dims) == Add(VecSum(m, dims), rows[i]);
        assert sums[c] == VecSum(m, dims);
        assert newCentroids[c] == Add(sums[c], rows[i]);
      } else {
        assert newCentroids[c] == sums[c] && centroidSizes[c] == sizes[c];
        assert Members(rows[..i + 1], assign[..i + 1], c) == Members(rows[..i], assign[..i], c);
      }
    }
  }

  /** Divides cluster i's sum by its size coordinate by coordinate, or
      counts every coordinate of an empty cluster as empty. */
  method MoveToMean(rows: seq<Vector>, dims: nat, assign: seq<Neighbor>, i: int,
                    clusterSum: Vector, clusterSize: nat, centroids: array<Vector>,
                    ghost previous: seq<Vector>, emptyBefore: nat)
    returns (emptyAfter: nat)
    requires Width(rows, dims) && |previous| == centroids.Length && Width(previous, dims)
    requires WellFormedNeighbors(assign, |rows|, centroids.Length)
    requires 0 <= i < centroids.Length && centroids[i] == previous[i]
    requires clusterSize == Count(assign, i) && clusterSum == VecSum(Members(rows, assign, i), dims)
    modifies centroids
    ensures centroids[i] == LloydCentroids(rows, dims, previous, assign)[i]
    ensures forall c :: 0 <= c < centroids.Length && c != i ==> centroids[c] == old(centroids[c])
    ensures emptyAfter == emptyBefore + (if clusterSize == 0 then dims else 0)
  {
    emptyAfter := emptyBefore;
    ghost var target := LloydCentroids(rows, dims, previous, assign)[i];
    assert clusterSize != 0 ==> target == Mean(Members(rows, assign, i), dims);
    for d := 0 to dims
      invariant |centroids[i]| == dims
      invariant clusterSize != 0 ==> forall e :: 0 <= e < d ==> centroids[i][e] == target[e]
      invariant forall e :: d <= e < dims ==> centroids[i][e] == previous[i][e]
      invariant clusterSize == 0 ==> centroids[i] == previous[i]
      invariant forall c :: 0 <= c < centroids.Length && c != i ==> centroids[c] == old(centroids[c])
      invariant emptyAfter == emptyBefore + (if clusterSize == 0 then d else 0)
    {
      if clusterSize != 0 {
        assert target[d] == clusterSum[d] / clusterSize as real;
        centroids[i] := centroids[i][d := clusterSum[d] / clusterSize as real];
      } else {
        emptyAfter := emptyAfter + 1;
      }
    }
    if clusterSize != 0 {
      assert |target| == dims;
      assert centroids[i] == target;
    }
  }

  // ---------------------------------------------------------------------
  // Diagnostics of the last iteration.

  function Distances(found: seq<Neighbor>): (r: seq<real>)
    ensures |r| == |found| && forall i :: 0 <= i < |found| ==> r[i] == found[i].dist
  {
    seq(|found|, i requires 0 <= i < |found| => found[i].dist)
  }

  /** The clustering metric: the sum of each row's distance to its nearest
      centroid, as the search reports it. */
  method SumDistances(found: seq<Neighbor>) returns (metric: real)
    ensures metric == Sum(Distances(found))
  {
    metric := 0.0;
    for i := 0 to |found|
      invariant metric == Sum(Distances(found)[..i])
    {
      assert Distances(found)[..i + 1][..i] == Distances(found)[..i];
      metric := metric + found[i].dist;
    }
    assert Distances(found)[..|found|] == Distances(found);
  }

  lemma MetricNonNegative(found: seq<Neighbor>, n: nat, k: int)
    requires WellFormedNeighbors(found, n, k)
    ensures Sum(Distances(found)) >= 0.0
  {
    SumNonNegative(Distances(found));
  }

  predicate NonIncreasing(s: seq<int>)
  {
    forall i, j :: 0 <= i < j < |s| ==> s[i] >= s[j]
  }

  function InsertDescending(x: int, s: seq<int>): (r: seq<int>)
    requires NonIncreasing(s)
    ensures NonIncreasing(r) && multiset(r) == multiset(s) + multiset{x}
  {
    if |s| == 0 || x >= s[0] then [x] + s
    else
      var t := InsertDescending(x, s[1..]);
      assert s == [s[0]] + s[1..];
      assert forall k :: 0 <= k < |s[1..]| ==> s[1..][k] <= s[0];
      BoundedByMultiset(t, s[1..], x, s[0]);
      DescendingCons(s[0], t);
      assert multiset([s[0]] + t) == multiset{s[0]} + multiset(t);
      [s[0]] + t
  }

  /** Every value of t, made of the values of u and x, is at most h when
      they all are. */
  lemma BoundedByMultiset(t: seq<int>, u: seq<int>, x: int, h: int)
    requires multiset(t) == multiset(u) + multiset{x}
    requires x <= h && forall k :: 0 <= k < |u| ==> u[k] <= h
    ensures forall k :: 0 <= k < |t| ==> t[k] <= h
  {
    forall k | 0 <= k < |t| ensures t[k] <= h {
      assert t[k] in multiset(t);
      if t[k] != x {
        assert t[k] in multiset(u);
        var j :| 0 <= j < |u| && u[j] == t[k];
      }
    }
  }

  lemma DescendingCons(h: int, t: seq<int>)
    requires NonIncreasing(t) && forall k :: 0 <= k < |t| ==> t[k] <= h
    ensures NonIncreasing([h] + t)
  {
    var r := [h] + t;
    forall i, j | 0 <= i < j < |r| ensures r[i] >= r[j] {
      assert r[j] == t[j - 1];
    }
  }

  /** The cluster sizes largest first (std::sort, then std::reverse). */
  function SortDescending(s: seq<int>): (r: seq<int>)
    ensures NonIncreasing(r) && multiset(r) == multiset(s)
  {
    if |s| == 0 then []
    else
      var r := InsertDescending(s[|s| - 1], SortDescending(s[..|s| - 1]));
      assert s == s[..|s| - 1] + [s[|s| - 1]];
      r
  }

  function SumInt(s: seq<int>): int
  {
    if |s| == 0 then 0 else SumInt(s[..|s| - 1]) + s[|s| - 1]
  }

  lemma {:induction false} SumIntAppend(s: seq<int>, t: seq<int>)
    ensures SumInt(s + t) == SumInt(s) + SumInt(t)
    decreases |t|
  {
    if |t| == 0 {
      assert s + t == s;
    } else {
      assert (s + t)[..|s + t| - 1] == s + t[..|t| - 1];
      SumIntAppend(s, t[..|t| - 1]);
    }
  }

  lemma {:induction false} SumIntOfNats(s: seq<nat>)
    ensures SumInt(s) == SumNat(s)
  {
    if |s| > 0 { SumIntOfNats(s[..|s| - 1]); }
  }

  lemma {:induction false} SumIntInsert(x: int, s: seq<int>)
    requires NonIncreasing(s)
    ensures SumInt(InsertDescending(x, s)) == x + SumInt(s)
    decreases |s|
  {
    if |s| == 0 || x >= s[0] {
      SumIntAppend([x], s);
    } else {
      SumIntInsert(x, s[1..]);
      SumIntAppend([s[0]], InsertDescending(x, s[1..]));
      SumIntAppend([s[0]], s[1..]);
      assert s == [s[0]] + s[1..];
    }
  }

  /** Sorting keeps the total. */
  lemma {:induction false} SumIntSort(s: seq<int>)
    ensures SumInt(SortDescending(s)) == SumInt(s)
  {
    if |s| > 0 {
      var front := s[..|s| - 1];
      SumIntSort(front);
      SumIntInsert(s[|s| - 1], SortDescending(front));
    }
  }

  /** The sorted sizes, k of them, still add up to the number of points. */
  lemma SortedSizesSum(assign: seq<Neighbor>, k: nat)
    requires forall i :: 0 <= i < |assign| ==> 0 <= assign[i].index < k
    ensures |SortDescending(Counts(assign, k))| == k
    ensures SumInt(SortDescending(Counts(assign, k))) == |assign|
  {
    assert |multiset(SortDescending(Counts(assign, k)))| == |multiset(Counts(assign, k))|;
    SumIntSort(Counts(assign, k));
    SumIntOfNats(Counts(assign, k));
    SizesSumToN(assign, k);
  }
}
