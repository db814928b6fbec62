/** Similarity measures over spatial pyramids: the sparse dot product,
    histogram intersection, the linear kernel, the Lazebnik 2006 spatial
    pyramid match kernel, and unrolling a pyramid into one sparse vector. */
module SpatialPyramidKernel {
  import opened Common

  /** The default of a histogram's non_sparse_length when nobody set it. */
  const UnsetLength: int := -1

  datatype SparseValue = SparseValue(index: int, value: real)

  /** A sparse histogram: its (index, value) entries and its dense length. */
  datatype SparseVector = SparseVector(values: seq<SparseValue>, nonSparseLength: int)

  datatype PyramidLevel = PyramidLevel(rows: int, columns: int, histograms: seq<SparseVector>)

  datatype SpatialPyramid = SpatialPyramid(levels: seq<PyramidLevel>)

  /** Entry indices strictly ascending (each index at most once). */
  predicate Ascending(v: seq<SparseValue>)
  {
    forall p, q :: 0 <= p < q < |v| ==> v[p].index < v[q].index
  }

  predicate HasIndex(v: seq<SparseValue>, idx: int)
  {
    exists k :: 0 <= k < |v| && v[k].index == idx
  }

  /** The dense value at idx: the entry's value, or 0 if idx is absent. */
  function ValueAt(v: seq<SparseValue>, idx: int): real
  {
    if |v| == 0 then 0.0
    else if v[0].index == idx then v[0].value
    else ValueAt(v[1..], idx)
  }

  lemma {:induction false} ValueAtEntry(v: seq<SparseValue>, k: int)
    requires Ascending(v) && 0 <= k < |v|
    ensures ValueAt(v, v[k].index) == v[k].value
  {
    if k > 0 {
      ValueAtEntry(v[1..], k - 1);
    }
  }

  lemma {:induction false} ValueAtAbsent(v: seq<SparseValue>, idx: int)
    requires !HasIndex(v, idx)
    ensures ValueAt(v, idx) == 0.0
  {
    if |v| > 0 {
      assert forall k :: 0 <= k < |v[1..]| ==> v[1..][k] == v[k + 1];
      ValueAtAbsent(v[1..], idx);
    }
  }

  /** Specification of Dot: the sum over a's entries of the product with
      b's value at the same index, i.e. the sum over shared indices. */
  function DotSpec(a: seq<SparseValue>, b: seq<SparseValue>): real
  {
    if |a| == 0 then 0.0
    else DotSpec(a[..|a| - 1], b) + a[|a| - 1].value * ValueAt(b, a[|a| - 1].index)
  }

  /** Specification of HistogramIntersection: the sum over shared indices
      of the smaller of the two values. */
  function IntersectionSpec(a: seq<SparseValue>, b: seq<SparseValue>): real
  {
    if |a| == 0 then 0.0
    else
      var last := a[|a| - 1];
      IntersectionSpec(a[..|a| - 1], b) +
        (if HasIndex(b, last.index) then Min(last.value, ValueAt(b, last.index)) else 0.0)
  }

  /** Once every remaining entry of a lies past the end of b, nothing more
      is added to the dot product. */
  lemma {:induction false} DotSpecTailAbsent(a: seq<SparseValue>, b: seq<SparseValue>, i: nat)
    requires Ascending(a) && i <= |a|
    requires forall k, m :: i <= k < |a| && 0 <= m < |b| ==> b[m].index < a[k].index
    ensures DotSpec(a, b) == DotSpec(a[..i], b)
    decreases |a|
  {
    if |a| > i {
      assert !HasIndex(b, a[|a| - 1].index);
      ValueAtAbsent(b, a[|a| - 1].index);
      assert a[..|a| - 1][..i] == a[..i];
      DotSpecTailAbsent(a[..|a| - 1], b, i);
    } else {
      assert a[..i] == a;
    }
  }

  lemma {:induction false} DotSpecSharedNone(a: seq<SparseValue>, b: seq<SparseValue>)
    requires forall k :: 0 <= k < |a| ==> !HasIndex(b, a[k].index)
    ensures DotSpec(a, b) == 0.0
  {
    if |a| > 0 {
      ValueAtAbsent(b, a[|a| - 1].index);
      DotSpecSharedNone(a[..|a| - 1], b);
    }
  }

  /** The two-cursor merge of the source. Cursor j never passes |b|; the
      loop stops as soon as b is exhausted. */
  method Dot(a: seq<SparseValue>, b: seq<SparseValue>) returns (result: real)
    requires Ascending(a) && Ascending(b)
    ensures result == DotSpec(a, b)
  {
    result := 0.0;
    var j := 0;
    var i := 0;
    while i < |a|
      invariant 0 <= i <= |a| && 0 <= j <= |b|
      invariant result == DotSpec(a[..i], b)
      invariant forall m, k :: 0 <= m < j && i <= k < |a| ==> b[m].index < a[k].index
    {
      var aIndex := a[i].index;
      while j < |b| && b[j].index < aIndex
        invariant 0 <= j <= |b|
        invariant forall m :: 0 <= m < j ==> b[m].index < aIndex
      {
        j := j + 1;
      }
      if j >= |b| {
        DotSpecTailAbsent(a, b, i);
        return;
      }
      assert a[..i + 1][..i] == a[..i];
      if b[j].index == aIndex {
        ValueAtEntry(b, j);
        result := result + b[j].value * a[i].value;
      } else {
        assert !HasIndex(b, aIndex);
        ValueAtAbsent(b, aIndex);
      }
      i := i + 1;
    }
    assert a[..i] == a;
  }

  lemma {:induction false} IntersectionSpecEmptyB(a: seq<SparseValue>)
    ensures IntersectionSpec(a, []) == 0.0
  {
    if |a| > 0 { IntersectionSpecEmptyB(a[..|a| - 1]); }
  }

  /** The source's cursor j stays in [0, |b| - 1]; an empty input gives 0. */
  method HistogramIntersection(a: seq<SparseValue>, b: seq<SparseValue>) returns (intersection: real)
    requires Ascending(a) && Ascending(b)
    ensures intersection == IntersectionSpec(a, b)
  {
    if |a| == 0 || |b| == 0 {
      if |b| == 0 { IntersectionSpecEmptyB(a); }
      return 0.0;
    }
    var j := 0;
    intersection := 0.0;
    for i := 0 to |a|
      invariant 0 <= j <= |b| - 1
      invariant intersection == IntersectionSpec(a[..i], b)
      invariant forall m, k :: 0 <= m < j && i <= k < |a| ==> b[m].index < a[k].index
    {
      var aIndex := a[i].index;
      while b[j].index < aIndex && j < |b| - 1
        invariant 0 <= j <= |b| - 1
        invariant forall m :: 0 <= m < j ==> b[m].index < aIndex
      {
        j := j + 1;
      }
      assert a[..i + 1][..i] == a[..i];
      if aIndex == b[j].index {
        ValueAtEntry(b, j);
        intersection := intersection + Min(a[i].value, b[j].value);
      } else {
        assert !HasIndex(b, aIndex);
      }
    }
    assert a[..|a|] == a;
  }

  // ---------------------------------------------------------------------
  // Kernels over whole pyramids.

  /** Two levels can be compared histogram by histogram: b holds at least
      the histograms a holds, and every histogram involved is ascending. */
  predicate LevelComparable(ha: seq<SparseVector>, hb: seq<SparseVector>)
  {
    |ha| <= |hb| &&
    forall h :: 0 <= h < |ha| ==> Ascending(ha[h].values) && Ascending(hb[h].values)
  }

  predicate Comparable(pa: SpatialPyramid, pb: SpatialPyramid)
  {
    |pa.levels| == |pb.levels| &&
    forall l :: 0 <= l < |pa.levels| ==> LevelComparable(pa.levels[l].histograms, pb.levels[l].histograms)
  }

  /** The first n levels of both pyramids exist and are comparable. */
  predicate ComparableThrough(pa: SpatialPyramid, pb: SpatialPyramid, n: nat)
  {
    n <= |pa.levels| && n <= |pb.levels| &&
    forall l :: 0 <= l < n ==> LevelComparable(pa.levels[l].histograms, pb.levels[l].histograms)
  }

  /** Sum over the first n histograms of a level of the per-histogram dot. */
  function LevelDot(ha: seq<SparseVector>, hb: seq<SparseVector>, n: nat): real
    requires n <= |ha| && n <= |hb|
  {
    if n == 0 then 0.0 else LevelDot(ha, hb, n - 1) + DotSpec(ha[n - 1].values, hb[n - 1].values)
  }

  /** Sum of LevelDot over the first n levels. */
  function PyramidDot(pa: SpatialPyramid, pb: SpatialPyramid, n: nat): real
    requires Comparable(pa, pb) && n <= |pa.levels|
  {
    if n == 0 then 0.0
    else
      var ha := pa.levels[n - 1].histograms;
      PyramidDot(pa, pb, n - 1) + LevelDot(ha, pb.levels[n - 1].histograms, |ha|)
  }

  /** Sum over the first n histograms of a level of the intersections. */
  function LevelIntersection(ha: seq<SparseVector>, hb: seq<SparseVector>, n: nat): real
    requires n <= |ha| && n <= |hb|
  {
    if n == 0 then 0.0
    else LevelIntersection(ha, hb, n - 1) + IntersectionSpec(ha[n - 1].values, hb[n - 1].values)
  }

  /** The weight the match kernel gives level l of a numLevels-level
      comparison: 1/2^(L-1) for level 0, 1/2^(L-l) for level l >= 1. */
  function LevelWeight(numLevels: nat, l: nat): (w: real)
    requires 1 <= numLevels && l < numLevels
    ensures w > 0.0
  {
    Pow2Positive(numLevels - 1);
    Pow2Positive(numLevels - l);
    if l == 0 then 1.0 / Pow2(numLevels - 1) as real else 1.0 / Pow2(numLevels - l) as real
  }

  /** Lazebnik's weighting: levels 0 and 1 weigh the same, each finer
      level weighs twice the previous one, and the finest weighs 1/2
      (1 when there is a single level). */
  lemma LevelWeights(numLevels: nat, l: nat)
    requires 2 <= numLevels && 1 <= l < numLevels
    ensures LevelWeight(numLevels, 0) == LevelWeight(numLevels, 1)
    ensures l + 1 < numLevels ==> LevelWeight(numLevels, l + 1) == 2.0 * LevelWeight(numLevels, l)
    ensures LevelWeight(numLevels, numLevels - 1) == 0.5
    ensures LevelWeight(1, 0) == 1.0
  {
    Pow2Positive(numLevels - l - 1);
  }

  /** The weighted sum the match kernel computes over levels [0, n). */
  function SpmSpec(pa: SpatialPyramid, pb: SpatialPyramid, numLevels: nat, n: nat): real
    requires ComparableThrough(pa, pb, numLevels) && 1 <= numLevels && n <= numLevels
  {
    if n == 0 then 0.0
    else
      var ha := pa.levels[n - 1].histograms;
      SpmSpec(pa, pb, numLevels, n - 1) +
        LevelWeight(numLevels, n - 1) * LevelIntersection(ha, pb.levels[n - 1].histograms, |ha|)
  }

  /** With one level the match kernel is the plain intersection of the
      coarsest histograms; with two it is the mean of the two levels'. */
  lemma SpmOneAndTwoLevels(pa: SpatialPyramid, pb: SpatialPyramid)
    requires ComparableThrough(pa, pb, 1)
    requires 2 <= |pa.levels| ==> ComparableThrough(pa, pb, 2)
    ensures SpmSpec(pa, pb, 1, 1) ==
      LevelIntersection(pa.levels[0].histograms, pb.levels[0].histograms, |pa.levels[0].histograms|)
    ensures 2 <= |pa.levels| ==>
      SpmSpec(pa, pb, 2, 2) ==
        0.5 * LevelIntersection(pa.levels[0].histograms, pb.levels[0].histograms, |pa.levels[0].histograms|) +
        0.5 * LevelIntersection(pa.levels[1].histograms, pb.levels[1].histograms, |pa.levels[1].histograms|)
  {
    assert LevelWeight(1, 0) == 1.0;
    if 2 <= |pa.levels| {
      assert LevelWeight(2, 0) == 0.5 && LevelWeight(2, 1) == 0.5;
      assert SpmSpec(pa, pb, 2, 1) == 0.5 *
        LevelIntersection(pa.levels[0].histograms, pb.levels[0].histograms, |pa.levels[0].histograms|);
    }
  }

  /** Dot products of the histograms of one level, added to acc. */
  method AddLevelDots(ha: seq<SparseVector>, hb: seq<SparseVector>, acc: real) returns (r: real)
    requires LevelComparable(ha, hb)
    ensures r == acc + LevelDot(ha, hb, |ha|)
  {
    r := acc;
    for h := 0 to |ha|
      invariant r == acc + LevelDot(ha, hb, h)
    {
      var d := Dot(ha[h].values, hb[h].values);
      r := r + d;
    }
  }

  /** The linear kernel: the plain sum of the dot products of all
      corresponding histograms. Unequal level counts are fatal. */
  method LinearKernel(pa: SpatialPyramid, pb: SpatialPyramid) returns (r: Result<real>)
    requires |pa.levels| == |pb.levels| ==> 1 <= |pa.levels| && Comparable(pa, pb)
    ensures r.Fatal? <==> |pa.levels| != |pb.levels|
    ensures r.Ok? ==> r.value == PyramidDot(pa, pb, |pa.levels|)
  {
    if |pa.levels| != |pb.levels| {
      return Fatal("level counts differ");
    }
    var dot := 0.0;
    for level := 0 to |pa.levels|
      invariant dot == PyramidDot(pa, pb, level)
    {
      dot := AddLevelDots(pa.levels[level].histograms, pb.levels[level].histograms, dot);
    }
    return Ok(dot);
  }

  method AddLevelIntersections(ha: seq<SparseVector>, hb: seq<SparseVector>, weight: real, acc: real)
    returns (r: real)
    requires LevelComparable(ha, hb)
    ensures r == acc + weight * LevelIntersection(ha, hb, |ha|)
  {
    r := acc;
    for h := 0 to |ha|
      invariant r == acc + weight * LevelIntersection(ha, hb, h)
    {
      var x := HistogramIntersection(ha[h].values, hb[h].values);
      r := r + x * weight;
    }
  }

  /** The spatial pyramid match kernel over the first numLevels levels.
      Unequal level counts, or asking for more levels than there are,
      is fatal; only the levels it reads need be comparable. */
  method SpmKernel(pa: SpatialPyramid, pb: SpatialPyramid, numLevels: nat) returns (r: Result<real>)
    requires numLevels >= 1
    requires |pa.levels| == |pb.levels| && numLevels <= |pa.levels| ==> ComparableThrough(pa, pb, numLevels)
    ensures r.Fatal? <==> |pa.levels| != |pb.levels| || |pa.levels| < numLevels
    ensures r.Ok? ==> r.value == SpmSpec(pa, pb, numLevels, numLevels)
  {
    if |pa.levels| != |pb.levels| {
      return Fatal("level counts differ");
    }
    if |pa.levels| < numLevels {
      return Fatal("not enough levels");
    }
    var intersection := 0.0;
    for level := 0 to numLevels
      invariant intersection == SpmSpec(pa, pb, numLevels, level)
    {
      assert LevelComparable(pa.levels[level].histograms, pb.levels[level].histograms);
      var weight := LevelWeight(numLevels, level);
      var next := AddLevelIntersections(pa.levels[level].histograms, pb.levels[level].histograms,
                                        weight, intersection);
      SpmSpecStep(pa, pb, numLevels, level, intersection, next);
      intersection := next;
    }
    return Ok(intersection);
  }

  /** Adding level n's weighted intersection to the sum over the levels
      before it gives the sum through level n. */
  lemma SpmSpecStep(pa: SpatialPyramid, pb: SpatialPyramid, numLevels: nat, n: nat, before: real, after: real)
    requires ComparableThrough(pa, pb, numLevels) && 1 <= numLevels && n < numLevels
    requires before == SpmSpec(pa, pb, numLevels, n)
    requires after == before + LevelWeight(numLevels, n) *
      LevelIntersection(pa.levels[n].histograms, pb.levels[n].histograms, |pa.levels[n].histograms|)
    ensures after == SpmSpec(pa, pb, numLevels, n + 1)
  {
  }

  // ---------------------------------------------------------------------
  // Unrolling a pyramid.

  /** All histograms of the pyramid: level by level, row-major inside. */
  function AllHistograms(levels: seq<PyramidLevel>): seq<SparseVector>
  {
    if |levels| == 0 then [] else AllHistograms(levels[..|levels| - 1]) + levels[|levels| - 1].histograms
  }

  /** Sum of the dense lengths of a run of histograms. */
  function TotalLength(hs: seq<SparseVector>): int
  {
    if |hs| == 0 then 0 else TotalLength(hs[..|hs| - 1]) + hs[|hs| - 1].nonSparseLength
  }

  function Shift(v: seq<SparseValue>, base: int): (r: seq<SparseValue>)
    ensures |r| == |v|
    ensures forall i :: 0 <= i < |v| ==> r[i] == SparseValue(base + v[i].index, v[i].value)
  {
    if |v| == 0 then [] else Shift(v[..|v| - 1], base) + [SparseValue(base + v[|v| - 1].index, v[|v| - 1].value)]
  }

  /** The concatenation: each histogram's entries shifted by the summed
      dense lengths of every histogram before it. */
  function UnrollSpec(hs: seq<SparseVector>): seq<SparseValue>
  {
    if |hs| == 0 then []
    else UnrollSpec(hs[..|hs| - 1]) + Shift(hs[|hs| - 1].values, TotalLength(hs[..|hs| - 1]))
  }

  predicate GridsMatch(p: SpatialPyramid)
  {
    forall l :: 0 <= l < |p.levels| ==> p.levels[l].rows * p.levels[l].columns == |p.levels[l].histograms|
  }

  predicate LengthsRecorded(p: SpatialPyramid)
  {
    forall l, h :: 0 <= l < |p.levels| && 0 <= h < |p.levels[l].histograms| ==>
      p.levels[l].histograms[h].nonSparseLength != UnsetLength
  }

  lemma UnrollStep(hs: seq<SparseVector>, x: SparseVector)
    ensures UnrollSpec(hs + [x]) == UnrollSpec(hs) + Shift(x.values, TotalLength(hs))
    ensures TotalLength(hs + [x]) == TotalLength(hs) + x.nonSparseLength
  {
    assert (hs + [x])[..|hs|] == hs;
  }

  method AppendShifted(acc: seq<SparseValue>, values: seq<SparseValue>, base: int) returns (r: seq<SparseValue>)
    ensures r == acc + Shift(values, base)
  {
    r := acc;
    for i := 0 to |values|
      invariant r == acc + Shift(values[..i], base)
    {
      assert values[..i + 1][..i] == values[..i];
      r := r + [SparseValue(base + values[i].index, values[i].value)];
    }
    assert values[..|values|] == values;
  }

  /** One histogram of UnrollLevel, stated before and after. */
  lemma UnrollLevelStep(done: seq<SparseVector>, hs: seq<SparseVector>, k: nat, prefix: seq<SparseVector>,
                        result: seq<SparseValue>, baseIndex: int, next: seq<SparseValue>)
    requires k < |hs| && prefix == done + hs[..k]
    requires result == UnrollSpec(prefix) && baseIndex == TotalLength(prefix)
    requires next == result + Shift(hs[k].values, baseIndex)
    ensures prefix + [hs[k]] == done + hs[..k + 1]
    ensures next == UnrollSpec(prefix + [hs[k]])
    ensures baseIndex + hs[k].nonSparseLength == TotalLength(prefix + [hs[k]])
  {
    UnrollStep(prefix, hs[k]);
    Common.PrefixExtend(hs, k);
  }

  /** The inner loop of UnrollHistograms over one level's histograms,
      extending the vector unrolled so far from the histograms in done. */
  method UnrollLevel(hs: seq<SparseVector>, acc: seq<SparseValue>, base: int, ghost done: seq<SparseVector>)
    returns (recorded: bool, result: seq<SparseValue>, baseIndex: int)
    requires acc == UnrollSpec(done) && base == TotalLength(done)
    ensures recorded <==> forall h :: 0 <= h < |hs| ==> hs[h].nonSparseLength != UnsetLength
    ensures recorded ==> result == UnrollSpec(done + hs) && baseIndex == TotalLength(done + hs)
  {
    result, baseIndex := acc, base;
    ghost var prefix := done;
    for histogramId := 0 to |hs|
      invariant prefix == done + hs[..histogramId]
      invariant result == UnrollSpec(prefix) && baseIndex == TotalLength(prefix)
      invariant forall h :: 0 <= h < histogramId ==> hs[h].nonSparseLength != UnsetLength
    {
      var histogram := hs[histogramId];
      if histogram.nonSparseLength == UnsetLength {
        return false, result, baseIndex;
      }
      var next := AppendShifted(result, histogram.values, baseIndex);
      UnrollLevelStep(done, hs, histogramId, prefix, result, baseIndex, next);
      result, baseIndex := next, baseIndex + histogram.nonSparseLength;
      prefix := prefix + [histogram];
    }
    assert hs[..|hs|] == hs;
    return true, result, baseIndex;
  }

  lemma AllHistogramsStep(levels: seq<PyramidLevel>, i: nat)
    requires i < |levels|
    ensures AllHistograms(levels[..i + 1]) == AllHistograms(levels[..i]) + levels[i].histograms
  {
    assert levels[..i + 1][..i] == levels[..i];
  }

  /** The first n levels have rows * columns histograms, each with a
      recorded dense length. */
  predicate LevelsCheckedUpTo(levels: seq<PyramidLevel>, n: nat)
    requires n <= |levels|
  {
    (forall l :: 0 <= l < n ==> levels[l].rows * levels[l].columns == |levels[l].histograms|) &&
    forall l, h :: 0 <= l < n && 0 <= h < |levels[l].histograms| ==>
      levels[l].histograms[h].nonSparseLength != UnsetLength
  }

  /** One level of UnrollHistograms that passed both checks. */
  lemma LevelChecked(levels: seq<PyramidLevel>, i: nat, done: seq<SparseVector>)
    requires i < |levels| && LevelsCheckedUpTo(levels, i)
    requires levels[i].rows * levels[i].columns == |levels[i].histograms|
    requires forall h :: 0 <= h < |levels[i].histograms| ==> levels[i].histograms[h].nonSparseLength != UnsetLength
    requires done == AllHistograms(levels[..i])
    ensures LevelsCheckedUpTo(levels, i + 1)
    ensures done + levels[i].histograms == AllHistograms(levels[..i + 1])
  {
    AllHistogramsStep(levels, i);
  }

  /** Flattens the pyramid into one sparse vector, returning it with its
      total dimension. No levels, a level whose histogram count is not
      rows * columns, or a histogram without a recorded dense length is
      fatal. */
  method UnrollHistograms(p: SpatialPyramid) returns (r: Result<(seq<SparseValue>, int)>)
    ensures r.Ok? <==> |p.levels| > 0 && GridsMatch(p) && LengthsRecorded(p)
    ensures r.Ok? ==> r.value.0 == UnrollSpec(AllHistograms(p.levels))
    ensures r.Ok? ==> r.value.1 == TotalLength(AllHistograms(p.levels))
  {
    var result: seq<SparseValue> := [];
    if |p.levels| == 0 {
      return Fatal("pyramid has no levels");
    }
    var baseIndex := 0;
    ghost var done: seq<SparseVector> := [];
    for levelId := 0 to |p.levels|
      invariant done == AllHistograms(p.levels[..levelId])
      invariant result == UnrollSpec(done) && baseIndex == TotalLength(done)
      invariant LevelsCheckedUpTo(p.levels, levelId)
    {
      var level := p.levels[levelId];
      if level.rows * level.columns != |level.histograms| {
        assert !GridsMatch(p);
        return Fatal("number of histograms does not match rows * columns");
      }
      var recorded;
      recorded, result, baseIndex := UnrollLevel(level.histograms, result, baseIndex, done);
      if !recorded {
        assert !LengthsRecorded(p);
        return Fatal("non_sparse_length was not recorded");
      }
      LevelChecked(p.levels, levelId, done);
      done := done + level.histograms;
    }
    assert p.levels[..|p.levels|] == p.levels;
    assert GridsMatch(p) && LengthsRecorded(p);
    return Ok((result, baseIndex));
  }

  /** Every histogram ascending, with its indices inside its dense length. */
  predicate WellIndexed(hs: seq<SparseVector>)
  {
    forall h :: 0 <= h < |hs| ==>
      hs[h].nonSparseLength >= 0 && Ascending(hs[h].values) &&
      forall k :: 0 <= k < |hs[h].values| ==> 0 <= hs[h].values[k].index < hs[h].nonSparseLength
  }

  /** Unrolling keeps the vector sparse-well-formed: its indices are
      strictly ascending and all lie below the total dimension, so the
      histograms occupy disjoint index ranges. */
  lemma {:induction false} UnrollAscending(hs: seq<SparseVector>)
    requires WellIndexed(hs)
    ensures Ascending(UnrollSpec(hs))
    ensures forall k :: 0 <= k < |UnrollSpec(hs)| ==> 0 <= UnrollSpec(hs)[k].index < TotalLength(hs)
    ensures TotalLength(hs) >= 0
  {
    if |hs| > 0 {
      var front := hs[..|hs| - 1];
      var last := hs[|hs| - 1];
      assert WellIndexed(front) by {
        forall h | 0 <= h < |front| ensures front[h] == hs[h] { }
      }
      UnrollAscending(front);
      var u: seq<SparseValue> := UnrollSpec(front);
      var t: seq<SparseValue> := Shift(last.values, TotalLength(front));
      assert UnrollSpec(hs) == u + t;
      forall p: int, q: int | 0 <= p < q < |u + t|
        ensures (u + t)[p].index < (u + t)[q].index
      {
        if q < |u| {
        } else if p < |u| {
          assert (u + t)[p].index < TotalLength(front);
        } else {
          assert (u + t)[p] == t[p - |u|] && (u + t)[q] == t[q - |u|];
        }
      }
    }
  }

  // ---------------------------------------------------------------------
  // The linear kernel is the dot product of the unrolled pyramids.

  lemma {:induction false} ValueAtAppend(x: seq<SparseValue>, y: seq<SparseValue>, idx: int)
    ensures !HasIndex(y, idx) ==> ValueAt(x + y, idx) == ValueAt(x, idx)
    ensures !HasIndex(x, idx) ==> ValueAt(x + y, idx) == ValueAt(y, idx)
  {
    if |x| == 0 {
      assert x + y == y;
      if !HasIndex(y, idx) { ValueAtAbsent(y, idx); }
    } else {
      assert (x + y)[0] == x[0] && (x + y)[1..] == x[1..] + y;
      if x[0].index != idx {
        assert !HasIndex(x, idx) ==> !HasIndex(x[1..], idx) by {
          if HasIndex(x[1..], idx) {
            var k :| 0 <= k < |x[1..]| && x[1..][k].index == idx;
            assert x[k + 1].index == idx;
          }
        }
        ValueAtAppend(x[1..], y, idx);
      }
    }
  }

  lemma {:induction false} DotSpecAppend(x: seq<SparseValue>, y: seq<SparseValue>, b: seq<SparseValue>)
    ensures DotSpec(x + y, b) == DotSpec(x, b) + DotSpec(y, b)
    decreases |y|
  {
    if |y| == 0 {
      assert x + y == x;
    } else {
      assert (x + y)[..|x + y| - 1] == x + y[..|y| - 1];
      DotSpecAppend(x, y[..|y| - 1], b);
    }
  }

  /** The dot product only looks at b's values at a's indices. */
  lemma {:induction false} DotSpecSameValues(a: seq<SparseValue>, b: seq<SparseValue>, c: seq<SparseValue>)
    requires forall k :: 0 <= k < |a| ==> ValueAt(b, a[k].index) == ValueAt(c, a[k].index)
    ensures DotSpec(a, b) == DotSpec(a, c)
  {
    if |a| > 0 {
      DotSpecSameValues(a[..|a| - 1], b, c);
    }
  }

  lemma {:induction false} ValueAtShift(v: seq<SparseValue>, base: int, idx: int)
    ensures ValueAt(Shift(v, base), base + idx) == ValueAt(v, idx)
  {
    if |v| > 0 {
      assert Shift(v, base)[1..] == Shift(v[1..], base);
      ValueAtShift(v[1..], base, idx);
    }
  }

  lemma {:induction false} DotSpecShift(a: seq<SparseValue>, b: seq<SparseValue>, base: int)
    ensures DotSpec(Shift(a, base), Shift(b, base)) == DotSpec(a, b)
  {
    if |a| > 0 {
      var front, last := a[..|a| - 1], a[|a| - 1];
      var shifted := Shift(a, base);
      var e := SparseValue(base + last.index, last.value);
      assert shifted == Shift(front, base) + [e];
      assert shifted[..|shifted| - 1] == Shift(front, base);
      assert shifted[|shifted| - 1] == e;
      ValueAtShift(b, base, last.index);
      DotSpecShift(front, b, base);
    }
  }

  /** Histograms laid out alike: same count and the same dense length at
      every position. */
  predicate SameLengths(ha: seq<SparseVector>, hb: seq<SparseVector>)
  {
    |ha| == |hb| && forall h :: 0 <= h < |ha| ==> ha[h].nonSparseLength == hb[h].nonSparseLength
  }

  lemma {:induction false} TotalLengthSame(ha: seq<SparseVector>, hb: seq<SparseVector>)
    requires SameLengths(ha, hb)
    ensures TotalLength(ha) == TotalLength(hb)
  {
    if |ha| > 0 {
      TotalLengthSame(ha[..|ha| - 1], hb[..|hb| - 1]);
    }
  }

  /** Two vectors split at the same index boundary t: the dot product is
      the sum of the dot products of the parts below and above t. */
  lemma DotSpecBlocks(ua: seq<SparseValue>, sa: seq<SparseValue>, ub: seq<SparseValue>, sb: seq<SparseValue>, t: int)
    requires forall k :: 0 <= k < |ua| ==> ua[k].index < t
    requires forall k :: 0 <= k < |ub| ==> ub[k].index < t
    requires forall k :: 0 <= k < |sa| ==> sa[k].index >= t
    requires forall k :: 0 <= k < |sb| ==> sb[k].index >= t
    ensures DotSpec(ua + sa, ub + sb) == DotSpec(ua, ub) + DotSpec(sa, sb)
  {
    DotSpecAppend(ua, sa, ub + sb);
    forall k | 0 <= k < |ua| ensures ValueAt(ub + sb, ua[k].index) == ValueAt(ub, ua[k].index)
    {
      assert !HasIndex(sb, ua[k].index);
      ValueAtAppend(ub, sb, ua[k].index);
    }
    DotSpecSameValues(ua, ub + sb, ub);
    forall k | 0 <= k < |sa| ensures ValueAt(ub + sb, sa[k].index) == ValueAt(sb, sa[k].index)
    {
      assert !HasIndex(ub, sa[k].index);
      ValueAtAppend(ub, sb, sa[k].index);
    }
    DotSpecSameValues(sa, ub + sb, sb);
  }

  /** Over histograms laid out alike, the dot product of the unrolled
      vectors is the sum of the per-histogram dot products over the first
      n histograms. */
  lemma {:induction false} UnrolledDotPrefix(ha: seq<SparseVector>, hb: seq<SparseVector>, n: nat)
    requires SameLengths(ha, hb) && WellIndexed(ha) && WellIndexed(hb) && n <= |ha|
    ensures DotSpec(UnrollSpec(ha[..n]), UnrollSpec(hb[..n])) == LevelDot(ha, hb, n)
  {
    if n > 0 {
      UnrolledDotStep(ha, hb, n);
      UnrolledDotPrefix(ha, hb, n - 1);
    }
  }

  /** Unrolling one more histogram adds its own dot product. */
  lemma UnrolledDotStep(ha: seq<SparseVector>, hb: seq<SparseVector>, n: nat)
    requires SameLengths(ha, hb) && WellIndexed(ha) && WellIndexed(hb) && 0 < n <= |ha|
    ensures DotSpec(UnrollSpec(ha[..n]), UnrollSpec(hb[..n])) ==
      DotSpec(UnrollSpec(ha[..n - 1]), UnrollSpec(hb[..n - 1])) + DotSpec(ha[n - 1].values, hb[n - 1].values)
  {
    var fa, fb := ha[..n - 1], hb[..n - 1];
    WellIndexedPrefix(ha, n - 1);
    WellIndexedPrefix(hb, n - 1);
    SameLengthsPrefix(ha, hb, n - 1);
    TotalLengthSame(fa, fb);
    UnrollAscending(fa);
    UnrollAscending(fb);
    var t := TotalLength(fa);
    var va, vb := ha[n - 1].values, hb[n - 1].values;
    UnrollPrefixStep(ha, n);
    UnrollPrefixStep(hb, n);
    ShiftedAbove(va, t);
    ShiftedAbove(vb, t);
    DotSpecBlocks(UnrollSpec(fa), Shift(va, t), UnrollSpec(fb), Shift(vb, t), t);
    DotSpecShift(va, vb, t);
  }

  lemma UnrollPrefixStep(hs: seq<SparseVector>, n: nat)
    requires 0 < n <= |hs|
    ensures UnrollSpec(hs[..n]) == UnrollSpec(hs[..n - 1]) + Shift(hs[n - 1].values, TotalLength(hs[..n - 1]))
  {
    assert hs[..n][..n - 1] == hs[..n - 1];
    assert hs[..n][n - 1] == hs[n - 1];
  }

  lemma ShiftedAbove(v: seq<SparseValue>, t: int)
    requires forall k :: 0 <= k < |v| ==> v[k].index >= 0
    ensures forall k :: 0 <= k < |Shift(v, t)| ==> Shift(v, t)[k].index >= t
  {
  }

  lemma WellIndexedPrefix(hs: seq<SparseVector>, n: nat)
    requires WellIndexed(hs) && n <= |hs|
    ensures WellIndexed(hs[..n])
  {
    forall h | 0 <= h < n ensures hs[..n][h] == hs[h] { }
  }

  lemma SameLengthsPrefix(ha: seq<SparseVector>, hb: seq<SparseVector>, n: nat)
    requires SameLengths(ha, hb) && n <= |ha|
    ensures SameLengths(ha[..n], hb[..n])
  {
  }

  /** LevelDot over the first n positions depends only on those positions. */
  lemma {:induction false} LevelDotPrefixes(p: seq<SparseVector>, q: seq<SparseVector>,
                                             p': seq<SparseVector>, q': seq<SparseVector>, n: nat)
    requires n <= |p| && n <= |q| && n <= |p'| && n <= |q'|
    requires p[..n] == p'[..n] && q[..n] == q'[..n]
    ensures LevelDot(p, q, n) == LevelDot(p', q', n)
  {
    if n > 0 {
      assert p[n - 1] == p[..n][n - 1] && p'[n - 1] == p'[..n][n - 1];
      assert q[n - 1] == q[..n][n - 1] && q'[n - 1] == q'[..n][n - 1];
      assert p[..n - 1] == p[..n][..n - 1] && p'[..n - 1] == p'[..n][..n - 1];
      assert q[..n - 1] == q[..n][..n - 1] && q'[..n - 1] == q'[..n][..n - 1];
      LevelDotPrefixes(p, q, p', q', n - 1);
    }
  }

  lemma {:induction false} LevelDotAppend(x: seq<SparseVector>, x': seq<SparseVector>,
                                           y: seq<SparseVector>, y': seq<SparseVector>, k: nat)
    requires |x| == |x'| && |y| == |y'| && k <= |y|
    ensures LevelDot(x + y, x' + y', |x| + k) == LevelDot(x, x', |x|) + LevelDot(y, y', k)
  {
    if k == 0 {
      assert (x + y)[..|x|] == x[..|x|] && (x' + y')[..|x|] == x'[..|x|];
      LevelDotPrefixes(x + y, x' + y', x, x', |x|);
    } else {
      LevelDotAppend(x, x', y, y', k - 1);
      assert (x + y)[|x| + k - 1] == y[k - 1] && (x' + y')[|x| + k - 1] == y'[k - 1];
    }
  }

  /** Level by level, the pyramid's dot sum is the dot sum over the
      concatenated histogram list. */
  lemma {:induction false} PyramidDotFlat(pa: SpatialPyramid, pb: SpatialPyramid, n: nat)
    requires Comparable(pa, pb) && n <= |pa.levels|
    requires forall l :: 0 <= l < |pa.levels| ==> |pa.levels[l].histograms| == |pb.levels[l].histograms|
    ensures |AllHistograms(pa.levels[..n])| == |AllHistograms(pb.levels[..n])|
    ensures PyramidDot(pa, pb, n) ==
      LevelDot(AllHistograms(pa.levels[..n]), AllHistograms(pb.levels[..n]), |AllHistograms(pa.levels[..n])|)
  {
    if n > 0 {
      PyramidDotFlat(pa, pb, n - 1);
      assert pa.levels[..n][..n - 1] == pa.levels[..n - 1];
      assert pb.levels[..n][..n - 1] == pb.levels[..n - 1];
      var ha, hb := pa.levels[n - 1].histograms, pb.levels[n - 1].histograms;
      assert AllHistograms(pa.levels[..n]) == AllHistograms(pa.levels[..n - 1]) + ha;
      assert AllHistograms(pb.levels[..n]) == AllHistograms(pb.levels[..n - 1]) + hb;
      LevelDotAppend(AllHistograms(pa.levels[..n - 1]), AllHistograms(pb.levels[..n - 1]), ha, hb, |ha|);
    }
  }

  /** The linear kernel of two pyramids built alike (same level and
      histogram counts, same dense lengths, indices inside them) equals the
      dot product of the two unrolled vectors. */
  lemma LinearKernelIsUnrolledDot(pa: SpatialPyramid, pb: SpatialPyramid)
    requires Comparable(pa, pb)
    requires forall l :: 0 <= l < |pa.levels| ==> |pa.levels[l].histograms| == |pb.levels[l].histograms|
    requires SameLengths(AllHistograms(pa.levels), AllHistograms(pb.levels))
    requires WellIndexed(AllHistograms(pa.levels)) && WellIndexed(AllHistograms(pb.levels))
    ensures PyramidDot(pa, pb, |pa.levels|) ==
      DotSpec(UnrollSpec(AllHistograms(pa.levels)), UnrollSpec(AllHistograms(pb.levels)))
  {
    PyramidDotAll(pa, pb);
    UnrolledDotAll(AllHistograms(pa.levels), AllHistograms(pb.levels));
  }

  lemma PyramidDotAll(pa: SpatialPyramid, pb: SpatialPyramid)
    requires Comparable(pa, pb)
    requires forall l :: 0 <= l < |pa.levels| ==> |pa.levels[l].histograms| == |pb.levels[l].histograms|
    ensures |AllHistograms(pa.levels)| == |AllHistograms(pb.levels)|
    ensures PyramidDot(pa, pb, |pa.levels|) ==
      LevelDot(AllHistograms(pa.levels), AllHistograms(pb.levels), |AllHistograms(pa.levels)|)
  {
    PyramidDotFlat(pa, pb, |pa.levels|);
    assert pa.levels[..|pa.levels|] == pa.levels && pb.levels[..|pb.levels|] == pb.levels;
  }

  lemma UnrolledDotAll(ha: seq<SparseVector>, hb: seq<SparseVector>)
    requires SameLengths(ha, hb) && WellIndexed(ha) && WellIndexed(hb)
    ensures DotSpec(UnrollSpec(ha), UnrollSpec(hb)) == LevelDot(ha, hb, |ha|)
  {
    UnrolledDotPrefix(ha, hb, |ha|);
    assert ha[..|ha|] == ha && hb[..|hb|] == hb;
  }
}
