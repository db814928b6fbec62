/** CodebookBuilder (codebooks/codebook_builder.h, codebook_builder.cc):
    a growable store of descriptor rows that doubles its capacity, the
    truncation to the rows in use, and the two clustering entry points.
    The nearest-neighbour searches are oracle inputs and the random
    number generators are input draw sequences. */
module Codebooks {
  import opened Common
  import opened KMeans
  import SiftUtil

  /** The three seeding strategies of the enum; Unhandled stands for any
      other value the C++ enum variable can carry. */
  datatype KMeansInitialization = KMeansRandom | KMeansPlusPlus | SubsampledKMeansPlusPlus | Unhandled(code: int)

  /** The generator output ClusterApproximately consumes: row draws for
      the candidate pool, the position of the first centre in the pool,
      one draw in [0, 1] per further k-means++ centre (the generator's
      uniform real over [0, total] is u * total), and one row draw per
      centre for random seeding. */
  datatype SeedDraws = SeedDraws(poolDraws: seq<int>, first: int, scan: seq<real>, picks: seq<int>)

  /** One stored row: the bins, then x and y scaled by 127 * lw when lw > 0. */
  function Row(d: SiftUtil.SiftDescriptor, lw: real): (r: Vector)
    ensures |r| == |d.bins| + (if lw > 0.0 then 2 else 0)
  {
    seq(|d.bins|, b requires 0 <= b < |d.bins| => d.bins[b] as real) +
    (if lw > 0.0 then [d.x * 127.0 * lw, d.y * 127.0 * lw] else [])
  }

  /** The rows AddData keeps: descriptor i when its draw is below the
      percentage, in batch order. */
  function Kept(ds: seq<SiftUtil.SiftDescriptor>, draws: seq<real>, percentage: real, lw: real): (r: seq<Vector>)
    requires |draws| >= |ds|
    ensures |r| <= |ds|
  {
    if |ds| == 0 then []
    else
      Kept(ds[..|ds| - 1], draws, percentage, lw) +
      (if draws[|ds| - 1] < percentage then [Row(ds[|ds| - 1], lw)] else [])
  }

  /** When every draw is below the percentage, every descriptor is kept,
      converted, in order; when none is, nothing is kept. */
  lemma {:induction false} KeptAllOrNone(ds: seq<SiftUtil.SiftDescriptor>, draws: seq<real>, percentage: real, lw: real)
    requires |draws| >= |ds|
    ensures (forall i :: 0 <= i < |ds| ==> draws[i] < percentage) ==>
      Kept(ds, draws, percentage, lw) == seq(|ds|, i requires 0 <= i < |ds| => Row(ds[i], lw))
    ensures (forall i :: 0 <= i < |ds| ==> draws[i] >= percentage) ==> Kept(ds, draws, percentage, lw) == []
  {
    if |ds| > 0 {
      KeptAllOrNone(ds[..|ds| - 1], draws, percentage, lw);
    }
  }

  /** The descriptors of one batch share their bin count. */
  predicate OneWidth(ds: seq<SiftUtil.SiftDescriptor>)
  {
    forall i :: 0 <= i < |ds| ==> |ds[i].bins| == |ds[0].bins|
  }

  /** What the seeding produced for each strategy: the random rows, or a
      k-means++ choice over all rows or over the subsampled pool. */
  predicate Seeded(rows: seq<Vector>, dims: nat, init: KMeansInitialization, draws: SeedDraws, k: nat,
                   pool: seq<int>, picked: seq<int>, seeds: seq<Vector>)
    requires Width(rows, dims)
  {
    match init
    case KMeansRandom =>
      |draws.picks| >= k && (forall c :: 0 <= c < k ==> 0 <= draws.picks[c] < |rows|) &&
      seeds == RandomSeeds(rows, draws.picks, k)
    case KMeansPlusPlus =>
      pool == seq(|rows|, i => i) && PlusPlusSeeds(rows, dims, pool, draws, k, picked, seeds)
    case SubsampledKMeansPlusPlus =>
      |Seen(draws.poolDraws)| >= SubsampleSize(|rows|) &&
      pool == SubsamplePool(draws.poolDraws, SubsampleSize(|rows|)) &&
      PoolIn(pool, |rows|) && PlusPlusSeeds(rows, dims, pool, draws, k, picked, seeds)
    case Unhandled(_) => false
  }

  predicate PlusPlusSeeds(rows: seq<Vector>, dims: nat, pool: seq<int>, draws: SeedDraws, k: nat,
                          picked: seq<int>, seeds: seq<Vector>)
    requires Width(rows, dims)
  {
    PoolIn(pool, |rows|) && Picks(picked, |pool|) && |picked| == k &&
    seeds == Centres(rows, dims, pool, picked) &&
    PlusPlusPicks(rows, dims, pool, draws.first, draws.scan, picked)
  }

  /** The draws the chosen strategy needs, for n rows and k centres. */
  predicate DrawsSuffice(init: KMeansInitialization, draws: SeedDraws, n: nat, k: nat)
  {
    (init.KMeansRandom? ==> |draws.picks| >= k && forall c :: 0 <= c < |draws.picks| ==> 0 <= draws.picks[c] < n) &&
    (init.SubsampledKMeansPlusPlus? ==>
      (forall j :: 0 <= j < |draws.poolDraws| ==> 0 <= draws.poolDraws[j] < n) &&
      |Seen(draws.poolDraws)| >= SubsampleSize(n) >= 1 && 0 <= draws.first < SubsampleSize(n)) &&
    (init.KMeansPlusPlus? ==> 0 <= draws.first < n) &&
    ((init.KMeansPlusPlus? || init.SubsampledKMeansPlusPlus?) ==>
      |draws.scan| >= k - 1 && forall j :: 0 <= j < |draws.scan| ==> 0.0 <= draws.scan[j] <= 1.0)
  }

  class CodebookBuilder {
    var dataDimensions: nat
    var matrixUsage: nat
    /** data_: its length is the capacity; rows past matrixUsage are unused. */
    var data: array<Vector>
    /** data_ != NULL */
    var hasData: bool
    var centroids: array<Vector>
    /** centroids_ != NULL */
    var hasCentroids: bool

    /** Usage never exceeds capacity; an allocated store has at least one
        row; nothing is stored before the first allocation. */
    predicate Valid()
      reads this
    {
      matrixUsage <= data.Length && data != centroids &&
      (hasData ==> data.Length >= 1) &&
      (!hasData ==> matrixUsage == 0 && data.Length == 0)
    }

    /** The rows in use. */
    function Rows(): (r: seq<Vector>)
      reads this, data
      requires Valid()
      ensures |r| == matrixUsage
    {
      data[..matrixUsage]
    }

    /** The number of rows added so far. */
    function DataSize(): (r: nat)
      reads this, data
      requires Valid()
      ensures r == |Rows()|
    {
      matrixUsage
    }

    /** The dictionary: one entry per centroid, none before clustering. */
    function GetDictionary(): (r: seq<Vector>)
      reads this, centroids
      ensures !hasCentroids ==> r == []
      ensures hasCentroids ==> |r| == centroids.Length && forall c :: 0 <= c < |r| ==> r[c] == centroids[c]
    {
      if hasCentroids then centroids[..] else []
    }

    constructor()
      ensures Valid() && DataSize() == 0 && dataDimensions == 0
      ensures !hasData && !hasCentroids && GetDictionary() == []
    {
      dataDimensions := 0;
      matrixUsage := 0;
      data := new Vector[0];
      hasData := false;
      centroids := new Vector[0];
      hasCentroids := false;
    }

    /** Adds the rows whose draw is below the percentage. An empty batch
        changes nothing. Otherwise the dimension is recomputed from the
        first descriptor, the store is allocated at the batch size on the
        first call and doubled as needed on later ones, and the kept rows
        are appended in batch order. A later batch must have the width of
        the store, whose column stride is fixed by the first batch. */
    method AddData(descriptors: seq<SiftUtil.SiftDescriptor>, percentage: real, locationWeighting: real,
                   draws: seq<real>)
      requires Valid() && |draws| >= |descriptors| && OneWidth(descriptors)
      requires hasData && |descriptors| > 0 ==>
        |descriptors[0].bins| + (if locationWeighting > 0.0 then 2 else 0) == dataDimensions
      modifies this, data
      ensures Valid()
      ensures |descriptors| == 0 ==> unchanged(this) && unchanged(data)
      ensures |descriptors| > 0 ==>
        dataDimensions == |descriptors[0].bins| + (if locationWeighting > 0.0 then 2 else 0)
      ensures Rows() == old(Rows()) + Kept(descriptors, draws, percentage, locationWeighting)
      ensures |descriptors| > 0 && !old(hasData) ==> data.Length == |descriptors|
      ensures |descriptors| > 0 && old(hasData) ==>
        data.Length == Grown(old(data.Length), old(matrixUsage) + |descriptors|)
      ensures hasCentroids == old(hasCentroids) && centroids == old(centroids)
    {
      if |descriptors| == 0 {
        return;
      }
      dataDimensions := |descriptors[0].bins| + (if locationWeighting > 0.0 then 2 else 0);
      if !hasData {
        data := new Vector[|descriptors|](_ => []);
        hasData := true;
      } else {
        Grow(matrixUsage + |descriptors|);
        GrownBounds(old(data.Length), old(matrixUsage) + |descriptors|);
      }
      AppendKept(descriptors, percentage, locationWeighting, draws);
    }

    /** The doubling loop: the capacity doubles until it holds required
        rows, and every existing row is copied over. */
    method Grow(required: nat)
      requires Valid() && hasData
      modifies this
      ensures Valid() && hasData
      ensures data.Length == Grown(old(data.Length), required)
      ensures Rows() == old(Rows())
      ensures matrixUsage == old(matrixUsage) && dataDimensions == old(dataDimensions)
      ensures centroids == old(centroids) && hasCentroids == old(hasCentroids)
      ensures fresh(data) || data == old(data)
    {
      while data.Length < required
        invariant Valid() && hasData
        invariant Grown(data.Length, required) == Grown(old(data.Length), required)
        invariant data[..matrixUsage] == old(Rows())
        invariant matrixUsage == old(matrixUsage) && dataDimensions == old(dataDimensions)
        invariant centroids == old(centroids) && hasCentroids == old(hasCentroids)
        invariant fresh(data) || data == old(data)
        decreases required - data.Length
      {
        var newSize := data.Length * 2;
        var larger := new Vector[newSize](_ => []);
        for r := 0 to data.Length
          modifies larger
          invariant larger[..r] == data[..r]
        {
          larger[r] := data[r];
        }
        assert larger[..data.Length][..matrixUsage] == data[..matrixUsage];
        assert Grown(data.Length, required) == Grown(newSize, required);
        data := larger;
      }
    }

    /** The copy loop: row i is appended at the current usage when its
        draw is below the percentage. */
    method AppendKept(descriptors: seq<SiftUtil.SiftDescriptor>, percentage: real, locationWeighting: real,
                      draws: seq<real>)
      requires Valid() && hasData && |draws| >= |descriptors| && data.Length >= matrixUsage + |descriptors|
      modifies this, data
      ensures Valid() && data == old(data)
      ensures Rows() == old(Rows()) + Kept(descriptors, draws, percentage, locationWeighting)
      ensures dataDimensions == old(dataDimensions) && hasData == old(hasData)
      ensures hasCentroids == old(hasCentroids) && centroids == old(centroids)
    {
      ghost var before := Rows();
      for i := 0 to |descriptors|
        invariant Valid() && data == old(data) && hasData == old(hasData)
        invariant dataDimensions == old(dataDimensions)
        invariant hasCentroids == old(hasCentroids) && centroids == old(centroids)
        invariant matrixUsage <= old(matrixUsage) + i
        invariant data[..matrixUsage] == before + Kept(descriptors[..i], draws, percentage, locationWeighting)
      {
        assert descriptors[..i + 1][..i] == descriptors[..i];
        if draws[i] < percentage {
          var nextRow := matrixUsage;
          data[nextRow] := Row(descriptors[i], locationWeighting);
          matrixUsage := matrixUsage + 1;
        }
      }
      assert descriptors[..|descriptors|] == descriptors;
    }

    /** Replaces the store by one of exactly the rows in use. */
    method Truncate()
      requires Valid() && matrixUsage >= 1
      modifies this
      ensures Valid() && hasData && data.Length == matrixUsage
      ensures Rows() == old(Rows())
      ensures matrixUsage == old(matrixUsage) && dataDimensions == old(dataDimensions)
      ensures centroids == old(centroids) && hasCentroids == old(hasCentroids)
      ensures fresh(data)
    {
      var truncated := new Vector[matrixUsage](_ => []);
      for r := 0 to matrixUsage
        modifies truncated
        invariant truncated[..r] == data[..r]
      {
        truncated[r] := data[r];
      }
      data := truncated;
      hasData := true;
    }

    /** Exact clustering: K must be positive (a CHECK), the store is
        truncated, and the K centres come from the k-means index, which
        must return exactly K of them (a second CHECK). The index is built
        over the stored rows and fills a K x data_dimensions_ matrix, so
        its centres have the data's width. */
    method Cluster(numClustersRequested: int, numIterations: int, indexCentres: seq<Vector>)
      returns (outcome: Outcome)
      requires Valid() && (numClustersRequested > 0 ==> matrixUsage >= 1)
      requires numClustersRequested > 0 ==> Width(indexCentres, dataDimensions)
      modifies this
      ensures numClustersRequested <= 0 ==> outcome.Fail? && unchanged(this)
      ensures outcome.Pass? <==> numClustersRequested > 0 && |indexCentres| == numClustersRequested
      ensures numClustersRequested > 0 ==>
        Valid() && data.Length == matrixUsage && Rows() == old(Rows()) &&
        matrixUsage == old(matrixUsage) && dataDimensions == old(dataDimensions)
      ensures outcome.Pass? ==> GetDictionary() == indexCentres && |GetDictionary()| == numClustersRequested
      ensures outcome.Pass? ==> Width(GetDictionary(), dataDimensions)
    {
      if numClustersRequested <= 0 {
        return Fail("Num clusters must be greater than 0");
      }
      Truncate();
      centroids := new Vector[|indexCentres|](c requires 0 <= c < |indexCentres| => indexCentres[c]);
      hasCentroids := true;
      if |indexCentres| != numClustersRequested {
        return Fail("Didn't build requested number of clusters.");
      }
      assert centroids[..] == indexCentres;
      outcome := Pass;
    }

    /** Approximate clustering. An accuracy of exactly 1 hands over to
        Cluster. Otherwise K must be positive (a CHECK), the store is
        truncated, K centroids are seeded by the chosen strategy (an
        unhandled one is fatal), and each iteration moves them by one
        Lloyd update over the assignment the index reports. After the
        last iteration the metric is the sum of the distances of a fresh
        search, and the sizes are the cluster sizes largest first. */
    method ClusterApproximately(numClustersRequested: int, numIterations: int, accuracy: real,
                                initialization: KMeansInitialization, draws: SeedDraws,
                                assigns: seq<seq<Neighbor>>, finalSearch: seq<Neighbor>,
                                indexCentres: seq<Vector>, wantMetric: bool, wantSizes: bool)
      returns (outcome: Outcome, metric: Option<real>, sizes: Option<seq<int>>,
               ghost pool: seq<int>, ghost picked: seq<int>, ghost seeds: seq<Vector>)
      requires Valid() && (numClustersRequested > 0 ==> matrixUsage >= 1) && Width(Rows(), dataDimensions)
      requires accuracy == 1.0 && numClustersRequested > 0 ==> Width(indexCentres, dataDimensions)
      requires accuracy != 1.0 && numClustersRequested > 0 ==>
        DrawsSuffice(initialization, draws, matrixUsage, numClustersRequested) &&
        |assigns| >= numIterations && Assignments(assigns, matrixUsage, numClustersRequested) &&
        WellFormedNeighbors(finalSearch, matrixUsage, numClustersRequested)
      modifies this
      ensures accuracy == 1.0 ==>
        metric.None? && sizes.None? &&
        (outcome.Pass? <==> numClustersRequested > 0 && |indexCentres| == numClustersRequested) &&
        (outcome.Pass? ==> GetDictionary() == indexCentres)
      ensures accuracy != 1.0 ==>
        (outcome.Fail? <==> numClustersRequested <= 0 || initialization.Unhandled?)
      ensures numClustersRequested <= 0 ==> outcome.Fail? && unchanged(this)
      ensures numClustersRequested > 0 ==>
        Valid() && data.Length == matrixUsage && Rows() == old(Rows()) &&
        matrixUsage == old(matrixUsage) && dataDimensions == old(dataDimensions)
      ensures accuracy != 1.0 && outcome.Pass? ==>
        Seeded(Rows(), dataDimensions, initialization, draws, numClustersRequested, pool, picked, seeds) &&
        Width(seeds, dataDimensions) && |seeds| == numClustersRequested &&
        GetDictionary() ==
          if numIterations <= 0 then seeds
          else LloydIterations(Rows(), dataDimensions, seeds, assigns[..numIterations])
      ensures outcome.Pass? ==> |GetDictionary()| == numClustersRequested && Width(GetDictionary(), dataDimensions)
      ensures metric.Some? <==> accuracy != 1.0 && outcome.Pass? && wantMetric && numIterations >= 1
      ensures metric.Some? ==> metric.value == Sum(Distances(finalSearch)) && metric.value >= 0.0
      ensures sizes.Some? <==> accuracy != 1.0 && outcome.Pass? && wantSizes && numIterations >= 1
      ensures sizes.Some? ==>
        sizes.value == SortDescending(Counts(assigns[numIterations - 1], numClustersRequested)) &&
        NonIncreasing(sizes.value) && |sizes.value| == numClustersRequested &&
        SumInt(sizes.value) == matrixUsage
    {
      metric, sizes := None, None;
      pool, picked, seeds := [], [], [];
      if accuracy == 1.0 {
        outcome := Cluster(numClustersRequested, numIterations, indexCentres);
        return;
      }
      if numClustersRequested <= 0 {
        return Fail("Num clusters must be greater than 0"), metric, sizes, pool, picked, seeds;
      }
      if initialization.Unhandled? {
        Truncate();
        var width := dataDimensions;
        centroids := new Vector[numClustersRequested](_ => Zero(width));
        hasCentroids := true;
        return Fail("Unhandled k-means initialization method."), metric, sizes, pool, picked, seeds;
      }
      Truncate();
      var rows := data[..];
      var n := matrixUsage;
      assert rows == Rows();
      var width := dataDimensions;
      centroids := new Vector[numClustersRequested](_ => Zero(width));
      hasCentroids := true;
      pool, picked := SeedCentroids(rows, dataDimensions, initialization, draws, centroids);
      seeds := centroids[..];
      metric, sizes := Iterate(rows, dataDimensions, numIterations, assigns, finalSearch,
                               centroids, wantMetric, wantSizes);
      outcome := Pass;
    }

    /** The seeding dispatch of ClusterApproximately. */
    static method SeedCentroids(rows: seq<Vector>, dims: nat, initialization: KMeansInitialization,
                                draws: SeedDraws, centroids: array<Vector>)
      returns (ghost pool: seq<int>, ghost picked: seq<int>)
      requires Width(rows, dims) && |rows| >= 1 && centroids.Length >= 1
      requires !initialization.Unhandled?
      requires DrawsSuffice(initialization, draws, |rows|, centroids.Length)
      modifies centroids
      ensures Seeded(rows, dims, initialization, draws, centroids.Length, pool, picked, centroids[..])
      ensures Width(centroids[..], dims)
    {
      var n := |rows|;
      pool, picked := [], [];
      if initialization.KMeansRandom? {
        SeedRandom(rows, draws.picks, centroids);
      } else {
        var candidates;
        if initialization.SubsampledKMeansPlusPlus? {
          candidates := SubsampleRows(n, SubsampleSize(n), draws.poolDraws);
        } else {
          candidates := AllRows(n);
          assert candidates == seq(n, i => i);
        }
        pool := candidates;
        var chosen := SeedPlusPlus(rows, dims, candidates, draws.first, draws.scan, centroids);
        picked := chosen;
      }
    }

    /** The iteration loop: one Lloyd update per iteration, then the
        optional diagnostics of the last one. */
    static method Iterate(rows: seq<Vector>, dims: nat, numIterations: int, assigns: seq<seq<Neighbor>>,
                          finalSearch: seq<Neighbor>, centroids: array<Vector>, wantMetric: bool, wantSizes: bool)
      returns (metric: Option<real>, sizes: Option<seq<int>>)
      requires Width(rows, dims) && Width(centroids[..], dims)
      requires |assigns| >= numIterations && Assignments(assigns, |rows|, centroids.Length)
      requires WellFormedNeighbors(finalSearch, |rows|, centroids.Length)
      modifies centroids
      ensures numIterations <= 0 ==> centroids[..] == old(centroids[..])
      ensures numIterations > 0 ==>
        centroids[..] == LloydIterations(rows, dims, old(centroids[..]), assigns[..numIterations])
      ensures metric.Some? <==> wantMetric && numIterations >= 1
      ensures metric.Some? ==> metric.value == Sum(Distances(finalSearch)) && metric.value >= 0.0
      ensures sizes.Some? <==> wantSizes && numIterations >= 1
      ensures sizes.Some? ==>
        sizes.value == SortDescending(Counts(assigns[numIterations - 1], centroids.Length)) &&
        NonIncreasing(sizes.value) && |sizes.value| == centroids.Length && SumInt(sizes.value) == |rows|
    {
      metric, sizes := None, None;
      ghost var start := centroids[..];
      var iteration := 0;
      while iteration < numIterations
        invariant 0 <= iteration <= |assigns| && (numIterations > 0 ==> iteration <= numIterations)
        invariant numIterations <= 0 ==> iteration == 0
        invariant Assignments(assigns[..iteration], |rows|, centroids.Length)
        invariant Width(centroids[..], dims)
        invariant centroids[..] == LloydIterations(rows, dims, start, assigns[..iteration])
        invariant metric.Some? <==> wantMetric && iteration == numIterations && iteration >= 1
        invariant metric.Some? ==> metric.value == Sum(Distances(finalSearch)) && metric.value >= 0.0
        invariant sizes.Some? <==> wantSizes && iteration == numIterations && iteration >= 1
        invariant sizes.Some? ==>
          sizes.value == SortDescending(Counts(assigns[numIterations - 1], centroids.Length)) &&
          NonIncreasing(sizes.value) && |sizes.value| == centroids.Length && SumInt(sizes.value) == |rows|
      {
        var centroidSizes, emptyClusterCount := LloydStep(rows, dims, assigns[iteration], centroids);
        assert assigns[..iteration + 1][..iteration] == assigns[..iteration];
        if iteration == numIterations - 1 {
          if wantMetric {
            var total := SumDistances(finalSearch);
            MetricNonNegative(finalSearch, |rows|, centroids.Length);
            metric := Some(total);
          }
          if wantSizes {
            SortedSizesSum(assigns[iteration], centroids.Length);
            sizes := Some(SortDescending(centroidSizes));
          }
        }
        iteration := iteration + 1;
      }
      if numIterations <= 0 {
        assert LloydIterations(rows, dims, start, assigns[..0]) == start;
      }
    }
  }
}
