/** MergedClassifier (naive_bayes_nearest_neighbor/merged_classifier.h):
    the local NBNN variant that merges every class's descriptors into one
    growable store with a class label per row. Classification asks one
    nearest-neighbour index (an oracle here) for b neighbours of each query
    row, scores each class by its first occurrence among the first k
    neighbours relative to the b-th neighbour's distance, and picks the
    smallest total. */
module Merged {
  import opened Common
  import SiftUtil
  import opened CategoryChoice

  /** Every descriptor converted, in order. */
  function WeightedRows(ds: seq<SiftUtil.SiftDescriptor>, alpha: real): (r: seq<seq<SiftUtil.byte>>)
    ensures |r| == |ds|
  {
    seq(|ds|, i requires 0 <= i < |ds| => SiftUtil.WeightedArray(ds[i], alpha))
  }

  /** Every row label is a known class. */
  predicate Labelled(row: seq<Neighbor>, labels: seq<string>)
  {
    forall t :: 0 <= t < |row| ==> 0 <= row[t].index < |labels|
  }

  /** The distance of the first of the first j neighbours labelled c, if any. */
  function FirstSeen(row: seq<Neighbor>, labels: seq<string>, j: nat, c: string): (r: Option<real>)
    requires j <= |row| && Labelled(row, labels)
    ensures r.Some? <==> exists i :: 0 <= i < j && labels[row[i].index] == c
    ensures r.Some? ==>
      exists i :: 0 <= i < j && labels[row[i].index] == c && r.value == row[i].dist &&
        forall i' :: 0 <= i' < i ==> labels[row[i'].index] != c
    decreases j
  {
    if j == 0 then None
    else
      var p := FirstSeen(row, labels, j - 1, c);
      if p.Some? then p
      else if labels[row[j - 1].index] == c then Some(row[j - 1].dist)
      else None
  }

  /** What one query row adds to class c: the rescaled distance of c's
      first occurrence among the first k neighbours minus the rescaled
      distance of the b-th neighbour, or nothing when c does not occur. */
  function Contribution(row: seq<Neighbor>, labels: seq<string>, k: nat, b: nat, c: string): real
    requires k < b <= |row| && Labelled(row, labels)
  {
    match FirstSeen(row, labels, k, c)
    case None => 0.0
    case Some(d) => Rescaled(d) - Rescaled(row[b - 1].dist)
  }

  /** The index's answer to the batch query: b neighbours per query row,
      each a stored row. */
  predicate AllLabelled(rows: seq<seq<Neighbor>>, labels: seq<string>, b: nat)
  {
    forall r :: 0 <= r < |rows| ==> |rows[r]| == b && Labelled(rows[r], labels)
  }

  /** A class total: its contributions summed over the query rows. */
  function MergedTotal(rows: seq<seq<Neighbor>>, labels: seq<string>, k: nat, b: nat, c: string): real
    requires k < b && AllLabelled(rows, labels, b)
  {
    if |rows| == 0 then 0.0
    else MergedTotal(rows[..|rows| - 1], labels, k, b, c) + Contribution(rows[|rows| - 1], labels, k, b, c)
  }

  /** A class that is never among the first k neighbours totals 0; one
      that always is, at no farther than the b-th neighbour, totals at
      most 0. */
  lemma {:induction false} MergedTotalSign(rows: seq<seq<Neighbor>>, labels: seq<string>, k: nat, b: nat, c: string)
    requires k < b && AllLabelled(rows, labels, b)
    requires forall r, t :: 0 <= r < |rows| && 0 <= t < k ==> rows[r][t].dist <= rows[r][b - 1].dist
    ensures MergedTotal(rows, labels, k, b, c) <= 0.0
    ensures (forall r, t :: 0 <= r < |rows| && 0 <= t < k ==> labels[rows[r][t].index] != c) ==>
      MergedTotal(rows, labels, k, b, c) == 0.0
  {
    if |rows| > 0 {
      var last := rows[|rows| - 1];
      MergedTotalSign(rows[..|rows| - 1], labels, k, b, c);
      var f := FirstSeen(last, labels, k, c);
      if f.Some? {
        var i :| 0 <= i < k && labels[last[i].index] == c && f.value == last[i].dist;
        assert last[i].dist <= last[b - 1].dist;
      }
    }
  }

  function MergedTotals(classes: seq<string>, rows: seq<seq<Neighbor>>, labels: seq<string>, k: nat, b: nat)
    : map<string, real>
    requires k < b && AllLabelled(rows, labels, b)
  {
    map c | c in classes :: MergedTotal(rows, labels, k, b, c)
  }

  /** The per-row map of category distances: each class among the first k
      neighbours once, at its first occurrence, relative to the b-th
      neighbour. */
  method RowDistances(row: seq<Neighbor>, labels: seq<string>, k: nat, b: nat)
    returns (categoryDistances: map<string, real>, seen: seq<string>)
    requires k < b <= |row| && Labelled(row, labels)
    ensures Distinct(seen) && forall c :: c in categoryDistances <==> c in seen
    ensures forall c :: c in seen ==> c in labels
    ensures forall c :: c in categoryDistances ==> categoryDistances[c] == Contribution(row, labels, k, b, c)
    ensures forall c :: c !in categoryDistances ==> Contribution(row, labels, k, b, c) == 0.0
  {
    var backgroundDistance := Rescaled(row[b - 1].dist);
    categoryDistances := map[];
    seen := [];
    for neighbor := 0 to k
      invariant Distinct(seen) && forall c :: c in categoryDistances <==> c in seen
      invariant forall c :: c in seen ==> c in labels
      invariant forall c :: c in categoryDistances ==>
        FirstSeen(row, labels, neighbor, c).Some? &&
        categoryDistances[c] == Rescaled(FirstSeen(row, labels, neighbor, c).value) - backgroundDistance
      invariant forall c :: c !in categoryDistances ==> FirstSeen(row, labels, neighbor, c).None?
    {
      var neighborClass := labels[row[neighbor].index];
      ghost var before := categoryDistances;
      if neighborClass !in categoryDistances {
        categoryDistances := categoryDistances[neighborClass := Rescaled(row[neighbor].dist) - backgroundDistance];
        seen := seen + [neighborClass];
      }
      forall c | c in categoryDistances
        ensures FirstSeen(row, labels, neighbor + 1, c).Some?
        ensures categoryDistances[c] == Rescaled(FirstSeen(row, labels, neighbor + 1, c).value) - backgroundDistance
      {
        FirstSeenNext(row, labels, neighbor, c);
        if c in before {
          assert categoryDistances[c] == before[c];
        }
      }
      forall c | c !in categoryDistances
        ensures FirstSeen(row, labels, neighbor + 1, c).None?
      {
        FirstSeenNext(row, labels, neighbor, c);
      }
    }
  }

  /** One more neighbour: a class already seen keeps its first
      occurrence, and otherwise the new neighbour may be it. */
  lemma FirstSeenNext(row: seq<Neighbor>, labels: seq<string>, j: nat, c: string)
    requires j < |row| && Labelled(row, labels)
    ensures FirstSeen(row, labels, j + 1, c) ==
      if FirstSeen(row, labels, j, c).Some? then FirstSeen(row, labels, j, c)
      else if labels[row[j].index] == c then Some(row[j].dist)
      else None
  {
  }

  /** Adds one row's category distances to the totals. */
  method AddRow(totals: map<string, real>, categoryDistances: map<string, real>, seen: seq<string>)
    returns (updated: map<string, real>)
    requires Distinct(seen) && forall c :: c in categoryDistances <==> c in seen
    requires forall c :: c in seen ==> c in totals
    ensures forall c :: c in updated <==> c in totals
    ensures forall c :: c in updated ==>
      updated[c] == totals[c] + (if c in categoryDistances then categoryDistances[c] else 0.0)
  {
    updated := totals;
    for t := 0 to |seen|
      invariant forall c :: c in updated <==> c in totals
      invariant forall c :: c in updated ==>
        updated[c] == totals[c] + (if c in seen[..t] then categoryDistances[c] else 0.0)
    {
      assert seen[t] !in seen[..t];
      assert seen[..t + 1] == seen[..t] + [seen[t]];
      updated := updated[seen[t] := updated[seen[t]] + categoryDistances[seen[t]]];
    }
    assert seen[..|seen|] == seen;
  }

  /** The totals over all query rows, starting from 0 for every class. */
  method AccumulateRows(classes: seq<string>, rows: seq<seq<Neighbor>>, labels: seq<string>, k: nat, b: nat)
    returns (totals: map<string, real>)
    requires k < b && AllLabelled(rows, labels, b)
    requires forall c :: c in labels ==> c in classes
    ensures totals == MergedTotals(classes, rows, labels, k, b)
  {
    totals := map[];
    for i := 0 to |classes|
      invariant forall c :: c in totals <==> c in classes[..i]
      invariant forall c :: c in totals ==> totals[c] == 0.0
    {
      assert classes[..i + 1] == classes[..i] + [classes[i]];
      totals := totals[classes[i] := 0.0];
    }
    assert classes[..|classes|] == classes;
    for r := 0 to |rows|
      invariant forall c :: c in totals <==> c in classes
      invariant forall c :: c in totals ==> totals[c] == MergedTotal(rows[..r], labels, k, b, c)
    {
      assert rows[..r + 1][..r] == rows[..r];
      var categoryDistances, seen := RowDistances(rows[r], labels, k, b);
      totals := AddRow(totals, categoryDistances, seen);
    }
    assert rows[..|rows|] == rows;
  }

  /** A store of twice the capacity with the old rows copied to its
      front; the rows after them are empty. */
  method Doubled(data: array<seq<SiftUtil.byte>>) returns (larger: array<seq<SiftUtil.byte>>)
    ensures fresh(larger) && larger.Length == 2 * data.Length
    ensures larger[..data.Length] == data[..]
  {
    larger := new seq<SiftUtil.byte>[2 * data.Length](_ => []);
    for r := 0 to data.Length
      invariant larger[..r] == data[..r]
    {
      larger[r] := data[r];
    }
  }

  class MergedClassifier {
    var nearestNeighbors: int
    var backgroundIndex: int
    var alpha: real
    var checks: int
    var trees: int
    var dataSize: nat
    var indexBuilt: bool
    /** data_: its length is the capacity; rows past dataSize are unused. */
    var data: array<seq<SiftUtil.byte>>
    /** data_ != NULL */
    var hasData: bool
    var dataDimensions: nat
    var paramsSet: bool
    /** class_vector_: the class of each stored row. */
    var classVector: seq<string>
    /** class_set_, in its ascending iteration order. */
    var classSet: seq<string>

    /** One label per stored row, each a registered class; stored rows
        have the fixed width; the store is allocated once there is data and
        an index is only built over a non-empty store. */
    predicate Valid()
      reads this, data
    {
      dataSize <= data.Length && |classVector| == dataSize &&
      StrictlySorted(classSet) && (forall c :: c in classVector ==> c in classSet) &&
      (forall i :: 0 <= i < dataSize ==> |data[i]| == dataDimensions) &&
      (hasData ==> data.Length >= 1) &&
      (!hasData ==> dataSize == 0 && data.Length == 0) &&
      (indexBuilt ==> dataSize >= 1)
    }

    function Rows(): (r: seq<seq<SiftUtil.byte>>)
      reads this, data
      requires Valid()
      ensures |r| == dataSize
    {
      data[..dataSize]
    }

    function DataSize(): (r: nat)
      reads this, data
      requires Valid()
      ensures r == |Rows()| && r == |classVector|
    {
      dataSize
    }

    /** b: the neighbour used as background, capped at the data size. The
        cap compares against background_index cast to uint64, so a negative
        index (a huge unsigned value) gives the data size. */
    function BackgroundCount(): (b: int)
      reads this
      ensures 0 <= b <= dataSize
      ensures b == backgroundIndex || b == dataSize
      ensures 0 <= backgroundIndex < dataSize <==> b == backgroundIndex < dataSize
    {
      if backgroundIndex < 0 || dataSize <= backgroundIndex then dataSize else backgroundIndex
    }

    /** k: the neighbours scored, capped at b - 1. */
    function ForegroundCount(): (k: int)
      reads this
      ensures k <= BackgroundCount() - 1 && k <= nearestNeighbors
      ensures k == nearestNeighbors || k == BackgroundCount() - 1
    {
      if BackgroundCount() - 1 <= nearestNeighbors then BackgroundCount() - 1 else nearestNeighbors
    }

    /** A new classifier holds nothing and has no parameters set. */
    constructor()
      ensures Valid() && DataSize() == 0 && classSet == [] && !paramsSet && !indexBuilt && !hasData
      ensures nearestNeighbors == 1 && backgroundIndex == 2 && alpha == 0.0 && checks == 1
      ensures dataDimensions == 0
    {
      nearestNeighbors := 1;
      backgroundIndex := 2;
      alpha := 0.0;
      checks := 1;
      dataSize := 0;
      indexBuilt := false;
      data := new seq<SiftUtil.byte>[0];
      hasData := false;
      dataDimensions := 0;
      paramsSet := false;
      classVector := [];
      classSet := [];
    }

    method SetClassifierParams(nearestNeighbors: int, backgroundIndex: int, alpha: real, checks: int, trees: int)
      requires Valid()
      modifies this
      ensures Valid() && paramsSet
      ensures this.nearestNeighbors == nearestNeighbors && this.backgroundIndex == backgroundIndex
      ensures this.alpha == alpha && this.checks == checks && this.trees == trees
      ensures data == old(data) && Rows() == old(Rows()) && classVector == old(classVector)
      ensures classSet == old(classSet) && dataDimensions == old(dataDimensions) && indexBuilt == old(indexBuilt)
    {
      this.nearestNeighbors := nearestNeighbors;
      this.backgroundIndex := backgroundIndex;
      this.alpha := alpha;
      this.checks := checks;
      this.trees := trees;
      paramsSet := true;
    }

    /** Adding data before the parameters are set is fatal. Otherwise the
        class is registered, even for an empty set, which changes nothing
        else. The first non-empty set fixes the dimension (the bin count,
        plus 2 when alpha > 0); every row must convert to that width, or
        the call is fatal. The store is allocated at the set's size on the
        first addition and doubled as needed afterwards, and each row is
        stored with its class label. Once the index is built the store is
        exactly full, so a non-empty set would free the indexed buffer;
        only empty sets may follow BuildIndex. */
    method AddData(className: string, descriptors: seq<SiftUtil.SiftDescriptor>) returns (outcome: Outcome)
      requires Valid()
      requires dataSize > 0 && dataDimensions == 0 && |descriptors| > 0 ==>
        SiftUtil.WeightedLength(|descriptors[0].bins|, alpha) == 0
      requires indexBuilt ==> |descriptors| == 0
      modifies this, data
      ensures Valid()
      ensures !old(paramsSet) ==> outcome.Fail? && unchanged(this) && unchanged(data)
      ensures old(paramsSet) ==> classSet == InsertSorted(old(classSet), className)
      ensures old(paramsSet) && |descriptors| == 0 ==>
        outcome.Pass? && data == old(data) && unchanged(data) && dataSize == old(dataSize) &&
        classVector == old(classVector) && dataDimensions == old(dataDimensions) && hasData == old(hasData)
      ensures |descriptors| > 0 && old(paramsSet) ==>
        dataDimensions == if old(dataDimensions) == 0
                          then SiftUtil.WeightedLength(|descriptors[0].bins|, alpha) else old(dataDimensions)
      ensures outcome.Pass? <==>
        old(paramsSet) && forall i :: 0 <= i < |descriptors| ==>
          SiftUtil.WeightedLength(|descriptors[i].bins|, alpha) == dataDimensions
      ensures outcome.Pass? ==>
        Rows() == old(Rows()) + WeightedRows(descriptors, alpha) &&
        classVector == old(classVector) + seq(|descriptors|, _ => className) &&
        DataSize() == old(DataSize()) + |descriptors|
      ensures old(paramsSet) ==> old(Rows()) <= Rows()
      ensures old(paramsSet) && |descriptors| > 0 && !old(hasData) ==> data.Length == |descriptors|
      ensures old(paramsSet) && |descriptors| > 0 && old(hasData) ==>
        data.Length == Grown(old(data.Length), old(dataSize) + |descriptors|)
      ensures alpha == old(alpha) && paramsSet == old(paramsSet) && indexBuilt == old(indexBuilt)
    {
      if !paramsSet {
        return Fail("Must SetClassifierParams() before adding data.");
      }
      classSet := InsertSorted(classSet, className);
      if |descriptors| > 0 && dataDimensions == 0 {
        dataDimensions := SiftUtil.WeightedLength(|descriptors[0].bins|, alpha);
      } else if |descriptors| == 0 {
        return Pass;
      }
      outcome := StoreRows(className, descriptors);
    }

    /** The storing half of AddData for a non-empty set: allocate the
        store at the set's size on first use or double it as needed, then
        copy and label the rows. */
    method StoreRows(className: string, descriptors: seq<SiftUtil.SiftDescriptor>) returns (outcome: Outcome)
      requires Valid() && |descriptors| > 0 && className in classSet
      modifies this, data
      ensures Valid()
      ensures classSet == old(classSet) && dataDimensions == old(dataDimensions)
      ensures outcome.Pass? <==>
        forall i :: 0 <= i < |descriptors| ==> SiftUtil.WeightedLength(|descriptors[i].bins|, alpha) == dataDimensions
      ensures outcome.Pass? ==>
        Rows() == old(Rows()) + WeightedRows(descriptors, alpha) &&
        classVector == old(classVector) + seq(|descriptors|, _ => className) &&
        DataSize() == old(DataSize()) + |descriptors|
      ensures old(Rows()) <= Rows()
      ensures !old(hasData) ==> data.Length == |descriptors|
      ensures old(hasData) ==> data.Length == Grown(old(data.Length), old(dataSize) + |descriptors|)
      ensures alpha == old(alpha) && paramsSet == old(paramsSet) && indexBuilt == old(indexBuilt)
    {
      if !hasData {
        data := new seq<SiftUtil.byte>[|descriptors|](_ => []);
        hasData := true;
      } else {
        Grow(dataSize + |descriptors|);
        GrownBounds(old(data.Length), old(dataSize) + |descriptors|);
      }
      outcome := AppendRows(className, descriptors);
    }

    /** The doubling loop: the capacity doubles until it holds required
        rows, and every existing row is copied over. */
    method Grow(required: nat)
      requires Valid() && hasData
      modifies this
      ensures Valid() && hasData && (fresh(data) || data == old(data))
      ensures data.Length == Grown(old(data.Length), required)
      ensures Rows() == old(Rows())
      ensures dataSize == old(dataSize) && dataDimensions == old(dataDimensions) && classVector == old(classVector)
      ensures classSet == old(classSet) && alpha == old(alpha) && paramsSet == old(paramsSet)
      ensures indexBuilt == old(indexBuilt)
    {
      while data.Length < required
        invariant Valid() && hasData && (fresh(data) || data == old(data))
        invariant Grown(data.Length, required) == Grown(old(data.Length), required)
        invariant data[..dataSize] == old(Rows())
        invariant dataSize == old(dataSize) && dataDimensions == old(dataDimensions)
        invariant classVector == old(classVector) && classSet == old(classSet)
        invariant alpha == old(alpha) && paramsSet == old(paramsSet) && indexBuilt == old(indexBuilt)
        decreases required - data.Length
      {
        var newSize := data.Length * 2;
        var larger := Doubled(data);
        assert larger[..data.Length][..dataSize] == data[..dataSize];
        assert Grown(data.Length, required) == Grown(newSize, required);
        data := larger;
      }
    }

    /** The copy loop: each row is converted into the next free row of the
        store and labelled; a row of another width is fatal. */
    method AppendRows(className: string, descriptors: seq<SiftUtil.SiftDescriptor>) returns (outcome: Outcome)
      requires Valid() && hasData && data.Length >= dataSize + |descriptors| && className in classSet
      modifies this, data
      ensures Valid() && data == old(data)
      ensures outcome.Pass? <==>
        forall i :: 0 <= i < |descriptors| ==> SiftUtil.WeightedLength(|descriptors[i].bins|, alpha) == dataDimensions
      ensures outcome.Pass? ==>
        Rows() == old(Rows()) + WeightedRows(descriptors, alpha) &&
        classVector == old(classVector) + seq(|descriptors|, _ => className) &&
        dataSize == old(dataSize) + |descriptors|
      ensures old(Rows()) <= Rows()
      ensures dataDimensions == old(dataDimensions) && hasData == old(hasData) && classSet == old(classSet)
      ensures alpha == old(alpha) && paramsSet == old(paramsSet) && indexBuilt == old(indexBuilt)
    {
      ghost var before := Rows();
      for i := 0 to |descriptors|
        invariant Valid() && data == old(data) && hasData == old(hasData)
        invariant dataDimensions == old(dataDimensions) && classSet == old(classSet)
        invariant alpha == old(alpha) && paramsSet == old(paramsSet) && indexBuilt == old(indexBuilt)
        invariant dataSize == old(dataSize) + i
        invariant data[..dataSize] == before + WeightedRows(descriptors[..i], alpha)
        invariant classVector == old(classVector) + seq(i, _ => className)
        invariant forall j :: 0 <= j < i ==> SiftUtil.WeightedLength(|descriptors[j].bins|, alpha) == dataDimensions
      {
        var converted := SiftUtil.WeightedArray(descriptors[i], alpha);
        if |converted| != dataDimensions {
          return Fail("Adding data with inconsistent dimensions.");
        }
        data[dataSize] := converted;
        classVector := classVector + [className];
        dataSize := dataSize + 1;
        assert WeightedRows(descriptors[..i + 1], alpha) == WeightedRows(descriptors[..i], alpha) + [converted];
      }
      assert descriptors[..|descriptors|] == descriptors;
      outcome := Pass;
    }

    /** Replaces the store by one of exactly the rows in use and builds
        the index over it. */
    method BuildIndex()
      requires Valid() && dataSize >= 1
      modifies this
      ensures Valid() && indexBuilt && fresh(data) && data.Length == dataSize
      ensures Rows() == old(Rows()) && classVector == old(classVector) && classSet == old(classSet)
      ensures dataDimensions == old(dataDimensions) && paramsSet == old(paramsSet)
      ensures nearestNeighbors == old(nearestNeighbors) && backgroundIndex == old(backgroundIndex)
      ensures alpha == old(alpha)
    {
      var truncatedMatrix := new seq<SiftUtil.byte>[dataSize](_ => []);
      for r := 0 to dataSize
        modifies truncatedMatrix
        invariant truncatedMatrix[..r] == data[..r]
      {
        truncatedMatrix[r] := data[r];
      }
      data := truncatedMatrix;
      hasData := true;
      indexBuilt := true;
    }

    /** Classifying before the index is built is fatal. Otherwise each
        class starts at 0, the query is the subsample of the descriptors,
        the index answers b neighbours per query row, and each class adds,
        per row, its first occurrence among the first k neighbours relative
        to the b-th; the answer is the class with the strictly smallest
        total, the first in name order on ties, or "" when none is below
        the start value. */
    method Classify(descriptors: seq<SiftUtil.SiftDescriptor>, subsamplePercentage: real, draws: seq<real>,
                    search: seq<seq<Neighbor>>)
      returns (result: Result<string>)
      requires Valid() && |draws| >= |descriptors|
      requires backgroundIndex != 0 && nearestNeighbors >= 0
      requires forall i :: 0 <= i < |descriptors| && draws[i] < subsamplePercentage ==>
        SiftUtil.WeightedLength(|descriptors[i].bins|, alpha) == dataDimensions
      requires indexBuilt ==>
        |search| == |QueryRows(descriptors, draws, subsamplePercentage, alpha)| &&
        AllLabelled(search, classVector, BackgroundCount())
      ensures !indexBuilt ==> result.Fatal?
      ensures indexBuilt ==>
        BackgroundCount() >= 1 && 0 <= ForegroundCount() < BackgroundCount() &&
        result == Ok(Winner(classSet, MergedTotals(classSet, search, classVector, ForegroundCount(), BackgroundCount())))
    {
      if !indexBuilt {
        return Fatal("Must call .BuildIndex() before .Classify()");
      }
      var b := BackgroundCount();
      var k := ForegroundCount();
      var batchQuery := BuildQuery(descriptors, draws, subsamplePercentage, alpha);
      assert |search| == |batchQuery|;
      var categoryTotals := AccumulateRows(classSet, search, classVector, k, b);
      var bestClass := ChooseCategory(classSet, categoryTotals);
      result := Ok(bestClass);
    }
  }
}
