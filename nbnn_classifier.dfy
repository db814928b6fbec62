/** NbnnClassifier (naive_bayes_nearest_neighbor/nbnn_classifier.h and
    nbnn_classifier-inl.h): naive-Bayes nearest-neighbour classification
    with one nearest-neighbour index per class. Each index is an oracle:
    for the batch query it answers, per query row, a list of neighbours
    whose first entry is the nearest. The random subsampling draws and the
    random class order are inputs. */
module Nbnn {
  import opened Common
  import SiftUtil
  import opened CategoryChoice

  /** Stands for an IndexType* handed to the classifier, which owns it. */
  type IndexHandle = nat

  /** The descriptors share their bin count, so every converted row has
      the width computed from descriptor 0. */
  predicate SameWidth(ds: seq<SiftUtil.SiftDescriptor>)
    requires |ds| >= 1
  {
    forall i :: 0 <= i < |ds| ==> |ds[i].bins| == |ds[0].bins|
  }

  /** Every class index answered the batch query: one row per query
      descriptor, each of nearestNeighbors neighbours at a non-negative
      distance. */
  predicate Answered(search: map<string, seq<seq<Neighbor>>>, classes: seq<string>, queries: nat,
                     nearestNeighbors: int)
  {
    forall c :: c in classes ==>
      c in search && |search[c]| == queries &&
      forall j :: 0 <= j < queries ==>
        |search[c][j]| == nearestNeighbors &&
        forall t :: 0 <= t < nearestNeighbors ==> search[c][j][t].dist >= 0.0
  }

  /** The rescaled distance of each query row to its nearest neighbour. */
  function FirstDistances(rows: seq<seq<Neighbor>>): (r: seq<real>)
    requires forall j :: 0 <= j < |rows| ==> |rows[j]| >= 1
    ensures |r| == |rows|
  {
    seq(|rows|, j requires 0 <= j < |rows| => Rescaled(rows[j][0].dist))
  }

  /** A class total: the rescaled nearest distances summed over the query. */
  function ClassTotal(rows: seq<seq<Neighbor>>): real
    requires forall j :: 0 <= j < |rows| ==> |rows[j]| >= 1
  {
    Sum(FirstDistances(rows))
  }

  /** A class total is never negative. */
  lemma ClassTotalNonNegative(rows: seq<seq<Neighbor>>)
    requires forall j :: 0 <= j < |rows| ==> |rows[j]| >= 1 && rows[j][0].dist >= 0.0
    ensures ClassTotal(rows) >= 0.0
  {
    SumNonNegative(FirstDistances(rows));
  }

  /** The totals map once every class has been searched. */
  function Totals(classes: seq<string>, search: map<string, seq<seq<Neighbor>>>): map<string, real>
    requires forall c :: c in classes ==>
      c in search && forall j :: 0 <= j < |search[c]| ==> |search[c][j]| >= 1
  {
    map c | c in classes :: ClassTotal(search[c])
  }

  /** The accumulator: every class at 0, keyed in name order. */
  method ZeroTotals(classList: seq<string>) returns (totals: map<string, real>, keys: seq<string>)
    ensures keys == SortedKeys(classList)
    ensures forall c :: c in totals <==> c in classList
    ensures forall c :: c in totals ==> totals[c] == 0.0
  {
    totals := map[];
    keys := [];
    for i := 0 to |classList|
      invariant keys == SortedKeys(classList[..i])
      invariant forall c :: c in totals <==> c in classList[..i]
      invariant forall c :: c in totals ==> totals[c] == 0.0
    {
      assert classList[..i + 1][..i] == classList[..i];
      totals := totals[classList[i] := 0.0];
      keys := InsertSorted(keys, classList[i]);
    }
    assert classList[..|classList|] == classList;
  }

  /** One class's search: each query row's rescaled nearest distance is
      added to that class's total, and no other total changes. */
  method AddDistances(totals: map<string, real>, name: string, dists: seq<seq<Neighbor>>)
    returns (updated: map<string, real>)
    requires name in totals
    requires forall j :: 0 <= j < |dists| ==> |dists[j]| >= 1
    ensures updated == totals[name := totals[name] + ClassTotal(dists)]
  {
    updated := totals;
    for j := 0 to |dists|
      invariant updated == totals[name := totals[name] + Sum(FirstDistances(dists)[..j])]
    {
      assert FirstDistances(dists)[..j + 1][..j] == FirstDistances(dists)[..j];
      updated := updated[name := updated[name] + Rescaled(dists[j][0].dist)];
    }
    assert FirstDistances(dists)[..|dists|] == FirstDistances(dists);
  }

  /** The searches in the shuffled order: each class is searched once,
      and only the searched classes' totals change. */
  method SearchInOrder(totals: map<string, real>, order: seq<string>, search: map<string, seq<seq<Neighbor>>>)
    returns (updated: map<string, real>)
    requires Distinct(order)
    requires forall c :: c in order ==>
      c in totals && totals[c] == 0.0 && c in search &&
      forall j :: 0 <= j < |search[c]| ==> |search[c][j]| >= 1
    ensures forall c :: c in updated <==> c in totals
    ensures forall c :: c in updated ==> updated[c] == if c in order then ClassTotal(search[c]) else totals[c]
  {
    updated := totals;
    for i := 0 to |order|
      invariant forall c :: c in updated <==> c in totals
      invariant forall c :: c in updated ==>
        updated[c] == if c in order[..i] then ClassTotal(search[c]) else totals[c]
    {
      assert order[i] !in order[..i];
      assert order[..i + 1] == order[..i] + [order[i]];
      updated := AddDistances(updated, order[i], search[order[i]]);
    }
    assert order[..|order|] == order;
  }

  /** Searching every class once, in any order of the class list, from
      all-zero totals gives the totals map. */
  method SearchAll(totals: map<string, real>, classList: seq<string>, queryOrdering: seq<string>,
                   search: map<string, seq<seq<Neighbor>>>)
    returns (updated: map<string, real>)
    requires Distinct(classList) && multiset(queryOrdering) == multiset(classList)
    requires forall c :: c in totals <==> c in classList
    requires forall c :: c in totals ==> totals[c] == 0.0
    requires forall c :: c in classList ==>
      c in search && forall j :: 0 <= j < |search[c]| ==> |search[c][j]| >= 1
    ensures updated == Totals(classList, search)
  {
    PermutationDistinct(queryOrdering, classList);
    forall c | c in queryOrdering ensures c in classList {
      assert c in multiset(classList);
    }
    forall c | c in classList ensures c in queryOrdering {
      assert c in multiset(queryOrdering);
    }
    updated := SearchInOrder(totals, queryOrdering, search);
  }

  lemma AnsweredNonEmpty(search: map<string, seq<seq<Neighbor>>>, classes: seq<string>, queries: nat,
                         nearestNeighbors: int)
    requires Answered(search, classes, queries, nearestNeighbors) && nearestNeighbors >= 1
    ensures forall c :: c in classes ==>
      c in search && forall j :: 0 <= j < |search[c]| ==> |search[c][j]| >= 1
  {
  }

  class NbnnClassifier {
    /** class_list_, in insertion order. */
    var classList: seq<string>
    /** indices_: the index owned for each class name. */
    var indices: map<string, IndexHandle>
    var nearestNeighbors: int
    var alpha: real
    var checks: real

    /** Each listed class has exactly one index and is listed once. */
    predicate Valid()
      reads this
    {
      Distinct(classList) &&
      (forall c :: c in indices ==> c in classList) && (forall c :: c in classList ==> c in indices)
    }

    function GetNumClasses(): (r: int)
      reads this
      ensures r == |GetClassList()|
    {
      |classList|
    }

    function GetClassList(): seq<string>
      reads this
    {
      classList
    }

    /** A new classifier has no classes, one neighbour, no location
        weighting and one check. */
    constructor()
      ensures Valid() && GetNumClasses() == 0 && GetClassList() == [] && indices == map[]
      ensures nearestNeighbors == 1 && alpha == 0.0 && checks == 1.0
    {
      classList := [];
      indices := map[];
      nearestNeighbors := 1;
      alpha := 0.0;
      checks := 1.0;
    }

    method SetClassificationParams(nearestNeighbors: int, alpha: real, checks: int)
      modifies this
      ensures this.nearestNeighbors == nearestNeighbors && this.alpha == alpha && this.checks == checks as real
      ensures classList == old(classList) && indices == old(indices)
    {
      this.nearestNeighbors := nearestNeighbors;
      this.alpha := alpha;
      this.checks := checks as real;
    }

    /** The name is appended to the class list first; a name that already
        has an index is then fatal. Otherwise the classifier takes the
        index. */
    method AddClass(className: string, index: IndexHandle) returns (outcome: Outcome)
      requires Valid()
      modifies this
      ensures classList == old(classList) + [className]
      ensures outcome.Pass? <==> className !in old(indices)
      ensures outcome.Pass? ==> indices == old(indices)[className := index] && Valid()
      ensures outcome.Fail? ==> indices == old(indices)
      ensures nearestNeighbors == old(nearestNeighbors) && alpha == old(alpha) && checks == old(checks)
    {
      classList := classList + [className];
      if className in indices {
        return Fail("Attempting to insert a class twice.");
      }
      indices := indices[className := index];
      outcome := Pass;
    }

    /** Classifies the descriptors whose draw is below the percentage.
        Every class total starts at 0, each class index is searched in the
        shuffled order, and the nearest distance of each query row is added
        to that class's total; the answer is the category with the strictly
        smallest total over the classes in name order. The shuffle does not
        change the answer. */
    method Classify(descriptors: seq<SiftUtil.SiftDescriptor>, subsamplePercentage: real, draws: seq<real>,
                    queryOrdering: seq<string>, search: map<string, seq<seq<Neighbor>>>)
      returns (category: string)
      requires Valid()
      requires |descriptors| >= 1 && SameWidth(descriptors) && |draws| >= |descriptors|
      requires SiftUtil.WeightedLength(|descriptors[0].bins|, alpha) <= 130
      requires nearestNeighbors >= 1
      requires multiset(queryOrdering) == multiset(classList)
      requires Answered(search, classList, |QueryRows(descriptors, draws, subsamplePercentage, alpha)|,
                        nearestNeighbors)
      ensures category == Winner(SortedKeys(classList), Totals(classList, search))
    {
      var distanceTotals, keys := ZeroTotals(classList);

      var destination := new SiftUtil.byte[130];
      var dimensions := SiftUtil.ConvertToWeightedArray(descriptors[0], alpha, destination);
      var batchQuery := BuildQuery(descriptors, draws, subsamplePercentage, alpha);

      AnsweredNonEmpty(search, classList, |batchQuery|, nearestNeighbors);
      distanceTotals := SearchAll(distanceTotals, classList, queryOrdering, search);
      category := ChooseCategory(keys, distanceTotals);
    }

    /** Classify(ds) is Classify(ds, 1.0): every descriptor whose draw is
        below 1 is queried. */
    method ClassifyAll(descriptors: seq<SiftUtil.SiftDescriptor>, draws: seq<real>,
                       queryOrdering: seq<string>, search: map<string, seq<seq<Neighbor>>>)
      returns (category: string)
      requires Valid()
      requires |descriptors| >= 1 && SameWidth(descriptors) && |draws| >= |descriptors|
      requires SiftUtil.WeightedLength(|descriptors[0].bins|, alpha) <= 130
      requires nearestNeighbors >= 1
      requires multiset(queryOrdering) == multiset(classList)
      requires Answered(search, classList, |QueryRows(descriptors, draws, 1.0, alpha)|, nearestNeighbors)
      ensures category == Winner(SortedKeys(classList), Totals(classList, search))
    {
      category := Classify(descriptors, 1.0, draws, queryOrdering, search);
    }
  }
}
