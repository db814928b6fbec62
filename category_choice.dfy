/** What the two nearest-neighbour classifiers of naive_bayes_nearest_neighbor/
    share: the subsampled batch of query rows, the ordered key set of a
    std::map<std::string, float> of category totals, and the final scan that
    keeps the category with the strictly smallest total. */
module CategoryChoice {
  import opened Common
  import SiftUtil

  /** The value the final scan starts from (a float literal in the source). */
  const Sentinel: real := 99999999999.0

  // ---------------------------------------------------------------------
  // The batch query.

  /** The rows of the batch query: descriptor i, converted, when its draw is
      below the percentage, in descriptor order. */
  function QueryRows(ds: seq<SiftUtil.SiftDescriptor>, draws: seq<real>, percentage: real, alpha: real)
    : (r: seq<seq<SiftUtil.byte>>)
    requires |draws| >= |ds|
    ensures |r| <= |ds|
  {
    if |ds| == 0 then []
    else
      QueryRows(ds[..|ds| - 1], draws, percentage, alpha) +
      (if draws[|ds| - 1] < percentage then [SiftUtil.WeightedArray(ds[|ds| - 1], alpha)] else [])
  }

  /** With every draw below the percentage the query is every descriptor,
      converted, in order; with none below it the query is empty. */
  lemma {:induction false} QueryRowsAllOrNone(ds: seq<SiftUtil.SiftDescriptor>, draws: seq<real>,
                                              percentage: real, alpha: real)
    requires |draws| >= |ds|
    ensures (forall i :: 0 <= i < |ds| ==> draws[i] < percentage) ==>
      QueryRows(ds, draws, percentage, alpha) ==
      seq(|ds|, i requires 0 <= i < |ds| => SiftUtil.WeightedArray(ds[i], alpha))
    ensures (forall i :: 0 <= i < |ds| ==> draws[i] >= percentage) ==> QueryRows(ds, draws, percentage, alpha) == []
  {
    if |ds| > 0 {
      QueryRowsAllOrNone(ds[..|ds| - 1], draws, percentage, alpha);
    }
  }

  /** The kept rows are written one after the other into a buffer sized for
      every descriptor, and the used prefix is copied out. */
  method BuildQuery(ds: seq<SiftUtil.SiftDescriptor>, draws: seq<real>, percentage: real, alpha: real)
    returns (query: seq<seq<SiftUtil.byte>>)
    requires |draws| >= |ds|
    ensures query == QueryRows(ds, draws, percentage, alpha)
  {
    var temp := new seq<SiftUtil.byte>[|ds|](_ => []);
    var nextMatrixIndex := 0;
    for i := 0 to |ds|
      invariant nextMatrixIndex <= i
      invariant temp[..nextMatrixIndex] == QueryRows(ds[..i], draws, percentage, alpha)
    {
      assert ds[..i + 1][..i] == ds[..i];
      if draws[i] < percentage {
        temp[nextMatrixIndex] := SiftUtil.WeightedArray(ds[i], alpha);
        nextMatrixIndex := nextMatrixIndex + 1;
      }
    }
    assert ds[..|ds|] == ds;
    query := temp[..nextMatrixIndex];
  }

  // ---------------------------------------------------------------------
  // The ordered keys of the totals map.

  /** The keys of a std::map filled by inserting the names in order: each
      name once, in ascending byte order. */
  function SortedKeys(names: seq<string>): (r: seq<string>)
    ensures StrictlySorted(r)
    ensures forall y :: y in r <==> y in names
  {
    if |names| == 0 then [] else InsertSorted(SortedKeys(names[..|names| - 1]), names[|names| - 1])
  }

  predicate Distinct(s: seq<string>)
  {
    forall i, j :: 0 <= i < j < |s| ==> s[i] != s[j]
  }

  /** A list without repetitions holds each name at most once. */
  lemma {:induction false} DistinctAtMostOnce(s: seq<string>, x: string)
    requires Distinct(s)
    ensures multiset(s)[x] <= 1
    decreases |s|
  {
    if |s| > 0 {
      var p := s[..|s| - 1];
      assert s == p + [s[|s| - 1]];
      DistinctAtMostOnce(p, x);
      if x == s[|s| - 1] {
        assert x !in p;
      }
    }
  }

  /** A reordering of a list without repetitions has none either. */
  lemma PermutationDistinct(order: seq<string>, list: seq<string>)
    requires multiset(order) == multiset(list) && Distinct(list)
    ensures Distinct(order)
  {
    forall i, j | 0 <= i < j < |order| ensures order[i] != order[j] {
      if order[i] == order[j] {
        assert order == order[..j] + order[j..];
        assert order[i] in order[..j];
        assert order[j] in order[j..];
        DistinctAtMostOnce(list, order[i]);
        assert false;
      }
    }
  }

  // ---------------------------------------------------------------------
  // The final scan.

  /** Where the scan stands: the position of the category kept so far (-1
      for none) and the smallest total seen. */
  datatype Pick = Pick(position: int, smallest: real)

  /** The scan over the keys in order, replacing the kept category only on
      a strictly smaller total. Its result is a minimum below the start
      value, and no earlier key reaches it. */
  function ScanMin(keys: seq<string>, totals: map<string, real>): (r: Pick)
    requires forall k :: k in keys ==> k in totals
    ensures -1 <= r.position < |keys| && r.smallest <= Sentinel
    ensures forall i :: 0 <= i < |keys| ==> r.smallest <= totals[keys[i]]
    ensures r.position == -1 ==> r.smallest == Sentinel
    ensures r.position >= 0 ==> r.smallest == totals[keys[r.position]] && r.smallest < Sentinel
    ensures forall i :: 0 <= i < r.position ==> totals[keys[i]] > r.smallest
    decreases |keys|
  {
    if |keys| == 0 then Pick(-1, Sentinel)
    else
      var p := ScanMin(keys[..|keys| - 1], totals);
      var t := totals[keys[|keys| - 1]];
      if t < p.smallest then Pick(|keys| - 1, t) else p
  }

  /** The category the scan reports: the kept key, or "" when no total is
      below the start value. */
  function Winner(keys: seq<string>, totals: map<string, real>): string
    requires forall k :: k in keys ==> k in totals
  {
    var p := ScanMin(keys, totals);
    if p.position < 0 then "" else keys[p.position]
  }

  /** Over keys in ascending order, the winner is a key with the smallest
      total, that total is below the start value, and every other key with
      the same total comes after it; the winner is "" exactly when no
      total is below the start value. */
  lemma WinnerIsArgmin(keys: seq<string>, totals: map<string, real>)
    requires StrictlySorted(keys) && forall k :: k in keys ==> k in totals
    ensures (forall k :: k in keys ==> totals[k] >= Sentinel) ==> Winner(keys, totals) == ""
    ensures (exists k :: k in keys && totals[k] < Sentinel) ==>
      var w := Winner(keys, totals);
      w in keys && totals[w] < Sentinel &&
      (forall k :: k in keys ==> totals[w] <= totals[k]) &&
      (forall k :: k in keys && totals[k] == totals[w] && k != w ==> LexLess(w, k))
  {
    var p := ScanMin(keys, totals);
    if exists k :: k in keys && totals[k] < Sentinel {
      var k0 :| k0 in keys && totals[k0] < Sentinel;
      var i0 :| 0 <= i0 < |keys| && keys[i0] == k0;
      assert p.position >= 0;
      var w := keys[p.position];
      forall k | k in keys && totals[k] == totals[w] && k != w
        ensures LexLess(w, k)
      {
        var i :| 0 <= i < |keys| && keys[i] == k;
        assert i != p.position;
        assert p.position < i;
      }
    }
  }

  /** The loop over the totals map in key order. */
  method ChooseCategory(keys: seq<string>, totals: map<string, real>) returns (bestClass: string)
    requires forall k :: k in keys ==> k in totals
    ensures bestClass == Winner(keys, totals)
  {
    bestClass := "";
    var smallestDistance := Sentinel;
    for i := 0 to |keys|
      invariant smallestDistance == ScanMin(keys[..i], totals).smallest
      invariant bestClass == (var p := ScanMin(keys[..i], totals); if p.position < 0 then "" else keys[p.position])
    {
      assert keys[..i + 1][..i] == keys[..i];
      if totals[keys[i]] < smallestDistance {
        bestClass := keys[i];
        smallestDistance := totals[keys[i]];
      }
    }
    assert keys[..|keys|] == keys;
  }
}
