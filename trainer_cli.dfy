/** The helpers of the SVM trainer (spatial_pyramid/trainer_cli.cc): the
    stop rule and the best-c choice of the regularizer search, the fold
    split and the training sub-matrix of cross validation, the one-vs-rest
    labels, and the precomputed gram matrix built row by row over its
    upper triangle and then mirrored. The kernel between two training
    examples, the SVM library and the threads are outside the model; the
    kernel is an input function of the two example positions. */
module TrainerCli {
  import opened Common

  // ---------------------------------------------------------------------
  // The result map: accuracy per regularizer c.

  /** One entry of a std::map<float, float>: a value of c and the
      cross-validation accuracy it reached. */
  datatype Entry = Entry(c: real, accuracy: real)

  /** A std::map iterates its keys in strictly ascending order. */
  predicate KeysAscending(m: seq<Entry>)
  {
    forall i, j :: 0 <= i < j < |m| ==> m[i].c < m[j].c
  }

  /** The previous accuracy when step s of the backwards scan looks at
      entry |m| - 1 - s: the start value 2 for the first step, else the
      accuracy of the entry just after. */
  function Previous(m: seq<Entry>, s: nat): real
    requires s < |m|
  {
    if s == 0 then 2.0 else m[|m| - s].accuracy
  }

  /** Whether one of the first `steps` steps of the backwards scan saw an
      improvement: an accuracy below the previous one while the previous
      one is below 1.5. */
  predicate ImprovedWithin(m: seq<Entry>, steps: nat)
    requires steps <= |m|
  {
    if steps == 0 then false
    else
      ImprovedWithin(m, steps - 1) ||
      (m[|m| - steps].accuracy < Previous(m, steps - 1) && Previous(m, steps - 1) < 1.5)
  }

  /** The geometric search stops once the largest c is above 32 and none of
      the last five results shows an improvement. */
  predicate ShouldStop(m: seq<Entry>)
  {
    |m| > 0 && m[|m| - 1].c > 32.0 && !ImprovedWithin(m, if |m| < 5 then |m| else 5)
  }

  /** Counting from the largest c, the accuracy rose between the s-th
      value and the one after it: the smaller c did worse. */
  predicate Rose(m: seq<Entry>, s: int)
  {
    1 <= s < |m| && m[|m| - 1 - s].accuracy < m[|m| - s].accuracy
  }

  /** With accuracies below 1.5, an improvement within the first steps is
      a smaller c whose accuracy is below that of the next larger c; the
      first step, against the start value 2, never counts. */
  lemma {:induction false} ImprovedWithinRise(m: seq<Entry>, steps: nat)
    requires steps <= |m|
    requires forall i :: 0 <= i < |m| ==> m[i].accuracy < 1.5
    ensures ImprovedWithin(m, steps) <==> exists s :: 1 <= s < steps && Rose(m, s)
  {
    if steps > 0 {
      ImprovedWithinRise(m, steps - 1);
      var s := steps - 1;
      if Rose(m, s) {
        assert Previous(m, s) == m[|m| - s].accuracy;
      }
    }
  }

  /** For accuracies, which are fractions at most 1: the search stops
      exactly when the largest c is above 32 and, over the last five
      values of c, the accuracy never rose from one c to the next. */
  lemma StopMeansPlateau(m: seq<Entry>)
    requires forall i :: 0 <= i < |m| ==> 0.0 <= m[i].accuracy <= 1.0
    ensures ShouldStop(m) <==>
      |m| > 0 && m[|m| - 1].c > 32.0 && forall s :: 1 <= s < 5 ==> !Rose(m, s)
  {
    if |m| > 0 {
      ImprovedWithinRise(m, if |m| < 5 then |m| else 5);
    }
  }

  /** rbegin() of a std::map is its largest c, which is what the last
      entry of an ascending sequence is. */
  lemma LastKeyIsLargest(m: seq<Entry>)
    requires KeysAscending(m) && |m| > 0
    ensures forall i :: 0 <= i < |m| - 1 ==> m[i].c < m[|m| - 1].c
  {
  }

  /** StopCondition: the reverse scan over at most five entries. */
  method StopCondition(resultMap: seq<Entry>) returns (stop: bool)
    ensures stop == ShouldStop(resultMap)
  {
    if |resultMap| == 0 {
      return false;
    }
    if resultMap[|resultMap| - 1].c <= 32.0 {
      return false;
    }
    var improvement := false;
    var prevResult := 2.0;
    var lookbackCount := 0;
    while lookbackCount < |resultMap|
      invariant lookbackCount <= |resultMap| && lookbackCount <= 5
      invariant prevResult == if lookbackCount == 0 then 2.0 else resultMap[|resultMap| - lookbackCount].accuracy
      invariant improvement == ImprovedWithin(resultMap, lookbackCount)
      invariant lookbackCount < 5 || lookbackCount == |resultMap| || lookbackCount == 5
      decreases |resultMap| - lookbackCount
    {
      if lookbackCount >= 5 {
        break;
      }
      var result := resultMap[|resultMap| - 1 - lookbackCount].accuracy;
      if result < prevResult && prevResult < 1.5 {
        improvement := true;
      }
      prevResult := result;
      lookbackCount := lookbackCount + 1;
    }
    stop := !improvement;
  }

  /** Where the forward scan of KeyWithMaxValue stands: the key and value
      kept so far, both starting at -1. */
  datatype Best = Best(key: real, value: real)

  /** The forward scan, replacing the kept entry only on a strictly
      greater value. The kept value is the largest seen (or -1), it
      belongs to the kept key, and no earlier entry reaches it. */
  function ScanMax(m: seq<Entry>): (r: Best)
    ensures r.value >= -1.0
    ensures forall i :: 0 <= i < |m| ==> m[i].accuracy <= r.value
    ensures r.value == -1.0 ==> r.key == -1.0
    ensures r.value > -1.0 ==> exists i :: 0 <= i < |m| && FirstWith(m, i, r)
  {
    if |m| == 0 then Best(-1.0, -1.0)
    else
      var b := ScanMax(m[..|m| - 1]);
      var e := m[|m| - 1];
      if e.accuracy > b.value then
        assert FirstWith(m, |m| - 1, Best(e.c, e.accuracy));
        Best(e.c, e.accuracy)
      else
        assert b.value > -1.0 ==> exists i :: 0 <= i < |m| && FirstWith(m, i, b) by {
          if b.value > -1.0 {
            var i :| 0 <= i < |m| - 1 && FirstWith(m[..|m| - 1], i, b);
            assert FirstWith(m, i, b);
          }
        }
        b
  }

  /** Entry i holds the kept key and value, and no entry before it reaches
      that value. */
  predicate FirstWith(m: seq<Entry>, i: int, r: Best)
    requires 0 <= i < |m|
  {
    m[i] == Entry(r.key, r.value) && forall j :: 0 <= j < i ==> m[j].accuracy < r.value
  }

  /** Over a result map whose accuracies are fractions, KeyWithMaxValue
      picks a value of c with the greatest accuracy, and among those with
      that accuracy the first in key order. */
  lemma KeyWithMaxValueIsArgmax(m: seq<Entry>)
    requires |m| > 0 && forall i :: 0 <= i < |m| ==> m[i].accuracy >= 0.0
    ensures exists i :: (0 <= i < |m| && m[i].c == ScanMax(m).key &&
      (forall j :: 0 <= j < |m| ==> m[j].accuracy <= m[i].accuracy) &&
      (forall j :: 0 <= j < i ==> m[j].accuracy < m[i].accuracy))
  {
    var r := ScanMax(m);
    assert m[0].accuracy <= r.value;
  }

  /** In a map's key order, the chosen c is the smallest c that reaches
      the greatest accuracy. */
  lemma SmallestBestKey(m: seq<Entry>)
    requires KeysAscending(m) && |m| > 0 && forall i :: 0 <= i < |m| ==> m[i].accuracy >= 0.0
    ensures forall j :: 0 <= j < |m| && m[j].accuracy == ScanMax(m).value ==> ScanMax(m).key <= m[j].c
    ensures exists j :: 0 <= j < |m| && m[j].c == ScanMax(m).key
  {
    var r := ScanMax(m);
    assert m[0].accuracy <= r.value;
    var i :| 0 <= i < |m| && FirstWith(m, i, r);
    forall j | 0 <= j < |m| && m[j].accuracy == r.value
      ensures r.key <= m[j].c
    {
      if j > i {
        assert m[i].c < m[j].c;
      }
    }
  }

  /** KeyWithMaxValue: fatal on an empty map, else the forward scan. */
  method KeyWithMaxValue(resultMap: seq<Entry>) returns (result: Result<real>)
    ensures |resultMap| == 0 <==> result.Fatal?
    ensures result.Ok? ==> result.value == ScanMax(resultMap).key
  {
    if |resultMap| == 0 {
      return Fatal("CHECK_NE(result_map.size(), 0)");
    }
    var maxValue := -1.0;
    var maxKey := -1.0;
    for i := 0 to |resultMap|
      invariant Best(maxKey, maxValue) == ScanMax(resultMap[..i])
    {
      assert resultMap[..i + 1][..i] == resultMap[..i];
      if resultMap[i].accuracy > maxValue {
        maxValue := resultMap[i].accuracy;
        maxKey := resultMap[i].c;
      }
    }
    assert resultMap[..|resultMap|] == resultMap;
    result := Ok(maxKey);
  }

  // ---------------------------------------------------------------------
  // The fold split.

  /** C++'s % on int: the remainder takes the sign of the dividend. */
  function TruncRem(a: int, n: int): (r: int)
    requires n != 0
    ensures a >= 0 ==> r == a % n
  {
    if a >= 0 then a % n else -((-a) % n)
  }

  /** The remainder truncated toward zero is 0 exactly when Euclid's is. */
  lemma TruncRemZero(a: int, n: int)
    requires n > 0
    ensures TruncRem(a, n) == 0 <==> a % n == 0
  {
    if a < 0 {
      var q := (-a) / n;
      if (-a) % n == 0 {
        assert -a == q * n;
        DivModUnique(a, n, -q, 0);
      } else {
        if a % n == 0 {
          var p := a / n;
          assert a == p * n;
          DivModUnique(-a, n, -p, 0);
          assert false;
        }
      }
    }
  }

  /** Example i is tested in the given fold. */
  predicate IsTest(i: int, fold: int, numFolds: int)
    requires numFolds != 0
  {
    TruncRem(i - fold, numFolds) == 0
  }

  /** The positions below n that the fold tests (test) or trains on
      (!test), in increasing order. */
  function Selected(n: nat, fold: int, numFolds: int, test: bool): (r: seq<int>)
    requires numFolds != 0
    ensures |r| <= n
  {
    if n == 0 then []
    else Selected(n - 1, fold, numFolds, test) + (if IsTest(n - 1, fold, numFolds) == test then [n - 1] else [])
  }

  /** The selected positions are increasing. */
  lemma {:induction false} SelectedIncreasing(n: nat, fold: int, numFolds: int, test: bool)
    requires numFolds != 0
    ensures forall p, q :: 0 <= p < q < |Selected(n, fold, numFolds, test)| ==>
      Selected(n, fold, numFolds, test)[p] < Selected(n, fold, numFolds, test)[q]
    ensures forall p :: 0 <= p < |Selected(n, fold, numFolds, test)| ==> 0 <= Selected(n, fold, numFolds, test)[p] < n
  {
    if n > 0 {
      SelectedIncreasing(n - 1, fold, numFolds, test);
    }
  }

  /** A position is selected exactly when it is below n and on the chosen
      side of the fold: within a fold the test and training positions
      split 0..n-1. */
  lemma {:induction false} SelectedMembers(n: nat, fold: int, numFolds: int, test: bool)
    requires numFolds != 0
    ensures forall i :: i in Selected(n, fold, numFolds, test) <==> 0 <= i < n && IsTest(i, fold, numFolds) == test
  {
    if n > 0 {
      SelectedMembers(n - 1, fold, numFolds, test);
    }
  }

  /** The test and training positions of a fold number n together. */
  lemma {:induction false} SelectedCount(n: nat, fold: int, numFolds: int)
    requires numFolds != 0
    ensures |Selected(n, fold, numFolds, true)| + |Selected(n, fold, numFolds, false)| == n
  {
    if n > 0 {
      SelectedCount(n - 1, fold, numFolds);
    }
  }

  /** Over the folds 0..numFolds-1 each example is tested exactly once:
      in the fold equal to its position modulo the fold count. */
  lemma TestedOnce(i: nat, numFolds: int, fold: int)
    requires numFolds > 0 && 0 <= fold < numFolds
    ensures IsTest(i, fold, numFolds) <==> fold == i % numFolds
  {
    TruncRemZero(i - fold, numFolds);
    var q, r := i / numFolds, i % numFolds;
    if r == fold {
      DivModUnique(i - fold, numFolds, q, 0);
    } else if r > fold {
      DivModUnique(i - fold, numFolds, q, r - fold);
    } else {
      assert i - fold == (q - 1) * numFolds + (numFolds + r - fold);
      DivModUnique(i - fold, numFolds, q - 1, numFolds + r - fold);
    }
  }

  /** The entries of a list at the given positions. */
  function Gather(xs: seq<string>, positions: seq<int>): (r: seq<string>)
    requires forall p :: 0 <= p < |positions| ==> 0 <= positions[p] < |xs|
    ensures |r| == |positions| && forall p :: 0 <= p < |positions| ==> r[p] == xs[positions[p]]
  {
    seq(|positions|, p requires 0 <= p < |positions| => xs[positions[p]])
  }

  /** One fold's split of the examples, in map order, into testing and
      training positions with their true categories. */
  method SplitFold(categories: seq<string>, fold: int, numFolds: int)
    returns (trainingIndices: seq<int>, testingIndices: seq<int>,
             trueTrainingCategories: seq<string>, trueTestingCategories: seq<string>)
    requires numFolds != 0
    ensures testingIndices == Selected(|categories|, fold, numFolds, true)
    ensures trainingIndices == Selected(|categories|, fold, numFolds, false)
    ensures forall p :: 0 <= p < |testingIndices| ==> 0 <= testingIndices[p] < |categories|
    ensures forall p :: 0 <= p < |trainingIndices| ==> 0 <= trainingIndices[p] < |categories|
    ensures trueTestingCategories == Gather(categories, testingIndices)
    ensures trueTrainingCategories == Gather(categories, trainingIndices)
  {
    trainingIndices, testingIndices := [], [];
    trueTrainingCategories, trueTestingCategories := [], [];
    for i := 0 to |categories|
      invariant testingIndices == Selected(i, fold, numFolds, true)
      invariant trainingIndices == Selected(i, fold, numFolds, false)
      invariant forall p :: 0 <= p < |testingIndices| ==> 0 <= testingIndices[p] < i
      invariant forall p :: 0 <= p < |trainingIndices| ==> 0 <= trainingIndices[p] < i
      invariant |trueTestingCategories| == |testingIndices|
      invariant forall p :: 0 <= p < |testingIndices| ==> trueTestingCategories[p] == categories[testingIndices[p]]
      invariant |trueTrainingCategories| == |trainingIndices|
      invariant forall p :: 0 <= p < |trainingIndices| ==> trueTrainingCategories[p] == categories[trainingIndices[p]]
    {
      if TruncRem(i - fold, numFolds) == 0 {
        testingIndices := testingIndices + [i];
        trueTestingCategories := trueTestingCategories + [categories[i]];
      } else {
        trainingIndices := trainingIndices + [i];
        trueTrainingCategories := trueTrainingCategories + [categories[i]];
      }
    }
  }

  // ---------------------------------------------------------------------
  // The precomputed gram matrix.

  /** An svm_node: a column index and a value. */
  datatype Node = Node(index: int, value: real)

  /** The value given to node fields the source allocates but never
      writes. */
  const Unwritten: Node := Node(0, 0.0)

  /** Row `row` of the gram matrix as a shard leaves it, for n examples:
      the 1-based id at node 0, the kernel against example j - 1 at node j
      for j above the row (the upper triangle with the diagonal), nothing
      below it, and the terminator -1 at node n + 1. */
  function UpperRow(row: nat, n: nat, kernel: (int, int) -> real): (r: seq<Node>)
    ensures |r| == n + 2
  {
    seq(n + 2, j requires 0 <= j < n + 2 =>
      if j == 0 then Node(0, (row + 1) as real)
      else if j == n + 1 then Node(-1, 0.0)
      else if j >= row + 1 then Node(j, kernel(row, j - 1))
      else Unwritten)
  }

  /** One shard fills the rows in [startRow, onePastEnd) and leaves the
      others as they were. */
  method BuildGramMatrixShard(x: array<seq<Node>>, startRow: int, onePastEnd: int, kernel: (int, int) -> real)
    modifies x
    ensures forall r :: 0 <= r < x.Length ==>
      x[r] == if startRow <= r < onePastEnd then UpperRow(r, x.Length, kernel) else old(x[r])
  {
    var n := x.Length;
    for rowIndex := 0 to n
      invariant forall r :: 0 <= r < n ==>
        x[r] == if r < rowIndex && startRow <= r < onePastEnd then UpperRow(r, n, kernel) else old(x[r])
    {
      if rowIndex >= startRow && rowIndex < onePastEnd {
        var row := seq(n + 2, _ => Unwritten);
        row := row[0 := Node(0, (rowIndex + 1) as real)];
        var j := 1;
        while j < n + 1
          invariant 1 <= j <= n + 1 && |row| == n + 2
          invariant row[0] == Node(0, (rowIndex + 1) as real)
          invariant forall t :: 1 <= t < j ==> row[t] == UpperRow(rowIndex, n, kernel)[t]
          invariant forall t :: j <= t < n + 2 ==> row[t] == Unwritten
        {
          if j >= rowIndex + 1 {
            row := row[j := Node(j, kernel(rowIndex, j - 1))];
          }
          j := j + 1;
        }
        row := row[n + 1 := Node(-1, 0.0)];
        x[rowIndex] := row;
      }
    }
  }

  /** The row range of shard s of t: up to bounds[s] (at most n) and from
      bounds[s + 1], the last shard from 0. bounds[s] stands for
      n * (1 - sqrt(s / t)) truncated. */
  function ShardStart(bounds: seq<int>, s: nat, t: nat): int
    requires s + 1 < |bounds|
  {
    if s == t - 1 then 0 else bounds[s + 1]
  }

  function ShardEnd(bounds: seq<int>, s: nat, n: int): int
    requires s < |bounds|
  {
    if bounds[s] > n then n else bounds[s]
  }

  /** The shards one after the other. When the bounds fall from n and the
      last shard starts at 0, every row is filled. */
  method BuildGramMatrix(x: array<seq<Node>>, threadLimit: nat, bounds: seq<int>, kernel: (int, int) -> real)
    requires threadLimit >= 1 && |bounds| == threadLimit + 1 && bounds[0] == x.Length
    requires forall s :: 0 <= s < threadLimit ==> bounds[s + 1] <= bounds[s]
    modifies x
    ensures forall r :: 0 <= r < x.Length ==> x[r] == UpperRow(r, x.Length, kernel)
  {
    var n := x.Length;
    for shard := 0 to threadLimit
      invariant forall r :: (if shard == threadLimit then 0 else bounds[shard]) <= r < n ==> 0 <= r ==>
        x[r] == UpperRow(r, n, kernel)
    {
      BuildGramMatrixShard(x, ShardStart(bounds, shard, threadLimit), ShardEnd(bounds, shard, n), kernel);
    }
  }

  /** The mirror step as a relation between the matrix before and after:
      for 1 <= col <= row, node col of row `row` is node row + 1 of row
      col - 1 from before; every other node is as before. */
  predicate Mirrored(before: seq<seq<Node>>, after: seq<seq<Node>>)
  {
    |after| == |before| &&
    (forall r :: 0 <= r < |before| ==> |before[r]| == |before| + 2 && |after[r]| == |before| + 2) &&
    forall r :: 0 <= r < |after| ==> forall c :: 0 <= c < |after| + 2 ==>
      after[r][c] == (if 1 <= c <= r then Node(c, before[c - 1][r + 1].value) else before[r][c])
  }

  /** The mirror loop, which reads node row + 1 of row col - 1 only after
      that row's own pass, which has not overwritten it. */
  method FillLowerTriangle(x: array<seq<Node>>)
    requires forall r :: 0 <= r < x.Length ==> |x[r]| == x.Length + 2
    modifies x
    ensures Mirrored(old(x[..]), x[..])
  {
    var n := x.Length;
    ghost var before: seq<seq<Node>> := x[..];
    for row := 0 to n
      invariant forall r :: 0 <= r < n ==> |x[r]| == n + 2
      invariant forall r :: 0 <= r < n ==> forall c :: 0 <= c < n + 2 ==>
        x[r][c] == if r < row && 1 <= c <= r then Node(c, before[c - 1][r + 1].value) else before[r][c]
    {
      for col := 1 to row + 1
        invariant forall r :: 0 <= r < n ==> |x[r]| == n + 2
        invariant forall r :: 0 <= r < n ==> forall c :: 0 <= c < n + 2 ==>
          x[r][c] == if (r < row && 1 <= c <= r) || (r == row && 1 <= c < col) then Node(c, before[c - 1][r + 1].value)
                     else before[r][c]
      {
        x[row] := x[row][col := Node(col, x[col - 1][row + 1].value)];
      }
    }
  }

  /** The gram matrix of the kernel over n examples: node c + 1 of row r
      holds the kernel of the pair, taken with the smaller position
      first. */
  predicate IsGram(x: seq<seq<Node>>, kernel: (int, int) -> real)
  {
    forall r :: 0 <= r < |x| ==>
      |x[r]| == |x| + 2 &&
      forall c :: 0 <= c < |x| ==>
        x[r][c + 1] == Node(c + 1, if r <= c then kernel(r, c) else kernel(c, r))
  }

  /** Mirroring the rows the shards built gives the whole gram matrix:
      symmetric, and equal to the kernel wherever it was computed. */
  lemma MirroredIsGram(before: seq<seq<Node>>, after: seq<seq<Node>>, kernel: (int, int) -> real)
    requires forall r :: 0 <= r < |before| ==> before[r] == UpperRow(r, |before|, kernel)
    requires Mirrored(before, after)
    ensures IsGram(after, kernel)
    ensures forall r, c :: 0 <= r < |after| && 0 <= c < |after| ==> after[r][c + 1].value == after[c][r + 1].value
  {
    var n := |after|;
    forall r, c | 0 <= r < n && 0 <= c < n
      ensures after[r][c + 1] == Node(c + 1, if r <= c then kernel(r, c) else kernel(c, r))
    {
      assert after[r][c + 1] == (if 1 <= c + 1 <= r then Node(c + 1, before[c][r + 1].value) else before[r][c + 1]);
      if c + 1 <= r {
        assert before[c][r + 1] == UpperRow(c, n, kernel)[r + 1];
      } else {
        assert before[r][c + 1] == UpperRow(r, n, kernel)[c + 1];
      }
    }
  }

  /** The whole precomputed kernel: the shards fill the upper triangle,
      then the mirror loop completes the symmetric gram matrix. */
  method BuildKernelMatrix(x: array<seq<Node>>, threadLimit: nat, bounds: seq<int>, kernel: (int, int) -> real)
    requires threadLimit >= 1 && |bounds| == threadLimit + 1 && bounds[0] == x.Length
    requires forall s :: 0 <= s < threadLimit ==> bounds[s + 1] <= bounds[s]
    modifies x
    ensures IsGram(x[..], kernel)
    ensures forall r :: 0 <= r < x.Length ==>
      |x[r]| == x.Length + 2 && x[r][0] == Node(0, (r + 1) as real) && x[r][x.Length + 1] == Node(-1, 0.0)
  {
    BuildGramMatrix(x, threadLimit, bounds, kernel);
    ghost var upper := x[..];
    FillLowerTriangle(x);
    MirroredIsGram(upper, x[..], kernel);
    forall r | 0 <= r < x.Length
      ensures x[r][0] == Node(0, (r + 1) as real) && x[r][x.Length + 1] == Node(-1, 0.0)
    {
      assert upper[r] == UpperRow(r, x.Length, kernel);
      assert x[..][r][0] == upper[r][0];
      assert x[..][r][x.Length + 1] == upper[r][x.Length + 1];
    }
  }

  // ---------------------------------------------------------------------
  // The training sub-matrix of one fold.

  /** Row r of the fold's sub-matrix: id r + 1 at node 0, then for each
      training position b the full matrix's node b + 1 of row a (the r-th
      training position) at node c + 1, then the terminator -1. */
  function SubsetRow(x: seq<seq<Node>>, trainingIndices: seq<int>, r: nat): (row: seq<Node>)
    requires r < |trainingIndices|
    requires forall p :: 0 <= p < |trainingIndices| ==> 0 <= trainingIndices[p] < |x|
    requires forall p :: 0 <= p < |trainingIndices| ==> trainingIndices[p] + 1 < |x[trainingIndices[r]]|
    ensures |row| == |trainingIndices| + 2
  {
    var l := |trainingIndices|;
    [Node(0, (r + 1) as real)] +
    seq(l, c requires 0 <= c < l => Node(c + 1, x[trainingIndices[r]][trainingIndices[c] + 1].value)) +
    [Node(-1, 0.0)]
  }

  /** The sub-matrix of the training rows and columns. */
  method ExtractSubset(x: array<seq<Node>>, trainingIndices: seq<int>) returns (subset: seq<seq<Node>>)
    requires forall p :: 0 <= p < |trainingIndices| ==> 0 <= trainingIndices[p] < x.Length
    requires forall a :: 0 <= a < x.Length ==> |x[a]| == x.Length + 2
    ensures |subset| == |trainingIndices|
    ensures forall r :: 0 <= r < |subset| ==> subset[r] == SubsetRow(x[..], trainingIndices, r)
  {
    var l := |trainingIndices|;
    subset := [];
    for rowIndex := 0 to l
      invariant |subset| == rowIndex
      invariant forall r :: 0 <= r < rowIndex ==> subset[r] == SubsetRow(x[..], trainingIndices, r)
    {
      var a := trainingIndices[rowIndex];
      var row := [Node(0, (rowIndex + 1) as real)];
      for colIndex := 0 to l
        invariant |row| == colIndex + 1
        invariant row[0] == Node(0, (rowIndex + 1) as real)
        invariant forall c :: 0 <= c < colIndex ==> row[c + 1] == Node(c + 1, x[a][trainingIndices[c] + 1].value)
      {
        var b := trainingIndices[colIndex];
        row := row + [Node(colIndex + 1, x[a][b + 1].value)];
      }
      row := row + [Node(-1, 0.0)];
      assert row == SubsetRow(x[..], trainingIndices, rowIndex);
      subset := subset + [row];
    }
  }

  /** Cut from the gram matrix, the sub-matrix is the gram matrix of the
      training examples alone: symmetric, holding the kernel of each pair
      of training positions. */
  lemma SubsetIsGram(x: seq<seq<Node>>, trainingIndices: seq<int>, kernel: (int, int) -> real,
                     r: nat, c: nat)
    requires IsGram(x, kernel)
    requires forall p :: 0 <= p < |trainingIndices| ==> 0 <= trainingIndices[p] < |x|
    requires r < |trainingIndices| && c < |trainingIndices|
    ensures SubsetRow(x, trainingIndices, r)[c + 1].value ==
      (var a, b := trainingIndices[r], trainingIndices[c]; if a <= b then kernel(a, b) else kernel(b, a))
    ensures SubsetRow(x, trainingIndices, r)[c + 1].value == SubsetRow(x, trainingIndices, c)[r + 1].value
  {
    var a, b := trainingIndices[r], trainingIndices[c];
    assert x[a][b + 1] == Node(b + 1, if a <= b then kernel(a, b) else kernel(b, a));
    assert x[b][a + 1] == Node(a + 1, if b <= a then kernel(b, a) else kernel(a, b));
  }

  /** The kernel vector of a test example against the fold's training
      examples: node 0 and the terminator -1 carry 0, node j + 1 the full
      matrix's node of the j-th training position. */
  method TestVector(x: array<seq<Node>>, testingIndex: int, trainingIndices: seq<int>)
    returns (testVector: seq<Node>)
    requires 0 <= testingIndex < x.Length
    requires forall p :: 0 <= p < |trainingIndices| ==> 0 <= trainingIndices[p] < x.Length
    requires |x[testingIndex]| == x.Length + 2
    ensures |testVector| == |trainingIndices| + 2
    ensures testVector[0] == Node(0, 0.0) && testVector[|trainingIndices| + 1] == Node(-1, 0.0)
    ensures forall j :: 0 <= j < |trainingIndices| ==>
      testVector[j + 1] == Node(j + 1, x[testingIndex][trainingIndices[j] + 1].value)
  {
    var vectorLength := |trainingIndices| + 2;
    testVector := seq(vectorLength, _ => Unwritten);
    for j := 0 to |trainingIndices|
      invariant |testVector| == vectorLength
      invariant forall t :: 0 <= t < j ==>
        testVector[t + 1] == Node(t + 1, x[testingIndex][trainingIndices[t] + 1].value)
    {
      var trainingIndex := trainingIndices[j];
      testVector := testVector[j + 1 := Node(j + 1, x[testingIndex][trainingIndex + 1].value)];
    }
    testVector := testVector[0 := Node(0, 0.0)];
    testVector := testVector[vectorLength - 1 := Node(-1, 0.0)];
  }

  // ---------------------------------------------------------------------
  // One-vs-rest labels.

  /** The target vector for one category: +1 for its examples, -1 for the
      others. */
  function Labels(categories: seq<string>, category: string): (y: seq<real>)
    ensures |y| == |categories|
  {
    if |categories| == 0 then []
    else Labels(categories[..|categories| - 1], category) + [if categories[|categories| - 1] == category then 1.0 else -1.0]
  }

  /** Every label is +1 or -1, +1 exactly on the category's examples; the
      labels add up to the number of positives minus the negatives. */
  lemma {:induction false} LabelsOneVsRest(categories: seq<string>, category: string)
    ensures forall i :: 0 <= i < |categories| ==>
      (Labels(categories, category)[i] == 1.0 <==> categories[i] == category) &&
      (Labels(categories, category)[i] == 1.0 || Labels(categories, category)[i] == -1.0)
    ensures Sum(Labels(categories, category)) == (2 * multiset(categories)[category] - |categories|) as real
  {
    if |categories| > 0 {
      var front := categories[..|categories| - 1];
      var last := categories[|categories| - 1];
      LabelsOneVsRest(front, category);
      assert categories == front + [last];
      SumAppend(Labels(front, category), [if last == category then 1.0 else -1.0]);
    }
  }

  /** Over a category set holding every example's category, each example
      is a positive of exactly one of the per-category problems. */
  lemma PositiveOnce(categories: seq<string>, categorySet: seq<string>, i: nat)
    requires StrictlySorted(categorySet) && i < |categories| && categories[i] in categorySet
    ensures exists k :: 0 <= k < |categorySet| && Labels(categories, categorySet[k])[i] == 1.0
    ensures forall k, k' :: (0 <= k < |categorySet| && 0 <= k' < |categorySet| &&
      Labels(categories, categorySet[k])[i] == 1.0 && Labels(categories, categorySet[k'])[i] == 1.0) ==> k == k'
  {
    forall k | 0 <= k < |categorySet| {
      LabelsOneVsRest(categories, categorySet[k]);
    }
    forall k, k' | 0 <= k < k' < |categorySet|
      ensures categorySet[k] != categorySet[k']
    {
      LexLessIrreflexive(categorySet[k]);
    }
  }

  /** Setting the target vector in place. */
  method SetLabels(y: array<real>, categories: seq<string>, category: string)
    requires y.Length == |categories|
    modifies y
    ensures y[..] == Labels(categories, category)
  {
    for i := 0 to |categories|
      invariant y[..i] == Labels(categories[..i], category)
    {
      assert categories[..i + 1][..i] == categories[..i];
      if categories[i] == category {
        y[i] := 1.0;
      } else {
        y[i] := -1.0;
      }
      assert y[..i + 1] == y[..i] + [y[i]];
    }
    assert categories[..|categories|] == categories;
    assert y[..] == y[..|categories|];
  }
}
