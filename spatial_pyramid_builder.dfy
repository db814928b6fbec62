/** SpatialPyramidBuilder (spatial_pyramid/spatial_pyramid_builder.h and
    spatial_pyramid_builder.cc): codes each descriptor against one or more
    dictionaries by local soft assignment over its k nearest codewords,
    pools the codes per spatial cell (average or max), and lays the cells
    out as a spatial pyramid whose level i is a 2^i x 2^i grid. The
    nearest-neighbour searches are oracle inputs and std::exp is an input
    function with positive values. */
module PyramidBuilder {
  import opened Common
  import SiftUtil
  import opened SpatialPyramidKernel
  import Codebooks

  /** PoolingStrategy: AVERAGE_POOLING (0) and MAX_POOLING (1). */
  datatype PoolingStrategy = AveragePooling | MaxPooling

  /** What the coding of a descriptor depends on besides its neighbours:
      the weight decay beta, the exponential, and the pooling. */
  datatype Coding = Coding(beta: real, exp: real -> real, pooling: PoolingStrategy)

  /** A dictionary message: its centroids and its location weighting. */
  datatype Dictionary = Dictionary(centroids: seq<seq<real>>, locationWeighting: real)

  // ---------------------------------------------------------------------
  // Geometry.

  function Pow4(e: nat): nat
  {
    if e == 0 then 1 else 4 * Pow4(e - 1)
  }

  /** A 2^i grid holds 4^i cells. */
  lemma {:induction false} GridCells(e: nat)
    ensures Pow2(e) * Pow2(e) == Pow4(e)
  {
    if e > 0 {
      GridCells(e - 1);
      calc {
        Pow2(e) * Pow2(e);
        (2 * Pow2(e - 1)) * (2 * Pow2(e - 1));
        4 * (Pow2(e - 1) * Pow2(e - 1));
      }
    }
  }

  /** An empty level: a g x g grid of histograms without entries, each of
      the given dense length. */
  function EmptyLevel(g: nat, length: int): (r: PyramidLevel)
    ensures r.rows == g && r.columns == g && |r.histograms| == g * g
  {
    PyramidLevel(g, g, seq(g * g, _ => SparseVector([], length)))
  }

  /** The pyramid BuildPyramid lays out before coding anything: level i a
      2^i x 2^i grid of empty histograms of the summed dictionary size. */
  function Geometry(numLevels: int, length: int): (p: SpatialPyramid)
    ensures |p.levels| == if numLevels <= 0 then 0 else numLevels
  {
    SpatialPyramid(seq(if numLevels <= 0 then 0 else numLevels, i requires 0 <= i => EmptyLevel(Pow2(i), length)))
  }

  /** Level i of the geometry has 2^i rows and columns and 4^i histograms,
      each empty and of the given length. */
  lemma GeometryShape(numLevels: int, length: int, i: nat)
    requires i < numLevels
    ensures Geometry(numLevels, length).levels[i].rows == Pow2(i)
    ensures Geometry(numLevels, length).levels[i].columns == Pow2(i)
    ensures |Geometry(numLevels, length).levels[i].histograms| == Pow4(i)
    ensures forall h :: h in Geometry(numLevels, length).levels[i].histograms ==> h == SparseVector([], length)
  {
    GridCells(i);
  }

  /** The sum of the first n dictionary sizes: the index offset of
      dictionary n, and with n the count the histogram length. */
  function Offset(sizes: seq<nat>, n: nat): nat
    requires n <= |sizes|
  {
    if n == 0 then 0 else Offset(sizes, n - 1) + sizes[n - 1]
  }

  // ---------------------------------------------------------------------
  // Cells.

  /** The width of a cell on level i, where the grid is 2^i cells wide:
      the width starts at 1 and halves from level to level. */
  function CellWidth(level: nat): (w: real)
    ensures w > 0.0 && w * Pow2(level) as real == 1.0
  {
    Pow2Positive(level);
    1.0 / Pow2(level) as real
  }

  /** Halving the width of one level gives the width of the next. */
  lemma CellWidthHalves(level: nat)
    ensures CellWidth(level + 1) == CellWidth(level) / 2.0
  {
    Pow2Positive(level);
  }

  /** The half-open cell test of a descriptor at (x, y) against the cell
      at (row, col) of a grid whose cells are w wide. */
  predicate InCell(x: real, y: real, row: int, col: int, w: real)
  {
    x >= col as real * w && x < (col + 1) as real * w &&
    y >= row as real * w && y < (row + 1) as real * w
  }

  /** The cell a coordinate falls in on a grid of g cells per side. */
  function CellCoordinate(x: real, g: nat): int
  {
    (x * g as real).Floor
  }

  lemma MulLe(a: real, b: real, k: real)
    requires a <= b && k >= 0.0
    ensures a * k <= b * k
  {
  }

  lemma MulLt(a: real, b: real, k: real)
    requires a < b && k > 0.0
    ensures a * k < b * k
  {
  }

  /** Scaling a cell bound of level i back by the grid size. */
  lemma ScaledBounds(x: real, level: nat, c: int)
    requires c as real * CellWidth(level) <= x < (c + 1) as real * CellWidth(level)
    ensures c as real <= x * Pow2(level) as real < (c + 1) as real
  {
    var G := Pow2(level) as real;
    var w := CellWidth(level);
    MulLe(c as real * w, x, G);
    MulLt(x, (c + 1) as real * w, G);
    assert (c as real * w) * G == c as real * (w * G);
    assert ((c + 1) as real * w) * G == (c + 1) as real * (w * G);
  }

  /** Dividing cell bounds c <= s < c + 1 by the grid size, given as
      multiplication by its inverse w. */
  lemma Unscale(x: real, g: real, w: real, c: real)
    requires w > 0.0 && w * g == 1.0
    requires c <= x * g < c + 1.0
    ensures c * w <= x < (c + 1.0) * w
  {
    MulLe(c, x * g, w);
    MulLt(x * g, c + 1.0, w);
    calc {
      (x * g) * w;
      x * (w * g);
      x * 1.0;
    }
  }

  /** Scaling a coordinate's cell back by the width of a level. */
  lemma UnscaledBounds(x: real, level: nat, c: int)
    requires c as real <= x * Pow2(level) as real < (c + 1) as real
    ensures c as real * CellWidth(level) <= x < (c + 1) as real * CellWidth(level)
  {
    Unscale(x, Pow2(level) as real, CellWidth(level), c as real);
  }

  /** A coordinate in [0, 1) falls in one of the g cells. */
  lemma CoordinateInGrid(x: real, level: nat)
    requires 0.0 <= x < 1.0
    ensures 0 <= CellCoordinate(x, Pow2(level)) < Pow2(level)
    ensures CellCoordinate(x, Pow2(level)) as real <= x * Pow2(level) as real < (CellCoordinate(x, Pow2(level)) + 1) as real
  {
    var G := Pow2(level) as real;
    Pow2Positive(level);
    MulLe(0.0, x, G);
    MulLt(x, 1.0, G);
    var c := CellCoordinate(x, Pow2(level));
    assert c as real <= x * G;
    assert c as real < G;
  }

  /** A coordinate in [0, 1) lies between the bounds of its cell. */
  lemma CoordinateCell(x: real, level: nat)
    requires 0.0 <= x < 1.0
    ensures 0 <= CellCoordinate(x, Pow2(level)) < Pow2(level)
    ensures CellCoordinate(x, Pow2(level)) as real * CellWidth(level) <= x
    ensures x < (CellCoordinate(x, Pow2(level)) + 1) as real * CellWidth(level)
  {
    CoordinateInGrid(x, level);
    UnscaledBounds(x, level, CellCoordinate(x, Pow2(level)));
  }

  /** A descriptor with x and y in [0, 1) lies in the cell at
      (CellCoordinate(y), CellCoordinate(x)) of each level. */
  lemma CellMembership(x: real, y: real, level: nat)
    requires 0.0 <= x < 1.0 && 0.0 <= y < 1.0
    ensures 0 <= CellCoordinate(x, Pow2(level)) < Pow2(level)
    ensures 0 <= CellCoordinate(y, Pow2(level)) < Pow2(level)
    ensures InCell(x, y, CellCoordinate(y, Pow2(level)), CellCoordinate(x, Pow2(level)), CellWidth(level))
  {
    CoordinateCell(x, level);
    CoordinateCell(y, level);
  }

  /** ... and in no other cell. */
  lemma CellUnique(x: real, y: real, level: nat, row: int, col: int)
    requires InCell(x, y, row, col, CellWidth(level))
    ensures row == CellCoordinate(y, Pow2(level)) && col == CellCoordinate(x, Pow2(level))
  {
    BoundsGiveCoordinate(x, level, col);
    BoundsGiveCoordinate(y, level, row);
  }

  /** A coordinate between the bounds of cell c is in cell c. */
  lemma BoundsGiveCoordinate(x: real, level: nat, c: int)
    requires c as real * CellWidth(level) <= x < (c + 1) as real * CellWidth(level)
    ensures c == CellCoordinate(x, Pow2(level))
  {
    ScaledBounds(x, level, c);
    FloorUnique(x * Pow2(level) as real, c);
  }

  /** The floor of v is the c with c <= v < c + 1. */
  lemma FloorUnique(v: real, c: int)
    requires c as real <= v < (c + 1) as real
    ensures v.Floor == c
  {
  }

  /** A coordinate equal to 1.0 lies in no cell of the grid. */
  lemma NoCellAtOne(x: real, y: real, level: nat, row: int, col: int)
    requires x == 1.0 || y == 1.0
    requires 0 <= row < Pow2(level) && 0 <= col < Pow2(level)
    ensures !InCell(x, y, row, col, CellWidth(level))
  {
    if InCell(x, y, row, col, CellWidth(level)) {
      CellAtOne(x, y, level, row, col);
    }
  }

  /** The only cell around a coordinate equal to 1.0 is cell 2^level,
      just past the grid. */
  lemma CellAtOne(x: real, y: real, level: nat, row: int, col: int)
    requires InCell(x, y, row, col, CellWidth(level))
    ensures x == 1.0 ==> col == Pow2(level)
    ensures y == 1.0 ==> row == Pow2(level)
  {
    if x == 1.0 {
      BoundAtOne(x, level, col);
    }
    if y == 1.0 {
      BoundAtOne(y, level, row);
    }
  }

  lemma BoundAtOne(x: real, level: nat, c: int)
    requires x == 1.0 && c as real * CellWidth(level) <= x < (c + 1) as real * CellWidth(level)
    ensures c == Pow2(level)
  {
    var G := Pow2(level) as real;
    ScaledBounds(x, level, c);
    assert 1.0 * G == G;
    assert c as real <= G < (c + 1) as real;
  }

  // ---------------------------------------------------------------------
  // The sparse histogram of one cell: a std::map<int, float>, modelled as
  // its entries in ascending key order. operator[] reads 0 for a missing
  // key (ValueAt) and inserts or overwrites (Put).

  /** The map after m[idx] = v. */
  function Put(h: seq<SparseValue>, idx: int, v: real): (r: seq<SparseValue>)
    ensures |r| >= 1
    ensures r[0].index == if |h| == 0 || idx < h[0].index then idx else h[0].index
  {
    if |h| == 0 then [SparseValue(idx, v)]
    else if h[0].index == idx then [SparseValue(idx, v)] + h[1..]
    else if idx < h[0].index then [SparseValue(idx, v)] + h
    else [h[0]] + Put(h[1..], idx, v)
  }

  /** m[idx] = v keeps the keys in ascending order. */
  lemma {:induction false} PutAscending(h: seq<SparseValue>, idx: int, v: real)
    requires Ascending(h)
    ensures Ascending(Put(h, idx, v))
    decreases |h|
  {
    if |h| > 0 && h[0].index < idx {
      PutAscending(h[1..], idx, v);
      var t := Put(h[1..], idx, v);
      assert Put(h, idx, v) == [h[0]] + t;
      forall q | 0 <= q < |t| ensures h[0].index < t[q].index {
        assert t[0].index <= t[q].index;
      }
    }
  }

  /** After m[idx] = v the map holds the entry (idx, v) and, besides it,
      only entries it held before; every other entry is kept. */
  lemma {:induction false} PutEntries(h: seq<SparseValue>, idx: int, v: real)
    ensures forall k :: 0 <= k < |Put(h, idx, v)| ==> Put(h, idx, v)[k] == SparseValue(idx, v) || Put(h, idx, v)[k] in h
    ensures SparseValue(idx, v) in Put(h, idx, v)
    ensures forall e :: e in h && e.index != idx ==> e in Put(h, idx, v)
    decreases |h|
  {
    if |h| > 0 && h[0].index < idx {
      PutEntries(h[1..], idx, v);
      var r := Put(h, idx, v);
      assert r == [h[0]] + Put(h[1..], idx, v);
      forall e | e in h && e.index != idx ensures e in r {
        if e != h[0] {
          assert e in h[1..];
        }
      }
    }
  }

  /** After m[idx] = v the map reads v at idx and what it read before
      everywhere else. */
  lemma {:induction false} PutValueAt(h: seq<SparseValue>, idx: int, v: real, j: int)
    ensures ValueAt(Put(h, idx, v), j) == if j == idx then v else ValueAt(h, j)
    decreases |h|
  {
    if |h| > 0 && h[0].index != idx && idx > h[0].index {
      PutValueAt(h[1..], idx, v, j);
      assert Put(h, idx, v)[1..] == Put(h[1..], idx, v);
    } else if |h| > 0 && h[0].index == idx && j != idx {
      assert Put(h, idx, v)[1..] == h[1..];
    } else if |h| > 0 && idx < h[0].index {
      assert Put(h, idx, v)[1..] == h;
    }
  }

  /** The sum of the entries' values in key order. */
  function Total(h: seq<SparseValue>): real
  {
    if |h| == 0 then 0.0 else Total(h[..|h| - 1]) + h[|h| - 1].value
  }

  lemma {:induction false} TotalCons(e: SparseValue, h: seq<SparseValue>)
    ensures Total([e] + h) == e.value + Total(h)
    decreases |h|
  {
    if |h| > 0 {
      assert ([e] + h)[..|[e] + h| - 1] == [e] + h[..|h| - 1];
      TotalCons(e, h[..|h| - 1]);
    }
  }

  /** Overwriting one value changes the sum by the difference. */
  lemma {:induction false} PutTotal(h: seq<SparseValue>, idx: int, v: real)
    requires Ascending(h)
    ensures Total(Put(h, idx, v)) == Total(h) - ValueAt(h, idx) + v
    decreases |h|
  {
    if |h| == 0 {
      assert Total([SparseValue(idx, v)]) == Total([]) + v;
    } else {
      TotalCons(h[0], h[1..]);
      assert h == [h[0]] + h[1..];
      if h[0].index == idx {
        TotalCons(SparseValue(idx, v), h[1..]);
      } else if idx < h[0].index {
        TotalCons(SparseValue(idx, v), h);
        ValueAtAbsent(h, idx);
      } else {
        PutTotal(h[1..], idx, v);
        TotalCons(h[0], Put(h[1..], idx, v));
      }
    }
  }

  /** Every entry of the map holds a value in (0, 1]. */
  predicate UnitValues(h: seq<SparseValue>)
  {
    forall k :: 0 <= k < |h| ==> 0.0 < h[k].value <= 1.0
  }

  /** A map whose values are in (0, 1] reads a value in [0, 1] anywhere. */
  lemma {:induction false} ValueAtUnit(h: seq<SparseValue>, idx: int)
    requires UnitValues(h)
    ensures 0.0 <= ValueAt(h, idx) <= 1.0
    decreases |h|
  {
    if |h| > 0 {
      ValueAtUnit(h[1..], idx);
    }
  }

  // ---------------------------------------------------------------------
  // Local soft assignment.

  /** The unnormalised Gaussian weight of one neighbour: exp(-beta d) of
      its rescaled squared distance d. */
  function Weight(n: Neighbor, beta: real, exp: real -> real): real
  {
    exp(-beta * Rescaled(n.dist))
  }

  /** The unnormalised Gaussian weight of each neighbour. */
  function RawWeights(ns: seq<Neighbor>, beta: real, exp: real -> real): (r: seq<real>)
    ensures |r| == |ns|
  {
    if |ns| == 0 then []
    else RawWeights(ns[..|ns| - 1], beta, exp) + [Weight(ns[|ns| - 1], beta, exp)]
  }

  lemma {:induction false} RawWeightsPositive(ns: seq<Neighbor>, beta: real, exp: real -> real)
    requires forall x :: exp(x) > 0.0
    ensures forall i :: 0 <= i < |ns| ==> RawWeights(ns, beta, exp)[i] > 0.0
    decreases |ns|
  {
    if |ns| > 0 {
      RawWeightsPositive(ns[..|ns| - 1], beta, exp);
    }
  }

  /** The weights divided by their sum, unless the sum is 0. */
  function SoftWeights(ns: seq<Neighbor>, beta: real, exp: real -> real): (r: seq<real>)
    ensures |r| == |ns|
  {
    var raw := RawWeights(ns, beta, exp);
    var normalizer := Sum(raw);
    seq(|raw|, i requires 0 <= i < |raw| => if normalizer != 0.0 then raw[i] / normalizer else raw[i])
  }

  function Divided(s: seq<real>, c: real): (r: seq<real>)
    requires c != 0.0
    ensures |r| == |s|
  {
    seq(|s|, i requires 0 <= i < |s| => s[i] / c)
  }

  lemma {:induction false} SumDivided(s: seq<real>, c: real)
    requires c != 0.0
    ensures Sum(Divided(s, c)) == Sum(s) / c
    decreases |s|
  {
    if |s| > 0 {
      assert Divided(s, c)[..|s| - 1] == Divided(s[..|s| - 1], c);
      SumDivided(s[..|s| - 1], c);
    }
  }

  /** A sum of positive terms is at least each term and positive when
      there is one. */
  lemma {:induction false} SumOfPositives(s: seq<real>)
    requires forall i :: 0 <= i < |s| ==> s[i] > 0.0
    ensures forall i :: 0 <= i < |s| ==> s[i] <= Sum(s)
    ensures |s| > 0 ==> Sum(s) > 0.0
    decreases |s|
  {
    if |s| > 0 {
      SumOfPositives(s[..|s| - 1]);
      SumNonNegative(s[..|s| - 1]);
      assert forall i :: 0 <= i < |s| - 1 ==> s[i] == s[..|s| - 1][i];
    }
  }

  lemma DivSelf(a: real)
    requires a != 0.0
    ensures a / a == 1.0
  {
  }

  lemma FractionOfTotal(a: real, b: real)
    requires 0.0 < a <= b
    ensures 0.0 < a / b <= 1.0
  {
  }

  /** With a positive exponential and at least one neighbour, the soft
      weights are each in (0, 1] and sum to 1. */
  lemma SoftWeightsNormalised(ns: seq<Neighbor>, beta: real, exp: real -> real)
    requires forall x :: exp(x) > 0.0
    requires |ns| >= 1
    ensures Sum(SoftWeights(ns, beta, exp)) == 1.0
    ensures forall i :: 0 <= i < |ns| ==> 0.0 < SoftWeights(ns, beta, exp)[i] <= 1.0
  {
    var raw := RawWeights(ns, beta, exp);
    RawWeightsPositive(ns, beta, exp);
    SumOfPositives(raw);
    var normalizer := Sum(raw);
    assert SoftWeights(ns, beta, exp) == Divided(raw, normalizer);
    SumDivided(raw, normalizer);
    DivSelf(normalizer);
    forall i | 0 <= i < |ns| ensures 0.0 < SoftWeights(ns, beta, exp)[i] <= 1.0 {
      FractionOfTotal(raw[i], normalizer);
    }
  }

  /** k == 1 is hard assignment: the nearest codeword gets weight 1. */
  lemma HardAssignment(ns: seq<Neighbor>, beta: real, exp: real -> real)
    requires forall x :: exp(x) > 0.0
    requires |ns| == 1
    ensures SoftWeights(ns, beta, exp) == [1.0]
  {
    SoftWeightsNormalised(ns, beta, exp);
    assert Sum(SoftWeights(ns, beta, exp)) == SoftWeights(ns, beta, exp)[0];
  }

  // ---------------------------------------------------------------------
  // Pooling the codes of the descriptors in one cell.

  /** std::max(a, b): b when a < b, otherwise a. */
  function Larger(a: real, b: real): real
  {
    if a < b then b else a
  }

  /** One weight pooled into the bin idx: added for average pooling,
      maximised for max pooling. A missing bin reads 0. */
  function Pool(h: seq<SparseValue>, idx: int, a: real, pooling: PoolingStrategy): seq<SparseValue>
  {
    Put(h, idx, Pooled(ValueAt(h, idx), a, pooling))
  }

  /** The new value of a bin that read b and is given weight a. */
  function Pooled(b: real, a: real, pooling: PoolingStrategy): real
  {
    match pooling
    case AveragePooling => b + a
    case MaxPooling => Larger(b, a)
  }

  /** A descriptor's weights pooled into the bins of its neighbours, in
      neighbour order. */
  function AddCode(h: seq<SparseValue>, ns: seq<Neighbor>, ws: seq<real>, pooling: PoolingStrategy)
    : seq<SparseValue>
    requires |ws| == |ns|
  {
    if |ns| == 0 then h
    else
      var n := |ns| - 1;
      Pool(AddCode(h, ns[..n], ws[..n], pooling), ns[n].index, ws[n], pooling)
  }

  /** The last neighbour's step. */
  lemma AddCodeLast(h: seq<SparseValue>, ns: seq<Neighbor>, ws: seq<real>, pooling: PoolingStrategy)
    requires |ws| == |ns| > 0
    ensures var n := |ns| - 1;
      var prev := AddCode(h, ns[..n], ws[..n], pooling);
      AddCode(h, ns, ws, pooling) == Put(prev, ns[n].index, Pooled(ValueAt(prev, ns[n].index), ws[n], pooling))
  {
  }

  /** The map of a cell once every descriptor has been visited: the
      descriptors inside the cell, in order, pooled with their soft
      weights. rows[d] is the neighbour list of descriptor d. */
  function CellHistogram(ds: seq<SiftUtil.SiftDescriptor>, rows: seq<seq<Neighbor>>, row: int, col: int,
                         w: real, coding: Coding): seq<SparseValue>
    requires |rows| >= |ds|
  {
    if |ds| == 0 then []
    else
      var n := |ds| - 1;
      var prev := CellHistogram(ds[..n], rows, row, col, w, coding);
      if InCell(ds[n].x, ds[n].y, row, col, w) then
        AddCode(prev, rows[n], SoftWeights(rows[n], coding.beta, coding.exp), coding.pooling)
      else prev
  }

  /** Every value divided by s. */
  function Normalised(h: seq<SparseValue>, s: real): (r: seq<SparseValue>)
    requires s != 0.0
    ensures |r| == |h|
    ensures forall k :: 0 <= k < |h| ==> r[k].index == h[k].index
  {
    seq(|h|, k requires 0 <= k < |h| => SparseValue(h[k].index, h[k].value / s))
  }

  /** The map as emitted: for average pooling divided by its sum (a map
      whose sum is 0 is kept as it is), for max pooling unchanged. */
  function Finish(h: seq<SparseValue>, pooling: PoolingStrategy): (r: seq<SparseValue>)
    ensures |r| == |h|
    ensures forall k :: 0 <= k < |h| ==> r[k].index == h[k].index
  {
    if pooling.AveragePooling? && Total(h) != 0.0 then Normalised(h, Total(h)) else h
  }

  /** The entries of cell (row, col) of a level for one dictionary. */
  function CellCode(ds: seq<SiftUtil.SiftDescriptor>, rows: seq<seq<Neighbor>>, level: nat, row: int, col: int,
                    coding: Coding): seq<SparseValue>
    requires |rows| >= |ds|
  {
    Finish(CellHistogram(ds, rows, row, col, CellWidth(level), coding), coding.pooling)
  }

  // ---------------------------------------------------------------------
  // What pooling guarantees.

  lemma {:induction false} AddCodeAscending(h: seq<SparseValue>, ns: seq<Neighbor>, ws: seq<real>,
                                           pooling: PoolingStrategy)
    requires Ascending(h) && |ws| == |ns|
    ensures Ascending(AddCode(h, ns, ws, pooling))
    decreases |ns|
  {
    if |ns| > 0 {
      var n := |ns| - 1;
      var prev := AddCode(h, ns[..n], ws[..n], pooling);
      AddCodeAscending(h, ns[..n], ws[..n], pooling);
      var v := Pooled(ValueAt(prev, ns[n].index), ws[n], pooling);
      AddCodeLast(h, ns, ws, pooling);
      PutAscending(prev, ns[n].index, v);
    }
  }

  lemma {:induction false} CellHistogramAscending(ds: seq<SiftUtil.SiftDescriptor>, rows: seq<seq<Neighbor>>,
                                                 row: int, col: int, w: real, coding: Coding)
    requires |rows| >= |ds|
    ensures Ascending(CellHistogram(ds, rows, row, col, w, coding))
    decreases |ds|
  {
    if |ds| > 0 {
      var n := |ds| - 1;
      CellHistogramAscending(ds[..n], rows, row, col, w, coding);
      if InCell(ds[n].x, ds[n].y, row, col, w) {
        AddCodeAscending(CellHistogram(ds[..n], rows, row, col, w, coding), rows[n],
                         SoftWeights(rows[n], coding.beta, coding.exp), coding.pooling);
      }
    }
  }

  /** Every key of the map lies in [0, size). */
  predicate KeysBelow(h: seq<SparseValue>, size: int)
  {
    forall k :: 0 <= k < |h| ==> 0 <= h[k].index < size
  }

  /** Every neighbour list names codewords of the dictionary. */
  predicate CodewordsBelow(rows: seq<seq<Neighbor>>, size: int)
  {
    forall d, i :: 0 <= d < |rows| && 0 <= i < |rows[d]| ==> 0 <= rows[d][i].index < size
  }

  lemma {:induction false} AddCodeKeys(h: seq<SparseValue>, ns: seq<Neighbor>, ws: seq<real>,
                                      pooling: PoolingStrategy, size: int)
    requires |ws| == |ns| && KeysBelow(h, size)
    requires forall i :: 0 <= i < |ns| ==> 0 <= ns[i].index < size
    ensures KeysBelow(AddCode(h, ns, ws, pooling), size)
    decreases |ns|
  {
    if |ns| > 0 {
      var n := |ns| - 1;
      var prev := AddCode(h, ns[..n], ws[..n], pooling);
      AddCodeKeys(h, ns[..n], ws[..n], pooling, size);
      var v := Pooled(ValueAt(prev, ns[n].index), ws[n], pooling);
      AddCodeLast(h, ns, ws, pooling);
      PutEntries(prev, ns[n].index, v);
    }
  }

  /** A cell's map only holds codewords of the dictionary. */
  lemma {:induction false} CellHistogramKeys(ds: seq<SiftUtil.SiftDescriptor>, rows: seq<seq<Neighbor>>,
                                            row: int, col: int, w: real, coding: Coding, size: int)
    requires |rows| >= |ds| && CodewordsBelow(rows, size)
    ensures KeysBelow(CellHistogram(ds, rows, row, col, w, coding), size)
    decreases |ds|
  {
    if |ds| > 0 {
      var n := |ds| - 1;
      CellHistogramKeys(ds[..n], rows, row, col, w, coding, size);
      if InCell(ds[n].x, ds[n].y, row, col, w) {
        AddCodeKeys(CellHistogram(ds[..n], rows, row, col, w, coding), rows[n],
                    SoftWeights(rows[n], coding.beta, coding.exp), coding.pooling, size);
      }
    }
  }

  /** The last neighbour's step of average pooling. */
  lemma AddCodeAverageStep(h: seq<SparseValue>, ns: seq<Neighbor>, ws: seq<real>)
    requires Ascending(h) && |ws| == |ns| > 0
    ensures var prev := AddCode(h, ns[..|ns| - 1], ws[..|ns| - 1], AveragePooling);
      Total(AddCode(h, ns, ws, AveragePooling)) == Total(prev) + ws[|ns| - 1]
  {
    var n := |ns| - 1;
    var prev := AddCode(h, ns[..n], ws[..n], AveragePooling);
    var v := ValueAt(prev, ns[n].index) + ws[n];
    assert Pooled(ValueAt(prev, ns[n].index), ws[n], AveragePooling) == v;
    AddCodeLast(h, ns, ws, AveragePooling);
    var r := AddCode(h, ns, ws, AveragePooling);
    assert r == Put(prev, ns[n].index, v);
    AddCodeAscending(h, ns[..n], ws[..n], AveragePooling);
    PutTotal(prev, ns[n].index, v);
    assert Total(r) == Total(prev) - ValueAt(prev, ns[n].index) + v;
  }

  /** Average pooling adds a descriptor's weights to the map's sum. */
  lemma {:induction false} AddCodeTotal(h: seq<SparseValue>, ns: seq<Neighbor>, ws: seq<real>)
    requires Ascending(h) && |ws| == |ns|
    ensures Total(AddCode(h, ns, ws, AveragePooling)) == Total(h) + Sum(ws)
    decreases |ns|
  {
    if |ns| > 0 {
      var n := |ns| - 1;
      AddCodeTotal(h, ns[..n], ws[..n]);
      AddCodeAverageStep(h, ns, ws);
    }
  }

  /** How many of the descriptors lie in the cell. */
  function InCellCount(ds: seq<SiftUtil.SiftDescriptor>, row: int, col: int, w: real): nat
  {
    if |ds| == 0 then 0
    else InCellCount(ds[..|ds| - 1], row, col, w) + (if InCell(ds[|ds| - 1].x, ds[|ds| - 1].y, row, col, w) then 1 else 0)
  }

  /** With a positive exponential and at least one neighbour per
      descriptor, the sum of an average-pooled map counts the descriptors
      in the cell, and the map is empty exactly when none is. */
  lemma {:induction false} AverageCellTotal(ds: seq<SiftUtil.SiftDescriptor>, rows: seq<seq<Neighbor>>,
                                           row: int, col: int, w: real, coding: Coding)
    requires |rows| >= |ds| && coding.pooling.AveragePooling?
    requires forall x :: coding.exp(x) > 0.0
    requires forall d :: 0 <= d < |ds| ==> |rows[d]| >= 1
    ensures Total(CellHistogram(ds, rows, row, col, w, coding)) == InCellCount(ds, row, col, w) as real
    ensures |CellHistogram(ds, rows, row, col, w, coding)| == 0 <==> InCellCount(ds, row, col, w) == 0
    decreases |ds|
  {
    if |ds| > 0 {
      var n := |ds| - 1;
      AverageCellTotal(ds[..n], rows, row, col, w, coding);
      if InCell(ds[n].x, ds[n].y, row, col, w) {
        var ws := SoftWeights(rows[n], coding.beta, coding.exp);
        SoftWeightsNormalised(rows[n], coding.beta, coding.exp);
        CellHistogramAscending(ds[..n], rows, row, col, w, coding);
        AddCodeTotal(CellHistogram(ds[..n], rows, row, col, w, coding), rows[n], ws);
      }
    }
  }

  lemma {:induction false} TotalNormalised(h: seq<SparseValue>, s: real)
    requires s != 0.0
    ensures Total(Normalised(h, s)) == Total(h) / s
    decreases |h|
  {
    if |h| > 0 {
      assert Normalised(h, s)[..|h| - 1] == Normalised(h[..|h| - 1], s);
      TotalNormalised(h[..|h| - 1], s);
    }
  }

  /** Average pooling: a cell with at least one descriptor emits entries
      summing to 1; a cell without any emits none. */
  lemma AverageCellSumsToOne(ds: seq<SiftUtil.SiftDescriptor>, rows: seq<seq<Neighbor>>, level: nat,
                             row: int, col: int, coding: Coding)
    requires |rows| >= |ds| && coding.pooling.AveragePooling?
    requires forall x :: coding.exp(x) > 0.0
    requires forall d :: 0 <= d < |ds| ==> |rows[d]| >= 1
    ensures InCellCount(ds, row, col, CellWidth(level)) == 0 ==> CellCode(ds, rows, level, row, col, coding) == []
    ensures InCellCount(ds, row, col, CellWidth(level)) > 0 ==> Total(CellCode(ds, rows, level, row, col, coding)) == 1.0
  {
    var h := CellHistogram(ds, rows, row, col, CellWidth(level), coding);
    AverageCellTotal(ds, rows, row, col, CellWidth(level), coding);
    var count := InCellCount(ds, row, col, CellWidth(level));
    if count > 0 {
      TotalNormalised(h, Total(h));
      DivSelf(Total(h));
    }
  }

  lemma {:induction false} AddCodeMax(h: seq<SparseValue>, ns: seq<Neighbor>, ws: seq<real>)
    requires |ws| == |ns| && UnitValues(h)
    requires forall i :: 0 <= i < |ws| ==> 0.0 < ws[i] <= 1.0
    ensures UnitValues(AddCode(h, ns, ws, MaxPooling))
    decreases |ns|
  {
    if |ns| > 0 {
      var n := |ns| - 1;
      var prev := AddCode(h, ns[..n], ws[..n], MaxPooling);
      AddCodeMax(h, ns[..n], ws[..n]);
      ValueAtUnit(prev, ns[n].index);
      var v := Larger(ValueAt(prev, ns[n].index), ws[n]);
      AddCodeLast(h, ns, ws, MaxPooling);
      PutEntries(prev, ns[n].index, v);
    }
  }

  /** Max pooling: with a positive exponential every bin a cell emits
      holds the largest weight it was given, a value in (0, 1]. */
  lemma {:induction false} MaxCellUnit(ds: seq<SiftUtil.SiftDescriptor>, rows: seq<seq<Neighbor>>,
                                      row: int, col: int, w: real, coding: Coding)
    requires |rows| >= |ds| && coding.pooling.MaxPooling?
    requires forall x :: coding.exp(x) > 0.0
    ensures UnitValues(CellHistogram(ds, rows, row, col, w, coding))
    decreases |ds|
  {
    if |ds| > 0 {
      var n := |ds| - 1;
      MaxCellUnit(ds[..n], rows, row, col, w, coding);
      if InCell(ds[n].x, ds[n].y, row, col, w) && |rows[n]| > 0 {
        SoftWeightsNormalised(rows[n], coding.beta, coding.exp);
        AddCodeMax(CellHistogram(ds[..n], rows, row, col, w, coding), rows[n],
                   SoftWeights(rows[n], coding.beta, coding.exp));
      }
    }
  }

  /** Without neighbours (k == 0) no cell receives an entry. */
  lemma {:induction false} NoNeighboursNoEntries(ds: seq<SiftUtil.SiftDescriptor>, rows: seq<seq<Neighbor>>,
                                                row: int, col: int, w: real, coding: Coding)
    requires |rows| >= |ds|
    requires forall d :: 0 <= d < |ds| ==> |rows[d]| == 0
    ensures CellHistogram(ds, rows, row, col, w, coding) == []
    decreases |ds|
  {
    if |ds| > 0 {
      NoNeighboursNoEntries(ds[..|ds| - 1], rows, row, col, w, coding);
    }
  }

  /** With a positive exponential, an average-pooled map with entries has
      a non-zero sum, so dividing by it is defined. */
  lemma AverageSumNonZero(ds: seq<SiftUtil.SiftDescriptor>, rows: seq<seq<Neighbor>>, row: int, col: int,
                          w: real, coding: Coding, k: nat)
    requires |rows| >= |ds| && coding.pooling.AveragePooling?
    requires forall x :: coding.exp(x) > 0.0
    requires forall d :: 0 <= d < |ds| ==> |rows[d]| == k
    ensures |CellHistogram(ds, rows, row, col, w, coding)| > 0 ==> Total(CellHistogram(ds, rows, row, col, w, coding)) >= 1.0
  {
    if k == 0 {
      NoNeighboursNoEntries(ds, rows, row, col, w, coding);
    } else {
      AverageCellTotal(ds, rows, row, col, w, coding);
    }
  }

  // ---------------------------------------------------------------------
  // The pyramid.

  /** The entries of cell (row, col) of a level after the first n
      dictionaries: each dictionary's cell code, its keys offset by the
      sizes of the dictionaries before it, concatenated in order. */
  function CellEntries(ds: seq<SiftUtil.SiftDescriptor>, searches: seq<seq<seq<Neighbor>>>, sizes: seq<nat>,
                       n: nat, level: nat, row: int, col: int, coding: Coding): seq<SparseValue>
    requires n <= |searches| && n <= |sizes|
    requires forall j :: 0 <= j < |searches| ==> |searches[j]| >= |ds|
  {
    if n == 0 then []
    else
      CellEntries(ds, searches, sizes, n - 1, level, row, col, coding) +
      Shift(CellCode(ds, searches[n - 1], level, row, col, coding), Offset(sizes, n - 1))
  }

  /** Level l of a pyramid holds, in histogram row * 2^l + col, the
      entries of cell (row, col) after n dictionaries, with the given dense
      length. */
  predicate LevelHolds(lev: PyramidLevel, level: nat, ds: seq<SiftUtil.SiftDescriptor>,
                       searches: seq<seq<seq<Neighbor>>>, sizes: seq<nat>, n: nat, coding: Coding, length: int)
    requires n <= |searches| && n <= |sizes|
    requires forall j :: 0 <= j < |searches| ==> |searches[j]| >= |ds|
  {
    var g := Pow2(level);
    lev.rows == g && lev.columns == g && |lev.histograms| == g * g &&
    forall c :: 0 <= c < |lev.histograms| ==>
      lev.histograms[c] == SparseVector(CellEntries(ds, searches, sizes, n, level, c / g, c % g, coding), length)
  }

  /** The pyramid after coding the first n dictionaries: numLevels levels
      (none when numLevels <= 0), every cell holding CellEntries and the
      summed dictionary size as its dense length. */
  predicate Coded(p: SpatialPyramid, ds: seq<SiftUtil.SiftDescriptor>, searches: seq<seq<seq<Neighbor>>>,
                  sizes: seq<nat>, n: nat, numLevels: int, coding: Coding)
    requires n <= |searches| && n <= |sizes|
    requires forall j :: 0 <= j < |searches| ==> |searches[j]| >= |ds|
  {
    |p.levels| == (if numLevels <= 0 then 0 else numLevels) &&
    forall l :: 0 <= l < |p.levels| ==>
      LevelHolds(p.levels[l], l, ds, searches, sizes, n, coding, Offset(sizes, |sizes|))
  }

  /** Before any dictionary is coded, and for an empty descriptor set after
      all of them, the pyramid is the bare geometry. */
  lemma GeometryCoded(ds: seq<SiftUtil.SiftDescriptor>, searches: seq<seq<seq<Neighbor>>>, sizes: seq<nat>,
                      n: nat, numLevels: int, coding: Coding)
    requires n <= |searches| && n <= |sizes|
    requires forall j :: 0 <= j < |searches| ==> |searches[j]| >= |ds|
    requires n == 0 || |ds| == 0
    ensures Coded(Geometry(numLevels, Offset(sizes, |sizes|)), ds, searches, sizes, n, numLevels, coding)
  {
    forall l, row, col | 0 <= l
      ensures CellEntries(ds, searches, sizes, n, l, row, col, coding) == []
    {
      EmptyCellEntries(ds, searches, sizes, n, l, row, col, coding);
    }
  }

  lemma {:induction false} EmptyCellEntries(ds: seq<SiftUtil.SiftDescriptor>, searches: seq<seq<seq<Neighbor>>>,
                                           sizes: seq<nat>, n: nat, level: nat, row: int, col: int, coding: Coding)
    requires n <= |searches| && n <= |sizes|
    requires forall j :: 0 <= j < |searches| ==> |searches[j]| >= |ds|
    requires n == 0 || |ds| == 0
    ensures CellEntries(ds, searches, sizes, n, level, row, col, coding) == []
  {
    if n > 0 {
      EmptyCellEntries(ds, searches, sizes, n - 1, level, row, col, coding);
    }
  }

  /** A cell code keeps the map's keys: ascending, and codewords of the
      dictionary. */
  lemma CellCodeWellIndexed(ds: seq<SiftUtil.SiftDescriptor>, rows: seq<seq<Neighbor>>, level: nat,
                            row: int, col: int, coding: Coding, size: int)
    requires |rows| >= |ds| && CodewordsBelow(rows, size)
    ensures Ascending(CellCode(ds, rows, level, row, col, coding))
    ensures KeysBelow(CellCode(ds, rows, level, row, col, coding), size)
  {
    CellHistogramAscending(ds, rows, row, col, CellWidth(level), coding);
    CellHistogramKeys(ds, rows, row, col, CellWidth(level), coding, size);
  }

  lemma {:induction false} OffsetMonotone(sizes: seq<nat>, m: nat, n: nat)
    requires m <= n <= |sizes|
    ensures Offset(sizes, m) <= Offset(sizes, n)
    decreases n - m
  {
    if m < n {
      OffsetMonotone(sizes, m, n - 1);
    }
  }

  /** The entries of a cell after n dictionaries are in ascending key
      order, and dictionary j's keys lie in [Offset(j), Offset(j + 1)):
      the dictionaries' histograms sit side by side. */
  lemma {:induction false} CellEntriesWellIndexed(ds: seq<SiftUtil.SiftDescriptor>, searches: seq<seq<seq<Neighbor>>>,
                                                 sizes: seq<nat>, n: nat, level: nat, row: int, col: int,
                                                 coding: Coding)
    requires n <= |searches| && n <= |sizes|
    requires forall j :: 0 <= j < |searches| ==> |searches[j]| >= |ds|
    requires forall j :: 0 <= j < n ==> CodewordsBelow(searches[j], sizes[j])
    ensures Ascending(CellEntries(ds, searches, sizes, n, level, row, col, coding))
    ensures KeysBelow(CellEntries(ds, searches, sizes, n, level, row, col, coding), Offset(sizes, n))
    decreases n
  {
    if n > 0 {
      CellEntriesWellIndexed(ds, searches, sizes, n - 1, level, row, col, coding);
      var u: seq<SparseValue> := CellEntries(ds, searches, sizes, n - 1, level, row, col, coding);
      var code := CellCode(ds, searches[n - 1], level, row, col, coding);
      CellCodeWellIndexed(ds, searches[n - 1], level, row, col, coding, sizes[n - 1]);
      var t: seq<SparseValue> := Shift(code, Offset(sizes, n - 1));
      assert CellEntries(ds, searches, sizes, n, level, row, col, coding) == u + t;
      forall p: int, q: int | 0 <= p < q < |u + t|
        ensures (u + t)[p].index < (u + t)[q].index
      {
        if q < |u| {
        } else if p < |u| {
          assert (u + t)[p].index < Offset(sizes, n - 1);
        } else {
          assert (u + t)[p] == t[p - |u|] && (u + t)[q] == t[q - |u|];
        }
      }
    }
  }

  /** A coded pyramid is well formed: level l is a 2^l x 2^l grid of 4^l
      histograms, each recording the summed dictionary size, with its
      entries ascending and inside that length. */
  lemma CodedWellFormed(p: SpatialPyramid, ds: seq<SiftUtil.SiftDescriptor>, searches: seq<seq<seq<Neighbor>>>,
                        sizes: seq<nat>, numLevels: int, coding: Coding)
    requires |searches| == |sizes|
    requires forall j :: 0 <= j < |searches| ==> |searches[j]| >= |ds| && CodewordsBelow(searches[j], sizes[j])
    requires Coded(p, ds, searches, sizes, |sizes|, numLevels, coding)
    ensures GridsMatch(p) && LengthsRecorded(p)
    ensures forall l :: 0 <= l < |p.levels| ==>
      p.levels[l].rows == Pow2(l) && p.levels[l].columns == Pow2(l) &&
      |p.levels[l].histograms| == Pow4(l) && WellIndexed(p.levels[l].histograms)
  {
    forall l | 0 <= l < |p.levels|
      ensures |p.levels[l].histograms| == Pow4(l) && WellIndexed(p.levels[l].histograms)
    {
      GridCells(l);
      var g := Pow2(l);
      forall c | 0 <= c < |p.levels[l].histograms|
        ensures Ascending(p.levels[l].histograms[c].values)
        ensures KeysBelow(p.levels[l].histograms[c].values, Offset(sizes, |sizes|))
      {
        CellEntriesWellIndexed(ds, searches, sizes, |sizes|, l, c / g, c % g, coding);
      }
    }
  }

  // ---------------------------------------------------------------------
  // Coding one cell.

  /** The weights of one descriptor: the Gaussian weight of each
      neighbour, summed into the normaliser, then divided by it unless it
      is 0. */
  method SoftAssign(ns: seq<Neighbor>, beta: real, exp: real -> real) returns (accumulations: seq<real>)
    ensures accumulations == SoftWeights(ns, beta, exp)
  {
    ghost var raw := RawWeights(ns, beta, exp);
    var softAssignmentNormalizer := 0.0;
    accumulations := [];
    for i := 0 to |ns|
      invariant accumulations == RawWeights(ns[..i], beta, exp)
      invariant softAssignmentNormalizer == Sum(accumulations)
    {
      assert ns[..i + 1][..i] == ns[..i];
      var weight := Weight(ns[i], beta, exp);
      assert ns[..i + 1][i] == ns[i];
      accumulations := accumulations + [weight];
      softAssignmentNormalizer := softAssignmentNormalizer + weight;
    }
    assert ns[..|ns|] == ns;
    for i := 0 to |ns|
      invariant |accumulations| == |ns|
      invariant forall j :: 0 <= j < i ==> accumulations[j] == SoftWeights(ns, beta, exp)[j]
      invariant forall j :: i <= j < |ns| ==> accumulations[j] == raw[j]
    {
      if softAssignmentNormalizer != 0.0 {
        accumulations := accumulations[i := accumulations[i] / softAssignmentNormalizer];
      }
    }
  }

  /** The weights pooled into the map, neighbour by neighbour. */
  method Accumulate(h: seq<SparseValue>, ns: seq<Neighbor>, accumulations: seq<real>, pooling: PoolingStrategy)
    returns (sparseHistogram: seq<SparseValue>)
    requires |accumulations| == |ns|
    ensures sparseHistogram == AddCode(h, ns, accumulations, pooling)
  {
    sparseHistogram := h;
    for i := 0 to |ns|
      invariant sparseHistogram == AddCode(h, ns[..i], accumulations[..i], pooling)
    {
      assert ns[..i + 1][..i] == ns[..i] && accumulations[..i + 1][..i] == accumulations[..i];
      var bin := ns[i].index;
      if pooling == AveragePooling {
        sparseHistogram := Put(sparseHistogram, bin, ValueAt(sparseHistogram, bin) + accumulations[i]);
      } else if pooling == MaxPooling {
        sparseHistogram := Put(sparseHistogram, bin, Larger(ValueAt(sparseHistogram, bin), accumulations[i]));
      }
    }
    assert ns[..|ns|] == ns && accumulations[..|ns|] == accumulations;
  }

  /** Average pooling's last step: the values are summed in key order and
      each is divided by the sum. The sum of a map with entries is not 0. */
  method NormaliseSum(h: seq<SparseValue>) returns (r: seq<SparseValue>)
    requires |h| > 0 ==> Total(h) != 0.0
    ensures r == Finish(h, AveragePooling)
  {
    var histogramSum := 0.0;
    for i := 0 to |h|
      invariant histogramSum == Total(h[..i])
    {
      assert h[..i + 1][..i] == h[..i];
      histogramSum := histogramSum + h[i].value;
    }
    assert h[..|h|] == h;
    r := h;
    for i := 0 to |h|
      invariant |r| == |h|
      invariant forall j :: 0 <= j < i ==> r[j] == Normalised(h, histogramSum)[j]
      invariant forall j :: i <= j < |h| ==> r[j] == h[j]
    {
      r := r[i := SparseValue(r[i].index, r[i].value / histogramSum)];
    }
  }

  /** The entries of one cell: every descriptor inside it pooled with its
      soft weights, then for average pooling normalised. Every neighbour
      list has the same length k. */
  method CodeCell(ds: seq<SiftUtil.SiftDescriptor>, rows: seq<seq<Neighbor>>, row: int, col: int, gridWidth: real,
                  coding: Coding, ghost k: nat)
    returns (entries: seq<SparseValue>)
    requires |rows| >= |ds|
    requires forall d :: 0 <= d < |ds| ==> |rows[d]| == k
    requires forall x :: coding.exp(x) > 0.0
    ensures entries == Finish(CellHistogram(ds, rows, row, col, gridWidth, coding), coding.pooling)
  {
    var sparseHistogram: seq<SparseValue> := [];
    for d := 0 to |ds|
      invariant sparseHistogram == CellHistogram(ds[..d], rows, row, col, gridWidth, coding)
    {
      assert ds[..d + 1][..d] == ds[..d];
      var x := ds[d].x;
      var y := ds[d].y;
      if x >= col as real * gridWidth && x < (col + 1) as real * gridWidth &&
         y >= row as real * gridWidth && y < (row + 1) as real * gridWidth {
        var accumulations := SoftAssign(rows[d], coding.beta, coding.exp);
        sparseHistogram := Accumulate(sparseHistogram, rows[d], accumulations, coding.pooling);
      }
    }
    assert ds[..|ds|] == ds;
    entries := sparseHistogram;
    if coding.pooling == AveragePooling {
      AverageSumNonZero(ds, rows, row, col, gridWidth, coding, k);
      entries := NormaliseSum(sparseHistogram);
    }
  }

  // ---------------------------------------------------------------------
  // Coding one level and one dictionary.

  /** Cell (row, col) of a g-wide grid sits at histogram row * g + col, and
      that position gives the row and column back. */
  lemma RowMajor(row: int, col: int, g: int)
    requires 0 <= row && 0 <= col < g
    ensures 0 <= row * g + col
    ensures (row * g + col) / g == row && (row * g + col) % g == col
  {
    DivModUnique(row * g + col, g, row, col);
  }

  lemma RowMajorBound(row: int, col: int, g: int)
    requires 0 <= row < g && 0 <= col < g
    ensures row * g + col < g * g
  {
    assert row * g <= (g - 1) * g;
  }

  /** One level for one dictionary: for each cell in row-major order, the
      cell's entries with their keys moved up by the offset are appended
      to the histogram at row * g + col; every histogram keeps its length. */
  method CodeLevel(hs: seq<SparseVector>, ds: seq<SiftUtil.SiftDescriptor>, rows: seq<seq<Neighbor>>,
                   level: nat, gridSize: nat, gridWidth: real, offset: int, coding: Coding, ghost k: nat)
    returns (updated: seq<SparseVector>)
    requires gridSize == Pow2(level) && gridWidth == CellWidth(level)
    requires |hs| == gridSize * gridSize
    requires |rows| >= |ds| && forall d :: 0 <= d < |ds| ==> |rows[d]| == k
    requires forall x :: coding.exp(x) > 0.0
    ensures |updated| == |hs|
    ensures forall c :: 0 <= c < |hs| ==>
      updated[c] == hs[c].(values := hs[c].values +
                                     Shift(CellCode(ds, rows, level, c / gridSize, c % gridSize, coding), offset))
  {
    var g := gridSize;
    Pow2Positive(level);
    updated := hs;
    for row := 0 to g
      invariant CodedUpTo(updated, hs, row * g, ds, rows, level, g, coding, offset)
    {
      updated := CodeRow(hs, updated, ds, rows, level, g, gridWidth, offset, coding, k, row);
    }
  }

  /** The first n cells of a level, in row-major order, hold their codes
      moved up by the offset; the others are as they were. */
  predicate CodedUpTo(updated: seq<SparseVector>, hs: seq<SparseVector>, n: int, ds: seq<SiftUtil.SiftDescriptor>,
                      rows: seq<seq<Neighbor>>, level: nat, g: nat, coding: Coding, offset: int)
    requires g > 0 && |rows| >= |ds|
  {
    |updated| == |hs| && 0 <= n <= |hs| &&
    (forall c :: 0 <= c < n ==>
      updated[c] == hs[c].(values := hs[c].values + Shift(CellCode(ds, rows, level, c / g, c % g, coding), offset))) &&
    (forall c :: n <= c < |hs| ==> updated[c] == hs[c])
  }

  /** One row of cells of a level, column by column. */
  method CodeRow(hs: seq<SparseVector>, updated: seq<SparseVector>, ds: seq<SiftUtil.SiftDescriptor>,
                 rows: seq<seq<Neighbor>>, level: nat, g: nat, gridWidth: real, offset: int, coding: Coding,
                 ghost k: nat, row: nat)
    returns (updated': seq<SparseVector>)
    requires g == Pow2(level) && gridWidth == CellWidth(level) && |hs| == g * g && row < g
    requires |rows| >= |ds| && forall d :: 0 <= d < |ds| ==> |rows[d]| == k
    requires forall x :: coding.exp(x) > 0.0
    requires CodedUpTo(updated, hs, row * g, ds, rows, level, g, coding, offset)
    ensures CodedUpTo(updated', hs, (row + 1) * g, ds, rows, level, g, coding, offset)
  {
    RowMajorBound(row, g - 1, g);
    updated' := updated;
    for col := 0 to g
      invariant CodedUpTo(updated', hs, row * g + col, ds, rows, level, g, coding, offset)
    {
      RowMajor(row, col, g);
      RowMajorBound(row, col, g);
      var index := row * g + col;
      var entries := CodeCell(ds, rows, row, col, gridWidth, coding, k);
      assert updated'[index] == hs[index];
      var values := AppendShifted(updated'[index].values, entries, offset);
      CodedStep(updated', hs, index, ds, rows, level, g, coding, offset, hs[index].(values := values));
      updated' := updated'[index := updated'[index].(values := values)];
    }
    assert row * g + g == (row + 1) * g;
  }

  lemma CodedStep(updated: seq<SparseVector>, hs: seq<SparseVector>, n: int, ds: seq<SiftUtil.SiftDescriptor>,
                  rows: seq<seq<Neighbor>>, level: nat, g: nat, coding: Coding, offset: int, cell: SparseVector)
    requires g > 0 && |rows| >= |ds|
    requires CodedUpTo(updated, hs, n, ds, rows, level, g, coding, offset) && n < |hs|
    requires cell == hs[n].(values := hs[n].values + Shift(CellCode(ds, rows, level, n / g, n % g, coding), offset))
    ensures CodedUpTo(updated[n := cell], hs, n + 1, ds, rows, level, g, coding, offset)
  {
  }

  /** The levels of the pyramid for dictionary n: the grid starts one cell
      wide and doubles while the cell width halves, and every level's
      cells gain dictionary n's codes at the dictionary's offset. Coded
      after n dictionaries becomes coded after n + 1. */
  method CodeDictionary(p: SpatialPyramid, ds: seq<SiftUtil.SiftDescriptor>, searches: seq<seq<seq<Neighbor>>>,
                        sizes: seq<nat>, n: nat, numLevels: int, coding: Coding, ghost k: nat)
    returns (q: SpatialPyramid)
    requires n < |searches| && n < |sizes|
    requires forall j :: 0 <= j < |searches| ==> |searches[j]| >= |ds|
    requires forall d :: 0 <= d < |ds| ==> |searches[n][d]| == k
    requires forall x :: coding.exp(x) > 0.0
    requires Coded(p, ds, searches, sizes, n, numLevels, coding)
    ensures Coded(q, ds, searches, sizes, n + 1, numLevels, coding)
  {
    var offset := Offset(sizes, n);
    var levels := p.levels;
    var gridSize := 1;
    var gridWidth := 1.0;
    for levelId := 0 to |p.levels|
      invariant gridSize == Pow2(levelId) && gridWidth == CellWidth(levelId)
      invariant |levels| == |p.levels|
      invariant forall l :: 0 <= l < levelId ==> LevelHolds(levels[l], l, ds, searches, sizes, n + 1, coding, Offset(sizes, |sizes|))
      invariant forall l :: levelId <= l < |levels| ==> levels[l] == p.levels[l]
    {
      var level := levels[levelId];
      assert LevelHolds(level, levelId, ds, searches, sizes, n, coding, Offset(sizes, |sizes|));
      var hs := CodeLevel(level.histograms, ds, searches[n], levelId, gridSize, gridWidth, offset, coding, k);
      levels := levels[levelId := level.(histograms := hs)];
      CellWidthHalves(levelId);
      gridSize := gridSize * 2;
      gridWidth := gridWidth / 2.0;
    }
    q := SpatialPyramid(levels);
  }

  /** The query for one dictionary: each descriptor's bins, followed by
      its location scaled by 127 and the weighting when the weighting is
      positive. Over descriptors of one width every row has the query's
      width. */
  method BuildQuery(ds: seq<SiftUtil.SiftDescriptor>, locationWeighting: real)
    returns (query: seq<seq<real>>, dimensions: nat)
    requires |ds| > 0 && Codebooks.OneWidth(ds)
    ensures dimensions == |ds[0].bins| + (if locationWeighting > 0.0 then 2 else 0)
    ensures |query| == |ds|
    ensures forall i :: 0 <= i < |ds| ==> query[i] == Codebooks.Row(ds[i], locationWeighting)
    ensures forall i :: 0 <= i < |ds| ==> |query[i]| == dimensions
  {
    dimensions := |ds[0].bins|;
    if locationWeighting > 0.0 {
      dimensions := dimensions + 2;
    }
    query := [];
    for i := 0 to |ds|
      invariant |query| == i
      invariant forall j :: 0 <= j < i ==> query[j] == Codebooks.Row(ds[j], locationWeighting)
    {
      var row: seq<real> := [];
      for j := 0 to |ds[i].bins|
        invariant |row| == j && forall b :: 0 <= b < j ==> row[b] == ds[i].bins[b] as real
      {
        row := row + [ds[i].bins[j] as real];
      }
      if locationWeighting > 0.0 {
        row := row + [ds[i].x * 127.0 * locationWeighting, ds[i].y * 127.0 * locationWeighting];
      }
      ghost var expected := Codebooks.Row(ds[i], locationWeighting);
      assert forall b :: 0 <= b < |row| ==> row[b] == expected[b];
      query := query + [row];
    }
  }

  /** The number of neighbours asked of a dictionary: k, but no more than
      its size. */
  function CappedK(k: int, size: int): (r: int)
    ensures r <= k && r <= size && (r == k || r == size)
  {
    if k < size then k else size
  }

  /** Shifting keys by 0 changes nothing. */
  lemma ShiftZero(v: seq<SparseValue>)
    ensures Shift(v, 0) == v
  {
    assert forall i :: 0 <= i < |v| ==> Shift(v, 0)[i] == v[i];
  }

  /** The position of the first dictionary without centroids, or the count
      when every dictionary has some. */
  function FirstEmpty(dictionaries: seq<Dictionary>): (f: nat)
    ensures f <= |dictionaries|
    ensures forall j :: 0 <= j < f ==> |dictionaries[j].centroids| > 0
    ensures f < |dictionaries| ==> |dictionaries[f].centroids| == 0
  {
    if |dictionaries| == 0 then 0
    else
      var f := FirstEmpty(dictionaries[..|dictionaries| - 1]);
      if f < |dictionaries| - 1 || |dictionaries[|dictionaries| - 1].centroids| == 0 then f else |dictionaries|
  }

  class SpatialPyramidBuilder {
    /** dictionary_data_: each dictionary's centroids once its index is
        built, None for a slot Init left unset. */
    var dictionaryData: seq<Option<seq<seq<real>>>>
    var locationWeightings: seq<real>
    /** beta_: the weight decay of the soft assignment. */
    var beta: real
    var numThreads: int

    /** Every slot holds a dictionary and has its location weighting. */
    predicate Ready()
      reads this
    {
      |locationWeightings| == |dictionaryData| && forall j :: 0 <= j < |dictionaryData| ==> dictionaryData[j].Some?
    }

    /** The number of codewords of each dictionary. */
    function Sizes(): (sizes: seq<nat>)
      reads this
      requires Ready()
      ensures |sizes| == |dictionaryData|
      ensures forall j :: 0 <= j < |sizes| ==> sizes[j] == |dictionaryData[j].value|
    {
      seq(|dictionaryData|, j requires 0 <= j < |dictionaryData| && dictionaryData[j].Some? reads this =>
            |dictionaryData[j].value|)
    }

    /** A new builder has no dictionary and a weight decay of 10. */
    constructor()
      ensures dictionaryData == [] && locationWeightings == [] && beta == 10.0
    {
      dictionaryData := [];
      locationWeightings := [];
      beta := 10.0;
    }

    /** Keeps the thread count, then refuses an empty list without touching
        the data. Otherwise the old data is dropped, one slot is made per
        dictionary, and the dictionaries are loaded in order until the
        first one without centroids, which makes Init fail; the slots from
        there on stay unset with weighting 0. */
    method Init(dictionaries: seq<Dictionary>, numThreads: int) returns (ok: bool)
      modifies this
      ensures this.numThreads == numThreads && beta == old(beta)
      ensures ok <==> |dictionaries| > 0 && FirstEmpty(dictionaries) == |dictionaries|
      ensures |dictionaries| == 0 ==>
        dictionaryData == old(dictionaryData) && locationWeightings == old(locationWeightings)
      ensures |dictionaries| > 0 ==>
        |dictionaryData| == |dictionaries| && |locationWeightings| == |dictionaries| &&
        forall j :: 0 <= j < |dictionaries| ==>
          dictionaryData[j] == (if j < FirstEmpty(dictionaries) then Some(dictionaries[j].centroids) else None) &&
          locationWeightings[j] == (if j < FirstEmpty(dictionaries) then dictionaries[j].locationWeighting else 0.0)
      ensures ok ==> Ready() && Sizes() == seq(|dictionaries|, j requires 0 <= j < |dictionaries| => |dictionaries[j].centroids|)
    {
      this.numThreads := numThreads;
      if |dictionaries| == 0 {
        return false;
      }
      dictionaryData := seq(|dictionaries|, _ => None);
      locationWeightings := seq(|dictionaries|, _ => 0.0);
      ghost var f := FirstEmpty(dictionaries);
      for dictionaryId := 0 to |dictionaries|
        invariant dictionaryId <= f
        invariant this.numThreads == numThreads && beta == old(beta)
        invariant |dictionaryData| == |dictionaries| && |locationWeightings| == |dictionaries|
        invariant forall j :: 0 <= j < |dictionaries| ==>
          dictionaryData[j] == (if j < dictionaryId then Some(dictionaries[j].centroids) else None) &&
          locationWeightings[j] == (if j < dictionaryId then dictionaries[j].locationWeighting else 0.0)
      {
        if |dictionaries[dictionaryId].centroids| == 0 {
          return false;
        }
        InitADictionary(dictionaries, dictionaryId);
      }
      ok := true;
    }

    /** One dictionary's slot: its weighting and its centroids. */
    method InitADictionary(dictionaries: seq<Dictionary>, dictionaryId: nat)
      requires dictionaryId < |dictionaries| == |dictionaryData| == |locationWeightings|
      modifies this
      ensures dictionaryData == old(dictionaryData)[dictionaryId := Some(dictionaries[dictionaryId].centroids)]
      ensures locationWeightings == old(locationWeightings)[dictionaryId := dictionaries[dictionaryId].locationWeighting]
      ensures beta == old(beta) && numThreads == old(numThreads)
    {
      locationWeightings := locationWeightings[dictionaryId := dictionaries[dictionaryId].locationWeighting];
      dictionaryData := dictionaryData[dictionaryId := Some(dictionaries[dictionaryId].centroids)];
    }

    /** The coding BuildPyramid and BuildSingleLevel apply. */
    function CodingOf(poolingStrategy: PoolingStrategy, exp: real -> real): (c: Coding)
      reads this
      ensures c.beta == beta && c.exp == exp && c.pooling == poolingStrategy
    {
      Coding(beta, exp, poolingStrategy)
    }

    /** Fatal without dictionaries. Otherwise the pyramid has numLevels
        levels (none for numLevels <= 0), level l a 2^l x 2^l grid, and
        every cell holds, dictionary after dictionary, that dictionary's
        cell code with its keys offset by the sizes before it; every
        histogram records the summed dictionary size. Without descriptors
        k is never read; with descriptors a negative k sizes the neighbour
        matrices negatively, and their allocation throws. searches[j][d] is
        dictionary j's answer for descriptor d: min(k, size) neighbours. */
    method BuildPyramid(descriptors: seq<SiftUtil.SiftDescriptor>, numLevels: int, k: int,
                        poolingStrategy: PoolingStrategy, exp: real -> real, searches: seq<seq<seq<Neighbor>>>)
      returns (result: Result<SpatialPyramid>)
      requires Ready() && Codebooks.OneWidth(descriptors)
      requires forall x :: exp(x) > 0.0
      requires |searches| == |dictionaryData|
      requires forall j :: 0 <= j < |searches| ==>
        |searches[j]| == |descriptors| &&
        (k >= 0 ==> forall d :: 0 <= d < |descriptors| ==>
          WellFormedNeighbors(searches[j][d], CappedK(k, |dictionaryData[j].value|), |dictionaryData[j].value|))
      ensures result.Fatal? <==> |dictionaryData| == 0 || (|descriptors| > 0 && k < 0)
      ensures result.Ok? ==>
        Coded(result.value, descriptors, searches, Sizes(), |Sizes()|, numLevels, CodingOf(poolingStrategy, exp))
    {
      if |dictionaryData| == 0 {
        return Fatal("CHECK_GT(dictionary_data_.size(), 0)");
      }
      var sizes := Sizes();
      var coding := CodingOf(poolingStrategy, exp);

      var totalHistogramDimensions := 0;
      for dictionaryId := 0 to |dictionaryData|
        invariant totalHistogramDimensions == Offset(sizes, dictionaryId)
      {
        totalHistogramDimensions := totalHistogramDimensions + |dictionaryData[dictionaryId].value|;
      }
      var pyramid := LayOut(numLevels, totalHistogramDimensions);
      GeometryCoded(descriptors, searches, sizes, 0, numLevels, coding);
      if |descriptors| == 0 {
        GeometryCoded(descriptors, searches, sizes, |sizes|, numLevels, coding);
        return Ok(pyramid);
      }
      if k < 0 {
        return Fatal("new int[query.rows * capped_k] throws for a negative k");
      }

      for dictionaryId := 0 to |dictionaryData|
        invariant Coded(pyramid, descriptors, searches, sizes, dictionaryId, numLevels, coding)
      {
        var cappedK := CappedK(k, |dictionaryData[dictionaryId].value|);
        var query, dimensions := BuildQuery(descriptors, locationWeightings[dictionaryId]);
        pyramid := CodeDictionary(pyramid, descriptors, searches, sizes, dictionaryId, numLevels, coding, cappedK);
      }
      result := Ok(pyramid);
    }

    /** Fatal unless there is exactly one dictionary. Otherwise a single
        level: the 2^level x 2^level grid, every cell holding its cell
        code with the dictionary's own keys, no recorded length.
        A negative k is never read without descriptors, and with them the
        negatively sized neighbour matrices throw on allocation.
        rows[d] is the dictionary's answer for descriptor d: min(k, size)
        neighbours. */
    method BuildSingleLevel(descriptors: seq<SiftUtil.SiftDescriptor>, level: nat, k: int,
                            poolingStrategy: PoolingStrategy, exp: real -> real, rows: seq<seq<Neighbor>>)
      returns (result: Result<SpatialPyramid>)
      requires |dictionaryData| == 1 ==> Ready()
      requires Codebooks.OneWidth(descriptors)
      requires forall x :: exp(x) > 0.0
      requires |dictionaryData| == 1 ==>
        |rows| == |descriptors| &&
        (k >= 0 ==> forall d :: 0 <= d < |descriptors| ==>
          WellFormedNeighbors(rows[d], CappedK(k, |dictionaryData[0].value|), |dictionaryData[0].value|))
      ensures result.Fatal? <==> |dictionaryData| != 1 || (|descriptors| > 0 && k < 0)
      ensures result.Ok? ==>
        |rows| == |descriptors| && |result.value.levels| == 1 &&
        LevelHolds(result.value.levels[0], level, descriptors, [rows], Sizes(), 1, CodingOf(poolingStrategy, exp),
                   UnsetLength)
    {
      if |dictionaryData| != 1 {
        return Fatal("Single level pyramids other than level 0 are not implemented for multiple dictionaries.");
      }
      var cappedK := k;
      if k > |dictionaryData[0].value| {
        cappedK := |dictionaryData[0].value|;
      }
      var coding := CodingOf(poolingStrategy, exp);
      var gridSize := Pow2(level);
      var empty := EmptyLevel(gridSize, UnsetLength);
      if |descriptors| == 0 {
        EmptySingleLevel(empty, level, descriptors, rows, Sizes(), coding);
        return Ok(SpatialPyramid([empty]));
      }
      if k < 0 {
        return Fatal("new int[query.rows * k] throws for a negative k");
      }
      var query, dimensions := BuildQuery(descriptors, locationWeightings[0]);
      var hs := CodeLevel(empty.histograms, descriptors, rows, level, gridSize, CellWidth(level), 0, coding, cappedK);
      SingleLevelHolds(PyramidLevel(gridSize, gridSize, hs), level, descriptors, rows, Sizes(), coding);
      result := Ok(SpatialPyramid([PyramidLevel(gridSize, gridSize, hs)]));
    }
  }

  /** A level whose cell c holds the cell code of (c / g, c % g) with
      keys moved by 0 and no recorded length is what a single dictionary
      gives. */
  lemma SingleLevelHolds(lev: PyramidLevel, level: nat, ds: seq<SiftUtil.SiftDescriptor>, rows: seq<seq<Neighbor>>,
                         sizes: seq<nat>, coding: Coding)
    requires |sizes| >= 1 && |rows| >= |ds|
    requires lev.rows == Pow2(level) && lev.columns == Pow2(level) && |lev.histograms| == Pow2(level) * Pow2(level)
    requires forall c :: 0 <= c < |lev.histograms| ==>
      lev.histograms[c] == SparseVector([], UnsetLength).(values := [] +
        Shift(CellCode(ds, rows, level, c / Pow2(level), c % Pow2(level), coding), 0))
    ensures LevelHolds(lev, level, ds, [rows], sizes, 1, coding, UnsetLength)
  {
    var g := Pow2(level);
    forall c | 0 <= c < |lev.histograms|
      ensures lev.histograms[c] == SparseVector(CellEntries(ds, [rows], sizes, 1, level, c / g, c % g, coding), UnsetLength)
    {
      var code := CellCode(ds, rows, level, c / g, c % g, coding);
      ShiftZero(code);
      assert [] + Shift(code, 0) == code;
      assert CellEntries(ds, [rows], sizes, 1, level, c / g, c % g, coding) == [] + Shift(code, Offset(sizes, 0));
    }
  }

  /** Without descriptors the single level is the bare grid. */
  lemma EmptySingleLevel(lev: PyramidLevel, level: nat, ds: seq<SiftUtil.SiftDescriptor>, rows: seq<seq<Neighbor>>,
                         sizes: seq<nat>, coding: Coding)
    requires |sizes| >= 1 && |ds| == 0
    requires lev == EmptyLevel(Pow2(level), UnsetLength)
    ensures LevelHolds(lev, level, ds, [rows], sizes, 1, coding, UnsetLength)
  {
    var g := Pow2(level);
    forall c | 0 <= c < |lev.histograms|
      ensures lev.histograms[c] == SparseVector(CellEntries(ds, [rows], sizes, 1, level, c / g, c % g, coding), UnsetLength)
    {
      EmptyCellEntries(ds, [rows], sizes, 1, level, c / g, c % g, coding);
    }
  }

  /** The empty pyramid of the given geometry, level by level and cell by
      cell, every histogram recording the given length. */
  method LayOut(numLevels: int, length: int) returns (p: SpatialPyramid)
    ensures p == Geometry(numLevels, length)
  {
    var levels: seq<PyramidLevel> := [];
    var gridSize := 1;
    for i := 0 to (if numLevels <= 0 then 0 else numLevels)
      invariant gridSize == Pow2(i)
      invariant |levels| == i
      invariant forall l :: 0 <= l < i ==> levels[l] == EmptyLevel(Pow2(l), length)
    {
      var histograms: seq<SparseVector> := [];
      for c := 0 to gridSize * gridSize
        invariant histograms == seq(c, _ => SparseVector([], length))
      {
        histograms := histograms + [SparseVector([], length)];
      }
      levels := levels + [PyramidLevel(gridSize, gridSize, histograms)];
      gridSize := gridSize * 2;
    }
    p := SpatialPyramid(levels);
  }
}
