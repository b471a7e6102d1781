/**
 `calculate_accuracy_values` of src/analyze_sam.py (lines 130-146): for every
 dataset index `k` the cells of the confusion matrix are filed as true or false
 positives or negatives relative to the diagonal cell `(k, k)`.

 `ClassSum` files the first rows of a matrix cell by cell, as the source's
 triple loop does; the lemmas restate the four totals as row, column and
 matrix sums, and `CalculateAccuracyValues` is the loop, proved against them.
 */
module Accuracy {
  import opened Sums

  /** How a cell counts for one dataset index. */
  datatype Class = TruePositive | FalsePositive | FalseNegative | TrueNegative

  /**
   How the `if`-chain at lines 139-144 files cell `(row, column)` for index `k`.
   The diagonal cell falls through every branch; the source reads it on its
   own as the true positives (line 134).
   */
  function Classify(k: nat, row: nat, column: nat): Class
  {
    if column == k && row != k then FalsePositive
    else if row == k && column != k then FalseNegative
    else if row != k then TrueNegative
    else TruePositive
  }

  /** One line of the accuracy output, `[pivot, tp, tn, fp, fn]` (line 145). */
  datatype Score = Score(dataset: nat, tp: real, tn: real, fp: real, fn: real)

  /** The first `n` rows of `g` have at least `n` cells each. */
  ghost predicate Covers(g: seq<seq<real>>, n: nat)
  {
    n <= |g| && forall r :: 0 <= r < n ==> n <= |g[r]|
  }

  /** The cells `g[r][0 .. m-1]` filed as `cls` for index `k`, added in column order. */
  function CellSum(g: seq<seq<real>>, k: nat, cls: Class, r: nat, m: nat): real
    requires r < |g| && m <= |g[r]|
    decreases m
  {
    if m == 0 then 0.0
    else CellSum(g, k, cls, r, m - 1) + (if Classify(k, r, m - 1) == cls then g[r][m - 1] else 0.0)
  }

  /** The cells of rows `0 .. m-1` and columns `0 .. n-1` filed as `cls`, added row by row. */
  function ClassSum(g: seq<seq<real>>, n: nat, k: nat, cls: Class, m: nat): real
    requires Covers(g, n) && m <= n
    decreases m
  {
    if m == 0 then 0.0
    else ClassSum(g, n, k, cls, m - 1) + CellSum(g, k, cls, m - 1, n)
  }

  /** The scores of dataset `k` for the top-left `n`-by-`n` block of `g`. */
  function ScoreOf(g: seq<seq<real>>, n: nat, k: nat): Score
    requires Covers(g, n) && k < n
  {
    Score(k, g[k][k], ClassSum(g, n, k, TrueNegative, n), ClassSum(g, n, k, FalsePositive, n), ClassSum(g, n, k, FalseNegative, n))
  }

  /** Cell `(r, k)` if it lies among the first `m` columns. */
  function Diagonal(g: seq<seq<real>>, r: nat, k: nat, m: nat): real
    requires r < |g| && m <= |g[r]|
  {
    if k < m then g[r][k] else 0.0
  }

  /** A sum over one more element of a prefix. */
  lemma SumPrefixNext(s: seq<real>, m: nat)
    requires m < |s|
    ensures Sum(s[..m + 1]) == Sum(s[..m]) + s[m]
  {
    assert s[..m + 1][..m] == s[..m];
  }

  /**
   Within one row, the column `k` cell is the false positive of every other
   row, and the rest of the row holds its true negatives; row `k` holds the
   true positive at column `k` and false negatives elsewhere.
   */
  lemma {:induction false} RowClasses(g: seq<seq<real>>, k: nat, r: nat, m: nat)
    requires r < |g| && m <= |g[r]|
    ensures CellSum(g, k, TruePositive, r, m) == if r == k then Diagonal(g, r, k, m) else 0.0
    ensures CellSum(g, k, FalsePositive, r, m) == if r != k then Diagonal(g, r, k, m) else 0.0
    ensures CellSum(g, k, FalseNegative, r, m) == if r == k then Sum(g[r][..m]) - Diagonal(g, r, k, m) else 0.0
    ensures CellSum(g, k, TrueNegative, r, m) == if r != k then Sum(g[r][..m]) - Diagonal(g, r, k, m) else 0.0
    decreases m
  {
    if m > 0 {
      RowClasses(g, k, r, m - 1);
      SumPrefixNext(g[r], m - 1);
    }
  }

  /** A whole row of an `n`-column matrix is its prefix of length `n`. */
  lemma FullRow(g: seq<seq<real>>, r: nat, n: nat)
    requires r < |g| && |g[r]| == n
    ensures Sum(g[r][..n]) == Sum(g[r])
  {
    assert g[r][..n] == g[r];
  }

  /** Over the first `m` rows the true positive is the diagonal cell, once reached. */
  lemma {:induction false} BlockTruePositives(g: seq<seq<real>>, n: nat, k: nat, m: nat)
    requires IsSquare(g, n) && m <= n
    ensures ClassSum(g, n, k, TruePositive, m) == (if k < m then g[k][k] else 0.0)
    decreases m
  {
    if m > 0 {
      BlockTruePositives(g, n, k, m - 1);
      RowClasses(g, k, m - 1, n);
    }
  }

  /** Over the first `m` rows the false positives are column `k` without the diagonal cell. */
  lemma {:induction false} BlockFalsePositives(g: seq<seq<real>>, n: nat, k: nat, m: nat)
    requires IsSquare(g, n) && k < n && m <= n
    ensures ClassSum(g, n, k, FalsePositive, m) == Sum(Column(g, k)[..m]) - (if k < m then g[k][k] else 0.0)
    decreases m
  {
    if m > 0 {
      BlockFalsePositives(g, n, k, m - 1);
      RowClasses(g, k, m - 1, n);
      SumPrefixNext(Column(g, k), m - 1);
    }
  }

  /** Over the first `m` rows the false negatives are row `k` without the diagonal cell, once reached. */
  lemma {:induction false} BlockFalseNegatives(g: seq<seq<real>>, n: nat, k: nat, m: nat)
    requires IsSquare(g, n) && k < n && m <= n
    ensures ClassSum(g, n, k, FalseNegative, m) == (if k < m then Sum(g[k]) - g[k][k] else 0.0)
    decreases m
  {
    if m > 0 {
      BlockFalseNegatives(g, n, k, m - 1);
      RowClasses(g, k, m - 1, n);
      FullRow(g, m - 1, n);
    }
  }

  /**
   Over the first `m` rows the true negatives are every cell outside row `k`
   and column `k`.
   */
  lemma {:induction false} BlockTrueNegatives(g: seq<seq<real>>, n: nat, k: nat, m: nat)
    requires IsSquare(g, n) && k < n && m <= n
    ensures ClassSum(g, n, k, TrueNegative, m) ==
              Sum(RowSums(g)[..m]) - Sum(Column(g, k)[..m]) + (if k < m then g[k][k] - Sum(g[k]) else 0.0)
    decreases m
  {
    if m > 0 {
      var r := m - 1;
      BlockTrueNegatives(g, n, k, r);
      RowClasses(g, k, r, n);
      FullRow(g, r, n);
      SumPrefixNext(Column(g, k), r);
      SumPrefixNext(RowSums(g), r);
      assert CellSum(g, k, TrueNegative, r, n) == if r != k then RowSums(g)[r] - Column(g, k)[r] else 0.0;
    }
  }

  /**
   The four scores of dataset `k` (lines 133-144): the diagonal cell, the
   rest of column `k`, the rest of row `k`, and everything else; together
   they count every cell of the matrix exactly once.
   */
  lemma ScoreSums(g: seq<seq<real>>, n: nat, k: nat)
    requires IsSquare(g, n) && k < n
    ensures Covers(g, n)
    ensures ScoreOf(g, n, k).dataset == k
    ensures ScoreOf(g, n, k).tp == g[k][k]
    ensures ScoreOf(g, n, k).fp == ColumnSum(g, k) - g[k][k]
    ensures ScoreOf(g, n, k).fn == RowSum(g, k) - g[k][k]
    ensures ScoreOf(g, n, k).tn == Total(g) - RowSum(g, k) - ColumnSum(g, k) + g[k][k]
    ensures ScoreOf(g, n, k).tp + ScoreOf(g, n, k).tn + ScoreOf(g, n, k).fp + ScoreOf(g, n, k).fn == Total(g)
  {
    BlockTruePositives(g, n, k, n);
    BlockFalsePositives(g, n, k, n);
    BlockFalseNegatives(g, n, k, n);
    BlockTrueNegatives(g, n, k, n);
    assert Column(g, k)[..n] == Column(g, k);
    assert RowSums(g)[..n] == RowSums(g);
  }

  /**
   The accuracy values of the top-left `n`-by-`n` block of the matrix, one
   per dataset index in ascending order (lines 130-146).
   */
  method CalculateAccuracyValues(confusion: array2<real>, n: nat) returns (accuracies: seq<Score>)
    requires n <= confusion.Length0 && n <= confusion.Length1
    ensures |accuracies| == n
    ensures forall k :: 0 <= k < n ==> accuracies[k] == ScoreOf(Grid(confusion, n), n, k)
  {
    ghost var g := Grid(confusion, n);
    accuracies := [];
    var pivot := 0;
    while pivot < n
      invariant 0 <= pivot <= n
      invariant |accuracies| == pivot
      invariant forall k :: 0 <= k < pivot ==> accuracies[k] == ScoreOf(g, n, k)
    {
      var tp := confusion[pivot, pivot];
      var fp, fn, tn := 0.0, 0.0, 0.0;
      var row := 0;
      while row < n
        invariant 0 <= row <= n
        invariant fp == ClassSum(g, n, pivot, FalsePositive, row)
        invariant fn == ClassSum(g, n, pivot, FalseNegative, row)
        invariant tn == ClassSum(g, n, pivot, TrueNegative, row)
      {
        var column := 0;
        while column < n
          invariant 0 <= column <= n
          invariant fp == ClassSum(g, n, pivot, FalsePositive, row) + CellSum(g, pivot, FalsePositive, row, column)
          invariant fn == ClassSum(g, n, pivot, FalseNegative, row) + CellSum(g, pivot, FalseNegative, row, column)
          invariant tn == ClassSum(g, n, pivot, TrueNegative, row) + CellSum(g, pivot, TrueNegative, row, column)
        {
          var curr := confusion[row, column];
          if column == pivot && row != pivot {
            fp := fp + curr;
          } else if row == pivot && column != pivot {
            fn := fn + curr;
          } else if row != pivot {
            tn := tn + curr;
          }
          column := column + 1;
        }
        row := row + 1;
      }
      accuracies := accuracies + [Score(pivot, tp, tn, fp, fn)];
      pivot := pivot + 1;
    }
  }
}
