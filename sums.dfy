/**
 Sums over rows, columns and whole matrices of exact real numbers. A matrix is
 a sequence of rows; `Grid` reads the top-left `n`-by-`n` block of a
 two-dimensional array as such a value.
 */
module Sums {

  /** The sum of the elements of `s`, added from left to right. */
  function Sum(s: seq<real>): real
    decreases |s|
  {
    if s == [] then 0.0 else Sum(s[..|s| - 1]) + s[|s| - 1]
  }

  function Zeros(n: nat): (z: seq<real>)
    ensures |z| == n && forall c :: 0 <= c < n ==> z[c] == 0.0
  {
    seq(n, c => 0.0)
  }

  /** Elementwise sum of two rows of the same length. */
  function AddRows(a: seq<real>, b: seq<real>): (r: seq<real>)
    requires |a| == |b|
    ensures |r| == |a| && forall c :: 0 <= c < |a| ==> r[c] == a[c] + b[c]
  {
    seq(|a|, c requires 0 <= c < |a| => a[c] + b[c])
  }

  lemma {:induction false} SumZeros(n: nat)
    ensures Sum(Zeros(n)) == 0.0
    decreases n
  {
    if n > 0 {
      assert Zeros(n)[..n - 1] == Zeros(n - 1);
      SumZeros(n - 1);
    }
  }

  /** The sum of an elementwise sum is the sum of the sums. */
  lemma {:induction false} SumAddRows(a: seq<real>, b: seq<real>)
    requires |a| == |b|
    ensures Sum(AddRows(a, b)) == Sum(a) + Sum(b)
    decreases |a|
  {
    if a != [] {
      var k := |a| - 1;
      assert AddRows(a, b)[..k] == AddRows(a[..k], b[..k]);
      SumAddRows(a[..k], b[..k]);
    }
  }

  /** Every row of `m` has exactly `n` cells. */
  ghost predicate Rectangular(m: seq<seq<real>>, n: nat)
  {
    forall r :: 0 <= r < |m| ==> |m[r]| == n
  }

  /** `m` has `n` rows of `n` cells. */
  ghost predicate IsSquare(m: seq<seq<real>>, n: nat)
  {
    |m| == n && Rectangular(m, n)
  }

  function RowSum(m: seq<seq<real>>, r: nat): real
    requires r < |m|
  {
    Sum(m[r])
  }

  function Column(m: seq<seq<real>>, c: nat): (col: seq<real>)
    requires forall r :: 0 <= r < |m| ==> c < |m[r]|
    ensures |col| == |m| && forall r :: 0 <= r < |m| ==> col[r] == m[r][c]
  {
    seq(|m|, r requires 0 <= r < |m| => m[r][c])
  }

  function ColumnSum(m: seq<seq<real>>, c: nat): real
    requires forall r :: 0 <= r < |m| ==> c < |m[r]|
  {
    Sum(Column(m, c))
  }

  function RowSums(m: seq<seq<real>>): (sums: seq<real>)
    ensures |sums| == |m| && forall r :: 0 <= r < |m| ==> sums[r] == Sum(m[r])
  {
    seq(|m|, r requires 0 <= r < |m| => Sum(m[r]))
  }

  /** The sum of every cell of `m`. */
  function Total(m: seq<seq<real>>): real
  {
    Sum(RowSums(m))
  }

  /** The top-left `n`-by-`n` block of `a`, row by row. */
  function Grid(a: array2<real>, n: nat): (m: seq<seq<real>>)
    requires n <= a.Length0 && n <= a.Length1
    reads a
    ensures IsSquare(m, n)
    ensures forall r, c :: 0 <= r < n && 0 <= c < n ==> m[r][c] == a[r, c]
  {
    seq(n, r requires 0 <= r < n reads a => seq(n, c requires 0 <= c < n reads a => a[r, c]))
  }
}
