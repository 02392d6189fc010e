/** Dense real matrices as sequences of rows, with the numpy operations the
    clustering pipeline applies to them: `np.sum(m, 0)`, `np.diag(v)`,
    element-wise subtraction and `np.dot`. */
module Matrices {
  import opened Sums

  type Matrix = seq<seq<real>>

  /** `m` has `rows` rows of `cols` entries each. */
  predicate IsMatrix(m: Matrix, rows: nat, cols: nat)
  {
    |m| == rows && forall i :: 0 <= i < rows ==> |m[i]| == cols
  }

  predicate IsSquare(m: Matrix)
  {
    IsMatrix(m, |m|, |m|)
  }

  predicate Symmetric(m: Matrix)
    requires IsSquare(m)
  {
    forall i, j :: 0 <= i < |m| && 0 <= j < |m| ==> m[i][j] == m[j][i]
  }

  /** Column `j` of `m`, top to bottom. */
  function Column(m: Matrix, j: nat): seq<real>
    requires forall i :: 0 <= i < |m| ==> j < |m[i]|
  {
    seq(|m|, i requires 0 <= i < |m| => m[i][j])
  }

  /** `np.sum(m, 0)`: one sum per column. */
  function ColumnSums(m: Matrix, cols: nat): (r: seq<real>)
    requires IsMatrix(m, |m|, cols)
    ensures |r| == cols
  {
    seq(cols, j requires 0 <= j < cols => Sum(Column(m, j)))
  }

  /** `np.diag(v)`: the square matrix with `v` on its diagonal. */
  function Diag(v: seq<real>): (r: Matrix)
    ensures IsSquare(r) && |r| == |v|
  {
    seq(|v|, i requires 0 <= i < |v| =>
      seq(|v|, j requires 0 <= j < |v| => if i == j then v[i] else 0.0))
  }

  /** Element-wise `a - b` of two matrices of one shape. */
  function Difference(a: Matrix, b: Matrix): (r: Matrix)
    requires |a| == |b| && forall i :: 0 <= i < |a| ==> |a[i]| == |b[i]|
    ensures |r| == |a| && forall i :: 0 <= i < |a| ==> |r[i]| == |a[i]|
  {
    seq(|a|, i requires 0 <= i < |a| => Minus(a[i], b[i]))
  }

  /** `np.dot(a, b)` where `b` has `cols` columns. */
  function Dot(a: Matrix, b: Matrix, cols: nat): (r: Matrix)
    requires IsMatrix(a, |a|, |b|) && IsMatrix(b, |b|, cols)
    ensures IsMatrix(r, |a|, cols)
  {
    seq(|a|, i requires 0 <= i < |a| =>
      seq(cols, j requires 0 <= j < cols =>
        Sum(seq(|b|, k requires 0 <= k < |b| => a[i][k] * b[k][j]))))
  }

  /** Summing a diagonal matrix along axis 0 gives back its diagonal. */
  lemma DiagColumnSums(v: seq<real>)
    ensures ColumnSums(Diag(v), |v|) == v
  {
    forall j | 0 <= j < |v|
      ensures ColumnSums(Diag(v), |v|)[j] == v[j]
    {
      SumSingleEntry(Column(Diag(v), j), j);
    }
  }

  /** Row `i` of a diagonal matrix sums to its diagonal entry. */
  lemma DiagRowSum(v: seq<real>, i: int)
    requires 0 <= i < |v|
    ensures Sum(Diag(v)[i]) == v[i]
  {
    SumSingleEntry(Diag(v)[i], i);
  }

  /** Multiplying by `np.diag(v)` on the left scales row `i` by `v[i]`. */
  lemma DotDiagScalesRows(v: seq<real>, m: Matrix, cols: nat)
    requires IsMatrix(m, |v|, cols)
    ensures forall i :: 0 <= i < |v| ==> Dot(Diag(v), m, cols)[i] == Scale(v[i], m[i])
  {
    forall i | 0 <= i < |v|
      ensures Dot(Diag(v), m, cols)[i] == Scale(v[i], m[i])
    {
      forall j | 0 <= j < cols
        ensures Dot(Diag(v), m, cols)[i][j] == Scale(v[i], m[i])[j]
      {
        var terms := seq(|m|, k requires 0 <= k < |m| => Diag(v)[i][k] * m[k][j]);
        assert forall k :: 0 <= k < |m| && k != i ==> Diag(v)[i][k] == 0.0;
        SumSingleEntry(terms, i);
      }
    }
  }

  /** Column `j` of a difference is the difference of the columns. */
  lemma ColumnOfDifference(a: Matrix, b: Matrix, n: nat, j: nat)
    requires IsMatrix(a, n, n) && IsMatrix(b, n, n) && j < n
    ensures Column(Difference(a, b), j) == Minus(Column(a, j), Column(b, j))
  {
  }
}
