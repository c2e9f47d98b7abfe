/** Feature and score vectors, and numpy's elementwise mean (`np.mean(rows, axis=0)`). */
module Vectors {

  /** A feature vector or a similarity vector; float32 is modelled as `real`. */
  type Vector = seq<real>

  /** Every row has the length of the first one: `np.mean` over a ragged list raises. */
  predicate Uniform(vs: seq<Vector>)
  {
    forall k :: 0 <= k < |vs| ==> |vs[k]| == |vs[0]|
  }

  /** The sum of column `j` over all rows. */
  function ColumnSum(vs: seq<Vector>, j: nat): real
    requires forall k :: 0 <= k < |vs| ==> j < |vs[k]|
    decreases |vs|
  {
    if vs == [] then 0.0 else ColumnSum(vs[..|vs| - 1], j) + vs[|vs| - 1][j]
  }

  /** The elementwise arithmetic mean of a non-empty list of equally long rows. */
  function Mean(vs: seq<Vector>): (m: Vector)
    requires vs != [] && Uniform(vs)
    ensures |m| == |vs[0]|
  {
    seq(|vs[0]|, j requires 0 <= j < |vs[0]| => ColumnSum(vs, j) / (|vs| as real))
  }

  lemma {:induction false} ColumnSumBounds(vs: seq<Vector>, j: nat, lo: real, hi: real)
    requires forall k :: 0 <= k < |vs| ==> j < |vs[k]| && lo <= vs[k][j] <= hi
    ensures (|vs| as real) * lo <= ColumnSum(vs, j) <= (|vs| as real) * hi
    decreases |vs|
  {
    if vs != [] {
      ColumnSumBounds(vs[..|vs| - 1], j, lo, hi);
    }
  }

  /** Each entry of the mean lies within any bounds that hold for every row's entry. */
  lemma MeanBounds(vs: seq<Vector>, lo: real, hi: real)
    requires vs != [] && Uniform(vs)
    requires forall k, j :: 0 <= k < |vs| && 0 <= j < |vs[k]| ==> lo <= vs[k][j] <= hi
    ensures forall j :: 0 <= j < |Mean(vs)| ==> lo <= Mean(vs)[j] <= hi
  {
    var n := |vs| as real;
    forall j | 0 <= j < |Mean(vs)|
      ensures lo <= Mean(vs)[j] <= hi
    {
      ColumnSumBounds(vs, j, lo, hi);
      var s := ColumnSum(vs, j);
      assert Mean(vs)[j] == s / n;
      assert (s / n) * n == s;
    }
  }

  lemma {:induction false} ColumnSumOfCopies(v: Vector, k: nat, j: nat)
    requires j < |v|
    ensures ColumnSum(seq(k, _ => v), j) == (k as real) * v[j]
  {
    if k > 0 {
      var vs := seq(k, _ => v);
      assert vs[..k - 1] == seq(k - 1, _ => v);
      ColumnSumOfCopies(v, k - 1, j);
    }
  }

  /** Averaging k > 0 copies of one vector gives that vector back. */
  lemma MeanOfCopies(v: Vector, k: nat)
    requires k > 0
    ensures Mean(seq(k, _ => v)) == v
  {
    var vs := seq(k, _ => v);
    forall j | 0 <= j < |v|
      ensures Mean(vs)[j] == v[j]
    {
      ColumnSumOfCopies(v, k, j);
    }
  }
}
