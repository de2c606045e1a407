/** All shortest distances in a matrix of travel times, in place. */
module FloydWarshall {
  import opened Integers
  import opened Time

  const MAX_DISTANCE: nat := 0x7FFF_FFFF

  type Matrix = seq<seq<nat>>

  ghost predicate Square(w: Matrix, n: nat) {
    |w| == n && forall i :: 0 <= i < n ==> |w[i]| == n
  }

  ghost predicate Bounded(w: Matrix, n: nat) {
    Square(w, n) && forall i, j :: 0 <= i < n && 0 <= j < n ==> w[i][j] <= INVALID_TIME
  }

  /** The values of a two-dimensional array. */
  function Rows(mat: array2<nat>): (w: Matrix)
    reads mat
    ensures Square(w, mat.Length0) || mat.Length0 != mat.Length1
    ensures |w| == mat.Length0 && forall i :: 0 <= i < |w| ==> |w[i]| == mat.Length1
    ensures forall i, j :: 0 <= i < mat.Length0 && 0 <= j < mat.Length1 ==> w[i][j] == mat[i, j]
  {
    seq(mat.Length0, i requires 0 <= i < mat.Length0 reads mat =>
      seq(mat.Length1, j requires 0 <= j < mat.Length1 reads mat => mat[i, j]))
  }

  /** The shortest distance from i to j over at least one step, with intermediate nodes below k only. */
  function Distance(w: Matrix, n: nat, k: nat, i: nat, j: nat): nat
    requires Square(w, n) && k <= n && i < n && j < n
    decreases k
  {
    if k == 0 then w[i][j]
    else Min(Distance(w, n, k - 1, i, j), Distance(w, n, k - 1, i, k - 1) + Distance(w, n, k - 1, k - 1, j))
  }

  lemma {:induction false} DistanceBounded(w: Matrix, n: nat, k: nat, i: nat, j: nat)
    requires Bounded(w, n) && k <= n && i < n && j < n
    ensures Distance(w, n, k, i, j) <= INVALID_TIME
    decreases k
  {
    if k > 0 {
      DistanceBounded(w, n, k - 1, i, j);
    }
  }

  /** Allowing node k as an intermediate does not change distances from or to k itself, so the update can work in place. */
  lemma PivotUnchanged(w: Matrix, n: nat, k: nat, i: nat)
    requires Square(w, n) && k < n && i < n
    ensures Distance(w, n, k + 1, i, k) == Distance(w, n, k, i, k)
    ensures Distance(w, n, k + 1, k, i) == Distance(w, n, k, k, i)
  {
  }

  /** The update of one cell. */
  method Relax(mat: array2<nat>, ghost w: Matrix, n: nat, k: nat, i: nat, j: nat)
    requires mat.Length0 == mat.Length1 == n && Bounded(w, n) && k < n && i < n && j < n
    requires mat[i, j] == Distance(w, n, k, i, j)
    requires mat[i, k] == Distance(w, n, k, i, k) && mat[k, j] == Distance(w, n, k, k, j)
    modifies mat
    ensures mat[i, j] == Distance(w, n, k + 1, i, j)
    ensures forall a, b :: 0 <= a < n && 0 <= b < n && (a, b) != (i, j) ==> mat[a, b] == old(mat[a, b])
  {
    DistanceBounded(w, n, k, i, k);
    DistanceBounded(w, n, k, k, j);
    var distance := Min(MAX_DISTANCE, mat[i, k] + mat[k, j]);
    if mat[i, j] > distance {
      mat[i, j] := distance;
    }
  }

  /** Row a of the matrix holds the distances after k rounds, from column `from` to column `to`. */
  ghost predicate RowAt(mat: array2<nat>, w: Matrix, n: nat, k: nat, a: nat, from: nat, to: nat)
    requires mat.Length0 == mat.Length1 == n && Square(w, n) && k <= n && a < n && to <= n
    reads mat
  {
    forall b :: from <= b < to ==> mat[a, b] == Distance(w, n, k, a, b)
  }

  method RelaxRow(mat: array2<nat>, ghost w: Matrix, n: nat, k: nat, i: nat)
    requires mat.Length0 == mat.Length1 == n && Bounded(w, n) && k < n && i < n
    requires RowAt(mat, w, n, k, i, 0, n)
    requires forall b :: 0 <= b < n ==> mat[k, b] == Distance(w, n, k, k, b)
    modifies mat
    ensures RowAt(mat, w, n, k + 1, i, 0, n)
    ensures forall a, b :: 0 <= a < n && 0 <= b < n && a != i ==> mat[a, b] == old(mat[a, b])
  {
    for j := 0 to n
      invariant RowAt(mat, w, n, k + 1, i, 0, j) && RowAt(mat, w, n, k, i, j, n)
      invariant forall a, b :: 0 <= a < n && 0 <= b < n && a != i ==> mat[a, b] == old(mat[a, b])
    {
      PivotUnchanged(w, n, k, i);
      PivotUnchanged(w, n, k, j);
      Relax(mat, w, n, k, i, j);
    }
  }

  ghost predicate RowsAt(mat: array2<nat>, w: Matrix, n: nat, k: nat, from: nat, to: nat)
    requires mat.Length0 == mat.Length1 == n && Square(w, n) && k <= n && to <= n
    reads mat
  {
    forall a, b :: from <= a < to && 0 <= b < n ==> mat[a, b] == Distance(w, n, k, a, b)
  }

  method FloydWarshall(mat: array2<nat>)
    requires mat.Length0 == mat.Length1 && Bounded(Rows(mat), mat.Length0)
    modifies mat
    ensures forall i, j :: 0 <= i < mat.Length0 && 0 <= j < mat.Length0 ==>
              mat[i, j] == Distance(old(Rows(mat)), mat.Length0, mat.Length0, i, j)
  {
    ghost var w := Rows(mat);
    var n := mat.Length0;
    for k := 0 to n
      invariant RowsAt(mat, w, n, k, 0, n)
    {
      for i := 0 to n
        invariant RowsAt(mat, w, n, k + 1, 0, i) && RowsAt(mat, w, n, k, i, n)
      {
        forall b | 0 <= b < n
          ensures mat[k, b] == Distance(w, n, k, k, b)
        {
          PivotUnchanged(w, n, k, b);
        }
        RelaxRow(mat, w, n, k, i);
      }
    }
  }

  // ----- Distances are shortest walk lengths

  ghost predicate Walk(p: seq<nat>, n: nat, i: nat, j: nat) {
    |p| >= 2 && p[0] == i && p[|p| - 1] == j && forall t :: 0 <= t < |p| ==> p[t] < n
  }

  /** The summed steps of a walk. */
  function Length(w: Matrix, n: nat, p: seq<nat>): nat
    requires Square(w, n) && p != [] && forall t :: 0 <= t < |p| ==> p[t] < n
  {
    if |p| == 1 then 0
    else Length(w, n, p[..|p| - 1]) + w[p[|p| - 2]][p[|p| - 1]]
  }

  lemma {:induction false} LengthSplits(w: Matrix, n: nat, p: seq<nat>, a: nat)
    requires Square(w, n) && a < |p| && forall t :: 0 <= t < |p| ==> p[t] < n
    ensures Length(w, n, p) == Length(w, n, p[..a + 1]) + Length(w, n, p[a..])
    decreases |p|
  {
    if a == |p| - 1 {
      assert p[..a + 1] == p;
    } else {
      var front := p[..|p| - 1];
      LengthSplits(w, n, front, a);
      assert front[..a + 1] == p[..a + 1] && front[a..] == p[a..][..|p| - a - 1];
    }
  }

  /** All nodes strictly inside the walk are below k. */
  ghost predicate InnerBelow(p: seq<nat>, k: nat) {
    forall t :: 0 < t < |p| - 1 ==> p[t] < k
  }

  /** No walk is shorter than the distance. */
  lemma {:induction false} DistanceIsLowerBound(w: Matrix, n: nat, k: nat, p: seq<nat>, i: nat, j: nat)
    requires Square(w, n) && k <= n && i < n && j < n && Walk(p, n, i, j) && InnerBelow(p, k)
    ensures Distance(w, n, k, i, j) <= Length(w, n, p)
    decreases k, |p|
  {
    if k == 0 || |p| == 2 {
      LengthSplits(w, n, p, 0);
      if |p| == 2 {
        DirectStep(w, n, k, p);
      }
    } else if a :| 0 < a < |p| - 1 && p[a] == k - 1 {
      LengthSplits(w, n, p, a);
      DistanceIsLowerBound(w, n, k, p[..a + 1], i, k - 1);
      DistanceIsLowerBound(w, n, k, p[a..], k - 1, j);
      PivotUnchanged(w, n, k - 1, i);
      PivotUnchanged(w, n, k - 1, j);
    } else {
      assert InnerBelow(p, k - 1);
      DistanceIsLowerBound(w, n, k - 1, p, i, j);
    }
  }

  lemma {:induction false} DirectStep(w: Matrix, n: nat, k: nat, p: seq<nat>)
    requires Square(w, n) && k <= n && |p| == 2 && p[0] < n && p[1] < n
    ensures Distance(w, n, k, p[0], p[1]) <= Length(w, n, p)
    decreases k
  {
    if k > 0 {
      DirectStep(w, n, k - 1, p);
    } else {
      assert p[..1] == [p[0]];
    }
  }

  /** Some walk is as short as the distance. */
  lemma {:induction false} DistanceIsAttained(w: Matrix, n: nat, k: nat, i: nat, j: nat) returns (p: seq<nat>)
    requires Square(w, n) && k <= n && i < n && j < n
    ensures Walk(p, n, i, j) && Length(w, n, p) == Distance(w, n, k, i, j)
    decreases k
  {
    if k == 0 {
      p := [i, j];
      assert p[..1] == [i];
    } else if Distance(w, n, k, i, j) == Distance(w, n, k - 1, i, j) {
      p := DistanceIsAttained(w, n, k - 1, i, j);
    } else {
      var a := DistanceIsAttained(w, n, k - 1, i, k - 1);
      var b := DistanceIsAttained(w, n, k - 1, k - 1, j);
      p := a + b[1..];
      assert p[..|a|] == a && p[|a| - 1..] == b;
      LengthSplits(w, n, p, |a| - 1);
    }
  }

  /** The result of the algorithm: the length of a shortest walk of at least one step. */
  lemma DistanceIsShortest(w: Matrix, n: nat, i: nat, j: nat)
    requires Square(w, n) && i < n && j < n
    ensures exists p :: Walk(p, n, i, j) && Length(w, n, p) == Distance(w, n, n, i, j)
    ensures forall p :: Walk(p, n, i, j) ==> Distance(w, n, n, i, j) <= Length(w, n, p)
  {
    var p := DistanceIsAttained(w, n, n, i, j);
    forall q | Walk(q, n, i, j)
      ensures Distance(w, n, n, i, j) <= Length(w, n, q)
    {
      DistanceIsLowerBound(w, n, n, q, i, j);
    }
  }
}
