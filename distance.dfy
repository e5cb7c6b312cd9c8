/** The distance matrix of the scenario reduction.

    The matrix is kept as an N x N table indexed by original scenario label.
    The source narrows its data frame by dropping the row and column of each
    chosen scenario; here the narrowing is carried by the active label
    sequence of the selection, and the rows and columns of dropped labels are
    left in place but never read again. */
module Distance {
  import opened Labels

  type Matrix = seq<seq<real>>

  function Abs(x: real): (r: real)
    ensures r >= 0.0 && (r == x || r == -x)
  {
    if x < 0.0 then -x else x
  }

  /** Element-wise minimum, as numpy's minimum applies it to two entries. */
  function Min(a: real, b: real): (r: real)
    ensures r <= a && r <= b && (r == a || r == b)
  {
    if a <= b then a else b
  }

  ghost predicate Square(d: Matrix, n: nat)
  {
    |d| == n && forall j :: 0 <= j < n ==> |d[j]| == n
  }

  ghost predicate NonNegative(d: Matrix)
    requires Square(d, |d|)
  {
    forall j, k :: 0 <= j < |d| && 0 <= k < |d| ==> d[j][k] >= 0.0
  }

  ghost predicate ZeroDiagonal(d: Matrix)
    requires Square(d, |d|)
  {
    forall j :: 0 <= j < |d| ==> d[j][j] == 0.0
  }

  ghost predicate Symmetric(d: Matrix)
    requires Square(d, |d|)
  {
    forall j, k :: 0 <= j < |d| && 0 <= k < |d| ==> d[j][k] == d[k][j]
  }

  /** The initial matrix: entry (i, j) is the absolute cost difference of
      scenarios i and j. */
  function Build(costs: seq<real>): (d: Matrix)
    ensures Square(d, |costs|)
  {
    seq(|costs|, i requires 0 <= i < |costs| =>
      seq(|costs|, j requires 0 <= j < |costs| => Abs(costs[i] - costs[j])))
  }

  /** The built matrix measures cost distance: it is non-negative, has a zero
      diagonal, is symmetric and obeys the triangle inequality. */
  lemma BuildIsDistance(costs: seq<real>)
    ensures var d := Build(costs);
      && (forall i, j :: 0 <= i < |costs| && 0 <= j < |costs| ==> d[i][j] == Abs(costs[i] - costs[j]))
      && NonNegative(d) && ZeroDiagonal(d) && Symmetric(d)
      && (forall i, j, k :: 0 <= i < |costs| && 0 <= j < |costs| && 0 <= k < |costs| ==>
            d[i][k] <= d[i][j] + d[j][k])
  {
  }

  /** Row j after a reduce step with chosen scenario s: every entry floored
      by the row's own distance to s. */
  function FlooredRow(d: Matrix, j: nat, s: nat): seq<real>
    requires j < |d| && s < |d[j]|
  {
    seq(|d[j]|, k requires 0 <= k < |d[j]| => Min(d[j][k], d[j][s]))
  }

  /** One reduce step: the rows of the surviving labels keep are floored by
      their distance to the scenario s just chosen; the other rows, whose
      labels have been dropped, are left as they were. */
  function ReduceStep(d: Matrix, keep: seq<nat>, s: nat): (r: Matrix)
    requires Square(d, |d|) && s < |d|
    ensures Square(r, |d|)
  {
    seq(|d|, j requires 0 <= j < |d| => if j in keep then FlooredRow(d, j, s) else d[j])
  }

  /** A reduce step never raises an entry; on a surviving row every entry
      becomes the smaller of itself and the row's distance to s; dropped
      rows are untouched. */
  lemma ReduceStepFloors(d: Matrix, keep: seq<nat>, s: nat)
    requires Square(d, |d|) && s < |d|
    ensures var r := ReduceStep(d, keep, s);
      && (forall j, k :: 0 <= j < |d| && 0 <= k < |d| ==> r[j][k] <= d[j][k])
      && (forall j, k :: 0 <= j < |d| && 0 <= k < |d| && j in keep ==>
            r[j][k] <= d[j][s] && (r[j][k] == d[j][k] || r[j][k] == d[j][s]))
      && (forall j :: 0 <= j < |d| && j !in keep ==> r[j] == d[j])
  {
  }

  /** A reduce step keeps the entries non-negative and the diagonal zero. */
  lemma ReduceStepKeepsDistanceShape(d: Matrix, keep: seq<nat>, s: nat)
    requires Square(d, |d|) && s < |d|
    requires NonNegative(d) && ZeroDiagonal(d)
    ensures NonNegative(ReduceStep(d, keep, s)) && ZeroDiagonal(ReduceStep(d, keep, s))
  {
  }

  /** After one reduce step the matrix is in general no longer symmetric:
      for costs 0, 1, 2, 10 and chosen scenario 1, entry (2, 3) is floored to
      |2 - 1| while entry (3, 2) stays |10 - 2|. */
  lemma ReduceStepBreaksSymmetry()
    ensures var d := ReduceStep(Build([0.0, 1.0, 2.0, 10.0]), [0, 2, 3], 1);
      d[2][3] == 1.0 && d[3][2] == 8.0 && !Symmetric(d)
  {
    var b := Build([0.0, 1.0, 2.0, 10.0]);
    assert b[2][3] == 8.0 && b[2][1] == 1.0;
    assert b[3][2] == 8.0 && b[3][1] == 9.0;
    var d := ReduceStep(b, [0, 2, 3], 1);
    assert d[2] == FlooredRow(b, 2, 1);
    assert d[3] == FlooredRow(b, 3, 1);
  }
}
