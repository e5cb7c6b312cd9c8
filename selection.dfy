/** Greedy forward selection of reduced scenarios (unweighted scoring).

    Each round scores every active label by the sum of its column over the
    active rows, picks the first label of minimal score, drops it from the
    active labels and floors the surviving rows by their distance to it.

    Line numbers in the comments refer to notebooks/utils.py. */
module Selection {
  import opened Labels
  import opened Distance

  /** Sum of column k over the given rows. */
  function ColSum(d: Matrix, rows: seq<nat>, k: nat): (r: real)
    requires Square(d, |d|) && InBounds(rows, |d|) && k < |d|
    ensures NonNegative(d) ==> r >= 0.0
  {
    if rows == [] then 0.0 else d[rows[0]][k] + ColSum(d, rows[1..], k)
  }

  /** The score of every active label, in the order of the active labels. */
  function Scores(d: Matrix, active: seq<nat>): (sc: seq<real>)
    requires Square(d, |d|) && InBounds(active, |d|)
    ensures |sc| == |active|
  {
    seq(|active|, t requires 0 <= t < |active| => ColSum(d, active, active[t]))
  }

  /** The first position holding the minimum of xs. */
  function FirstArgmin(xs: seq<real>): (p: nat)
    requires |xs| > 0
    ensures p < |xs|
    ensures forall t :: 0 <= t < |xs| ==> xs[p] <= xs[t]
    ensures forall t :: 0 <= t < p ==> xs[p] < xs[t]
  {
    if |xs| == 1 then 0
    else
      var q := FirstArgmin(xs[1..]) + 1;
      if xs[0] <= xs[q] then 0 else q
  }

  /** The label a round picks: the first active label of minimal score. */
  function Pick(d: Matrix, active: seq<nat>): (s: nat)
    requires Square(d, |d|) && InBounds(active, |d|) && |active| > 0
    ensures s in active
  {
    active[FirstArgmin(Scores(d, active))]
  }

  /** Each round picks the smallest one among the active labels whose column
      sum over the active rows is minimal. */
  lemma PickIsFirstMinimum(d: Matrix, active: seq<nat>)
    requires Square(d, |d|) && InBounds(active, |d|) && Increasing(active) && |active| > 0
    ensures var s := Pick(d, active);
      && (forall k :: k in active ==> ColSum(d, active, s) <= ColSum(d, active, k))
      && (forall k :: k in active && k < s ==> ColSum(d, active, s) < ColSum(d, active, k))
  {
    var sc := Scores(d, active);
    var p := FirstArgmin(sc);
    assert forall t :: 0 <= t < |active| ==> sc[t] == ColSum(d, active, active[t]);
    assert forall t :: 0 <= t < |active| && active[t] < active[p] ==> t < p;
  }

  /** The working state between two rounds: the current matrix, the labels
      still active (its index and its columns) and the picks so far, the last
      of which has not been dropped yet. */
  datatype Frame = Frame(d: Matrix, active: seq<nat>, chosen: seq<nat>)

  ghost predicate Valid(f: Frame)
  {
    && Square(f.d, |f.d|) && InBounds(f.active, |f.d|) && Increasing(f.active)
    && |f.chosen| > 0 && f.chosen[|f.chosen| - 1] in f.active && InBounds(f.chosen, |f.d|)
  }

  /** The state after the first pick (lines 35-52). */
  function First(costs: seq<real>): (f: Frame)
    requires 1 <= |costs|
    ensures Valid(f) && |f.d| == |costs| && |f.active| == |costs| && |f.chosen| == 1
  {
    RangeIsIndex(|costs|);
    var d := Build(costs);
    Frame(d, Range(|costs|), [Pick(d, Range(|costs|))])
  }

  /** One round of the loop (lines 56-81): drop the last pick, floor the
      surviving rows by their distance to it, and pick again. */
  function Step(f: Frame): (g: Frame)
    requires Valid(f) && |f.active| > 1
    ensures Valid(g) && |g.d| == |f.d|
    ensures |g.active| == |f.active| - 1 && |g.chosen| == |f.chosen| + 1
  {
    var s := f.chosen[|f.chosen| - 1];
    var keep := Without(f.active, [s]);
    DropFromIndex(f.active, s, |f.d|);
    var d := ReduceStep(f.d, keep, s);
    Frame(d, keep, f.chosen + [Pick(d, keep)])
  }

  /** The state after the given number of rounds. */
  function Iterate(f: Frame, rounds: nat): (g: Frame)
    requires Valid(f) && rounds < |f.active|
    ensures Valid(g) && |g.d| == |f.d|
    ensures |g.active| == |f.active| - rounds && |g.chosen| == |f.chosen| + rounds
  {
    if rounds == 0 then f else Step(Iterate(f, rounds - 1))
  }

  /** The picks made so far are distinct, and every pick but the last has
      been dropped from the active labels. */
  ghost predicate PicksApart(f: Frame)
  {
    && Distinct(f.chosen)
    && forall t :: 0 <= t < |f.chosen| - 1 ==> f.chosen[t] !in f.active
  }

  /** A round keeps the picks apart: the last pick is dropped before the
      next one is made, so it can never be chosen again. */
  lemma StepKeepsPicksApart(f: Frame)
    requires Valid(f) && |f.active| > 1 && PicksApart(f)
    ensures PicksApart(Step(f))
  {
    var s := f.chosen[|f.chosen| - 1];
    var keep := Without(f.active, [s]);
    var g := Step(f);
    assert g.chosen == f.chosen + [g.chosen[|g.chosen| - 1]];
    forall t | 0 <= t < |g.chosen| - 1 ensures g.chosen[t] !in keep && g.chosen[t] != g.chosen[|g.chosen| - 1] {
      assert g.chosen[t] == f.chosen[t];
    }
  }

  lemma IterateStepKeepsPicksApart(f: Frame, rounds: nat)
    requires Valid(f) && 0 < rounds < |f.active| && PicksApart(Iterate(f, rounds - 1))
    ensures PicksApart(Iterate(f, rounds))
  {
    var g := Iterate(f, rounds - 1);
    StepKeepsPicksApart(g);
    assert Iterate(f, rounds) == Step(g);
  }

  lemma {:induction false} IterateKeepsPicksApart(f: Frame, rounds: nat)
    requires Valid(f) && rounds < |f.active| && PicksApart(f)
    ensures PicksApart(Iterate(f, rounds))
  {
    if rounds > 0 {
      IterateKeepsPicksApart(f, rounds - 1);
      IterateStepKeepsPicksApart(f, rounds);
    }
  }

  /** The number of rounds after the first pick: the source loops
      scenarios - 1 times, which is not at all when scenarios <= 1. */
  function Rounds(scenarios: int): (r: nat)
    ensures r + 1 == if scenarios < 1 then 1 else scenarios
  {
    if scenarios < 1 then 0 else scenarios - 1
  }

  /** The reduced scenarios the source returns for costs and scenarios:
      exactly max(scenarios, 1) distinct labels of the cost list. */
  function ReducedScenarios(costs: seq<real>, scenarios: int): (r: seq<nat>)
    requires 1 <= |costs| && scenarios <= |costs|
    ensures |r| == if scenarios < 1 then 1 else scenarios
    ensures InBounds(r, |costs|) && Distinct(r)
  {
    var f := Iterate(First(costs), Rounds(scenarios));
    IterateKeepsPicksApart(First(costs), Rounds(scenarios));
    f.chosen
  }

  /** Asking for as many scenarios as there are keeps every scenario. */
  lemma AllScenariosKept(costs: seq<real>)
    requires 1 <= |costs|
    ensures forall i: nat :: i < |costs| ==> i in ReducedScenarios(costs, |costs|)
  {
    DistinctFull(ReducedScenarios(costs, |costs|), |costs|);
  }

  /** Lines 62-68 for one round: every surviving row, one after another, is
      floored by its distance to the previous pick s. */
  method FloorRows(nu: Matrix, keep: seq<nat>, s: nat) returns (next: Matrix)
    requires Square(nu, |nu|) && s < |nu|
    ensures next == ReduceStep(nu, keep, s)
  {
    var n := |nu|;
    next := nu;
    var t := 0;
    while t < |keep|
      invariant 0 <= t <= |keep|
      invariant |next| == n
      invariant forall j :: 0 <= j < n ==>
        next[j] == if j in keep[..t] then FlooredRow(nu, j, s) else nu[j]
    {
      var j := keep[t];
      if j < n {
        next := next[j := FlooredRow(nu, j, s)];
      }
      assert keep[..t + 1] == keep[..t] + [j];
      t := t + 1;
    }
    assert keep[..t] == keep;
  }

  /** One round of the loop body (lines 56-79): drop the previous pick, the
      last of chosen, floor the surviving rows by their distance to it and
      pick again. */
  method NextRound(nu: Matrix, active: seq<nat>, chosen: seq<nat>) returns (next: Matrix, keep: seq<nat>, picked: seq<nat>)
    requires Valid(Frame(nu, active, chosen)) && |active| > 1
    ensures Frame(next, keep, picked) == Step(Frame(nu, active, chosen))
  {
    var s := chosen[|chosen| - 1];
    // drop the row and column of the previous pick
    keep := Without(active, [s]);
    DropFromIndex(active, s, |nu|);
    // floor every surviving row by its distance to the previous pick
    next := FloorRows(nu, keep, s);
    // rescore the columns over the surviving rows and pick the first minimum
    var pick := Pick(next, keep);
    picked := chosen + [pick];
  }

  /** The rounds of the selection loop, from the given state on. */
  method RunRounds(d: Matrix, active: seq<nat>, chosen: seq<nat>, rounds: nat) returns (picked: seq<nat>)
    requires Valid(Frame(d, active, chosen)) && rounds < |active|
    ensures picked == Iterate(Frame(d, active, chosen), rounds).chosen
  {
    ghost var start := Frame(d, active, chosen);
    var nu, live := d, active;
    picked := chosen;
    var i := 0;
    while i < rounds
      invariant 0 <= i <= rounds
      invariant Frame(nu, live, picked) == Iterate(start, i)
    {
      nu, live, picked := NextRound(nu, live, picked);
      i := i + 1;
    }
  }

  /** The selection: the first pick from the built matrix, then
      scenarios - 1 rounds of drop, floor, rescore and pick. */
  method GetReducedScenarios(costs: seq<real>, scenarios: int) returns (chosen: seq<nat>)
    requires 1 <= |costs| && scenarios <= |costs|
    ensures chosen == ReducedScenarios(costs, scenarios)
  {
    var n := |costs|;
    RangeIsIndex(n);
    var nu := Build(costs);
    var active := Range(n);
    chosen := [Pick(nu, active)];
    assert Frame(nu, active, chosen) == First(costs);
    chosen := RunRounds(nu, active, chosen, Rounds(scenarios));
  }

  lemma ColSumOf3(d: Matrix, a: nat, b: nat, c: nat, k: nat)
    requires Square(d, |d|) && a < |d| && b < |d| && c < |d| && k < |d|
    ensures ColSum(d, [a, b, c], k) == d[a][k] + d[b][k] + d[c][k]
  {
    assert [a, b, c][1..] == [b, c];
    assert [b, c][1..] == [c];
    assert [c][1..] == [];
    assert ColSum(d, [c], k) == d[c][k];
    assert ColSum(d, [b, c], k) == d[b][k] + d[c][k];
  }

  lemma ColSumOf4(d: Matrix, a: nat, b: nat, c: nat, e: nat, k: nat)
    requires Square(d, |d|) && a < |d| && b < |d| && c < |d| && e < |d| && k < |d|
    ensures ColSum(d, [a, b, c, e], k) == d[a][k] + d[b][k] + d[c][k] + d[e][k]
  {
    assert [a, b, c, e][1..] == [b, c, e];
    ColSumOf3(d, b, c, e, k);
  }

  lemma RangeFour()
    ensures Range(4) == [0, 1, 2, 3]
  {
  }

  ghost predicate AllZero(d: Matrix)
    requires Square(d, |d|)
  {
    forall j, k :: 0 <= j < |d| && 0 <= k < |d| ==> d[j][k] == 0.0
  }

  /** Every column of a zero matrix sums to zero. */
  lemma {:induction false} ColSumZero(d: Matrix, rows: seq<nat>, k: nat)
    requires Square(d, |d|) && InBounds(rows, |d|) && k < |d| && AllZero(d)
    ensures ColSum(d, rows, k) == 0.0
  {
    if rows != [] {
      ColSumZero(d, rows[1..], k);
    }
  }

  /** On a zero matrix every score ties, so the first active label wins. */
  lemma PickZero(d: Matrix, active: seq<nat>)
    requires Square(d, |d|) && InBounds(active, |d|) && |active| > 0 && AllZero(d)
    ensures Pick(d, active) == active[0]
  {
    var sc := Scores(d, active);
    forall t | 0 <= t < |active| ensures sc[t] == 0.0 {
      ColSumZero(d, active, active[t]);
    }
  }

  /** The state after m + 1 picks when all costs are equal: the matrix is
      zero, the picks are the labels 0..m and the active labels are m..n-1. */
  ghost predicate FirstLabelsState(f: Frame)
  {
    && Square(f.d, |f.d|) && AllZero(f.d)
    && |f.chosen| >= 1 && |f.chosen| <= |f.d|
    && f.chosen == Range(|f.chosen|) && f.active == Range(|f.d|)[|f.chosen| - 1..]
  }

  lemma RangeFrom(n: nat, m: nat)
    requires m < n
    ensures Range(n)[m..][0] == m && Range(n)[m..][1..] == Range(n)[m + 1..]
    ensures Increasing(Range(n)[m..]) && InBounds(Range(n)[m..], n)
    ensures Range(m + 1)[m] == m && Range(m + 1) + [m + 1] == Range(m + 2)
  {
  }

  /** Dropping label m from the labels m..n-1 leaves m+1..n-1. */
  lemma DropFirstLabel(n: nat, m: nat)
    requires m < n
    ensures Without(Range(n)[m..], [m]) == Range(n)[m + 1..]
  {
    var a := Range(n)[m..];
    RangeFrom(n, m);
    DistinctOfIncreasing(a);
    DropAt(a, 0);
    assert a[..0] + a[1..] == a[1..];
  }

  /** A reduce step keeps a zero matrix zero. */
  lemma ReduceStepZero(d: Matrix, keep: seq<nat>, s: nat)
    requires Square(d, |d|) && s < |d| && AllZero(d)
    ensures AllZero(ReduceStep(d, keep, s))
  {
    ReduceStepFloors(d, keep, s);
  }

  lemma StepKeepsFirstLabels(f: Frame)
    requires Valid(f) && |f.active| > 1 && FirstLabelsState(f)
    ensures FirstLabelsState(Step(f))
  {
    var n, m := |f.d|, |f.chosen| - 1;
    RangeFrom(n, m);
    RangeFrom(n, m + 1);
    DropFirstLabel(n, m);
    var keep := Range(n)[m + 1..];
    ReduceStepZero(f.d, keep, m);
    PickZero(ReduceStep(f.d, keep, m), keep);
  }

  lemma IterateStepKeepsFirstLabels(f: Frame, rounds: nat)
    requires Valid(f) && 0 < rounds < |f.active| && FirstLabelsState(Iterate(f, rounds - 1))
    ensures FirstLabelsState(Iterate(f, rounds))
  {
    var g := Iterate(f, rounds - 1);
    StepKeepsFirstLabels(g);
    assert Iterate(f, rounds) == Step(g);
  }

  lemma {:induction false} IterateKeepsFirstLabels(f: Frame, rounds: nat)
    requires Valid(f) && rounds < |f.active| && FirstLabelsState(f)
    ensures FirstLabelsState(Iterate(f, rounds))
  {
    if rounds > 0 {
      IterateKeepsFirstLabels(f, rounds - 1);
      IterateStepKeepsFirstLabels(f, rounds);
    }
  }

  /** When every cost is the same, every score ties in every round, and the
      reduction keeps the first labels 0, 1, ..., in that order. */
  lemma EqualCostsKeepFirstLabels(costs: seq<real>, scenarios: int)
    requires 1 <= |costs| && scenarios <= |costs|
    requires forall i :: 0 <= i < |costs| ==> costs[i] == costs[0]
    ensures ReducedScenarios(costs, scenarios) == Range(if scenarios < 1 then 1 else scenarios)
  {
    var n := |costs|;
    RangeIsIndex(n);
    var d := Build(costs);
    assert AllZero(d);
    PickZero(d, Range(n));
    assert [0] == Range(1);
    IterateKeepsFirstLabels(First(costs), Rounds(scenarios));
  }

  /** Costs 0, 1, 2, 10: the columns sum to 13, 11, 11, 27. */
  lemma SpreadCostsFirstScores()
    ensures var d := Build([0.0, 1.0, 2.0, 10.0]);
      && ColSum(d, [0, 1, 2, 3], 0) == 13.0 && ColSum(d, [0, 1, 2, 3], 1) == 11.0
      && ColSum(d, [0, 1, 2, 3], 2) == 11.0 && ColSum(d, [0, 1, 2, 3], 3) == 27.0
  {
    var d := Build([0.0, 1.0, 2.0, 10.0]);
    ColSumOf4(d, 0, 1, 2, 3, 0);
    ColSumOf4(d, 0, 1, 2, 3, 1);
    ColSumOf4(d, 0, 1, 2, 3, 2);
    ColSumOf4(d, 0, 1, 2, 3, 3);
  }

  /** ... so label 1, the first of the tie, is picked. */
  lemma SpreadCostsFirstPick()
    ensures var d := Build([0.0, 1.0, 2.0, 10.0]);
      && ColSum(d, [0, 1, 2, 3], 0) == 13.0 && ColSum(d, [0, 1, 2, 3], 1) == 11.0
      && ColSum(d, [0, 1, 2, 3], 2) == 11.0 && ColSum(d, [0, 1, 2, 3], 3) == 27.0
    ensures Pick(Build([0.0, 1.0, 2.0, 10.0]), Range(4)) == 1
  {
    SpreadCostsFirstScores();
    PickIsFirstMinimum(Build([0.0, 1.0, 2.0, 10.0]), [0, 1, 2, 3]);
    assert 1 in [0, 1, 2, 3];
    RangeFour();
  }

  /** After the reduce step with pick 1, the surviving rows 0, 2, 3 are
      floored by their distance to scenario 1. */
  lemma SpreadCostsFloored()
    ensures var d := ReduceStep(Build([0.0, 1.0, 2.0, 10.0]), [0, 2, 3], 1);
      && d[0][0] == 0.0 && d[0][2] == 1.0 && d[0][3] == 1.0
      && d[2][0] == 1.0 && d[2][2] == 0.0 && d[2][3] == 1.0
      && d[3][0] == 9.0 && d[3][2] == 8.0 && d[3][3] == 0.0
  {
    var b := Build([0.0, 1.0, 2.0, 10.0]);
    var d := ReduceStep(b, [0, 2, 3], 1);
    assert d[0] == FlooredRow(b, 0, 1) && d[2] == FlooredRow(b, 2, 1) && d[3] == FlooredRow(b, 3, 1);
  }

  /** ... the columns 0, 2, 3 then sum to 10, 9, 2 over those rows. */
  lemma SpreadCostsSecondScores()
    ensures var d := ReduceStep(Build([0.0, 1.0, 2.0, 10.0]), [0, 2, 3], 1);
      && ColSum(d, [0, 2, 3], 0) == 10.0 && ColSum(d, [0, 2, 3], 2) == 9.0
      && ColSum(d, [0, 2, 3], 3) == 2.0
  {
    var d := ReduceStep(Build([0.0, 1.0, 2.0, 10.0]), [0, 2, 3], 1);
    SpreadCostsFloored();
    ColSumOf3(d, 0, 2, 3, 0);
    ColSumOf3(d, 0, 2, 3, 2);
    ColSumOf3(d, 0, 2, 3, 3);
  }

  /** ... so label 3 is picked in the second round. */
  lemma SpreadCostsSecondPick()
    ensures var d := ReduceStep(Build([0.0, 1.0, 2.0, 10.0]), [0, 2, 3], 1);
      && ColSum(d, [0, 2, 3], 0) == 10.0 && ColSum(d, [0, 2, 3], 2) == 9.0
      && ColSum(d, [0, 2, 3], 3) == 2.0
    ensures Pick(ReduceStep(Build([0.0, 1.0, 2.0, 10.0]), [0, 2, 3], 1), [0, 2, 3]) == 3
  {
    var d := ReduceStep(Build([0.0, 1.0, 2.0, 10.0]), [0, 2, 3], 1);
    SpreadCostsSecondScores();
    PickIsFirstMinimum(d, [0, 2, 3]);
    var s := Pick(d, [0, 2, 3]);
    assert ColSum(d, [0, 2, 3], s) <= ColSum(d, [0, 2, 3], 3);
    assert s == 0 || s == 2 || s == 3;
  }

  /** ... so the first state holds pick 1, with every label active. */
  lemma SpreadCostsStart(costs: seq<real>)
    requires costs == [0.0, 1.0, 2.0, 10.0]
    ensures First(costs) == Frame(Build(costs), Range(4), [1])
  {
    SpreadCostsFirstPick();
  }

  lemma DropLabelOneOfFour()
    ensures Without(Range(4), [1]) == [0, 2, 3]
  {
    RangeFour();
  }

  /** Costs 0, 1, 2, 10 reduced to two scenarios keep labels 1 and 3; without
      the floor step the second round would pick label 2, whose column sums
      to 10 over rows 0, 2, 3 against 18 for label 3. */
  lemma SpreadCostsExample(costs: seq<real>)
    requires costs == [0.0, 1.0, 2.0, 10.0]
    ensures ReducedScenarios(costs, 2) == [1, 3]
  {
    SpreadCostsStart(costs);
    DropLabelOneOfFour();
    SpreadCostsSecondPick();
    assert Iterate(First(costs), 1) == Step(First(costs));
  }
}
