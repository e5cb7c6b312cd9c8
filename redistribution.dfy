/** Redistribution of probability onto the reduced scenarios.

    Every scenario outside the reduced set is assigned to a reduced scenario
    of nearest cost, every reduced scenario represents itself, and each
    reduced scenario then collects the probability of all the scenarios it
    represents while every other scenario is left with none.

    Line numbers in the comments refer to notebooks/utils.py. */
module Redistribution {
  import opened Labels
  import opened Distance

  datatype Option<T> = None | Some(value: T)

  /** The representative of a scenario not assigned yet (NaN in the table). */
  const Unassigned: int := -1

  /** The returned table, one entry per original label: its cost, the label
      of its representative and its redistributed probability. */
  datatype ScenarioTable = ScenarioTable(cost: seq<real>, representative: seq<int>, probability: seq<real>)

  function Sum(s: seq<real>): real
  {
    if s == [] then 0.0 else Sum(s[..|s| - 1]) + s[|s| - 1]
  }

  /** The probability argument is absent, an empty list, or one entry per
      scenario. */
  ghost predicate ProbabilitiesFit(n: nat, probabilities: Option<seq<real>>)
  {
    probabilities.None? || |probabilities.value| == 0 || |probabilities.value| == n
  }

  /** The initial probability column: the given list when it is non-empty,
      otherwise 1/n for every scenario. */
  function InitialProbabilities(n: nat, probabilities: Option<seq<real>>): (p: seq<real>)
    requires n > 0 && ProbabilitiesFit(n, probabilities)
    ensures |p| == n
  {
    if probabilities.Some? && |probabilities.value| > 0 then probabilities.value
    else seq(n, _ => 1.0 / n as real)
  }

  lemma {:induction false} SumConstant(n: nat, c: real)
    ensures Sum(seq(n, _ => c)) == n as real * c
  {
    if n > 0 {
      assert seq(n, _ => c)[..n - 1] == seq(n - 1, _ => c);
      SumConstant(n - 1, c);
    }
  }

  /** Without probabilities every scenario starts at 1/n, and these sum to
      one. */
  lemma DefaultIsUniform(n: nat, probabilities: Option<seq<real>>)
    requires n > 0 && (probabilities.None? || |probabilities.value| == 0)
    ensures forall j :: 0 <= j < n ==> InitialProbabilities(n, probabilities)[j] == 1.0 / n as real
    ensures Sum(InitialProbabilities(n, probabilities)) == 1.0
  {
    SumConstant(n, 1.0 / n as real);
  }

  /** Given probabilities are taken as they are. */
  lemma GivenIsKept(n: nat, probabilities: Option<seq<real>>)
    requires n > 0 && probabilities.Some? && |probabilities.value| == n
    ensures InitialProbabilities(n, probabilities) == probabilities.value
  {
  }

  /** The total probability p holds at the scenarios whose representative is
      i. */
  function MassOf(rep: seq<int>, p: seq<real>, i: int): (m: real)
    requires |rep| == |p|
    ensures (forall j :: 0 <= j < |p| ==> p[j] >= 0.0) ==> 0.0 <= m <= Sum(p)
  {
    if p == [] then 0.0
    else MassOf(rep[..|p| - 1], p[..|p| - 1], i) + (if rep[|p| - 1] == i then p[|p| - 1] else 0.0)
  }

  /** The mass at i reads p only where the representative is i. */
  lemma {:induction false} MassAgree(rep: seq<int>, p: seq<real>, q: seq<real>, i: int)
    requires |rep| == |p| == |q|
    requires forall j :: 0 <= j < |rep| && rep[j] == i ==> p[j] == q[j]
    ensures MassOf(rep, p, i) == MassOf(rep, q, i)
  {
    if p != [] {
      var k := |p| - 1;
      MassAgree(rep[..k], p[..k], q[..k], i);
    }
  }

  /** When every scenario represents itself, the mass at i is its own
      probability. */
  lemma {:induction false} MassOfSelf(p: seq<real>, i: nat)
    requires i < |p|
    ensures MassOf(Range(|p|), p, i) == p[i]
  {
    var k := |p| - 1;
    assert Range(|p|)[..k] == Range(k);
    if i < k {
      MassOfSelf(p[..k], i);
    } else {
      MassOfNone(Range(k), p[..k], i);
    }
  }

  /** No scenario represented by i means no mass at i. */
  lemma {:induction false} MassOfNone(rep: seq<int>, p: seq<real>, i: int)
    requires |rep| == |p| && forall j :: 0 <= j < |rep| ==> rep[j] != i
    ensures MassOf(rep, p, i) == 0.0
  {
    if p != [] {
      MassOfNone(rep[..|p| - 1], p[..|p| - 1], i);
    }
  }

  /** The masses at the labels R, added up. */
  function MassOver(rep: seq<int>, p: seq<real>, R: seq<nat>): real
    requires |rep| == |p|
  {
    if R == [] then 0.0 else MassOver(rep, p, R[..|R| - 1]) + MassOf(rep, p, R[|R| - 1])
  }

  /** x counted once for every occurrence of r in R. */
  function Occurrences(R: seq<nat>, r: int, x: real): real
  {
    if R == [] then 0.0 else Occurrences(R[..|R| - 1], r, x) + (if R[|R| - 1] == r then x else 0.0)
  }

  lemma {:induction false} OccursOnce(R: seq<nat>, r: int, x: real)
    requires Distinct(R)
    ensures Occurrences(R, r, x) == if r in R then x else 0.0
  {
    if R != [] {
      var k := |R| - 1;
      assert Distinct(R[..k]);
      OccursOnce(R[..k], r, x);
      assert r in R <==> r in R[..k] || r == R[k];
    }
  }

  /** Adding one scenario with representative r and probability x adds x to
      the masses at R once for every occurrence of r. */
  lemma {:induction false} MassOverSnoc(rep: seq<int>, p: seq<real>, R: seq<nat>, r: int, x: real)
    requires |rep| == |p|
    ensures MassOver(rep + [r], p + [x], R) == MassOver(rep, p, R) + Occurrences(R, r, x)
  {
    if R != [] {
      MassOverSnoc(rep, p, R[..|R| - 1], r, x);
      assert (rep + [r])[..|p|] == rep && (p + [x])[..|p|] == p;
    }
  }

  /** Probability is conserved: when every representative is one of the
      distinct labels R, the masses at R add up to the total. */
  lemma {:induction false} MassOverAll(rep: seq<int>, p: seq<real>, R: seq<nat>)
    requires |rep| == |p| && Distinct(R)
    requires forall j :: 0 <= j < |rep| ==> rep[j] in R
    ensures MassOver(rep, p, R) == Sum(p)
  {
    if p == [] {
      MassOverEmpty(R);
    } else {
      var k := |p| - 1;
      MassOverAll(rep[..k], p[..k], R);
      MassOverSnoc(rep[..k], p[..k], R, rep[k], p[k]);
      assert rep[..k] + [rep[k]] == rep && p[..k] + [p[k]] == p;
      OccursOnce(R, rep[k], p[k]);
    }
  }

  lemma {:induction false} MassOverEmpty(R: seq<nat>)
    ensures MassOver([], [], R) == 0.0
  {
    if R != [] {
      MassOverEmpty(R[..|R| - 1]);
    }
  }

  /** The entries of f at the labels R, added up. */
  function SumAt(f: seq<real>, R: seq<nat>): real
    requires InBounds(R, |f|)
  {
    if R == [] then 0.0 else SumAt(f, R[..|R| - 1]) + f[R[|R| - 1]]
  }

  lemma {:induction false} SumAtMass(f: seq<real>, rep: seq<int>, p: seq<real>, R: seq<nat>)
    requires InBounds(R, |f|) && |rep| == |p|
    requires forall t :: 0 <= t < |R| ==> f[R[t]] == MassOf(rep, p, R[t])
    ensures SumAt(f, R) == MassOver(rep, p, R)
  {
    if R != [] {
      SumAtMass(f, rep, p, R[..|R| - 1]);
    }
  }

  lemma {:induction false} SumAtAgree(f: seq<real>, g: seq<real>, R: seq<nat>)
    requires InBounds(R, |f|) && |f| == |g|
    requires forall t :: 0 <= t < |R| ==> f[R[t]] == g[R[t]]
    ensures SumAt(f, R) == SumAt(g, R)
  {
    if R != [] {
      SumAtAgree(f, g, R[..|R| - 1]);
    }
  }

  lemma {:induction false} SumUpdate(f: seq<real>, r: nat, v: real)
    requires r < |f|
    ensures Sum(f[r := v]) == Sum(f) - f[r] + v
  {
    var k := |f| - 1;
    if r == k {
      assert f[r := v][..k] == f[..k];
    } else {
      assert f[r := v][..k] == f[..k][r := v];
      SumUpdate(f[..k], r, v);
    }
  }

  lemma {:induction false} SumZero(f: seq<real>)
    requires forall j :: 0 <= j < |f| ==> f[j] == 0.0
    ensures Sum(f) == 0.0
  {
    if f != [] {
      SumZero(f[..|f| - 1]);
    }
  }

  /** A column that is zero outside the distinct labels R sums to its
      entries at R. */
  lemma {:induction false} SumOnSupport(f: seq<real>, R: seq<nat>)
    requires Distinct(R) && InBounds(R, |f|)
    requires forall j :: 0 <= j < |f| && j !in R ==> f[j] == 0.0
    ensures Sum(f) == SumAt(f, R)
    decreases |R|
  {
    if R == [] {
      SumZero(f);
    } else {
      var k := |R| - 1;
      var r := R[k];
      var g := f[r := 0.0];
      assert Distinct(R[..k]) && InBounds(R[..k], |g|);
      forall j | 0 <= j < |g| && j !in R[..k] ensures g[j] == 0.0 {
        assert j == r || j !in R;
      }
      SumOnSupport(g, R[..k]);
      SumAtAgree(f, g, R[..k]);
      SumUpdate(f, r, 0.0);
    }
  }

  /** The redistributed column conserves probability: if it holds at each of
      the distinct labels R the mass represented there, is zero elsewhere,
      and every scenario is represented by a label of R, it sums to the same
      total as p. */
  lemma Conservation(f: seq<real>, rep: seq<int>, p: seq<real>, R: seq<nat>)
    requires |f| == |rep| == |p| && Distinct(R) && InBounds(R, |f|)
    requires forall j :: 0 <= j < |rep| ==> rep[j] in R
    requires forall t :: 0 <= t < |R| ==> f[R[t]] == MassOf(rep, p, R[t])
    requires forall j :: 0 <= j < |f| && j !in R ==> f[j] == 0.0
    ensures Sum(f) == Sum(p)
  {
    SumOnSupport(f, R);
    SumAtMass(f, rep, p, R);
    MassOverAll(rep, p, R);
  }

  /** r is one of the reduced scenarios and no reduced scenario is nearer in
      cost to scenario i. */
  ghost predicate IsNearest(costs: seq<real>, reduced: seq<nat>, i: nat, r: int)
    requires i < |costs| && InBounds(reduced, |costs|)
  {
    && r in reduced
    && forall t :: 0 <= t < |reduced| ==>
         Abs(costs[r] - costs[i]) <= Abs(costs[reduced[t]] - costs[i])
  }

  /** Lines 122-125 for one scenario: a reduced scenario of least absolute
      cost difference (the first such in the order of reduced). */
  method NearestRepresentative(costs: seq<real>, reduced: seq<nat>, i: nat) returns (r: nat)
    requires i < |costs| && |reduced| > 0 && InBounds(reduced, |costs|)
    ensures IsNearest(costs, reduced, i, r)
  {
    r := reduced[0];
    var t := 1;
    while t < |reduced|
      invariant 1 <= t <= |reduced|
      invariant r in reduced[..t]
      invariant forall u :: 0 <= u < t ==> Abs(costs[r] - costs[i]) <= Abs(costs[reduced[u]] - costs[i])
    {
      if Abs(costs[reduced[t]] - costs[i]) < Abs(costs[r] - costs[i]) {
        r := reduced[t];
      }
      assert reduced[..t + 1] == reduced[..t] + [reduced[t]];
      t := t + 1;
    }
    assert reduced[..t] == reduced;
  }

  /** Lines 121-125: every scenario not reduced gets a nearest reduced
      scenario as representative; the others keep what they had. */
  method AssignNearest(costs: seq<real>, reduced: seq<nat>, unassigned: seq<nat>, rep0: seq<int>) returns (rep: seq<int>)
    requires |reduced| > 0 && InBounds(reduced, |costs|) && |rep0| == |costs|
    ensures |rep| == |costs|
    ensures forall j :: 0 <= j < |costs| && j in unassigned ==> IsNearest(costs, reduced, j, rep[j])
    ensures forall j :: 0 <= j < |costs| && j !in unassigned ==> rep[j] == rep0[j]
  {
    rep := rep0;
    var t := 0;
    while t < |unassigned|
      invariant 0 <= t <= |unassigned| && |rep| == |costs|
      invariant forall j :: 0 <= j < |costs| && j in unassigned[..t] ==> IsNearest(costs, reduced, j, rep[j])
      invariant forall j :: 0 <= j < |costs| && j !in unassigned[..t] ==> rep[j] == rep0[j]
    {
      var j := unassigned[t];
      if j < |costs| {
        var r := NearestRepresentative(costs, reduced, j);
        rep := rep[j := r];
      }
      assert unassigned[..t + 1] == unassigned[..t] + [j];
      t := t + 1;
    }
    assert unassigned[..t] == unassigned;
  }

  /** Lines 131-133: each reduced scenario in turn is set to the total
      probability currently held by the scenarios it represents. */
  method Accumulate(rep: seq<int>, reduced: seq<nat>, p0: seq<real>) returns (p: seq<real>)
    requires |rep| == |p0| && InBounds(reduced, |p0|)
    requires forall j :: 0 <= j < |rep| && j in reduced ==> rep[j] == j
    ensures |p| == |p0|
    ensures forall j :: 0 <= j < |p| && j !in reduced ==> p[j] == p0[j]
    ensures Distinct(reduced) ==> forall t :: 0 <= t < |reduced| ==> p[reduced[t]] == MassOf(rep, p0, reduced[t])
    ensures rep == Range(|p0|) ==> p == p0
  {
    p := p0;
    var t := 0;
    while t < |reduced|
      invariant 0 <= t <= |reduced| && |p| == |p0|
      invariant forall j :: 0 <= j < |p| && j !in reduced[..t] ==> p[j] == p0[j]
      invariant Distinct(reduced) ==> forall u :: 0 <= u < t ==> p[reduced[u]] == MassOf(rep, p0, reduced[u])
      invariant rep == Range(|p0|) ==> p == p0
    {
      var i := reduced[t];
      if Distinct(reduced) {
        assert i !in reduced[..t];
        MassAgree(rep, p, p0, i);
      }
      if rep == Range(|p0|) {
        MassOfSelf(p, i);
      }
      p := p[i := MassOf(rep, p, i)];
      assert reduced[..t + 1] == reduced[..t] + [i];
      t := t + 1;
    }
    assert reduced[..t] == reduced;
  }

  /** Lines 116-127: the representative column. Every scenario outside
      reduced gets a nearest reduced scenario, every reduced scenario itself. */
  method Representatives(costs: seq<real>, reduced: seq<nat>) returns (rep: seq<int>)
    requires |reduced| > 0 && InBounds(reduced, |costs|)
    ensures |rep| == |costs|
    ensures forall j :: 0 <= j < |costs| && j in reduced ==> rep[j] == j
    ensures forall j :: 0 <= j < |costs| && j !in reduced ==> IsNearest(costs, reduced, j, rep[j])
    ensures forall j :: 0 <= j < |costs| ==> rep[j] in reduced
  {
    var n := |costs|;
    RangeIsIndex(n);
    var unassigned := Without(Range(n), reduced);
    rep := seq(n, _ => Unassigned);
    // lines 121-125: nearest reduced scenario for every other scenario
    rep := AssignNearest(costs, reduced, unassigned, rep);
    // line 127: every reduced scenario represents itself
    rep := seq(n, j requires 0 <= j < n => if j in reduced then j else rep[j]);
  }

  /** When every label is reduced, every scenario represents itself. */
  lemma AllReducedIsIdentity(rep: seq<int>, reduced: seq<nat>)
    requires forall j :: 0 <= j < |rep| && j in reduced ==> rep[j] == j
    requires forall j: nat :: j < |rep| ==> j in reduced
    ensures rep == Range(|rep|)
  {
    RangeIsIndex(|rep|);
  }

  /** Lines 131-135: move the probability onto the representatives and
      leave none with the other scenarios. */
  method Redistribute(rep: seq<int>, reduced: seq<nat>, initial: seq<real>) returns (p: seq<real>)
    requires |rep| == |initial| && InBounds(reduced, |initial|)
    requires forall j :: 0 <= j < |rep| && j in reduced ==> rep[j] == j
    requires forall j :: 0 <= j < |rep| ==> rep[j] in reduced
    ensures |p| == |initial|
    ensures forall j :: 0 <= j < |p| && j !in reduced ==> p[j] == 0.0
    ensures Distinct(reduced) ==> forall t :: 0 <= t < |reduced| ==> p[reduced[t]] == MassOf(rep, initial, reduced[t])
    ensures Distinct(reduced) ==> Sum(p) == Sum(initial)
    ensures rep == Range(|initial|) ==> p == initial
  {
    var n := |initial|;
    RangeIsIndex(n);
    var unassigned := Without(Range(n), reduced);
    p := Accumulate(rep, reduced, initial);
    p := seq(n, j requires 0 <= j < n => if j in unassigned then 0.0 else p[j]);
    if Distinct(reduced) {
      Conservation(p, rep, initial, reduced);
    }
    if rep == Range(n) {
      assert forall j :: 0 <= j < n ==> j !in unassigned;
    }
  }

  /** The whole redistribution (lines 112-137). */
  method GetRedistributedProbabilities(costs: seq<real>, reduced: seq<nat>, probabilities: Option<seq<real>>)
    returns (table: ScenarioTable)
    requires |costs| > 0 && |reduced| > 0 && InBounds(reduced, |costs|)
    requires ProbabilitiesFit(|costs|, probabilities)
    ensures table.cost == costs
    ensures |table.representative| == |costs| && |table.probability| == |costs|
    ensures forall t :: 0 <= t < |reduced| ==> table.representative[reduced[t]] == reduced[t]
    ensures forall j :: 0 <= j < |costs| && j !in reduced ==>
      IsNearest(costs, reduced, j, table.representative[j]) && table.probability[j] == 0.0
    ensures Distinct(reduced) ==> forall t :: 0 <= t < |reduced| ==>
      table.probability[reduced[t]] == MassOf(table.representative, InitialProbabilities(|costs|, probabilities), reduced[t])
    ensures Distinct(reduced) ==>
      Sum(table.probability) == Sum(InitialProbabilities(|costs|, probabilities))
    ensures (forall j: nat :: j < |costs| ==> j in reduced) ==>
      table.representative == Range(|costs|) && table.probability == InitialProbabilities(|costs|, probabilities)
  {
    var rep := Representatives(costs, reduced);
    var p := InitialProbabilities(|costs|, probabilities);
    if forall j: nat :: j < |costs| ==> j in reduced {
      AllReducedIsIdentity(rep, reduced);
    }
    p := Redistribute(rep, reduced, p);
    table := ScenarioTable(costs, rep, p);
  }
}
