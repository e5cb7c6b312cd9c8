/** Scenario labels.

    A scenario is identified by its original position 0..N-1 in the cost list.
    Both routines work on tables whose index is a sequence of such labels; when
    rows are dropped the remaining labels keep their order, so an index is
    always an ascending label sequence. */
module Labels {

  /** The labels 0, 1, ..., n-1: the index of a freshly built table. */
  function Range(n: nat): seq<nat>
  {
    seq(n, t => t)
  }

  ghost predicate InBounds(xs: seq<nat>, n: nat)
  {
    forall t :: 0 <= t < |xs| ==> xs[t] < n
  }

  ghost predicate Increasing(xs: seq<nat>)
  {
    forall t, u :: 0 <= t < u < |xs| ==> xs[t] < xs[u]
  }

  ghost predicate Distinct(xs: seq<nat>)
  {
    forall t, u :: 0 <= t < u < |xs| ==> xs[t] != xs[u]
  }

  /** The labels of xs that are not listed in ys, in the order of xs: what
      dropping the labels ys from a table indexed by xs leaves. */
  function Without(xs: seq<nat>, ys: seq<nat>): (r: seq<nat>)
    ensures forall x :: x in r <==> x in xs && x !in ys
    ensures |r| <= |xs|
  {
    if xs == [] then []
    else if xs[0] in ys then Without(xs[1..], ys)
    else [xs[0]] + Without(xs[1..], ys)
  }

  lemma RangeIsIndex(n: nat)
    ensures |Range(n)| == n
    ensures Increasing(Range(n)) && InBounds(Range(n), n)
    ensures forall x: int :: x in Range(n) <==> 0 <= x < n
  {
    forall x: nat | x < n ensures x in Range(n) {
      assert Range(n)[x] == x;
    }
  }

  /** Dropping labels from an ascending index leaves an ascending index. */
  lemma {:induction false} WithoutIncreasing(xs: seq<nat>, ys: seq<nat>)
    requires Increasing(xs)
    ensures Increasing(Without(xs, ys))
  {
    if xs != [] {
      WithoutIncreasing(xs[1..], ys);
      var rest := Without(xs[1..], ys);
      forall x | x in rest ensures xs[0] < x {
        var t :| 0 <= t < |xs[1..]| && xs[1..][t] == x;
        assert xs[t + 1] == x;
      }
      if xs[0] !in ys {
        var r := [xs[0]] + rest;
        forall t, u | 0 <= t < u < |r| ensures r[t] < r[u] {
          assert r[u] == rest[u - 1] && rest[u - 1] in rest;
          if t > 0 {
            assert r[t] == rest[t - 1];
          }
        }
      }
    }
  }

  lemma DistinctOfIncreasing(xs: seq<nat>)
    requires Increasing(xs)
    ensures Distinct(xs)
  {
  }

  /** Dropping labels none of which occurs leaves the index unchanged. */
  lemma {:induction false} WithoutAbsent(xs: seq<nat>, ys: seq<nat>)
    requires forall t :: 0 <= t < |xs| ==> xs[t] !in ys
    ensures Without(xs, ys) == xs
  {
    if xs != [] {
      WithoutAbsent(xs[1..], ys);
    }
  }

  /** Dropping the label at position p of an index without repeated labels
      removes exactly that position and keeps every other label in order. */
  lemma {:induction false} DropAt(xs: seq<nat>, p: nat)
    requires Distinct(xs) && p < |xs|
    ensures Without(xs, [xs[p]]) == xs[..p] + xs[p + 1..]
    ensures |Without(xs, [xs[p]])| == |xs| - 1
  {
    if p == 0 {
      WithoutAbsent(xs[1..], [xs[0]]);
    } else {
      DropAt(xs[1..], p - 1);
      assert xs[1..][p - 1] == xs[p];
      assert xs[1..][..p - 1] + xs[1..][p..] == xs[1..p] + xs[p + 1..];
      assert xs[..p] + xs[p + 1..] == [xs[0]] + (xs[1..p] + xs[p + 1..]);
    }
  }

  /** Dropping one label that occurs once shortens the index by one. */
  lemma DropOne(xs: seq<nat>, s: nat)
    requires Distinct(xs) && s in xs
    ensures |Without(xs, [s])| == |xs| - 1
  {
    var p :| 0 <= p < |xs| && xs[p] == s;
    DropAt(xs, p);
  }

  /** Dropping a label s of an ascending index in bounds of n leaves an
      ascending index in bounds of n, one label shorter. */
  lemma DropFromIndex(xs: seq<nat>, s: nat, n: nat)
    requires Increasing(xs) && InBounds(xs, n) && s in xs
    ensures |Without(xs, [s])| == |xs| - 1
    ensures Increasing(Without(xs, [s])) && InBounds(Without(xs, [s]), n)
  {
    DropOne(xs, s);
    WithoutIncreasing(xs, [s]);
    var r := Without(xs, [s]);
    forall t | 0 <= t < |r| ensures r[t] < n {
      assert r[t] in r;
    }
  }

  /** n distinct labels below n are all of the labels below n. */
  lemma {:induction false} DistinctFull(xs: seq<nat>, n: nat)
    requires Distinct(xs) && InBounds(xs, n) && |xs| == n
    ensures forall x: nat :: x < n ==> x in xs
  {
    var elems := set t | 0 <= t < |xs| :: xs[t];
    var all := set t | 0 <= t < n :: Range(n)[t];
    DistinctCard(xs);
    RangeIsIndex(n);
    DistinctCard(Range(n));
    assert elems <= all by {
      forall x | x in elems ensures x in all {
        var t :| 0 <= t < |xs| && xs[t] == x;
        assert Range(n)[x] == x;
      }
    }
    assert all - elems == {} by {
      assert |all - elems| == |all| - |elems|;
    }
    forall x: nat | x < n ensures x in xs {
      assert Range(n)[x] == x;
      assert x in all;
      assert x in elems;
    }
  }

  lemma {:induction false} DistinctCard(xs: seq<nat>)
    requires Distinct(xs)
    ensures |set t | 0 <= t < |xs| :: xs[t]| == |xs|
  {
    if xs != [] {
      var init := xs[..|xs| - 1];
      DistinctCard(init);
      var a := set t | 0 <= t < |init| :: init[t];
      var b := set t | 0 <= t < |xs| :: xs[t];
      assert b == a + {xs[|xs| - 1]} by {
        forall x | x in b ensures x in a + {xs[|xs| - 1]} {
          var t :| 0 <= t < |xs| && xs[t] == x;
          if t < |xs| - 1 {
            assert init[t] == x;
          }
        }
        forall x | x in a ensures x in b {
          var t :| 0 <= t < |init| && init[t] == x;
          assert xs[t] == x;
        }
      }
      assert xs[|xs| - 1] !in a;
    }
  }
}
