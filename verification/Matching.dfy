/** The search for the best pairing of local and peer interfaces
    (contrib/build-mca-comps-outside-of-tree/btl_tcp2_proc.c): visit() goes through
    all permutations and evaluate_assignment() keeps the best. */
module Matching {
  import opened Basics

  // ------------------------------------------------------------- what visit() visits

  predicate Given(a: seq<int>, v: int) {
    exists i :: 0 <= i < |a| && a[i] == v
  }

  /** Each number from 1 to `n` once; number `p[i]` is interface `i`'s partner. */
  ghost predicate Permutation(p: seq<int>, n: nat) {
    && |p| == n
    && (forall i :: 0 <= i < n ==> 1 <= p[i] <= n)
    && (forall i, j :: 0 <= i < j < n ==> p[i] != p[j])
    && (forall v :: 1 <= v <= n ==> Given(p, v))
  }

  function Zeros(a: seq<int>): nat {
    if a == [] then 0 else (if a[0] == 0 then 1 else 0) + Zeros(a[1..])
  }

  /** The numbers up to `level` have been given out, each once; zero marks the rest. */
  ghost predicate Partial(a: seq<int>, n: nat, level: nat) {
    && |a| == n && Zeros(a) == n - level
    && (forall i :: 0 <= i < n ==> 0 <= a[i] <= level)
    && (forall v :: 1 <= v <= level ==> Given(a, v))
    && (forall i, j :: 0 <= i < j < n && a[i] != 0 ==> a[i] != a[j])
  }

  ghost predicate Extends(a: seq<int>, p: seq<int>) {
    |a| == |p| && forall i :: 0 <= i < |a| && a[i] != 0 ==> p[i] == a[i]
  }

  /** The complete assignments that the search reaches from `a`, in order. */
  ghost function Completions(a: seq<int>, n: nat, level: nat): seq<seq<int>>
    requires |a| == n && level <= n
    decreases n - level, n + 1
  {
    if level == n then [a] else Branches(a, n, level, n)
  }

  /** Those with number `level + 1` at one of the first `i` places. */
  ghost function Branches(a: seq<int>, n: nat, level: nat, i: nat): seq<seq<int>>
    requires |a| == n && level < n && i <= n
    decreases n - level, i
  {
    if i == 0 then []
    else Branches(a, n, level, i - 1)
         + if a[i - 1] == 0 then Completions(a[i - 1 := level + 1], n, level + 1) else []
  }

  // ------------------------------------------------------- every permutation, once each

  lemma {:induction false} OneZeroLess(a: seq<int>, i: nat, v: int)
    requires i < |a| && a[i] == 0 && v != 0
    ensures Zeros(a[i := v]) == Zeros(a) - 1
  {
    if i == 0 {
      assert a[i := v][1..] == a[1..];
    } else {
      OneZeroLess(a[1..], i - 1, v);
      assert a[i := v][1..] == a[1..][i - 1 := v];
    }
  }

  lemma {:induction false} NoZero(a: seq<int>, i: nat)
    requires Zeros(a) == 0 && i < |a|
    ensures a[i] != 0
  {
    if i > 0 {
      NoZero(a[1..], i - 1);
    }
  }

  lemma {:induction false} AllZero(n: nat)
    ensures Zeros(seq(n, i => 0)) == n
  {
    if n > 0 {
      AllZero(n - 1);
      assert seq(n, i => 0)[1..] == seq(n - 1, i => 0);
    }
  }

  lemma PartialNext(a: seq<int>, n: nat, level: nat, i: nat)
    requires Partial(a, n, level) && level < n && i < n && a[i] == 0
    ensures Partial(a[i := level + 1], n, level + 1)
  {
    var b := a[i := level + 1];
    OneZeroLess(a, i, level + 1);
    forall v | 1 <= v <= level + 1
      ensures Given(b, v)
    {
      if v == level + 1 {
        assert b[i] == v;
      } else {
        assert Given(a, v);
        var j :| 0 <= j < n && a[j] == v;
        assert b[j] == v;
      }
    }
  }

  /** A complete assignment is the one permutation that extends it. */
  lemma Complete(a: seq<int>, n: nat, p: seq<int>)
    requires Partial(a, n, n)
    ensures Permutation(p, n) && Extends(a, p) <==> p == a
  {
    forall i | 0 <= i < n
      ensures a[i] != 0
    {
      NoZero(a, i);
    }
    if Extends(a, p) {
      assert p == a;
    }
  }

  /** How often `p` is among the complete assignments reached: once if it is a
      permutation that extends `a`, and never otherwise. */
  lemma {:induction false} OnceEach(a: seq<int>, n: nat, level: nat, p: seq<int>)
    requires level <= n && Partial(a, n, level)
    ensures multiset(Completions(a, n, level))[p] == if Permutation(p, n) && Extends(a, p) then 1 else 0
    decreases n - level, n + 1
  {
    if level == n {
      Complete(a, n, p);
    } else {
      OnceInBranches(a, n, level, n, p);
      if Permutation(p, n) && Extends(a, p) {
        assert Given(p, level + 1);
        assert NextAmong(a, level, n, p);
      }
    }
  }

  /** `p` has the next number at one of the first `i` places. */
  ghost predicate NextAmong(a: seq<int>, level: nat, i: nat, p: seq<int>)
    requires i <= |a| == |p|
  {
    exists j :: 0 <= j < i && p[j] == level + 1
  }

  lemma {:induction false} OnceInBranches(a: seq<int>, n: nat, level: nat, i: nat, p: seq<int>)
    requires level < n && i <= n && Partial(a, n, level)
    ensures multiset(Branches(a, n, level, i))[p]
            == if Permutation(p, n) && Extends(a, p) && NextAmong(a, level, i, p) then 1 else 0
    decreases n - level, i
  {
    if i > 0 {
      OnceInBranches(a, n, level, i - 1, p);
      var b := a[i - 1 := level + 1];
      if a[i - 1] == 0 {
        PartialNext(a, n, level, i - 1);
        OnceEach(b, n, level + 1, p);
      }
      OneMoreBranch(a, n, level, i, p);
    }
  }

  /** The permutations that extend `a` with the next number at place `i - 1`. */
  lemma OneMoreBranch(a: seq<int>, n: nat, level: nat, i: nat, p: seq<int>)
    requires level < n && 1 <= i <= n && Partial(a, n, level)
    ensures a[i - 1] == 0 && Permutation(p, n) ==>
              (Extends(a[i - 1 := level + 1], p) <==> Extends(a, p) && p[i - 1] == level + 1)
    ensures Permutation(p, n) && Extends(a, p) && p[i - 1] == level + 1 ==> a[i - 1] == 0 && !NextAmong(a, level, i - 1, p)
    ensures Permutation(p, n) && Extends(a, p) ==>
              (NextAmong(a, level, i, p) <==> NextAmong(a, level, i - 1, p) || p[i - 1] == level + 1)
  {
  }

  // --------------------------------------------------------------------- the scores

  ghost predicate Square(weights: seq<seq<int>>, n: nat) {
    |weights| == n && forall i :: 0 <= i < n ==> |weights[i]| == n
  }

  /** How many of the first `k` interfaces have a usable connection to their partner. */
  function Cardinality(weights: seq<seq<int>>, p: seq<int>, k: nat): nat
    requires k <= |p| == |weights| && forall i :: 0 <= i < |p| ==> 1 <= p[i] <= |weights[i]|
  {
    if k == 0 then 0 else Cardinality(weights, p, k - 1) + if 0 < weights[k - 1][p[k - 1] - 1] then 1 else 0
  }

  /** The sum of the weights of those connections. */
  function Weight(weights: seq<seq<int>>, p: seq<int>, k: nat): int
    requires k <= |p| == |weights| && forall i :: 0 <= i < |p| ==> 1 <= p[i] <= |weights[i]|
  {
    if k == 0 then 0
    else Weight(weights, p, k - 1) + if 0 < weights[k - 1][p[k - 1] - 1] then weights[k - 1][p[k - 1] - 1] else 0
  }

  /** No better: fewer connections, or as many of no greater weight. */
  predicate NoBetter(c: int, w: int, c': int, w': int) {
    c < c' || (c == c' && w <= w')
  }

  ghost predicate Scored(weights: seq<seq<int>>, n: nat, p: seq<int>, c: int, w: int)
    requires Square(weights, n)
  {
    Permutation(p, n) && c == Cardinality(weights, p, n) && w == Weight(weights, p, n)
  }

  /** The partners, counted from zero. */
  function FromZero(p: seq<int>): seq<int> {
    seq(|p|, i requires 0 <= i < |p| => p[i] - 1)
  }

  /** Assignment `k` is `best`, with score (`c`, `w`), and beats those before it. */
  ghost predicate Wins(weights: seq<seq<int>>, n: nat, log: seq<seq<int>>, k: int, best: seq<int>, c: int, w: int)
    requires Square(weights, n)
  {
    && 0 <= k < |log| && best == FromZero(log[k]) && Scored(weights, n, log[k], c, w)
    && forall i {:trigger Beaten(weights, n, log, i, c, w)} :: 0 <= i < k ==> Beaten(weights, n, log, i, c, w)
  }

  ghost predicate Beaten(weights: seq<seq<int>>, n: nat, log: seq<seq<int>>, i: int, c: int, w: int)
    requires Square(weights, n) && 0 <= i < |log|
  {
    Permutation(log[i], n) && !NoBetter(c, w, Cardinality(weights, log[i], n), Weight(weights, log[i], n))
  }

  /** `best`, with score (`c`, `w`), is the first of the assignments in `log` that none of them beats. */
  ghost predicate BestOf(weights: seq<seq<int>>, n: nat, log: seq<seq<int>>, best: seq<int>, c: int, w: int)
    requires Square(weights, n)
  {
    && (log == [] ==> c == -1 && w == -1)
    && (log != [] ==> exists k :: Wins(weights, n, log, k, best, c, w))
    && (forall i {:trigger NotBeaten(weights, n, log, i, c, w)} :: 0 <= i < |log| ==> NotBeaten(weights, n, log, i, c, w))
  }

  ghost predicate NotBeaten(weights: seq<seq<int>>, n: nat, log: seq<seq<int>>, i: int, c: int, w: int)
    requires Square(weights, n) && 0 <= i < |log|
  {
    Permutation(log[i], n) && NoBetter(Cardinality(weights, log[i], n), Weight(weights, log[i], n), c, w)
  }

  lemma BestOfMore(weights: seq<seq<int>>, n: nat, log: seq<seq<int>>, best: seq<int>, c: int, w: int, p: seq<int>, c': int, w': int)
    requires Square(weights, n) && BestOf(weights, n, log, best, c, w) && Scored(weights, n, p, c', w')
    ensures if c' > c || (c' == c && w' > w) then BestOf(weights, n, log + [p], FromZero(p), c', w')
            else BestOf(weights, n, log + [p], best, c, w)
  {
    var more := log + [p];
    assert more[|log|] == p;
    var (c'', w'') := if c' > c || (c' == c && w' > w) then (c', w') else (c, w);
    forall i | 0 <= i < |more|
      ensures NotBeaten(weights, n, more, i, c'', w'')
    {
      assert i < |log| ==> NotBeaten(weights, n, log, i, c, w);
    }
    if c' > c || (c' == c && w' > w) {
      forall i | 0 <= i < |log|
        ensures Beaten(weights, n, more, i, c', w')
      {
        assert NotBeaten(weights, n, log, i, c, w);
      }
      assert Wins(weights, n, more, |log|, FromZero(p), c', w');
    } else {
      StillWins(weights, n, log, best, c, w, p);
    }
  }

  lemma StillWins(weights: seq<seq<int>>, n: nat, log: seq<seq<int>>, best: seq<int>, c: int, w: int, p: seq<int>)
    requires Square(weights, n) && log != [] && BestOf(weights, n, log, best, c, w)
    ensures exists k :: Wins(weights, n, log + [p], k, best, c, w)
  {
    var k :| Wins(weights, n, log, k, best, c, w);
    var more := log + [p];
    forall i | 0 <= i < k
      ensures Beaten(weights, n, more, i, c, w)
    {
      assert Beaten(weights, n, log, i, c, w);
    }
    assert Wins(weights, n, more, k, best, c, w);
  }

  // --------------------------------------------------------------------- the search

  lemma Restored(a: seq<int>, i: nat)
    requires i < |a|
    ensures a[i] == 0 ==> a[i := 0] == a
  {
  }

  class Search {
    const n: nat
    const weights: seq<seq<int>>
    var a: seq<int>
    var best: seq<int>
    var maxCardinality: int
    var maxWeight: int
    /** The assignments evaluated so far. */
    ghost var log: seq<seq<int>>

    ghost predicate Valid()
      reads this
    {
      Square(weights, n) && |a| == n && BestOf(weights, n, log, best, maxCardinality, maxWeight)
    }

    constructor (n: nat, weights: seq<seq<int>>)
      requires Square(weights, n)
      ensures Valid() && this.n == n && this.weights == weights && a == seq(n, i => 0) && log == []
    {
      this.n, this.weights := n, weights;
      a, best, log := seq(n, i => 0), [], [];
      maxCardinality, maxWeight := -1, -1;
    }

    /** evaluate_assignment. */
    method EvaluateAssignment()
      requires Valid() && Permutation(a, n)
      modifies this`best, this`maxCardinality, this`maxWeight, this`log
      ensures Valid() && log == old(log) + [a]
    {
      var c, w := Score(weights, n, a);
      BestOfMore(weights, n, log, best, maxCardinality, maxWeight, a, c, w);
      if c > maxCardinality || (c == maxCardinality && w > maxWeight) {
        best, maxCardinality, maxWeight := FromZero(a), c, w;
      }
      log := log + [a];
    }

    /** visit: tries every way to complete the assignment with number `level + 1` at place `k`. */
    method Visit(k: nat, level: int)
      requires Valid() && k < n && -1 <= level < n && Partial(a[k := level + 1], n, level + 1)
      modifies this`a, this`best, this`maxCardinality, this`maxWeight, this`log
      ensures Valid() && a == old(a)[k := 0]
      ensures log == old(log) + Completions(old(a)[k := level + 1], n, level + 1)
      decreases n - level
    {
      a := a[k := level + 1];
      ghost var base := a;
      if level + 1 == n {
        Complete(a, n, a);
        EvaluateAssignment();
      } else {
        var i := 0;
        while i < n
          invariant 0 <= i <= n && Valid() && a == base
          invariant log == old(log) + Branches(base, n, level + 1, i)
        {
          if a[i] == 0 {
            PartialNext(base, n, level + 1, i);
            ghost var more := Completions(base[i := level + 2], n, level + 2);
            Associative(old(log), Branches(base, n, level + 1, i), more);
            Visit(i, level + 1);
            Restored(base, i);
          }
          i := i + 1;
        }
      }
      a := a[k := 0];
    }
  }

  method Score(weights: seq<seq<int>>, n: nat, a: seq<int>) returns (c: int, w: int)
    requires Square(weights, n) && Permutation(a, n)
    ensures Scored(weights, n, a, c, w)
  {
    c, w := 0, 0;
    var i := 0;
    while i < n
      invariant 0 <= i <= n && c == Cardinality(weights, a, i) && w == Weight(weights, a, i)
    {
      if 0 < weights[i][a[i] - 1] {
        c := c + 1;
        w := w + weights[i][a[i] - 1];
      }
      i := i + 1;
    }
  }

  /** The call visit(0, -1, n, a) on an empty assignment: every permutation of the
      interfaces is evaluated exactly once, and no pairing beats the one kept. */
  method BestAssignment(n: nat, weights: seq<seq<int>>) returns (best: seq<int>, ghost log: seq<seq<int>>)
    requires n >= 1 && Square(weights, n)
    ensures log == Completions(seq(n, i => 0), n, 0) && forall p :: multiset(log)[p] == if Permutation(p, n) then 1 else 0
    ensures exists k, c, w :: Wins(weights, n, log, k, best, c, w)
    ensures exists p :: Permutation(p, n) && best == FromZero(p)
                        && forall q :: Permutation(q, n) ==>
                             NoBetter(Cardinality(weights, q, n), Weight(weights, q, n), Cardinality(weights, p, n), Weight(weights, p, n))
  {
    var search := new Search(n, weights);
    ghost var zeros := seq(n, i => 0);
    AllZero(n);
    assert zeros[0 := 0] == zeros;
    search.Visit(0, -1);
    best, log := search.best, search.log;
    assert log == Completions(zeros, n, 0);
    forall p
      ensures multiset(log)[p] == if Permutation(p, n) then 1 else 0
    {
      OnceEach(zeros, n, 0, p);
    }
    SomePermutation(n);
    Winner(weights, n, log, best, search.maxCardinality, search.maxWeight);
  }

  lemma SomePermutation(n: nat)
    ensures exists p :: Permutation(p, n)
  {
    var p := seq(n, i => i + 1);
    forall v | 1 <= v <= n
      ensures Given(p, v)
    {
      assert p[v - 1] == v;
    }
    assert Permutation(p, n);
  }

  lemma Winner(weights: seq<seq<int>>, n: nat, log: seq<seq<int>>, best: seq<int>, c: int, w: int)
    requires Square(weights, n) && BestOf(weights, n, log, best, c, w) && exists p :: Permutation(p, n)
    requires forall p :: multiset(log)[p] == if Permutation(p, n) then 1 else 0
    ensures exists k :: Wins(weights, n, log, k, best, c, w)
    ensures exists p :: Permutation(p, n) && best == FromZero(p)
                        && forall q :: Permutation(q, n) ==>
                             NoBetter(Cardinality(weights, q, n), Weight(weights, q, n), Cardinality(weights, p, n), Weight(weights, p, n))
  {
    var s :| Permutation(s, n);
    assert multiset(log)[s] == 1;
    var k :| Wins(weights, n, log, k, best, c, w);
    var p := log[k];
    forall q | Permutation(q, n)
      ensures NoBetter(Cardinality(weights, q, n), Weight(weights, q, n), c, w)
    {
      assert multiset(log)[q] == 1;
      assert q in log;
      var i :| 0 <= i < |log| && log[i] == q;
      assert NotBeaten(weights, n, log, i, c, w);
    }
  }
}
