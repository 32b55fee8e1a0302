/** Sums over finite sets of naturals. */
module FiniteSums {

  ghost function Sum(keys: set<nat>, f: map<nat, nat>): nat
    requires keys <= f.Keys
  {
    if keys == {} then 0 else
      var x :| x in keys;
      f[x] + Sum(keys - {x}, f)
  }

  lemma {:induction false} SumSplit(keys: set<nat>, f: map<nat, nat>, x: nat)
    requires keys <= f.Keys && x in keys
    ensures Sum(keys, f) == f[x] + Sum(keys - {x}, f)
    decreases keys
  {
    var y :| y in keys && Sum(keys, f) == f[y] + Sum(keys - {y}, f);
    if y != x {
      SumSplit(keys - {y}, f, x);
      SumSplit(keys - {x}, f, y);
      assert keys - {y} - {x} == keys - {x} - {y};
    }
  }

  lemma {:induction false} SumSame(keys: set<nat>, f: map<nat, nat>, g: map<nat, nat>)
    requires keys <= f.Keys && keys <= g.Keys
    requires forall x :: x in keys ==> f[x] == g[x]
    ensures Sum(keys, f) == Sum(keys, g)
    decreases keys
  {
    if keys != {} {
      var x :| x in keys;
      SumSplit(keys, f, x);
      SumSplit(keys, g, x);
      SumSame(keys - {x}, f, g);
    }
  }

  lemma OneMore(n: nat, bound: nat)
    ensures (n + 1) * bound == n * bound + bound
  {
  }

  lemma {:induction false} SumBound(keys: set<nat>, f: map<nat, nat>, bound: nat)
    requires keys <= f.Keys
    requires forall x :: x in keys ==> f[x] <= bound
    ensures Sum(keys, f) <= |keys| * bound
    decreases keys
  {
    if keys != {} {
      var x :| x in keys;
      SumSplit(keys, f, x);
      SumBound(keys - {x}, f, bound);
      OneMore(|keys - {x}|, bound);
      assert |keys| == |keys - {x}| + 1;
    }
  }

  lemma {:induction false} LeastKey(keys: set<nat>, f: map<nat, nat>) returns (x: nat)
    requires keys <= f.Keys && keys != {}
    ensures x in keys && forall y :: y in keys ==> f[x] <= f[y]
    decreases keys
  {
    x :| x in keys;
    if keys != {x} {
      var y := LeastKey(keys - {x}, f);
      if f[y] < f[x] {
        x := y;
      }
    }
  }
}
