/**
 Two readings of a list of checks: the greatest value written by a check that fires, and the
 last value written when the checks run in order.
 */
module Decision {
  import opened Policy

  /** The greatest value written by a firing check, 0 when none fires. */
  function Greatest(cs: seq<Check>, env: Env): nat {
    if cs == [] then 0
    else
      var d := Greatest(cs[..|cs| - 1], env);
      var c := cs[|cs| - 1];
      if Fires(c, env) && Write(c) > d then Write(c) else d
  }

  /** Runs the checks in order on the decision `d`: each one that fires overwrites it. */
  function Run(cs: seq<Check>, env: Env, d: nat): nat {
    if cs == [] then d
    else
      var c := cs[|cs| - 1];
      if Fires(c, env) then Write(c) else Run(cs[..|cs| - 1], env, d)
  }

  predicate SortedByPriority(cs: seq<Check>) {
    forall i, j :: 0 <= i < j < |cs| ==> cs[i].priority <= cs[j].priority
  }

  lemma {:induction false} GreatestBounds(cs: seq<Check>, env: Env, c: Check)
    requires c in cs && Fires(c, env)
    ensures Write(c) <= Greatest(cs, env)
  {
    var n := |cs| - 1;
    if c in cs[..n] {
      GreatestBounds(cs[..n], env, c);
    } else {
      assert c == cs[n];
    }
  }

  lemma {:induction false} GreatestWitness(cs: seq<Check>, env: Env) returns (c: Check)
    requires Greatest(cs, env) > 0
    ensures c in cs && Fires(c, env) && Write(c) == Greatest(cs, env)
  {
    var n := |cs| - 1;
    if Greatest(cs[..n], env) == Greatest(cs, env) {
      c := GreatestWitness(cs[..n], env);
    } else {
      c := cs[n];
    }
  }

  /** Every check of `cs` that fires is matched by one of `ds` that fires and writes at least as much. */
  ghost predicate Dominated(cs: seq<Check>, ds: seq<Check>, env: Env) {
    forall c :: c in cs && Fires(c, env) ==> exists d :: d in ds && Fires(d, env) && Write(c) <= Write(d)
  }

  lemma DominatedIsLower(cs: seq<Check>, ds: seq<Check>, env: Env)
    requires Dominated(cs, ds, env)
    ensures Greatest(cs, env) <= Greatest(ds, env)
  {
    if Greatest(cs, env) > 0 {
      var c := GreatestWitness(cs, env);
      var d :| d in ds && Fires(d, env) && Write(c) <= Write(d);
      GreatestBounds(ds, env, d);
    }
  }

  /** The decision depends on which checks there are, not on their order. */
  lemma OrderIrrelevant(cs: seq<Check>, ds: seq<Check>, env: Env)
    requires multiset(cs) == multiset(ds)
    ensures Greatest(cs, env) == Greatest(ds, env)
  {
    forall c ensures c in cs <==> c in ds {
      assert c in cs <==> c in multiset(cs);
      assert c in ds <==> c in multiset(ds);
    }
    DominatedIsLower(cs, ds, env);
    DominatedIsLower(ds, cs, env);
  }

  /** In priority order the last write is the greatest one. */
  lemma {:induction false} SortedRunIsGreatest(cs: seq<Check>, env: Env)
    requires SortedByPriority(cs) && AllWellFormed(cs)
    ensures Run(cs, env, 0) == Greatest(cs, env)
  {
    if cs != [] {
      var n := |cs| - 1;
      var init := cs[..n];
      assert forall c :: c in init ==> c in cs;
      SortedRunIsGreatest(init, env);
      if Greatest(init, env) > 0 {
        var c := GreatestWitness(init, env);
        var i :| 0 <= i < n && init[i] == c;
        assert cs[i] in cs && cs[n] in cs && cs[i].priority <= cs[n].priority;
      }
    }
  }

  /** Every order that `std::sort` may leave the checks in gives the same last write. */
  lemma SortOrderIrrelevant(cs: seq<Check>, ds: seq<Check>, env: Env)
    requires multiset(cs) == multiset(ds) && AllWellFormed(cs)
    requires SortedByPriority(cs) && SortedByPriority(ds)
    ensures Run(cs, env, 0) == Run(ds, env, 0) == Greatest(cs, env)
  {
    assert AllWellFormed(ds) by {
      forall d | d in ds ensures d in cs { assert d in multiset(cs); }
    }
    SortedRunIsGreatest(cs, env);
    SortedRunIsGreatest(ds, env);
    OrderIrrelevant(cs, ds, env);
  }

  lemma {:induction false} RunAppend(cs: seq<Check>, ds: seq<Check>, env: Env, d: nat)
    ensures Run(cs + ds, env, d) == Run(ds, env, Run(cs, env, d))
  {
    if ds == [] {
      assert cs + ds == cs;
    } else {
      var n := |ds| - 1;
      assert (cs + ds)[..|cs + ds| - 1] == cs + ds[..n];
      RunAppend(cs, ds[..n], env, d);
    }
  }

  /** In priority order the decision carried along never decreases. */
  lemma RunIsMonotone(cs: seq<Check>, k: nat, l: nat, env: Env)
    requires k <= l <= |cs| && SortedByPriority(cs) && AllWellFormed(cs)
    ensures Run(cs[..k], env, 0) <= Run(cs[..l], env, 0)
  {
    assert forall c :: c in cs[..l] ==> c in cs;
    assert forall c :: c in cs[..k] ==> c in cs[..l];
    SortedRunIsGreatest(cs[..k], env);
    SortedRunIsGreatest(cs[..l], env);
    DominatedIsLower(cs[..k], cs[..l], env);
  }
}
