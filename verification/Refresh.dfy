/**
 What a context packet does before its last pass: every pass stores the decision so far, so data
 packets can meet a partial decision.
 */
module Refresh {
  import opened Policy
  import opened Decision
  import opened HeaderMerge
  import opened Optimizer
  import opened Identity
  import opened Allocation
  import opened Emission
  import opened Compiler
  import opened Correctness
  import opened Naming
  import opened SortOrders
  import opened DataPlane
  import opened Runs
  import opened Sequences
  import Network

  /** Check `j` fires and has been applied by the end of round `k`. */
  predicate FiredBy(ds: seq<Check>, env: Env, k: nat, j: nat) {
    j < |ds| && Placed(ds)[j].rec <= k && Fires(ds[j], env)
  }

  /** The rounds up to `k` settle the decision `d`: one of their checks writes it, or nothing has been written and nothing or a drop is to come. */
  ghost predicate Settled(ds: seq<Check>, env: Env, k: nat, d: nat) {
    || d == 0
    || (exists j: nat :: FiredBy(ds, env, k, j) && Write(ds[j]) == d)
    || (d == DROP && forall j: nat :: FiredBy(ds, env, k, j) ==> Write(ds[j]) == 0)
  }

  lemma FiredInPrefix(ds: seq<Check>, k: nat, j: nat)
    requires j < |ds| && GapFree(Final(ds))
    ensures j < UpTo(Final(ds), k) <==> Placed(ds)[j].rec <= k
  {
    UpToRounds(Final(ds), k, j);
    FinalLaid(ds);
  }

  /** The greatest value written so far. */
  lemma {:induction false} PartialExact(ds: seq<Check>, env: Env, k: nat, d: nat)
    requires GapFree(Final(ds)) && d <= DROP && Greatest(ds[..UpTo(Final(ds), k)], env) <= d
    ensures Enforce(Greatest(ds[..UpTo(Final(ds), k)], env)) == Enforce(d) <==> Settled(ds, env, k, d)
  {
    var n := UpTo(Final(ds), k);
    var e := Greatest(ds[..n], env);
    forall j: nat | FiredBy(ds, env, k, j) ensures Write(ds[j]) <= e {
      FiredInPrefix(ds, k, j);
      assert ds[..n][j] == ds[j];
      GreatestBounds(ds[..n], env, ds[j]);
    }
    if e > 0 {
      var c := GreatestWitness(ds[..n], env);
      var j :| 0 <= j < n && ds[..n][j] == c;
      FiredInPrefix(ds, k, j);
      assert FiredBy(ds, env, k, j) && Write(ds[j]) == e;
    }
  }

  lemma DecisionBound(p: Policy.Program, env: Env, d: nat)
    requires IsDecision(p, env, d)
    ensures d <= DROP
  {
  }

  /** For a faithful policy the checks in any order decide what it says. */
  lemma {:induction false} WholeDecision(p: Policy.Program, hs: seq<string>, ds: seq<Check>, env: Env, d: nat)
    requires SortedChecks(p, hs, ds) && NoDuplicates(hs) && Faithful(Lower(p), hs) && IsDecision(p, env, d)
    ensures Greatest(ds, env) == d <= DROP
  {
    LowerReady(p, hs);
    LowerDecision(p, env, d);
    FaithfulKeepsDecision(Lower(p), hs, Names(p.monitors), env);
    OrderIrrelevant(Optimized(Lower(p), hs, Names(p.monitors)), ds, env);
    DecisionBound(p, env, d);
  }

  lemma {:induction false} PrefixRun(ds: seq<Check>, n: nat, env: Env)
    requires SortedByPriority(ds) && AllWellFormed(ds) && n <= |ds|
    ensures Run(ds[..n], env, 0) == Greatest(ds[..n], env)
  {
    assert forall c :: c in ds[..n] ==> c in ds;
    SortedRunIsGreatest(ds[..n], env);
  }

  lemma {:induction false} PartialGreatest(p: Policy.Program, hs: seq<string>, ds: seq<Check>, env: Env, k: nat)
    requires SortedChecks(p, hs, ds) && NoDuplicates(hs) && DistinctNames(Final(ds)) && k <= End(ds).rec
    ensures PassDecision(Generate(ds), env, k) == Greatest(ds[..UpTo(Final(ds), k)], env) && GapFree(Final(ds))
  {
    SortedFacts(p, hs, ds);
    FinalFacts(ds);
    PassIsPrefix(p, hs, ds, env, k);
    PrefixRun(ds, UpTo(Final(ds), k), env);
  }

  lemma {:induction false} PartialDecision(p: Policy.Program, hs: seq<string>, ds: seq<Check>, env: Env, k: nat, d: nat)
    requires SortedChecks(p, hs, ds) && NoDuplicates(hs) && DistinctNames(Final(ds)) && Faithful(Lower(p), hs)
    requires k <= End(ds).rec && IsDecision(p, env, d)
    ensures Enforce(PassDecision(Generate(ds), env, k)) == Enforce(d) <==> Settled(ds, env, k, d)
  {
    PartialGreatest(p, hs, ds, env, k);
    WholeDecision(p, hs, ds, env, d);
    PrefixLower(ds, UpTo(Final(ds), k), env);
    PartialExact(ds, env, k, d);
  }

  lemma {:induction false} PrefixLower(ds: seq<Check>, n: nat, env: Env)
    requires n <= |ds|
    ensures Greatest(ds[..n], env) <= Greatest(ds, env)
  {
    if n < |ds| {
      assert ds[..|ds| - 1][..n] == ds[..n];
      PrefixLower(ds[..|ds| - 1], n, env);
    } else {
      assert ds[..n] == ds;
    }
  }

  /**
   For a faithful policy, in every interleaving: while a context packet owns its slot, after any of its passes, data
   packets of its address are treated as the policy decides exactly when the rounds so far settle the decision.
   */
  lemma {:induction false} EarlyEnforcedExact(p: Policy.Program, headers: seq<string>, ds: seq<Check>, hs: Hashes, es: seq<Network.Event>,
                           i: nat, k: FlowKey, resub: nat, d: nat)
    requires SortedChecks(p, headers, ds) && NoDuplicates(headers) && DistinctNames(Final(ds)) && Faithful(Lower(p), headers)
    requires Network.Latest(hs, Network.Run(hs, Generate(ds), es).passes, i)
    requires var w := Network.Run(hs, Generate(ds), es).passes[i].key; Slot(hs, w) == Slot(hs, k) && w.ip == k.ip
    requires var st := Network.Run(hs, Generate(ds), es);
             && |st.ids| == |st.passes| && st.ids[i] in st.born && st.born[st.ids[i]].ContextFlight?
             && Network.Visits(st.ids[..i], st.ids[i]) <= Generate(ds).recirTimes
             && IsDecision(p, st.born[st.ids[i]].env, d)
    ensures var st := Network.Run(hs, Generate(ds), es);
            MissOutcome(hs, State(hs, st.passes), k, resub) == Enforce(d) <==>
              Settled(ds, st.born[st.ids[i]].env, Network.Visits(st.ids[..i], st.ids[i]), d)
  {
    var st := Network.Run(hs, Generate(ds), es);
    Network.EnforcedFromContext(hs, Generate(ds), es, i, k, resub);
    PartialDecision(p, headers, ds, st.born[st.ids[i]].env, Network.Visits(st.ids[..i], st.ids[i]), d);
  }

  // ----- a refresh that forwards what the policy drops -----

  /** Seven statements forward h1 < 5 to 2, an eighth one drops it. */
  function Delayed(): Policy.Program {
    Policy.Program(seq(8, i => PredStmt(Pred("h1", Lt, 5), if i < 7 then Fwd(2) else Drop, Some(Fwd(1)))), map[], [], ["h1"])
  }

  /** Eight range checks on values up to 5: seven that forward and one that drops. */
  ghost predicate Late(cs: seq<Check>) {
    && |cs| == 8
    && forall i :: 0 <= i < 8 ==> UpToFive(cs[i]) && cs[i].ifAct == if i < 7 then 2 else DROP
  }

  predicate UpToFive(c: Check) {
    c.kind.Range? && c.header == "h1" && c.lo == 0 && c.hi == 5 && c.priority == c.ifAct
  }

  lemma DelayedChecks()
    ensures Accepted(Delayed()) && Late(Lower(Delayed())) && Names(Delayed().monitors) == []
  {
    assert Accepted(Delayed());
  }

  /** Range checks do not merge. */
  lemma RangesStay(cs: seq<Check>, hs: seq<string>)
    requires forall c :: c in cs ==> c.kind.Range?
    ensures Optimized(cs, hs, []) == cs && HeadsRetired(cs, hs)
  {
    forall h ensures !ShouldMerge(Group(cs, h)) {
      GroupMembers(cs, h);
      NoneMergeable(Group(cs, h));
    }
    NothingToMerge(cs, hs);
    ValidIdempotent(cs);
  }

  lemma BelowDrop(cs: seq<Check>)
    requires Late(cs)
    ensures Below(cs, DROP) == 7
  {
    AllBelow(cs[..7], DROP);
  }

  /** Sorting puts the one that drops last. */
  lemma LateSorted(cs: seq<Check>, ds: seq<Check>)
    requires Late(cs) && SortedByPriority(ds) && multiset(ds) == multiset(cs)
    ensures Late(ds)
  {
    BelowDrop(cs);
    BelowOfPermutation(cs, ds, DROP);
    assert |multiset(cs)| == |cs| && |multiset(ds)| == |ds|;
    forall j | 0 <= j < 8 ensures UpToFive(ds[j]) && ds[j].ifAct == if j < 7 then 2 else DROP {
      assert ds[j] in ds;
      PermutedMembers(cs, ds, ds[j]);
      SortedSplit(ds, DROP, j);
    }
  }

  lemma LateRounds(ds: seq<Check>, j: nat)
    requires Late(ds) && j < 8
    ensures End(ds).rec == 1 && Placed(ds)[j].rec == if j < 7 then 0 else 1
  {
    PlacedAt(ds, j);
    EndFlat(ds[..j + 1]);
    EndFlat(ds);
  }

  lemma LateUpTo(ds: seq<Check>)
    requires Late(ds) && GapFree(Final(ds))
    ensures UpTo(Final(ds), 0) == 7
  {
    LateRounds(ds, 6);
    LateRounds(ds, 7);
    FiredInPrefix(ds, 0, 6);
    FiredInPrefix(ds, 0, 7);
  }

  lemma {:induction false} DelayedOrder(ds: seq<Check>)
    requires SortedChecks(Delayed(), ["h1"], ds)
    ensures Late(ds) && DistinctNames(Final(ds))
  {
    var cs := Lower(Delayed());
    DelayedChecks();
    RangesStay(cs, ["h1"]);
    GeneratedNames(Delayed(), ["h1"], ds);
    LateSorted(cs, ds);
  }

  lemma LateRun(ds: seq<Check>, env: Env)
    requires Late(ds) && env.hdr("h1") <= 5
    ensures Run(ds[..7], env, 0) == 2
  {
    assert ds[..7][6] == ds[6] && Fires(ds[6], env);
  }

  /** After the first pass the decision is to forward. */
  lemma {:induction false} DelayedPartial(ds: seq<Check>, env: Env)
    requires SortedChecks(Delayed(), ["h1"], ds) && env.hdr("h1") <= 5
    ensures PassDecision(Generate(ds), env, 0) == 2
  {
    DelayedOrder(ds);
    PassIsPrefix(Delayed(), ["h1"], ds, env, 0);
    SortedFacts(Delayed(), ["h1"], ds);
    FinalFacts(ds);
    LateUpTo(ds);
    LateRun(ds, env);
  }

  lemma DelayedDrops(env: Env)
    requires env.hdr("h1") <= 5
    ensures IsDecision(Delayed(), env, DROP)
  {
    assert StmtFires(Delayed(), Delayed().stmts[7], env);
  }

  /** One packet arrives after any run and makes its first pass. */
  lemma FirstPass(out: Output, hs: Hashes, es: seq<Network.Event>, id: nat, k: FlowKey, env: Env, t: nat)
    requires id !in Network.Run(hs, out, es).born
    ensures var f := Network.ContextFlight(k, env, 0, 0);
            Network.Run(hs, out, es + [Network.Arrive(id, f)] + [Network.Serve(id, t, None)]).passes ==
              Network.Run(hs, out, es).passes + [ContextPass(k, t, PassDecision(out, env, 0))]
  {
    var f := Network.ContextFlight(k, env, 0, 0);
    var x := es + [Network.Arrive(id, f)];
    var y := x + [Network.Serve(id, t, None)];
    assert x[..|es|] == es && y[..|x|] == x;
    Network.EvaluateContinues(out, f);
  }

  lemma FreshSlot(hs: Hashes, ps: seq<Pass>, k: FlowKey, t: nat, d: nat, resub: nat)
    ensures MissOutcome(hs, State(hs, ps + [ContextPass(k, t, d)]), k, resub) == Enforce(d)
  {
    var qs := ps + [ContextPass(k, t, d)];
    assert qs[..|ps|] == ps;
    CacheIsLastWriter(hs, qs, Slot(hs, k));
  }

  /**
   Whatever has happened before: a context packet that the policy drops, after its first pass, makes the switch
   forward the data packets of its connection, however often earlier context packets had them dropped.
   */
  lemma {:induction false} RefreshForwards(ds: seq<Check>, hs: Hashes, es: seq<Network.Event>, id: nat, k: FlowKey, env: Env, t: nat, resub: nat)
    requires SortedChecks(Delayed(), ["h1"], ds) && env.hdr("h1") <= 5 && id !in Network.Run(hs, Generate(ds), es).born
    ensures IsDecision(Delayed(), env, DROP)
    ensures var fs := es + [Network.Arrive(id, Network.ContextFlight(k, env, 0, 0))] + [Network.Serve(id, t, None)];
            MissOutcome(hs, State(hs, Network.Run(hs, Generate(ds), fs).passes), k, resub) == Forwarded(2)
  {
    DelayedDrops(env);
    DelayedPartial(ds, env);
    FirstPass(Generate(ds), hs, es, id, k, env, t);
    FreshSlot(hs, Network.Run(hs, Generate(ds), es).passes, k, t, 2, resub);
  }
}
