/**
 The switch with its monitor registers, in the order of the template: the policy is evaluated before
 the timestamp is set. Monitors then never turn inactive, and the switch enforces the policy without
 its monitor statements.
 */
module TemplateOrder {
  import opened Policy
  import opened Decision
  import opened Optimizer
  import opened Emission
  import opened Compiler
  import opened Correctness
  import opened DataPlane
  import opened Runs
  import opened Sequences
  import MonitorEvaluation
  import Monitored
  import Monitors

  // ----- the policy without its monitor statements -----

  function Plain(ss: seq<Stmt>): seq<Stmt> {
    if ss == [] then [] else Plain(ss[..|ss| - 1]) + if ss[|ss| - 1].MonStmt? then [] else [ss[|ss| - 1]]
  }

  function WithoutMonitors(p: Policy.Program): Policy.Program {
    p.(stmts := Plain(p.stmts))
  }

  lemma {:induction false} PlainMembers(ss: seq<Stmt>)
    ensures forall s :: s in Plain(ss) <==> s in ss && !s.MonStmt?
  {
    if ss != [] {
      var n := |ss| - 1;
      PlainMembers(ss[..n]);
      assert ss == ss[..n] + [ss[n]];
    }
  }

  /** What decides, by membership. */
  ghost predicate Decides(p: Policy.Program, ss: seq<Stmt>, env: Env, d: nat) {
    && (forall s :: s in ss && StmtFires(p, s, env) ==> StmtValue(s) <= d)
    && (d == 0 || exists s :: s in ss && StmtFires(p, s, env) && StmtValue(s) == d)
  }

  lemma DecidesIsDecision(p: Policy.Program, env: Env, d: nat)
    ensures IsDecision(p, env, d) <==> Decides(p, p.stmts, env, d)
  {
    if IsDecision(p, env, d) && d != 0 {
      var i :| 0 <= i < |p.stmts| && StmtFires(p, p.stmts[i], env) && StmtValue(p.stmts[i]) == d;
      assert p.stmts[i] in p.stmts;
    }
  }

  /** While every monitor is active its statements are dead. */
  lemma {:induction false} MonitorsAreDead(p: Policy.Program, env: Env, d: nat)
    requires AllActive(env)
    ensures IsDecision(p, env, d) <==> IsDecision(WithoutMonitors(p), env, d)
  {
    var q := WithoutMonitors(p);
    PlainMembers(p.stmts);
    DecidesIsDecision(p, env, d);
    DecidesIsDecision(q, env, d);
    forall s ensures StmtFires(p, s, env) == StmtFires(q, s, env) {
    }
    forall s | StmtFires(p, s, env) ensures !s.MonStmt? {
    }
  }

  /** While monitors are active, the generated program decides like the policy without them exactly when merging keeps the decision. */
  lemma {:induction false} DeadDecision(p: Policy.Program, hs: seq<string>, ds: seq<Check>, env: Env)
    requires SortedChecks(p, hs, ds) && NoDuplicates(hs) && DistinctNames(Final(ds)) && AllActive(env)
    ensures IsDecision(WithoutMonitors(p), env, Decide(Generate(ds), env)) <==>
              Greatest(Optimized(Lower(p), hs, Names(p.monitors)), env) == Greatest(Lower(p), env)
  {
    var d := Decide(Generate(ds), env);
    GeneratedDecision(p, hs, ds, env);
    LowerDecision(p, env, d);
    MonitorsAreDead(p, env, d);
  }

  /** So it does in every context exactly when no merged group loses a drop. */
  lemma {:induction false} DeadMonitorsExact(p: Policy.Program, hs: seq<string>, ds: seq<Check>)
    requires SortedChecks(p, hs, ds) && NoDuplicates(hs) && DistinctNames(Final(ds))
    ensures (forall env: Env :: AllActive(env) ==> IsDecision(WithoutMonitors(p), env, Decide(Generate(ds), env)))
            <==> HeaderGroupsKept(Lower(p), hs)
  {
    LowerReady(p, hs);
    ActiveMergingIsExact(Lower(p), hs, Names(p.monitors));
    forall env: Env | AllActive(env)
      ensures IsDecision(WithoutMonitors(p), env, Decide(Generate(ds), env)) <==>
                Greatest(Optimized(Lower(p), hs, Names(p.monitors)), env) == Greatest(Lower(p), env)
    {
      DeadDecision(p, hs, ds, env);
    }
  }

  // ----- the switch in the template's order -----

  /** The timestamp is set after evaluation, so the policy is evaluated at time 0. */
  ghost predicate AsOrdered(es: seq<Monitored.Event>) {
    forall i :: 0 <= i < |es| && es[i].Serve? ==> es[i].time == 0
  }

  /** Then every use of a monitor finds it active. */
  lemma NeverInactive(hs: Hashes, out: Output, es: seq<Monitored.Event>, j: nat)
    requires AsOrdered(es) && j < |Monitored.Run(hs, out, es).log|
    ensures Monitored.Run(hs, out, es).log[j].active
  {
    var st := Monitored.Run(hs, out, es);
    var log, u := st.log, st.log[j];
    Monitored.RunRecorded(hs, out, es);
    forall i | 0 <= i < |log| ensures log[i].time == 0 {
      Monitored.UseTimes(hs, out, es, i);
    }
    ZeroTouches(log[..j], u.mon);
    assert MonitorEvaluation.UseOk(log, j);
  }

  lemma ZeroTouches(log: seq<MonitorEvaluation.Use>, m: string)
    requires forall i :: 0 <= i < |log| ==> log[i].time == 0
    ensures Monitors.Elapsed(0, Monitors.After(MonitorEvaluation.TouchesOf(log, m))) < Monitors.TIMEOUT
  {
    var ts, x := MonitorEvaluation.TouchesOf(log, m), Monitors.Touch(false, 0);
    forall k | 0 <= k < |ts + [x]| ensures (ts + [x])[k].time == 0 {
      if k < |ts| {
        Monitored.TouchMembers(log, m, ts[k]);
        assert ts[k] in ts;
      }
    }
    Monitors.AlwaysActiveAsOrdered(ts + [x], |ts|);
    assert (ts + [x])[..|ts|] == ts;
  }

  lemma {:induction false} SawActive(log: seq<MonitorEvaluation.Use>, id: nat, m: string)
    requires forall j :: 0 <= j < |log| ==> log[j].active
    ensures Monitored.Saw(log, id, m)
  {
    if log != [] {
      SawActive(log[..|log| - 1], id, m);
    }
  }

  /**
   In every interleaving in the template's order: once a context packet has made its last pass and still owns its
   slot, the data packets of its address are treated as the policy without its monitor statements decides,
   provided no merged group loses a drop.
   */
  lemma {:induction false} PlainPolicyEnforced(p: Policy.Program, headers: seq<string>, ds: seq<Check>, hs: Hashes, es: seq<Monitored.Event>,
                            i: nat, id: nat, k: FlowKey, resub: nat, env: Env, d: nat)
    requires SortedChecks(p, headers, ds) && NoDuplicates(headers) && DistinctNames(Final(ds)) && HeaderGroupsKept(Lower(p), headers)
    requires AsOrdered(es) && Monitored.Owner(hs, Generate(ds), Monitored.Run(hs, Generate(ds), es), i, id, k)
    requires env.hdr == Monitored.Run(hs, Generate(ds), es).born[id].hdr && IsDecision(WithoutMonitors(p), env, d)
    ensures MissOutcome(hs, State(hs, Monitored.Run(hs, Generate(ds), es).passes), k, resub) == Enforce(d)
  {
    var out, st := Generate(ds), Monitored.Run(hs, Generate(ds), es);
    var seen := Env(st.born[id].hdr, Monitored.Seen(st.log, id));
    forall m ensures seen.active(m) {
      forall j | 0 <= j < |st.log| ensures st.log[j].active {
        NeverInactive(hs, out, es, j);
      }
      SawActive(st.log, id, m);
    }
    PlainDecision(p, env, seen, d);
    Monitored.OwnerDecides(p, headers, ds, hs, es, i, id, k, resub);
    DeadMonitorsExact(p, headers, ds);
    DeadUnique(p, seen, d, Decide(out, seen));
  }

  /** Without monitor statements activity does not matter. */
  lemma PlainDecision(p: Policy.Program, x: Env, y: Env, d: nat)
    requires x.hdr == y.hdr
    ensures IsDecision(WithoutMonitors(p), x, d) == IsDecision(WithoutMonitors(p), y, d)
  {
    var q := WithoutMonitors(p);
    PlainMembers(p.stmts);
    forall i | 0 <= i < |q.stmts| ensures !q.stmts[i].MonStmt? {
      assert q.stmts[i] in q.stmts;
    }
    Monitored.SameDecision(q, x, y, d);
  }

  lemma DeadUnique(p: Policy.Program, env: Env, d: nat, e: nat)
    requires Accepted(p) && AllActive(env) && IsDecision(WithoutMonitors(p), env, d) && IsDecision(WithoutMonitors(p), env, e)
    ensures d == e
  {
    MonitorsAreDead(p, env, d);
    MonitorsAreDead(p, env, e);
    LowerDecision(p, env, d);
    LowerDecision(p, env, e);
  }
}
