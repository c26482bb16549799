/**
 Both merging passes together: they never raise the decision, and the exact condition under which
 they keep it for every context and every monitor activity.
 */
module Optimizer {
  import opened Policy
  import opened Decision
  import opened HeaderMerge
  import opened MonitorMerge
  import opened Sequences

  function Optimized(cs: seq<Check>, hs: seq<string>, ms: seq<string>): seq<Check> {
    MergeMonitors(MergeSameHeaders(cs, hs), ms)
  }

  /** Checks as lowering produces them, with every monitor declared and the headers listed once. */
  ghost predicate Ready(cs: seq<Check>, hs: seq<string>, ms: seq<string>) {
    && AllWellFormed(cs) && AllUnmerged(cs) && NoDuplicates(hs)
    && forall c :: c in cs && c.kind.Monitor? ==> c.mon in ms
  }

  /** A header check whose table matches the value `v`. */
  predicate Matches(c: Check, v: nat) {
    match c.kind
    case Exact => v == c.hi
    case Range => c.lo <= v <= c.hi
    case List => v in c.list
    case _ => false
  }

  // ----- the condition -----

  ghost predicate AllActive(env: Env) {
    forall m :: env.active(m)
  }

  /** A range check on `h` drops the value `v`. */
  ghost predicate RangeDrops(cs: seq<Check>, h: string, v: nat) {
    exists c :: c in cs && c.kind.Range? && c.header == h && Write(c) >= DROP && Matches(c, v)
  }

  /** Some header check on `h` drops the value `v`. */
  ghost predicate HeaderDrops(cs: seq<Check>, h: string, v: nat) {
    exists c :: c in cs && c.header == h && Write(c) >= DROP && Matches(c, v)
  }

  /** A group merged under a monitor's actions loses no drop: a range on the header still covers each merged value. */
  ghost predicate HeaderGroupsKept(cs: seq<Check>, hs: seq<string>) {
    forall h, v :: MonitorHeaded(cs, hs, h) && v in MergedList(Group(cs, h)) ==> RangeDrops(cs, h, v)
  }

  /** The value a conditional monitor check asks for survives the fold, or is dropped by a header check anyway. */
  ghost predicate AlternativeKept(cs: seq<Check>, g: seq<Check>, c: Check) {
    && c.extraCheck && c.extraHeaders != []
    && var h := c.extraHeaders[0];
       LastVal(g, h) == Some(Val(c, h)) || HeaderDrops(cs, h, Val(c, h))
  }

  ghost predicate MonitorGroupKept(cs: seq<Check>, m: string) {
    var g := MonGroup(cs, m);
    |g| > 1 && g[0].extraCheck ==> forall c :: c in g ==> AlternativeKept(cs, g, c)
  }

  ghost predicate Faithful(cs: seq<Check>, hs: seq<string>) {
    HeaderGroupsKept(cs, hs) && forall m :: MonitorGroupKept(cs, m)
  }

  // ----- members of the result -----

  lemma OptimizedMonGroup(cs: seq<Check>, hs: seq<string>, m: string)
    ensures MonGroup(MergeSameHeaders(cs, hs), m) == MonGroup(cs, m)
    ensures forall c :: c in MonGroup(cs, m) <==> c in cs && Reads(c, m)
  {
    HeaderPassKeepsMonGroup(cs, hs, m);
    ValidKeepsMonGroup(MergeHeaders(cs, hs), m);
    MonGroupMembers(cs, m);
  }

  /** A monitor check of the result is its monitor's only check, or the fold of all of them. */
  lemma OptimizedMonitors(cs: seq<Check>, hs: seq<string>, ms: seq<string>, c: Check)
    requires Ready(cs, hs, ms) && c.kind.Monitor?
    ensures var g := MonGroup(cs, c.mon);
            c in Optimized(cs, hs, ms) <==> if |g| > 1 then c == MergedMonitor(g) else c in g
  {
    var g := MonGroup(cs, c.mon);
    OptimizedMonGroup(cs, hs, c.mon);
    MergeMonitorsMembers(MergeSameHeaders(cs, hs), ms, c);
    if |g| > 1 {
      assert g[0] in g;
    }
  }

  lemma OptimizedPlain(cs: seq<Check>, hs: seq<string>, ms: seq<string>, c: Check)
    requires !c.kind.Monitor?
    ensures c in Optimized(cs, hs, ms) <==> c in MergeSameHeaders(cs, hs)
  {
    MergeMonitorsMembers(MergeSameHeaders(cs, hs), ms, c);
    ValidMembers(MergeHeaders(cs, hs));
  }

  lemma MonitorChecksOf(cs: seq<Check>, hs: seq<string>, m: string)
    requires AllUnmerged(cs) && MonGroup(cs, m) != []
    ensures MonitorChecks(MonGroup(cs, m), m)
  {
    MonGroupMembers(cs, m);
  }

  lemma OptimizedWellFormed(cs: seq<Check>, hs: seq<string>, ms: seq<string>)
    requires Ready(cs, hs, ms)
    ensures AllWellFormed(Optimized(cs, hs, ms))
    ensures forall c :: c in Optimized(cs, hs, ms) ==> !c.kind.Invalid?
  {
    HeaderPassWellFormed(cs, hs);
    ValidMembers(FoldMonitors(MergeSameHeaders(cs, hs), ms));
    forall c | c in Optimized(cs, hs, ms) ensures WellFormed(c) {
      if c.kind.Monitor? {
        OptimizedMonitors(cs, hs, ms, c);
        OptimizedMonGroup(cs, hs, c.mon);
        var g := MonGroup(cs, c.mon);
        if |g| > 1 {
          assert g[0] in g;
          MergedMonitorReads(g, c.mon);
        }
      } else {
        OptimizedPlain(cs, hs, ms, c);
      }
    }
  }

  /** Every check of the result that fires stands for a check of the input that fires and writes at least as much. */
  lemma OptimizedOrigin(cs: seq<Check>, hs: seq<string>, ms: seq<string>, c: Check, env: Env) returns (o: Check)
    requires Ready(cs, hs, ms) && c in Optimized(cs, hs, ms) && Fires(c, env)
    ensures o in cs && Fires(o, env) && Write(c) <= Write(o)
    ensures !c.kind.Monitor? ==> !o.kind.Monitor? && o.header == c.header
  {
    if c.kind.Monitor? {
      OptimizedMonitors(cs, hs, ms, c);
      OptimizedMonGroup(cs, hs, c.mon);
      OptimizedWellFormed(cs, hs, ms);
      var g := MonGroup(cs, c.mon);
      if |g| > 1 {
        MonitorChecksOf(cs, hs, c.mon);
        o := MergedMonitorOrigin(g, c.mon, env);
      } else {
        o := c;
      }
    } else {
      OptimizedPlain(cs, hs, ms, c);
      o := HeaderPassOrigin(cs, hs, c, env);
    }
  }

  /** Merging never makes the decision greater, whatever the policy. */
  lemma OptimizedNeverRaises(cs: seq<Check>, hs: seq<string>, ms: seq<string>, env: Env)
    requires Ready(cs, hs, ms)
    ensures Greatest(Optimized(cs, hs, ms), env) <= Greatest(cs, env)
  {
    var os := Optimized(cs, hs, ms);
    forall c | c in os && Fires(c, env) ensures exists o :: o in cs && Fires(o, env) && Write(c) <= Write(o) {
      var o := OptimizedOrigin(cs, hs, ms, c, env);
    }
    DominatedIsLower(os, cs, env);
  }

  // ----- the condition is enough -----

  lemma {:induction false} PlainImage(cs: seq<Check>, hs: seq<string>, ms: seq<string>, c: Check, env: Env) returns (r: Check)
    requires Ready(cs, hs, ms) && HeaderGroupsKept(cs, hs)
    requires c in cs && !c.kind.Monitor? && Fires(c, env)
    ensures r in Optimized(cs, hs, ms) && Fires(r, env) && Write(c) <= Write(r)
  {
    var h, v := c.header, env.hdr(c.header);
    if Mergeable(c) && MonitorHeaded(cs, hs, h) {
      var g := Group(cs, h);
      GroupMembers(cs, h);
      MergedListMembers(g);
      assert c in g && v in Values(c);
      assert v in MergedList(g);
      assert RangeDrops(cs, h, v);
      var d :| d in cs && d.kind.Range? && d.header == h && Write(d) >= DROP && Matches(d, v);
      MergedPriority(cs, h, c);
      assert g[0] in g;
      r := HeaderPassImage(cs, hs, d, env);
    } else {
      r := HeaderPassImage(cs, hs, c, env);
    }
    OptimizedPlain(cs, hs, ms, r);
  }

  lemma {:induction false} FoldImage(cs: seq<Check>, hs: seq<string>, ms: seq<string>, c: Check, env: Env) returns (r: Check)
    requires Ready(cs, hs, ms) && Faithful(cs, hs) && |MonGroup(cs, c.mon)| > 1
    requires c in MonGroup(cs, c.mon) && Fires(c, env) && MonitorChecks(MonGroup(cs, c.mon), c.mon)
    ensures Fires(r, env) && (r == MergedMonitor(MonGroup(cs, c.mon)) || (r in Optimized(cs, hs, ms) && DROP <= Write(r)))
  {
    var m, g := c.mon, MonGroup(cs, c.mon);
    MergedMonitorFires(g, m, env);
    r := MergedMonitor(g);
    if g[0].extraCheck {
      assert MonitorGroupKept(cs, m);
      assert AlternativeKept(cs, g, c);
      var h := c.extraHeaders[0];
      if LastVal(g, h) != Some(env.hdr(h)) {
        assert HeaderDrops(cs, h, Val(c, h));
        var d :| d in cs && d.header == h && Write(d) >= DROP && Matches(d, Val(c, h));
        r := PlainImage(cs, hs, ms, d, env);
      }
    }
  }

  lemma MonitorImage(cs: seq<Check>, hs: seq<string>, ms: seq<string>, c: Check, env: Env) returns (r: Check)
    requires Ready(cs, hs, ms) && Faithful(cs, hs)
    requires c in cs && c.kind.Monitor? && Fires(c, env)
    ensures r in Optimized(cs, hs, ms) && Fires(r, env) && Write(c) <= Write(r)
  {
    var g := MonGroup(cs, c.mon);
    OptimizedMonGroup(cs, hs, c.mon);
    if |g| <= 1 {
      r := c;
    } else {
      MonitorChecksOf(cs, hs, c.mon);
      r := FoldImage(cs, hs, ms, c, env);
      assert g[0] in g;
      MergedMonitorReads(g, c.mon);
    }
    if r.kind.Monitor? {
      OptimizedMonitors(cs, hs, ms, r);
    }
  }

  lemma FaithfulKeepsDecision(cs: seq<Check>, hs: seq<string>, ms: seq<string>, env: Env)
    requires Ready(cs, hs, ms) && Faithful(cs, hs)
    ensures Greatest(Optimized(cs, hs, ms), env) == Greatest(cs, env)
  {
    var os := Optimized(cs, hs, ms);
    forall c | c in cs && Fires(c, env) ensures exists r :: r in os && Fires(r, env) && Write(c) <= Write(r) {
      if c.kind.Monitor? {
        var r := MonitorImage(cs, hs, ms, c, env);
      } else {
        var r := PlainImage(cs, hs, ms, c, env);
      }
    }
    DominatedIsLower(cs, os, env);
    OptimizedNeverRaises(cs, hs, ms, env);
  }

  // ----- the condition is needed -----

  function Max(a: nat, b: nat): nat { if a < b then b else a }

  function Above(vs: seq<nat>): nat {
    if vs == [] then 0 else Max(Above(vs[..|vs| - 1]), vs[|vs| - 1] + 1)
  }

  function Ceiling(c: Check): nat {
    Max(Max(c.hi + 1, Above(c.list)), if c.extraHeaders == [] then 0 else Val(c, c.extraHeaders[0]) + 1)
  }

  /** A value above every constant the checks mention. */
  function Quiet(cs: seq<Check>): nat {
    if cs == [] then 0 else Max(Quiet(cs[..|cs| - 1]), Ceiling(cs[|cs| - 1]))
  }

  lemma {:induction false} AboveBounds(vs: seq<nat>, v: nat)
    requires v in vs
    ensures v < Above(vs)
  {
    if v != vs[|vs| - 1] {
      assert v in vs[..|vs| - 1];
      AboveBounds(vs[..|vs| - 1], v);
    }
  }

  lemma {:induction false} QuietBounds(cs: seq<Check>, c: Check)
    requires c in cs
    ensures Ceiling(c) <= Quiet(cs)
  {
    if c != cs[|cs| - 1] {
      assert c in cs[..|cs| - 1];
      QuietBounds(cs[..|cs| - 1], c);
    }
  }

  /** No header check matches the quiet value. */
  lemma QuietMatches(cs: seq<Check>, c: Check)
    requires c in cs
    ensures !Matches(c, Quiet(cs))
    ensures c.extraHeaders != [] ==> Val(c, c.extraHeaders[0]) < Quiet(cs)
  {
    QuietBounds(cs, c);
    if c.kind.List? && Quiet(cs) in c.list {
      AboveBounds(c.list, Quiet(cs));
    }
  }

  /** The value `v` at header `h` and silence elsewhere; every monitor is active except `m`. */
  ghost function Probe(cs: seq<Check>, h: string, v: nat, m: Option<string>): Env {
    Env(k => if k == h then v else Quiet(cs), n => m != Some(n))
  }

  /** Under a probe only header checks on `h` that match `v`, and readers of `m`, can fire. */
  lemma ProbeOrigin(cs: seq<Check>, hs: seq<string>, ms: seq<string>, h: string, v: nat, m: Option<string>, c: Check)
    requires Ready(cs, hs, ms) && c in Optimized(cs, hs, ms) && Fires(c, Probe(cs, h, v, m))
    ensures c.kind.Monitor? ==> Some(c.mon) == m
    ensures !c.kind.Monitor? ==> c.header == h && exists o :: o in cs && o.header == h && Matches(o, v) && Write(c) <= Write(o)
  {
    if !c.kind.Monitor? {
      var o := OptimizedOrigin(cs, hs, ms, c, Probe(cs, h, v, m));
      QuietMatches(cs, o);
    }
  }

  /** All checks that fire in an environment write less than a drop. */
  lemma NoDropBelow(cs: seq<Check>, env: Env)
    requires forall c :: c in cs && Fires(c, env) ==> Write(c) < DROP
    ensures Greatest(cs, env) < DROP
  {
    if Greatest(cs, env) > 0 {
      var c := GreatestWitness(cs, env);
    }
  }

  lemma {:induction false} UncoveredValue(cs: seq<Check>, hs: seq<string>, ms: seq<string>, h: string, v: nat, c: Check)
    requires Ready(cs, hs, ms) && MonitorHeaded(cs, hs, h) && !RangeDrops(cs, h, v)
    requires c in Optimized(cs, hs, ms) && Fires(c, Probe(cs, h, v, None))
    ensures Write(c) < DROP
  {
    ProbeOrigin(cs, hs, ms, h, v, None, c);
    OptimizedPlain(cs, hs, ms, c);
    MergeSameHeadersMembers(cs, hs, c);
    if IsMerged(cs, hs, c) {
      var k :| k in hs && ShouldMerge(Group(cs, k)) && c == Merged(Group(cs, k));
      HeaderOfMerged(cs, k);
      assert Group(cs, k)[0] in cs;
    } else {
      assert Matches(c, v);
    }
  }

  lemma {:induction false} LostHeaderGroup(cs: seq<Check>, hs: seq<string>, ms: seq<string>) returns (env: Env)
    requires Ready(cs, hs, ms) && !HeaderGroupsKept(cs, hs)
    ensures Greatest(Optimized(cs, hs, ms), env) < Greatest(cs, env) && AllActive(env)
  {
    var h, v :| MonitorHeaded(cs, hs, h) && v in MergedList(Group(cs, h)) && !RangeDrops(cs, h, v);
    env := Probe(cs, h, v, None);
    var g, os := Group(cs, h), Optimized(cs, hs, ms);
    GroupMembers(cs, h);
    MergedListMembers(g);
    assert g[0] in g;
    var o :| o in g && v in Values(o);
    MergedPriority(cs, h, o);
    GreatestBounds(cs, env, o);
    forall c | c in os && Fires(c, env) ensures Write(c) < DROP {
      UncoveredValue(cs, hs, ms, h, v, c);
    }
    NoDropBelow(os, env);
  }

  /** A fold whose first check is conditional is silent under a probe of a value it does not hold. */
  lemma {:induction false} FoldSilent(cs: seq<Check>, m: string, h: string, v: nat)
    requires AllUnmerged(cs) && MonGroup(cs, m) != [] && MonGroup(cs, m)[0].extraCheck
    requires LastVal(MonGroup(cs, m), h) != Some(v)
    ensures !Fires(MergedMonitor(MonGroup(cs, m)), Probe(cs, h, v, Some(m)))
  {
    var g, env := MonGroup(cs, m), Probe(cs, h, v, Some(m));
    MonGroupMembers(cs, m);
    MergedMonitorFires(g, m, env);
    forall k ensures LastVal(g, k) != Some(env.hdr(k)) {
      if k != h && LastVal(g, k).Some? {
        var d := LastValWitness(g, k);
        QuietMatches(cs, d);
      }
    }
  }

  lemma LostValue(cs: seq<Check>, hs: seq<string>, ms: seq<string>, m: string, h: string, v: nat, r: Check)
    requires Ready(cs, hs, ms) && |MonGroup(cs, m)| > 1 && MonGroup(cs, m)[0].extraCheck
    requires LastVal(MonGroup(cs, m), h) != Some(v) && !HeaderDrops(cs, h, v)
    requires r in Optimized(cs, hs, ms) && Fires(r, Probe(cs, h, v, Some(m)))
    ensures Write(r) < DROP
  {
    ProbeOrigin(cs, hs, ms, h, v, Some(m), r);
    if r.kind.Monitor? {
      OptimizedMonitors(cs, hs, ms, r);
      FoldSilent(cs, m, h, v);
    }
  }

  lemma {:induction false} QuietLastVal(cs: seq<Check>, m: string, h: string)
    requires AllUnmerged(cs)
    ensures LastVal(MonGroup(cs, m), h) != Some(Quiet(cs)) && !HeaderDrops(cs, h, Quiet(cs))
  {
    var g := MonGroup(cs, m);
    MonGroupMembers(cs, m);
    if LastVal(g, h).Some? {
      var d := LastValWitness(g, h);
      QuietMatches(cs, d);
    }
    forall c | c in cs ensures !Matches(c, Quiet(cs)) {
      QuietMatches(cs, c);
    }
  }

  lemma {:induction false} LostAlternative(cs: seq<Check>, hs: seq<string>, ms: seq<string>, m: string) returns (env: Env)
    requires Ready(cs, hs, ms) && !MonitorGroupKept(cs, m)
    ensures Greatest(Optimized(cs, hs, ms), env) < Greatest(cs, env)
  {
    var g, os := MonGroup(cs, m), Optimized(cs, hs, ms);
    MonGroupMembers(cs, m);
    var c :| c in g && !AlternativeKept(cs, g, c);
    var h := if c.extraCheck then c.extraHeaders[0] else "";
    var v := if c.extraCheck then Val(c, h) else Quiet(cs);
    QuietLastVal(cs, m, h);
    env := Probe(cs, h, v, Some(m));
    assert Fires(c, env);
    GreatestBounds(cs, env, c);
    forall r | r in os && Fires(r, env) ensures Write(r) < DROP {
      LostValue(cs, hs, ms, m, h, v, r);
    }
    NoDropBelow(os, env);
  }

  /** While every monitor is active, merging keeps the decision exactly when no merged group loses a drop to a monitor's actions. */
  lemma ActiveMergingIsExact(cs: seq<Check>, hs: seq<string>, ms: seq<string>)
    requires Ready(cs, hs, ms)
    ensures (forall env: Env :: AllActive(env) ==> Greatest(Optimized(cs, hs, ms), env) == Greatest(cs, env))
            <==> HeaderGroupsKept(cs, hs)
  {
    if HeaderGroupsKept(cs, hs) {
      forall env: Env | AllActive(env) ensures Greatest(Optimized(cs, hs, ms), env) == Greatest(cs, env) {
        ActiveKeepsDecision(cs, hs, ms, env);
      }
    } else {
      var env := LostHeaderGroup(cs, hs, ms);
    }
  }

  lemma ActiveKeepsDecision(cs: seq<Check>, hs: seq<string>, ms: seq<string>, env: Env)
    requires Ready(cs, hs, ms) && HeaderGroupsKept(cs, hs) && AllActive(env)
    ensures Greatest(Optimized(cs, hs, ms), env) == Greatest(cs, env)
  {
    var os := Optimized(cs, hs, ms);
    forall c | c in cs && Fires(c, env) ensures exists r :: r in os && Fires(r, env) && Write(c) <= Write(r) {
      var r := PlainImage(cs, hs, ms, c, env);
    }
    DominatedIsLower(cs, os, env);
    OptimizedNeverRaises(cs, hs, ms, env);
  }

  /** The merging passes keep the decision in every environment exactly when the policy is faithful. */
  lemma MergingIsExact(cs: seq<Check>, hs: seq<string>, ms: seq<string>)
    requires Ready(cs, hs, ms)
    ensures (forall env: Env :: Greatest(Optimized(cs, hs, ms), env) == Greatest(cs, env)) <==> Faithful(cs, hs)
  {
    if Faithful(cs, hs) {
      forall env: Env ensures Greatest(Optimized(cs, hs, ms), env) == Greatest(cs, env) {
        FaithfulKeepsDecision(cs, hs, ms, env);
      }
    } else if !HeaderGroupsKept(cs, hs) {
      var env := LostHeaderGroup(cs, hs, ms);
    } else {
      var m :| !MonitorGroupKept(cs, m);
      var env := LostAlternative(cs, hs, ms, m);
    }
  }
}
