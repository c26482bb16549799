/**
 End-to-end correctness of the compiler: what the generated program decides, against the policy it
 was generated from.
 */
module Correctness {
  import opened Policy
  import opened Decision
  import opened HeaderMerge
  import opened MonitorMerge
  import opened Optimizer
  import opened Identity
  import opened Allocation
  import opened Emission
  import opened Compiler
  import opened Sequences

  /** The decision in `log.ctx_dec` after the pass with counter `k`, starting from 0. */
  function PassDecision(out: Output, env: Env, k: nat): nat {
    RunTables(out.entries, Executed(out.blocks, k), env, 0)
  }

  /** The decision once the counter has reached RECIR_TIMES. */
  function Decide(out: Output, env: Env): nat {
    PassDecision(out, env, out.recirTimes)
  }

  // ----- lowering -----

  lemma {:induction false} MonitorDeclared(ms: seq<MonitorDef>, name: string)
    requires MonitorHeader(ms, name).Some?
    ensures name in Names(ms)
  {
    var n := |ms| - 1;
    if ms[n].name == name {
      assert Names(ms)[n] == name;
    } else {
      MonitorDeclared(ms[..n], name);
      assert Names(ms)[..n] == Names(ms[..n]);
    }
  }

  lemma {:induction false} LowerReady(p: Policy.Program, hs: seq<string>)
    requires Accepted(p) && NoDuplicates(hs)
    ensures Ready(Lower(p), hs, Names(p.monitors)) && DistinctIds(Lower(p))
  {
    var env := Env(h => 0, m => true);
    forall c | c in Lower(p) ensures WellFormed(c) && Unmerged(c) && (c.kind.Monitor? ==> c.mon in Names(p.monitors)) {
      var i :| 0 <= i < |p.stmts| && Lower(p)[i] == c;
      LowerStmtMeaning(p, p.stmts[i], env);
      if c.kind.Monitor? {
        MonitorDeclared(p.monitors, p.stmts[i].mon);
      }
    }
  }

  lemma LowerAt(p: Policy.Program, env: Env, i: nat)
    requires Accepted(p) && i < |p.stmts|
    ensures Lower(p)[i] in Lower(p) && Write(Lower(p)[i]) == StmtValue(p.stmts[i])
    ensures Fires(Lower(p)[i], env) <==> StmtFires(p, p.stmts[i], env)
  {
    LowerStmtMeaning(p, p.stmts[i], env);
  }

  /** The decision the policy asks for is the greatest one among its lowered checks, and it is unique. */
  lemma {:induction false} LowerDecision(p: Policy.Program, env: Env, d: nat)
    requires Accepted(p)
    ensures IsDecision(p, env, d) <==> d == Greatest(Lower(p), env)
  {
    var cs := Lower(p);
    var g := Greatest(cs, env);
    forall i | 0 <= i < |p.stmts| && StmtFires(p, p.stmts[i], env) ensures StmtValue(p.stmts[i]) <= g {
      LowerAt(p, env, i);
      GreatestBounds(cs, env, cs[i]);
    }
    if g > 0 {
      var c := GreatestWitness(cs, env);
      var i :| 0 <= i < |cs| && cs[i] == c;
      LowerAt(p, env, i);
    }
    assert IsDecision(p, env, g);
  }

  // ----- the generated program -----

  lemma {:induction false} OptimizedValuesKnown(cs: seq<Check>, hs: seq<string>, ms: seq<string>, c: Check)
    requires Ready(cs, hs, ms) && c in Optimized(cs, hs, ms)
    ensures ValuesKnown(c)
  {
    if c.kind.Monitor? {
      OptimizedMonitors(cs, hs, ms, c);
      OptimizedMonGroup(cs, hs, c.mon);
      var g := MonGroup(cs, c.mon);
      if |g| > 1 {
        assert g[0] in g;
        forall h | h in c.extraHeaders ensures h in c.hToVal {
          AddChecksValues(g[0], g[1..], h);
        }
      } else {
        assert Unmerged(c);
      }
    } else {
      OptimizedPlain(cs, hs, ms, c);
      MergeSameHeadersMembers(cs, hs, c);
      assert c in cs ==> Unmerged(c);
    }
  }

  lemma SortedFacts(p: Policy.Program, hs: seq<string>, ds: seq<Check>)
    requires SortedChecks(p, hs, ds) && NoDuplicates(hs)
    ensures AllWellFormed(ds) && AllWellFormed(Optimized(Lower(p), hs, Names(p.monitors)))
    ensures forall c :: c in ds ==> ValuesKnown(c) && !c.kind.Invalid?
  {
    var cs, ms := Lower(p), Names(p.monitors);
    var os := Optimized(cs, hs, ms);
    LowerReady(p, hs);
    OptimizedWellFormed(cs, hs, ms);
    forall c | c in ds ensures c in os && ValuesKnown(c) {
      assert c in multiset(ds);
      OptimizedValuesKnown(cs, hs, ms, c);
    }
  }

  lemma FinalValues(ps: seq<Check>, ds: seq<Check>)
    requires Laid(ps, ds) && forall c :: c in ds ==> ValuesKnown(c)
    ensures forall c :: c in ps ==> ValuesKnown(c)
  {
    forall c | c in ps ensures ValuesKnown(c) {
      var i :| 0 <= i < |ps| && ps[i] == c;
      assert ds[i] in ds;
    }
  }

  lemma LastPlaced(ds: seq<Check>)
    requires ds != []
    ensures Placed(ds)[|ds| - 1].rec == End(ds).rec
  {
    PlacedAt(ds, |ds| - 1);
    assert ds[..|ds|] == ds;
  }

  lemma {:induction false} PlacedGapFree(ds: seq<Check>)
    ensures GapFree(Placed(ds))
  {
    if ds != [] {
      var n := |ds| - 1;
      PlacedGapFree(ds[..n]);
      RoundsGapFree(ds, n);
      assert Placed(ds)[..n] == Placed(ds[..n]);
      GapFreeSnoc(Placed(ds), n);
    }
  }

  lemma GapFreeSnoc(qs: seq<Check>, n: nat)
    requires |qs| == n + 1 && GapFree(qs[..n])
    requires if n == 0 then qs[n].rec == 0 else qs[n - 1].rec <= qs[n].rec <= qs[n - 1].rec + 1
    ensures GapFree(qs)
  {
    forall i | 0 < i < n ensures qs[i - 1].rec <= qs[i].rec <= qs[i - 1].rec + 1 {
      assert qs[..n][i - 1] == qs[i - 1] && qs[..n][i] == qs[i];
    }
    assert n > 0 ==> qs[..n][0] == qs[0];
  }

  lemma SameRounds(ps: seq<Check>, qs: seq<Check>)
    requires |ps| == |qs| && GapFree(qs) && forall i :: 0 <= i < |qs| ==> ps[i].rec == qs[i].rec
    ensures GapFree(ps)
  {
  }

  lemma FinalFacts(ds: seq<Check>)
    requires forall c :: c in ds ==> ValuesKnown(c)
    ensures Laid(Final(ds), ds) && GapFree(Final(ds)) && LastRound(Final(ds)) == End(ds).rec
    ensures forall c :: c in Final(ds) ==> ValuesKnown(c)
  {
    FinalLaid(ds);
    FinalValues(Final(ds), ds);
    PlacedGapFree(ds);
    SameRounds(Final(ds), Placed(ds));
    if ds != [] {
      LastPlaced(ds);
    }
  }

  /** Over all its passes the generated program decides the greatest value the merged checks write. */
  lemma {:induction false} GeneratedDecision(p: Policy.Program, hs: seq<string>, ds: seq<Check>, env: Env)
    requires SortedChecks(p, hs, ds) && NoDuplicates(hs) && DistinctNames(Final(ds))
    ensures Decide(Generate(ds), env) == Greatest(Optimized(Lower(p), hs, Names(p.monitors)), env)
  {
    var ps := Final(ds);
    SortedFacts(p, hs, ds);
    FinalFacts(ds);
    RecirculationIsSequential(ps);
    TablesRunChecks(ps, |ps|, env, 0);
    assert ps[..|ps|] == ps;
    LaidRun(ps, ds, env, 0);
    SortedRunIsGreatest(ds, env);
    OrderIrrelevant(ds, Optimized(Lower(p), hs, Names(p.monitors)), env);
  }

  /**
   Main theorem: the generated program decides what the policy says in every context and for every monitor activity
   exactly when the policy is faithful.
   */
  lemma {:induction false} CompilationExact(p: Policy.Program, hs: seq<string>, ds: seq<Check>)
    requires SortedChecks(p, hs, ds) && NoDuplicates(hs) && DistinctNames(Final(ds))
    ensures (forall env: Env :: IsDecision(p, env, Decide(Generate(ds), env))) <==> Faithful(Lower(p), hs)
  {
    var cs, ms := Lower(p), Names(p.monitors);
    LowerReady(p, hs);
    if Faithful(cs, hs) {
      forall env: Env ensures IsDecision(p, env, Decide(Generate(ds), env)) {
        FaithfulKeepsDecision(cs, hs, ms, env);
        GeneratedDecision(p, hs, ds, env);
        LowerDecision(p, env, Decide(Generate(ds), env));
      }
    } else {
      MergingIsExact(cs, hs, ms);
      var env: Env :| Greatest(Optimized(cs, hs, ms), env) != Greatest(cs, env);
      GeneratedDecision(p, hs, ds, env);
      LowerDecision(p, env, Decide(Generate(ds), env));
    }
  }

  /** Whatever the policy, the generated program never decides more than it. */
  lemma {:induction false} CompilationNeverRaises(p: Policy.Program, hs: seq<string>, ds: seq<Check>, env: Env, d: nat)
    requires SortedChecks(p, hs, ds) && NoDuplicates(hs) && DistinctNames(Final(ds)) && IsDecision(p, env, d)
    ensures Decide(Generate(ds), env) <= d
  {
    LowerReady(p, hs);
    GeneratedDecision(p, hs, ds, env);
    LowerDecision(p, env, d);
    OptimizedNeverRaises(Lower(p), hs, Names(p.monitors), env);
  }

  // ----- round by round -----

  /** How many checks have been applied after the pass with counter `k`. */
  function UpTo(ps: seq<Check>, k: nat): (n: nat)
    ensures n <= |ps|
  {
    if ps == [] then 0 else if ps[|ps| - 1].rec <= k then |ps| else UpTo(ps[..|ps| - 1], k)
  }

  lemma {:induction false} UpToGrows(ps: seq<Check>, k: nat)
    ensures UpTo(ps, k) <= UpTo(ps, k + 1)
  {
    if ps != [] {
      UpToGrows(ps[..|ps| - 1], k);
    }
  }

  lemma GapFreeInit(ps: seq<Check>)
    requires GapFree(ps) && ps != []
    ensures GapFree(ps[..|ps| - 1])
  {
  }

  /** They are those placed in a round up to `k`. */
  lemma {:induction false} UpToRounds(ps: seq<Check>, k: nat, j: nat)
    requires GapFree(ps) && j < |ps|
    ensures j < UpTo(ps, k) <==> ps[j].rec <= k
  {
    var n := |ps| - 1;
    GapFreeInit(ps);
    if j < n {
      UpToRounds(ps[..n], k, j);
      RoundsRise(ps, j, n);
    }
  }

  lemma {:induction false} RoundsRise(ps: seq<Check>, i: nat, j: nat)
    requires GapFree(ps) && i <= j < |ps|
    ensures ps[i].rec <= ps[j].rec
  {
    if i < j {
      RoundsRise(ps, i, j - 1);
    }
  }

  /** The blocks of the first rounds are those of the checks placed there. */
  lemma {:induction false} BlocksPrefix(ps: seq<Check>, k: nat)
    requires GapFree(ps) && k <= LastRound(ps)
    ensures k < |Blocks(ps)| && Blocks(ps)[..k + 1] == Blocks(ps[..UpTo(ps, k)])
  {
    BlocksNumbered(ps);
    if ps == [] || ps[|ps| - 1].rec <= k {
      assert ps[..|ps|] == ps && Blocks(ps)[..|Blocks(ps)|] == Blocks(ps);
    } else {
      var init := ps[..|ps| - 1];
      GapFreeInit(ps);
      BlocksNumbered(init);
      BlocksPrefix(init, k);
      assert ps[..UpTo(ps, k)] == init[..UpTo(ps, k)];
      assert Blocks(ps)[..k + 1] == Blocks(init)[..k + 1];
    }
  }

  /** What has been applied after the pass with counter `k`. */
  lemma {:induction false} ExecutedPrefix(ps: seq<Check>, k: nat)
    requires GapFree(ps) && k <= LastRound(ps)
    ensures Executed(Blocks(ps), k) == Applies(ps[..UpTo(ps, k)])
  {
    BlocksNumbered(ps);
    BlocksPrefix(ps, k);
    ExecutedFlat(Blocks(ps), k);
    BlocksFlat(ps[..UpTo(ps, k)]);
  }

  lemma {:induction false} PrefixRun(ps: seq<Check>, ds: seq<Check>, n: nat, env: Env)
    requires Laid(ps, ds) && n <= |ds| && (forall x :: x in ps ==> ValuesKnown(x)) && DistinctNames(ps)
    ensures RunTables(Commands(ps), Applies(ps[..n]), env, 0) == Run(ds[..n], env, 0)
  {
    TablesRunChecks(ps, n, env, 0);
    LaidRun(ps[..n], ds[..n], env, 0);
  }

  /** The decision after the pass with counter `k` is that of the checks placed in the rounds so far. */
  lemma {:induction false} PassIsPrefix(p: Policy.Program, hs: seq<string>, ds: seq<Check>, env: Env, k: nat)
    requires SortedChecks(p, hs, ds) && NoDuplicates(hs) && DistinctNames(Final(ds)) && k <= End(ds).rec
    ensures PassDecision(Generate(ds), env, k) == Run(ds[..UpTo(Final(ds), k)], env, 0)
  {
    SortedFacts(p, hs, ds);
    FinalFacts(ds);
    ExecutedPrefix(Final(ds), k);
    PrefixRun(Final(ds), ds, UpTo(Final(ds), k), env);
  }

  /** The decision carried in the packet never decreases from round to round. */
  lemma {:induction false} DecisionGrows(p: Policy.Program, hs: seq<string>, ds: seq<Check>, env: Env, k: nat)
    requires SortedChecks(p, hs, ds) && NoDuplicates(hs) && DistinctNames(Final(ds)) && k < End(ds).rec
    ensures PassDecision(Generate(ds), env, k) <= PassDecision(Generate(ds), env, k + 1)
  {
    PassIsPrefix(p, hs, ds, env, k);
    PassIsPrefix(p, hs, ds, env, k + 1);
    SortedFacts(p, hs, ds);
    UpToGrows(Final(ds), k);
    RunIsMonotone(ds, UpTo(Final(ds), k), UpTo(Final(ds), k + 1), env);
  }

  /** A context packet applies each declared monitor at most once over all its passes, and exactly once when a statement uses it. */
  lemma {:induction false} MonitorTouchedOnce(p: Policy.Program, hs: seq<string>, ds: seq<Check>, m: string)
    requires SortedChecks(p, hs, ds) && NoDuplicates(hs)
    ensures Touches(Executed(Generate(ds).blocks, End(ds).rec), m) == if MonGroup(Lower(p), m) == [] then 0 else 1
  {
    var cs, ms, ps := Lower(p), Names(p.monitors), Final(ds);
    LowerReady(p, hs);
    SortedFacts(p, hs, ds);
    FinalFacts(ds);
    RecirculationIsSequential(ps);
    TouchesAreReaders(ps, m);
    LaidReaders(ps, ds, m);
    ReadersOfPermutation(ds, Optimized(cs, hs, ms), m);
    MonGroupMembers(cs, m);
    OptimizedMonGroup(cs, hs, m);
    ValidKeepsMonGroup(FoldMonitors(HeaderMerge.MergeSameHeaders(cs, hs), ms), m);
    FoldMonitorsGroup(HeaderMerge.MergeSameHeaders(cs, hs), ms, m);
    var g := MonGroup(cs, m);
    if g != [] {
      assert g[0] in g;
    }
  }

  lemma {:induction false} LaidReaders(ps: seq<Check>, ds: seq<Check>, m: string)
    requires Laid(ps, ds)
    ensures |MonGroup(ps, m)| == |MonGroup(ds, m)|
  {
    if ds != [] {
      var n := |ds| - 1;
      LaidReaders(ps[..n], ds[..n], m);
    }
  }

  lemma {:induction false} ReadersOfPermutation(cs: seq<Check>, ds: seq<Check>, m: string)
    requires multiset(cs) == multiset(ds)
    ensures |MonGroup(cs, m)| == |MonGroup(ds, m)|
  {
    ReadersMultiset(cs, m);
    ReadersMultiset(ds, m);
    forall c ensures multiset(MonGroup(cs, m))[c] == multiset(MonGroup(ds, m))[c] {
    }
    assert multiset(MonGroup(cs, m)) == multiset(MonGroup(ds, m));
    assert |multiset(MonGroup(cs, m))| == |MonGroup(cs, m)|;
  }

  lemma {:induction false} ReadersMultiset(cs: seq<Check>, m: string)
    ensures forall c :: multiset(MonGroup(cs, m))[c] == if Reads(c, m) then multiset(cs)[c] else 0
  {
    if cs != [] {
      var n := |cs| - 1;
      ReadersMultiset(cs[..n], m);
      assert cs == cs[..n] + [cs[n]];
    }
  }

  // ----- table sizes -----

  predicate Sized(c: Check) {
    (c.kind.List? ==> c.tableSize == |c.list|) && (c.kind.Exact? || c.kind.Range? ==> c.tableSize == 2)
  }

  lemma LowerSized(p: Policy.Program, s: Stmt)
    requires LowerStmt(p, s).Some?
    ensures Sized(LowerStmt(p, s).value)
  {
  }

  lemma {:induction false} OptimizedSized(p: Policy.Program, hs: seq<string>, ms: seq<string>, c: Check)
    requires Accepted(p) && NoDuplicates(hs) && c in Optimized(Lower(p), hs, ms) && !c.kind.Monitor?
    ensures Sized(c)
  {
    var cs := Lower(p);
    OptimizedPlain(cs, hs, ms, c);
    MergeSameHeadersMembers(cs, hs, c);
    if c in cs {
      var i :| 0 <= i < |cs| && cs[i] == c;
      LowerSized(p, p.stmts[i]);
    } else {
      var h :| h in hs && ShouldMerge(Group(cs, h)) && c == Merged(Group(cs, h));
    }
  }

  /** How many checks of a group carry an extra predicate. */
  function Conditional(g: seq<Check>): nat {
    if g == [] then 0 else Conditional(g[..|g| - 1]) + if g[|g| - 1].extraCheck then 1 else 0
  }

  lemma {:induction false} ConditionalCons(c: Check, rest: seq<Check>)
    ensures Conditional([c] + rest) == (if c.extraCheck then 1 else 0) + Conditional(rest)
  {
    if rest == [] {
      assert [c] + rest == [c] && Conditional([c][..0]) == 0;
    } else {
      var n := |rest| - 1;
      assert ([c] + rest)[..|[c] + rest| - 1] == [c] + rest[..n];
      ConditionalCons(c, rest[..n]);
    }
  }

  /** Every conditional check brings one extra header into the fold. */
  lemma {:induction false} FoldedHeaders(first: Check, rest: seq<Check>)
    requires forall c :: c in rest ==> c.kind.Monitor? && Unmerged(c)
    ensures |AddChecks(first, rest).extraHeaders| == |first.extraHeaders| + Conditional(rest)
  {
    if rest != [] {
      var n := |rest| - 1;
      assert forall c :: c in rest[..n] ==> c in rest;
      FoldedHeaders(first, rest[..n]);
      assert rest[n] in rest;
      AddHeadersKeeps(AddChecks(first, rest[..n]), rest[n], rest[n].extraHeaders);
    }
  }

  lemma FoldedEntries(g: seq<Check>)
    requires g != [] && forall c :: c in g ==> c.kind.Monitor? && Unmerged(c)
    ensures |EntriesOf(MergedMonitor(g))| == if g[0].extraCheck then Conditional(g) else 1
  {
    var f := MergedMonitor(g);
    assert g == [g[0]] + g[1..];
    ConditionalCons(g[0], g[1..]);
    FoldedHeaders(g[0], g[1..]);
    AddChecksKeeps(g[0], g[1..]);
    EntryCounts(f, [], f.extraHeaders);
  }

  lemma SingleEntries(c: Check)
    requires c.kind.Monitor? && Unmerged(c)
    ensures |EntriesOf(c)| == 1
  {
    EntryCounts(c, [], c.extraHeaders);
  }

  lemma {:induction false} MonitorEntryCount(cs: seq<Check>, hs: seq<string>, ms: seq<string>, c: Check)
    requires Ready(cs, hs, ms) && c.kind.Monitor? && c in Optimized(cs, hs, ms)
    ensures var g := MonGroup(cs, c.mon); g != [] && |EntriesOf(c)| == if g[0].extraCheck then Conditional(g) else 1
  {
    var g := MonGroup(cs, c.mon);
    OptimizedMonitors(cs, hs, ms, c);
    OptimizedMonGroup(cs, hs, c.mon);
    if |g| > 1 {
      FoldedEntries(g);
    } else {
      SingleEntries(c);
      assert g == [c];
      ConditionalCons(c, []);
      assert [c] + [] == [c];
    }
  }

  /**
   Header tables are declared large enough. The table of a monitor is too small exactly when the policy's first
   statement on the monitor has an extra predicate and so have at least three of its statements.
   */
  lemma {:induction false} TableSizes(p: Policy.Program, hs: seq<string>, ds: seq<Check>, c: Check)
    requires SortedChecks(p, hs, ds) && NoDuplicates(hs) && c in ds
    ensures !c.kind.Monitor? ==> |EntriesOf(c)| <= DeclaredSize(c)
    ensures c.kind.Monitor? ==>
              var g := MonGroup(Lower(p), c.mon);
              g != [] && (|EntriesOf(c)| > DeclaredSize(c) <==> g[0].extraCheck && Conditional(g) >= 3)
  {
    assert c in multiset(ds);
    if c.kind.Monitor? {
      LowerReady(p, hs);
      MonitorEntryCount(Lower(p), hs, Names(p.monitors), c);
    } else {
      EntryCounts(c, c.list, []);
      EntryCounts(c, [c.hi], []);
      OptimizedSized(p, hs, Names(p.monitors), c);
    }
  }

  // ----- which policies are faithful -----

  /** A policy without monitor statements is always compiled exactly. */
  lemma {:induction false} PlainPoliciesFaithful(p: Policy.Program, hs: seq<string>)
    requires Accepted(p) && forall i :: 0 <= i < |p.stmts| ==> !p.stmts[i].MonStmt?
    ensures Faithful(Lower(p), hs)
  {
    var cs := Lower(p);
    forall c | c in cs ensures !c.kind.Monitor? {
      var i :| 0 <= i < |cs| && cs[i] == c;
      assert c == LowerStmt(p, p.stmts[i]).value.(id := i);
    }
    forall h ensures !MonitorHeaded(cs, hs, h) {
      GroupMembers(cs, h);
      if Group(cs, h) != [] {
        assert Group(cs, h)[0] in Group(cs, h);
      }
    }
    forall m ensures MonitorGroupKept(cs, m) {
      MonGroupMembers(cs, m);
      if MonGroup(cs, m) != [] {
        assert MonGroup(cs, m)[0] in MonGroup(cs, m);
      }
    }
  }
}
