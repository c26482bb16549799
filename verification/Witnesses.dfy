/**
 Accepted policies on which the compiler's passes fail: one for each condition that the exact
 theorems put on a policy.
 */
module Witnesses {
  import opened Policy
  import opened Decision
  import opened HeaderMerge
  import opened MonitorMerge
  import opened Optimizer
  import opened Identity
  import opened Allocation
  import opened Emission
  import opened Compiler
  import opened Correctness
  import opened Naming
  import opened Positions
  import opened Sequences

  // ----- groups of three -----

  lemma WholeGroup(q: seq<Check>, x: Check, h: string)
    requires Group(q, h) == q && x.header == h
    ensures Group(q + [x], h) == q + [x]
  {
    GroupSnoc(q, x, h);
  }

  lemma {:induction false} GroupOfThree(a: Check, b: Check, c: Check, h: string)
    requires a.header == b.header == c.header == h
    ensures Group([a, b, c], h) == [a, b, c]
  {
    WholeGroup([], a, h);
    WholeGroup([] + [a], b, h);
    WholeGroup([] + [a] + [b], c, h);
    assert [] + [a] + [b] + [c] == [a, b, c];
  }

  /** Three checks of which the last two ask for one value each. */
  lemma {:induction false} MergedOfThree(a: Check, b: Check, c: Check)
    requires !Mergeable(a) && b.kind.Exact? && c.kind.Exact?
    ensures MergedList([a, b, c]) == [b.lo, c.lo] && CountMergeable([a, b, c]) == 2
  {
    MergedListSnoc([], a);
    assert [] + [a] == [a] && MergedList([a]) == [] && CountMergeable([a]) == 0;
    MergedListSnoc([a], b);
    assert [a] + [b] == [a, b] && MergedList([a, b]) == [b.lo] && CountMergeable([a, b]) == 1;
    MergedListSnoc([a, b], c);
    assert [a, b] + [c] == [a, b, c];
  }

  function DropWhen(h: string, op: BinOp, v: nat): Stmt {
    PredStmt(Pred(h, op, v), Drop, Some(Fwd(1)))
  }

  /** Three checks on one header that merge, headed by one that stays. */
  ghost predicate Headed(cs: seq<Check>, h: string) {
    && |cs| == 3 && !Mergeable(cs[0]) && cs[1].kind.Exact? && cs[2].kind.Exact?
    && (forall c :: c in cs ==> c.header == h) && Group(cs, h) == cs && ShouldMerge(cs)
  }

  lemma ThreeHeaded(a: Check, b: Check, c: Check, h: string)
    requires a.header == b.header == c.header == h && a.priority == b.priority == c.priority
    requires !Mergeable(a) && b.kind.Exact? && c.kind.Exact?
    ensures Headed([a, b, c], h) && MergedList([a, b, c]) == [b.lo, c.lo]
  {
    GroupOfThree(a, b, c, h);
    MergedOfThree(a, b, c);
  }

  /** The header pass leaves the head and the merged check. */
  lemma {:induction false} HeadedResult(cs: seq<Check>, h: string, c: Check)
    requires Headed(cs, h) && c in MergeSameHeaders(cs, [h])
    ensures c == cs[0] || c == Merged(cs)
  {
    MergeSameHeadersMembers(cs, [h], c);
    if c in cs && !Absorbed(cs, [h], c) {
      var i :| 0 <= i < 3 && cs[i] == c;
      assert h in [h];
    } else {
      var k :| k in [h] && ShouldMerge(Group(cs, k)) && c == Merged(Group(cs, k));
      assert k == h;
    }
  }

  // ----- a drop lost to a monitor's actions -----

  /** A monitor statement on m0, which watches h1, then `h1 == 3` and `h1 == 4` drop. */
  function WatchedHeader(): Policy.Program {
    Policy.Program([MonStmt("m0", None), DropWhen("h1", Eq, 3), DropWhen("h1", Eq, 4)],
                   map[], [MonitorDef("m0", "h1")], ["h1"])
  }

  lemma {:induction false} WatchedChecks()
    ensures var p := WatchedHeader(); var cs := Lower(p);
            Accepted(p) && Headed(cs, "h1") && cs[0].kind.Monitor? && MergedList(cs) == [3, 4]
    ensures "h1" !in Names(WatchedHeader().monitors)
  {
    var p := WatchedHeader();
    assert MonitorHeader(p.monitors, "m0") == Some("h1");
    assert Accepted(p);
    var cs := Lower(p);
    ThreeHeaded(cs[0], cs[1], cs[2], "h1");
    assert cs == [cs[0], cs[1], cs[2]];
    assert Names(p.monitors) == ["m0"] && "h1"[0] != "m0"[0];
  }

  /** With every monitor active only the merged check can fire. */
  lemma {:induction false} WatchedDecision(cs: seq<Check>, h: string, ms: seq<string>, env: Env)
    requires Ready(cs, [h], ms) && Headed(cs, h) && cs[0].kind.Monitor? && env.hdr(h) in MergedList(cs) && AllActive(env)
    ensures Greatest(Optimized(cs, [h], ms), env) == NORMAL
  {
    var os, merged := Optimized(cs, [h], ms), Merged(cs);
    assert cs[0] in cs && h in [h] && IsMerged(cs, [h], merged);
    MergeSameHeadersMembers(cs, [h], merged);
    OptimizedPlain(cs, [h], ms, merged);
    assert Fires(merged, env);
    GreatestBounds(os, env, merged);
    var c := GreatestWitness(os, env);
    OptimizedPlain(cs, [h], ms, c);
    HeadedResult(cs, h, c);
  }

  lemma OnlyHead(cs: seq<Check>, h: string)
    requires Headed(cs, h) && !cs[0].kind.Range?
    ensures NoRangeHeads(cs, [h])
  {
  }

  lemma DropDecides(p: Policy.Program, i: nat, env: Env)
    requires i < |p.stmts| && StmtFires(p, p.stmts[i], env) && StmtValue(p.stmts[i]) == DROP
    ensures forall k :: 0 <= k < |p.stmts| ==> StmtValue(p.stmts[k]) <= DROP
    ensures IsDecision(p, env, DROP)
  {
  }

  lemma {:induction false} HeadedMisjudged(p: Policy.Program, h: string, ds: seq<Check>, env: Env)
    requires SortedChecks(p, [h], ds) && Headed(Lower(p), h) && Lower(p)[0].kind.Monitor? && h !in Names(p.monitors)
    requires env.hdr(h) in MergedList(Lower(p)) && AllActive(env)
    ensures DistinctNames(Final(ds)) && Decide(Generate(ds), env) == NORMAL
  {
    OnlyHead(Lower(p), h);
    NoRangeHeadNames(p, [h], ds);
    LowerReady(p, [h]);
    GeneratedDecision(p, [h], ds, env);
    WatchedDecision(Lower(p), h, Names(p.monitors), env);
  }

  /** The merge of h1 takes the actions of the monitor check: a context with h1 == 3 is to be dropped and is let through. */
  lemma {:induction false} WatchedHeaderMisjudged(ds: seq<Check>, env: Env)
    requires SortedChecks(WatchedHeader(), ["h1"], ds) && env.hdr("h1") == 3 && AllActive(env)
    ensures DistinctNames(Final(ds)) && IsDecision(WatchedHeader(), env, DROP) && Decide(Generate(ds), env) == NORMAL
  {
    WatchedChecks();
    HeadedMisjudged(WatchedHeader(), "h1", ds, env);
    DropDecides(WatchedHeader(), 1, env);
  }

  // ----- a drop lost in a fold -----

  /** `m0 and h1 == 1`, then `m0` alone. */
  function ConditionalFirst(): Policy.Program {
    Policy.Program([MonStmt("m0", Some(Pred("h1", Eq, 1))), MonStmt("m0", None)], map[], [MonitorDef("m0", "h2")], ["h1", "h2"])
  }

  /** Two readers of `m`: the first asks for `h == v`, the second for nothing. */
  ghost predicate Shadowed(cs: seq<Check>, m: string, h: string, v: nat) {
    && |cs| == 2 && Reads(cs[0], m) && Reads(cs[1], m) && MonGroup(cs, m) == cs
    && cs[0].extraCheck && cs[0].extraHeaders == [h] && Val(cs[0], h) == v && cs[1].extraHeaders == []
  }

  lemma {:induction false} ConditionalChecks()
    ensures var p := ConditionalFirst(); Accepted(p) && Shadowed(Lower(p), "m0", "h1", 1)
  {
    var p := ConditionalFirst();
    assert MonitorHeader(p.monitors, "m0") == Some("h2");
    assert Accepted(p);
    var cs := Lower(p);
    assert cs == [cs[0], cs[1]] && cs[..1] == [cs[0]] && cs[..1][..0] == [];
    assert MonGroup(cs[..1], "m0") == [cs[0]];
    assert MonGroup(cs, "m0") == [cs[0], cs[1]];
  }

  /** Monitor checks do not merge by header. */
  lemma ShadowedHeads(cs: seq<Check>, hs: seq<string>, m: string, h: string, v: nat)
    requires Shadowed(cs, m, h, v)
    ensures HeadsRetired(cs, hs)
  {
    forall k ensures !ShouldMerge(Group(cs, k)) {
      GroupMembers(cs, k);
      NoneMergeable(Group(cs, k));
    }
  }

  /** The fold of both checks still asks for the value. */
  lemma FoldOfTwo(cs: seq<Check>, m: string, h: string, v: nat, env: Env)
    requires Shadowed(cs, m, h, v) && env.hdr(h) != v
    ensures !Fires(MergedMonitor(cs), env)
  {
    assert cs[1..] == [cs[1]] && [cs[1]][..0] == [];
    assert AddChecks(cs[0], []) == cs[0];
    assert AddHeaders(cs[0], cs[1], []) == cs[0];
    assert AddChecks(cs[0], cs[1..]) == cs[0];
    var f := MergedMonitor(cs);
    assert f.extraCheck && f.extraHeaders == [h] && f.hToVal == cs[0].hToVal;
  }

  lemma ShadowedSilent(cs: seq<Check>, hs: seq<string>, ms: seq<string>, m: string, h: string, v: nat, env: Env)
    requires Ready(cs, hs, ms) && Shadowed(cs, m, h, v) && env.hdr(h) != v
    ensures Greatest(Optimized(cs, hs, ms), env) == 0
  {
    var os := Optimized(cs, hs, ms);
    if Greatest(os, env) > 0 {
      var c := GreatestWitness(os, env);
      ShadowedKind(cs, hs, ms, m, h, v, c, env);
      OptimizedMonitors(cs, hs, ms, c);
      FoldOfTwo(cs, m, h, v, env);
    }
  }

  lemma {:induction false} ShadowedKind(cs: seq<Check>, hs: seq<string>, ms: seq<string>, m: string, h: string, v: nat, c: Check, env: Env)
    requires Ready(cs, hs, ms) && Shadowed(cs, m, h, v) && c in Optimized(cs, hs, ms) && Fires(c, env)
    ensures Reads(c, m)
  {
    var o := OptimizedOrigin(cs, hs, ms, c, env);
    assert c.kind.Monitor?;
    OptimizedMonitors(cs, hs, ms, c);
    MonGroupMembers(cs, c.mon);
    assert MonGroup(cs, c.mon)[0] in MonGroup(cs, c.mon);
  }

  /** The unconditional drop is folded into a conditional check and lost: with m0 inactive and h1 == 0 nothing is decided. */
  lemma {:induction false} ConditionalFirstMisjudged(ds: seq<Check>, env: Env)
    requires SortedChecks(ConditionalFirst(), ["h1", "h2"], ds) && env.hdr("h1") == 0 && !env.active("m0")
    ensures DistinctNames(Final(ds)) && IsDecision(ConditionalFirst(), env, DROP) && Decide(Generate(ds), env) == 0
  {
    var p, hs := ConditionalFirst(), ["h1", "h2"];
    ConditionalChecks();
    ShadowedHeads(Lower(p), hs, "m0", "h1", 1);
    GeneratedNames(p, hs, ds);
    LowerReady(p, hs);
    GeneratedDecision(p, hs, ds, env);
    ShadowedSilent(Lower(p), hs, Names(p.monitors), "m0", "h1", 1, env);
    DropDecides(p, 1, env);
  }

  // ----- a merge that only a second run makes -----

  /** `h1 <= 5` forwards to 2, `h1 == 3` and `h1 == 4` drop. */
  function BlockedMerge(): Policy.Program {
    Policy.Program([PredStmt(Pred("h1", Le, 5), Fwd(2), Some(Fwd(1))), DropWhen("h1", Eq, 3), DropWhen("h1", Eq, 4)],
                   map[], [], ["h1"])
  }

  /** Two mergeable checks of one priority behind an invalid one of another. */
  lemma BlockedThree(a: Check, b: Check, c: Check, h: string)
    requires a.header == b.header == c.header == h && a.priority != b.priority == c.priority
    requires a.kind.Invalid? && b.kind.Exact? && c.kind.Exact?
    ensures BlockedByInvalid([a, b, c], h)
  {
    GroupOfThree(a, b, c, h);
    ValidOfThree(a, b, c);
    assert [b, c][..1] == [b] && [b][..0] == [];
    assert CountMergeable([]) == 0 && CountMergeable([b]) == 1;
    assert CountMergeable([b, c]) == 2;
    assert [a, b, c][0].priority != [a, b, c][1].priority;
  }

  /** The check that `<=` leaves invalid has another priority and blocks the merge; the first run erases it. */
  lemma {:induction false} SecondRunMerges()
    ensures var cs := Lower(BlockedMerge()); var once := MergeSameHeaders(cs, ["h1"]);
            Accepted(BlockedMerge()) && MergeSameHeaders(once, ["h1"]) != once
  {
    var p := BlockedMerge();
    assert Accepted(p);
    var cs := Lower(p);
    BlockedThree(cs[0], cs[1], cs[2], "h1");
    assert cs == [cs[0], cs[1], cs[2]];
    assert "h1" in ["h1"];
    SecondRunExact(cs, ["h1"]);
  }

  lemma {:induction false} ValidOfThree(a: Check, b: Check, c: Check)
    requires a.kind.Invalid? && !b.kind.Invalid? && !c.kind.Invalid?
    ensures Valid([a, b, c]) == [b, c]
  {
    ValidSnoc([], a);
    ValidSnoc([] + [a], b);
    ValidSnoc([] + [a] + [b], c);
    assert [] + [a] + [b] + [c] == [a, b, c];
  }

  // ----- a range check and the merged check it lends its id -----

  /** `h1 < 5`, `h1 == 7` and `h1 == 8` drop. */
  function RangeHeaded(): Policy.Program {
    Policy.Program([DropWhen("h1", Lt, 5), DropWhen("h1", Eq, 7), DropWhen("h1", Eq, 8)], map[], [], ["h1"])
  }

  lemma {:induction false} RangeChecks()
    ensures var p := RangeHeaded(); Accepted(p) && Headed(Lower(p), "h1") && Lower(p)[0].kind.Range?
    ensures Names(RangeHeaded().monitors) == []
  {
    var p := RangeHeaded();
    assert Accepted(p);
    var cs := Lower(p);
    ThreeHeaded(cs[0], cs[1], cs[2], "h1");
    assert cs == [cs[0], cs[1], cs[2]];
  }

  lemma ThreeOfTwo(ds: seq<Check>, a: Check, b: Check)
    requires |ds| > 2 && forall c :: c in ds ==> c == a || c == b
    ensures exists i, j :: 0 <= i < j < |ds| && ds[i] == ds[j]
  {
    assert ds[0] in ds && ds[1] in ds && ds[2] in ds;
    assert ds[0] == ds[1] || ds[0] == ds[2] || ds[1] == ds[2];
  }

  lemma AtMostTwo(ds: seq<Check>, a: Check, b: Check)
    requires Separate(ds) && forall c :: c in ds ==> c == a || c == b
    ensures |ds| <= 2
  {
    if |ds| > 2 {
      ThreeOfTwo(ds, a, b);
      assert false;
    }
  }

  /** Two checks fit in one round. */
  lemma TwoFit(ds: seq<Check>)
    requires |ds| <= 2
    ensures End(ds).rec == 0
  {
    if |ds| == 2 {
      assert ds[..1][..0] == [] && End(ds[..1]) == Cursor(0, Need(ds[0]));
    } else if |ds| == 1 {
      assert ds[..0] == [];
    }
  }

  lemma HeadedOneRound(cs: seq<Check>, h: string, ds: seq<Check>)
    requires Headed(cs, h) && cs[0].kind.Range? && DistinctIds(cs) && multiset(ds) == multiset(Optimized(cs, [h], []))
    ensures End(ds).rec == 0
  {
    OrderedSeparate(cs, [h], [], ds);
    forall c | c in ds ensures c == cs[0] || c == Merged(cs) {
      assert c in multiset(ds);
      ValidMembers(MergeSameHeaders(cs, [h]));
      HeadedResult(cs, h, c);
    }
    AtMostTwo(ds, cs[0], Merged(cs));
    TwoFit(ds);
  }

  /** The merged check and the range check share id and table name. */
  lemma {:induction false} RangeHeadShares(ds: seq<Check>)
    requires SortedChecks(RangeHeaded(), ["h1"], ds)
    ensures !DistinctIds(MergeSameHeaders(Lower(RangeHeaded()), ["h1"])) && !DistinctNames(Final(ds))
  {
    var p := RangeHeaded();
    var cs := Lower(p);
    RangeChecks();
    LowerReady(p, ["h1"]);
    assert "h1" in ["h1"] && !NoRangeHeads(cs, ["h1"]) && !HeadsRetired(cs, ["h1"]);
    DistinctIdsExact(cs, ["h1"]);
    HeadedOneRound(cs, "h1", ds);
    OneRoundNames(p, ["h1"], ds);
  }

  // ----- a monitor table that is too small -----

  function DropUnless(m: string, h: string, v: nat): Stmt {
    MonStmt(m, Some(Pred(h, Eq, v)))
  }

  /** Three conditional statements on one monitor. */
  function ManyConditions(): Policy.Program {
    Policy.Program([DropUnless("m0", "h1", 1), DropUnless("m0", "h2", 1), DropUnless("m0", "h3", 1)],
                   map[], [MonitorDef("m0", "h4")], ["h1", "h2", "h3", "h4"])
  }

  lemma ReaderSnoc(q: seq<Check>, x: Check, m: string)
    requires MonGroup(q, m) == q && Reads(x, m) && x.extraCheck
    ensures MonGroup(q + [x], m) == q + [x] && Conditional(q + [x]) == Conditional(q) + 1
  {
    assert (q + [x])[..|q|] == q;
  }

  lemma ThreeReaders(a: Check, b: Check, c: Check, m: string)
    requires Reads(a, m) && Reads(b, m) && Reads(c, m) && a.extraCheck && b.extraCheck && c.extraCheck
    ensures MonGroup([a, b, c], m) == [a, b, c] && Conditional([a, b, c]) == 3
  {
    ReaderSnoc([], a, m);
    ReaderSnoc([] + [a], b, m);
    ReaderSnoc([] + [a] + [b], c, m);
    assert [] + [a] + [b] + [c] == [a, b, c];
  }

  lemma {:induction false} ManyChecks()
    ensures var p := ManyConditions();
            && Accepted(p) && var g := MonGroup(Lower(p), "m0");
            |g| == 3 && g[0].extraCheck && Conditional(g) == 3
  {
    var p := ManyConditions();
    assert MonitorHeader(p.monitors, "m0") == Some("h4");
    assert Accepted(p);
    var cs := Lower(p);
    ThreeReaders(cs[0], cs[1], cs[2], "m0");
    assert cs == [cs[0], cs[1], cs[2]];
  }

  /** Whenever three statements on a monitor are conditional, its first one among them, some table is given too many entries. */
  lemma {:induction false} Overflows(p: Policy.Program, hs: seq<string>, ds: seq<Check>, m: string)
    requires SortedChecks(p, hs, ds) && NoDuplicates(hs)
    requires var g := MonGroup(Lower(p), m); |g| > 1 && g[0].extraCheck && Conditional(g) >= 3
    ensures exists c :: c in ds && |EntriesOf(c)| > DeclaredSize(c)
  {
    var cs, ms, g := Lower(p), Names(p.monitors), MonGroup(Lower(p), m);
    LowerReady(p, hs);
    MonGroupMembers(cs, m);
    var c := MergedMonitor(g);
    assert g[0] in g;
    MergedMonitorReads(g, m);
    OptimizedMonitors(cs, hs, ms, c);
    assert c in multiset(ds);
    TableSizes(p, hs, ds, c);
  }

  /** The table declared with two entries is given three. */
  lemma ManyConditionsOverflow(hs: seq<string>, ds: seq<Check>)
    requires SortedChecks(ManyConditions(), hs, ds) && NoDuplicates(hs)
    ensures exists c :: c in ds && |EntriesOf(c)| > DeclaredSize(c)
  {
    ManyChecks();
    Overflows(ManyConditions(), hs, ds, "m0");
  }
}
