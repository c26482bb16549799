/**
 Table names. A name is built from a header or monitor, a round and an id; merging can leave two
 checks with one id, so names may clash.
 */
module Naming {
  import opened Policy
  import opened HeaderMerge
  import opened MonitorMerge
  import opened Optimizer
  import opened Identity
  import opened Allocation
  import opened Emission
  import opened Compiler
  import opened Correctness
  import opened Sequences
  import Templates

  /** A name determines what it is made of. */
  lemma {:induction false} NameParts(s: string, t: string, q: nat, r: nat, m: nat, n: nat)
    requires "eval_" + s + "_tab_rec" + Decimal.ToString(q) + "_id" + Decimal.ToString(m) ==
             "eval_" + t + "_tab_rec" + Decimal.ToString(r) + "_id" + Decimal.ToString(n)
    ensures s == t && q == r && m == n
  {
    var a, b := "eval_" + s + "_tab_rec", "eval_" + t + "_tab_rec";
    var x, y := a + Decimal.ToString(q), b + Decimal.ToString(r);
    Decimal.TrailingNumber(x + "_id", y + "_id", m, n);
    CutTail(x + "_id", y + "_id", Decimal.ToString(m));
    CutTail(x, y, "_id");
    Decimal.TrailingNumber(a, b, q, r);
    CutTail(a, b, Decimal.ToString(q));
    CutTail("eval_" + s, "eval_" + t, "_tab_rec");
    assert s == ("eval_" + s)[5..] && t == ("eval_" + t)[5..];
  }

  lemma CutTail(a: string, b: string, tail: string)
    requires a + tail == b + tail
    ensures a == b
  {
    assert |a| == |b|;
    assert a == (a + tail)[..|a|] && b == (b + tail)[..|b|];
  }

  /** Two checks have the same table name exactly when they agree on subject, round and id. */
  lemma NameExact(c: Check, d: Check)
    ensures TableName(c) == TableName(d) <==> Subject(c) == Subject(d) && c.rec == d.rec && c.id == d.id
  {
    if TableName(c) == TableName(d) {
      NameParts(Subject(c), Subject(d), c.rec, d.rec, c.id, d.id);
    }
  }

  lemma FinalName(ds: seq<Check>, i: nat, j: nat)
    requires i < |ds| && j < |ds|
    ensures Final(ds)[i].tableName == Final(ds)[j].tableName <==>
              Subject(ds[i]) == Subject(ds[j]) && Placed(ds)[i].rec == Placed(ds)[j].rec && ds[i].id == ds[j].id
  {
    NamedAt(Placed(ds), i);
    NamedAt(Placed(ds), j);
    PlacedAt(ds, i);
    PlacedAt(ds, j);
    NameExact(Placed(ds)[i], Placed(ds)[j]);
  }

  /**
   Check `i` merged the group of header `h`; check `j` still has the id of the group's head, is named
   after the same header, and sits in the same round.
   */
  ghost predicate Clash(cs: seq<Check>, hs: seq<string>, ds: seq<Check>, h: string, i: nat, j: nat) {
    && h in hs && ShouldMerge(Group(cs, h)) && i < |ds| && j < |ds|
    && ds[i] == Merged(Group(cs, h)) && (ds[j].kind.Range? || ds[j].kind.Monitor?)
    && ds[j].id == Group(cs, h)[0].id && ds[j].kind == Group(cs, h)[0].kind && Subject(ds[j]) == h
    && Placed(ds)[i].rec == Placed(ds)[j].rec
  }

  /** Where a shared id comes from. */
  lemma SharedIdOrigin(cs: seq<Check>, hs: seq<string>, ms: seq<string>, c: Check, d: Check) returns (h: string)
    requires NoDuplicates(hs) && DistinctIds(cs)
    requires c in Optimized(cs, hs, ms) && d in Optimized(cs, hs, ms)
    requires c.id == d.id && c.kind.List? && !d.kind.List?
    ensures h in hs && ShouldMerge(Group(cs, h)) && c == Merged(Group(cs, h))
    ensures var head := Group(cs, h)[0];
            d.id == head.id && d.kind == head.kind && (d.kind.Range? || d.kind.Monitor?) && (if d.kind.Monitor? then d.mon == head.mon else d == head)
  {
    var once := MergeSameHeaders(cs, hs);
    MergeMonitorsMembers(once, ms, c);
    MergeMonitorsMembers(once, ms, d);
    var e := d;
    if d.kind.Monitor? {
      var g := MonGroup(once, d.mon);
      MonGroupMembers(once, d.mon);
      if d !in g {
        assert g[0] in g;
        MergedMonitorReads(g, d.mon);
        e := g[0];
      }
    }
    h := SharedId(cs, hs, c, e);
  }

  lemma {:induction false} ClashFrom(p: Policy.Program, hs: seq<string>, ds: seq<Check>, i: nat, j: nat)
    requires SortedChecks(p, hs, ds) && NoDuplicates(hs) && i < |ds| && j < |ds|
    requires Final(ds)[i].tableName == Final(ds)[j].tableName && ds[i].kind.List? && !ds[j].kind.List?
    ensures exists h :: Clash(Lower(p), hs, ds, h, i, j)
  {
    LowerReady(p, hs);
    FinalName(ds, i, j);
    assert ds[i] in multiset(ds) && ds[j] in multiset(ds);
    var h := SharedIdOrigin(Lower(p), hs, Names(p.monitors), ds[i], ds[j]);
    HeaderOfMerged(Lower(p), h);
    assert Clash(Lower(p), hs, ds, h, i, j);
  }

  lemma {:induction false} SameNameClashes(p: Policy.Program, hs: seq<string>, ds: seq<Check>, i: nat, j: nat)
    requires SortedChecks(p, hs, ds) && NoDuplicates(hs) && i < |ds| && j < |ds| && Apart(ds[i], ds[j])
    requires Final(ds)[i].tableName == Final(ds)[j].tableName
    ensures exists h, a: nat, b: nat :: Clash(Lower(p), hs, ds, h, a, b)
  {
    FinalName(ds, i, j);
    if ds[i].kind.List? {
      ClashFrom(p, hs, ds, i, j);
    } else {
      ClashFrom(p, hs, ds, j, i);
    }
  }

  lemma ClashSharesName(cs: seq<Check>, hs: seq<string>, ds: seq<Check>, h: string, i: nat, j: nat)
    requires Clash(cs, hs, ds, h, i, j)
    ensures i != j && Final(ds)[i].tableName == Final(ds)[j].tableName
  {
    HeaderOfMerged(cs, h);
    FinalName(ds, i, j);
  }

  /** Table names are distinct exactly when no merged check meets the check it took its id from. */
  lemma {:induction false} GeneratedNamesExact(p: Policy.Program, hs: seq<string>, ds: seq<Check>)
    requires SortedChecks(p, hs, ds) && NoDuplicates(hs)
    ensures DistinctNames(Final(ds)) <==> !exists h, i: nat, j: nat :: Clash(Lower(p), hs, ds, h, i, j)
  {
    var cs, ps := Lower(p), Final(ds);
    if DistinctNames(ps) {
      forall h, i: nat, j: nat ensures !Clash(cs, hs, ds, h, i, j) {
        if Clash(cs, hs, ds, h, i, j) {
          ClashSharesName(cs, hs, ds, h, i, j);
        }
      }
    } else {
      var i, j :| 0 <= i < j < |ps| && ps[i].tableName == ps[j].tableName;
      LowerReady(p, hs);
      OrderedSeparate(cs, hs, Names(p.monitors), ds);
      SameNameClashes(p, hs, ds, i, j);
    }
  }

  /** No merged header group is headed by a range check. */
  ghost predicate NoRangeHeads(cs: seq<Check>, hs: seq<string>) {
    forall h :: h in hs && ShouldMerge(Group(cs, h)) ==> !Group(cs, h)[0].kind.Range?
  }

  /** A range check that heads a merged group survives, and clashes when one round holds everything. */
  lemma {:induction false} RangeHeadClashes(p: Policy.Program, hs: seq<string>, ds: seq<Check>, h: string)
    requires SortedChecks(p, hs, ds) && NoDuplicates(hs) && End(ds).rec == 0
    requires h in hs && ShouldMerge(Group(Lower(p), h)) && Group(Lower(p), h)[0].kind.Range?
    ensures exists i: nat, j: nat :: Clash(Lower(p), hs, ds, h, i, j)
  {
    var cs, ms := Lower(p), Names(p.monitors);
    var c, d := Merged(Group(cs, h)), Group(cs, h)[0];
    HeadAndMerged(cs, hs, h);
    MergeMonitorsMembers(MergeSameHeaders(cs, hs), ms, c);
    MergeMonitorsMembers(MergeSameHeaders(cs, hs), ms, d);
    assert c in multiset(ds) && d in multiset(ds);
    var i :| 0 <= i < |ds| && ds[i] == c;
    var j :| 0 <= j < |ds| && ds[j] == d;
    RoundsBounded(ds, i);
    RoundsBounded(ds, j);
    assert Clash(cs, hs, ds, h, i, j);
  }

  lemma {:induction false} RoundsBounded(ds: seq<Check>, i: nat)
    requires i < |ds|
    ensures Placed(ds)[i].rec <= End(ds).rec
  {
    PlacedAt(ds, i);
    EndMonotone(ds, i + 1, |ds|);
    assert ds[..|ds|] == ds;
  }

  /**
   For a policy that fits in one round, whose monitors are not named like headers: names are
   distinct exactly when no merged group is headed by a range check.
   */
  lemma {:induction false} OneRoundNames(p: Policy.Program, hs: seq<string>, ds: seq<Check>)
    requires SortedChecks(p, hs, ds) && NoDuplicates(hs) && End(ds).rec == 0
    requires forall h :: h in hs ==> h !in Names(p.monitors)
    ensures DistinctNames(Final(ds)) <==> NoRangeHeads(Lower(p), hs)
  {
    var cs := Lower(p);
    GeneratedNamesExact(p, hs, ds);
    if !NoRangeHeads(cs, hs) {
      var h :| h in hs && ShouldMerge(Group(cs, h)) && Group(cs, h)[0].kind.Range?;
      RangeHeadClashes(p, hs, ds, h);
    } else if exists h, i: nat, j: nat :: Clash(cs, hs, ds, h, i, j) {
      var h, i: nat, j: nat :| Clash(cs, hs, ds, h, i, j);
      ClashKinds(p, hs, ds, h, i, j);
    }
  }

  lemma MonitorNamed(cs: seq<Check>, hs: seq<string>, ms: seq<string>, c: Check)
    requires Ready(cs, hs, ms) && c.kind.Monitor? && c in Optimized(cs, hs, ms)
    ensures c.mon in ms
  {
    OptimizedMonitors(cs, hs, ms, c);
    OptimizedMonGroup(cs, hs, c.mon);
    var g := MonGroup(cs, c.mon);
    assert g[0] in g;
  }

  /** A clash is with a range check, or with the check of a monitor that has the header's name. */
  lemma {:induction false} ClashKinds(p: Policy.Program, hs: seq<string>, ds: seq<Check>, h: string, i: nat, j: nat)
    requires SortedChecks(p, hs, ds) && NoDuplicates(hs) && Clash(Lower(p), hs, ds, h, i, j)
    ensures Group(Lower(p), h)[0].kind.Range? || h in Names(p.monitors)
  {
    var cs, ms := Lower(p), Names(p.monitors);
    LowerReady(p, hs);
    assert ds[j] in multiset(ds);
    if ds[j].kind.Monitor? {
      MonitorNamed(cs, hs, ms, ds[j]);
    }
  }

  /** Without range heads and monitors named like headers no policy has clashing names, however many rounds it takes. */
  lemma {:induction false} NoRangeHeadNames(p: Policy.Program, hs: seq<string>, ds: seq<Check>)
    requires SortedChecks(p, hs, ds) && NoDuplicates(hs) && NoRangeHeads(Lower(p), hs)
    requires forall h :: h in hs ==> h !in Names(p.monitors)
    ensures DistinctNames(Final(ds))
  {
    GeneratedNamesExact(p, hs, ds);
    forall h, i: nat, j: nat ensures !Clash(Lower(p), hs, ds, h, i, j) {
      if Clash(Lower(p), hs, ds, h, i, j) {
        ClashKinds(p, hs, ds, h, i, j);
      }
    }
  }

  /** Names are distinct when no merged header group is headed by a range or monitor check. */
  lemma GeneratedNames(p: Policy.Program, hs: seq<string>, ds: seq<Check>)
    requires SortedChecks(p, hs, ds) && NoDuplicates(hs) && HeadsRetired(Lower(p), hs)
    ensures DistinctNames(Final(ds))
  {
    GeneratedNamesExact(p, hs, ds);
  }

  // ----- the name in the monitor template -----

  /** The values the monitor template is filled with for a check. */
  function ValuesOf(c: Check, timeout: nat, extra: string): Templates.Values {
    Templates.Values(c.mon, c.header, Decimal.ToString(timeout), Decimal.ToString(c.rec), Decimal.ToString(c.id), extra)
  }

  /**
   The table declared by a monitor check's instantiated template has the name that the control block and
   the commands use, exactly when the monitor's name contains no later placeholder.
   */
  lemma DeclaredNameExact(c: Check, timeout: nat, extra: string)
    requires c.kind.Monitor? && Templates.Word(c.mon) && Templates.Word(c.header)
    ensures var v := ValuesOf(c, timeout, extra);
            Templates.Instantiated(Templates.Show(Templates.TableLine(), Templates.WORDS), v) == TableName(c) <==> Templates.MonKept(v)
  {
    var v := ValuesOf(c, timeout, extra);
    Templates.DeclaredTable(v);
    Templates.MonKeptExact(v);
    SubjectRead(Templates.MonText(v), c);
  }

  lemma SubjectRead(s: string, c: Check)
    ensures Templates.LineText(s, Decimal.ToString(c.rec), Decimal.ToString(c.id)) == TableName(c) <==> s == Subject(c)
  {
    if Templates.LineText(s, Decimal.ToString(c.rec), Decimal.ToString(c.id)) == TableName(c) {
      NameParts(s, Subject(c), c.rec, c.rec, c.id, c.id);
    }
  }

  /** A monitor named HNAME that watches another header: its table is declared under a name that nothing applies. */
  lemma RenamedTable(c: Check, timeout: nat, extra: string)
    requires c.kind.Monitor? && c.mon == "HNAME" && Templates.Word(c.header) && c.header != "HNAME"
    ensures Templates.Instantiated(Templates.Show(Templates.TableLine(), Templates.WORDS), ValuesOf(c, timeout, extra)) != TableName(c)
  {
    DeclaredNameExact(c, timeout, extra);
    Templates.RenamedMonitor(ValuesOf(c, timeout, extra));
  }
}
