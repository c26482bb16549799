/**
 The compiler back end as it runs: a class whose methods rewrite the vector of checks in place,
 each proved against the functions of the other modules.
 */
module Compiler {
  import opened Policy
  import opened Decision
  import opened HeaderMerge
  import opened MonitorMerge
  import opened Optimizer
  import opened Allocation
  import opened Emission
  import opened Positions
  import opened Sequences

  /** The generated P4 program and its table entries; `recirTimes` is the constant RECIR_TIMES. */
  datatype Output = Output(blocks: seq<Block>, entries: seq<Entry>, recirTimes: nat)

  function Names(ms: seq<MonitorDef>): seq<string> {
    seq(|ms|, i requires 0 <= i < |ms| => ms[i].name)
  }

  function InsertByPriority(cs: seq<Check>, c: Check): seq<Check> {
    if cs == [] || cs[|cs| - 1].priority <= c.priority then cs + [c]
    else InsertByPriority(cs[..|cs| - 1], c) + [cs[|cs| - 1]]
  }

  lemma {:induction false} InsertIsPermutation(cs: seq<Check>, c: Check)
    ensures multiset(InsertByPriority(cs, c)) == multiset(cs) + multiset{c}
  {
    if !(cs == [] || cs[|cs| - 1].priority <= c.priority) {
      var n := |cs| - 1;
      InsertIsPermutation(cs[..n], c);
      assert cs == cs[..n] + [cs[n]];
    }
  }

  /** Nothing in the result exceeds a bound on the list and on the inserted check. */
  lemma {:induction false} InsertBounded(cs: seq<Check>, c: Check, bound: nat)
    requires c.priority <= bound && forall i :: 0 <= i < |cs| ==> cs[i].priority <= bound
    ensures forall i :: 0 <= i < |InsertByPriority(cs, c)| ==> InsertByPriority(cs, c)[i].priority <= bound
  {
    if !(cs == [] || cs[|cs| - 1].priority <= c.priority) {
      InsertBounded(cs[..|cs| - 1], c, bound);
    }
  }

  lemma {:induction false} InsertKeepsOrder(cs: seq<Check>, c: Check)
    requires SortedByPriority(cs)
    ensures SortedByPriority(InsertByPriority(cs, c))
  {
    if !(cs == [] || cs[|cs| - 1].priority <= c.priority) {
      var n := |cs| - 1;
      InsertKeepsOrder(cs[..n], c);
      InsertBounded(cs[..n], c, cs[n].priority);
    }
  }

  /** An order of the merged checks that `std::sort` may produce. */
  ghost predicate SortedChecks(p: Policy.Program, hs: seq<string>, ds: seq<Check>) {
    && Accepted(p) && SortedByPriority(ds)
    && multiset(ds) == multiset(Optimized(Lower(p), hs, Names(p.monitors)))
  }

  function Generate(ds: seq<Check>): Output {
    Output(Blocks(Final(ds)), Commands(Final(ds)), End(ds).rec)
  }

  /** The vector while a monitor group is folded, after the first `i` readers. */
  function Folding(cs: seq<Check>, at: seq<nat>, i: nat): seq<Check>
    requires Increasing(at, |cs|) && 1 <= i <= |at|
  {
    var g := Pick(cs, at);
    RetireAt(cs, at[1..i])[at[0] := AddChecks(g[0], g[1..i])]
  }

  lemma FoldingStarts(cs: seq<Check>, at: seq<nat>)
    requires Increasing(at, |cs|) && at != []
    ensures Folding(cs, at, 1) == cs
  {
    assert at[1..1] == [] && Pick(cs, at)[1..1] == [];
    assert RetireAt(cs, []) == cs;
  }

  /** One more reader folded in. */
  lemma {:induction false} AddChecksStep(g: seq<Check>, i: nat)
    requires 1 <= i < |g|
    ensures AddChecks(g[0], g[1..i + 1]) == AddHeaders(AddChecks(g[0], g[1..i]), g[i], g[i].extraHeaders)
  {
    assert g[1..i + 1][..i - 1] == g[1..i];
  }

  lemma {:induction false} UpdatesCommute(r: seq<Check>, a: nat, k: nat, f: Check, g: Check, x: Check)
    requires a < |r| && k < |r| && a != k
    ensures r[k := x][a := g] == r[a := f][a := g][k := x]
  {
  }

  lemma {:induction false} FoldingStep(cs: seq<Check>, at: seq<nat>, i: nat)
    requires Increasing(at, |cs|) && 1 <= i < |at|
    ensures var f, k := Folding(cs, at, i), at[i];
            && at[0] != k && f[k] == cs[k]
            && Folding(cs, at, i + 1) == f[at[0] := AddHeaders(f[at[0]], f[k], f[k].extraHeaders)][k := f[k].(kind := Invalid)]
  {
    var g, k, done := Pick(cs, at), at[i], at[1..i];
    assert k !in done && at[1..i + 1] == done + [k];
    RetireAtSnoc(cs, done, k);
    AddChecksStep(g, i);
    var f := AddChecks(g[0], g[1..i]);
    UpdatesCommute(RetireAt(cs, done), at[0], k, f, AddHeaders(f, cs[k], cs[k].extraHeaders), cs[k].(kind := Invalid));
  }

  lemma {:induction false} FoldingEnds(cs: seq<Check>, m: string)
    requires |MonAt(cs, m)| > 1 && Increasing(MonAt(cs, m), |cs|)
    ensures var at := MonAt(cs, m); var f := Folding(cs, at, |at|);
            f[at[0] := f[at[0]].(tableSize := |f[at[0]].extraHeaders|)] == MergeMonitor(cs, m)
  {
    var at := MonAt(cs, m);
    MonAtPick(cs, m);
    var g := MonGroup(cs, m);
    assert g[1..|g|] == g[1..] && at[1..|at|] == at[1..];
    FoldIsRetire(cs, m, MergedMonitor(g));
  }

  /** One more check retired and its values collected. */
  lemma {:induction false} CollectStep(cs: seq<Check>, kept: seq<nat>, i: nat)
    requires Increasing(kept, |cs|) && i < |kept|
    ensures var k := kept[i];
            && RetireAt(cs, kept[..i])[k] == cs[k]
            && RetireAt(cs, kept[..i + 1]) == RetireAt(cs, kept[..i])[k := cs[k].(kind := Invalid)]
            && MergedList(Pick(cs, kept[..i + 1])) == MergedList(Pick(cs, kept[..i])) + Values(cs[k])
  {
    IncreasingFresh(kept, |cs|, i);
    RetireAtSnoc(cs, kept[..i], kept[i]);
    PickSnoc(cs, kept[..i], kept[i]);
  }

  /** The vector while stages are allocated, after the first `i` checks. */
  function Allocating(cs: seq<Check>, i: nat): seq<Check>
    requires i <= |cs|
  {
    Placed(cs[..i]) + cs[i..]
  }

  lemma {:induction false} AllocatingStep(cs: seq<Check>, i: nat)
    requires i < |cs|
    ensures Allocating(cs, i)[i] == cs[i]
    ensures Allocating(cs, i + 1) == Allocating(cs, i)[i := Place(cs[i], End(cs[..i]))]
    ensures End(cs[..i + 1]) == Advance(End(cs[..i]), Need(cs[i]))
  {
    assert cs[..i + 1][..i] == cs[..i];
    assert Placed(cs[..i + 1]) == Placed(cs[..i]) + [Place(cs[i], End(cs[..i]))];
  }

  // ----- the order of headers -----

  /** Strings in the order of their characters. */
  predicate Less(a: string, b: string) {
    b != [] && (a == [] || a[0] < b[0] || (a[0] == b[0] && Less(a[1..], b[1..])))
  }

  /** Strictly ascending, hence without repetition: a set of headers has one such list. */
  predicate Alphabetical(hs: seq<string>) {
    forall i, j :: 0 <= i < j < |hs| ==> Less(hs[i], hs[j])
  }

  function InsertHeader(hs: seq<string>, h: string): seq<string> {
    if hs == [] then [h]
    else
      var n := |hs| - 1;
      if hs[n] == h then hs
      else if Less(hs[n], h) then hs + [h]
      else InsertHeader(hs[..n], h) + [hs[n]]
  }

  lemma {:induction false} LessTotal(a: string, b: string)
    ensures a == b || Less(a, b) || Less(b, a)
    ensures !Less(a, a)
  {
    if a != [] {
      LessTotal(a[1..], if b == [] then a[1..] else b[1..]);
    }
    if b != [] && a != [] && a[0] == b[0] && a[1..] == b[1..] {
      assert a == [a[0]] + a[1..] && b == [b[0]] + b[1..];
    }
  }

  lemma {:induction false} LessTransitive(a: string, b: string, c: string)
    requires Less(a, b) && Less(b, c)
    ensures Less(a, c)
  {
    if a != [] && a[0] == b[0] == c[0] {
      LessTransitive(a[1..], b[1..], c[1..]);
    }
  }

  lemma {:induction false} InsertHeaderKeeps(hs: seq<string>, h: string)
    requires Alphabetical(hs)
    ensures Alphabetical(InsertHeader(hs, h))
    ensures forall x :: x in InsertHeader(hs, h) <==> x in hs || x == h
  {
    if hs != [] {
      var n := |hs| - 1;
      assert hs == hs[..n] + [hs[n]];
      if hs[n] == h {
      } else if Less(hs[n], h) {
        forall i | 0 <= i < n ensures Less(hs[i], h) {
          LessTransitive(hs[i], hs[n], h);
        }
      } else {
        LessTotal(hs[n], h);
        InsertHeaderKeeps(hs[..n], h);
        var r := InsertHeader(hs[..n], h);
        forall i | 0 <= i < |r| ensures Less(r[i], hs[n]) {
          assert r[i] in r;
        }
      }
    }
  }

  lemma AlphabeticalDistinct(hs: seq<string>)
    requires Alphabetical(hs)
    ensures NoDuplicates(hs)
  {
    forall i, j | 0 <= i < j < |hs| ensures hs[i] != hs[j] {
      LessTotal(hs[i], hs[j]);
    }
  }

  lemma UpdateAt(cs: seq<Check>, i: nat, x: Check)
    requires i < |cs|
    ensures cs[i := x][..i + 1] == cs[..i] + [x] && cs[i := x][i + 1..] == cs[i + 1..] == cs[i..][1..]
  {
  }

  /** One turn of the loop that names tables. */
  lemma NamedUpdate(cs: seq<Check>, before: seq<Check>, i: nat)
    requires i < |cs| == |before| && cs[..i] == Named(before[..i]) && cs[i..] == before[i..]
    ensures var x := cs[i].(tableName := TableName(cs[i]));
            cs[i := x][..i + 1] == Named(before[..i + 1]) && cs[i := x][i + 1..] == before[i + 1..]
  {
    assert cs[i] == cs[i..][0] == before[i];
    assert before[i + 1..] == before[i..][1..];
    UpdateAt(cs, i, cs[i].(tableName := TableName(cs[i])));
    NamedStep(before, i);
  }

  class Program {
    const source: Policy.Program
    var headers: seq<string>  // header_v
    var checks: seq<Check>    // check_v
    var currRec: nat
    var currStage: nat

    constructor (p: Policy.Program)
      ensures source == p && headers == p.headers && checks == [] && currRec == 0 && currStage == 0
    {
      source, headers, checks, currRec, currStage := p, p.headers, [], 0, 0;
    }

    /** Sorts the headers and removes repetitions. */
    method CountHeaders() returns (count: nat)
      modifies this`headers
      ensures Alphabetical(headers) && NoDuplicates(headers) && count == |headers|
      ensures forall h :: h in headers <==> h in old(headers)
    {
      var unique: seq<string> := [];
      var i := 0;
      while i < |headers|
        invariant i <= |headers| && headers == old(headers)
        invariant Alphabetical(unique)
        invariant forall h :: h in unique <==> h in headers[..i]
      {
        InsertHeaderKeeps(unique, headers[i]);
        unique := InsertHeader(unique, headers[i]);
        assert headers[..i + 1] == headers[..i] + [headers[i]];
        i := i + 1;
      }
      assert headers[..i] == headers;
      AlphabeticalDistinct(unique);
      headers := unique;
      count := |headers|;
    }

    /** Lowers the statements one by one; stops at the first one that is not supported. */
    method ProcessMatchExprs() returns (ok: bool)
      requires checks == []
      modifies this`checks
      ensures ok <==> Accepted(source)
      ensures ok ==> checks == Lower(source)
    {
      var i := 0;
      while i < |source.stmts|
        invariant i == |checks| <= |source.stmts|
        invariant forall k :: 0 <= k < i ==> LowerStmt(source, source.stmts[k]).Some? &&
                                             checks[k] == LowerStmt(source, source.stmts[k]).value.(id := k)
      {
        var c := LowerStmt(source, source.stmts[i]);
        if c.None? {
          return false;
        }
        checks := checks + [c.value.(id := i)];
        i := i + 1;
      }
      return true;
    }

    method RemoveInvalidChecks()
      modifies this`checks
      ensures checks == Valid(old(checks))
    {
      var i := 0;
      ghost var done := 0;
      while i < |checks|
        invariant i <= |checks| && done <= |old(checks)|
        invariant checks[..i] == Valid(old(checks)[..done])
        invariant checks[i..] == old(checks)[done..]
        decreases |old(checks)| - done
      {
        assert old(checks)[..done + 1][..done] == old(checks)[..done];
        assert checks[i] == checks[i..][0] == old(checks)[done];
        if checks[i].kind.Invalid? {
          checks := checks[..i] + checks[i + 1..];
        } else {
          assert checks[..i + 1] == checks[..i] + [checks[i]];
          i := i + 1;
        }
        done := done + 1;
      }
      assert old(checks)[..done] == old(checks) && checks[..i] == checks;
    }

    /** Merges the checks at positions `group`, all those on header `h`, when the code's conditions hold. */
    method MergeChecksPerHeader(group: seq<nat>, ghost h: string) returns (merged: bool)
      requires group == GroupAt(checks, h) && |group| > 1
      modifies this`checks
      ensures checks == MergeHeader(old(checks), h)
      ensures merged <==> ShouldMerge(Group(old(checks), h))
    {
      GroupAtPick(checks, h);
      ghost var before, g := checks, Group(checks, h);
      var first := checks[group[0]];
      assert g[0] == first;
      var same := SamePriority(group);
      if !same {
        return false;
      }
      var kept := KeepMergeable(group);
      MergeableAtMembers(checks, group);
      MergeableAtPick(checks, group);
      if |kept| <= 1 {
        return false;
      }
      assert forall k :: 0 <= k < |kept| ==> kept[k] in kept;
      var items := RetireAndCollect(kept);
      RetireMergeable(before, h);
      checks := checks + [BLANK.(kind := List, header := first.header, ifAct := first.ifAct, elseAct := first.elseAct,
                                 priority := first.ifAct, list := items, tableSize := |items|, id := first.id)];
      return true;
    }

    method SamePriority(group: seq<nat>) returns (same: bool)
      requires |group| > 1 && Increasing(group, |checks|)
      ensures same <==> forall k :: 0 <= k < |group| ==> Pick(checks, group)[k].priority == Pick(checks, group)[0].priority
    {
      var i := 0;
      while i < |group|
        invariant i <= |group|
        invariant forall k :: 0 <= k < i ==> Pick(checks, group)[k].priority == Pick(checks, group)[0].priority
      {
        if checks[group[i]].priority != checks[group[0]].priority {
          assert Pick(checks, group)[i].priority != Pick(checks, group)[0].priority;
          return false;
        }
        i := i + 1;
      }
      return true;
    }

    /** Erases from a copy of `group` the positions of checks that are neither exact nor list checks. */
    method KeepMergeable(group: seq<nat>) returns (kept: seq<nat>)
      requires Increasing(group, |checks|)
      ensures kept == MergeableAt(checks, group)
    {
      kept := group;
      var i := 0;
      ghost var done := 0;
      while i < |kept|
        invariant i <= |kept| && done <= |group|
        invariant kept[..i] == MergeableAt(checks, group[..done])
        invariant kept[i..] == group[done..]
        decreases |group| - done
      {
        assert kept[i] == kept[i..][0] == group[done];
        assert group[..done + 1][..done] == group[..done];
        if !Mergeable(checks[kept[i]]) {
          kept := kept[..i] + kept[i + 1..];
        } else {
          assert kept[..i + 1] == kept[..i] + [kept[i]];
          i := i + 1;
        }
        done := done + 1;
      }
      assert group[..done] == group && kept[..i] == kept;
    }

    /** Collects the values of the checks at `kept` and marks those checks invalid. */
    method RetireAndCollect(kept: seq<nat>) returns (items: seq<nat>)
      requires Increasing(kept, |checks|) && (forall k :: 0 <= k < |kept| ==> Mergeable(checks[kept[k]]))
      modifies this`checks
      ensures items == MergedList(Pick(old(checks), kept))
      ensures checks == RetireAt(old(checks), kept)
    {
      ghost var before := checks;
      items := [];
      var i := 0;
      while i < |kept|
        invariant i <= |kept| && checks == RetireAt(before, kept[..i]) && items == MergedList(Pick(before, kept[..i]))
      {
        CollectStep(before, kept, i);
        var c := checks[kept[i]];
        items := items + if c.kind.Exact? then [c.lo] else c.list;
        checks := checks[kept[i] := c.(kind := Invalid)];
        i := i + 1;
      }
      assert kept[..i] == kept;
    }

    /** The positions of the checks on header `h`. */
    method Positioned(h: string) returns (group: seq<nat>)
      ensures group == GroupAt(checks, h)
    {
      group := [];
      var k := 0;
      while k < |checks|
        invariant k <= |checks| && group == GroupAt(checks[..k], h)
      {
        assert checks[..k + 1][..k] == checks[..k];
        if checks[k].header == h {
          group := group + [k];
        }
        k := k + 1;
      }
      assert checks[..k] == checks;
    }

    method MergeSameHeaders()
      modifies this`checks
      ensures checks == HeaderMerge.MergeSameHeaders(old(checks), headers)
    {
      var i := 0;
      while i < |headers|
        invariant i <= |headers| && checks == MergeHeaders(old(checks), headers[..i])
      {
        var h := headers[i];
        assert headers[..i + 1][..i] == headers[..i];
        var group := Positioned(h);
        GroupAtPick(checks, h);
        if |group| > 1 {
          var _ := MergeChecksPerHeader(group, h);
        }
        i := i + 1;
      }
      assert headers[..i] == headers;
      RemoveInvalidChecks();
    }

    /** Appends the extra headers of the check at `c` to the check at `first`. */
    method AddExtraHeaders(first: nat, c: nat)
      requires first < |checks| && c < |checks| && first != c
      modifies this`checks
      ensures checks == old(checks)[first := AddHeaders(old(checks)[first], old(checks)[c], old(checks)[c].extraHeaders)]
    {
      ghost var before := checks;
      var hs := checks[c].extraHeaders;
      var i := 0;
      while i < |hs|
        invariant i <= |hs| && checks == before[first := AddHeaders(before[first], before[c], hs[..i])]
      {
        assert hs[..i + 1][..i] == hs[..i];
        var f := checks[first];
        checks := checks[first := f.(extraHeaders := f.extraHeaders + [hs[i]], hToVal := f.hToVal[hs[i] := Val(checks[c], hs[i])])];
        i := i + 1;
      }
      assert hs[..i] == hs;
    }

    /** Folds the checks at positions `group`, all the readers of `m`, into the first of them. */
    method FoldReaders(group: seq<nat>, ghost m: string)
      requires group == MonAt(checks, m) && |group| > 1
      modifies this`checks
      ensures checks == MergeMonitor(old(checks), m)
    {
      MonAtPick(checks, m);
      FoldingEnds(checks, m);
      FoldAll(group);
      var first := group[0];
      checks := checks[first := checks[first].(tableSize := |checks[first].extraHeaders|)];
    }

    method FoldAll(group: seq<nat>)
      requires Increasing(group, |checks|) && |group| > 1
      modifies this`checks
      ensures checks == Folding(old(checks), group, |group|)
    {
      ghost var before := checks;
      var i := 1;
      FoldingStarts(before, group);
      while i < |group|
        invariant 1 <= i <= |group| && checks == Folding(before, group, i)
      {
        FoldReader(group[0], group[i], before, group, i);
        i := i + 1;
      }
    }

    /** Moves the extra headers of the check at `c` to the one at `first` and marks it invalid. */
    method FoldReader(first: nat, c: nat, ghost before: seq<Check>, ghost group: seq<nat>, ghost i: nat)
      requires Increasing(group, |before|) && 1 <= i < |group| && first == group[0] && c == group[i]
      requires checks == Folding(before, group, i)
      modifies this`checks
      ensures checks == Folding(before, group, i + 1)
    {
      FoldingStep(before, group, i);
      AddExtraHeaders(first, c);
      checks := checks[c := checks[c].(kind := Invalid)];
    }

    /** The positions of the checks that read monitor `m`. */
    method Readers(m: string) returns (group: seq<nat>)
      ensures group == MonAt(checks, m)
    {
      group := [];
      var k := 0;
      while k < |checks|
        invariant k <= |checks| && group == MonAt(checks[..k], m)
      {
        assert checks[..k + 1][..k] == checks[..k];
        if checks[k].kind.Monitor? && checks[k].mon == m {
          group := group + [k];
        }
        k := k + 1;
      }
      assert checks[..k] == checks;
    }

    method MergeMonitors()
      modifies this`checks
      ensures checks == MonitorMerge.MergeMonitors(old(checks), Names(source.monitors))
    {
      ghost var names := Names(source.monitors);
      var i := 0;
      while i < |source.monitors|
        invariant i <= |source.monitors| && checks == FoldMonitors(old(checks), names[..i])
      {
        var m := source.monitors[i].name;
        assert names[..i + 1][..i] == names[..i];
        var group := Readers(m);
        MonAtPick(checks, m);
        if |group| > 1 {
          FoldReaders(group, m);
        }
        i := i + 1;
      }
      assert names[..i] == names;
      RemoveInvalidChecks();
    }

    /** Sorts by priority; the order of equal priorities is not specified. */
    method SortByPriority()
      modifies this`checks
      ensures SortedByPriority(checks) && multiset(checks) == multiset(old(checks))
    {
      var sorted: seq<Check> := [];
      var i := 0;
      while i < |checks|
        invariant i <= |checks| && checks == old(checks)
        invariant SortedByPriority(sorted) && multiset(sorted) == multiset(checks[..i])
      {
        assert checks[..i + 1] == checks[..i] + [checks[i]];
        InsertKeepsOrder(sorted, checks[i]);
        InsertIsPermutation(sorted, checks[i]);
        sorted := InsertByPriority(sorted, checks[i]);
        i := i + 1;
      }
      assert checks[..i] == checks;
      checks := sorted;
    }

    method AllocateResources() returns (ok: bool)
      requires currRec == 0 && currStage == 0
      modifies this`checks, this`currRec, this`currStage
      ensures checks == Placed(old(checks))
      ensures Cursor(currRec, currStage) == End(old(checks))
      ensures ok <==> End(old(checks)).rec < MAX_ROUNDS
    {
      ghost var before := checks;
      var i := 0;
      assert Allocating(before, 0) == before;
      while i < |checks|
        invariant i <= |checks| == |before| && checks == Allocating(before, i)
        invariant Cursor(currRec, currStage) == End(before[..i])
      {
        AllocateCheck(i, before);
        i := i + 1;
      }
      assert before[..i] == before && Placed(before) + [] == Placed(before);
      ok := currRec < MAX_ROUNDS;
    }

    /** Gives the check at `i` its stages, in the next round if the current one has too few left. */
    method AllocateCheck(i: nat, ghost before: seq<Check>)
      requires i < |before| && checks == Allocating(before, i) && Cursor(currRec, currStage) == End(before[..i])
      modifies this`checks, this`currRec, this`currStage
      ensures checks == Allocating(before, i + 1) && Cursor(currRec, currStage) == End(before[..i + 1])
    {
      AllocatingStep(before, i);
      var need := Need(checks[i]);
      if currStage + need > STAGES {
        currStage, currRec := 0, currRec + 1;
      }
      checks := checks[i := checks[i].(startStage := currStage, stageNum := need, rec := currRec)];
      currStage := currStage + need;
    }

    /** Names the tables. */
    method GenerateTableDef()
      modifies this`checks
      ensures checks == Named(old(checks))
    {
      ghost var before := checks;
      var i := 0;
      while i < |checks|
        invariant i <= |checks| == |before|
        invariant checks[..i] == Named(before[..i]) && checks[i..] == before[i..]
      {
        NamedUpdate(checks, before, i);
        checks := checks[i := checks[i].(tableName := TableName(checks[i]))];
        i := i + 1;
      }
      assert before[..i] == before && checks[..i] == checks;
    }

    method GenerateEvalCtx() returns (bs: seq<Block>)
      ensures bs == Blocks(checks)
    {
      bs := [Block(0, [])];
      var prevRec := 0;
      var i := 0;
      while i < |checks|
        invariant i <= |checks| && bs == Blocks(checks[..i])
        invariant prevRec == bs[|bs| - 1].round
      {
        assert checks[..i + 1][..i] == checks[..i];
        var c := checks[i];
        ghost var done := bs;
        if c.rec != prevRec {
          bs := bs + [Block(c.rec, [])];
          prevRec := c.rec;
          assert [] + [ApplyOf(c)] == [ApplyOf(c)];
          assert bs[|done| := Block(c.rec, [ApplyOf(c)])] == done + [Block(c.rec, [ApplyOf(c)])];
        }
        bs := bs[|bs| - 1 := Block(c.rec, bs[|bs| - 1].applies + [ApplyOf(c)])];
        i := i + 1;
      }
      assert checks[..i] == checks;
    }

    method GenerateCmd() returns (es: seq<Entry>)
      ensures es == Commands(checks)
    {
      es := [];
      var i := 0;
      while i < |checks|
        invariant i <= |checks| && es == Commands(checks[..i])
      {
        assert checks[..i + 1][..i] == checks[..i];
        es := es + EntriesOf(checks[i]);
        i := i + 1;
      }
      assert checks[..i] == checks;
    }

    /** The whole back end. Compilation fails on an unsupported statement, and when no eight rounds hold the checks. */
    method CompileTofino() returns (out: Option<Output>)
      requires checks == [] && currRec == 0 && currStage == 0
      modifies this
      ensures Alphabetical(headers) && NoDuplicates(headers) && forall h :: h in headers <==> h in old(headers)
      ensures !Accepted(source) ==> out == None
      ensures Accepted(source) ==>
                exists ds :: (&& SortedChecks(source, headers, ds)
                              && out == if End(ds).rec < MAX_ROUNDS then Some(Generate(ds)) else None)
    {
      var _ := CountHeaders();
      var accepted := ProcessMatchExprs();
      if !accepted {
        return None;
      }
      MergeSameHeaders();
      MergeMonitors();
      SortByPriority();
      ghost var ds := checks;
      var ok := AllocateResources();
      assert SortedChecks(source, headers, ds);
      if !ok {
        return None;
      }
      GenerateTableDef();
      var bs := GenerateEvalCtx();
      var es := GenerateCmd();
      return Some(Output(bs, es, currRec));
    }
  }
}
