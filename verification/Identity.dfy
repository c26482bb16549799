/**
 What merging does to the identity of checks: when ids stay distinct, and when a second run of
 `merge_same_headers` has nothing left to do.
 */
module Identity {
  import opened Policy
  import opened HeaderMerge
  import opened MonitorMerge
  import opened Sequences

  predicate DistinctIds(cs: seq<Check>) {
    forall i, j :: 0 <= i < j < |cs| ==> cs[i].id != cs[j].id
  }

  /** Two checks that share an id are told apart by one of them being a list check. */
  predicate Apart(c: Check, d: Check) {
    c.id != d.id || c.kind.List? != d.kind.List?
  }

  predicate Separate(cs: seq<Check>) {
    forall i, j :: 0 <= i < j < |cs| ==> Apart(cs[i], cs[j])
  }

  /** `Separate` for the checks that are still valid. */
  predicate SeparateLive(cs: seq<Check>) {
    forall i, j :: 0 <= i < j < |cs| && !cs[i].kind.Invalid? && !cs[j].kind.Invalid? ==> Apart(cs[i], cs[j])
  }

  /** The check whose id a merged check takes is retired with it. */
  ghost predicate HeadsRetired(cs: seq<Check>, hs: seq<string>) {
    forall h :: h in hs && ShouldMerge(Group(cs, h)) ==> !Group(cs, h)[0].kind.Range? && !Group(cs, h)[0].kind.Monitor?
  }

  /** Every check carries the id of an original check on its header. */
  ghost predicate IdsFrom(cs: seq<Check>, ls: seq<Check>) {
    forall l :: l in ls ==> exists c :: c in cs && c.id == l.id && c.header == l.header
  }

  lemma DistinctUnique(cs: seq<Check>, c: Check, d: Check)
    requires DistinctIds(cs) && c in cs && d in cs
    ensures c.id == d.id ==> c == d
  {
    var i :| 0 <= i < |cs| && cs[i] == c;
    var j :| 0 <= j < |cs| && cs[j] == d;
    assert i < j || j < i || i == j;
  }

  lemma {:induction false} IdsKept(cs: seq<Check>, hs: seq<string>)
    requires NoDuplicates(hs)
    ensures IdsFrom(cs, MergeHeaders(cs, hs))
  {
    if hs != [] {
      var n := |hs| - 1;
      IdsKept(cs, hs[..n]);
      var before, h := MergeHeaders(cs, hs[..n]), hs[n];
      var g, after := Group(before, h), MergeHeader(before, h);
      if ShouldMerge(g) {
        HeaderOfMerged(before, h);
        forall l | l in after ensures exists c :: c in cs && c.id == l.id && c.header == l.header {
          var i :| 0 <= i < |after| && after[i] == l;
          if i < |before| {
            assert before[i] in before && before[i].id == l.id && before[i].header == l.header;
          } else {
            GroupMembers(before, h);
            assert g[0] in g && g[0] in before && g[0].id == l.id;
          }
        }
      }
    }
  }

  lemma HeadIdOrigin(cs: seq<Check>, before: seq<Check>, h: string, l: Check, head: Check)
    requires DistinctIds(cs) && IdsFrom(cs, before) && l in before && head in cs && head.header == h && l.id == head.id
    ensures l.header == h
  {
    var c :| c in cs && c.id == l.id && c.header == l.header;
    DistinctUnique(cs, c, head);
  }

  /** Only the head of a group carries the head's id. */
  lemma HeadIdUnique(cs: seq<Check>, before: seq<Check>, h: string, l: Check)
    requires DistinctIds(cs) && IdsFrom(cs, before) && Group(before, h) == Group(cs, h) != []
    requires l in before && l.id == Group(cs, h)[0].id
    ensures l == Group(cs, h)[0] && l.header == h
  {
    var head := Group(cs, h)[0];
    HeaderOfMerged(cs, h);
    HeadIdOrigin(cs, before, h, l, head);
    GroupMembers(cs, h);
    GroupMembers(before, h);
    DistinctUnique(cs, l, head);
  }

  lemma RetireSeparate(before: seq<Check>, h: string, x: Check)
    requires SeparateLive(before) && x.kind.List?
    requires forall l :: l in before && l.id == x.id && l.kind.List? ==> Retire(l, h).kind.Invalid?
    ensures SeparateLive(RetireAll(before, h) + [x])
  {
    var rs := RetireAll(before, h);
    forall i | 0 <= i < |before| && !rs[i].kind.Invalid? ensures Apart(rs[i], x) && rs[i] == before[i] {
      assert before[i] in before;
    }
  }

  lemma {:induction false} MergeKeepsSeparate(cs: seq<Check>, hs: seq<string>)
    requires NoDuplicates(hs) && DistinctIds(cs)
    ensures SeparateLive(MergeHeaders(cs, hs))
  {
    if hs != [] {
      var n := |hs| - 1;
      var before, h := MergeHeaders(cs, hs[..n]), hs[n];
      MergeKeepsSeparate(cs, hs[..n]);
      PendingGroupsKept(cs, hs[..n], h);
      IdsKept(cs, hs[..n]);
      var g := Group(cs, h);
      if ShouldMerge(g) {
        forall l | l in before && l.id == g[0].id && l.kind.List? ensures Retire(l, h).kind.Invalid? {
          HeadIdUnique(cs, before, h, l);
        }
        RetireSeparate(before, h, Merged(g));
      }
    }
  }

  lemma {:induction false} ValidSeparate(ls: seq<Check>)
    requires SeparateLive(ls)
    ensures Separate(Valid(ls))
  {
    if ls != [] {
      var n := |ls| - 1;
      ValidSeparate(ls[..n]);
      ValidMembers(ls[..n]);
      var vs := Valid(ls[..n]);
      if !ls[n].kind.Invalid? {
        forall i | 0 <= i < |vs| ensures Apart(vs[i], ls[n]) {
          assert vs[i] in vs;
          var j :| 0 <= j < n && ls[..n][j] == vs[i];
        }
      }
    }
  }

  lemma SeparateUnique(cs: seq<Check>, c: Check, d: Check)
    requires Separate(cs) && c in cs && d in cs
    ensures c != d ==> Apart(c, d)
  {
    var i :| 0 <= i < |cs| && cs[i] == c;
    var j :| 0 <= j < |cs| && cs[j] == d;
    assert i < j || j < i || i == j;
  }

  /** A list check that shares its id with another one is a merged check, and the other one headed its group. */
  lemma SharedId(cs: seq<Check>, hs: seq<string>, c: Check, d: Check) returns (h: string)
    requires NoDuplicates(hs) && DistinctIds(cs)
    requires c in MergeSameHeaders(cs, hs) && d in MergeSameHeaders(cs, hs)
    requires c.id == d.id && c.kind.List? && !d.kind.List?
    ensures h in hs && ShouldMerge(Group(cs, h)) && c == Merged(Group(cs, h)) && d == Group(cs, h)[0]
    ensures d.header == h && (d.kind.Range? || d.kind.Monitor?)
  {
    MergeSameHeadersMembers(cs, hs, c);
    MergeSameHeadersMembers(cs, hs, d);
    assert d in cs && !Absorbed(cs, hs, d);
    if c in cs {
      DistinctUnique(cs, c, d);
    }
    assert IsMerged(cs, hs, c);
    h :| h in hs && ShouldMerge(Group(cs, h)) && c == Merged(Group(cs, h));
    HeaderOfMerged(cs, h);
    DistinctUnique(cs, d, Group(cs, h)[0]);
  }

  /** Ids stay distinct through the header pass exactly when no merged group is headed by a range or monitor check. */
  lemma DistinctIdsExact(cs: seq<Check>, hs: seq<string>)
    requires NoDuplicates(hs) && DistinctIds(cs)
    ensures DistinctIds(MergeSameHeaders(cs, hs)) <==> HeadsRetired(cs, hs)
  {
    var once := MergeSameHeaders(cs, hs);
    if HeadsRetired(cs, hs) {
      MergeKeepsSeparate(cs, hs);
      ValidSeparate(MergeHeaders(cs, hs));
      forall i, j | 0 <= i < j < |once| ensures once[i].id != once[j].id {
        if once[i].id == once[j].id {
          assert Apart(once[i], once[j]);
          var c, d := if once[i].kind.List? then once[i] else once[j], if once[i].kind.List? then once[j] else once[i];
          var h := SharedId(cs, hs, c, d);
        }
      }
    } else {
      var h :| h in hs && ShouldMerge(Group(cs, h)) && (Group(cs, h)[0].kind.Range? || Group(cs, h)[0].kind.Monitor?);
      var c, d := Group(cs, h)[0], Merged(Group(cs, h));
      HeadAndMerged(cs, hs, h);
      if DistinctIds(once) {
        DistinctUnique(once, c, d);
        assert false;
      }
    }
  }

  /** A range or monitor check that heads a merged group stays beside the merged check. */
  lemma HeadAndMerged(cs: seq<Check>, hs: seq<string>, h: string)
    requires NoDuplicates(hs) && h in hs && ShouldMerge(Group(cs, h))
    requires Group(cs, h)[0].kind.Range? || Group(cs, h)[0].kind.Monitor?
    ensures Group(cs, h)[0] in MergeSameHeaders(cs, hs) && Merged(Group(cs, h)) in MergeSameHeaders(cs, hs)
    ensures Group(cs, h)[0].header == h
  {
    var c, d := Group(cs, h)[0], Merged(Group(cs, h));
    HeaderOfMerged(cs, h);
    assert IsMerged(cs, hs, d);
    MergeSameHeadersMembers(cs, hs, c);
    MergeSameHeadersMembers(cs, hs, d);
  }

  // ----- the monitor pass and the sort -----

  lemma {:induction false} MonGroupHead(cs: seq<Check>, m: string, i: nat)
    requires i < |cs| && Reads(cs[i], m) && MonGroup(cs[..i], m) == []
    ensures MonGroup(cs, m) != [] && MonGroup(cs, m)[0] == cs[i]
  {
    var n := |cs| - 1;
    if i < n {
      assert cs[..n][..i] == cs[..i];
      MonGroupHead(cs[..n], m, i);
    }
  }

  lemma FoldSeparate(cs: seq<Check>, m: string, merged: Check)
    requires MonGroup(cs, m) != [] && merged.id == MonGroup(cs, m)[0].id && Reads(merged, m) && SeparateLive(cs)
    ensures SeparateLive(Fold(cs, m, merged))
  {
    var fs := Fold(cs, m, merged);
    forall i | 0 <= i < |cs|
      ensures fs[i].id == cs[i].id
      ensures !fs[i].kind.Invalid? ==> !cs[i].kind.Invalid? && fs[i].kind.List? == cs[i].kind.List?
    {
      if Reads(cs[i], m) && MonGroup(cs[..i], m) == [] {
        MonGroupHead(cs, m, i);
      }
    }
  }

  lemma {:induction false} FoldKeepsSeparate(cs: seq<Check>, ms: seq<string>)
    requires SeparateLive(cs)
    ensures SeparateLive(FoldMonitors(cs, ms))
  {
    if ms != [] {
      var n := |ms| - 1;
      var before, m := FoldMonitors(cs, ms[..n]), ms[n];
      FoldKeepsSeparate(cs, ms[..n]);
      var g := MonGroup(before, m);
      if |g| > 1 {
        MonGroupMembers(before, m);
        assert g[0] in g;
        MergedMonitorReads(g, m);
        FoldSeparate(before, m, MergedMonitor(g));
      }
    }
  }

  lemma {:induction false} SeparateCount(cs: seq<Check>, x: Check)
    requires Separate(cs)
    ensures multiset(cs)[x] <= 1
  {
    if cs != [] {
      var n := |cs| - 1;
      SeparateCount(cs[..n], x);
      assert cs == cs[..n] + [cs[n]];
      if x == cs[n] {
        assert x !in cs[..n];
      }
    }
  }

  lemma PermutationSeparate(cs: seq<Check>, ds: seq<Check>)
    requires multiset(cs) == multiset(ds) && Separate(cs)
    ensures Separate(ds)
  {
    forall i, j | 0 <= i < j < |ds| ensures Apart(ds[i], ds[j]) {
      assert ds[i] in multiset(ds) && ds[j] in multiset(ds);
      SeparateCount(cs, ds[i]);
      assert ds == ds[..i] + [ds[i]] + ds[i + 1..j] + [ds[j]] + ds[j + 1..];
      assert ds[i] != ds[j];
      SeparateUnique(cs, ds[i], ds[j]);
    }
  }

  /** Whatever the policy, after both passes and in any order, two checks with one id are a list check and another one. */
  lemma OrderedSeparate(cs: seq<Check>, hs: seq<string>, ms: seq<string>, ds: seq<Check>)
    requires NoDuplicates(hs) && DistinctIds(cs) && multiset(ds) == multiset(MergeMonitors(MergeSameHeaders(cs, hs), ms))
    ensures Separate(ds)
  {
    MergeKeepsSeparate(cs, hs);
    ValidSeparate(MergeHeaders(cs, hs));
    FoldKeepsSeparate(MergeSameHeaders(cs, hs), ms);
    ValidSeparate(FoldMonitors(MergeSameHeaders(cs, hs), ms));
    PermutationSeparate(MergeMonitors(MergeSameHeaders(cs, hs), ms), ds);
  }

  // ----- a second run -----

  lemma ValidSnoc(q: seq<Check>, x: Check)
    ensures Valid(q + [x]) == Valid(q) + if x.kind.Invalid? then [] else [x]
    ensures CountMergeable(q + [x]) == CountMergeable(q) + if Mergeable(x) then 1 else 0
  {
    assert (q + [x])[..|q|] == q;
  }

  lemma GroupSnoc(q: seq<Check>, x: Check, h: string)
    ensures Group(q + [x], h) == Group(q, h) + if x.header == h then [x] else []
  {
    assert (q + [x])[..|q|] == q;
  }

  lemma {:induction false} GroupOfValid(cs: seq<Check>, h: string)
    ensures Group(Valid(cs), h) == Valid(Group(cs, h))
  {
    if cs != [] {
      var n := |cs| - 1;
      GroupOfValid(cs[..n], h);
      ValidSnoc(Group(cs[..n], h), cs[n]);
      GroupSnoc(Valid(cs[..n]), cs[n], h);
      assert Group(cs[..n], h) + [] == Group(cs[..n], h) && Valid(cs[..n]) + [] == Valid(cs[..n]);
    }
  }

  lemma {:induction false} NoneMergeable(g: seq<Check>)
    requires forall c :: c in g ==> !Mergeable(c)
    ensures CountMergeable(g) == 0
  {
    if g != [] {
      assert g[|g| - 1] in g && forall c :: c in g[..|g| - 1] ==> c in g;
      NoneMergeable(g[..|g| - 1]);
    }
  }

  lemma CountAfterRetire(cs: seq<Check>, h: string)
    ensures CountMergeable(Valid(Group(RetireAll(cs, h), h))) == 0
  {
    var rs := RetireAll(cs, h);
    GroupMembers(rs, h);
    ValidMembers(Group(rs, h));
    forall c | c in Valid(Group(rs, h)) ensures !Mergeable(c) {
      var i :| 0 <= i < |rs| && rs[i] == c;
    }
    NoneMergeable(Valid(Group(rs, h)));
  }

  lemma MergedGroupAfterRun(before: seq<Check>, h: string)
    requires ShouldMerge(Group(before, h))
    ensures CountMergeable(Valid(Group(MergeHeader(before, h), h))) == 1
  {
    var g, rs := Group(before, h), RetireAll(before, h);
    HeaderOfMerged(before, h);
    GroupSnoc(rs, Merged(g), h);
    CountAfterRetire(before, h);
    ValidSnoc(Group(rs, h), Merged(g));
    ValidSnoc(Valid(Group(rs, h)), Merged(g));
  }

  /** What the first run leaves of a header's group: unmergeable when merged, otherwise its valid checks. */
  lemma {:induction false} GroupAfterRun(cs: seq<Check>, hs: seq<string>, h: string)
    requires NoDuplicates(hs)
    ensures var g, r := Group(cs, h), Group(MergeSameHeaders(cs, hs), h);
            if h in hs && ShouldMerge(g) then CountMergeable(r) == 1 else r == Valid(g)
  {
    GroupOfValid(MergeHeaders(cs, hs), h);
    if hs != [] {
      var n := |hs| - 1;
      var before, k := MergeHeaders(cs, hs[..n]), hs[n];
      assert h in hs <==> h in hs[..n] || h == k;
      if h == k {
        PendingGroupsKept(cs, hs[..n], h);
        if ShouldMerge(Group(cs, h)) {
          MergedGroupAfterRun(before, h);
        }
      } else {
        OtherGroupsKept(before, k, h);
        GroupAfterRun(cs, hs[..n], h);
        GroupOfValid(before, h);
      }
    }
  }

  lemma {:induction false} NothingToMerge(cs: seq<Check>, hs: seq<string>)
    requires forall h :: h in hs ==> !ShouldMerge(Group(cs, h))
    ensures MergeHeaders(cs, hs) == cs
  {
    if hs != [] {
      var n := |hs| - 1;
      NothingToMerge(cs, hs[..n]);
      assert hs[n] in hs;
    }
  }

  lemma {:induction false} ValidIdempotent(cs: seq<Check>)
    requires forall c :: c in cs ==> !c.kind.Invalid?
    ensures Valid(cs) == cs
  {
    if cs != [] {
      var init, x := cs[..|cs| - 1], cs[|cs| - 1];
      assert init + [x] == cs;
      assert forall c :: c in init ==> c in cs;
      ValidIdempotent(init);
      ValidSnoc(init, x);
    }
  }

  /** A merge that only a check with an unsupported operator prevents. */
  ghost predicate BlockedByInvalid(cs: seq<Check>, h: string) {
    !ShouldMerge(Group(cs, h)) && ShouldMerge(Valid(Group(cs, h)))
  }

  /** A second run changes nothing exactly when no merge was blocked by a check that the first run erased. */
  lemma SecondRunExact(cs: seq<Check>, hs: seq<string>)
    requires NoDuplicates(hs)
    ensures var once := MergeSameHeaders(cs, hs);
            MergeSameHeaders(once, hs) == once <==> forall h :: h in hs ==> !BlockedByInvalid(cs, h)
  {
    var once := MergeSameHeaders(cs, hs);
    ValidMembers(MergeHeaders(cs, hs));
    if forall h :: h in hs ==> !BlockedByInvalid(cs, h) {
      forall h | h in hs ensures !ShouldMerge(Group(once, h)) {
        GroupAfterRun(cs, hs, h);
      }
      NothingToMerge(once, hs);
      ValidIdempotent(once);
    } else {
      var h :| h in hs && BlockedByInvalid(cs, h);
      GroupAfterRun(cs, hs, h);
      GroupAfterRun(once, hs, h);
      assert CountMergeable(Group(once, h)) > 1;
    }
  }
}
