/**
 `merge_same_headers`: all exact and list checks on one header become a single list check when
 every check on that header has the same priority.
 */
module HeaderMerge {
  import opened Policy
  import opened Sequences

  predicate Mergeable(c: Check) {
    c.kind.Exact? || c.kind.List?
  }

  /** The positions of the checks on header `h`, in order. */
  function GroupAt(cs: seq<Check>, h: string): seq<nat> {
    if cs == [] then []
    else
      var n := |cs| - 1;
      GroupAt(cs[..n], h) + if cs[n].header == h then [n] else []
  }

  /** The checks on header `h`, in order. */
  function Group(cs: seq<Check>, h: string): seq<Check> {
    if cs == [] then []
    else
      var n := |cs| - 1;
      Group(cs[..n], h) + if cs[n].header == h then [cs[n]] else []
  }

  function Values(c: Check): seq<nat> {
    if c.kind.Exact? then [c.lo] else if c.kind.List? then c.list else []
  }

  /** The values of all mergeable checks, in order. */
  function MergedList(g: seq<Check>): seq<nat> {
    if g == [] then [] else MergedList(g[..|g| - 1]) + Values(g[|g| - 1])
  }

  function CountMergeable(g: seq<Check>): nat {
    if g == [] then 0 else CountMergeable(g[..|g| - 1]) + if Mergeable(g[|g| - 1]) then 1 else 0
  }

  predicate ShouldMerge(g: seq<Check>) {
    |g| > 1 && (forall i :: 0 <= i < |g| ==> g[i].priority == g[0].priority) && CountMergeable(g) > 1
  }

  /** The check that replaces the mergeable ones; action, priority and id come from the first of the whole group. */
  function Merged(g: seq<Check>): Check
    requires g != []
  {
    var items := MergedList(g);
    BLANK.(kind := List, header := g[0].header, ifAct := g[0].ifAct, elseAct := g[0].elseAct,
           priority := g[0].ifAct, list := items, tableSize := |items|, id := g[0].id)
  }

  function Retire(c: Check, h: string): Check {
    if c.header == h && Mergeable(c) then c.(kind := Invalid) else c
  }

  function RetireAll(cs: seq<Check>, h: string): seq<Check> {
    seq(|cs|, i requires 0 <= i < |cs| => Retire(cs[i], h))
  }

  function MergeHeader(cs: seq<Check>, h: string): seq<Check> {
    var g := Group(cs, h);
    if ShouldMerge(g) then RetireAll(cs, h) + [Merged(g)] else cs
  }

  function MergeHeaders(cs: seq<Check>, hs: seq<string>): seq<Check> {
    if hs == [] then cs else MergeHeader(MergeHeaders(cs, hs[..|hs| - 1]), hs[|hs| - 1])
  }

  /** `remove_invalid_checks`. */
  function Valid(cs: seq<Check>): seq<Check> {
    if cs == [] then []
    else Valid(cs[..|cs| - 1]) + if cs[|cs| - 1].kind.Invalid? then [] else [cs[|cs| - 1]]
  }

  function MergeSameHeaders(cs: seq<Check>, hs: seq<string>): seq<Check> {
    Valid(MergeHeaders(cs, hs))
  }

  // ----- groups -----

  lemma {:induction false} GroupMembers(cs: seq<Check>, h: string)
    ensures forall c :: c in Group(cs, h) <==> c in cs && c.header == h
  {
    if cs != [] {
      var n := |cs| - 1;
      GroupMembers(cs[..n], h);
      forall c ensures c in cs <==> c in cs[..n] || c == cs[n] {
        assert cs == cs[..n] + [cs[n]];
      }
    }
  }

  lemma {:induction false} GroupAppend(cs: seq<Check>, ds: seq<Check>, h: string)
    ensures Group(cs + ds, h) == Group(cs, h) + Group(ds, h)
  {
    if ds == [] {
      assert cs + ds == cs;
    } else {
      var n := |ds| - 1;
      assert (cs + ds)[..|cs + ds| - 1] == cs + ds[..n];
      GroupAppend(cs, ds[..n], h);
    }
  }

  lemma {:induction false} RetireOtherGroup(cs: seq<Check>, h: string, k: string)
    requires h != k
    ensures Group(RetireAll(cs, h), k) == Group(cs, k)
  {
    if cs != [] {
      var n := |cs| - 1;
      assert RetireAll(cs, h)[..n] == RetireAll(cs[..n], h);
      RetireOtherGroup(cs[..n], h, k);
    }
  }

  /** Merging one header leaves the group of every other header as it is. */
  lemma OtherGroupsKept(cs: seq<Check>, h: string, k: string)
    requires h != k
    ensures Group(MergeHeader(cs, h), k) == Group(cs, k)
  {
    var g := Group(cs, h);
    if ShouldMerge(g) {
      GroupMembers(cs, h);
      assert g[0] in g;
      RetireOtherGroup(cs, h, k);
      GroupAppend(RetireAll(cs, h), [Merged(g)], k);
      assert Group([Merged(g)], k) == [];
    }
  }

  lemma {:induction false} PendingGroupsKept(cs: seq<Check>, hs: seq<string>, k: string)
    requires k !in hs
    ensures Group(MergeHeaders(cs, hs), k) == Group(cs, k)
  {
    if hs != [] {
      var n := |hs| - 1;
      PendingGroupsKept(cs, hs[..n], k);
      OtherGroupsKept(MergeHeaders(cs, hs[..n]), hs[n], k);
    }
  }

  lemma {:induction false} ValidMembers(cs: seq<Check>)
    ensures forall c :: c in Valid(cs) <==> c in cs && !c.kind.Invalid?
  {
    if cs != [] {
      var n := |cs| - 1;
      ValidMembers(cs[..n]);
      forall c ensures c in cs <==> c in cs[..n] || c == cs[n] {
        assert cs == cs[..n] + [cs[n]];
      }
    }
  }

  lemma {:induction false} MergedListMember(g: seq<Check>, v: nat)
    ensures v in MergedList(g) <==> exists c :: c in g && v in Values(c)
  {
    if g != [] {
      var n := |g| - 1;
      MergedListMember(g[..n], v);
      assert forall c :: c in g <==> c in g[..n] || c == g[n];
    }
  }

  lemma {:induction false} MergedListMembers(g: seq<Check>)
    ensures forall v :: v in MergedList(g) <==> exists c :: c in g && v in Values(c)
  {
    forall v ensures v in MergedList(g) <==> exists c :: c in g && v in Values(c) {
      MergedListMember(g, v);
    }
  }

  // ----- the pass in closed form -----

  /** `c` is absorbed by the merge of its header. */
  ghost predicate Absorbed(cs: seq<Check>, hs: seq<string>, c: Check) {
    c.header in hs && ShouldMerge(Group(cs, c.header)) && Mergeable(c)
  }

  ghost predicate IsMerged(cs: seq<Check>, hs: seq<string>, c: Check) {
    exists h :: h in hs && ShouldMerge(Group(cs, h)) && c == Merged(Group(cs, h))
  }

  lemma HeaderOfMerged(cs: seq<Check>, h: string)
    requires Group(cs, h) != []
    ensures Group(cs, h)[0] in cs && Merged(Group(cs, h)).header == h
  {
    GroupMembers(cs, h);
    assert Group(cs, h)[0] in Group(cs, h);
  }

  lemma {:induction false} MergeHeaderMembers(cs: seq<Check>, h: string, c: Check)
    requires !c.kind.Invalid?
    ensures c in MergeHeader(cs, h) <==>
              || (c in cs && !(ShouldMerge(Group(cs, h)) && c.header == h && Mergeable(c)))
              || (ShouldMerge(Group(cs, h)) && c == Merged(Group(cs, h)))
  {
    if ShouldMerge(Group(cs, h)) {
      var rs := RetireAll(cs, h);
      if c in cs && !(c.header == h && Mergeable(c)) {
        var i :| 0 <= i < |cs| && cs[i] == c;
        assert rs[i] == c;
      }
      assert MergeHeader(cs, h) == rs + [Merged(Group(cs, h))];
      if c in rs {
        var i :| 0 <= i < |rs| && rs[i] == c;
        assert cs[i] == c;
      }
    }
  }

  /** What the folded pass holds: every check that no merge absorbs, and one merged check per merged header. */
  lemma {:induction false} MergeHeadersMembers(cs: seq<Check>, hs: seq<string>, c: Check)
    requires NoDuplicates(hs) && !c.kind.Invalid?
    ensures c in MergeHeaders(cs, hs) <==> (c in cs && !Absorbed(cs, hs, c)) || IsMerged(cs, hs, c)
  {
    if hs != [] {
      var n := |hs| - 1;
      var h, before, init := hs[n], MergeHeaders(cs, hs[..n]), hs[..n];
      MergeHeadersMembers(cs, init, c);
      PendingGroupsKept(cs, init, h);
      MergeHeaderMembers(before, h, c);
      assert forall k :: k in hs <==> k in init || k == h;
      var absorbs := ShouldMerge(Group(cs, h)) && c.header == h && Mergeable(c);
      assert Absorbed(cs, hs, c) <==> Absorbed(cs, init, c) || absorbs;
      if IsMerged(cs, init, c) {
        var k :| k in init && ShouldMerge(Group(cs, k)) && c == Merged(Group(cs, k));
        HeaderOfMerged(cs, k);
        assert k in hs && c.header == k != h;
      }
    }
  }

  lemma MergeSameHeadersMembers(cs: seq<Check>, hs: seq<string>, c: Check)
    requires NoDuplicates(hs)
    ensures c in MergeSameHeaders(cs, hs) <==>
              !c.kind.Invalid? && ((c in cs && !Absorbed(cs, hs, c)) || IsMerged(cs, hs, c))
  {
    ValidMembers(MergeHeaders(cs, hs));
    if !c.kind.Invalid? {
      MergeHeadersMembers(cs, hs, c);
    }
  }

  // ----- the meaning of a merged group -----

  /** The merged check matches exactly the values the mergeable checks of its group match. */
  lemma {:induction false} MergedMatches(cs: seq<Check>, h: string, env: Env)
    requires AllWellFormed(cs) && Group(cs, h) != []
    ensures Fires(Merged(Group(cs, h)), env) <==>
              exists c :: c in cs && c.header == h && Mergeable(c) && Fires(c, env)
  {
    var g := Group(cs, h);
    GroupMembers(cs, h);
    MergedListMembers(g);
    HeaderOfMerged(cs, h);
    var v := env.hdr(h);
    if v in MergedList(g) {
      var c :| c in g && v in Values(c);
      assert c in cs && Mergeable(c) && Fires(c, env);
    }
    if c :| c in cs && c.header == h && Mergeable(c) && Fires(c, env) {
      assert c in g && v in Values(c);
    }
  }

  /** Members of a merged group share the priority of its first check. */
  lemma MergedPriority(cs: seq<Check>, h: string, c: Check)
    requires AllWellFormed(cs) && ShouldMerge(Group(cs, h)) && c in cs && c.header == h
    ensures c.priority == Group(cs, h)[0].priority
    ensures Write(Merged(Group(cs, h))) == if Group(cs, h)[0].kind.Monitor? then NORMAL else c.priority
  {
    GroupMembers(cs, h);
    var g := Group(cs, h);
    var i :| 0 <= i < |g| && g[i] == c;
    assert g[0] in g;
  }

  lemma HeaderPassWellFormed(cs: seq<Check>, hs: seq<string>)
    requires NoDuplicates(hs) && AllWellFormed(cs)
    ensures AllWellFormed(MergeSameHeaders(cs, hs))
  {
    forall c | c in MergeSameHeaders(cs, hs) ensures WellFormed(c) {
      MergeSameHeadersMembers(cs, hs, c);
    }
  }

  /** A group that is merged under the actions of a monitor check. */
  ghost predicate MonitorHeaded(cs: seq<Check>, hs: seq<string>, h: string) {
    h in hs && ShouldMerge(Group(cs, h)) && Group(cs, h)[0].kind.Monitor?
  }

  /** Each check the pass produces stands for a check of the input on the same header that writes at least as much. */
  lemma {:induction false} HeaderPassOrigin(cs: seq<Check>, hs: seq<string>, c: Check, env: Env) returns (o: Check)
    requires NoDuplicates(hs) && AllWellFormed(cs)
    requires c in MergeSameHeaders(cs, hs) && Fires(c, env)
    ensures o in cs && Fires(o, env) && Write(c) <= Write(o) && o.header == c.header
    ensures c.kind.Monitor? ==> o == c
    ensures !c.kind.Monitor? ==> !o.kind.Monitor?
  {
    MergeSameHeadersMembers(cs, hs, c);
    if c in cs {
      o := c;
    } else {
      var h :| h in hs && ShouldMerge(Group(cs, h)) && c == Merged(Group(cs, h));
      HeaderOfMerged(cs, h);
      MergedMatches(cs, h, env);
      o :| o in cs && o.header == h && Mergeable(o) && Fires(o, env);
      MergedPriority(cs, h, o);
    }
  }

  /** Each check outside the monitor-headed groups is still represented after the pass. */
  lemma HeaderPassImage(cs: seq<Check>, hs: seq<string>, c: Check, env: Env) returns (r: Check)
    requires NoDuplicates(hs) && AllWellFormed(cs)
    requires c in cs && Fires(c, env)
    requires Mergeable(c) ==> !MonitorHeaded(cs, hs, c.header)
    ensures r in MergeSameHeaders(cs, hs) && Fires(r, env) && Write(r) == Write(c)
    ensures r.kind.Monitor? <==> c.kind.Monitor?
  {
    if Absorbed(cs, hs, c) {
      r := Merged(Group(cs, c.header));
      MergedMatches(cs, c.header, env);
      MergedPriority(cs, c.header, c);
      assert IsMerged(cs, hs, r);
    } else {
      r := c;
    }
    MergeSameHeadersMembers(cs, hs, r);
  }
}
