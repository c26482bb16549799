/**
 The orders the sort may leave. Checks of one priority can come in any order, which decides the
 rounds they share, and with that whether two tables get the same name.
 */
module SortOrders {
  import opened Policy
  import opened Decision
  import opened HeaderMerge
  import opened Optimizer
  import opened Identity
  import opened Allocation
  import opened Emission
  import opened Compiler
  import opened Correctness
  import opened Naming
  import opened Sequences

  lemma {:induction false} SortedOrder(cs: seq<Check>) returns (ds: seq<Check>)
    ensures SortedByPriority(ds) && multiset(ds) == multiset(cs)
  {
    if cs == [] {
      ds := [];
    } else {
      var n := |cs| - 1;
      var es := SortedOrder(cs[..n]);
      ds := InsertByPriority(es, cs[n]);
      InsertIsPermutation(es, cs[n]);
      InsertKeepsOrder(es, cs[n]);
      assert cs == cs[..n] + [cs[n]];
    }
  }

  /** Every accepted policy has an order of its merged checks that the sort may produce. */
  lemma OrderExists(p: Policy.Program, hs: seq<string>) returns (ds: seq<Check>)
    requires Accepted(p)
    ensures SortedChecks(p, hs, ds)
  {
    ds := SortedOrder(Optimized(Lower(p), hs, Names(p.monitors)));
  }

  // ----- where a priority class lies -----

  /** The number of checks with a priority below `b`. */
  function Below(cs: seq<Check>, b: nat): (n: nat)
    ensures n <= |cs|
  {
    if cs == [] then 0 else Below(cs[..|cs| - 1], b) + if cs[|cs| - 1].priority < b then 1 else 0
  }

  function Keep(cs: seq<Check>, b: nat): seq<Check> {
    if cs == [] then [] else Keep(cs[..|cs| - 1], b) + if cs[|cs| - 1].priority < b then [cs[|cs| - 1]] else []
  }

  lemma {:induction false} CountSnoc(s: seq<Check>, x: Check, c: Check)
    ensures multiset(s + [x])[c] == multiset(s)[c] + if x == c then 1 else 0
  {
  }

  lemma {:induction false} KeepLength(cs: seq<Check>, b: nat)
    ensures |Keep(cs, b)| == Below(cs, b)
  {
    if cs != [] {
      KeepLength(cs[..|cs| - 1], b);
    }
  }

  lemma {:induction false} KeepCount(cs: seq<Check>, b: nat, c: Check)
    ensures multiset(Keep(cs, b))[c] == if c.priority < b then multiset(cs)[c] else 0
  {
    if cs != [] {
      var init, x := cs[..|cs| - 1], cs[|cs| - 1];
      KeepCount(init, b, c);
      assert cs == init + [x];
      CountSnoc(init, x, c);
      if x.priority < b {
        assert Keep(cs, b) == Keep(init, b) + [x];
        CountSnoc(Keep(init, b), x, c);
      } else {
        assert Keep(cs, b) == Keep(init, b);
      }
    }
  }

  /** The count does not depend on the order. */
  lemma {:induction false} BelowOfPermutation(cs: seq<Check>, ds: seq<Check>, b: nat)
    requires multiset(cs) == multiset(ds)
    ensures Below(cs, b) == Below(ds, b)
  {
    var x, y := Keep(cs, b), Keep(ds, b);
    forall c ensures multiset(x)[c] == multiset(y)[c] {
      KeepCount(cs, b, c);
      KeepCount(ds, b, c);
    }
    KeepLength(cs, b);
    KeepLength(ds, b);
    assert multiset(x) == multiset(y);
    assert |multiset(x)| == |x| && |multiset(y)| == |y|;
  }

  /** In a sorted list the checks with a priority below `b` come first. */
  lemma {:induction false} SortedSplit(ds: seq<Check>, b: nat, k: nat)
    requires SortedByPriority(ds) && k < |ds|
    ensures ds[k].priority < b <==> k < Below(ds, b)
  {
    var n := |ds| - 1;
    if k < n {
      SortedSplit(ds[..n], b, k);
    } else if ds[n].priority < b {
      AllBelow(ds[..n], b);
    }
  }

  lemma {:induction false} AllBelow(cs: seq<Check>, b: nat)
    requires forall i :: 0 <= i < |cs| ==> cs[i].priority < b
    ensures Below(cs, b) == |cs|
  {
    if cs != [] {
      AllBelow(cs[..|cs| - 1], b);
    }
  }

  // ----- rounds of neighbours -----

  lemma {:induction false} FlatStep(n: nat)
    ensures Advance(Cursor(n / STAGES, n % STAGES + 1), 1) == Cursor((n + 1) / STAGES, (n + 1) % STAGES + 1)
  {
    if n % STAGES + 1 == STAGES {
      assert n + 1 == STAGES * (n / STAGES + 1);
    } else {
      assert n + 1 == STAGES * (n / STAGES) + (n % STAGES + 1);
    }
  }

  /** Checks of one stage each fill the rounds one after the other. */
  lemma {:induction false} EndFlat(cs: seq<Check>)
    requires forall i :: 0 <= i < |cs| ==> Need(cs[i]) == 1
    ensures End(cs) == if cs == [] then START else Cursor((|cs| - 1) / STAGES, (|cs| - 1) % STAGES + 1)
  {
    if cs != [] {
      var init := cs[..|cs| - 1];
      EndFlat(init);
      if init != [] {
        FlatStep(|init| - 1);
      }
    }
  }

  lemma {:induction false} EndFlatStage(cs: seq<Check>)
    requires forall i :: 0 <= i < |cs| ==> Need(cs[i]) == 1
    ensures End(cs).stage == STAGES - 1 <==> |cs| % STAGES == STAGES - 1
  {
    EndFlat(cs);
  }

  /** Two neighbours of one stage each share a round, unless only one stage of the round is left. */
  lemma Neighbours(ds: seq<Check>, i: nat)
    requires i + 1 < |ds| && Need(ds[i]) == Need(ds[i + 1]) == 1
    ensures Placed(ds)[i].rec == Placed(ds)[i + 1].rec <==> End(ds[..i]).stage != STAGES - 1
  {
    PlacedAt(ds, i);
    PlacedAt(ds, i + 1);
    EndStep(ds, i);
    EndStep(ds, i + 1);
    EndInBounds(ds[..i]);
  }

  // ----- reordering a class -----

  lemma MoveFront(s: seq<Check>, c: Check) returns (r: seq<Check>)
    requires c in s
    ensures |r| == |s| - 1 && multiset([c] + r) == multiset(s)
  {
    var i :| 0 <= i < |s| && s[i] == c;
    r := s[..i] + s[i + 1..];
    assert s == s[..i] + ([c] + s[i + 1..]);
  }

  lemma PermutedMembers(s: seq<Check>, r: seq<Check>, x: Check)
    requires multiset(r) == multiset(s) && x in r
    ensures x in s
  {
    assert x in multiset(r);
  }

  /** Permuting a stretch of equal priorities keeps a list sorted. */
  lemma StretchPermuted(es: seq<Check>, a: nat, b: nat, p: nat, mid: seq<Check>)
    requires SortedByPriority(es) && a <= b <= |es| && multiset(mid) == multiset(es[a..b])
    requires forall i :: a <= i < b ==> es[i].priority == p
    ensures |mid| == b - a && SortedByPriority(es[..a] + mid + es[b..]) && multiset(es[..a] + mid + es[b..]) == multiset(es)
  {
    assert |multiset(mid)| == |mid| && |multiset(es[a..b])| == b - a;
    forall i | 0 <= i < |mid| ensures mid[i].priority == p {
      assert mid[i] in mid;
      PermutedMembers(es[a..b], mid, mid[i]);
    }
    assert es == es[..a] + es[a..b] + es[b..];
    StretchSorted(es, a, b, p, mid);
  }

  lemma StretchSorted(es: seq<Check>, a: nat, b: nat, p: nat, mid: seq<Check>)
    requires SortedByPriority(es) && a <= b <= |es| && |mid| == b - a
    requires (forall i :: a <= i < b ==> es[i].priority == p) && forall i :: 0 <= i < |mid| ==> mid[i].priority == p
    ensures SortedByPriority(es[..a] + mid + es[b..])
  {
    var ds := es[..a] + mid + es[b..];
    forall i | 0 <= i < |ds| ensures ds[i].priority == es[i].priority {
    }
  }

  /** The checks from which two of priority `p` can be placed next to each other in one round. */
  predicate CanMeet(cs: seq<Check>, p: nat) {
    Below(cs, p + 1) >= Below(cs, p) + 3 || Below(cs, p) % STAGES != STAGES - 1
  }

  lemma BothFront(mid: seq<Check>, c: Check, d: Check) returns (y: seq<Check>)
    requires c in mid && d in mid && c != d
    ensures |y| == |mid| - 2 && multiset([c] + ([d] + y)) == multiset(mid)
  {
    var x := MoveFront(mid, c);
    PermutedMembers([c] + x, mid, d);
    y := MoveFront(x, d);
  }

  lemma RotateThree(c: Check, d: Check, e: Check, z: seq<Check>)
    ensures multiset([e] + ([c] + ([d] + z))) == multiset([c] + ([d] + ([e] + z)))
  {
  }

  /** The stretch of a class with `c` and `d` in front, or right behind its first check. */
  lemma MeetingStretch(mid: seq<Check>, c: Check, d: Check, late: bool) returns (r: seq<Check>)
    requires c in mid && d in mid && c != d && (late ==> |mid| >= 3)
    ensures multiset(r) == multiset(mid) && |r| == |mid|
    ensures var i := if late then 1 else 0; i + 1 < |r| && r[i] == c && r[i + 1] == d
  {
    var y := BothFront(mid, c, d);
    if late {
      assert y == [y[0]] + y[1..];
      RotateThree(c, d, y[0], y[1..]);
      r := [y[0]] + ([c] + ([d] + y[1..]));
    } else {
      r := [c] + ([d] + y);
    }
  }

  /** After a check that starts in the last stage of a round, or in the next round, more than one stage is left or none. */
  lemma AfterLast(cs: seq<Check>, e: Check)
    requires End(cs).stage == STAGES - 1
    ensures End(cs + [e]).stage != STAGES - 1
  {
    assert (cs + [e])[..|cs|] == cs;
  }

  lemma {:induction false} StretchAt(es: seq<Check>, a: nat, b: nat, r: seq<Check>, i: nat)
    requires a <= b <= |es| && i < |r|
    ensures var ds := es[..a] + r + es[b..];
            a + i < |ds| && ds[a + i] == r[i] && ds[..a] == es[..a] && ds[..a + 1] == es[..a] + [r[0]]
  {
  }

  /** A sorted list with a class rearranged so that two of its checks share a round. */
  lemma {:induction false} MeetingPlaced(es: seq<Check>, a: nat, b: nat, r: seq<Check>, i: nat)
    requires a <= b <= |es| && (forall k :: 0 <= k < a ==> Need(es[k]) == 1)
    requires i == (if a % STAGES == STAGES - 1 then 1 else 0) && i + 1 < |r| && Need(r[i]) == Need(r[i + 1]) == 1
    ensures var ds := es[..a] + r + es[b..];
            a + i + 1 < |ds| && ds[a + i] == r[i] && ds[a + i + 1] == r[i + 1] && Placed(ds)[a + i].rec == Placed(ds)[a + i + 1].rec
  {
    var ds := es[..a] + r + es[b..];
    EndFlatStage(es[..a]);
    StretchAt(es, a, b, r, i);
    StretchAt(es, a, b, r, i + 1);
    if i == 1 {
      AfterLast(es[..a], r[0]);
    }
    Neighbours(ds, a + i);
  }

  lemma {:induction false} MeetingSorted(es: seq<Check>, p: nat, c: Check, d: Check) returns (ds: seq<Check>, i: nat)
    requires SortedByPriority(es) && forall k :: 0 <= k < Below(es, p) ==> Need(es[k]) == 1
    requires Below(es, p) <= Below(es, p + 1) <= |es| && CanMeet(es, p) && Need(c) == Need(d) == 1 && c != d
    requires c in es[Below(es, p)..Below(es, p + 1)] && d in es[Below(es, p)..Below(es, p + 1)]
    ensures SortedByPriority(ds) && multiset(ds) == multiset(es)
    ensures i + 1 < |ds| && ds[i] == c && ds[i + 1] == d && Placed(ds)[i].rec == Placed(ds)[i + 1].rec
  {
    var a, b := Below(es, p), Below(es, p + 1);
    var k := if a % STAGES == STAGES - 1 then 1 else 0;
    ClassBounds(es, p);
    var r := MeetingStretch(es[a..b], c, d, k == 1);
    StretchPermuted(es, a, b, p, r);
    MeetingPlaced(es, a, b, r, k);
    ds, i := es[..a] + r + es[b..], a + k;
  }

  lemma MeetingOrder(os: seq<Check>, p: nat, c: Check, d: Check) returns (ds: seq<Check>, i: nat)
    requires c in os && d in os && c != d && c.priority == d.priority == p && Need(c) == Need(d) == 1 && CanMeet(os, p)
    requires forall x :: x in os && x.priority < p ==> Need(x) == 1
    ensures SortedByPriority(ds) && multiset(ds) == multiset(os)
    ensures i + 1 < |ds| && ds[i] == c && ds[i + 1] == d && Placed(ds)[i].rec == Placed(ds)[i + 1].rec
  {
    var es := SortedOrder(os);
    BelowOfPermutation(es, os, p);
    BelowOfPermutation(es, os, p + 1);
    InClass(es, os, p, c);
    InClass(es, os, p, d);
    LowPart(es, os, p);
    ds, i := MeetingSorted(es, p, c, d);
  }

  lemma ClassBounds(es: seq<Check>, p: nat)
    requires SortedByPriority(es)
    ensures Below(es, p) <= Below(es, p + 1) && forall i :: Below(es, p) <= i < Below(es, p + 1) ==> es[i].priority == p
  {
    BelowGrows(es, p);
    forall i | Below(es, p) <= i < Below(es, p + 1) ensures es[i].priority == p {
      SortedSplit(es, p, i);
      SortedSplit(es, p + 1, i);
    }
  }

  lemma {:induction false} BelowGrows(cs: seq<Check>, p: nat)
    ensures Below(cs, p) <= Below(cs, p + 1)
  {
    if cs != [] {
      BelowGrows(cs[..|cs| - 1], p);
    }
  }

  lemma {:induction false} InClass(es: seq<Check>, os: seq<Check>, p: nat, c: Check)
    requires SortedByPriority(es) && multiset(es) == multiset(os) && c in os && c.priority == p
    ensures Below(es, p) <= Below(es, p + 1) <= |es| && c in es[Below(es, p)..Below(es, p + 1)]
  {
    BelowGrows(es, p);
    PermutedMembers(es, os, c);
    var k :| 0 <= k < |es| && es[k] == c;
    SortedSplit(es, p, k);
    SortedSplit(es, p + 1, k);
    assert es[Below(es, p)..Below(es, p + 1)][k - Below(es, p)] == c;
  }

  /** The checks before a class need one stage each. */
  lemma LowPart(es: seq<Check>, os: seq<Check>, p: nat)
    requires SortedByPriority(es) && multiset(es) == multiset(os) && forall x :: x in os && x.priority < p ==> Need(x) == 1
    ensures forall i :: 0 <= i < Below(es, p) ==> Need(es[i]) == 1
  {
    forall i | 0 <= i < Below(es, p) ensures Need(es[i]) == 1 {
      SortedSplit(es, p, i);
      assert es[i] in es;
      PermutedMembers(os, es, es[i]);
    }
  }

  /** The only two checks of a class that starts at the last stage of a round are in different rounds. */
  lemma {:induction false} ApartInPair(ds: seq<Check>, i: nat)
    requires i + 1 < |ds| && Need(ds[i]) == Need(ds[i + 1]) == 1 && i % STAGES == STAGES - 1
    requires forall k :: 0 <= k < i ==> Need(ds[k]) == 1
    ensures Placed(ds)[i].rec != Placed(ds)[i + 1].rec
  {
    EndFlatStage(ds[..i]);
    Neighbours(ds, i);
  }

  /** Conversely, two checks of a class that share a round leave room for it. */
  lemma {:induction false} MeetingNeedsRoom(os: seq<Check>, ds: seq<Check>, p: nat, i: nat, j: nat)
    requires SortedByPriority(ds) && multiset(ds) == multiset(os) && forall x :: x in os && x.priority < p ==> Need(x) == 1
    requires i < |ds| && j < |ds| && i != j && ds[i].priority == ds[j].priority == p && Need(ds[i]) == Need(ds[j]) == 1
    requires Placed(ds)[i].rec == Placed(ds)[j].rec
    ensures CanMeet(os, p)
  {
    var a := Below(os, p);
    BelowOfPermutation(ds, os, p);
    BelowOfPermutation(ds, os, p + 1);
    SortedSplit(ds, p, i);
    SortedSplit(ds, p, j);
    SortedSplit(ds, p + 1, i);
    SortedSplit(ds, p + 1, j);
    if !CanMeet(os, p) {
      assert (i == a && j == a + 1) || (j == a && i == a + 1);
      LowPart(ds, os, p);
      ApartInPair(ds, a);
    }
  }

  // ----- when some order makes names clash -----

  /** A range check heads the merged group of `h`, and the two can be placed in one round. */
  ghost predicate MeetingHead(p: Policy.Program, hs: seq<string>, h: string)
    requires Accepted(p)
  {
    && h in hs && ShouldMerge(Group(Lower(p), h)) && Group(Lower(p), h)[0].kind.Range?
    && CanMeet(Optimized(Lower(p), hs, Names(p.monitors)), Group(Lower(p), h)[0].priority)
  }

  lemma LowNeed(p: Policy.Program, hs: seq<string>, x: Check, b: nat)
    requires Accepted(p) && NoDuplicates(hs) && x in Optimized(Lower(p), hs, Names(p.monitors)) && x.priority < b <= DROP
    ensures Need(x) == 1
  {
    LowerReady(p, hs);
    OptimizedWellFormed(Lower(p), hs, Names(p.monitors));
  }

  lemma HeadFacts(p: Policy.Program, hs: seq<string>, h: string)
    requires Accepted(p) && NoDuplicates(hs) && h in hs && ShouldMerge(Group(Lower(p), h)) && Group(Lower(p), h)[0].kind.Range?
    ensures var os, c, d := Optimized(Lower(p), hs, Names(p.monitors)), Merged(Group(Lower(p), h)), Group(Lower(p), h)[0];
            c in os && d in os && c != d && c.priority == d.priority <= DROP && d.header == h && c.id == d.id
  {
    var cs, ms := Lower(p), Names(p.monitors);
    LowerReady(p, hs);
    HeadAndMerged(cs, hs, h);
    OptimizedPlain(cs, hs, ms, Merged(Group(cs, h)));
    OptimizedPlain(cs, hs, ms, Group(cs, h)[0]);
    HeaderOfMerged(cs, h);
    LowerPriority(p, Group(cs, h)[0]);
  }

  lemma {:induction false} LowerPriority(p: Policy.Program, c: Check)
    requires Accepted(p) && c in Lower(p)
    ensures WellFormed(c) && c.priority <= DROP
  {
    var i :| 0 <= i < |p.stmts| && Lower(p)[i] == c;
    LowerStmtMeaning(p, p.stmts[i], Env(h => 0, m => true));
  }

  lemma {:induction false} HeadClashes(p: Policy.Program, hs: seq<string>, h: string) returns (ds: seq<Check>)
    requires Accepted(p) && NoDuplicates(hs) && MeetingHead(p, hs, h)
    ensures SortedChecks(p, hs, ds) && !DistinctNames(Final(ds))
  {
    var cs, os := Lower(p), Optimized(Lower(p), hs, Names(p.monitors));
    var c, d := Merged(Group(cs, h)), Group(cs, h)[0];
    HeadFacts(p, hs, h);
    forall x | x in os && x.priority < d.priority ensures Need(x) == 1 {
      LowNeed(p, hs, x, d.priority);
    }
    var i;
    ds, i := MeetingOrder(os, d.priority, c, d);
    GeneratedNamesExact(p, hs, ds);
    assert Clash(cs, hs, ds, h, i, i + 1);
  }

  /** The other check of a clash is the range check that headed the group. */
  lemma {:induction false} ClashHead(p: Policy.Program, hs: seq<string>, ds: seq<Check>, h: string, i: nat, j: nat)
    requires SortedChecks(p, hs, ds) && NoDuplicates(hs) && Clash(Lower(p), hs, ds, h, i, j) && Group(Lower(p), h)[0].kind.Range?
    ensures ds[j] == Group(Lower(p), h)[0]
  {
    var cs := Lower(p);
    LowerReady(p, hs);
    assert ds[j] in multiset(ds);
    OptimizedPlain(cs, hs, Names(p.monitors), ds[j]);
    MergeSameHeadersMembers(cs, hs, ds[j]);
    HeaderOfMerged(cs, h);
    DistinctUnique(cs, ds[j], Group(cs, h)[0]);
  }

  lemma {:induction false} ClashMeets(p: Policy.Program, hs: seq<string>, ds: seq<Check>, h: string, i: nat, j: nat)
    requires SortedChecks(p, hs, ds) && NoDuplicates(hs) && Clash(Lower(p), hs, ds, h, i, j) && Group(Lower(p), h)[0].kind.Range?
    ensures MeetingHead(p, hs, h)
  {
    var os, c, d := Optimized(Lower(p), hs, Names(p.monitors)), Merged(Group(Lower(p), h)), Group(Lower(p), h)[0];
    HeadFacts(p, hs, h);
    ClashHead(p, hs, ds, h, i, j);
    assert ds[i] == c && ds[j] == d && Need(c) == Need(d) == 1 && c.priority == d.priority;
    ClassMeets(p, hs, ds, d.priority, i, j);
  }

  lemma {:induction false} ClassMeets(p: Policy.Program, hs: seq<string>, ds: seq<Check>, b: nat, i: nat, j: nat)
    requires SortedChecks(p, hs, ds) && NoDuplicates(hs) && b <= DROP && i < |ds| && j < |ds| && i != j
    requires ds[i].priority == ds[j].priority == b && Need(ds[i]) == Need(ds[j]) == 1 && Placed(ds)[i].rec == Placed(ds)[j].rec
    ensures CanMeet(Optimized(Lower(p), hs, Names(p.monitors)), b)
  {
    var os := Optimized(Lower(p), hs, Names(p.monitors));
    forall x | x in os && x.priority < b ensures Need(x) == 1 {
      LowNeed(p, hs, x, b);
    }
    MeetingNeedsRoom(os, ds, b, i, j);
  }

  /**
   For a policy whose monitors are not named like headers, some order the sort may leave makes two tables share a
   name exactly when a range check heads a merged group and its priority class has three checks, or does not start
   at the last stage of a round.
   */
  lemma {:induction false} SomeOrderClashes(p: Policy.Program, hs: seq<string>)
    requires Accepted(p) && NoDuplicates(hs) && forall h :: h in hs ==> h !in Names(p.monitors)
    ensures (exists ds :: SortedChecks(p, hs, ds) && !DistinctNames(Final(ds))) <==> exists h :: MeetingHead(p, hs, h)
  {
    if h :| MeetingHead(p, hs, h) {
      var ds := HeadClashes(p, hs, h);
    }
    if ds :| SortedChecks(p, hs, ds) && !DistinctNames(Final(ds)) {
      GeneratedNamesExact(p, hs, ds);
      var h, i: nat, j: nat :| Clash(Lower(p), hs, ds, h, i, j);
      ClashKinds(p, hs, ds, h, i, j);
      ClashMeets(p, hs, ds, h, i, j);
    }
  }
}
