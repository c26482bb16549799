/**
 Positions of checks in the vector, as the passes collect them in lists of pointers.
 */
module Positions {
  import opened Policy
  import opened HeaderMerge
  import opened MonitorMerge

  predicate Increasing(at: seq<nat>, bound: nat) {
    (forall k :: 0 <= k < |at| ==> at[k] < bound) && forall j, k :: 0 <= j < k < |at| ==> at[j] < at[k]
  }

  function Pick(cs: seq<Check>, at: seq<nat>): seq<Check>
    requires forall k :: 0 <= k < |at| ==> at[k] < |cs|
  {
    seq(|at|, k requires 0 <= k < |at| => cs[at[k]])
  }

  /** The checks at the given positions become invalid. */
  function RetireAt(cs: seq<Check>, at: seq<nat>): seq<Check> {
    seq(|cs|, k requires 0 <= k < |cs| => if k in at then cs[k].(kind := Invalid) else cs[k])
  }

  lemma RetireAtSnoc(cs: seq<Check>, at: seq<nat>, k: nat)
    requires k < |cs| && k !in at
    ensures RetireAt(cs, at)[k] == cs[k]
    ensures RetireAt(cs, at + [k]) == RetireAt(cs, at)[k := cs[k].(kind := Invalid)]
  {
    assert forall i :: i in at + [k] <==> i in at || i == k;
  }

  lemma IncreasingSnoc(at: seq<nat>, k: nat, bound: nat)
    requires Increasing(at, bound) && k < bound && forall i :: i in at ==> i < k
    ensures Increasing(at + [k], bound)
  {
    assert forall i :: 0 <= i < |at| ==> at[i] in at;
  }

  lemma IncreasingFresh(at: seq<nat>, bound: nat, i: nat)
    requires Increasing(at, bound) && i < |at|
    ensures at[i] !in at[..i] && at[..i + 1] == at[..i] + [at[i]] && Increasing(at[..i], bound)
  {
  }

  lemma {:induction false} GroupAtMembers(cs: seq<Check>, h: string)
    ensures forall i :: i in GroupAt(cs, h) <==> 0 <= i < |cs| && cs[i].header == h
    ensures Increasing(GroupAt(cs, h), |cs|)
  {
    if cs != [] {
      var n := |cs| - 1;
      GroupAtMembers(cs[..n], h);
      IncreasingSnoc(GroupAt(cs[..n], h), n, |cs|);
    }
  }

  lemma {:induction false} GroupAtPick(cs: seq<Check>, h: string)
    ensures Increasing(GroupAt(cs, h), |cs|) && Pick(cs, GroupAt(cs, h)) == Group(cs, h)
  {
    GroupAtMembers(cs, h);
    if cs != [] {
      var n := |cs| - 1;
      GroupAtPick(cs[..n], h);
      assert Pick(cs, GroupAt(cs[..n], h)) == Pick(cs[..n], GroupAt(cs[..n], h));
    }
  }

  /** The positions among `at` whose checks can be merged. */
  function MergeableAt(cs: seq<Check>, at: seq<nat>): (ms: seq<nat>)
    requires forall k :: 0 <= k < |at| ==> at[k] < |cs|
    ensures forall k :: 0 <= k < |ms| ==> ms[k] < |cs|
  {
    if at == [] then []
    else
      var n := |at| - 1;
      MergeableAt(cs, at[..n]) + if Mergeable(cs[at[n]]) then [at[n]] else []
  }

  lemma {:induction false} MergeableAtMembers(cs: seq<Check>, at: seq<nat>)
    requires Increasing(at, |cs|)
    ensures forall i :: i in MergeableAt(cs, at) <==> i in at && Mergeable(cs[i])
    ensures Increasing(MergeableAt(cs, at), |cs|)
  {
    if at != [] {
      var n := |at| - 1;
      MergeableAtMembers(cs, at[..n]);
      assert forall i :: i in at <==> i in at[..n] || i == at[n];
      IncreasingSnoc(MergeableAt(cs, at[..n]), at[n], |cs|);
    }
  }

  lemma MergedListSnoc(g: seq<Check>, c: Check)
    ensures MergedList(g + [c]) == MergedList(g) + Values(c)
    ensures CountMergeable(g + [c]) == CountMergeable(g) + if Mergeable(c) then 1 else 0
  {
    assert (g + [c])[..|g|] == g;
  }

  lemma PickSnoc(cs: seq<Check>, at: seq<nat>, k: nat)
    requires (forall i :: 0 <= i < |at| ==> at[i] < |cs|) && k < |cs|
    ensures MergedList(Pick(cs, at + [k])) == MergedList(Pick(cs, at)) + Values(cs[k])
    ensures CountMergeable(Pick(cs, at + [k])) == CountMergeable(Pick(cs, at)) + if Mergeable(cs[k]) then 1 else 0
  {
    assert Pick(cs, at + [k]) == Pick(cs, at) + [cs[k]];
    MergedListSnoc(Pick(cs, at), cs[k]);
  }

  /** Leaving out the checks that cannot be merged changes neither the count nor the values. */
  lemma {:induction false} MergeableAtPick(cs: seq<Check>, at: seq<nat>)
    requires forall k :: 0 <= k < |at| ==> at[k] < |cs|
    ensures CountMergeable(Pick(cs, at)) == |MergeableAt(cs, at)|
    ensures MergedList(Pick(cs, MergeableAt(cs, at))) == MergedList(Pick(cs, at))
  {
    if at != [] {
      var init, k := at[..|at| - 1], at[|at| - 1];
      MergeableAtPick(cs, init);
      assert at == init + [k];
      PickSnoc(cs, init, k);
      if Mergeable(cs[k]) {
        PickSnoc(cs, MergeableAt(cs, init), k);
      } else {
        assert MergeableAt(cs, at) == MergeableAt(cs, init);
      }
    }
  }

  /** The positions of the readers of monitor `m`, in order. */
  function MonAt(cs: seq<Check>, m: string): seq<nat> {
    if cs == [] then []
    else
      var n := |cs| - 1;
      MonAt(cs[..n], m) + if Reads(cs[n], m) then [n] else []
  }

  lemma {:induction false} MonAtMembers(cs: seq<Check>, m: string)
    ensures forall i :: i in MonAt(cs, m) <==> 0 <= i < |cs| && Reads(cs[i], m)
    ensures Increasing(MonAt(cs, m), |cs|)
  {
    if cs != [] {
      var n := |cs| - 1;
      MonAtMembers(cs[..n], m);
      IncreasingSnoc(MonAt(cs[..n], m), n, |cs|);
    }
  }

  lemma {:induction false} MonAtPick(cs: seq<Check>, m: string)
    ensures Increasing(MonAt(cs, m), |cs|) && Pick(cs, MonAt(cs, m)) == MonGroup(cs, m)
  {
    MonAtMembers(cs, m);
    if cs != [] {
      var n := |cs| - 1;
      MonAtPick(cs[..n], m);
      assert Pick(cs, MonAt(cs[..n], m)) == Pick(cs[..n], MonAt(cs[..n], m));
    }
  }

  lemma {:induction false} MonAtPrefix(cs: seq<Check>, m: string, i: nat)
    requires i < |cs| && Reads(cs[i], m)
    ensures MonAt(cs[..i], m) + [i] <= MonAt(cs, m)
  {
    var n := |cs| - 1;
    if i < n {
      assert cs[..n][..i] == cs[..i];
      MonAtPrefix(cs[..n], m, i);
    }
  }

  /** The first position that reads `m` is the one with no reader before it. */
  lemma FirstReader(cs: seq<Check>, m: string, i: nat)
    requires i < |cs| && Reads(cs[i], m)
    ensures MonAt(cs, m) != [] && (MonGroup(cs[..i], m) == [] <==> i == MonAt(cs, m)[0])
  {
    MonAtPrefix(cs, m, i);
    MonAtPick(cs[..i], m);
    assert |MonGroup(cs[..i], m)| == |MonAt(cs[..i], m)|;
    assert (MonAt(cs[..i], m) + [i])[0] == MonAt(cs, m)[0];
  }

  /** Retiring every later reader and replacing the first one is the fold of a monitor group. */
  lemma {:induction false} FoldIsRetire(cs: seq<Check>, m: string, merged: Check)
    requires MonAt(cs, m) != [] && MonAt(cs, m)[0] < |cs|
    ensures RetireAt(cs, MonAt(cs, m)[1..])[MonAt(cs, m)[0] := merged] == Fold(cs, m, merged)
  {
    var at := MonAt(cs, m);
    MonAtMembers(cs, m);
    forall k | 0 <= k < |cs|
      ensures RetireAt(cs, at[1..])[at[0] := merged][k] == Fold(cs, m, merged)[k]
    {
      assert k in at <==> k == at[0] || k in at[1..];
      if Reads(cs[k], m) {
        FirstReader(cs, m, k);
      }
    }
  }

  /** Retiring the mergeable positions of a group retires its mergeable checks. */
  lemma RetireMergeable(cs: seq<Check>, h: string)
    requires Increasing(GroupAt(cs, h), |cs|)
    ensures RetireAt(cs, MergeableAt(cs, GroupAt(cs, h))) == RetireAll(cs, h)
  {
    GroupAtMembers(cs, h);
    MergeableAtMembers(cs, GroupAt(cs, h));
  }
}
