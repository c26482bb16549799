/**
 `merge_monitors`: the checks that read one monitor are folded into the first of them.
 */
module MonitorMerge {
  import opened Policy
  import opened HeaderMerge

  predicate Reads(c: Check, m: string) {
    c.kind.Monitor? && c.mon == m
  }

  /** The checks that read monitor `m`, in order. */
  function MonGroup(cs: seq<Check>, m: string): seq<Check> {
    if cs == [] then []
    else
      var n := |cs| - 1;
      MonGroup(cs[..n], m) + if Reads(cs[n], m) then [cs[n]] else []
  }

  /** `h_to_val[h]`. */
  function Val(c: Check, h: string): nat {
    if h in c.hToVal then c.hToVal[h] else 0
  }

  /** Appends the extra headers `hs` of `c` to `first`; a value given before is overwritten. */
  function AddHeaders(first: Check, c: Check, hs: seq<string>): Check {
    if hs == [] then first
    else
      var f := AddHeaders(first, c, hs[..|hs| - 1]);
      var h := hs[|hs| - 1];
      f.(extraHeaders := f.extraHeaders + [h], hToVal := f.hToVal[h := Val(c, h)])
  }

  function AddChecks(first: Check, rest: seq<Check>): Check {
    if rest == [] then first
    else
      var c := rest[|rest| - 1];
      AddHeaders(AddChecks(first, rest[..|rest| - 1]), c, c.extraHeaders)
  }

  function MergedMonitor(g: seq<Check>): Check
    requires g != []
  {
    var f := AddChecks(g[0], g[1..]);
    f.(tableSize := |f.extraHeaders|)
  }

  /** The first reader of `m` becomes `merged`, the later ones become invalid. */
  function Fold(cs: seq<Check>, m: string, merged: Check): seq<Check> {
    seq(|cs|, i requires 0 <= i < |cs| =>
      if !Reads(cs[i], m) then cs[i]
      else if MonGroup(cs[..i], m) == [] then merged
      else cs[i].(kind := Invalid))
  }

  function MergeMonitor(cs: seq<Check>, m: string): seq<Check> {
    var g := MonGroup(cs, m);
    if |g| <= 1 then cs else Fold(cs, m, MergedMonitor(g))
  }

  function FoldMonitors(cs: seq<Check>, ms: seq<string>): seq<Check> {
    if ms == [] then cs else MergeMonitor(FoldMonitors(cs, ms[..|ms| - 1]), ms[|ms| - 1])
  }

  function MergeMonitors(cs: seq<Check>, ms: seq<string>): seq<Check> {
    Valid(FoldMonitors(cs, ms))
  }

  // ----- groups -----

  lemma {:induction false} MonGroupMembers(cs: seq<Check>, m: string)
    ensures forall c :: c in MonGroup(cs, m) <==> c in cs && Reads(c, m)
  {
    if cs != [] {
      var n := |cs| - 1;
      MonGroupMembers(cs[..n], m);
      assert forall c :: c in cs <==> c in cs[..n] || c == cs[n] by {
        assert cs == cs[..n] + [cs[n]];
      }
    }
  }

  lemma {:induction false} AddHeadersKeeps(first: Check, c: Check, hs: seq<string>)
    ensures var f := AddHeaders(first, c, hs);
            f == first.(extraHeaders := first.extraHeaders + hs, hToVal := f.hToVal)
    ensures forall h :: h in AddHeaders(first, c, hs).hToVal <==> h in first.hToVal || h in hs
    ensures forall h :: h in AddHeaders(first, c, hs).hToVal ==>
              AddHeaders(first, c, hs).hToVal[h] == if h in hs then Val(c, h) else first.hToVal[h]
  {
    if hs == [] {
      assert first.extraHeaders + hs == first.extraHeaders;
    } else {
      var n := |hs| - 1;
      AddHeadersKeeps(first, c, hs[..n]);
      assert hs == hs[..n] + [hs[n]];
      assert first.extraHeaders + hs[..n] + [hs[n]] == first.extraHeaders + hs;
    }
  }

  lemma {:induction false} AddChecksKeeps(first: Check, rest: seq<Check>)
    ensures var f := AddChecks(first, rest);
            f == first.(extraHeaders := f.extraHeaders, hToVal := f.hToVal)
  {
    if rest != [] {
      var n := |rest| - 1;
      AddChecksKeeps(first, rest[..n]);
      AddHeadersKeeps(AddChecks(first, rest[..n]), rest[n], rest[n].extraHeaders);
    }
  }

  lemma {:induction false} FoldGroup(cs: seq<Check>, m: string, merged: Check, k: string)
    requires Reads(merged, m)
    ensures MonGroup(Fold(cs, m, merged), k) ==
              if k != m then MonGroup(cs, k) else if MonGroup(cs, m) == [] then [] else [merged]
  {
    if cs != [] {
      var n := |cs| - 1;
      var fs := Fold(cs, m, merged);
      assert fs[..n] == Fold(cs[..n], m, merged) by {
        forall i | 0 <= i < n ensures fs[i] == Fold(cs[..n], m, merged)[i] {
          assert cs[..n][..i] == cs[..i];
        }
      }
      FoldGroup(cs[..n], m, merged, k);
    }
  }

  lemma MergedMonitorReads(g: seq<Check>, m: string)
    requires g != [] && Reads(g[0], m)
    ensures Reads(MergedMonitor(g), m)
    ensures var f := MergedMonitor(g); f == g[0].(extraHeaders := f.extraHeaders, hToVal := f.hToVal, tableSize := f.tableSize)
  {
    AddChecksKeeps(g[0], g[1..]);
  }

  lemma {:induction false} MergeMonitorGroup(cs: seq<Check>, m: string, k: string)
    ensures var g := MonGroup(cs, m);
            MonGroup(MergeMonitor(cs, m), k) == if k == m && |g| > 1 then [MergedMonitor(g)] else MonGroup(cs, k)
  {
    var g := MonGroup(cs, m);
    if |g| > 1 {
      MonGroupMembers(cs, m);
      assert g[0] in g;
      MergedMonitorReads(g, m);
      FoldGroup(cs, m, MergedMonitor(g), k);
    }
  }

  /** After the fold a monitor named in `ms` has at most one reader: the merged check. */
  lemma {:induction false} FoldMonitorsGroup(cs: seq<Check>, ms: seq<string>, k: string)
    ensures var g := MonGroup(cs, k);
            MonGroup(FoldMonitors(cs, ms), k) == if k in ms && |g| > 1 then [MergedMonitor(g)] else g
  {
    if ms != [] {
      var n := |ms| - 1;
      FoldMonitorsGroup(cs, ms[..n], k);
      MergeMonitorGroup(FoldMonitors(cs, ms[..n]), ms[n], k);
      assert k in ms <==> k in ms[..n] || k == ms[n];
    }
  }

  lemma {:induction false} FoldOthers(cs: seq<Check>, ms: seq<string>, c: Check)
    requires !c.kind.Invalid? && !c.kind.Monitor?
    ensures c in FoldMonitors(cs, ms) <==> c in cs
  {
    if ms != [] {
      var n := |ms| - 1;
      var before, m := FoldMonitors(cs, ms[..n]), ms[n];
      FoldOthers(cs, ms[..n], c);
      var g := MonGroup(before, m);
      if |g| > 1 {
        MonGroupMembers(before, m);
        assert g[0] in g;
        MergedMonitorReads(g, m);
        var fs := Fold(before, m, MergedMonitor(g));
        if c in before {
          var i :| 0 <= i < |before| && before[i] == c;
          assert fs[i] == c;
        }
        if c in fs {
          var i :| 0 <= i < |fs| && fs[i] == c;
          assert before[i] == c;
        }
      }
    }
  }

  lemma {:induction false} ValidKeepsMonGroup(cs: seq<Check>, m: string)
    ensures MonGroup(Valid(cs), m) == MonGroup(cs, m)
  {
    if cs != [] {
      var n := |cs| - 1;
      ValidKeepsMonGroup(cs[..n], m);
      if !cs[n].kind.Invalid? {
        assert Valid(cs)[..|Valid(cs)| - 1] == Valid(cs[..n]);
      } else {
        assert Valid(cs) == Valid(cs[..n]);
      }
    }
  }

  // ----- the pass in closed form -----

  /** Checks that are not monitor checks pass through; each declared monitor keeps one check, its folded group. */
  lemma MergeMonitorsMembers(cs: seq<Check>, ms: seq<string>, c: Check)
    ensures !c.kind.Monitor? ==> (c in MergeMonitors(cs, ms) <==> c in cs && !c.kind.Invalid?)
    ensures c.kind.Monitor? ==>
              var g := MonGroup(cs, c.mon);
              (c in MergeMonitors(cs, ms) <==> if c.mon in ms && |g| > 1 then c == MergedMonitor(g) else c in g)
  {
    var fs := FoldMonitors(cs, ms);
    ValidMembers(fs);
    if c.kind.Monitor? {
      MonGroupMembers(fs, c.mon);
      FoldMonitorsGroup(cs, ms, c.mon);
    } else if !c.kind.Invalid? {
      FoldOthers(cs, ms, c);
    }
  }

  /** No two checks of the result read the same declared monitor. */
  lemma OneCheckPerMonitor(cs: seq<Check>, ms: seq<string>, m: string)
    requires m in ms
    ensures |MonGroup(MergeMonitors(cs, ms), m)| <= 1
  {
    FoldMonitorsGroup(cs, ms, m);
    ValidKeepsMonGroup(FoldMonitors(cs, ms), m);
  }

  lemma {:induction false} HeaderPassKeepsMonGroup(cs: seq<Check>, hs: seq<string>, m: string)
    ensures MonGroup(MergeHeaders(cs, hs), m) == MonGroup(cs, m)
  {
    if hs != [] {
      var n := |hs| - 1;
      HeaderPassKeepsMonGroup(cs, hs[..n], m);
      var before, h := MergeHeaders(cs, hs[..n]), hs[n];
      var g := Group(before, h);
      if ShouldMerge(g) {
        RetireKeepsMonGroup(before, h, m);
        var rs := RetireAll(before, h);
        assert (rs + [Merged(g)])[..|rs|] == rs;
      }
    }
  }

  lemma {:induction false} RetireKeepsMonGroup(cs: seq<Check>, h: string, m: string)
    ensures MonGroup(RetireAll(cs, h), m) == MonGroup(cs, m)
  {
    if cs != [] {
      var n := |cs| - 1;
      assert RetireAll(cs, h)[..n] == RetireAll(cs[..n], h);
      RetireKeepsMonGroup(cs[..n], h, m);
    }
  }

  // ----- the meaning of a folded group -----

  /** The value that the last check of the group with extra header `h` asks for. */
  function LastVal(g: seq<Check>, h: string): Option<nat> {
    if g == [] then None
    else if h in g[|g| - 1].extraHeaders then Some(Val(g[|g| - 1], h))
    else LastVal(g[..|g| - 1], h)
  }

  ghost predicate AllUnmerged(cs: seq<Check>) {
    forall c :: c in cs ==> Unmerged(c)
  }

  /** The folded check holds the extra headers of the whole group, each with its last value. */
  lemma {:induction false} AddChecksValues(first: Check, rest: seq<Check>, h: string)
    requires Unmerged(first) && Reads(first, first.mon)
    ensures var f := AddChecks(first, rest); var l := LastVal([first] + rest, h);
            && (h in f.extraHeaders <==> l.Some?)
            && (l.Some? ==> h in f.hToVal && f.hToVal[h] == l.value)
  {
    var g := [first] + rest;
    if rest == [] {
      assert g == [first] && LastVal(g, h) == if h in first.extraHeaders then Some(Val(first, h)) else None;
      if first.extraCheck {
        assert first.extraHeaders == [first.extraHeaders[0]];
      }
    } else {
      var n := |rest| - 1;
      AddChecksValues(first, rest[..n], h);
      AddHeadersKeeps(AddChecks(first, rest[..n]), rest[n], rest[n].extraHeaders);
      assert g[|g| - 1] == rest[n] && g[..|g| - 1] == [first] + rest[..n];
    }
  }

  lemma {:induction false} LastValWitness(g: seq<Check>, h: string) returns (c: Check)
    requires LastVal(g, h).Some?
    ensures c in g && h in c.extraHeaders && Val(c, h) == LastVal(g, h).value
  {
    if h in g[|g| - 1].extraHeaders {
      c := g[|g| - 1];
    } else {
      c := LastValWitness(g[..|g| - 1], h);
    }
  }

  lemma {:induction false} LastValDefined(g: seq<Check>, h: string, c: Check)
    requires c in g && h in c.extraHeaders
    ensures LastVal(g, h).Some?
  {
    if h !in g[|g| - 1].extraHeaders {
      assert c in g[..|g| - 1];
      LastValDefined(g[..|g| - 1], h, c);
    }
  }

  ghost predicate SomeFires(g: seq<Check>, env: Env) {
    exists c :: c in g && Fires(c, env)
  }

  ghost predicate MonitorChecks(g: seq<Check>, m: string) {
    g != [] && forall c :: c in g ==> Reads(c, m) && Unmerged(c)
  }

  /** When the folded check fires, in terms of the group alone. */
  lemma MergedMonitorFires(g: seq<Check>, m: string, env: Env)
    requires MonitorChecks(g, m)
    ensures Fires(MergedMonitor(g), env) <==>
              !env.active(m) && (g[0].extraCheck ==> exists h :: LastVal(g, h) == Some(env.hdr(h)))
  {
    assert g[0] in g;
    var f := MergedMonitor(g);
    MergedMonitorReads(g, m);
    assert [g[0]] + g[1..] == g;
    forall h ensures (h in f.extraHeaders && h in f.hToVal && f.hToVal[h] == env.hdr(h)) <==> LastVal(g, h) == Some(env.hdr(h)) {
      AddChecksValues(g[0], g[1..], h);
    }
  }

  /** Whatever makes the folded check fire makes some check of the group fire. */
  lemma MergedMonitorOrigin(g: seq<Check>, m: string, env: Env) returns (o: Check)
    requires MonitorChecks(g, m)
    requires Fires(MergedMonitor(g), env)
    ensures o in g && Fires(o, env)
  {
    MergedMonitorFires(g, m, env);
    if g[0].extraCheck {
      var h :| LastVal(g, h) == Some(env.hdr(h));
      o := LastValWitness(g, h);
      assert o.extraHeaders[0] == h;
    } else {
      o := g[0];
    }
  }

  /** The first check is unconditional, or all checks are conditional and agree on the headers they share. */
  ghost predicate Compatible(g: seq<Check>)
    requires g != []
  {
    || !g[0].extraCheck
    || (&& (forall c :: c in g ==> c.extraCheck)
        && (forall c, d, h :: c in g && d in g && h in c.extraHeaders && h in d.extraHeaders ==> Val(c, h) == Val(d, h)))
  }

  /** An environment that no folded value matches, except possibly `v` at `h`. */
  ghost function Miss(g: seq<Check>, h: string, v: nat): Env {
    Env(k => if k == h then v else if LastVal(g, k).Some? then LastVal(g, k).value + 1 else 0, m => false)
  }

  lemma AgreedIsLast(g: seq<Check>, m: string, c: Check)
    requires MonitorChecks(g, m) && Compatible(g) && g[0].extraCheck && c in g
    ensures c.extraHeaders != [] && LastVal(g, c.extraHeaders[0]) == Some(Val(c, c.extraHeaders[0]))
  {
    var h := c.extraHeaders[0];
    LastValDefined(g, h, c);
    var d := LastValWitness(g, h);
  }

  lemma {:induction false} CompatibleFold(g: seq<Check>, m: string, env: Env, c: Check)
    requires MonitorChecks(g, m) && Compatible(g) && c in g && Fires(c, env)
    ensures Fires(MergedMonitor(g), env)
  {
    MergedMonitorFires(g, m, env);
    if g[0].extraCheck {
      AgreedIsLast(g, m, c);
      assert LastVal(g, c.extraHeaders[0]) == Some(env.hdr(c.extraHeaders[0]));
    }
  }

  lemma {:induction false} CompatibleFires(g: seq<Check>, m: string, env: Env)
    requires MonitorChecks(g, m) && Compatible(g)
    ensures Fires(MergedMonitor(g), env) <==> SomeFires(g, env)
  {
    if Fires(MergedMonitor(g), env) {
      var o := MergedMonitorOrigin(g, m, env);
    }
    if c :| c in g && Fires(c, env) {
      CompatibleFold(g, m, env, c);
    }
  }

  lemma UnconditionalLost(g: seq<Check>, m: string, c: Check) returns (env: Env)
    requires MonitorChecks(g, m) && g[0].extraCheck && c in g && !c.extraCheck
    ensures SomeFires(g, env) && !Fires(MergedMonitor(g), env)
  {
    env := Miss(g, "", if LastVal(g, "").Some? then LastVal(g, "").value + 1 else 0);
    assert c in g && Fires(c, env);
    MergedMonitorFires(g, m, env);
  }

  lemma {:induction false} OverwrittenLost(g: seq<Check>, m: string, c: Check, h: string) returns (env: Env)
    requires MonitorChecks(g, m) && g[0].extraCheck && c in g && c.extraCheck && h in c.extraHeaders
    requires LastVal(g, h) != Some(Val(c, h))
    ensures SomeFires(g, env) && !Fires(MergedMonitor(g), env)
  {
    env := Miss(g, h, Val(c, h));
    assert c.extraHeaders[0] == h;
    assert c in g && Fires(c, env);
    MergedMonitorFires(g, m, env);
  }

  lemma IncompatibleLoses(g: seq<Check>, m: string) returns (env: Env)
    requires MonitorChecks(g, m) && !Compatible(g)
    ensures SomeFires(g, env) && !Fires(MergedMonitor(g), env)
  {
    if c :| c in g && !c.extraCheck {
      env := UnconditionalLost(g, m, c);
    } else {
      var c, d, h :| c in g && d in g && h in c.extraHeaders && h in d.extraHeaders && Val(c, h) != Val(d, h);
      env := OverwrittenLost(g, m, if LastVal(g, h) == Some(Val(c, h)) then d else c, h);
    }
  }

  /** Folding a group keeps its meaning in every environment exactly when the group is compatible. */
  lemma FoldedGroupExact(g: seq<Check>, m: string)
    requires MonitorChecks(g, m)
    ensures (forall env: Env :: Fires(MergedMonitor(g), env) <==> SomeFires(g, env)) <==> Compatible(g)
  {
    if Compatible(g) {
      forall env: Env ensures Fires(MergedMonitor(g), env) <==> SomeFires(g, env) {
        CompatibleFires(g, m, env);
      }
    } else {
      var env := IncompatibleLoses(g, m);
    }
  }
}
