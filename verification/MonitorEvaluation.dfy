/**
 One pass of a context packet through its round of the policy, with the registers behind the
 monitors: what the pass does to them, which flags it sets, and what it decides.
 */
module MonitorEvaluation {
  import opened Policy
  import opened Emission
  import opened Compiler
  import Network
  import Monitors

  // ----- evaluation with registers -----

  /** Which monitors' own tables a pass hits. */
  type Hits = string -> bool

  /** One pass of a context packet; `time` is `meta.tstamp_high_32` while the policy is evaluated. */
  datatype Visit = Visit(id: nat, counter: nat, hdr: string -> nat, hits: Hits, time: nat)

  /** One use of a monitor's register, and the flag it set. */
  datatype Use = Use(id: nat, counter: nat, mon: string, hit: bool, time: nat, active: bool)

  /** The decision, the registers, the flags set in this pass, and all uses so far. */
  datatype Evaluation = Evaluation(dec: nat, regs: map<string, nat>, flags: map<string, bool>, log: seq<Use>)

  function Register(regs: map<string, nat>, m: string): nat {
    if m in regs then regs[m] else 0
  }

  /** The flag a use of monitor `m` sets. */
  predicate ActiveAt(v: Visit, regs: map<string, nat>, m: string) {
    v.hits(m) || Monitors.Elapsed(v.time, Register(regs, m)) < Monitors.TIMEOUT
  }

  /** A flag that was not set in this pass reads as inactive. */
  function Flags(hdr: string -> nat, flags: map<string, bool>): Env {
    Env(hdr, m => m in flags && flags[m])
  }

  /** A hit writes the time into the register, a miss writes the register back. */
  function UseMonitor(m: string, v: Visit, s: Evaluation): Evaluation {
    var active := ActiveAt(v, s.regs, m);
    s.(regs := if v.hits(m) then s.regs[m := v.time] else s.regs, flags := s.flags[m := active],
       log := s.log + [Use(v.id, v.counter, m, v.hits(m), v.time, active)])
  }

  /** Applying a monitor uses its register before its evaluation table is looked up. */
  function ApplyOne(es: seq<Entry>, a: Apply, v: Visit, s: Evaluation): Evaluation {
    var t := if a.ApplyMonitor? then UseMonitor(a.mon, v, s) else s;
    var hit := Lookup(es, a.table, Flags(v.hdr, t.flags));
    if hit.Some? then t.(dec := hit.value) else t
  }

  function Evaluate(es: seq<Entry>, applies: seq<Apply>, v: Visit, s: Evaluation): Evaluation {
    if applies == [] then s
    else ApplyOne(es, applies[|applies| - 1], v, Evaluate(es, applies[..|applies| - 1], v, s))
  }

  /** EvaluateContext as it runs. */
  class Pipeline {
    var regs: map<string, nat>   // one register per monitor
    var flags: map<string, bool> // the `active` metadata of the monitors
    var dec: nat                 // log.ctx_dec
    ghost var log: seq<Use>

    ghost function View(): Evaluation
      reads this
    {
      Evaluation(dec, regs, flags, log)
    }

    constructor ()
      ensures View() == Evaluation(0, map[], map[], [])
    {
      regs, flags, dec, log := map[], map[], 0, [];
    }

    method UseRegister(m: string, v: Visit)
      modifies this`regs, this`flags, this`log
      ensures View() == UseMonitor(m, v, old(View()))
    {
      var since := if m in regs then regs[m] else 0;
      var active := true;
      if v.hits(m) {
        regs := regs[m := v.time];
      } else {
        active := Monitors.Elapsed(v.time, since) < Monitors.TIMEOUT;
      }
      flags := flags[m := active];
      log := log + [Use(v.id, v.counter, m, v.hits(m), v.time, active)];
    }

    method ApplyTable(es: seq<Entry>, a: Apply, v: Visit)
      modifies this
      ensures View() == ApplyOne(es, a, v, old(View()))
    {
      if a.ApplyMonitor? {
        UseRegister(a.mon, v);
      }
      var hit := Lookup(es, a.table, Flags(v.hdr, flags));
      if hit.Some? {
        dec := hit.value;
      }
    }

    method EvaluateContext(es: seq<Entry>, blocks: seq<Block>, v: Visit)
      modifies this
      ensures View() == Evaluate(es, Branch(blocks, v.counter), v, Evaluation(old(dec), old(regs), map[], old(log)))
    {
      flags := map[];
      var applies := Branch(blocks, v.counter);
      var i := 0;
      while i < |applies|
        invariant i <= |applies|
        invariant View() == Evaluate(es, applies[..i], v, Evaluation(old(dec), old(regs), map[], old(log)))
      {
        assert applies[..i + 1][..i] == applies[..i];
        ApplyTable(es, applies[i], v);
        i := i + 1;
      }
      assert applies[..i] == applies;
    }
  }

  // ----- registers and uses -----

  /** The uses of one monitor, in order. */
  function TouchesOf(log: seq<Use>, m: string): seq<Monitors.Touch> {
    if log == [] then []
    else
      var n := |log| - 1;
      TouchesOf(log[..n], m) + if log[n].mon == m then [Monitors.Touch(log[n].hit, log[n].time)] else []
  }

  /** Use `j` set the flag that the uses before it call for. */
  ghost predicate UseOk(log: seq<Use>, j: nat)
    requires j < |log|
  {
    log[j].active <==>
      log[j].hit || Monitors.Elapsed(log[j].time, Monitors.After(TouchesOf(log[..j], log[j].mon))) < Monitors.TIMEOUT
  }

  /** The registers hold what their uses left in them. */
  ghost predicate Recorded(regs: map<string, nat>, log: seq<Use>) {
    && (forall m :: Register(regs, m) == Monitors.After(TouchesOf(log, m)))
    && (forall j :: 0 <= j < |log| ==> UseOk(log, j))
  }

  lemma TouchesSnoc(log: seq<Use>, u: Use, m: string)
    ensures TouchesOf(log + [u], m) == TouchesOf(log, m) + if u.mon == m then [Monitors.Touch(u.hit, u.time)] else []
  {
    assert (log + [u])[..|log|] == log;
  }

  lemma UsesKept(log: seq<Use>, u: Use, j: nat)
    requires j < |log| && UseOk(log, j)
    ensures UseOk(log + [u], j)
  {
    assert (log + [u])[..j] == log[..j];
  }

  lemma RegisterSnoc(regs: map<string, nat>, log: seq<Use>, u: Use, m: string)
    requires Register(regs, m) == Monitors.After(TouchesOf(log, m))
    ensures Register(if u.hit then regs[u.mon := u.time] else regs, m) == Monitors.After(TouchesOf(log + [u], m))
  {
    TouchesSnoc(log, u, m);
    if u.mon == m {
      var ts, x := TouchesOf(log, m), Monitors.Touch(u.hit, u.time);
      assert (ts + [x])[..|ts|] == ts;
    } else {
      assert TouchesOf(log + [u], m) == TouchesOf(log, m);
    }
  }

  lemma UseRecorded(m: string, v: Visit, s: Evaluation)
    requires Recorded(s.regs, s.log)
    ensures var r := UseMonitor(m, v, s); Recorded(r.regs, r.log)
  {
    var r := UseMonitor(m, v, s);
    var u := Use(v.id, v.counter, m, v.hits(m), v.time, ActiveAt(v, s.regs, m));
    forall k ensures Register(r.regs, k) == Monitors.After(TouchesOf(r.log, k)) {
      RegisterSnoc(s.regs, s.log, u, k);
    }
    forall j | 0 <= j < |r.log| ensures UseOk(r.log, j) {
      if j < |s.log| {
        UsesKept(s.log, u, j);
      } else {
        assert r.log[..j] == s.log;
      }
    }
  }

  lemma {:induction false} EvaluateRecorded(es: seq<Entry>, applies: seq<Apply>, v: Visit, s: Evaluation)
    requires Recorded(s.regs, s.log)
    ensures var r := Evaluate(es, applies, v, s); Recorded(r.regs, r.log)
  {
    if applies != [] {
      var n := |applies| - 1;
      EvaluateRecorded(es, applies[..n], v, s);
      if applies[n].ApplyMonitor? {
        UseRecorded(applies[n].mon, v, Evaluate(es, applies[..n], v, s));
      }
    }
  }

  // ----- what one pass adds -----

  /** Monitor `m` is among the applies. */
  ghost predicate Uses(applies: seq<Apply>, m: string) {
    exists a :: a in applies && a.ApplyMonitor? && a.mon == m
  }

  lemma UsesSnoc(applies: seq<Apply>, m: string)
    requires applies != []
    ensures var n := |applies| - 1;
            Uses(applies, m) <==> Uses(applies[..n], m) || (applies[n].ApplyMonitor? && applies[n].mon == m)
  {
    var n := |applies| - 1;
    if Uses(applies[..n], m) {
      var a :| a in applies[..n] && a.ApplyMonitor? && a.mon == m;
      assert a in applies;
    }
    if applies[n].ApplyMonitor? && applies[n].mon == m {
      assert applies[n] in applies;
    }
    assert applies == applies[..n] + [applies[n]];
  }

  /** A use that pass `v` makes when it starts with registers `regs`. */
  ghost predicate Made(u: Use, v: Visit, regs: map<string, nat>, applies: seq<Apply>) {
    && u.id == v.id && u.counter == v.counter && u.time == v.time && u.hit == v.hits(u.mon)
    && Uses(applies, u.mon) && u.active == ActiveAt(v, regs, u.mon)
  }

  /** The log grows by uses of this pass, one or more for every monitor it applies. */
  ghost predicate Adds(before: seq<Use>, after: seq<Use>, v: Visit, regs: map<string, nat>, applies: seq<Apply>) {
    && before <= after
    && (forall j :: |before| <= j < |after| ==> Made(after[j], v, regs, applies))
    && (forall m :: Uses(applies, m) ==> exists j :: |before| <= j < |after| && after[j].mon == m)
  }

  /** Within one pass the flag of a monitor does not depend on how often it is used. */
  lemma UseStable(m: string, v: Visit, s: Evaluation, k: string)
    ensures ActiveAt(v, UseMonitor(m, v, s).regs, k) == ActiveAt(v, s.regs, k)
  {
  }

  lemma MadeMore(u: Use, v: Visit, regs: map<string, nat>, applies: seq<Apply>)
    requires applies != [] && Made(u, v, regs, applies[..|applies| - 1])
    ensures Made(u, v, regs, applies)
  {
    UsesSnoc(applies, u.mon);
  }

  lemma AddsSnoc(before: seq<Use>, mid: seq<Use>, after: seq<Use>, v: Visit, regs: map<string, nat>, applies: seq<Apply>)
    requires applies != [] && Adds(before, mid, v, regs, applies[..|applies| - 1])
    requires var a := applies[|applies| - 1];
             if a.ApplyMonitor? then |after| == |mid| + 1 && mid <= after && after[|mid|].mon == a.mon && Made(after[|mid|], v, regs, applies)
             else after == mid
    ensures Adds(before, after, v, regs, applies)
  {
    var n := |applies| - 1;
    forall j | |before| <= j < |after| ensures Made(after[j], v, regs, applies) {
      if j < |mid| {
        assert after[j] == mid[j];
        MadeMore(mid[j], v, regs, applies);
      }
    }
    forall m | Uses(applies, m) ensures exists j :: |before| <= j < |after| && after[j].mon == m {
      UsesSnoc(applies, m);
      if Uses(applies[..n], m) {
        var j :| |before| <= j < |mid| && mid[j].mon == m;
        assert after[j].mon == m;
      } else {
        assert after[|mid|].mon == m;
      }
    }
  }

  lemma {:induction false} EvaluateAdds(es: seq<Entry>, applies: seq<Apply>, v: Visit, s: Evaluation)
    ensures var r := Evaluate(es, applies, v, s);
            && (forall k :: ActiveAt(v, r.regs, k) == ActiveAt(v, s.regs, k))
            && Adds(s.log, r.log, v, s.regs, applies)
  {
    if applies != [] {
      var n := |applies| - 1;
      var mid, r := Evaluate(es, applies[..n], v, s), Evaluate(es, applies, v, s);
      EvaluateAdds(es, applies[..n], v, s);
      if applies[n].ApplyMonitor? {
        var m := applies[n].mon;
        forall k ensures ActiveAt(v, r.regs, k) == ActiveAt(v, s.regs, k) {
          UseStable(m, v, mid, k);
        }
        UsesSnoc(applies, m);
        assert Made(r.log[|mid.log|], v, s.regs, applies);
      }
      AddsSnoc(s.log, mid.log, r.log, v, s.regs, applies);
    }
  }

  // ----- a pass decides as its flags say -----

  /** A table's entries ask for no flag but that of the monitor applied with it. */
  ghost predicate Tidy(es: seq<Entry>, a: Apply) {
    forall e, k :: e in es && e.table == a.table && k in e.keys && k.Inactive? ==> a.ApplyMonitor? && k.mon == a.mon
  }

  lemma {:induction false} LookupSame(es: seq<Entry>, t: string, x: Env, y: Env)
    requires forall e :: e in es && e.table == t ==> EntryMatches(e, x) == EntryMatches(e, y)
    ensures Lookup(es, t, x) == Lookup(es, t, y)
  {
    if es != [] {
      var n := |es| - 1;
      assert es[n] in es && forall e :: e in es[..n] ==> e in es;
      LookupSame(es[..n], t, x, y);
    }
  }

  lemma EntrySame(e: Entry, x: Env, y: Env)
    requires x.hdr == y.hdr && forall k :: k in e.keys && k.Inactive? ==> x.active(k.mon) == y.active(k.mon)
    ensures EntryMatches(e, x) == EntryMatches(e, y)
  {
    forall k | k in e.keys ensures KeyMatches(k, x) == KeyMatches(k, y) {
    }
  }

  lemma ApplyDecides(es: seq<Entry>, a: Apply, v: Visit, s: Evaluation, env: Env)
    requires Tidy(es, a) && env.hdr == v.hdr && (a.ApplyMonitor? ==> env.active(a.mon) == ActiveAt(v, s.regs, a.mon))
    ensures ApplyOne(es, a, v, s).dec == RunTables(es, [a], env, s.dec)
  {
    var t := if a.ApplyMonitor? then UseMonitor(a.mon, v, s) else s;
    var f := Flags(v.hdr, t.flags);
    assert a.ApplyMonitor? ==> f.active(a.mon) == env.active(a.mon);
    forall e | e in es && e.table == a.table ensures EntryMatches(e, f) == EntryMatches(e, env) {
      EntrySame(e, f, env);
    }
    LookupSame(es, a.table, f, env);
    assert [a][..0] == [];
  }

  /** A pass decides like the tables in any environment that agrees with the flags of the monitors it applies. */
  lemma {:induction false} EvaluateDecides(es: seq<Entry>, applies: seq<Apply>, v: Visit, s: Evaluation, env: Env)
    requires (forall a :: a in applies ==> Tidy(es, a)) && env.hdr == v.hdr
    requires forall m :: Uses(applies, m) ==> env.active(m) == ActiveAt(v, s.regs, m)
    ensures Evaluate(es, applies, v, s).dec == RunTables(es, applies, env, s.dec)
  {
    if applies != [] {
      var n := |applies| - 1;
      var a, mid := applies[n], Evaluate(es, applies[..n], v, s);
      forall m | Uses(applies[..n], m) ensures env.active(m) == ActiveAt(v, s.regs, m) {
        UsesSnoc(applies, m);
      }
      assert forall x :: x in applies[..n] ==> x in applies;
      EvaluateDecides(es, applies[..n], v, s, env);
      EvaluateAdds(es, applies[..n], v, s);
      assert a in applies;
      if a.ApplyMonitor? {
        UsesSnoc(applies, a.mon);
      }
      ApplyDecides(es, a, v, mid, env);
      assert applies == applies[..n] + [a];
      Network.RunTablesAppend(es, applies[..n], [a], env, s.dec);
    }
  }

  // ----- generated programs are tidy -----

  lemma {:induction false} MonitorKeys(c: Check, hs: seq<string>, e: Entry, k: Key)
    requires e in MonitorEntries(c, hs) && k in e.keys
    ensures e.table == c.tableName && (k.Inactive? ==> k.mon == c.mon)
  {
    if e in MonitorEntries(c, hs[..|hs| - 1]) {
      MonitorKeys(c, hs[..|hs| - 1], e, k);
    }
  }

  lemma {:induction false} HeaderKeys(c: Check, vs: seq<nat>, e: Entry, k: Key)
    requires e in HeaderEntries(c, vs) && k in e.keys
    ensures e.table == c.tableName && !k.Inactive?
  {
    if e in HeaderEntries(c, vs[..|vs| - 1]) {
      HeaderKeys(c, vs[..|vs| - 1], e, k);
    }
  }

  lemma EntryKeys(c: Check, e: Entry, k: Key)
    requires e in EntriesOf(c) && k in e.keys
    ensures e.table == c.tableName && (k.Inactive? ==> c.kind.Monitor? && k.mon == c.mon)
  {
    match c.kind
    case Exact => HeaderKeys(c, [c.hi], e, k);
    case List => HeaderKeys(c, c.list, e, k);
    case Monitor =>
      if c.extraCheck {
        MonitorKeys(c, c.extraHeaders, e, k);
      }
    case _ =>
  }

  lemma {:induction false} CommandOrigin(cs: seq<Check>, e: Entry) returns (i: nat)
    requires e in Commands(cs)
    ensures i < |cs| && e in EntriesOf(cs[i])
  {
    var n := |cs| - 1;
    if e in Commands(cs[..n]) {
      i := CommandOrigin(cs[..n], e);
    } else {
      i := n;
    }
  }

  lemma CommandsTidy(cs: seq<Check>, j: nat)
    requires DistinctNames(cs) && j < |cs|
    ensures Tidy(Commands(cs), ApplyOf(cs[j]))
  {
    forall e, k | e in Commands(cs) && e.table == cs[j].tableName && k in e.keys && k.Inactive?
      ensures cs[j].kind.Monitor? && k.mon == cs[j].mon
    {
      var i := CommandOrigin(cs, e);
      EntryKeys(cs[i], e, k);
      assert i == j;
    }
  }

  lemma {:induction false} BlockOrigin(cs: seq<Check>, b: Block, a: Apply) returns (j: nat)
    requires b in Blocks(cs) && a in b.applies
    ensures j < |cs| && a == ApplyOf(cs[j])
  {
    var n := |cs| - 1;
    if cs == [] {
      assert false;
    } else {
      var bs, c := Blocks(cs[..n]), cs[n];
      var last := bs[|bs| - 1];
      if b in bs {
        j := BlockOrigin(cs[..n], b, a);
      } else if a in last.applies && a != ApplyOf(c) {
        j := BlockOrigin(cs[..n], last, a);
      } else if a == ApplyOf(c) {
        j := n;
      } else {
        assert b.applies == [ApplyOf(c)] || b.applies == last.applies + [ApplyOf(c)];
        j := n;
      }
    }
  }

  lemma {:induction false} BranchOrigin(bs: seq<Block>, counter: nat, a: Apply)
    requires a in Branch(bs, counter)
    ensures exists b :: b in bs && a in b.applies
  {
    if bs[0].round == counter {
      assert bs[0] in bs;
    } else {
      BranchOrigin(bs[1..], counter, a);
    }
  }

  lemma BranchTidy(ds: seq<Check>, counter: nat)
    requires DistinctNames(Final(ds))
    ensures forall a :: a in Branch(Generate(ds).blocks, counter) ==> Tidy(Generate(ds).entries, a)
  {
    var ps := Final(ds);
    forall a | a in Branch(Blocks(ps), counter) ensures Tidy(Commands(ps), a) {
      BranchOrigin(Blocks(ps), counter, a);
      var b :| b in Blocks(ps) && a in b.applies;
      var j := BlockOrigin(ps, b, a);
      CommandsTidy(ps, j);
    }
  }
}
