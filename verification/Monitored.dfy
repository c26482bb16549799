/**
 The switch with its monitor registers. Each pass of a context packet evaluates its round of the
 policy at the time its metadata holds then, between the passes of other packets in every
 interleaving.
 */
module Monitored {
  import opened Policy
  import opened MonitorMerge
  import opened Optimizer
  import opened Emission
  import opened Compiler
  import opened Correctness
  import opened DataPlane
  import opened Runs
  import opened Sequences
  import opened MonitorEvaluation

  // ----- the switch -----

  datatype Packet =
    | ContextPacket(key: FlowKey, hdr: string -> nat, counter: nat, dec: nat)
    | DataPacket(key: FlowKey, resub: nat)

  datatype System = System(passes: seq<Pass>, ids: seq<nat>, flights: map<nat, Packet>, born: map<nat, Packet>, regs: map<string, nat>, log: seq<Use>)

  /** `time` is the timestamp during evaluation, `tstamp` the one the cache stores. */
  datatype Event =
    | ArriveContext(id: nat, key: FlowKey, hdr: string -> nat)
    | ArriveData(id: nat, key: FlowKey)
    | Serve(id: nat, time: nat, tstamp: nat, conn: Option<nat>, hits: Hits)

  function Arrive(st: System, id: nat, p: Packet): System {
    if id in st.born then st else st.(flights := st.flights[id := p], born := st.born[id := p])
  }

  /** EvaluateContext in the next pass of a context packet. */
  function Evaluated(out: Output, st: System, id: nat, p: Packet, time: nat, hits: Hits): Evaluation
    requires p.ContextPacket?
  {
    Evaluate(out.entries, Branch(out.blocks, p.counter), Visit(id, p.counter, p.hdr, hits, time), Evaluation(p.dec, st.regs, map[], st.log))
  }

  function Pass(hs: Hashes, out: Output, st: System, id: nat, time: nat, tstamp: nat, conn: Option<nat>, hits: Hits): System
    requires id in st.flights
  {
    match st.flights[id]
    case ContextPacket(k, hdr, c, d) =>
      var r := Evaluated(out, st, id, st.flights[id], time, hits);
      st.(passes := st.passes + [ContextPass(k, tstamp, r.dec)], ids := st.ids + [id], regs := r.regs, log := r.log,
          flights := if c < out.recirTimes then st.flights[id := ContextPacket(k, hdr, c + 1, r.dec)] else st.flights - {id})
    case DataPacket(k, n) =>
      var o := if conn.Some? then Enforce(conn.value) else MissOutcome(hs, State(hs, st.passes), k, n);
      st.(passes := st.passes + [DataPass(k, tstamp, n)], ids := st.ids + [id],
          flights := if o.Resubmitted? then st.flights[id := DataPacket(k, o.resub)] else st.flights - {id})
  }

  function Step(hs: Hashes, out: Output, st: System, e: Event): System {
    match e
    case ArriveContext(id, k, hdr) => Arrive(st, id, ContextPacket(k, hdr, 0, 0))
    case ArriveData(id, k) => Arrive(st, id, DataPacket(k, 0))
    case Serve(id, time, t, conn, hits) => if id in st.flights then Pass(hs, out, st, id, time, t, conn, hits) else st
  }

  function Run(hs: Hashes, out: Output, es: seq<Event>): System {
    if es == [] then System([], [], map[], map[], map[], []) else Step(hs, out, Run(hs, out, es[..|es| - 1]), es[|es| - 1])
  }

  // ----- the registers over whole runs -----

  lemma {:induction false} StepRecorded(hs: Hashes, out: Output, st: System, e: Event)
    requires Recorded(st.regs, st.log)
    ensures var q := Step(hs, out, st, e); Recorded(q.regs, q.log) && st.log <= q.log
  {
    if e.Serve? && e.id in st.flights && st.flights[e.id].ContextPacket? {
      var p := st.flights[e.id];
      var v, s := Visit(e.id, p.counter, p.hdr, e.hits, e.time), Evaluation(p.dec, st.regs, map[], st.log);
      EvaluateRecorded(out.entries, Branch(out.blocks, p.counter), v, s);
      EvaluateAdds(out.entries, Branch(out.blocks, p.counter), v, s);
    }
  }

  lemma {:induction false} RunRecorded(hs: Hashes, out: Output, es: seq<Event>)
    ensures var st := Run(hs, out, es); Recorded(st.regs, st.log)
  {
    if es != [] {
      RunRecorded(hs, out, es[..|es| - 1]);
      StepRecorded(hs, out, Run(hs, out, es[..|es| - 1]), es[|es| - 1]);
    }
  }

  lemma {:induction false} LogGrows(hs: Hashes, out: Output, es: seq<Event>, n: nat)
    requires n <= |es|
    ensures Run(hs, out, es[..n]).log <= Run(hs, out, es).log
  {
    if n == |es| {
      assert es[..n] == es;
    } else {
      var m := |es| - 1;
      assert es[..m][..n] == es[..n];
      LogGrows(hs, out, es[..m], n);
      RunRecorded(hs, out, es[..m]);
      StepRecorded(hs, out, Run(hs, out, es[..m]), es[m]);
    }
  }

  /** Evaluation times move forward and fit their field. */
  ghost predicate Timely(es: seq<Event>) {
    && (forall i :: 0 <= i < |es| && es[i].Serve? ==> es[i].time < Monitors.MODULUS)
    && (forall i, j :: 0 <= i < j < |es| && es[i].Serve? && es[j].Serve? ==> es[i].time <= es[j].time)
  }

  ghost predicate Served(es: seq<Event>, time: nat) {
    exists i :: 0 <= i < |es| && es[i].Serve? && es[i].time == time
  }

  lemma ServedMore(es: seq<Event>, time: nat)
    requires es != [] && Served(es[..|es| - 1], time)
    ensures Served(es, time)
  {
    var i :| 0 <= i < |es| - 1 && es[..|es| - 1][i].Serve? && es[..|es| - 1][i].time == time;
    assert es[i].Serve?;
  }

  /** Every use happens at the evaluation time of some pass. */
  lemma {:induction false} UseTimes(hs: Hashes, out: Output, es: seq<Event>, j: nat)
    requires j < |Run(hs, out, es).log|
    ensures Served(es, Run(hs, out, es).log[j].time)
  {
    var n := |es| - 1;
    var st, e := Run(hs, out, es[..n]), es[n];
    RunRecorded(hs, out, es[..n]);
    StepRecorded(hs, out, st, e);
    if j < |st.log| {
      UseTimes(hs, out, es[..n], j);
      ServedMore(es, st.log[j].time);
    } else {
      NewUseTime(hs, out, st, e, j);
      assert es[n].Serve?;
    }
  }

  lemma {:induction false} NewUseTime(hs: Hashes, out: Output, st: System, e: Event, j: nat)
    requires |st.log| <= j < |Step(hs, out, st, e).log|
    ensures e.Serve? && Step(hs, out, st, e).log[j].time == e.time
  {
    var p := st.flights[e.id];
    EvaluateAdds(out.entries, Branch(out.blocks, p.counter), Visit(e.id, p.counter, p.hdr, e.hits, e.time),
                 Evaluation(p.dec, st.regs, map[], st.log));
  }

  ghost predicate Ordered(log: seq<Use>) {
    && (forall i, j :: 0 <= i < j < |log| ==> log[i].time <= log[j].time)
    && (forall i :: 0 <= i < |log| ==> log[i].time < Monitors.MODULUS)
  }

  lemma ServedBefore(es: seq<Event>, time: nat)
    requires Timely(es) && es != [] && es[|es| - 1].Serve? && Served(es, time)
    ensures time <= es[|es| - 1].time < Monitors.MODULUS
  {
  }

  lemma {:induction false} RunOrdered(hs: Hashes, out: Output, es: seq<Event>)
    requires Timely(es)
    ensures Ordered(Run(hs, out, es).log)
  {
    if es != [] {
      var n := |es| - 1;
      var st, e, log := Run(hs, out, es[..n]), es[n], Run(hs, out, es).log;
      RunOrdered(hs, out, es[..n]);
      RunRecorded(hs, out, es[..n]);
      StepRecorded(hs, out, st, e);
      forall i | 0 <= i < |log| && |log| > |st.log| ensures log[i].time <= e.time < Monitors.MODULUS {
        NewUseTime(hs, out, st, e, |log| - 1);
        UseTimes(hs, out, es, i);
        ServedBefore(es, log[i].time);
      }
      forall i | |st.log| <= i < |log| ensures log[i].time == e.time {
        NewUseTime(hs, out, st, e, i);
      }
    }
  }

  /** `t` is the time of the latest hit on monitor `m` among the first `n` uses, 0 when there is none. */
  ghost predicate LatestHit(log: seq<Use>, n: nat, m: string, t: nat)
    requires n <= |log|
  {
    && (forall i :: 0 <= i < n && log[i].mon == m && log[i].hit ==> log[i].time <= t)
    && (t == 0 || exists i :: 0 <= i < n && log[i].mon == m && log[i].hit && log[i].time == t)
  }

  lemma {:induction false} TouchMembers(log: seq<Use>, m: string, x: Monitors.Touch)
    ensures x in TouchesOf(log, m) <==> exists i :: 0 <= i < |log| && log[i].mon == m && x == Monitors.Touch(log[i].hit, log[i].time)
  {
    if log != [] {
      var n := |log| - 1;
      TouchMembers(log[..n], m, x);
      if x in TouchesOf(log[..n], m) {
        var i :| 0 <= i < n && log[..n][i].mon == m && x == Monitors.Touch(log[..n][i].hit, log[..n][i].time);
        assert log[i].mon == m;
      }
      if i :| 0 <= i < |log| && log[i].mon == m && x == Monitors.Touch(log[i].hit, log[i].time) {
        assert i < n ==> log[..n][i] == log[i];
      }
    }
  }

  lemma LatestTouch(log: seq<Use>, m: string, t: nat)
    ensures LatestHit(log, |log|, m, t) <==> Monitors.IsLatestHit(TouchesOf(log, m), t)
  {
    var ts := TouchesOf(log, m);
    forall x ensures x in ts <==> exists i :: 0 <= i < |log| && log[i].mon == m && x == Monitors.Touch(log[i].hit, log[i].time) {
      TouchMembers(log, m, x);
    }
    if LatestHit(log, |log|, m, t) {
      LatestOfUses(log, m, t);
    }
    if Monitors.IsLatestHit(ts, t) {
      LatestOfTouches(log, m, t);
    }
  }

  lemma LatestOfUses(log: seq<Use>, m: string, t: nat)
    requires LatestHit(log, |log|, m, t)
    requires forall x :: x in TouchesOf(log, m) <==> exists i :: 0 <= i < |log| && log[i].mon == m && x == Monitors.Touch(log[i].hit, log[i].time)
    ensures Monitors.IsLatestHit(TouchesOf(log, m), t)
  {
    var ts := TouchesOf(log, m);
    forall i | 0 <= i < |ts| && ts[i].hit ensures ts[i].time <= t {
      assert ts[i] in ts;
    }
    if t != 0 {
      var i :| 0 <= i < |log| && log[i].mon == m && log[i].hit && log[i].time == t;
      assert Monitors.Touch(true, t) in ts;
    }
  }

  lemma LatestOfTouches(log: seq<Use>, m: string, t: nat)
    requires Monitors.IsLatestHit(TouchesOf(log, m), t)
    requires forall x :: x in TouchesOf(log, m) <==> exists i :: 0 <= i < |log| && log[i].mon == m && x == Monitors.Touch(log[i].hit, log[i].time)
    ensures LatestHit(log, |log|, m, t)
  {
    var ts := TouchesOf(log, m);
    forall i | 0 <= i < |log| && log[i].mon == m && log[i].hit ensures log[i].time <= t {
      assert Monitors.Touch(log[i].hit, log[i].time) in ts;
    }
    if t != 0 {
      var i :| 0 <= i < |ts| && ts[i].hit && ts[i].time == t;
      assert ts[i] in ts;
    }
  }

  lemma {:induction false} TouchesOrdered(log: seq<Use>, m: string)
    requires Ordered(log)
    ensures Monitors.TimesInOrder(TouchesOf(log, m))
  {
    if log != [] {
      var n := |log| - 1;
      TouchesOrdered(log[..n], m);
      var ts := TouchesOf(log[..n], m);
      forall i | 0 <= i < |ts| ensures ts[i].time <= log[n].time {
        TouchMembers(log[..n], m, ts[i]);
        assert ts[i] in ts;
      }
    }
  }

  /** In every run whose times move forward, each register holds the time of the latest hit on its monitor. */
  lemma {:induction false} RegistersExact(hs: Hashes, out: Output, es: seq<Event>, m: string)
    requires Timely(es)
    ensures var st := Run(hs, out, es); LatestHit(st.log, |st.log|, m, Register(st.regs, m))
  {
    var st := Run(hs, out, es);
    RunRecorded(hs, out, es);
    RunOrdered(hs, out, es);
    TouchesOrdered(st.log, m);
    Monitors.RegisterIsLatestHit(TouchesOf(st.log, m));
    LatestTouch(st.log, m, Register(st.regs, m));
  }

  /**
   In every run whose times move forward, a use sees its monitor active exactly when it is a hit, or the latest
   hit before it (boot counts as time 0) is less than the timeout old.
   */
  lemma {:induction false} ActivityExact(hs: Hashes, out: Output, es: seq<Event>, j: nat, latest: nat)
    requires Timely(es) && j < |Run(hs, out, es).log|
    requires var log := Run(hs, out, es).log; LatestHit(log, j, log[j].mon, latest)
    ensures var u := Run(hs, out, es).log[j]; u.active <==> u.hit || u.time - latest < Monitors.TIMEOUT
  {
    var st := Run(hs, out, es);
    RunRecorded(hs, out, es);
    RunOrdered(hs, out, es);
    UseExact(st.log, j, latest);
  }

  lemma {:induction false} UseExact(log: seq<Use>, j: nat, latest: nat)
    requires Ordered(log) && j < |log| && UseOk(log, j) && LatestHit(log, j, log[j].mon, latest)
    ensures log[j].active <==> log[j].hit || log[j].time - latest < Monitors.TIMEOUT
  {
    var u, before := log[j], log[..j];
    var ts, x := TouchesOf(before, u.mon), Monitors.Touch(u.hit, u.time);
    assert log[..j + 1] == before + [u];
    TouchesSnoc(before, u, u.mon);
    TouchesOrdered(log[..j + 1], u.mon);
    LatestPrefix(log, j, u.mon, latest);
    LatestTouch(before, u.mon, latest);
    assert (ts + [x])[..|ts|] == ts && (ts + [x])[|ts|] == x;
    Monitors.ActiveExact(ts + [x], |ts|, latest);
  }

  lemma LatestPrefix(log: seq<Use>, n: nat, m: string, t: nat)
    requires n <= |log| && LatestHit(log, n, m, t)
    ensures LatestHit(log[..n], |log[..n]|, m, t)
  {
    if t != 0 {
      var i :| 0 <= i < n && log[i].mon == m && log[i].hit && log[i].time == t;
      assert log[..n][i].mon == m;
    }
  }

  // ----- a packet uses each monitor in one pass -----

  /** Round `c` applies monitor `m`. */
  ghost predicate UsedIn(out: Output, c: nat, m: string) {
    c <= out.recirTimes && Uses(Branch(out.blocks, c), m)
  }

  /** Every monitor is applied in one round. */
  ghost predicate SingleRound(out: Output) {
    forall m, c: nat, d: nat :: UsedIn(out, c, m) && UsedIn(out, d, m) ==> c == d
  }

  lemma {:induction false} TouchesAppend(a: seq<Apply>, b: seq<Apply>, m: string)
    ensures Touches(a + b, m) == Touches(a, m) + Touches(b, m)
  {
    if b == [] {
      assert a + b == a;
    } else {
      assert (a + b)[..|a + b| - 1] == a + b[..|b| - 1];
      TouchesAppend(a, b[..|b| - 1], m);
    }
  }

  lemma {:induction false} UsesTouches(a: seq<Apply>, m: string)
    ensures Uses(a, m) <==> Touches(a, m) > 0
  {
    if a != [] {
      UsesTouches(a[..|a| - 1], m);
      UsesSnoc(a, m);
    }
  }

  /** How often the rounds up to `last` apply monitor `m`. */
  function RoundTouches(bs: seq<Block>, last: nat, m: string): nat {
    Touches(Branch(bs, last), m) + if last == 0 then 0 else RoundTouches(bs, last - 1, m)
  }

  lemma {:induction false} ExecutedTouches(bs: seq<Block>, last: nat, m: string)
    ensures Touches(Executed(bs, last), m) == RoundTouches(bs, last, m)
  {
    var before := if last == 0 then [] else Executed(bs, last - 1);
    TouchesAppend(before, Branch(bs, last), m);
    if last > 0 {
      ExecutedTouches(bs, last - 1, m);
    }
  }

  lemma {:induction false} TouchesGrow(bs: seq<Block>, c: nat, d: nat, m: string)
    requires c <= d
    ensures RoundTouches(bs, d, m) >= Touches(Branch(bs, c), m) + if c < d then Touches(Branch(bs, d), m) else 0
  {
    if c < d {
      TouchesGrow(bs, c, d - 1, m);
    }
  }

  lemma {:induction false} TouchesMonotone(bs: seq<Block>, d: nat, last: nat, m: string)
    requires d <= last
    ensures RoundTouches(bs, d, m) <= RoundTouches(bs, last, m)
  {
    if d < last {
      TouchesMonotone(bs, d, last - 1, m);
    }
  }

  lemma {:induction false} GeneratedSingleRound(p: Policy.Program, hs: seq<string>, ds: seq<Check>)
    requires SortedChecks(p, hs, ds) && NoDuplicates(hs)
    ensures SingleRound(Generate(ds))
  {
    var out := Generate(ds);
    forall m, c: nat, d: nat | c < d <= out.recirTimes && Uses(Branch(out.blocks, c), m) ensures !Uses(Branch(out.blocks, d), m) {
      UsesTouches(Branch(out.blocks, c), m);
      UsesTouches(Branch(out.blocks, d), m);
      TouchesGrow(out.blocks, c, d, m);
      TouchesMonotone(out.blocks, d, out.recirTimes, m);
      ExecutedTouches(out.blocks, out.recirTimes, m);
      MonitorTouchedOnce(p, hs, ds, m);
    }
  }

  /** What the log of a run looks like. */
  ghost predicate LogOk(out: Output, st: System) {
    && (forall j :: 0 <= j < |st.log| ==>
          st.log[j].id in st.born && st.log[j].counter <= out.recirTimes && Uses(Branch(out.blocks, st.log[j].counter), st.log[j].mon))
    && (forall id, j :: id in st.flights && 0 <= j < |st.log| && st.log[j].id == id ==>
          st.flights[id].ContextPacket? && st.log[j].counter < st.flights[id].counter)
    && (forall i, j :: 0 <= i < |st.log| && 0 <= j < |st.log| ==> Agree(st.log[i], st.log[j]))
    && (forall id :: id in st.flights && st.flights[id].ContextPacket? ==> st.flights[id].counter <= out.recirTimes)
    && st.flights.Keys <= st.born.Keys
  }

  /** Two uses of a monitor in one pass set the same flag. */
  predicate Agree(u: Use, w: Use) {
    u.id == w.id && u.mon == w.mon && u.counter == w.counter ==> u.active == w.active
  }

  lemma {:induction false} ArriveLog(out: Output, st: System, id: nat, p: Packet)
    requires LogOk(out, st) && (p.ContextPacket? ==> p.counter == 0)
    ensures LogOk(out, Arrive(st, id, p))
  {
  }

  lemma {:induction false} ServeLog(hs: Hashes, out: Output, st: System, e: Event)
    requires LogOk(out, st) && e.Serve? && e.id in st.flights && st.flights[e.id].ContextPacket?
    ensures LogOk(out, Step(hs, out, st, e))
  {
    var p, q := st.flights[e.id], Step(hs, out, st, e);
    var v, applies := Visit(e.id, p.counter, p.hdr, e.hits, e.time), Branch(out.blocks, p.counter);
    EvaluateAdds(out.entries, applies, v, Evaluation(p.dec, st.regs, map[], st.log));
    forall j | 0 <= j < |q.log| ensures j >= |st.log| ==> Made(q.log[j], v, st.regs, applies) {
    }
    NewUsesAgree(out, st, q.log, v, applies);
  }

  lemma NewUsesAgree(out: Output, st: System, log: seq<Use>, v: Visit, applies: seq<Apply>)
    requires LogOk(out, st) && Adds(st.log, log, v, st.regs, applies)
    requires v.id in st.flights && st.flights[v.id].ContextPacket? && v.counter == st.flights[v.id].counter
    ensures forall i, j :: 0 <= i < |log| && 0 <= j < |log| ==> Agree(log[i], log[j])
  {
    forall i, j | 0 <= i < |log| && 0 <= j < |log| ensures Agree(log[i], log[j]) {
      if i >= |st.log| {
        assert Made(log[i], v, st.regs, applies);
      } else {
        assert log[i] == st.log[i];
      }
      if j >= |st.log| {
        assert Made(log[j], v, st.regs, applies);
      } else {
        assert log[j] == st.log[j];
      }
    }
  }

  lemma {:induction false} RunLog(hs: Hashes, out: Output, es: seq<Event>)
    ensures LogOk(out, Run(hs, out, es))
  {
    if es != [] {
      var st, e := Run(hs, out, es[..|es| - 1]), es[|es| - 1];
      RunLog(hs, out, es[..|es| - 1]);
      match e
      case ArriveContext(id, k, hdr) => ArriveLog(out, st, id, ContextPacket(k, hdr, 0, 0));
      case ArriveData(id, k) => ArriveLog(out, st, id, DataPacket(k, 0));
      case Serve(id, _, _, _, _) =>
        if id in st.flights && st.flights[id].ContextPacket? {
          ServeLog(hs, out, st, e);
        }
    }
  }

  /** All uses of a monitor by one packet set the same flag. */
  ghost predicate Coherent(log: seq<Use>) {
    forall i, j :: 0 <= i < |log| && 0 <= j < |log| && log[i].id == log[j].id && log[i].mon == log[j].mon ==> log[i].active == log[j].active
  }

  lemma {:induction false} RunCoherent(hs: Hashes, out: Output, es: seq<Event>)
    requires SingleRound(out)
    ensures Coherent(Run(hs, out, es).log)
  {
    var log := Run(hs, out, es).log;
    RunLog(hs, out, es);
    forall i, j | 0 <= i < |log| && 0 <= j < |log| && log[i].id == log[j].id && log[i].mon == log[j].mon
      ensures log[i].active == log[j].active
    {
      assert UsedIn(out, log[i].counter, log[i].mon) && UsedIn(out, log[j].counter, log[j].mon);
      assert Agree(log[i], log[j]);
    }
  }

  // ----- it is the switch of `Network`, with the activity each packet saw -----

  /** The flag packet `id` saw for monitor `m`. */
  predicate Saw(log: seq<Use>, id: nat, m: string) {
    if log == [] then true
    else
      var n := |log| - 1;
      if log[n].id == id && log[n].mon == m then log[n].active else Saw(log[..n], id, m)
  }

  function Seen(log: seq<Use>, id: nat): string -> bool {
    m => Saw(log, id, m)
  }

  lemma {:induction false} SawUse(log: seq<Use>, j: nat)
    requires Coherent(log) && j < |log|
    ensures Saw(log, log[j].id, log[j].mon) == log[j].active
  {
    var n := |log| - 1;
    if j < n {
      SawUse(log[..n], j);
    }
  }

  function Abs(log: seq<Use>, id: nat, p: Packet): Network.Flight {
    match p
    case ContextPacket(k, hdr, c, d) => Network.ContextFlight(k, Env(hdr, Seen(log, id)), c, d)
    case DataPacket(k, n) => Network.DataFlight(k, n)
  }

  function AbsEvent(log: seq<Use>, e: Event): Network.Event {
    match e
    case ArriveContext(id, k, hdr) => Network.Arrive(id, Abs(log, id, ContextPacket(k, hdr, 0, 0)))
    case ArriveData(id, k) => Network.Arrive(id, Abs(log, id, DataPacket(k, 0)))
    case Serve(id, _, t, conn, _) => Network.Serve(id, t, conn)
  }

  function AbsEvents(log: seq<Use>, es: seq<Event>): seq<Network.Event> {
    seq(|es|, i requires 0 <= i < |es| => AbsEvent(log, es[i]))
  }

  ghost predicate SameFlights(log: seq<Use>, ps: map<nat, Packet>, fs: map<nat, Network.Flight>) {
    ps.Keys == fs.Keys && forall id :: id in ps ==> fs[id] == Abs(log, id, ps[id])
  }

  ghost predicate Refines(log: seq<Use>, st: System, q: Network.System) {
    && st.passes == q.passes && st.ids == q.ids && SameFlights(log, st.flights, q.flights) && SameFlights(log, st.born, q.born)
  }

  lemma FlightsUpdated(log: seq<Use>, ps: map<nat, Packet>, fs: map<nat, Network.Flight>, id: nat, p: Packet)
    requires SameFlights(log, ps, fs)
    ensures SameFlights(log, ps[id := p], fs[id := Abs(log, id, p)]) && SameFlights(log, ps - {id}, fs - {id})
  {
  }

  /** The flags a pass sets are those its packet is recorded to have seen. */
  lemma SeenInPass(log: seq<Use>, before: seq<Use>, after: seq<Use>, v: Visit, regs: map<string, nat>, applies: seq<Apply>)
    requires Coherent(log) && Adds(before, after, v, regs, applies) && after <= log
    ensures forall m :: Uses(applies, m) ==> Seen(log, v.id)(m) == ActiveAt(v, regs, m)
  {
    forall m | Uses(applies, m) ensures Seen(log, v.id)(m) == ActiveAt(v, regs, m) {
      var j :| |before| <= j < |after| && after[j].mon == m;
      assert Made(after[j], v, regs, applies) && log[j] == after[j];
      SawUse(log, j);
    }
  }

  lemma ContextDecides(log: seq<Use>, out: Output, st: System, id: nat, time: nat, hits: Hits)
    requires Coherent(log) && id in st.flights && st.flights[id].ContextPacket?
    requires forall a :: a in Branch(out.blocks, st.flights[id].counter) ==> Tidy(out.entries, a)
    requires Evaluated(out, st, id, st.flights[id], time, hits).log <= log
    ensures Evaluated(out, st, id, st.flights[id], time, hits).dec == Network.Evaluate(out, Abs(log, id, st.flights[id]))
  {
    var p := st.flights[id];
    var v, s := Visit(id, p.counter, p.hdr, hits, time), Evaluation(p.dec, st.regs, map[], st.log);
    var applies := Branch(out.blocks, p.counter);
    EvaluateAdds(out.entries, applies, v, s);
    SeenInPass(log, st.log, Evaluate(out.entries, applies, v, s).log, v, st.regs, applies);
    EvaluateDecides(out.entries, applies, v, s, Env(p.hdr, Seen(log, id)));
  }

  lemma {:induction false} PassRefines(log: seq<Use>, hs: Hashes, out: Output, st: System, q: Network.System, e: Event)
    requires Refines(log, st, q) && Coherent(log) && e.Serve? && e.id in st.flights && Step(hs, out, st, e).log <= log
    requires st.flights[e.id].ContextPacket? ==>
               forall a :: a in Branch(out.blocks, st.flights[e.id].counter) ==> Tidy(out.entries, a)
    ensures Refines(log, Step(hs, out, st, e), Network.Step(hs, out, q, AbsEvent(log, e)))
  {
    var id, p := e.id, st.flights[e.id];
    assert q.flights[id] == Abs(log, id, p);
    match p
    case ContextPacket(k, hdr, c, d) =>
      ContextDecides(log, out, st, id, e.time, e.hits);
      FlightsUpdated(log, st.flights, q.flights, id, ContextPacket(k, hdr, c + 1, Evaluated(out, st, id, p, e.time, e.hits).dec));
    case DataPacket(k, n) =>
      FlightsUpdated(log, st.flights, q.flights, id, DataPacket(k, n + 1));
  }

  lemma {:induction false} ArriveRefines(log: seq<Use>, hs: Hashes, out: Output, st: System, q: Network.System, id: nat, p: Packet)
    requires Refines(log, st, q) && Network.Fresh(Abs(log, id, p))
    ensures Refines(log, Arrive(st, id, p), Network.Step(hs, out, q, Network.Arrive(id, Abs(log, id, p))))
  {
    FlightsUpdated(log, st.flights, q.flights, id, p);
    FlightsUpdated(log, st.born, q.born, id, p);
  }

  lemma {:induction false} StepRefines(log: seq<Use>, hs: Hashes, ds: seq<Check>, st: System, q: Network.System, e: Event)
    requires Refines(log, st, q) && Coherent(log) && DistinctNames(Final(ds)) && Step(hs, Generate(ds), st, e).log <= log
    ensures Refines(log, Step(hs, Generate(ds), st, e), Network.Step(hs, Generate(ds), q, AbsEvent(log, e)))
  {
    match e
    case ArriveContext(id, k, hdr) => ArriveRefines(log, hs, Generate(ds), st, q, id, ContextPacket(k, hdr, 0, 0));
    case ArriveData(id, k) => ArriveRefines(log, hs, Generate(ds), st, q, id, DataPacket(k, 0));
    case Serve(id, _, _, _, _) =>
      if id in st.flights {
        BranchTidy(ds, if st.flights[id].ContextPacket? then st.flights[id].counter else 0);
        PassRefines(log, hs, Generate(ds), st, q, e);
      }
  }

  /** In every interleaving the switch with its monitor registers is the one of `Network`, each packet with the activity it saw. */
  lemma {:induction false} RunRefines(log: seq<Use>, hs: Hashes, ds: seq<Check>, es: seq<Event>)
    requires DistinctNames(Final(ds)) && Coherent(log) && Run(hs, Generate(ds), es).log <= log
    ensures Refines(log, Run(hs, Generate(ds), es), Network.Run(hs, Generate(ds), AbsEvents(log, es)))
  {
    if es != [] {
      var n := |es| - 1;
      LogGrows(hs, Generate(ds), es, n);
      RunRefines(log, hs, ds, es[..n]);
      assert AbsEvents(log, es)[..n] == AbsEvents(log, es[..n]) && AbsEvents(log, es)[n] == AbsEvent(log, es[n]);
      StepRefines(log, hs, ds, Run(hs, Generate(ds), es[..n]), Network.Run(hs, Generate(ds), AbsEvents(log, es[..n])), es[n]);
    }
  }

  // ----- enforcement -----

  /** Packet `id` has made its last pass, as pass `i`, and still owns its slot, which is that of `k`. */
  ghost predicate Owner(hs: Hashes, out: Output, st: System, i: nat, id: nat, k: FlowKey) {
    && Network.Latest(hs, st.passes, i) && Slot(hs, st.passes[i].key) == Slot(hs, k) && st.passes[i].key.ip == k.ip
    && i < |st.ids| && st.ids[i] == id && id in st.born && st.born[id].ContextPacket?
    && Network.Visits(st.ids[..i], id) == out.recirTimes
  }

  /** Then data packets of its address are enforced by what the generated program decides in its context, with the activity it saw. */
  lemma {:induction false} OwnerDecides(p: Policy.Program, headers: seq<string>, ds: seq<Check>, hs: Hashes, es: seq<Event>,
                     i: nat, id: nat, k: FlowKey, resub: nat)
    requires SortedChecks(p, headers, ds) && NoDuplicates(headers) && DistinctNames(Final(ds))
    requires Owner(hs, Generate(ds), Run(hs, Generate(ds), es), i, id, k)
    ensures var st := Run(hs, Generate(ds), es);
            MissOutcome(hs, State(hs, st.passes), k, resub) == Enforce(Decide(Generate(ds), Env(st.born[id].hdr, Seen(st.log, id))))
  {
    var out, st := Generate(ds), Run(hs, Generate(ds), es);
    GeneratedSingleRound(p, headers, ds);
    RunCoherent(hs, out, es);
    RunRefines(st.log, hs, ds, es);
    Network.EnforcedFromContext(hs, out, AbsEvents(st.log, es), i, k, resub);
  }

  /** Packet `id` has used monitor `m`. */
  ghost predicate Used(log: seq<Use>, id: nat, m: string) {
    exists j :: 0 <= j < |log| && log[j].id == id && log[j].mon == m
  }

  /** Every pass of a context packet has used the monitors of its round. */
  ghost predicate RoundsUsed(out: Output, st: System) {
    && |st.ids| == |st.passes|
    && forall i, m :: 0 <= i < |st.ids| && st.passes[i].ContextPass? && Uses(Branch(out.blocks, Network.Visits(st.ids[..i], st.ids[i])), m) ==>
         Used(st.log, st.ids[i], m)
  }

  /** A context packet's counter is the number of its passes. */
  lemma {:induction false} CounterIsVisits(log: seq<Use>, hs: Hashes, ds: seq<Check>, es: seq<Event>, id: nat)
    requires DistinctNames(Final(ds)) && Coherent(log) && Run(hs, Generate(ds), es).log <= log
    requires var st := Run(hs, Generate(ds), es); id in st.flights && st.flights[id].ContextPacket?
    ensures var st := Run(hs, Generate(ds), es); st.flights[id].counter == Network.Visits(st.ids, id)
  {
    var out, st, q := Generate(ds), Run(hs, Generate(ds), es), Network.Run(hs, Generate(ds), AbsEvents(log, es));
    RunRefines(log, hs, ds, es);
    Network.RunKeeps(hs, out, AbsEvents(log, es));
    assert q.flights[id] == Abs(log, id, st.flights[id]);
    assert Network.FlightOk(out, q.born[id], q.flights[id], Network.Visits(q.ids, id));
  }

  lemma UsedMore(before: seq<Use>, after: seq<Use>, id: nat, m: string)
    requires before <= after && Used(before, id, m)
    ensures Used(after, id, m)
  {
    var j :| 0 <= j < |before| && before[j].id == id && before[j].mon == m;
    assert after[j].id == id && after[j].mon == m;
  }

  lemma {:induction false} ServeUsed(hs: Hashes, out: Output, st: System, e: Event)
    requires RoundsUsed(out, st) && e.Serve? && e.id in st.flights
    requires st.flights[e.id].ContextPacket? ==> st.flights[e.id].counter == Network.Visits(st.ids, e.id)
    ensures RoundsUsed(out, Step(hs, out, st, e))
  {
    var q, p, n := Step(hs, out, st, e), st.flights[e.id], |st.ids|;
    if p.ContextPacket? {
      EvaluateAdds(out.entries, Branch(out.blocks, p.counter), Visit(e.id, p.counter, p.hdr, e.hits, e.time),
                   Evaluation(p.dec, st.regs, map[], st.log));
    }
    forall i, m | 0 <= i < |q.ids| && q.passes[i].ContextPass? && Uses(Branch(out.blocks, Network.Visits(q.ids[..i], q.ids[i])), m)
      ensures Used(q.log, q.ids[i], m)
    {
      assert q.ids[..i] == st.ids[..i];
      if i < n {
        UsedMore(st.log, q.log, st.ids[i], m);
      } else {
        assert q.ids[..n] == st.ids;
        var j :| |st.log| <= j < |q.log| && q.log[j].mon == m;
        assert q.log[j].id == e.id;
      }
    }
  }

  lemma {:induction false} RunUsed(log: seq<Use>, hs: Hashes, ds: seq<Check>, es: seq<Event>)
    requires DistinctNames(Final(ds)) && Coherent(log) && Run(hs, Generate(ds), es).log <= log
    ensures RoundsUsed(Generate(ds), Run(hs, Generate(ds), es))
  {
    if es != [] {
      var n, e := |es| - 1, es[|es| - 1];
      var st := Run(hs, Generate(ds), es[..n]);
      LogGrows(hs, Generate(ds), es, n);
      RunUsed(log, hs, ds, es[..n]);
      if e.Serve? && e.id in st.flights {
        if st.flights[e.id].ContextPacket? {
          CounterIsVisits(log, hs, ds, es[..n], e.id);
        }
        ServeUsed(hs, Generate(ds), st, e);
      }
    }
  }

  /** A packet that makes a pass after `c` others has made one after exactly `c`. */
  lemma {:induction false} EarlierPass(ids: seq<nat>, i: nat, c: nat) returns (j: nat)
    requires i < |ids| && c <= Network.Visits(ids[..i], ids[i])
    ensures j <= i && ids[j] == ids[i] && Network.Visits(ids[..j], ids[i]) == c
  {
    j := LastBelow(ids, i, ids[i], c);
  }

  lemma {:induction false} LastBelow(ids: seq<nat>, i: nat, id: nat, c: nat) returns (j: nat)
    requires i < |ids| && ids[i] == id && c <= Network.Visits(ids[..i], id)
    ensures j <= i && ids[j] == id && Network.Visits(ids[..j], id) == c
  {
    j := i;
    if c < Network.Visits(ids[..i], id) {
      var k := PreviousPass(ids, i, id);
      j := LastBelow(ids, k, id, c);
    }
  }

  lemma {:induction false} PreviousPass(ids: seq<nat>, i: nat, id: nat) returns (k: nat)
    requires i <= |ids| && Network.Visits(ids[..i], id) > 0
    ensures k < i && ids[k] == id && Network.Visits(ids[..k], id) == Network.Visits(ids[..i], id) - 1
  {
    assert ids[..i][..i - 1] == ids[..i - 1];
    if ids[i - 1] == id {
      k := i - 1;
    } else {
      k := PreviousPass(ids, i - 1, id);
    }
  }

  lemma {:induction false} UsesInRound(bs: seq<Block>, last: nat, m: string) returns (c: nat)
    requires RoundTouches(bs, last, m) > 0
    ensures c <= last && Uses(Branch(bs, c), m)
  {
    UsesTouches(Branch(bs, last), m);
    c := last;
    if !Uses(Branch(bs, last), m) {
      c := UsesInRound(bs, last - 1, m);
    }
  }

  /** A context packet that has made its last pass has used every monitor of the policy. */
  lemma {:induction false} AllUsed(p: Policy.Program, headers: seq<string>, ds: seq<Check>, hs: Hashes, es: seq<Event>,
                     i: nat, id: nat, k: FlowKey, m: string)
    requires SortedChecks(p, headers, ds) && NoDuplicates(headers) && DistinctNames(Final(ds)) && MonGroup(Lower(p), m) != []
    requires Owner(hs, Generate(ds), Run(hs, Generate(ds), es), i, id, k)
    ensures Used(Run(hs, Generate(ds), es).log, id, m)
  {
    var out, st := Generate(ds), Run(hs, Generate(ds), es);
    GeneratedSingleRound(p, headers, ds);
    RunCoherent(hs, out, es);
    RunUsed(st.log, hs, ds, es);
    MonitorTouchedOnce(p, headers, ds, m);
    ExecutedTouches(out.blocks, out.recirTimes, m);
    var c := UsesInRound(out.blocks, out.recirTimes, m);
    var j := EarlierPass(st.ids, i, c);
    PassesOf(st.log, hs, ds, es, j);
  }

  /** The passes of a context packet are context passes. */
  lemma {:induction false} PassesOf(log: seq<Use>, hs: Hashes, ds: seq<Check>, es: seq<Event>, j: nat)
    requires DistinctNames(Final(ds)) && Coherent(log) && Run(hs, Generate(ds), es).log <= log
    requires var st := Run(hs, Generate(ds), es); j < |st.ids| && st.ids[j] in st.born && st.born[st.ids[j]].ContextPacket?
    ensures var st := Run(hs, Generate(ds), es); j < |st.passes| && st.passes[j].ContextPass?
  {
    var q := Network.Run(hs, Generate(ds), AbsEvents(log, es));
    RunRefines(log, hs, ds, es);
    Network.RunKeeps(hs, Generate(ds), AbsEvents(log, es));
    assert Network.PassOk(Generate(ds), q, j);
  }

  /** The environment has the packet's headers and the flags its uses set. */
  ghost predicate Witnessed(env: Env, st: System, id: nat)
    requires id in st.born && st.born[id].ContextPacket?
  {
    env.hdr == st.born[id].hdr && forall j :: 0 <= j < |st.log| && st.log[j].id == id ==> env.active(st.log[j].mon) == st.log[j].active
  }

  lemma {:induction false} StatementMonitors(p: Policy.Program, i: nat)
    requires Accepted(p) && i < |p.stmts| && p.stmts[i].MonStmt?
    ensures MonGroup(Lower(p), p.stmts[i].mon) != []
  {
    var c := Lower(p)[i];
    MonGroupMembers(Lower(p), p.stmts[i].mon);
    assert c in Lower(p) && Reads(c, p.stmts[i].mon);
  }

  /** Environments that agree on the headers and on the policy's monitors give the same decision. */
  lemma SameDecision(p: Policy.Program, x: Env, y: Env, d: nat)
    requires x.hdr == y.hdr && forall i :: 0 <= i < |p.stmts| && p.stmts[i].MonStmt? ==> x.active(p.stmts[i].mon) == y.active(p.stmts[i].mon)
    ensures IsDecision(p, x, d) == IsDecision(p, y, d)
  {
    forall i | 0 <= i < |p.stmts| ensures StmtFires(p, p.stmts[i], x) == StmtFires(p, p.stmts[i], y) {
    }
  }

  /**
   In every interleaving, with the registers part of the switch and for a faithful policy: once a context packet has
   made its last pass and still owns its slot, the data packets of its address are treated as the policy decides for
   its headers and for the activity that its uses of the registers found.
   */
  lemma {:induction false} PolicyEnforced(p: Policy.Program, headers: seq<string>, ds: seq<Check>, hs: Hashes, es: seq<Event>,
                       i: nat, id: nat, k: FlowKey, resub: nat, env: Env, d: nat)
    requires SortedChecks(p, headers, ds) && NoDuplicates(headers) && DistinctNames(Final(ds)) && Faithful(Lower(p), headers)
    requires Owner(hs, Generate(ds), Run(hs, Generate(ds), es), i, id, k)
    requires Witnessed(env, Run(hs, Generate(ds), es), id) && IsDecision(p, env, d)
    ensures MissOutcome(hs, State(hs, Run(hs, Generate(ds), es).passes), k, resub) == Enforce(d)
  {
    var out, st := Generate(ds), Run(hs, Generate(ds), es);
    var seen := Env(st.born[id].hdr, Seen(st.log, id));
    GeneratedSingleRound(p, headers, ds);
    RunCoherent(hs, out, es);
    forall n | 0 <= n < |p.stmts| && p.stmts[n].MonStmt? ensures seen.active(p.stmts[n].mon) == env.active(p.stmts[n].mon) {
      StatementMonitors(p, n);
      AllUsed(p, headers, ds, hs, es, i, id, k, p.stmts[n].mon);
      var j :| 0 <= j < |st.log| && st.log[j].id == id && st.log[j].mon == p.stmts[n].mon;
      SawUse(st.log, j);
    }
    SameDecision(p, seen, env, d);
    OwnerDecides(p, headers, ds, hs, es, i, id, k, resub);
    CompilationExact(p, headers, ds);
    LowerDecision(p, seen, d);
    LowerDecision(p, seen, Decide(out, seen));
  }
}
