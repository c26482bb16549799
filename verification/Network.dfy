/**
 A switch running a generated program: packets in flight, recirculated or resubmitted between the
 passes of other packets, in every interleaving.
 */
module Network {
  import opened Policy
  import opened Emission
  import opened Optimizer
  import opened Compiler
  import opened Correctness
  import opened DataPlane
  import opened Runs
  import opened Sequences

  /** A packet between two passes: a context packet carries its counter and decision, a data packet its resubmissions. */
  datatype Flight =
    | ContextFlight(key: FlowKey, env: Env, counter: nat, dec: nat)
    | DataFlight(key: FlowKey, resub: nat)

  /** `ids[i]` is the packet that made `passes[i]`; `born` holds each packet as it arrived. */
  datatype System = System(passes: seq<Pass>, ids: seq<nat>, flights: map<nat, Flight>, born: map<nat, Flight>)

  /** A packet arrives, or one in flight makes its next pass. */
  datatype Event = Arrive(id: nat, flight: Flight) | Serve(id: nat, tstamp: nat, conn: Option<nat>)

  predicate Fresh(f: Flight) {
    if f.ContextFlight? then f.counter == 0 && f.dec == 0 else f.resub == 0
  }

  /** EvaluateContext in the pass with the flight's counter. */
  function Evaluate(out: Output, f: Flight): nat
    requires f.ContextFlight?
  {
    RunTables(out.entries, Branch(out.blocks, f.counter), f.env, f.dec)
  }

  function PassOf(out: Output, f: Flight, tstamp: nat): Pass {
    match f
    case ContextFlight(k, _, _, _) => ContextPass(k, tstamp, Evaluate(out, f))
    case DataFlight(k, n) => DataPass(k, tstamp, n)
  }

  /** The flight after a pass, if the packet comes around again; `conn` is the decision read on a connection table hit. */
  function Next(hs: Hashes, out: Output, r: Registers, f: Flight, conn: Option<nat>): Option<Flight>
    requires DataPlane.Sized(r)
  {
    match f
    case ContextFlight(k, env, c, _) => if c < out.recirTimes then Some(ContextFlight(k, env, c + 1, Evaluate(out, f))) else None
    case DataFlight(k, n) =>
      var o := if conn.Some? then Enforce(conn.value) else MissOutcome(hs, r, k, n);
      if o.Resubmitted? then Some(DataFlight(k, o.resub)) else None
  }

  function Step(hs: Hashes, out: Output, st: System, e: Event): System {
    match e
    case Arrive(id, f) =>
      if id in st.born || !Fresh(f) then st
      else st.(flights := st.flights[id := f], born := st.born[id := f])
    case Serve(id, t, conn) =>
      if id !in st.flights then st
      else
        var f := st.flights[id];
        var n := Next(hs, out, State(hs, st.passes), f, conn);
        st.(passes := st.passes + [PassOf(out, f, t)], ids := st.ids + [id],
            flights := if n.Some? then st.flights[id := n.value] else st.flights - {id})
  }

  function Run(hs: Hashes, out: Output, es: seq<Event>): System {
    if es == [] then System([], [], map[], map[]) else Step(hs, out, Run(hs, out, es[..|es| - 1]), es[|es| - 1])
  }

  /** How many of the passes were made by packet `id`. */
  function Visits(ids: seq<nat>, id: nat): nat {
    if ids == [] then 0 else Visits(ids[..|ids| - 1], id) + if ids[|ids| - 1] == id then 1 else 0
  }

  // ----- what every run keeps -----

  /** The decision a context packet carries when its counter is `c`. */
  function Carried(out: Output, env: Env, c: nat): nat {
    if c == 0 then 0 else PassDecision(out, env, c - 1)
  }

  /** A flight agrees with its packet as it arrived and with the passes it has made. */
  ghost predicate FlightOk(out: Output, b: Flight, f: Flight, visits: nat) {
    match f
    case ContextFlight(k, env, c, d) =>
      b == ContextFlight(k, env, 0, 0) && c == visits <= out.recirTimes && d == Carried(out, env, c)
    case DataFlight(k, n) => b == DataFlight(k, 0) && n == visits <= MAX_RESUB
  }

  /** The most passes a packet can make. */
  function Limit(out: Output, b: Flight): nat {
    if b.ContextFlight? then out.recirTimes + 1 else MAX_RESUB + 1
  }

  ghost predicate PassOk(out: Output, st: System, i: nat)
    requires i < |st.passes| == |st.ids|
  {
    && st.ids[i] in st.born
    && var b, p := st.born[st.ids[i]], st.passes[i];
       && b.key == p.key && (b.ContextFlight? <==> p.ContextPass?)
       && (b.ContextFlight? ==> p.dec == PassDecision(out, b.env, Visits(st.ids[..i], st.ids[i])))
  }

  ghost predicate Inv(out: Output, st: System) {
    && |st.passes| == |st.ids| && st.flights.Keys <= st.born.Keys
    && (forall id :: id in st.flights ==> FlightOk(out, st.born[id], st.flights[id], Visits(st.ids, id)))
    && (forall id :: id in st.born ==> Visits(st.ids, id) <= Limit(out, st.born[id]))
    && (forall id :: id !in st.born ==> Visits(st.ids, id) == 0)
    && (forall i :: 0 <= i < |st.passes| ==> PassOk(out, st, i))
  }

  lemma {:induction false} RunTablesAppend(es: seq<Entry>, a: seq<Apply>, b: seq<Apply>, env: Env, d: nat)
    ensures RunTables(es, a + b, env, d) == RunTables(es, b, env, RunTables(es, a, env, d))
  {
    if b == [] {
      assert a + b == a;
    } else {
      var n := |b| - 1;
      assert (a + b)[..|a + b| - 1] == a + b[..n];
      RunTablesAppend(es, a, b[..n], env, d);
    }
  }

  /** One more pass extends the decision of the passes before. */
  lemma {:induction false} EvaluateContinues(out: Output, f: Flight)
    requires f.ContextFlight? && f.dec == Carried(out, f.env, f.counter)
    ensures Evaluate(out, f) == PassDecision(out, f.env, f.counter)
  {
    var c := f.counter;
    var before := if c == 0 then [] else Executed(out.blocks, c - 1);
    assert Executed(out.blocks, c) == before + Branch(out.blocks, c);
    RunTablesAppend(out.entries, before, Branch(out.blocks, c), f.env, 0);
  }

  lemma VisitsSnoc(ids: seq<nat>, id: nat, k: nat)
    ensures Visits(ids + [id], k) == Visits(ids, k) + if id == k then 1 else 0
  {
    assert (ids + [id])[..|ids|] == ids;
  }

  lemma {:induction false} ArriveKeeps(hs: Hashes, out: Output, st: System, id: nat, f: Flight)
    requires Inv(out, st)
    ensures Inv(out, Step(hs, out, st, Arrive(id, f)))
  {
    var q := Step(hs, out, st, Arrive(id, f));
    if id !in st.born && Fresh(f) {
      forall i | 0 <= i < |q.passes| ensures PassOk(out, q, i) {
        assert PassOk(out, st, i);
      }
    }
  }

  lemma OldPassesKept(out: Output, st: System, q: System)
    requires Inv(out, st) && q.born == st.born && |q.passes| == |q.ids|
    requires st.passes <= q.passes && st.ids <= q.ids
    ensures forall i :: 0 <= i < |st.passes| ==> PassOk(out, q, i)
  {
    forall i | 0 <= i < |st.passes| ensures PassOk(out, q, i) {
      assert PassOk(out, st, i);
      assert q.ids[..i] == st.ids[..i];
    }
  }

  lemma ServedFlight(hs: Hashes, out: Output, r: Registers, b: Flight, f: Flight, visits: nat, conn: Option<nat>)
    requires DataPlane.Sized(r) && FlightOk(out, b, f, visits)
    ensures Next(hs, out, r, f, conn).Some? ==> FlightOk(out, b, Next(hs, out, r, f, conn).value, visits + 1)
    ensures visits + 1 <= Limit(out, b)
  {
    if f.ContextFlight? {
      EvaluateContinues(out, f);
    }
  }

  lemma {:induction false} ServeKeeps(hs: Hashes, out: Output, st: System, id: nat, t: nat, conn: Option<nat>)
    requires Inv(out, st)
    ensures Inv(out, Step(hs, out, st, Serve(id, t, conn)))
  {
    if id in st.flights {
      var f, q := st.flights[id], Step(hs, out, st, Serve(id, t, conn));
      assert FlightOk(out, st.born[id], f, Visits(st.ids, id));
      ServedFlight(hs, out, State(hs, st.passes), st.born[id], f, Visits(st.ids, id), conn);
      forall k ensures Visits(q.ids, k) == Visits(st.ids, k) + if id == k then 1 else 0 {
        VisitsSnoc(st.ids, id, k);
      }
      OldPassesKept(out, st, q);
      assert q.ids[..|st.ids|] == st.ids;
      assert PassOk(out, q, |st.passes|) by {
        if f.ContextFlight? {
          EvaluateContinues(out, f);
        }
      }
    }
  }

  lemma {:induction false} RunKeeps(hs: Hashes, out: Output, es: seq<Event>)
    ensures Inv(out, Run(hs, out, es))
  {
    if es != [] {
      var st := Run(hs, out, es[..|es| - 1]);
      RunKeeps(hs, out, es[..|es| - 1]);
      match es[|es| - 1]
      case Arrive(id, f) => ArriveKeeps(hs, out, st, id, f);
      case Serve(id, t, conn) => ServeKeeps(hs, out, st, id, t, conn);
    }
  }

  /** Every data packet is gone after three resubmissions, every context packet after one pass per round. */
  lemma PassesBounded(hs: Hashes, out: Output, es: seq<Event>, id: nat)
    requires id in Run(hs, out, es).born
    ensures var st := Run(hs, out, es);
            && Visits(st.ids, id) <= Limit(out, st.born[id])
            && (Visits(st.ids, id) == Limit(out, st.born[id]) ==> id !in st.flights)
  {
    RunKeeps(hs, out, es);
    var st := Run(hs, out, es);
    if id in st.flights {
      assert FlightOk(out, st.born[id], st.flights[id], Visits(st.ids, id));
    }
  }

  // ----- enforcement -----

  /** Pass `i` is the latest context pass in its slot. */
  predicate Latest(hs: Hashes, ps: seq<Pass>, i: nat) {
    && i < |ps| && ps[i].ContextPass?
    && forall j :: i < j < |ps| && ps[j].ContextPass? ==> Slot(hs, ps[j].key) != Slot(hs, ps[i].key)
  }

  lemma {:induction false} LatestIsLastWriter(hs: Hashes, ps: seq<Pass>, i: nat)
    requires Latest(hs, ps, i)
    ensures LastWriter(hs, ps, Slot(hs, ps[i].key)) == Some(ps[i])
  {
    if i < |ps| - 1 {
      LatestIsLastWriter(hs, ps[..|ps| - 1], i);
    }
  }

  /**
   In every interleaving, a data packet that finds its own address in the cache is enforced by the decision that
   context packet carried in its latest pass.
   */
  lemma {:induction false} EnforcedFromContext(hs: Hashes, out: Output, es: seq<Event>, i: nat, k: FlowKey, resub: nat)
    requires Latest(hs, Run(hs, out, es).passes, i)
    requires var w := Run(hs, out, es).passes[i].key; Slot(hs, w) == Slot(hs, k) && w.ip == k.ip
    ensures var st := Run(hs, out, es);
            && |st.ids| == |st.passes| && st.ids[i] in st.born && st.born[st.ids[i]].ContextFlight?
            && MissOutcome(hs, State(hs, st.passes), k, resub) ==
                 Enforce(PassDecision(out, st.born[st.ids[i]].env, Visits(st.ids[..i], st.ids[i])))
  {
    var st := Run(hs, out, es);
    RunKeeps(hs, out, es);
    assert PassOk(out, st, i);
    LatestIsLastWriter(hs, st.passes, i);
    CacheIsLastWriter(hs, st.passes, Slot(hs, k));
  }

  /**
   For a faithful policy: once a context packet has made its last pass and still owns its slot, the data packets of
   its address are treated as the policy decides.
   */
  lemma {:induction false} PolicyEnforced(p: Policy.Program, headers: seq<string>, ds: seq<Check>, hs: Hashes, es: seq<Event>,
                       i: nat, k: FlowKey, resub: nat, d: nat)
    requires SortedChecks(p, headers, ds) && NoDuplicates(headers) && DistinctNames(Final(ds)) && Faithful(Lower(p), headers)
    requires Latest(hs, Run(hs, Generate(ds), es).passes, i)
    requires var w := Run(hs, Generate(ds), es).passes[i].key; Slot(hs, w) == Slot(hs, k) && w.ip == k.ip
    requires var st := Run(hs, Generate(ds), es);
             && |st.ids| == |st.passes| && st.ids[i] in st.born && st.born[st.ids[i]].ContextFlight?
             && Visits(st.ids[..i], st.ids[i]) == Generate(ds).recirTimes
             && IsDecision(p, st.born[st.ids[i]].env, d)
    ensures MissOutcome(hs, State(hs, Run(hs, Generate(ds), es).passes), k, resub) == Enforce(d)
  {
    var out, st := Generate(ds), Run(hs, Generate(ds), es);
    var env := st.born[st.ids[i]].env;
    EnforcedFromContext(hs, out, es, i, k, resub);
    CompilationExact(p, headers, ds);
    LowerDecision(p, env, d);
    LowerDecision(p, env, Decide(out, env));
  }
}
