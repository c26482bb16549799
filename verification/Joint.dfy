/**
 Data plane and control plane together: packets look their key up in the connection table the two
 threads maintain, context packets write its registers, and the learning thread adds what their
 digests carried.
 */
module Joint {
  import opened Policy
  import opened Compiler
  import opened Correctness
  import opened DataPlane
  import Network
  import ControlPlane

  datatype World = World(net: Network.System, plane: ControlPlane.Plane)

  /** A packet arrives, one in flight makes its next pass, or a control thread makes its next call. */
  datatype Event = Arrive(id: nat, flight: Network.Flight) | Serve(id: nat, tstamp: nat) | Call(call: ControlPlane.Event)

  /** The decision a data packet of key `k` reads on a connection table hit. */
  function Read(plane: ControlPlane.Plane, k: FlowKey): Option<nat> {
    if k in plane.conn && plane.conn[k] < |plane.reg| then Some(plane.reg[plane.conn[k]]) else None
  }

  /** The calls of the control plane; context packets are those of the data plane. */
  predicate Control(e: ControlPlane.Event) {
    !e.Context?
  }

  /** The data plane event, with what the connection table says at that moment. */
  function NetEvents(w: World, e: Event): seq<Network.Event> {
    match e
    case Arrive(id, f) => [Network.Arrive(id, f)]
    case Serve(id, t) => if id in w.net.flights then [Network.Serve(id, t, Read(w.plane, w.net.flights[id].key))] else []
    case Call(_) => []
  }

  /** What the event is to the control plane: a context pass writes the register of its connection. */
  function PlaneEvents(out: Output, w: World, e: Event): seq<ControlPlane.Event> {
    match e
    case Arrive(_, _) => []
    case Serve(id, _) =>
      if id in w.net.flights && w.net.flights[id].ContextFlight?
      then [ControlPlane.Context(w.net.flights[id].key, Network.Evaluate(out, w.net.flights[id]))] else []
    case Call(c) => if Control(c) then [c] else []
  }

  function StepAll(hs: Hashes, out: Output, st: Network.System, es: seq<Network.Event>): Network.System {
    if es == [] then st else Network.Step(hs, out, StepAll(hs, out, st, es[..|es| - 1]), es[|es| - 1])
  }

  function Step(hs: Hashes, out: Output, w: World, e: Event): World {
    World(StepAll(hs, out, w.net, NetEvents(w, e)), ControlPlane.Run(w.plane, PlaneEvents(out, w, e)))
  }

  function Run(hs: Hashes, out: Output, es: seq<Event>): World {
    if es == [] then World(Network.Run(hs, out, []), ControlPlane.Start())
    else Step(hs, out, Run(hs, out, es[..|es| - 1]), es[|es| - 1])
  }

  // ----- both halves are runs of their own -----

  function NetTrace(hs: Hashes, out: Output, es: seq<Event>): seq<Network.Event> {
    if es == [] then []
    else NetTrace(hs, out, es[..|es| - 1]) + NetEvents(Run(hs, out, es[..|es| - 1]), es[|es| - 1])
  }

  function PlaneTrace(hs: Hashes, out: Output, es: seq<Event>): seq<ControlPlane.Event> {
    if es == [] then []
    else PlaneTrace(hs, out, es[..|es| - 1]) + PlaneEvents(out, Run(hs, out, es[..|es| - 1]), es[|es| - 1])
  }

  lemma {:induction false} NetAppend(hs: Hashes, out: Output, a: seq<Network.Event>, b: seq<Network.Event>)
    ensures Network.Run(hs, out, a + b) == StepAll(hs, out, Network.Run(hs, out, a), b)
  {
    if b == [] {
      assert a + b == a;
    } else {
      var n := |b| - 1;
      assert (a + b)[..|a + b| - 1] == a + b[..n];
      NetAppend(hs, out, a, b[..n]);
    }
  }

  lemma {:induction false} Projections(hs: Hashes, out: Output, es: seq<Event>)
    ensures Run(hs, out, es).net == Network.Run(hs, out, NetTrace(hs, out, es))
    ensures Run(hs, out, es).plane == ControlPlane.Run(ControlPlane.Start(), PlaneTrace(hs, out, es))
  {
    if es != [] {
      var init, e := es[..|es| - 1], es[|es| - 1];
      var w := Run(hs, out, init);
      Projections(hs, out, init);
      NetAppend(hs, out, NetTrace(hs, out, init), NetEvents(w, e));
      ControlPlane.RunAppend(ControlPlane.Start(), PlaneTrace(hs, out, init), PlaneEvents(out, w, e));
    }
  }

  // ----- decisions come from passes -----

  /** Pass `i` of a context packet of key `k` carried the decision `d`. */
  predicate CarriedAt(ps: seq<Pass>, i: nat, k: FlowKey, d: nat) {
    i < |ps| && ps[i].ContextPass? && ps[i].key == k && ps[i].dec == d
  }

  ghost predicate FromPass(ps: seq<Pass>, k: FlowKey, d: nat) {
    exists i: nat :: CarriedAt(ps, i, k, d)
  }

  ghost predicate AllFromPasses(w: World) {
    forall k, d :: (k, d) in w.plane.carried ==> FromPass(w.net.passes, k, d)
  }

  lemma FromPassMore(ps: seq<Pass>, qs: seq<Pass>, k: FlowKey, d: nat)
    requires ps <= qs && FromPass(ps, k, d)
    ensures FromPass(qs, k, d)
  {
    var i: nat :| CarriedAt(ps, i, k, d);
    assert CarriedAt(qs, i, k, d);
  }

  lemma StepOne(hs: Hashes, out: Output, st: Network.System, e: Network.Event, p: ControlPlane.Plane, c: ControlPlane.Event)
    ensures StepAll(hs, out, st, [e]) == Network.Step(hs, out, st, e) && ControlPlane.Run(p, [c]) == ControlPlane.Step(p, c)
  {
    assert [e][..0] == [] && [c][..0] == [];
  }

  lemma ControlKeeps(p: ControlPlane.Plane, c: ControlPlane.Event)
    requires Control(c)
    ensures ControlPlane.Step(p, c).carried == p.carried
  {
  }

  lemma {:induction false} ServeFromPasses(hs: Hashes, out: Output, w: World, id: nat, t: nat)
    requires AllFromPasses(w) && id in w.net.flights
    ensures AllFromPasses(Step(hs, out, w, Serve(id, t)))
  {
    var f, q := w.net.flights[id], Step(hs, out, w, Serve(id, t));
    StepOne(hs, out, w.net, Network.Serve(id, t, Read(w.plane, f.key)), w.plane,
            if f.ContextFlight? then ControlPlane.Context(f.key, Network.Evaluate(out, f)) else ControlPlane.Recycle);
    forall k, d | (k, d) in q.plane.carried ensures FromPass(q.net.passes, k, d) {
      if (k, d) in w.plane.carried {
        FromPassMore(w.net.passes, q.net.passes, k, d);
      } else {
        assert CarriedAt(q.net.passes, |w.net.passes|, k, d);
      }
    }
  }

  lemma {:induction false} RunFromPasses(hs: Hashes, out: Output, es: seq<Event>)
    ensures AllFromPasses(Run(hs, out, es))
  {
    if es != [] {
      var w, e := Run(hs, out, es[..|es| - 1]), es[|es| - 1];
      RunFromPasses(hs, out, es[..|es| - 1]);
      match e
      case Arrive(id, f) => StepOne(hs, out, w.net, Network.Arrive(id, f), w.plane, ControlPlane.Recycle);
      case Serve(id, t) =>
        if id in w.net.flights {
          ServeFromPasses(hs, out, w, id, t);
        }
      case Call(c) =>
        if Control(c) {
          StepOne(hs, out, w.net, Network.Serve(0, 0, None), w.plane, c);
          ControlKeeps(w.plane, c);
        }
    }
  }

  // ----- enforcement on a table hit -----

  /** The decision in which a context packet of key `k` ended its pass `i`, by what its packet arrived with. */
  ghost predicate DecidedAt(out: Output, st: Network.System, i: nat, k: FlowKey, d: nat) {
    && CarriedAt(st.passes, i, k, d) && i < |st.ids| && st.ids[i] in st.born && st.born[st.ids[i]].ContextFlight?
    && st.born[st.ids[i]].key == k && d == PassDecision(out, st.born[st.ids[i]].env, Network.Visits(st.ids[..i], st.ids[i]))
  }

  /**
   In every joint interleaving in which no key is inserted over a register last written for another key: a data packet
   that hits the connection table is forwarded only on a decision that the generated program reached in a pass of a
   context packet of the same key.
   */
  lemma {:induction false} HitForwardsOwn(hs: Hashes, out: Output, es: seq<Event>, k: FlowKey, d: nat)
    requires ControlPlane.NoStrangers(PlaneTrace(hs, out, es))
    requires Read(Run(hs, out, es).plane, k) == Some(d) && Enforce(d).Forwarded?
    ensures exists i: nat :: DecidedAt(out, Run(hs, out, es).net, i, k, d)
  {
    var w, st := Run(hs, out, es), Run(hs, out, es).net;
    Projections(hs, out, es);
    ControlPlane.ForwardedIsOwn(PlaneTrace(hs, out, es), k);
    RunFromPasses(hs, out, es);
    var i: nat :| CarriedAt(st.passes, i, k, d);
    Network.RunKeeps(hs, out, NetTrace(hs, out, es));
    assert Network.PassOk(out, st, i);
    assert DecidedAt(out, st, i, k, d);
  }

  /** In particular in every joint interleaving that meets none of the three hazards between the threads. */
  lemma {:induction false} SafeHitForwardsOwn(hs: Hashes, out: Output, es: seq<Event>, k: FlowKey, d: nat)
    requires ControlPlane.Met(PlaneTrace(hs, out, es)) == {}
    requires Read(Run(hs, out, es).plane, k) == Some(d) && Enforce(d).Forwarded?
    ensures exists i: nat :: DecidedAt(out, Run(hs, out, es).net, i, k, d)
  {
    ControlPlane.SafeRun(PlaneTrace(hs, out, es));
    HitForwardsOwn(hs, out, es, k, d);
  }
}
