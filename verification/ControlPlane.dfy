/**
 The control plane's index allocator: the learning and the aging thread share the free list, the
 connection table and the decision registers, one call at a time in any order.
 */
module ControlPlane {
  import opened DataPlane
  import opened Sequences

  /** Where `poise_add` stands: an index has been popped, or has been inserted but its register not written. */
  datatype Learner = Learning | Popped(key: FlowKey, dec: nat, idx: nat) | Inserted(key: FlowKey, dec: nat, idx: nat) | LearnerDead

  /** Where `age_out` stands within one entry. */
  datatype Ager = Aging | Fetched(key: FlowKey, idx: nat) | Deleted(idx: nat) | Recycled(idx: nat) | AgerDead

  /** `lost` holds the indices popped for an insert that failed; `carried` the decisions context packets brought, by key. */
  datatype Plane = Plane(
    free: seq<nat>, conn: map<FlowKey, nat>, reg: seq<nat>, learner: Learner, ager: Ager,
    lost: set<nat>, carried: set<(FlowKey, nat)>)

  /** One call by a thread, or one context packet in the data plane; `ok` says whether the driver call succeeds. */
  datatype Event =
    | Context(key: FlowKey, dec: nat)
    | Pop(key: FlowKey, dec: nat)
    | Insert(ok: bool)
    | WriteDecision(ok: bool)
    | Fetch(key: FlowKey)
    | Delete(ok: bool)
    | Recycle
    | Reset(ok: bool)

  function Indices(n: nat): (s: seq<nat>)
    ensures |s| == n && forall i :: 0 <= i < n ==> s[i] == i
  {
    seq(n, i => i)
  }

  function Start(): Plane {
    Plane(Indices(CONN_SIZE), map[], Zeros(CONN_SIZE), Learning, Aging, {}, {})
  }

  function Write(reg: seq<nat>, i: nat, d: nat): (r: seq<nat>)
    ensures |r| == |reg|
  {
    if i < |reg| then reg[i := d] else reg
  }

  /** A call that its thread is not about to make leaves the state unchanged. A call that fails outside a handler ends its thread. */
  function Step(st: Plane, e: Event): Plane {
    match e
    case Context(k, d) =>
      st.(carried := st.carried + {(k, d)}, reg := if k in st.conn then Write(st.reg, st.conn[k], d) else st.reg)
    case Pop(k, d) =>
      if st.learner.Learning? && st.free != [] && (k, d) in st.carried then
        var n := |st.free| - 1;
        st.(free := st.free[..n], learner := Popped(k, d, st.free[n]))
      else st
    case Insert(ok) =>
      if !st.learner.Popped? then st
      else
        var Popped(k, d, i) := st.learner;
        if ok && k !in st.conn then st.(conn := st.conn[k := i], learner := Inserted(k, d, i))
        else st.(lost := st.lost + {i}, learner := Learning)
    case WriteDecision(ok) =>
      if !st.learner.Inserted? then st
      else if ok then st.(reg := Write(st.reg, st.learner.idx, st.learner.dec), learner := Learning)
      else st.(learner := LearnerDead)
    case Fetch(k) =>
      if !st.ager.Aging? then st
      else if k in st.conn then st.(ager := Fetched(k, st.conn[k]))
      else st.(ager := AgerDead)
    case Delete(ok) =>
      if !st.ager.Fetched? then st
      else if ok then st.(conn := st.conn - {st.ager.key}, ager := Deleted(st.ager.idx))
      else st.(ager := AgerDead)
    case Recycle =>
      if st.ager.Deleted? then st.(free := st.free + [st.ager.idx], ager := Recycled(st.ager.idx)) else st
    case Reset(ok) =>
      if st.ager.Recycled? then st.(reg := if ok then Write(st.reg, st.ager.idx, UNSEEN) else st.reg, ager := Aging) else st
  }

  function Run(st: Plane, es: seq<Event>): Plane {
    if es == [] then st else Step(Run(st, es[..|es| - 1]), es[|es| - 1])
  }

  // ----- the partition of the indices -----

  ghost predicate Live(st: Plane, i: nat) {
    exists k :: k in st.conn && st.conn[k] == i
  }

  function One(b: bool): nat { if b then 1 else 0 }

  /** In how many places index `i` is: free list, live connections, either thread's hands, lost. */
  ghost function Places(st: Plane, i: nat): nat {
    One(i in st.free) + One(Live(st, i)) + One(st.learner.Popped? && st.learner.idx == i) +
    One(st.ager.Deleted? && st.ager.idx == i) + One(i in st.lost)
  }

  ghost predicate Injective(m: map<FlowKey, nat>) {
    forall j, k :: j in m && k in m && m[j] == m[k] ==> j == k
  }

  /** Every index below 100000 is in exactly one place, no other is anywhere, and no place holds one twice. */
  ghost predicate Partition(st: Plane) {
    && (forall i: nat :: Places(st, i) == One(i < CONN_SIZE))
    && NoDuplicates(st.free) && Injective(st.conn)
  }

  /** Only the aging thread deletes, so what it fetched is still there. */
  ghost predicate Inv(st: Plane) {
    && Partition(st) && |st.reg| == CONN_SIZE
    && (st.ager.Fetched? ==> st.ager.key in st.conn && st.conn[st.ager.key] == st.ager.idx)
  }

  lemma SamePlaces(st: Plane, q: Plane)
    requires Inv(st) && NoDuplicates(q.free) && Injective(q.conn) && |q.reg| == CONN_SIZE
    requires forall i: nat :: Places(q, i) == Places(st, i)
    requires q.ager.Fetched? ==> q.ager.key in q.conn && q.conn[q.ager.key] == q.ager.idx
    ensures Inv(q)
  {
  }

  lemma {:induction false} PopKeeps(st: Plane, k: FlowKey, d: nat)
    requires Inv(st)
    ensures Inv(Step(st, Pop(k, d)))
  {
    var q := Step(st, Pop(k, d));
    if st.learner.Learning? && st.free != [] && (k, d) in st.carried {
      var n := |st.free| - 1;
      forall i: nat ensures Places(q, i) == Places(st, i) {
        assert st.free == q.free + [st.free[n]];
        assert Live(q, i) <==> Live(st, i);
      }
      SamePlaces(st, q);
    }
  }

  lemma {:induction false} InsertKeeps(st: Plane, ok: bool)
    requires Inv(st)
    ensures Inv(Step(st, Insert(ok)))
  {
    var q := Step(st, Insert(ok));
    if st.learner.Popped? {
      var Popped(k, d, i) := st.learner;
      assert Places(st, i) == One(i < CONN_SIZE);
      assert !Live(st, i) && i !in st.lost;
      forall j: nat ensures Places(q, j) == Places(st, j) {
        if ok && k !in st.conn {
          InsertLive(st.conn, q.conn, k, i, j);
          assert Live(q, j) <==> Live(st, j) || j == i;
        } else {
          assert Live(q, j) <==> Live(st, j);
        }
      }
      SamePlaces(st, q);
    }
  }

  lemma InsertLive(m: map<FlowKey, nat>, n: map<FlowKey, nat>, k: FlowKey, i: nat, j: nat)
    requires k !in m && n == m[k := i]
    ensures (exists x :: x in n && n[x] == j) <==> (exists x :: x in m && m[x] == j) || j == i
  {
    if x :| x in m && m[x] == j {
      assert x in n && n[x] == j;
    }
    assert k in n && n[k] == i;
  }

  lemma {:induction false} DeleteKeeps(st: Plane, ok: bool)
    requires Inv(st)
    ensures Inv(Step(st, Delete(ok)))
  {
    var q := Step(st, Delete(ok));
    if st.ager.Fetched? {
      var k, i := st.ager.key, st.ager.idx;
      forall j: nat ensures Places(q, j) == Places(st, j) {
        assert Live(st, i);
        if ok {
          assert Live(q, j) <==> Live(st, j) && j != i by {
            if x :| x in st.conn && st.conn[x] == j && j != i {
              assert x in q.conn && q.conn[x] == j;
            }
          }
        } else {
          assert Live(q, j) <==> Live(st, j);
        }
      }
      SamePlaces(st, q);
    }
  }

  lemma {:induction false} RecycleKeeps(st: Plane)
    requires Inv(st)
    ensures Inv(Step(st, Recycle))
  {
    var q := Step(st, Recycle);
    if st.ager.Deleted? {
      var i := st.ager.idx;
      assert Places(st, i) == One(i < CONN_SIZE);
      assert i !in st.free;
      forall j: nat ensures Places(q, j) == Places(st, j) {
        assert Live(q, j) <==> Live(st, j);
      }
      SamePlaces(st, q);
    }
  }

  /** Events that move no index. */
  lemma {:induction false} StillKeeps(st: Plane, e: Event)
    requires Inv(st) && (e.Context? || e.WriteDecision? || e.Fetch? || e.Reset?)
    ensures Inv(Step(st, e))
  {
    var q := Step(st, e);
    assert q.conn == st.conn && q.free == st.free && q.lost == st.lost;
    forall i: nat ensures Places(q, i) == Places(st, i) {
      assert Live(q, i) <==> Live(st, i);
    }
    SamePlaces(st, q);
  }

  lemma StepKeeps(st: Plane, e: Event)
    requires Inv(st)
    ensures Inv(Step(st, e))
  {
    match e
    case Pop(k, d) => PopKeeps(st, k, d);
    case Insert(ok) => InsertKeeps(st, ok);
    case Delete(ok) => DeleteKeeps(st, ok);
    case Recycle => RecycleKeeps(st);
    case _ => StillKeeps(st, e);
  }

  lemma StartInv()
    ensures Inv(Start())
  {
    var st := Start();
    forall i: nat ensures Places(st, i) == One(i < CONN_SIZE) {
      if i < CONN_SIZE {
        assert st.free[i] == i;
      }
    }
  }

  /** In every interleaving of the two threads the indices stay partitioned. */
  lemma {:induction false} PartitionKept(es: seq<Event>)
    ensures Inv(Run(Start(), es))
  {
    if es == [] {
      StartInv();
    } else {
      PartitionKept(es[..|es| - 1]);
      StepKeeps(Run(Start(), es[..|es| - 1]), es[|es| - 1]);
    }
  }

  /** Hence no two live connections share an index, and no live index is free. */
  lemma NoSharedIndex(es: seq<Event>, j: FlowKey, k: FlowKey)
    requires j in Run(Start(), es).conn && k in Run(Start(), es).conn && j != k
    ensures var st := Run(Start(), es); st.conn[j] != st.conn[k] && st.conn[j] < CONN_SIZE && st.conn[j] !in st.free
  {
    var st := Run(Start(), es);
    PartitionKept(es);
    assert Places(st, st.conn[j]) == One(st.conn[j] < CONN_SIZE);
    assert Live(st, st.conn[j]);
  }

  // ----- whose decision a data packet reads -----

  /** A decision that key `k` may see: unseen, or one its own context packets carried. */
  predicate Own(st: Plane, k: FlowKey, d: nat) {
    d == UNSEEN || (k, d) in st.carried
  }

  /** Every data packet that hits the connection table reads a decision of its own. */
  ghost predicate Isolated(st: Plane) {
    forall k :: k in st.conn && st.conn[k] < |st.reg| ==> Own(st, k, st.reg[st.conn[k]])
  }

  /** The decisions in the learner's hands were carried by the key they are for. */
  ghost predicate Honest(st: Plane) {
    (st.learner.Popped? || st.learner.Inserted?) ==> (st.learner.key, st.learner.dec) in st.carried
  }

  /** The index whose register a thread is about to write belongs to that thread's key or to nobody else. */
  ghost predicate Targeted(st: Plane) {
    st.learner.Inserted? ==> forall k :: k in st.conn && st.conn[k] == st.learner.idx ==> k == st.learner.key
  }

  lemma {:induction false} StepHonest(st: Plane, e: Event)
    requires Inv(st) && Honest(st) && Targeted(st)
    ensures Honest(Step(st, e)) && Targeted(Step(st, e))
  {
    if e.Insert? && st.learner.Popped? {
      var i := st.learner.idx;
      assert Places(st, i) == One(i < CONN_SIZE);
      assert !Live(st, i);
    }
  }

  lemma {:induction false} RunHonest(es: seq<Event>)
    ensures Honest(Run(Start(), es)) && Targeted(Run(Start(), es))
  {
    if es != [] {
      RunHonest(es[..|es| - 1]);
      PartitionKept(es[..|es| - 1]);
      StepHonest(Run(Start(), es[..|es| - 1]), es[|es| - 1]);
    }
  }

  /** The state after the first `n` events. */
  function At(es: seq<Event>, n: nat): Plane
    requires n <= |es|
  {
    Run(Start(), es[..n])
  }

  ghost predicate AlwaysIsolated(es: seq<Event>) {
    forall n :: 0 <= n <= |es| ==> Isolated(At(es, n))
  }

  // ----- who wrote a register last -----

  /** Notes the key on whose behalf an event writes a register, and forgets it when the register is reset. */
  function Note(st: Plane, w: map<nat, FlowKey>, e: Event): map<nat, FlowKey> {
    match e
    case Context(k, _) => if k in st.conn then w[st.conn[k] := k] else w
    case WriteDecision(ok) => if st.learner.Inserted? && ok then w[st.learner.idx := st.learner.key] else w
    case Reset(ok) => if st.ager.Recycled? && ok then w - {st.ager.idx} else w
    case _ => w
  }

  /** For each register written since its last reset, the key it was written for. */
  function Writers(es: seq<Event>): map<nat, FlowKey> {
    if es == [] then map[]
    else Note(Run(Start(), es[..|es| - 1]), Writers(es[..|es| - 1]), es[|es| - 1])
  }

  /** Registers hold what their last writer's context packets carried, or nothing. */
  ghost predicate Traced(st: Plane, w: map<nat, FlowKey>) {
    && |st.reg| == CONN_SIZE
    && forall i :: 0 <= i < CONN_SIZE ==> if i in w then (w[i], st.reg[i]) in st.carried else st.reg[i] == UNSEEN
  }

  lemma LiveBound(st: Plane, k: FlowKey)
    requires Inv(st) && k in st.conn
    ensures st.conn[k] < CONN_SIZE
  {
    assert Live(st, st.conn[k]);
    assert Places(st, st.conn[k]) == One(st.conn[k] < CONN_SIZE);
  }

  lemma {:induction false} StepTraced(st: Plane, w: map<nat, FlowKey>, e: Event)
    requires Inv(st) && Honest(st) && Traced(st, w)
    ensures Traced(Step(st, e), Note(st, w, e))
  {
    if e.Context? && e.key in st.conn {
      LiveBound(st, e.key);
    }
  }

  lemma {:induction false} RunTraced(es: seq<Event>)
    ensures Traced(Run(Start(), es), Writers(es))
  {
    if es != [] {
      var init := es[..|es| - 1];
      RunTraced(init);
      RunHonest(init);
      PartitionKept(init);
      StepTraced(Run(Start(), init), Writers(init), es[|es| - 1]);
    }
  }

  /** The registers of live connections were last written for those connections. */
  ghost predicate OwnWriters(st: Plane, w: map<nat, FlowKey>) {
    forall k :: k in st.conn && st.conn[k] in w ==> w[st.conn[k]] == k
  }

  lemma OwnIsIsolated(st: Plane, w: map<nat, FlowKey>)
    requires Traced(st, w) && OwnWriters(st, w)
    ensures Isolated(st)
  {
    forall k | k in st.conn && st.conn[k] < |st.reg| ensures Own(st, k, st.reg[st.conn[k]]) {
      assert st.conn[k] in w ==> w[st.conn[k]] == k;
    }
  }

  /** The event puts a key over a register last written for another key. */
  ghost predicate Stranger(st: Plane, w: map<nat, FlowKey>, e: Event) {
    && e.Insert? && e.ok && st.learner.Popped? && st.learner.key !in st.conn
    && st.learner.idx in w && w[st.learner.idx] != st.learner.key
  }

  lemma {:induction false} StepOwn(st: Plane, w: map<nat, FlowKey>, e: Event)
    requires Inv(st) && Targeted(st) && OwnWriters(st, w)
    ensures OwnWriters(Step(st, e), Note(st, w, e)) <==> !Stranger(st, w, e)
  {
    var q, v := Step(st, e), Note(st, w, e);
    if Stranger(st, w, e) {
      assert st.learner.key in q.conn && q.conn[st.learner.key] in v;
    } else {
      forall k | k in q.conn && q.conn[k] in v ensures v[q.conn[k]] == k {
        if e.Context? && e.key in st.conn && st.conn[e.key] == st.conn[k] {
          assert Injective(st.conn);
        }
      }
    }
  }

  ghost predicate StrangerAt(es: seq<Event>, n: nat)
    requires n < |es|
  {
    Stranger(At(es, n), Writers(es[..n]), es[n])
  }

  /** No event of the run puts a key over a register last written for another key. */
  ghost predicate NoStrangers(es: seq<Event>) {
    forall n :: 0 <= n < |es| ==> !StrangerAt(es, n)
  }

  lemma {:induction false} StrangerPrefix(es: seq<Event>, m: nat, n: nat)
    requires n < m <= |es|
    ensures StrangerAt(es[..m], n) == StrangerAt(es, n)
  {
    assert es[..m][..n] == es[..n];
  }

  lemma {:induction false} StrangersInit(es: seq<Event>)
    requires es != []
    ensures NoStrangers(es) <==> NoStrangers(es[..|es| - 1]) && !StrangerAt(es, |es| - 1)
  {
    var m := |es| - 1;
    forall n | 0 <= n < m ensures StrangerAt(es, n) == StrangerAt(es[..m], n) {
      StrangerPrefix(es, m, n);
    }
  }

  lemma {:induction false} RunOwn(es: seq<Event>)
    requires NoStrangers(es)
    ensures OwnWriters(Run(Start(), es), Writers(es))
  {
    if es != [] {
      var init := es[..|es| - 1];
      StrangersInit(es);
      RunOwn(init);
      PartitionKept(init);
      RunHonest(init);
      StepOwn(Run(Start(), init), Writers(init), es[|es| - 1]);
    }
  }

  lemma PrefixNoStrangers(es: seq<Event>, n: nat)
    requires NoStrangers(es) && n <= |es|
    ensures NoStrangers(es[..n])
  {
    forall m | 0 <= m < n ensures !StrangerAt(es[..n], m) {
      StrangerPrefix(es, n, m);
    }
  }

  /** Without strangers every data packet reads its own decisions, throughout and in every interleaving. */
  lemma NoStrangersIsolated(es: seq<Event>)
    requires NoStrangers(es)
    ensures AlwaysIsolated(es)
  {
    forall n | 0 <= n <= |es| ensures Isolated(At(es, n)) {
      PrefixNoStrangers(es, n);
      RunOwn(es[..n]);
      RunTraced(es[..n]);
      OwnIsIsolated(At(es, n), Writers(es[..n]));
    }
  }

  // ----- the condition is needed -----

  /** Decisions tell the keys apart: none is unseen, and no two keys carry the same. */
  ghost predicate Telling(es: seq<Event>) {
    && (forall i :: 0 <= i < |es| && es[i].Context? ==> es[i].dec != UNSEEN)
    && (forall i, j :: 0 <= i < |es| && 0 <= j < |es| && es[i].Context? && es[j].Context? && es[i].dec == es[j].dec ==> es[i].key == es[j].key)
  }

  lemma {:induction false} CarriedBy(es: seq<Event>, k: FlowKey, d: nat)
    requires (k, d) in Run(Start(), es).carried
    ensures exists i :: 0 <= i < |es| && es[i] == Context(k, d)
  {
    var m := |es| - 1;
    if es[m] != Context(k, d) {
      CarriedBy(es[..m], k, d);
      var i :| 0 <= i < m && es[..m][i] == Context(k, d);
      assert es[i] == Context(k, d);
    } else {
      assert es[m] == Context(k, d);
    }
  }

  /** In a telling run two keys never carry the same decision. */
  lemma CarriedTells(es: seq<Event>, j: FlowKey, k: FlowKey, d: nat)
    requires Telling(es) && (j, d) in Run(Start(), es).carried && (k == j || (k, d) in Run(Start(), es).carried)
    ensures j == k && d != UNSEEN
  {
    CarriedBy(es, j, d);
    if k != j {
      CarriedBy(es, k, d);
    }
  }

  lemma TellingOwn(es: seq<Event>, k: FlowKey)
    requires Telling(es) && k in Run(Start(), es).conn && Isolated(Run(Start(), es))
    ensures var i, w := Run(Start(), es).conn[k], Writers(es); i in w ==> w[i] == k
  {
    var st, w := Run(Start(), es), Writers(es);
    PartitionKept(es);
    RunTraced(es);
    LiveBound(st, k);
    var i := st.conn[k];
    if i in w {
      assert Own(st, k, st.reg[i]);
      CarriedTells(es, w[i], w[i], st.reg[i]);
      CarriedTells(es, w[i], k, st.reg[i]);
    }
  }

  lemma TellingPrefix(es: seq<Event>, n: nat)
    requires Telling(es) && n <= |es|
    ensures Telling(es[..n])
  {
  }

  lemma StrangerLeaks(es: seq<Event>, n: nat)
    requires Telling(es) && n < |es| && StrangerAt(es, n)
    ensures !Isolated(At(es, n + 1))
  {
    var st := At(es, n);
    assert es[..n + 1][..n] == es[..n];
    TellingPrefix(es, n + 1);
    if Isolated(At(es, n + 1)) {
      TellingOwn(es[..n + 1], st.learner.key);
    }
  }

  /**
   In every interleaving, data packets read only their own decisions throughout when no key is inserted over a
   register last written for another key; and only then, when decisions tell the keys apart.
   */
  lemma IsolationExact(es: seq<Event>)
    ensures NoStrangers(es) ==> AlwaysIsolated(es)
    ensures Telling(es) ==> (AlwaysIsolated(es) <==> NoStrangers(es))
  {
    if NoStrangers(es) {
      NoStrangersIsolated(es);
    } else if Telling(es) {
      var n :| 0 <= n < |es| && StrangerAt(es, n);
      StrangerLeaks(es, n);
      assert !Isolated(At(es, n + 1));
    }
  }

  // ----- which schedules are safe -----

  /**
   What may go wrong between the threads: an index is inserted after it was recycled and before its register is
   reset; a reset fails; the learner writes a decision after its connection was aged out and the register reset.
   */
  datatype Hazard = EarlyInsert | FailedReset | LateWrite

  function Hazards(st: Plane, e: Event): set<Hazard> {
    match e
    case Insert(ok) =>
      if ok && st.learner.Popped? && st.learner.key !in st.conn && st.ager == Recycled(st.learner.idx) then {EarlyInsert} else {}
    case Reset(ok) => if !ok && st.ager.Recycled? then {FailedReset} else {}
    case WriteDecision(ok) =>
      if ok && st.learner.Inserted? && st.learner.idx in st.free && st.ager != Recycled(st.learner.idx) then {LateWrite} else {}
    case _ => {}
  }

  /** The hazards a run meets. */
  function Met(es: seq<Event>): set<Hazard> {
    if es == [] then {} else Met(es[..|es| - 1]) + Hazards(Run(Start(), es[..|es| - 1]), es[|es| - 1])
  }

  /** A register that is free or in the learner's hands has no writer, unless its reset is still to come. */
  ghost predicate Clean(st: Plane, w: map<nat, FlowKey>) {
    && (forall i :: i in st.free && i in w ==> st.ager == Recycled(i))
    && (st.learner.Popped? && st.learner.idx in w ==> st.ager == Recycled(st.learner.idx))
  }

  lemma ContextClean(st: Plane, w: map<nat, FlowKey>, k: FlowKey, d: nat)
    requires Inv(st) && Clean(st, w)
    ensures Clean(Step(st, Context(k, d)), Note(st, w, Context(k, d)))
  {
    if k in st.conn {
      var j := st.conn[k];
      assert Live(st, j);
      assert Places(st, j) == One(j < CONN_SIZE);
    }
  }

  lemma ResetClean(st: Plane, w: map<nat, FlowKey>)
    requires Clean(st, w)
    ensures Clean(Step(st, Reset(true)), Note(st, w, Reset(true)))
  {
  }

  lemma {:induction false} StepClean(st: Plane, w: map<nat, FlowKey>, e: Event)
    requires Inv(st) && Clean(st, w) && Hazards(st, e) == {}
    ensures Clean(Step(st, e), Note(st, w, e)) && !Stranger(st, w, e)
  {
    match e
    case Context(k, d) => ContextClean(st, w, k, d);
    case Reset(ok) =>
      if ok {
        ResetClean(st, w);
      } else {
        assert st.ager.Recycled? ==> FailedReset in Hazards(st, e);
      }
    case Insert(ok) =>
      assert Stranger(st, w, e) ==> EarlyInsert in Hazards(st, e);
    case WriteDecision(ok) =>
      assert ok && st.learner.Inserted? && st.learner.idx in st.free && st.ager != Recycled(st.learner.idx) ==> LateWrite in Hazards(st, e);
    case _ =>
  }

  lemma {:induction false} SafeRun(es: seq<Event>)
    requires Met(es) == {}
    ensures NoStrangers(es) && Clean(Run(Start(), es), Writers(es))
  {
    if es != [] {
      var m := |es| - 1;
      assert Met(es[..m]) <= Met(es) && Hazards(Run(Start(), es[..m]), es[m]) <= Met(es);
      SafeRun(es[..m]);
      PartitionKept(es[..m]);
      StepClean(Run(Start(), es[..m]), Writers(es[..m]), es[m]);
      StrangersInit(es);
    }
  }

  /** In every interleaving that meets none of the three hazards, data packets read only their own decisions throughout. */
  lemma SafeSchedule(es: seq<Event>)
    requires Met(es) == {}
    ensures AlwaysIsolated(es)
  {
    SafeRun(es);
    NoStrangersIsolated(es);
  }

  // ----- a locking discipline -----

  /** No index is popped while a reset is pending, resets succeed, and no key is aged out while its decision is still to be written. */
  predicate Disciplined(st: Plane, e: Event) {
    match e
    case Pop(_, _) => !st.ager.Recycled?
    case Reset(ok) => ok
    case Fetch(k) => !(st.learner.Inserted? && st.learner.key == k)
    case _ => true
  }

  ghost predicate AlwaysDisciplined(es: seq<Event>) {
    forall n :: 0 <= n < |es| ==> Disciplined(At(es, n), es[n])
  }

  /** What the discipline keeps apart. */
  ghost predicate Ordered(st: Plane) {
    && (st.learner.Popped? ==> st.ager != Recycled(st.learner.idx))
    && (st.learner.Inserted? ==>
          && st.learner.key in st.conn && st.conn[st.learner.key] == st.learner.idx
          && !(st.ager.Fetched? && st.ager.key == st.learner.key))
  }

  lemma {:induction false} StepOrdered(st: Plane, e: Event)
    requires Inv(st) && Ordered(st) && Disciplined(st, e)
    ensures Ordered(Step(st, e)) && Hazards(st, e) == {}
  {
    if st.learner.Popped? {
      assert Places(st, st.learner.idx) == One(st.learner.idx < CONN_SIZE);
    }
    if st.learner.Inserted? {
      assert Live(st, st.learner.idx);
      assert Places(st, st.learner.idx) == One(st.learner.idx < CONN_SIZE);
    }
  }

  lemma {:induction false} DisciplinedMeetsNone(es: seq<Event>)
    requires AlwaysDisciplined(es)
    ensures Ordered(Run(Start(), es)) && Met(es) == {}
  {
    if es != [] {
      var m := |es| - 1;
      forall n | 0 <= n < m ensures Disciplined(At(es[..m], n), es[..m][n]) {
        assert es[..m][..n] == es[..n];
      }
      DisciplinedMeetsNone(es[..m]);
      PartitionKept(es[..m]);
      assert Disciplined(At(es, m), es[m]);
      StepOrdered(Run(Start(), es[..m]), es[m]);
    }
  }

  /** Hence the discipline is enough, in every interleaving that follows it. */
  lemma DisciplinedIsolated(es: seq<Event>)
    requires AlwaysDisciplined(es)
    ensures AlwaysIsolated(es)
  {
    DisciplinedMeetsNone(es);
    SafeSchedule(es);
  }

  // ----- enforcement of what is read -----

  /** Without strangers a connection table hit forwards a packet only on a decision that context packets of its own key carried. */
  lemma ForwardedIsOwn(es: seq<Event>, k: FlowKey)
    requires NoStrangers(es) && k in Run(Start(), es).conn
    ensures var st := Run(Start(), es);
            && st.conn[k] < |st.reg|
            && (Enforce(st.reg[st.conn[k]]).Forwarded? ==> (k, st.reg[st.conn[k]]) in st.carried)
  {
    PartitionKept(es);
    RunOwn(es);
    RunTraced(es);
    LiveBound(Run(Start(), es), k);
  }

  /**
   With the constants of p4/poise.p4 a register that was reset and not written since forwards the packet: there a hit
   forwards only on a decision of its own key exactly when the register has been written, or the key has carried 0.
   */
  lemma ClearedForwardsExact(es: seq<Event>, k: FlowKey)
    requires NoStrangers(es) && k in Run(Start(), es).conn
    ensures var st := Run(Start(), es);
            && st.conn[k] < |st.reg|
            && ((EnforceWith(POISE, st.reg[st.conn[k]]).Forwarded? ==> (k, st.reg[st.conn[k]]) in st.carried)
                <==> st.conn[k] in Writers(es) || (k, UNSEEN) in st.carried)
  {
    PartitionKept(es);
    RunOwn(es);
    RunTraced(es);
    LiveBound(Run(Start(), es), k);
  }

  // ----- whole calls -----

  /** A complete `poise_add`, a complete `age_out` of one entry, or a context packet, with nothing in between. */
  datatype Whole =
    | Add(key: FlowKey, dec: nat, insertOk: bool, writeOk: bool)
    | AgeOut(key: FlowKey, deleteOk: bool, resetOk: bool)
    | Packet(key: FlowKey, dec: nat)

  function Calls(w: Whole): seq<Event> {
    match w
    case Add(k, d, insertOk, writeOk) => [Pop(k, d), Insert(insertOk), WriteDecision(writeOk)]
    case AgeOut(k, deleteOk, resetOk) => [Fetch(k), Delete(deleteOk), Recycle, Reset(resetOk)]
    case Packet(k, d) => [Context(k, d)]
  }

  function RunWhole(st: Plane, ws: seq<Whole>): Plane {
    if ws == [] then st else Run(RunWhole(st, ws[..|ws| - 1]), Calls(ws[|ws| - 1]))
  }

  function AllCalls(ws: seq<Whole>): seq<Event> {
    if ws == [] then [] else AllCalls(ws[..|ws| - 1]) + Calls(ws[|ws| - 1])
  }

  lemma {:induction false} RunAppend(st: Plane, a: seq<Event>, b: seq<Event>)
    ensures Run(st, a + b) == Run(Run(st, a), b)
  {
    if b == [] {
      assert a + b == a;
    } else {
      assert (a + b)[..|a + b| - 1] == a + b[..|b| - 1];
      RunAppend(st, a, b[..|b| - 1]);
    }
  }

  lemma {:induction false} WholeIsRun(ws: seq<Whole>)
    ensures RunWhole(Start(), ws) == Run(Start(), AllCalls(ws))
  {
    if ws != [] {
      WholeIsRun(ws[..|ws| - 1]);
      RunAppend(Start(), AllCalls(ws[..|ws| - 1]), Calls(ws[|ws| - 1]));
    }
  }

  lemma RunThree(st: Plane, a: Event, b: Event, c: Event)
    ensures Run(st, [a]) == Step(st, a) && Run(st, [a, b]) == Step(Step(st, a), b)
    ensures Run(st, [a, b, c]) == Step(Step(Step(st, a), b), c)
  {
    assert [a, b, c][..2] == [a, b] && [a, b][..1] == [a] && [a][..0] == [];
  }

  lemma {:induction false} RunFour(st: Plane, a: Event, b: Event, c: Event, d: Event)
    ensures Run(st, [a, b, c, d]) == Step(Step(Step(Step(st, a), b), c), d)
  {
    assert [a, b, c, d][..3] == [a, b, c];
    RunThree(st, a, b, c);
  }

  lemma {:induction false} MetAppend(es: seq<Event>, e: Event)
    ensures Run(Start(), es + [e]) == Step(Run(Start(), es), e)
    ensures Met(es + [e]) == Met(es) + Hazards(Run(Start(), es), e)
  {
    assert (es + [e])[..|es|] == es;
  }

  /** Between whole calls neither thread is in the middle of something. */
  predicate Idle(st: Plane) {
    (st.learner.Learning? || st.learner.LearnerDead?) && (st.ager.Aging? || st.ager.AgerDead?)
  }

  /** The calls of an add, one state after the other. */
  lemma {:induction false} AddSteps(st: Plane, k: FlowKey, d: nat, insertOk: bool, writeOk: bool)
    requires Inv(st) && Idle(st)
    ensures var a := Step(st, Pop(k, d)); var b := Step(a, Insert(insertOk));
            && Hazards(st, Pop(k, d)) == {} && Hazards(a, Insert(insertOk)) == {} && Hazards(b, WriteDecision(writeOk)) == {}
            && Idle(Step(b, WriteDecision(writeOk)))
  {
    var a := Step(st, Pop(k, d));
    var b := Step(a, Insert(insertOk));
    StepKeeps(st, Pop(k, d));
    StepKeeps(a, Insert(insertOk));
    if b.learner.Inserted? {
      assert b.learner.key in b.conn && b.conn[b.learner.key] == b.learner.idx;
      assert Live(b, b.learner.idx);
      assert Places(b, b.learner.idx) == One(b.learner.idx < CONN_SIZE);
    }
  }

  lemma {:induction false} MetThree(es: seq<Event>, x: Event, y: Event, z: Event)
    ensures var st := Run(Start(), es); var a := Step(st, x); var b := Step(a, y);
            && Run(Start(), es + [x, y, z]) == Step(b, z)
            && Met(es + [x, y, z]) == Met(es) + Hazards(st, x) + Hazards(a, y) + Hazards(b, z)
  {
    var p := es + [x];
    var q := p + [y];
    ThreeMore(es, x, y, z);
    MetAppend(es, x);
    MetAppend(p, y);
    MetAppend(q, z);
  }

  lemma {:induction false} ThreeMore(es: seq<Event>, x: Event, y: Event, z: Event)
    ensures es + [x, y, z] == es + [x] + [y] + [z]
  {
  }

  lemma {:induction false} AddMeetsNone(es: seq<Event>, k: FlowKey, d: nat, insertOk: bool, writeOk: bool)
    requires Met(es) == {} && Idle(Run(Start(), es))
    ensures var fs := es + Calls(Add(k, d, insertOk, writeOk)); Met(fs) == {} && Idle(Run(Start(), fs))
  {
    PartitionKept(es);
    AddSteps(Run(Start(), es), k, d, insertOk, writeOk);
    MetThree(es, Pop(k, d), Insert(insertOk), WriteDecision(writeOk));
  }

  lemma {:induction false} AgeOutSteps(st: Plane, k: FlowKey, deleteOk: bool)
    requires Idle(st)
    ensures var a := Step(st, Fetch(k)); var b := Step(a, Delete(deleteOk)); var c := Step(b, Recycle);
            && Hazards(st, Fetch(k)) == {} && Hazards(a, Delete(deleteOk)) == {} && Hazards(b, Recycle) == {} && Hazards(c, Reset(true)) == {}
            && Idle(Step(c, Reset(true)))
  {
  }

  lemma {:induction false} AgeOutMeetsNone(es: seq<Event>, k: FlowKey, deleteOk: bool)
    requires Met(es) == {} && Idle(Run(Start(), es))
    ensures var fs := es + Calls(Whole.AgeOut(k, deleteOk, true)); Met(fs) == {} && Idle(Run(Start(), fs))
  {
    var x := es + [Fetch(k), Delete(deleteOk), Recycle];
    AgeOutSteps(Run(Start(), es), k, deleteOk);
    MetThree(es, Fetch(k), Delete(deleteOk), Recycle);
    MetAppend(x, Reset(true));
    assert es + Calls(Whole.AgeOut(k, deleteOk, true)) == x + [Reset(true)];
  }

  lemma {:induction false} WholeMeetsNone(ws: seq<Whole>)
    requires forall i :: 0 <= i < |ws| && ws[i].AgeOut? ==> ws[i].resetOk
    ensures Met(AllCalls(ws)) == {} && Idle(Run(Start(), AllCalls(ws)))
  {
    if ws != [] {
      var es := AllCalls(ws[..|ws| - 1]);
      WholeMeetsNone(ws[..|ws| - 1]);
      match ws[|ws| - 1]
      case Packet(k, d) => MetAppend(es, Context(k, d));
      case Add(k, d, insertOk, writeOk) => AddMeetsNone(es, k, d, insertOk, writeOk);
      case AgeOut(k, deleteOk, _) => AgeOutMeetsNone(es, k, deleteOk);
    }
  }

  /** When adds and age-outs are not interrupted and resets succeed, data packets read only their own decisions, whatever else fails. */
  lemma WholeCallsIsolated(ws: seq<Whole>)
    requires forall i :: 0 <= i < |ws| && ws[i].AgeOut? ==> ws[i].resetOk
    ensures RunWhole(Start(), ws) == Run(Start(), AllCalls(ws)) && AlwaysIsolated(AllCalls(ws))
  {
    WholeIsRun(ws);
    WholeMeetsNone(ws);
    SafeSchedule(AllCalls(ws));
  }

  // ----- each hazard alone leaks a decision -----

  /** The parts of a state that the runs below are about; `i` is the index in question. */
  predicate Snap(st: Plane, learner: Learner, ager: Ager, conn: map<FlowKey, nat>, carried: set<(FlowKey, nat)>, d: nat, freed: bool) {
    var i := CONN_SIZE - 1;
    && st.learner == learner && st.ager == ager && st.conn == conn && st.carried == carried
    && |st.reg| == CONN_SIZE && st.reg[i] == d && st.free == Indices(CONN_SIZE)[..i] + if freed then [i] else []
  }

  const LAST: nat := CONN_SIZE - 1

  lemma StartSnap()
    ensures Snap(Start(), Learning, Aging, map[], {}, UNSEEN, true)
  {
    assert Indices(CONN_SIZE) == Indices(CONN_SIZE)[..LAST] + [LAST];
  }

  /** `a` gets a connection; its decision is still to be written. */
  lemma {:induction false} Connected(a: FlowKey) returns (es: seq<Event>)
    ensures Met(es) == {} && Snap(Run(Start(), es), Inserted(a, 5, LAST), Aging, map[a := LAST], {(a, 5)}, UNSEEN, false)
  {
    StartSnap();
    var x: seq<Event> := [] + [Context(a, 5)];
    MetAppend([], Context(a, 5));
    assert Snap(Run(Start(), x), Learning, Aging, map[], {(a, 5)}, UNSEEN, true);
    MetAppend(x, Pop(a, 5));
    assert Snap(Run(Start(), x + [Pop(a, 5)]), Popped(a, 5, LAST), Aging, map[], {(a, 5)}, UNSEEN, false);
    MetAppend(x + [Pop(a, 5)], Insert(true));
    es := x + [Pop(a, 5)] + [Insert(true)];
  }

  /** The decision is written and the connection aged out, up to the reset of its register. */
  lemma AgedOut(a: FlowKey) returns (es: seq<Event>)
    ensures Met(es) == {} && Snap(Run(Start(), es), Learning, Recycled(LAST), map[], {(a, 5)}, 5, true)
  {
    var x := Connected(a);
    MetAppend(x, WriteDecision(true));
    var y := x + [WriteDecision(true)];
    assert Snap(Run(Start(), y), Learning, Aging, map[a := LAST], {(a, 5)}, 5, false) && Met(y) == {} by {
      assert LAST !in Run(Start(), x).free;
    }
    es := Forgotten(a, y, Learning, 5);
  }

  /** Ages out the connection of `a`. */
  lemma {:induction false} Forgotten(a: FlowKey, x: seq<Event>, learner: Learner, d: nat) returns (es: seq<Event>)
    requires Met(x) == {} && Snap(Run(Start(), x), learner, Aging, map[a := LAST], {(a, 5)}, d, false)
    ensures Met(es) == {} && Snap(Run(Start(), es), learner, Recycled(LAST), map[], {(a, 5)}, d, true)
  {
    MetAppend(x, Fetch(a));
    var y := x + [Fetch(a)];
    MetAppend(y, Delete(true));
    var z := y + [Delete(true)];
    assert Snap(Run(Start(), z), learner, Deleted(LAST), map[], {(a, 5)}, d, false) by {
      assert map[a := LAST] - {a} == map[];
    }
    MetAppend(z, Recycle);
    es := z + [Recycle];
  }

  /** Then `b` gets the index while its register still holds the decision of `a`. */
  lemma {:induction false} Reused(a: FlowKey, b: FlowKey, x: seq<Event>, ager: Ager) returns (es: seq<Event>)
    requires a != b && Snap(Run(Start(), x), Learning, ager, map[], {(a, 5)}, 5, true)
    ensures Met(es) == Met(x) + (if ager == Recycled(LAST) then {EarlyInsert} else {}) && !Isolated(Run(Start(), es))
  {
    MetAppend(x, Context(b, 15));
    var y := x + [Context(b, 15)];
    MetAppend(y, Pop(b, 15));
    var z := y + [Pop(b, 15)];
    assert Snap(Run(Start(), z), Popped(b, 15, LAST), ager, map[], {(a, 5), (b, 15)}, 5, false);
    MetAppend(z, Insert(true));
    es := z + [Insert(true)];
    assert Run(Start(), es).conn[b] == LAST && Run(Start(), es).reg[LAST] == 5;
  }

  /** Each of the three hazards, met alone, can hand the decision of one connection to another. */
  lemma {:induction false} EveryHazardLeaks(h: Hazard, a: FlowKey, b: FlowKey) returns (es: seq<Event>)
    requires a != b
    ensures Met(es) == {h} && !Isolated(Run(Start(), es))
  {
    match h
    case EarlyInsert =>
      var x := AgedOut(a);
      es := Reused(a, b, x, Recycled(LAST));
    case FailedReset =>
      var x := AgedOut(a);
      MetAppend(x, Reset(false));
      es := Reused(a, b, x + [Reset(false)], Aging);
    case LateWrite =>
      var c := Connected(a);
      var x := Forgotten(a, c, Inserted(a, 5, LAST), UNSEEN);
      es := LateWritten(a, b, x);
  }

  lemma {:induction false} LateWritten(a: FlowKey, b: FlowKey, x: seq<Event>) returns (es: seq<Event>)
    requires a != b && Met(x) == {} && Snap(Run(Start(), x), Inserted(a, 5, LAST), Recycled(LAST), map[], {(a, 5)}, UNSEEN, true)
    ensures Met(es) == {LateWrite} && !Isolated(Run(Start(), es))
  {
    MetAppend(x, Reset(true));
    var y := x + [Reset(true)];
    assert Snap(Run(Start(), y), Inserted(a, 5, LAST), Aging, map[], {(a, 5)}, UNSEEN, true);
    MetAppend(y, WriteDecision(true));
    assert LAST in Run(Start(), y).free by {
      assert Run(Start(), y).free[LAST] == LAST;
    }
    es := Reused(a, b, y + [WriteDecision(true)], Aging);
  }

  /** Between an insert and the write of its decision, p4/poise.p4 forwards the packets of the new connection. */
  lemma UnwrittenIsForwarded(a: FlowKey) returns (es: seq<Event>)
    ensures Met(es) == {} && a in Run(Start(), es).conn
    ensures var st := Run(Start(), es);
            && st.conn[a] < |st.reg| && EnforceWith(POISE, st.reg[st.conn[a]]).Forwarded? && (a, st.reg[st.conn[a]]) !in st.carried
  {
    es := Connected(a);
  }

  // ----- the allocator object -----

  class Allocator {
    var freeIdxs: seq<nat>
    var connTab: map<FlowKey, nat>
    var decisions: seq<nat>
    var learning: bool
    var aging: bool
    ghost var lost: set<nat>
    ghost var carried: set<(FlowKey, nat)>

    /** The state between two whole calls. */
    ghost function View(): Plane
      reads this
    {
      Plane(freeIdxs, connTab, decisions, if learning then Learning else LearnerDead, if aging then Aging else AgerDead, lost, carried)
    }

    constructor ()
      ensures View() == Start().(free := [])
    {
      freeIdxs, connTab, decisions, learning, aging := [], map[], Zeros(CONN_SIZE), true, true;
      lost, carried := {}, {};
    }

    method Setup()
      requires freeIdxs == []
      modifies this`freeIdxs
      ensures freeIdxs == Indices(CONN_SIZE)
    {
      var i := 0;
      while i < CONN_SIZE
        invariant i <= CONN_SIZE && freeIdxs == Indices(i)
      {
        freeIdxs := freeIdxs + [i];
        i := i + 1;
      }
    }

    method RecycleIdx(idx: nat)
      modifies this`freeIdxs
      ensures freeIdxs == old(freeIdxs) + [idx]
    {
      freeIdxs := freeIdxs + [idx];
    }

    /** Adds a connection under a free index; the two flags say whether the driver calls succeed. */
    method PoiseAdd(k: FlowKey, d: nat, insertOk: bool, writeOk: bool)
      requires learning && (k, d) in carried && |decisions| == CONN_SIZE
      modifies this
      ensures View() == Run(old(View()), Calls(Add(k, d, insertOk, writeOk)))
    {
      ghost var before := View();
      RunThree(before, Pop(k, d), Insert(insertOk), WriteDecision(writeOk));
      if |freeIdxs| == 0 {
        return;
      }
      var idx := freeIdxs[|freeIdxs| - 1];
      freeIdxs := freeIdxs[..|freeIdxs| - 1];
      if !insertOk || k in connTab {
        lost := lost + {idx};
        return;
      }
      connTab := connTab[k := idx];
      if writeOk {
        if idx < |decisions| {
          decisions := decisions[idx := d];
        }
      } else {
        learning := false;
      }
    }

    /**
     Removes aged entries one by one, recycling each index before its register is reset. An entry that is not in the
     table, or a delete that fails, ends the thread; a reset that fails is passed over.
     */
    method AgeOut(entries: seq<FlowKey>, deleteOk: seq<bool>, resetOk: seq<bool>) returns (done: nat)
      requires |decisions| == CONN_SIZE && aging && |deleteOk| == |resetOk| == |entries|
      modifies this
      ensures done <= |entries| && View() == RunWhole(old(View()), Aged(entries, deleteOk, resetOk, done))
      ensures aging ==> done == |entries|
      ensures !aging ==> done > 0 && (entries[done - 1] !in connTab || !deleteOk[done - 1])
    {
      done := 0;
      while done < |entries| && aging
        invariant done <= |entries| && |decisions| == CONN_SIZE
        invariant View() == RunWhole(old(View()), Aged(entries, deleteOk, resetOk, done))
        invariant !aging ==> done > 0 && (entries[done - 1] !in connTab || !deleteOk[done - 1])
        decreases |entries| - done
      {
        ghost var ws := Aged(entries, deleteOk, resetOk, done + 1);
        assert ws[..done] == Aged(entries, deleteOk, resetOk, done);
        AgeOutEntry(entries[done], deleteOk[done], resetOk[done]);
        done := done + 1;
      }
    }

    method AgeOutEntry(k: FlowKey, deleteOk: bool, resetOk: bool)
      requires |decisions| == CONN_SIZE && aging
      modifies this
      ensures View() == Run(old(View()), Calls(Whole.AgeOut(k, deleteOk, resetOk))) && |decisions| == CONN_SIZE
      ensures aging <==> k in old(connTab) && deleteOk
      ensures k in connTab <==> k in old(connTab) && !deleteOk
    {
      RunFour(View(), Fetch(k), Delete(deleteOk), Recycle, Reset(resetOk));
      if k !in connTab {
        aging := false;
        return;
      }
      var idx := connTab[k];
      if !deleteOk {
        aging := false;
        return;
      }
      connTab := connTab - {k};
      RecycleIdx(idx);
      if resetOk && idx < |decisions| {
        decisions := decisions[idx := UNSEEN];
      }
    }
  }

  function Aged(entries: seq<FlowKey>, deleteOk: seq<bool>, resetOk: seq<bool>, n: nat): (ws: seq<Whole>)
    requires n <= |entries| == |deleteOk| == |resetOk|
    ensures |ws| == n
  {
    seq(n, i requires 0 <= i < n => Whole.AgeOut(entries[i], deleteOk[i], resetOk[i]))
  }
}
