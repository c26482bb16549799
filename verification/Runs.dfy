/**
 Whole runs of the data plane: what the cache and the Bloom filter hold after any sequence of
 passes, in terms of the passes alone.
 */
module Runs {
  import opened Policy
  import opened DataPlane

  /** The registers after a sequence of passes from boot. */
  function State(hs: Hashes, ps: seq<Pass>): (r: Registers)
    ensures Sized(r)
  {
    if ps == [] then Boot() else After(hs, State(hs, ps[..|ps| - 1]), ps[|ps| - 1])
  }

  /** The latest context pass that hashed to slot `s`. */
  function LastWriter(hs: Hashes, ps: seq<Pass>, s: nat): (w: Option<Pass>)
    ensures w.Some? ==> w.value in ps && w.value.ContextPass? && Slot(hs, w.value.key) == s
  {
    if ps == [] then None
    else
      var p := ps[|ps| - 1];
      if p.ContextPass? && Slot(hs, p.key) == s then Some(p) else LastWriter(hs, ps[..|ps| - 1], s)
  }

  /** Slot `s` holds all five fields of one pass, or is as at boot. */
  predicate Holds(r: Registers, s: nat, w: Option<Pass>)
    requires Sized(r) && s < CACHE_SIZE
  {
    match w
    case None => r.ts[s] == r.ip[s] == r.port[s] == r.proto[s] == r.dec[s] == 0
    case Some(p) => p.ContextPass? && r.ts[s] == p.tstamp && CachedKey(r, s) == p.key && r.dec[s] == p.dec
  }

  /** The five cache registers are, slot by slot, the fields of the last writer: they never mix passes. */
  lemma {:induction false} CacheIsLastWriter(hs: Hashes, ps: seq<Pass>, s: nat)
    requires s < CACHE_SIZE
    ensures Holds(State(hs, ps), s, LastWriter(hs, ps, s))
  {
    if ps != [] {
      CacheIsLastWriter(hs, ps[..|ps| - 1], s);
    }
  }

  // ----- default deny -----

  /**
   A data packet without a connection entry is forwarded exactly when the last context pass in its slot came from
   its address with a forwarding decision.
   */
  lemma ForwardedExact(hs: Hashes, ps: seq<Pass>, k: FlowKey, resub: nat, d: nat)
    ensures MissOutcome(hs, State(hs, ps), k, resub) == Forwarded(d) <==>
              (&& LastWriter(hs, ps, Slot(hs, k)).Some?
               && LastWriter(hs, ps, Slot(hs, k)).value.key.ip == k.ip
               && LastWriter(hs, ps, Slot(hs, k)).value.dec == d
               && UNSEEN < d < DROP)
  {
    CacheIsLastWriter(hs, ps, Slot(hs, k));
  }

  /** Forwarding needs an earlier context pass of the same address and slot that stored a decision other than unseen and drop. */
  lemma DefaultDeny(hs: Hashes, ps: seq<Pass>, k: FlowKey, resub: nat)
    requires MissOutcome(hs, State(hs, ps), k, resub).Forwarded?
    ensures exists p :: p in ps && p.ContextPass? && Slot(hs, p.key) == Slot(hs, k) && p.key.ip == k.ip && UNSEEN < p.dec < DROP
  {
    var d := MissOutcome(hs, State(hs, ps), k, resub).dec;
    ForwardedExact(hs, ps, k, resub, d);
  }

  /** A packet whose slot belongs to another address is never forwarded. */
  lemma CollisionNeverForwards(hs: Hashes, ps: seq<Pass>, k: FlowKey, resub: nat)
    requires LastWriter(hs, ps, Slot(hs, k)).Some? && LastWriter(hs, ps, Slot(hs, k)).value.key.ip != k.ip
    ensures !MissOutcome(hs, State(hs, ps), k, resub).Forwarded?
  {
    if MissOutcome(hs, State(hs, ps), k, resub).Forwarded? {
      ForwardedExact(hs, ps, k, resub, MissOutcome(hs, State(hs, ps), k, resub).dec);
    }
  }

  // ----- the Bloom filter -----

  /** Pass `i` evicts key `k`: it takes the slot of a drop decision stored for `k` under another address. */
  ghost predicate Evicts(hs: Hashes, ps: seq<Pass>, i: nat, k: FlowKey)
    requires i < |ps|
  {
    && ps[i].ContextPass?
    && var w := LastWriter(hs, ps[..i], Slot(hs, ps[i].key));
       w.Some? && w.value.dec == DROP && w.value.key == k && k.ip != ps[i].key.ip
  }

  ghost predicate Evicted(hs: Hashes, ps: seq<Pass>, k: FlowKey) {
    exists i :: 0 <= i < |ps| && Evicts(hs, ps, i, k)
  }

  /** The last pass evicts key `k`. */
  ghost predicate JustEvicted(hs: Hashes, ps: seq<Pass>, k: FlowKey)
    requires ps != []
  {
    Evicts(hs, ps, |ps| - 1, k)
  }

  lemma EvictedSnoc(hs: Hashes, ps: seq<Pass>, k: FlowKey)
    requires ps != []
    ensures Evicted(hs, ps, k) <==> Evicted(hs, ps[..|ps| - 1], k) || JustEvicted(hs, ps, k)
  {
    var n := |ps| - 1;
    forall i | 0 <= i < n ensures Evicts(hs, ps, i, k) <==> Evicts(hs, ps[..n], i, k) {
      assert ps[..n][..i] == ps[..i];
    }
    if Evicted(hs, ps[..n], k) {
      var i :| 0 <= i < n && Evicts(hs, ps[..n], i, k);
      assert Evicts(hs, ps, i, k);
    }
  }

  /** Cell `c` of a filter register is explained by the evictions so far. */
  ghost predicate Explained(hs: Hashes, ps: seq<Pass>, h: FlowKey -> nat, bf: seq<nat>, c: nat)
    requires |bf| == BF_SIZE && c < BF_SIZE
  {
    (bf[c] == 1 <==> exists k :: Evicted(hs, ps, k) && Cell(h, k) == c) && (bf[c] == 0 || bf[c] == 1)
  }

  /** How one register changes: it is untouched, or the cell of the one key just evicted is set. */
  ghost predicate Marks(hs: Hashes, ps: seq<Pass>, h: FlowKey -> nat, bf: seq<nat>, bf': seq<nat>)
    requires ps != [] && |bf| == BF_SIZE
  {
    || (bf' == bf && forall k :: !JustEvicted(hs, ps, k))
    || (exists k :: (&& JustEvicted(hs, ps, k) && bf' == bf[Cell(h, k) := 1]
                     && forall j :: JustEvicted(hs, ps, j) ==> j == k))
  }

  /** A pass evicts a key exactly when it overwrites that key's drop decision, and then no other key. */
  lemma EvictionSeen(hs: Hashes, ps: seq<Pass>)
    requires ps != []
    ensures var p, r := ps[|ps| - 1], State(hs, ps[..|ps| - 1]); var s := Slot(hs, p.key);
            if p.ContextPass? && r.ip[s] != p.key.ip && r.dec[s] == DROP
            then forall k :: JustEvicted(hs, ps, k) <==> k == CachedKey(r, s)
            else forall k :: !JustEvicted(hs, ps, k)
  {
    CacheIsLastWriter(hs, ps[..|ps| - 1], Slot(hs, ps[|ps| - 1].key));
  }

  lemma {:induction false} StepMarks(hs: Hashes, ps: seq<Pass>)
    requires ps != []
    ensures var r, q := State(hs, ps[..|ps| - 1]), State(hs, ps);
            Marks(hs, ps, hs.bf1, r.bf1, q.bf1) && Marks(hs, ps, hs.bf2, r.bf2, q.bf2) && Marks(hs, ps, hs.bf3, r.bf3, q.bf3)
  {
    var p, r := ps[|ps| - 1], State(hs, ps[..|ps| - 1]);
    var s := Slot(hs, p.key);
    EvictionSeen(hs, ps);
    if p.ContextPass? && r.ip[s] != p.key.ip && r.dec[s] == DROP {
      assert JustEvicted(hs, ps, CachedKey(r, s));
    }
  }

  lemma {:induction false} ExplainedStep(hs: Hashes, ps: seq<Pass>, h: FlowKey -> nat, bf: seq<nat>, bf': seq<nat>, c: nat)
    requires ps != [] && |bf| == |bf'| == BF_SIZE && c < BF_SIZE
    requires Explained(hs, ps[..|ps| - 1], h, bf, c) && Marks(hs, ps, h, bf, bf')
    ensures Explained(hs, ps, h, bf', c)
  {
    var init := ps[..|ps| - 1];
    forall k ensures Evicted(hs, ps, k) <==> Evicted(hs, init, k) || JustEvicted(hs, ps, k) {
      EvictedSnoc(hs, ps, k);
    }
    if k :| Evicted(hs, init, k) && Cell(h, k) == c {
      assert Evicted(hs, ps, k);
    }
    if k :| JustEvicted(hs, ps, k) && Cell(h, k) == c {
      assert Evicted(hs, ps, k);
    }
  }

  /** Exactly the cells of the keys evicted with a drop decision are set, in each of the three registers. */
  lemma {:induction false} FilterExact(hs: Hashes, ps: seq<Pass>, c: nat)
    requires c < BF_SIZE
    ensures var r := State(hs, ps);
            Explained(hs, ps, hs.bf1, r.bf1, c) && Explained(hs, ps, hs.bf2, r.bf2, c) && Explained(hs, ps, hs.bf3, r.bf3, c)
  {
    if ps != [] {
      var init := ps[..|ps| - 1];
      var r, q := State(hs, init), State(hs, ps);
      FilterExact(hs, init, c);
      StepMarks(hs, ps);
      ExplainedStep(hs, ps, hs.bf1, r.bf1, q.bf1, c);
      ExplainedStep(hs, ps, hs.bf2, r.bf2, q.bf2, c);
      ExplainedStep(hs, ps, hs.bf3, r.bf3, q.bf3, c);
    }
  }

  /** Once set, a key's cells stay set whatever follows. */
  lemma {:induction false} FilterForever(hs: Hashes, ps: seq<Pass>, later: seq<Pass>, k: FlowKey)
    requires Evicted(hs, ps, k)
    ensures var r := State(hs, ps + later);
            r.bf1[Cell(hs.bf1, k)] == r.bf2[Cell(hs.bf2, k)] == r.bf3[Cell(hs.bf3, k)] == 1
  {
    EvictedForever(hs, ps, later, k);
    FilterExact(hs, ps + later, Cell(hs.bf1, k));
    FilterExact(hs, ps + later, Cell(hs.bf2, k));
    FilterExact(hs, ps + later, Cell(hs.bf3, k));
  }

  lemma {:induction false} EvictedForever(hs: Hashes, ps: seq<Pass>, later: seq<Pass>, k: FlowKey)
    requires Evicted(hs, ps, k)
    ensures Evicted(hs, ps + later, k)
  {
    if later == [] {
      assert ps + later == ps;
    } else {
      var n := |later| - 1;
      EvictedForever(hs, ps, later[..n], k);
      assert (ps + later)[..|ps + later| - 1] == ps + later[..n];
      EvictedSnoc(hs, ps + later, k);
    }
  }
}
