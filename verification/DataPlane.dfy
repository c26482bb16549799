/**
 `MyIngress`: connection registers, the five cache registers and the Bloom filter. Each register is
 a field of its own; P4 registers cannot alias.
 */
module DataPlane {
  import opened Policy

  const UNSEEN: nat := 0          // DEC_UNSEEN
  const CACHE_SIZE: nat := 65536
  const BF_SIZE: nat := 86
  const MAX_RESUB: nat := 3
  const CONN_REGS_1: nat := 57000 // MAX_CONN_REGS_PER_MAU
  const CONN_REGS_2: nat := 43000
  const CONN_SIZE: nat := 100000  // MAX_CONN_TABLE_SIZE

  datatype FlowKey = FlowKey(ip: nat, port: nat, proto: nat)

  /** The CRC-16 calculations: one for the cache, one per Bloom filter register. */
  datatype Hashes = Hashes(cache: FlowKey -> nat, bf1: FlowKey -> nat, bf2: FlowKey -> nat, bf3: FlowKey -> nat)

  /** One pass of a packet; `dec` is `log.ctx_dec` after EvaluateContext, `resub` counts resubmissions of a data packet. */
  datatype Pass =
    | ContextPass(key: FlowKey, tstamp: nat, dec: nat)
    | DataPass(key: FlowKey, tstamp: nat, resub: nat)

  datatype Outcome = Forwarded(dec: nat) | Dropped | Resubmitted(resub: nat) | Evaluated(digest: bool)

  datatype Registers = Registers(
    ts: seq<nat>, ip: seq<nat>, port: seq<nat>, proto: seq<nat>, dec: seq<nat>,
    bf1: seq<nat>, bf2: seq<nat>, bf3: seq<nat>)

  function Slot(hs: Hashes, k: FlowKey): (s: nat)
    ensures s < CACHE_SIZE
  {
    hs.cache(k) % CACHE_SIZE
  }

  function Cell(h: FlowKey -> nat, k: FlowKey): (c: nat)
    ensures c < BF_SIZE
  {
    h(k) % BF_SIZE
  }

  predicate Sized(r: Registers) {
    && |r.ts| == |r.ip| == |r.port| == |r.proto| == |r.dec| == CACHE_SIZE
    && |r.bf1| == |r.bf2| == |r.bf3| == BF_SIZE
  }

  function Zeros(n: nat): (s: seq<nat>)
    ensures |s| == n && forall i :: 0 <= i < n ==> s[i] == 0
  {
    seq(n, i => 0)
  }

  function Boot(): (r: Registers)
    ensures Sized(r)
  {
    var c, b := Zeros(CACHE_SIZE), Zeros(BF_SIZE);
    Registers(c, c, c, c, c, b, b, b)
  }

  /** The decisions with a meaning of their own. */
  datatype Decisions = Decisions(unseen: nat, drop: nat)

  const TEMPLATE: Decisions := Decisions(UNSEEN, DROP)  // compiler/templates/recir_template.p4
  const POISE: Decisions := Decisions(1, DROP)          // p4/poise.p4, where 0 is DEC_CLEAN

  /** The enforcement tables as documented: unseen and drop decisions drop, the others select a port. */
  function EnforceWith(c: Decisions, dec: nat): Outcome {
    if dec == c.unseen || dec >= c.drop then Dropped else Forwarded(dec)
  }

  function Enforce(dec: nat): Outcome {
    EnforceWith(TEMPLATE, dec)
  }

  // ----- one pass, as a function -----

  /** The key stored in a cache slot. */
  function CachedKey(r: Registers, s: nat): FlowKey
    requires Sized(r) && s < CACHE_SIZE
  {
    FlowKey(r.ip[s], r.port[s], r.proto[s])
  }

  /** A context packet overwrites its slot; if that evicts the drop decision of another address, the evicted key enters the filter. */
  function AfterContext(hs: Hashes, r: Registers, k: FlowKey, tstamp: nat, dec: nat): (q: Registers)
    requires Sized(r)
    ensures Sized(q)
  {
    var s := Slot(hs, k);
    var w := r.(ts := r.ts[s := tstamp], ip := r.ip[s := k.ip], port := r.port[s := k.port],
                proto := r.proto[s := k.proto], dec := r.dec[s := dec]);
    if r.ip[s] != k.ip && r.dec[s] == DROP then
      var gone := CachedKey(r, s);
      w.(bf1 := r.bf1[Cell(hs.bf1, gone) := 1], bf2 := r.bf2[Cell(hs.bf2, gone) := 1], bf3 := r.bf3[Cell(hs.bf3, gone) := 1])
    else w
  }

  function After(hs: Hashes, r: Registers, p: Pass): (q: Registers)
    requires Sized(r)
    ensures Sized(q)
  {
    match p
    case ContextPass(k, t, d) => AfterContext(hs, r, k, t, d)
    case DataPass(_, _, _) => r
  }

  /** The filter says the cached key of a slot was evicted with a drop decision. */
  predicate FilterHit(hs: Hashes, r: Registers, s: nat)
    requires Sized(r) && s < CACHE_SIZE
  {
    var k := CachedKey(r, s);
    r.bf1[Cell(hs.bf1, k)] == 1 && r.bf2[Cell(hs.bf2, k)] == 1 && r.bf3[Cell(hs.bf3, k)] == 1
  }

  /** What happens to a data packet that misses the connection table. */
  function MissOutcome(hs: Hashes, r: Registers, k: FlowKey, resub: nat): Outcome
    requires Sized(r)
  {
    var s := Slot(hs, k);
    if r.ip[s] == k.ip then Enforce(r.dec[s])
    else if r.dec[s] == UNSEEN then Dropped
    else if FilterHit(hs, r, s) then Dropped
    else if resub < MAX_RESUB then Resubmitted(resub + 1)
    else Dropped
  }

  // ----- the connection registers -----

  /** The two connection registers read as one. */
  function Joined(c1: seq<nat>, c2: seq<nat>): seq<nat> { c1 + c2 }

  // ----- the switch -----

  class Switch {
    const hashes: Hashes
    var ts: seq<nat>      // cache_tstamp_high_32
    var ip: seq<nat>      // cache_src_ip
    var port: seq<nat>    // cache_src_port
    var proto: seq<nat>   // cache_protoc
    var dec: seq<nat>     // cache_dec
    var bf1: seq<nat>
    var bf2: seq<nat>
    var bf3: seq<nat>
    var conn1: seq<nat>   // conn_decision_1
    var conn2: seq<nat>   // conn_decision_2

    ghost function View(): Registers
      reads this
    {
      Registers(ts, ip, port, proto, dec, bf1, bf2, bf3)
    }

    ghost function Conn(): seq<nat>
      reads this
    {
      Joined(conn1, conn2)
    }

    ghost predicate Valid()
      reads this
    {
      Sized(View()) && |conn1| == CONN_REGS_1 && |conn2| == CONN_REGS_2
    }

    constructor (hs: Hashes)
      ensures Valid() && hashes == hs && View() == Boot() && Conn() == Zeros(CONN_SIZE)
    {
      hashes := hs;
      var c, b := Zeros(CACHE_SIZE), Zeros(BF_SIZE);
      ts, ip, port, proto, dec := c, c, c, c, c;
      bf1, bf2, bf3 := b, b, b;
      conn1, conn2 := Zeros(CONN_REGS_1), Zeros(CONN_REGS_2);
      new;
      assert Conn() == Zeros(CONN_SIZE);
    }

    /** `read_conn_dec_1_tab`, and `read_conn_dec_2_tab` when it misses: write for a context packet, read for a data packet. */
    method AccessConn(idx: nat, isContext: bool, ctxDec: nat) returns (connDec: nat)
      requires Valid() && idx < CONN_SIZE
      modifies this`conn1, this`conn2
      ensures Valid()
      ensures Conn() == if isContext then old(Conn())[idx := ctxDec] else old(Conn())
      ensures connDec == if isContext then 0 else old(Conn())[idx]
    {
      connDec := 0;
      if idx < CONN_REGS_1 {
        if isContext {
          conn1 := conn1[idx := ctxDec];
        } else {
          connDec := conn1[idx];
        }
      } else {
        var idx2 := idx - CONN_REGS_1;  // conn_idx_2
        if isContext {
          conn2 := conn2[idx2 := ctxDec];
        } else {
          connDec := conn2[idx2];
        }
      }
    }

    /** The five cache tables: read the slot, and overwrite it when the packet carries context. */
    method AccessCache(p: Pass, s: nat) returns (key: FlowKey, cacheDec: nat)
      requires Valid() && s < CACHE_SIZE
      modifies this`ts, this`ip, this`port, this`proto, this`dec
      ensures Valid() && key == CachedKey(old(View()), s) && cacheDec == old(dec)[s]
      ensures p.DataPass? ==> View() == old(View())
      ensures p.ContextPass? ==>
                View() == old(View()).(ts := old(ts)[s := p.tstamp], ip := old(ip)[s := p.key.ip], port := old(port)[s := p.key.port],
                                       proto := old(proto)[s := p.key.proto], dec := old(dec)[s := p.dec])
    {
      key := FlowKey(ip[s], port[s], proto[s]);
      cacheDec := dec[s];
      if p.ContextPass? {
        ts := ts[s := p.tstamp];
        ip := ip[s := p.key.ip];
        port := port[s := p.key.port];
        proto := proto[s := p.key.proto];
        dec := dec[s := p.dec];
      }
    }

    /** The three filter tables on the cached key: set for an evicted drop decision, read for a data packet. */
    method AccessFilter(key: FlowKey, isContext: bool, cacheDec: nat) returns (hit: bool)
      requires Valid()
      modifies this`bf1, this`bf2, this`bf3
      ensures Valid()
      ensures !(isContext && cacheDec == DROP) ==> View() == old(View())
      ensures isContext && cacheDec == DROP ==>
                View() == old(View()).(bf1 := old(bf1)[Cell(hashes.bf1, key) := 1], bf2 := old(bf2)[Cell(hashes.bf2, key) := 1],
                                       bf3 := old(bf3)[Cell(hashes.bf3, key) := 1])
      ensures hit <==> !isContext && old(bf1)[Cell(hashes.bf1, key)] == 1 && old(bf2)[Cell(hashes.bf2, key)] == 1 &&
                       old(bf3)[Cell(hashes.bf3, key)] == 1
    {
      var i1, i2, i3 := Cell(hashes.bf1, key), Cell(hashes.bf2, key), Cell(hashes.bf3, key);
      hit := !isContext && bf1[i1] == 1 && bf2[i2] == 1 && bf3[i3] == 1;
      if isContext && cacheDec == DROP {
        bf1 := bf1[i1 := 1];
        bf2 := bf2[i2 := 1];
        bf3 := bf3[i3 := 1];
      }
    }

    /** One pass through the ingress control; `conn` is the index found in the connection table, if any. */
    method MyIngress(p: Pass, conn: Option<nat>) returns (out: Outcome)
      requires Valid() && (conn.Some? ==> conn.value < CONN_SIZE)
      modifies this
      ensures Valid() && View() == After(hashes, old(View()), p)
      ensures Conn() == if p.ContextPass? && conn.Some? then old(Conn())[conn.value := p.dec] else old(Conn())
      ensures p.ContextPass? ==>
                out == Evaluated(conn.None? && old(ip)[Slot(hashes, p.key)] != p.key.ip)
      ensures p.DataPass? ==>
                out == match conn
                       case Some(i) => Enforce(old(Conn())[i])
                       case None => MissOutcome(hashes, old(View()), p.key, p.resub)
    {
      var s := Slot(hashes, p.key);
      var key, cacheDec := AccessCache(p, s);
      var connDec := 0;
      if conn.Some? {
        connDec := AccessConn(conn.value, p.ContextPass?, if p.ContextPass? then p.dec else 0);
      }
      var cacheHit, collision, filterHit := false, false, false;
      if key.ip == p.key.ip {
        cacheHit := true;
      } else if cacheDec == UNSEEN {
        // unseen connection
      } else {
        collision := true;
        filterHit := AccessFilter(key, p.ContextPass?, cacheDec);
      }
      match p {
        case ContextPass(_, _, _) => out := Evaluated(conn.None? && !cacheHit);
        case DataPass(_, _, resub) =>
          if conn.Some? {
            out := Enforce(connDec);
          } else if cacheHit {
            out := Enforce(cacheDec);
          } else if collision {
            out := if filterHit then Dropped else if resub < MAX_RESUB then Resubmitted(resub + 1) else Dropped;
          } else {
            out := Dropped;
          }
      }
    }
  }
}
