/**
 The timestamp register behind a monitor, and when the monitor counts as active.
 */
module Monitors {

  const TIMEOUT: nat := 100000         // timeout_val
  const MODULUS: nat := 0x1_0000_0000  // width of the register

  /** One use of a monitor by a context packet: whether its header hits the monitor table, and the time. */
  datatype Touch = Touch(hit: bool, time: nat)

  function Elapsed(now: nat, since: nat): nat {
    (now - since) % MODULUS
  }

  /** The register after a sequence of uses. */
  function After(ts: seq<Touch>): nat {
    if ts == [] then 0
    else if ts[|ts| - 1].hit then ts[|ts| - 1].time
    else After(ts[..|ts| - 1])
  }

  /** The time of the latest hit, 0 when there is none, by looking at all uses. */
  ghost predicate IsLatestHit(ts: seq<Touch>, t: nat) {
    && (forall i :: 0 <= i < |ts| && ts[i].hit ==> ts[i].time <= t)
    && (t == 0 || exists i :: 0 <= i < |ts| && ts[i].hit && ts[i].time == t)
  }

  ghost predicate TimesInOrder(ts: seq<Touch>) {
    && (forall i, j :: 0 <= i < j < |ts| ==> ts[i].time <= ts[j].time)
    && (forall i :: 0 <= i < |ts| ==> ts[i].time < MODULUS)
  }

  /** While time moves forward the register holds the time of the latest hit. */
  lemma {:induction false} RegisterIsLatestHit(ts: seq<Touch>)
    requires TimesInOrder(ts)
    ensures IsLatestHit(ts, After(ts))
    ensures ts != [] ==> After(ts) <= ts[|ts| - 1].time
  {
    if ts != [] {
      var n := |ts| - 1;
      RegisterIsLatestHit(ts[..n]);
      if !ts[n].hit && After(ts) != 0 {
        var i :| 0 <= i < n && ts[..n][i].hit && ts[..n][i].time == After(ts);
        assert ts[i].hit;
      }
    }
  }

  /** A use sees the monitor active exactly when it is a hit, or the latest hit (boot counts as time 0) is less than the timeout old. */
  lemma {:induction false} ActiveExact(ts: seq<Touch>, i: nat, latest: nat)
    requires TimesInOrder(ts) && i < |ts| && IsLatestHit(ts[..i], latest)
    ensures (ts[i].hit || Elapsed(ts[i].time, After(ts[..i])) < TIMEOUT) <==> (ts[i].hit || ts[i].time - latest < TIMEOUT)
  {
    RegisterIsLatestHit(ts[..i]);
    var r := After(ts[..i]);
    assert latest == r;
    assert r <= ts[i].time < MODULUS;
  }

  /** The ingress control evaluates the policy before it sets the timestamp, so every use happens at time 0 and no monitor ever turns inactive. */
  lemma {:induction false} AlwaysActiveAsOrdered(ts: seq<Touch>, i: nat)
    requires (forall k :: 0 <= k < |ts| ==> ts[k].time == 0) && i < |ts|
    ensures Elapsed(ts[i].time, After(ts[..i])) < TIMEOUT
  {
    var zs := ts[..i];
    assert TimesInOrder(zs);
    RegisterIsLatestHit(zs);
  }
}
