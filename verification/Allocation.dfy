/**
 `allocate_resources`: checks are packed in order into rounds of seven stages, at most eight rounds.
 */
module Allocation {
  import opened Policy
  import opened Decision

  const MAX_ROUNDS: nat := 8  // max_rec_times
  const STAGES: nat := 7      // stages_per_rec

  function Need(c: Check): nat {
    if c.kind.Monitor? then 3 else 1
  }

  /** `curr_rec` and `curr_stage`. */
  datatype Cursor = Cursor(rec: nat, stage: nat)

  const START: Cursor := Cursor(0, 0)

  /** Where a check that needs `need` stages starts. */
  function Open(cur: Cursor, need: nat): Cursor {
    if cur.stage + need > STAGES then Cursor(cur.rec + 1, 0) else cur
  }

  function Advance(cur: Cursor, need: nat): Cursor {
    var o := Open(cur, need);
    Cursor(o.rec, o.stage + need)
  }

  function End(cs: seq<Check>): Cursor {
    if cs == [] then START else Advance(End(cs[..|cs| - 1]), Need(cs[|cs| - 1]))
  }

  function Place(c: Check, cur: Cursor): Check {
    var o := Open(cur, Need(c));
    c.(startStage := o.stage, stageNum := Need(c), rec := o.rec)
  }

  function Placed(cs: seq<Check>): (ps: seq<Check>)
    ensures |ps| == |cs|
  {
    if cs == [] then [] else Placed(cs[..|cs| - 1]) + [Place(cs[|cs| - 1], End(cs[..|cs| - 1]))]
  }

  function Rounds(cs: seq<Check>): (r: seq<nat>)
    ensures |r| == |cs|
  {
    if cs == [] then [] else Rounds(cs[..|cs| - 1]) + [End(cs).rec]
  }

  // ----- what placing keeps -----

  lemma {:induction false} PlacedAt(cs: seq<Check>, i: nat)
    requires i < |cs|
    ensures Placed(cs)[i] == Place(cs[i], End(cs[..i])) && Placed(cs)[i].rec == Rounds(cs)[i] == End(cs[..i + 1]).rec
  {
    var n := |cs| - 1;
    if i < n {
      PlacedAt(cs[..n], i);
      assert cs[..n][..i] == cs[..i] && cs[..n][..i + 1] == cs[..i + 1];
    } else {
      assert cs[..n + 1] == cs;
    }
  }

  /** The checks with stages, rounds and table names filled in. */
  predicate Laid(ps: seq<Check>, cs: seq<Check>) {
    && |ps| == |cs|
    && forall i :: 0 <= i < |ps| ==>
         ps[i] == cs[i].(startStage := ps[i].startStage, stageNum := ps[i].stageNum, rec := ps[i].rec, tableName := ps[i].tableName)
  }

  /** Laying the checks out does not change what a run of them decides. */
  lemma {:induction false} LaidRun(ps: seq<Check>, cs: seq<Check>, env: Env, d: nat)
    requires Laid(ps, cs)
    ensures Run(ps, env, d) == Run(cs, env, d)
  {
    if cs != [] {
      var n := |cs| - 1;
      LaidRun(ps[..n], cs[..n], env, d);
      assert Fires(ps[n], env) == Fires(cs[n], env);
    }
  }

  // ----- the shape of an allocation -----

  lemma {:induction false} EndInBounds(cs: seq<Check>)
    ensures End(cs).stage <= STAGES
  {
    if cs != [] {
      EndInBounds(cs[..|cs| - 1]);
    }
  }

  lemma EndStep(cs: seq<Check>, i: nat)
    requires i < |cs|
    ensures End(cs[..i + 1]) == Advance(End(cs[..i]), Need(cs[i]))
  {
    assert cs[..i + 1][..i] == cs[..i];
  }

  /** `a` comes no later than `b`. */
  predicate NoLater(a: Cursor, b: Cursor) {
    a.rec < b.rec || (a.rec == b.rec && a.stage <= b.stage)
  }

  lemma {:induction false} AdvanceRises(a: Cursor, b: Cursor, need: nat)
    requires NoLater(a, b)
    ensures NoLater(a, Advance(b, need))
  {
  }

  lemma {:induction false} EndMonotone(cs: seq<Check>, i: nat, j: nat)
    requires i <= j <= |cs|
    ensures NoLater(End(cs[..i]), End(cs[..j]))
  {
    if i < j {
      EndMonotone(cs, i, j - 1);
      EndStep(cs, j - 1);
      AdvanceRises(End(cs[..i]), End(cs[..j - 1]), Need(cs[j - 1]));
    }
  }

  /** Rounds start at 0, never decrease and skip none. */
  lemma {:induction false} RoundsGapFree(cs: seq<Check>, i: nat)
    requires i < |cs|
    ensures i == 0 ==> Placed(cs)[i].rec == 0
    ensures i > 0 ==> Placed(cs)[i - 1].rec <= Placed(cs)[i].rec <= Placed(cs)[i - 1].rec + 1
  {
    PlacedAt(cs, i);
    EndStep(cs, i);
    if i > 0 {
      PlacedAt(cs, i - 1);
    }
  }

  /** Within a round the stage intervals lie inside the round, in order and without overlap. */
  lemma StagesDisjoint(cs: seq<Check>, i: nat, j: nat)
    requires i < j < |cs|
    ensures var p, q := Placed(cs)[i], Placed(cs)[j];
            && p.startStage + p.stageNum <= STAGES
            && (p.rec < q.rec || (p.rec == q.rec && p.startStage + p.stageNum <= q.startStage))
  {
    PlacedAt(cs, i);
    PlacedAt(cs, j);
    EndInBounds(cs[..i]);
    EndMonotone(cs, i + 1, j);
    EndStep(cs, i);
  }

  // ----- optimality -----

  /** The stages that assignment `r` uses in round `k`. */
  function Load(cs: seq<Check>, r: seq<nat>, k: nat): nat
    requires |r| == |cs|
  {
    if cs == [] then 0
    else
      var n := |cs| - 1;
      Load(cs[..n], r[..n], k) + if r[n] == k then Need(cs[n]) else 0
  }

  /** A round for every check, in order, with no round overfull. */
  ghost predicate Assignment(cs: seq<Check>, r: seq<nat>) {
    && |r| == |cs|
    && (forall i, j :: 0 <= i < j < |r| ==> r[i] <= r[j])
    && (forall k :: Load(cs, r, k) <= STAGES)
  }

  lemma AssignmentPrefix(cs: seq<Check>, r: seq<nat>)
    requires Assignment(cs, r) && cs != []
    ensures Assignment(cs[..|cs| - 1], r[..|r| - 1])
  {
    var n := |cs| - 1;
    forall k ensures Load(cs[..n], r[..n], k) <= STAGES {
      assert Load(cs, r, k) <= STAGES;
    }
  }

  /** After every check the greedy cursor is at most where any other assignment is. */
  lemma {:induction false} GreedyStaysAhead(cs: seq<Check>, r: seq<nat>)
    requires Assignment(cs, r) && cs != []
    ensures var k := r[|r| - 1];
            End(cs).rec < k || (End(cs).rec == k && End(cs).stage <= Load(cs, r, k))
  {
    var n := |cs| - 1;
    assert Load(cs, r, r[n]) <= STAGES;
    if n > 0 {
      AssignmentPrefix(cs, r);
      GreedyStaysAhead(cs[..n], r[..n]);
      assert r[n - 1] <= r[n];
    } else {
      assert cs[..n] == [];
    }
  }

  lemma {:induction false} RoundsLoad(cs: seq<Check>, k: nat)
    ensures Load(cs, Rounds(cs), k) <= STAGES
    ensures k == End(cs).rec ==> Load(cs, Rounds(cs), k) == End(cs).stage
    ensures k > End(cs).rec ==> Load(cs, Rounds(cs), k) == 0
  {
    if cs != [] {
      var n := |cs| - 1;
      RoundsLoad(cs[..n], k);
      EndInBounds(cs[..n]);
      assert Rounds(cs)[..n] == Rounds(cs[..n]);
    }
  }

  lemma {:induction false} RoundsAssign(cs: seq<Check>)
    ensures Assignment(cs, Rounds(cs))
    ensures forall i :: 0 <= i < |cs| ==> Rounds(cs)[i] <= End(cs).rec
  {
    forall k ensures Load(cs, Rounds(cs), k) <= STAGES {
      RoundsLoad(cs, k);
    }
    assert cs[..|cs|] == cs;
    forall i | 0 <= i < |cs| ensures Rounds(cs)[i] <= End(cs).rec {
      PlacedAt(cs, i);
      EndMonotone(cs, i + 1, |cs|);
    }
    forall i, j | 0 <= i < j < |cs| ensures Rounds(cs)[i] <= Rounds(cs)[j] {
      PlacedAt(cs, i);
      PlacedAt(cs, j);
      EndMonotone(cs, i + 1, j + 1);
    }
  }

  /** No order-preserving assignment needs fewer rounds. */
  lemma AllocationOptimal(cs: seq<Check>, r: seq<nat>)
    requires Assignment(cs, r) && cs != []
    ensures End(cs).rec <= r[|r| - 1]
  {
    GreedyStaysAhead(cs, r);
  }

  ghost predicate Fits(cs: seq<Check>, r: seq<nat>) {
    Assignment(cs, r) && forall i :: 0 <= i < |r| ==> r[i] < MAX_ROUNDS
  }

  /** Allocation succeeds exactly when some order-preserving assignment to eight rounds exists. */
  lemma AllocationExact(cs: seq<Check>)
    ensures End(cs).rec < MAX_ROUNDS <==> exists r :: Fits(cs, r)
  {
    if End(cs).rec < MAX_ROUNDS {
      RoundsAssign(cs);
      assert Fits(cs, Rounds(cs));
    }
    if r :| Fits(cs, r) {
      if cs != [] {
        AllocationOptimal(cs, r);
      }
    }
  }

  function Total(cs: seq<Check>): nat {
    if cs == [] then 0 else Total(cs[..|cs| - 1]) + Need(cs[|cs| - 1])
  }

  lemma {:induction false} TotalBounds(cs: seq<Check>)
    ensures 5 * End(cs).rec + End(cs).stage <= Total(cs) <= STAGES * End(cs).rec + End(cs).stage
    ensures End(cs).rec >= MAX_ROUNDS ==> Total(cs) >= 43
  {
    if cs != [] {
      TotalBounds(cs[..|cs| - 1]);
      EndInBounds(cs[..|cs| - 1]);
    }
  }

  /** Up to 42 stages always fit, more than 56 never do. */
  lemma AllocationThresholds(cs: seq<Check>)
    ensures Total(cs) <= 42 ==> End(cs).rec < MAX_ROUNDS
    ensures Total(cs) > MAX_ROUNDS * STAGES ==> End(cs).rec >= MAX_ROUNDS
  {
    TotalBounds(cs);
    EndInBounds(cs);
  }
}
