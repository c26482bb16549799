/**
 The generated program: one table per check, the `EvaluateContext` control block indexed by the
 recirculation counter, and the commands that fill the tables. Tables are referred to by name, as
 in the emitted text.
 */
module Emission {
  import opened Policy
  import opened Decision
  import opened MonitorMerge
  import opened Allocation
  import Decimal

  /** `ApplyMonitor` also applies the monitor's own tables, which update or read its register. */
  datatype Apply = ApplyTable(table: string) | ApplyMonitor(mon: string, table: string)

  /** The tables applied when `log.recir_counter == round`. */
  datatype Block = Block(round: nat, applies: seq<Apply>)

  datatype Key = HeaderIs(header: string, value: nat) | HeaderIn(header: string, lo: nat, hi: nat) | Inactive(mon: string)

  /** `add_entry set_ctx_dec`: matches when all its keys do, and sets the decision to `action`. */
  datatype Entry = Entry(table: string, keys: seq<Key>, action: nat)

  /** What a table is named after. */
  function Subject(c: Check): string {
    if c.kind.Monitor? then c.mon else c.header
  }

  function TableName(c: Check): string {
    "eval_" + Subject(c) + "_tab_rec" + Decimal.ToString(c.rec) + "_id" + Decimal.ToString(c.id)
  }

  /** `generate_table_def` gives every check the name of its table. */
  function Named(cs: seq<Check>): (ns: seq<Check>)
    ensures |ns| == |cs|
  {
    if cs == [] then [] else Named(cs[..|cs| - 1]) + [cs[|cs| - 1].(tableName := TableName(cs[|cs| - 1]))]
  }

  /** The checks as code generation sees them. */
  function Final(ds: seq<Check>): (ps: seq<Check>)
    ensures |ps| == |ds|
  {
    Named(Placed(ds))
  }

  function ApplyOf(c: Check): Apply {
    if c.kind.Monitor? then ApplyMonitor(c.mon, c.tableName) else ApplyTable(c.tableName)
  }

  function Applies(cs: seq<Check>): seq<Apply> {
    if cs == [] then [] else Applies(cs[..|cs| - 1]) + [ApplyOf(cs[|cs| - 1])]
  }

  /** `generate_eval_ctx`: the block of round 0, then one more block each time the round changes. */
  function Blocks(cs: seq<Check>): (bs: seq<Block>)
    ensures bs != []
  {
    if cs == [] then [Block(0, [])]
    else
      var bs := Blocks(cs[..|cs| - 1]);
      var c, n := cs[|cs| - 1], |bs| - 1;
      if c.rec != bs[n].round then bs + [Block(c.rec, [ApplyOf(c)])]
      else bs[n := Block(c.rec, bs[n].applies + [ApplyOf(c)])]
  }

  function HeaderEntries(c: Check, vs: seq<nat>): seq<Entry> {
    if vs == [] then []
    else HeaderEntries(c, vs[..|vs| - 1]) + [Entry(c.tableName, [HeaderIs(c.header, vs[|vs| - 1])], c.ifAct)]
  }

  function MonitorEntries(c: Check, hs: seq<string>): seq<Entry> {
    if hs == [] then []
    else
      var h := hs[|hs| - 1];
      MonitorEntries(c, hs[..|hs| - 1]) + [Entry(c.tableName, [Inactive(c.mon), HeaderIs(h, Val(c, h))], c.elseAct)]
  }

  function EntriesOf(c: Check): seq<Entry> {
    match c.kind
    case Invalid => []
    case Exact => HeaderEntries(c, [c.hi])
    case Range => [Entry(c.tableName, [HeaderIn(c.header, c.lo, c.hi)], c.ifAct)]
    case List => HeaderEntries(c, c.list)
    case Monitor =>
      if c.extraCheck then MonitorEntries(c, c.extraHeaders)
      else [Entry(c.tableName, [Inactive(c.mon)], c.elseAct)]
  }

  /** `generate_cmd`. */
  function Commands(cs: seq<Check>): seq<Entry> {
    if cs == [] then [] else Commands(cs[..|cs| - 1]) + EntriesOf(cs[|cs| - 1])
  }

  // ----- running the generated program -----

  predicate KeyMatches(k: Key, env: Env) {
    match k
    case HeaderIs(h, v) => env.hdr(h) == v
    case HeaderIn(h, lo, hi) => lo <= env.hdr(h) <= hi
    case Inactive(m) => !env.active(m)
  }

  predicate EntryMatches(e: Entry, env: Env) {
    forall i :: 0 <= i < |e.keys| ==> KeyMatches(e.keys[i], env)
  }

  /** The action of the first entry of `table` that matches. */
  function Lookup(es: seq<Entry>, table: string, env: Env): Option<nat> {
    if es == [] then None
    else
      var n := |es| - 1;
      var first := Lookup(es[..n], table, env);
      if first.Some? then first
      else if es[n].table == table && EntryMatches(es[n], env) then Some(es[n].action)
      else None
  }

  /** Applies the named tables in order; a table without a matching entry leaves the decision alone. */
  function RunTables(es: seq<Entry>, applies: seq<Apply>, env: Env, d: nat): nat {
    if applies == [] then d
    else
      var n := |applies| - 1;
      match Lookup(es, applies[n].table, env)
      case Some(a) => a
      case None => RunTables(es, applies[..n], env, d)
  }

  /** The branch that the `if`/`else if` chain takes for a counter value. */
  function Branch(bs: seq<Block>, counter: nat): seq<Apply> {
    if bs == [] then []
    else if bs[0].round == counter then bs[0].applies
    else Branch(bs[1..], counter)
  }

  /** Everything a packet applies while its counter runs from 0 to `last`. */
  function Executed(bs: seq<Block>, last: nat): seq<Apply> {
    (if last == 0 then [] else Executed(bs, last - 1)) + Branch(bs, last)
  }

  // ----- table entries mean what the check means -----

  ghost predicate EntriesMean(es: seq<Entry>, c: Check, fires: bool, env: Env) {
    && (forall e :: e in es ==> e.table == c.tableName && e.action == Write(c))
    && (fires <==> exists e :: e in es && EntryMatches(e, env))
  }

  lemma SnocEntries(es: seq<Entry>, e: Entry, env: Env)
    ensures (exists x :: x in es + [e] && EntryMatches(x, env)) <==> (exists x :: x in es && EntryMatches(x, env)) || EntryMatches(e, env)
  {
    assert e in es + [e];
    assert forall x :: x in es ==> x in es + [e];
  }

  lemma HeaderEntryStep(c: Check, es: seq<Entry>, vs: seq<nat>, v: nat, env: Env)
    requires !c.kind.Monitor? && EntriesMean(es, c, env.hdr(c.header) in vs, env)
    ensures EntriesMean(es + [Entry(c.tableName, [HeaderIs(c.header, v)], c.ifAct)], c, env.hdr(c.header) in vs + [v], env)
  {
    var e := Entry(c.tableName, [HeaderIs(c.header, v)], c.ifAct);
    SnocEntries(es, e, env);
    assert KeyMatches(e.keys[0], env) <==> EntryMatches(e, env);
  }

  lemma {:induction false} HeaderEntriesMean(c: Check, vs: seq<nat>, env: Env)
    requires !c.kind.Monitor?
    ensures EntriesMean(HeaderEntries(c, vs), c, env.hdr(c.header) in vs, env)
  {
    if vs != [] {
      var n := |vs| - 1;
      HeaderEntriesMean(c, vs[..n], env);
      HeaderEntryStep(c, HeaderEntries(c, vs[..n]), vs[..n], vs[n], env);
      assert vs == vs[..n] + [vs[n]];
    }
  }

  lemma {:induction false} MonitorEntriesMean(c: Check, hs: seq<string>, env: Env)
    requires c.kind.Monitor?
    ensures EntriesMean(MonitorEntries(c, hs), c, !env.active(c.mon) && exists h :: h in hs && Val(c, h) == env.hdr(h), env)
  {
    if hs != [] {
      var n := |hs| - 1;
      MonitorEntriesMean(c, hs[..n], env);
      var e := Entry(c.tableName, [Inactive(c.mon), HeaderIs(hs[n], Val(c, hs[n]))], c.elseAct);
      SnocEntries(MonitorEntries(c, hs[..n]), e, env);
      assert KeyMatches(e.keys[0], env) && KeyMatches(e.keys[1], env) <==> EntryMatches(e, env);
      assert forall h :: h in hs <==> h in hs[..n] || h == hs[n];
    }
  }

  /** The extra headers of a monitor check all have values. */
  ghost predicate ValuesKnown(c: Check) {
    forall h :: h in c.extraHeaders ==> h in c.hToVal
  }

  /** A check's entries match exactly when the check fires, and all write its value. */
  lemma EntriesOfMean(c: Check, env: Env)
    requires ValuesKnown(c)
    ensures EntriesMean(EntriesOf(c), c, Fires(c, env), env)
  {
    match c.kind
    case Invalid =>
    case Exact => HeaderEntriesMean(c, [c.hi], env);
    case List => HeaderEntriesMean(c, c.list, env);
    case Range =>
      var e := EntriesOf(c)[0];
      assert EntriesOf(c) == [e];
      assert KeyMatches(e.keys[0], env) <==> EntryMatches(e, env);
    case Monitor =>
      if c.extraCheck {
        MonitorEntriesMean(c, c.extraHeaders, env);
      } else {
        var e := EntriesOf(c)[0];
        assert EntriesOf(c) == [e];
        assert KeyMatches(e.keys[0], env) <==> EntryMatches(e, env);
      }
  }

  lemma {:induction false} LookupAppend(es: seq<Entry>, fs: seq<Entry>, t: string, env: Env)
    ensures Lookup(es + fs, t, env) == if Lookup(es, t, env).Some? then Lookup(es, t, env) else Lookup(fs, t, env)
  {
    if fs == [] {
      assert es + fs == es;
    } else {
      var n := |fs| - 1;
      assert (es + fs)[..|es + fs| - 1] == es + fs[..n];
      LookupAppend(es, fs[..n], t, env);
    }
  }

  lemma {:induction false} LookupMeans(es: seq<Entry>, c: Check, t: string, env: Env)
    requires forall e :: e in es ==> e.table == c.tableName && e.action == Write(c)
    ensures Lookup(es, t, env) == if t == c.tableName && (exists e :: e in es && EntryMatches(e, env)) then Some(Write(c)) else None
  {
    if es != [] {
      var n := |es| - 1;
      assert forall e :: e in es[..n] ==> e in es;
      assert es[n] in es;
      LookupMeans(es[..n], c, t, env);
      assert es == es[..n] + [es[n]];
      SnocEntries(es[..n], es[n], env);
    }
  }

  // ----- table names -----

  predicate DistinctNames(cs: seq<Check>) {
    forall i, j :: 0 <= i < j < |cs| ==> cs[i].tableName != cs[j].tableName
  }

  lemma {:induction false} NamedAt(cs: seq<Check>, i: nat)
    requires i < |cs|
    ensures Named(cs)[i] == cs[i].(tableName := TableName(cs[i]))
  {
    if i < |cs| - 1 {
      NamedAt(cs[..|cs| - 1], i);
    }
  }

  lemma NamedStep(cs: seq<Check>, i: nat)
    requires i < |cs|
    ensures Named(cs[..i + 1]) == Named(cs[..i]) + [cs[i].(tableName := TableName(cs[i]))]
  {
    assert cs[..i + 1][..i] == cs[..i];
  }

  lemma FinalLaid(ds: seq<Check>)
    ensures Laid(Final(ds), ds)
    ensures forall i :: 0 <= i < |ds| ==> Final(ds)[i].rec == Placed(ds)[i].rec
  {
    forall i | 0 <= i < |ds|
      ensures Final(ds)[i] == ds[i].(startStage := Final(ds)[i].startStage, stageNum := Final(ds)[i].stageNum,
                                     rec := Final(ds)[i].rec, tableName := Final(ds)[i].tableName)
      ensures Final(ds)[i].rec == Placed(ds)[i].rec
    {
      NamedAt(Placed(ds), i);
      PlacedAt(ds, i);
    }
  }

  lemma LookupSnoc(cs: seq<Check>, t: string, env: Env)
    requires cs != [] && ValuesKnown(cs[|cs| - 1])
    ensures var n := |cs| - 1; var first := Lookup(Commands(cs[..n]), t, env);
            Lookup(Commands(cs), t, env) ==
              if first.Some? then first
              else if t == cs[n].tableName && Fires(cs[n], env) then Some(Write(cs[n])) else None
  {
    var n := |cs| - 1;
    LookupAppend(Commands(cs[..n]), EntriesOf(cs[n]), t, env);
    EntriesOfMean(cs[n], env);
    LookupMeans(EntriesOf(cs[n]), cs[n], t, env);
  }

  lemma {:induction false} LookupOther(cs: seq<Check>, t: string, env: Env)
    requires forall x :: x in cs ==> ValuesKnown(x) && x.tableName != t
    ensures Lookup(Commands(cs), t, env) == None
  {
    if cs != [] {
      var n := |cs| - 1;
      assert cs[n] in cs && (forall x :: x in cs[..n] ==> x in cs);
      LookupOther(cs[..n], t, env);
      LookupSnoc(cs, t, env);
    }
  }

  lemma {:induction false} NamesApart(cs: seq<Check>, k: nat)
    requires k < |cs| && DistinctNames(cs)
    ensures forall x :: x in cs[..k] ==> x.tableName != cs[k].tableName
  {
    forall x | x in cs[..k] ensures x.tableName != cs[k].tableName {
      var i :| 0 <= i < k && cs[..k][i] == x;
    }
  }


  lemma {:induction false} NamesInit(cs: seq<Check>)
    requires cs != [] && (forall x :: x in cs ==> ValuesKnown(x)) && DistinctNames(cs)
    ensures var init := cs[..|cs| - 1]; (forall x :: x in init ==> ValuesKnown(x)) && DistinctNames(init)
  {
    assert forall x :: x in cs[..|cs| - 1] ==> x in cs;
  }

  /** With distinct names, looking a table up by name finds its own entries and no others. */
  lemma {:induction false} LookupOwn(cs: seq<Check>, k: nat, env: Env)
    requires (forall x :: x in cs ==> ValuesKnown(x)) && k < |cs| && DistinctNames(cs)
    ensures Lookup(Commands(cs), cs[k].tableName, env) == if Fires(cs[k], env) then Some(Write(cs[k])) else None
  {
    var n := |cs| - 1;
    assert cs[n] in cs;
    NamesInit(cs);
    LookupSnoc(cs, cs[k].tableName, env);
    if k < n {
      LookupOwn(cs[..n], k, env);
    } else {
      NamesApart(cs, k);
      LookupOther(cs[..n], cs[k].tableName, env);
    }
  }

  /** Applying the generated tables by name runs the checks. */
  lemma {:induction false} TablesRunChecks(cs: seq<Check>, k: nat, env: Env, d: nat)
    requires k <= |cs| && (forall x :: x in cs ==> ValuesKnown(x)) && DistinctNames(cs)
    ensures RunTables(Commands(cs), Applies(cs[..k]), env, d) == Run(cs[..k], env, d)
  {
    if k > 0 {
      TablesRunChecks(cs, k - 1, env, d);
      assert cs[..k][..k - 1] == cs[..k - 1];
      var ap := Applies(cs[..k]);
      assert ap[..|ap| - 1] == Applies(cs[..k - 1]) && ap[|ap| - 1] == ApplyOf(cs[k - 1]);
      LookupOwn(cs, k - 1, env);
    }
  }

  // ----- recirculation -----

  /** Rounds start at 0, never decrease and skip none. */
  predicate GapFree(cs: seq<Check>) {
    && (cs != [] ==> cs[0].rec == 0)
    && forall i :: 0 < i < |cs| ==> cs[i - 1].rec <= cs[i].rec <= cs[i - 1].rec + 1
  }

  function LastRound(cs: seq<Check>): nat {
    if cs == [] then 0 else cs[|cs| - 1].rec
  }

  /** The blocks are numbered consecutively and end with the round of the last check. */
  lemma {:induction false} BlocksNumbered(cs: seq<Check>)
    requires GapFree(cs)
    ensures forall i :: 0 <= i < |Blocks(cs)| ==> Blocks(cs)[i].round == i
    ensures |Blocks(cs)| == LastRound(cs) + 1
  {
    if cs != [] {
      BlocksNumbered(cs[..|cs| - 1]);
    }
  }

  /** All blocks in order. */
  function Flat(bs: seq<Block>): seq<Apply> {
    if bs == [] then [] else Flat(bs[..|bs| - 1]) + bs[|bs| - 1].applies
  }

  lemma {:induction false} BlocksFlat(cs: seq<Check>)
    ensures Flat(Blocks(cs)) == Applies(cs)
  {
    if cs == [] {
      assert Blocks(cs)[..0] == [];
    } else {
      BlocksFlat(cs[..|cs| - 1]);
      var bs, c := Blocks(cs[..|cs| - 1]), cs[|cs| - 1];
      var n, fs := |bs| - 1, Blocks(cs);
      if c.rec != bs[n].round {
        assert fs[..|fs| - 1] == bs;
      } else {
        assert fs[..n] == bs[..n];
        assert Flat(bs[..n]) + (bs[n].applies + [ApplyOf(c)]) == Flat(bs) + [ApplyOf(c)];
      }
    }
  }

  lemma {:induction false} BranchAt(bs: seq<Block>, base: nat, k: nat)
    requires forall i :: 0 <= i < |bs| ==> bs[i].round == base + i
    requires k < |bs|
    ensures Branch(bs, base + k) == bs[k].applies
  {
    if k > 0 {
      BranchAt(bs[1..], base + 1, k - 1);
    }
  }

  lemma {:induction false} FlatSnoc(bs: seq<Block>, k: nat)
    requires k < |bs|
    ensures Flat(bs[..k + 1]) == Flat(bs[..k]) + bs[k].applies
  {
    assert bs[..k + 1][..k] == bs[..k];
  }

  lemma {:induction false} ExecutedFlat(bs: seq<Block>, last: nat)
    requires forall i :: 0 <= i < |bs| ==> bs[i].round == i
    requires last < |bs|
    ensures Executed(bs, last) == Flat(bs[..last + 1])
  {
    BranchAt(bs, 0, last);
    FlatSnoc(bs, last);
    if last > 0 {
      ExecutedFlat(bs, last - 1);
    } else {
      assert Flat(bs[..0]) == [];
    }
  }

  lemma {:induction false} AllExecuted(bs: seq<Block>)
    requires bs != [] && forall i :: 0 <= i < |bs| ==> bs[i].round == i
    ensures Executed(bs, |bs| - 1) == Flat(bs)
  {
    ExecutedFlat(bs, |bs| - 1);
    assert bs[..|bs|] == bs;
  }

  /** Letting the counter run from 0 to the last round applies every check's tables once, in order. */
  lemma {:induction false} RecirculationIsSequential(cs: seq<Check>)
    requires GapFree(cs)
    ensures Executed(Blocks(cs), LastRound(cs)) == Applies(cs)
  {
    BlocksNumbered(cs);
    BlocksFlat(cs);
    AllExecuted(Blocks(cs));
  }

  // ----- monitors are touched once -----

  function Touches(applies: seq<Apply>, m: string): nat {
    if applies == [] then 0
    else
      var a := applies[|applies| - 1];
      Touches(applies[..|applies| - 1], m) + if a.ApplyMonitor? && a.mon == m then 1 else 0
  }

  /** The number of times a packet's passes apply a monitor is the number of checks that read it. */
  lemma {:induction false} TouchesAreReaders(cs: seq<Check>, m: string)
    ensures Touches(Applies(cs), m) == |MonGroup(cs, m)|
  {
    if cs != [] {
      var n := |cs| - 1;
      TouchesAreReaders(cs[..n], m);
      assert Applies(cs)[..|Applies(cs)| - 1] == Applies(cs[..n]);
    }
  }

  // ----- table sizes -----

  /** The size a table is declared with; the monitor template has a fixed size. */
  function DeclaredSize(c: Check): nat {
    if c.kind.Monitor? then 2 else c.tableSize
  }

  lemma {:induction false} EntryCounts(c: Check, vs: seq<nat>, hs: seq<string>)
    ensures |HeaderEntries(c, vs)| == |vs| && |MonitorEntries(c, hs)| == |hs|
  {
    if vs != [] {
      EntryCounts(c, vs[..|vs| - 1], hs);
    } else if hs != [] {
      EntryCounts(c, vs, hs[..|hs| - 1]);
    }
  }
}
