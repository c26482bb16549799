/**
 The Poise policy language as the compiler back end receives it, the `Check` records it lowers
 statements to, and what both mean.
 */
module Policy {

  const NORMAL: nat := 1       // NORMAL_ACTION_VAL: the forward action every else branch must have
  const DROP: nat := 15        // DROP_ACTION_VAL: also the highest priority
  const RANGE_LOW: nat := 0    // DEFAULT_LOW
  const RANGE_HIGH: nat := 10000  // DEFAULT_HIGH

  datatype Option<+T> = None | Some(value: T)

  datatype BinOp = Eq | Lt | Gt | Le | Ge
  datatype ListOp = In | NotIn
  datatype Action = Fwd(port: nat) | Drop

  /** `h op constant`. */
  datatype Pred = Pred(header: string, op: BinOp, rhs: nat)

  /** A match statement. The actions of a monitor statement are fixed by the compiler, so they are not kept. */
  datatype Stmt =
    | PredStmt(pred: Pred, thenAct: Action, elseAct: Option<Action>)
    | ListStmt(header: string, listOp: ListOp, listName: string, thenAct: Action, elseAct: Option<Action>)
    | MonStmt(mon: string, extra: Option<Pred>)

  /** `name := monitor (header in ...)`. */
  datatype MonitorDef = MonitorDef(name: string, header: string)

  datatype Program = Program(stmts: seq<Stmt>, lists: map<string, seq<nat>>, monitors: seq<MonitorDef>, headers: seq<string>)

  /** What a context packet carries, and which monitors are active when it is evaluated. */
  datatype Env = Env(hdr: string -> nat, active: string -> bool)

  datatype Kind = Invalid | Exact | Range | List | Monitor

  datatype Check = Check(
    kind: Kind, id: nat, ifAct: nat, elseAct: nat, priority: nat, tableSize: nat,
    header: string, lo: nat, hi: nat, list: seq<nat>,
    mon: string, extraCheck: bool, extraHeaders: seq<string>, hToVal: map<string, nat>,
    startStage: nat, stageNum: nat, rec: nat, tableName: string)

  /** A freshly constructed check. */
  const BLANK: Check := Check(Invalid, 0, 0, 0, 0, 2, "", 0, 0, [], "", false, [], map[], 0, 0, 0, "")

  // ----- lowering -----

  /** `action_to_val`; a name that is not in the map reads as 0. */
  function ActionVal(a: Action): nat {
    match a
    case Drop => DROP
    case Fwd(n) => if 1 <= n <= 14 then n else 0
  }

  /** `name2mon`: the latest definition of a name. */
  function MonitorHeader(ms: seq<MonitorDef>, name: string): Option<string> {
    if ms == [] then None
    else if ms[|ms| - 1].name == name then Some(ms[|ms| - 1].header)
    else MonitorHeader(ms[..|ms| - 1], name)
  }

  /** The actions a predicate or list statement may have. */
  predicate ActionsOk(thenAct: Action, elseAct: Option<Action>) {
    elseAct.Some? && ActionVal(elseAct.value) == NORMAL && ActionVal(thenAct) != NORMAL
  }

  function LowerMonitor(ms: seq<MonitorDef>, s: Stmt): Option<Check>
    requires s.MonStmt?
  {
    match MonitorHeader(ms, s.mon)
    case None => None
    case Some(h) =>
      var c := BLANK.(kind := Monitor, ifAct := NORMAL, elseAct := DROP, priority := DROP, header := h, mon := s.mon);
      match s.extra
      case None => Some(c)
      case Some(e) =>
        Some(c.(extraCheck := true, extraHeaders := [e.header], hToVal := map[e.header := e.rhs]))
  }

  function LowerList(lists: map<string, seq<nat>>, s: Stmt): Option<Check>
    requires s.ListStmt?
  {
    if s.listName in lists && ActionsOk(s.thenAct, s.elseAct) then
      var v := ActionVal(s.thenAct);
      var items := lists[s.listName];
      Some(BLANK.(kind := List, ifAct := v, elseAct := NORMAL, priority := v, header := s.header,
                  list := items, tableSize := |items|))
    else None
  }

  function LowerPred(s: Stmt): Option<Check>
    requires s.PredStmt?
  {
    if ActionsOk(s.thenAct, s.elseAct) then
      var v := ActionVal(s.thenAct);
      var c := BLANK.(ifAct := v, elseAct := NORMAL, priority := v, header := s.pred.header);
      match s.pred.op
      case Eq => Some(c.(kind := Exact, lo := s.pred.rhs, hi := s.pred.rhs))
      case Lt => Some(c.(kind := Range, lo := RANGE_LOW, hi := s.pred.rhs))
      case Gt => Some(c.(kind := Range, lo := s.pred.rhs, hi := RANGE_HIGH))
      case _ => Some(c)  // <= and >= leave the kind Invalid
    else None
  }

  function LowerStmt(p: Program, s: Stmt): Option<Check> {
    match s
    case MonStmt(_, _) => LowerMonitor(p.monitors, s)
    case ListStmt(_, _, _, _, _) => LowerList(p.lists, s)
    case PredStmt(_, _, _) => LowerPred(s)
  }

  /** The statement is one the compiler does not abort on. */
  predicate Accepted(p: Program) {
    forall i :: 0 <= i < |p.stmts| ==> LowerStmt(p, p.stmts[i]).Some?
  }

  /** One check per statement, numbered in order. */
  function Lower(p: Program): seq<Check>
    requires Accepted(p)
  {
    seq(|p.stmts|, i requires 0 <= i < |p.stmts| => LowerStmt(p, p.stmts[i]).value.(id := i))
  }

  // ----- what a statement means -----

  /** When a statement fires; `<` and `>` stand for closed ranges, the second one bounded by 10000. */
  predicate StmtFires(p: Program, s: Stmt, env: Env) {
    match s
    case PredStmt(pred, _, _) =>
      var v := env.hdr(pred.header);
      (match pred.op
       case Eq => v == pred.rhs
       case Lt => v <= pred.rhs
       case Gt => pred.rhs <= v <= RANGE_HIGH
       case _ => false)
    case ListStmt(h, _, name, _, _) => name in p.lists && env.hdr(h) in p.lists[name]
    case MonStmt(m, extra) =>
      !env.active(m) && (extra.Some? ==> env.hdr(extra.value.header) == extra.value.rhs)
  }

  function StmtValue(s: Stmt): nat {
    match s
    case MonStmt(_, _) => DROP
    case PredStmt(_, a, _) => ActionVal(a)
    case ListStmt(_, _, _, a, _) => ActionVal(a)
  }

  /** `d` is the greatest action value among the statements that fire, and 0 when none does. */
  ghost predicate IsDecision(p: Program, env: Env, d: nat) {
    && (forall i :: 0 <= i < |p.stmts| && StmtFires(p, p.stmts[i], env) ==> StmtValue(p.stmts[i]) <= d)
    && (d == 0 || exists i :: 0 <= i < |p.stmts| && StmtFires(p, p.stmts[i], env) && StmtValue(p.stmts[i]) == d)
  }

  /** What the operators say on paper. */
  predicate Holds(op: BinOp, v: nat, c: nat) {
    match op
    case Eq => v == c
    case Lt => v < c
    case Gt => v > c
    case Le => v <= c
    case Ge => v >= c
  }

  // ----- what a check means -----

  /** The check's table has an entry that matches. */
  predicate Fires(c: Check, env: Env) {
    match c.kind
    case Invalid => false
    case Exact => env.hdr(c.header) == c.hi
    case Range => c.lo <= env.hdr(c.header) <= c.hi
    case List => env.hdr(c.header) in c.list
    case Monitor =>
      !env.active(c.mon) && (c.extraCheck ==>
        exists h :: h in c.extraHeaders && h in c.hToVal && c.hToVal[h] == env.hdr(h))
  }

  /** The decision a check writes when it fires. */
  function Write(c: Check): nat {
    if c.kind.Monitor? then c.elseAct else c.ifAct
  }

  /** What every check satisfies from lowering to code generation: its priority is the value it writes. */
  predicate WellFormed(c: Check) {
    && c.priority == Write(c)
    && (c.kind.Exact? ==> c.lo == c.hi)
    && (c.kind.Monitor? ==> c.ifAct == NORMAL && c.elseAct == DROP)
  }

  /** Extra headers as lowering leaves them: only a monitor check has one, with its value. */
  predicate Unmerged(c: Check) {
    if c.kind.Monitor? && c.extraCheck then |c.extraHeaders| == 1 && c.extraHeaders[0] in c.hToVal else c.extraHeaders == []
  }

  ghost predicate AllWellFormed(cs: seq<Check>) {
    forall c :: c in cs ==> WellFormed(c)
  }

  // ----- lowering keeps the meaning -----

  lemma {:induction false} LowerStmtMeaning(p: Program, s: Stmt, env: Env)
    requires LowerStmt(p, s).Some?
    ensures var c := LowerStmt(p, s).value;
            && WellFormed(c) && Unmerged(c) && Write(c) == StmtValue(s)
            && (Fires(c, env) <==> StmtFires(p, s, env))
  {
    match s
    case MonStmt(m, extra) =>
      var c := LowerStmt(p, s).value;
      if extra.Some? {
        assert extra.value.header in c.extraHeaders;
      }
    case ListStmt(_, _, _, _, _) =>
    case PredStmt(_, _, _) =>
  }

  lemma ExtraOperator(p: Program, s: Stmt, e: Pred)
    requires s.MonStmt? && s.extra == Some(e)
    ensures (forall env: Env :: StmtFires(p, s, env) <==> !env.active(s.mon) && Holds(e.op, env.hdr(e.header), e.rhs))
            <==> e.op.Eq? || (e.op.Le? && e.rhs == 0)
  {
    var at := (v: nat) => Env(h => v, m => false);
    var c := e.rhs;
    match e.op
    case Eq =>
    case Lt => assert StmtFires(p, s, at(c)) && !Holds(Lt, at(c).hdr(e.header), c);
    case Gt => assert StmtFires(p, s, at(c)) && !Holds(Gt, at(c).hdr(e.header), c);
    case Le =>
      if c > 0 {
        assert !StmtFires(p, s, at(c - 1)) && Holds(Le, at(c - 1).hdr(e.header), c);
      }
    case Ge => assert !StmtFires(p, s, at(c + 1)) && Holds(Ge, at(c + 1).hdr(e.header), c);
  }

  /**
   A predicate statement fires on exactly the values its operator names only for `==`; a list statement only
   for `in`; a monitor statement, whose extra operator is never read, only without an extra predicate, for
   `==`, and for `<= 0`.
   */
  lemma OperatorsKept(p: Program, s: Stmt)
    requires s.ListStmt? ==> s.listName in p.lists
    ensures s.PredStmt? ==>
              ((forall env: Env :: StmtFires(p, s, env) <==> Holds(s.pred.op, env.hdr(s.pred.header), s.pred.rhs)) <==> s.pred.op.Eq?)
    ensures s.ListStmt? ==>
              ((forall env: Env :: StmtFires(p, s, env) <==> (env.hdr(s.header) in p.lists[s.listName]) == s.listOp.In?) <==> s.listOp.In?)
    ensures s.MonStmt? ==>
              ((forall env: Env :: StmtFires(p, s, env) <==>
                  !env.active(s.mon) && (s.extra.Some? ==> Holds(s.extra.value.op, env.hdr(s.extra.value.header), s.extra.value.rhs)))
               <==> s.extra.None? || s.extra.value.op.Eq? || (s.extra.value.op.Le? && s.extra.value.rhs == 0))
  {
    var at := (v: nat) => Env(h => v, m => true);
    if s.PredStmt? {
      var c := s.pred.rhs;
      match s.pred.op
      case Eq =>
      case Lt => assert StmtFires(p, s, at(c)) && !Holds(Lt, c, c);
      case Gt => assert StmtFires(p, s, at(c)) != Holds(Gt, c, c) || StmtFires(p, s, at(c + 1)) != Holds(Gt, c + 1, c);
      case Le => assert !StmtFires(p, s, at(c)) && Holds(Le, c, c);
      case Ge => assert !StmtFires(p, s, at(c)) && Holds(Ge, c, c);
    } else if s.MonStmt? {
      if s.extra.Some? {
        ExtraOperator(p, s, s.extra.value);
      }
    } else if s.listOp.NotIn? {
      assert StmtFires(p, s, at(0)) <==> at(0).hdr(s.header) in p.lists[s.listName];
    }
  }
}
