/** Why the tables are right: a value bound to a name by a collected binding has
    the truth the table gives the name, as long as what was read before it had. */
module BoundTruth {
  import opened Wrappers
  import opened PythonAst
  import opened Folding
  import opened Execution
  import opened DeadRegions
  import opened DeadRegionSafety
  import opened ScopeTable
  import opened RegionWalker

  /** If everything its evaluation left in the trace is as expected, the value
      written has the truth its expression folds to. */
  ghost predicate RightAt(trace: seq<Event>, i: int, tables: Tables)
    requires 0 <= i < |trace| && trace[i].Wrote?
  {
    && trace[i].span <= i
    && (Faithful(trace[i - trace[i].span..i], tables) ==>
          var known := EvaluateTruthiness(trace[i].value, tables(trace[i].scope));
          known.None? || known == Some(trace[i].truth))
  }

  ghost predicate WritesRight(trace: seq<Event>, tables: Tables) {
    forall i :: 0 <= i < |trace| && trace[i].Wrote? ==> RightAt(trace, i, tables)
  }

  lemma RightOnTheLeft(a: seq<Event>, b: seq<Event>, i: int, tables: Tables)
    requires 0 <= i < |a| && a[i].Wrote? && RightAt(a, i, tables)
    ensures RightAt(a + b, i, tables)
  {
    hide Faithful, EvaluateTruthiness;
    assert (a + b)[i] == a[i];
    assert (a + b)[i - a[i].span..i] == a[i - a[i].span..i];
  }

  lemma RightOnTheRight(a: seq<Event>, b: seq<Event>, i: int, tables: Tables)
    requires 0 <= i < |b| && b[i].Wrote? && RightAt(b, i, tables)
    ensures (a + b)[|a| + i] == b[i] && RightAt(a + b, |a| + i, tables)
  {
    hide Faithful, EvaluateTruthiness;
    assert (a + b)[|a| + i - b[i].span..|a| + i] == b[i - b[i].span..i];
  }

  lemma JoinWrites(a: seq<Event>, b: seq<Event>, tables: Tables)
    requires WritesRight(a, tables) && WritesRight(b, tables)
    ensures WritesRight(a + b, tables)
  {
    hide RightAt;
    forall i | 0 <= i < |a + b| && (a + b)[i].Wrote?
      ensures RightAt(a + b, i, tables)
    {
      if i < |a| {
        RightOnTheLeft(a, b, i, tables);
      } else {
        RightOnTheRight(a, b, i - |a|, tables);
      }
    }
  }

  lemma NothingWritten(trace: seq<Event>, tables: Tables)
    requires forall e :: e in trace ==> !e.Wrote?
    ensures WritesRight(trace, tables)
  {
  }

  lemma StoresRight(value: Expr, scope: Scope, o: seq<bool>, id: string, tables: Tables)
    requires WritesRight(Run(value, scope, o).trace, tables)
    ensures WritesRight(Stored(Run(value, scope, o), scope, id, value).trace, tables)
  {
    hide Run;
    var r := Run(value, scope, o);
    if r.value.Truth? {
      var known := EvaluateTruthiness(value, tables(scope));
      if Faithful(r.trace, tables) && known.Some? {
        FoldingIsSound(value, scope, o, tables, known.value);
      }
      var w := [Wrote(scope, id, value, r.value.truth, |r.trace|)];
      forall i | 0 <= i < |r.trace + w| && (r.trace + w)[i].Wrote?
        ensures RightAt(r.trace + w, i, tables)
      {
        if i < |r.trace| {
          assert RightAt(r.trace, i, tables);
          assert (r.trace + w)[i - r.trace[i].span..i] == r.trace[i - r.trace[i].span..i];
        } else {
          assert (r.trace + w)[0..i] == r.trace;
        }
      }
    }
  }

  // -------------------------------------------------------------- expressions

  lemma {:induction false} RunWrites(e: Expr, scope: Scope, o: seq<bool>, tables: Tables)
    ensures WritesRight(Run(e, scope, o).trace, tables)
    decreases |o|, 0, 0
  {
    if o != [] && !o[0] {
      NodeWrites(e, scope, o[1..], tables);
    }
  }

  lemma {:induction false} NodeWrites(e: Expr, scope: Scope, o: seq<bool>, tables: Tables)
    ensures WritesRight(RunNode(e, scope, o).trace, tables)
    decreases |o|, 3, 0
  {
    hide WritesRight, Run, RunBool, RunItems, RunParts, Stored;
    match e
    case Display(_, items) => ItemsWrite(items, false, items != [], scope, o, tables);
    case Named(target, value) =>
      RunWrites(value, scope, o, tables);
      StoresRight(value, scope, o, target, tables);
    case BoolOp(op, values) => BoolWrites(op, values, scope, o, tables);
    case Not(operand) => RunWrites(operand, scope, o, tables);
    case OtherUnary(operand) => PartsWrite([operand], scope, o, tables);
    case BinOp(left, right) => PartsWrite([left, right], scope, o, tables);
    case Compare(left, comparators) => PartsWrite([left] + comparators, scope, o, tables);
    case OtherExpr(parts) => PartsWrite(parts, scope, o, tables);
    case _ => NothingWritten(RunNode(e, scope, o).trace, tables);
  }

  lemma {:induction false} BoolWrites(op: BoolOperator, values: seq<Expr>, scope: Scope, o: seq<bool>, tables: Tables)
    ensures WritesRight(RunBool(op, values, scope, o).trace, tables)
    decreases |o|, 2, |values|
  {
    hide WritesRight, Run;
    if values == [] {
      NothingWritten([], tables);
    } else {
      var first := Run(values[0], scope, o);
      RunWrites(values[0], scope, o, tables);
      if first.value == Truth(op.And?) {
        BoolWrites(op, values[1..], scope, first.rest, tables);
        JoinWrites(first.trace, RunBool(op, values[1..], scope, first.rest).trace, tables);
      }
    }
  }

  lemma {:induction false} ItemsWrite(items: seq<Item>, nonempty: bool, some: bool, scope: Scope, o: seq<bool>, tables: Tables)
    ensures WritesRight(RunItems(items, nonempty, some, scope, o).trace, tables)
    decreases |o|, 2, |items|
  {
    hide WritesRight, Run, RunParts;
    if items == [] {
      NothingWritten(RunItems(items, nonempty, some, scope, o).trace, tables);
      return;
    }
    var first := if items[0].Pair? then RunParts([items[0].key, items[0].value], scope, o)
                 else Run(items[0].value, scope, o);
    if items[0].Pair? {
      PartsWrite([items[0].key, items[0].value], scope, o, tables);
    } else {
      RunWrites(items[0].value, scope, o, tables);
    }
    var contributes := if items[0].Unpacked? then Choose(first.rest) else Eval(Truth(true), [], first.rest);
    if first.value.Truth? && contributes.value.Truth? {
      var nonempty' := nonempty || contributes.value.truth;
      ItemsWrite(items[1..], nonempty', some, scope, contributes.rest, tables);
      JoinWrites(first.trace, RunItems(items[1..], nonempty', some, scope, contributes.rest).trace, tables);
    }
  }

  lemma {:induction false} PartsWrite(parts: seq<Expr>, scope: Scope, o: seq<bool>, tables: Tables)
    ensures WritesRight(RunParts(parts, scope, o).trace, tables)
    decreases |o|, 1, |parts|
  {
    hide WritesRight, Run;
    var c := Choose(o);
    NothingWritten(c.trace, tables);
    if parts != [] && c.value.Truth? {
      if !c.value.truth {
        PartsWrite(parts[1..], scope, c.rest, tables);
      } else {
        var first := Run(parts[0], scope, c.rest);
        RunWrites(parts[0], scope, c.rest, tables);
        if first.value.Truth? {
          PartsWrite(parts[1..], scope, first.rest, tables);
          JoinWrites(first.trace, RunParts(parts[1..], scope, first.rest).trace, tables);
        }
      }
    }
  }

  // --------------------------------------------------------------- statements

  lemma AfterWrites(e: Eval, r: Res, tables: Tables)
    requires WritesRight(e.trace, tables) && WritesRight(r.trace, tables)
    ensures WritesRight(After(e, r).trace, tables)
  {
    JoinWrites(e.trace, r.trace, tables);
  }

  lemma ThenWrites(a: Res, b: Res, tables: Tables)
    requires WritesRight(a.trace, tables) && WritesRight(b.trace, tables)
    ensures WritesRight(Then(a, b).trace, tables)
  {
    JoinWrites(a.trace, b.trace, tables);
  }

  lemma EffectsWrite(e: Option<Expr>, target: Option<Expr>, parts: seq<Expr>, outcome: Outcome, scope: Scope, o: seq<bool>,
                     tables: Tables)
    ensures WritesRight(Effects(e, target, parts, outcome, scope, o).trace, tables)
  {
    hide WritesRight, Run, RunParts, Stored;
    if e.None? {
      PartsWrite(parts, scope, o, tables);
    } else {
      RunWrites(e.value, scope, o, tables);
      if target.Some? && target.value.Name? {
        StoresRight(e.value, scope, o, target.value.id, tables);
      }
      var v := if target.Some? && target.value.Name? then Stored(Run(e.value, scope, o), scope, target.value.id, e.value)
               else Run(e.value, scope, o);
      PartsWrite(parts, scope, v.rest, tables);
      AfterWrites(v, Ending(RunParts(parts, scope, v.rest), outcome), tables);
    }
  }

  lemma {:induction false} SuiteWrites(stmts: seq<Stmt>, scope: Scope, o: seq<bool>, tables: Tables)
    ensures WritesRight(ExecSuite(stmts, scope, o).trace, tables)
    decreases |o|, 2, |stmts|
  {
    hide WritesRight, ExecStmt;
    if stmts == [] {
      NothingWritten([], tables);
    } else {
      var first := ExecStmt(stmts[0], scope, o);
      StmtWrites(stmts[0], scope, o, tables);
      if first.outcome == Normal {
        SuiteWrites(stmts[1..], scope, first.rest, tables);
        ThenWrites(first, ExecSuite(stmts[1..], scope, first.rest), tables);
      }
    }
  }

  lemma {:induction false} StmtWrites(s: Stmt, scope: Scope, o: seq<bool>, tables: Tables)
    ensures WritesRight(ExecStmt(s, scope, o).trace, tables)
    decreases |o|, 1, 0
  {
    hide WritesRight, ExecNode;
    NothingWritten([], tables);
    NothingWritten([Ran(s.range)], tables);
    if o != [] && !o[0] {
      StmtNodeWrites(s, scope, o[1..], tables);
      JoinWrites([Ran(s.range)], ExecNode(s, scope, o[1..]).trace, tables);
    }
  }

  lemma {:induction false} StmtNodeWrites(s: Stmt, scope: Scope, o: seq<bool>, tables: Tables)
    ensures WritesRight(ExecNode(s, scope, o).trace, tables)
    decreases |o|, 4, 0
  {
    hide WritesRight, Effects, Run, RunParts, ExecSuite, ExecClauses, ExecWhile, ExecFor, ExecTry, ExecCases, ExecCalls, ExitManager;
    match s
    case Simple(_, parts) => EffectsWrite(None, None, parts, Normal, scope, o, tables);
    case ExprStmt(_, value) => EffectsWrite(Some(value), None, [], Normal, scope, o, tables);
    case Assign(_, targets, value) =>
      EffectsWrite(Some(value), if |targets| == 1 then Some(targets[0]) else None, targets, Normal, scope, o, tables);
    case AnnAssign(_, target, annotation, bound) =>
      EffectsWrite(bound, Some(target), [target, annotation], Normal, scope, o, tables);
    case Return(_, result) => EffectsWrite(result, None, [], Returned, scope, o, tables);
    case Raise(_, parts) => EffectsWrite(None, None, parts, Raising, scope, o, tables);
    case Break(_) => NothingWritten([], tables);
    case Continue(_) => NothingWritten([], tables);
    case Assert(_, test) =>
      var enabled := Choose(o);
      NothingWritten(ExecNode(s, scope, []).trace, tables);
      NothingWritten([], tables);
      NothingWritten([AssertSkipped], tables);
      RunWrites(test, scope, enabled.rest, tables);
    case If(_, test, body, clauses) =>
      var t := Run(test, scope, o);
      RunWrites(test, scope, o, tables);
      if t.value.Truth? && t.value.truth {
        SuiteWrites(body, scope, t.rest, tables);
        AfterWrites(t, ExecSuite(body, scope, t.rest), tables);
      } else if t.value.Truth? {
        ClausesWrite(clauses, scope, t.rest, tables);
        AfterWrites(t, ExecClauses(clauses, scope, t.rest), tables);
      }
    case While(_, test, body, orelse) => WhileWrites(test, body, orelse, scope, o, tables);
    case For(_, iter, body, orelse) =>
      var t := Run(iter, scope, o);
      RunWrites(iter, scope, o, tables);
      if t.value.Truth? {
        ForWrites(body, orelse, scope, t.rest, tables);
        AfterWrites(t, ExecFor(body, orelse, scope, t.rest), tables);
      }
    case With(_, parts, body) =>
      var t := RunParts(parts, scope, o);
      PartsWrite(parts, scope, o, tables);
      if t.value.Truth? {
        var b := ExecSuite(body, scope, t.rest);
        SuiteWrites(body, scope, t.rest, tables);
        ExitWrites(b, tables);
        AfterWrites(t, ExitManager(b), tables);
      }
    case Try(_, body, handlers, orelse, finalbody) => TryWrites(body, handlers, orelse, finalbody, scope, o, tables);
    case FunctionDef(_, body) => CallsWrite(body, scope + [body], o, tables);
    case ClassDef(_, body) => SuiteWrites(body, scope + [body], o, tables);
    case Match(_, subject, cases) =>
      var t := Run(subject, scope, o);
      RunWrites(subject, scope, o, tables);
      if t.value.Truth? {
        CasesWrite(cases, scope, t.rest, tables);
        AfterWrites(t, ExecCases(cases, scope, t.rest), tables);
      }
  }

  lemma ExitWrites(b: Res, tables: Tables)
    requires WritesRight(b.trace, tables)
    ensures WritesRight(ExitManager(b).trace, tables)
  {
    hide WritesRight;
    NothingWritten([Swallowed], tables);
    JoinWrites(b.trace, [Swallowed], tables);
  }

  lemma {:induction false} ClausesWrite(clauses: seq<Clause>, scope: Scope, o: seq<bool>, tables: Tables)
    ensures WritesRight(ExecClauses(clauses, scope, o).trace, tables)
    decreases |o|, 3, |clauses|
  {
    hide WritesRight, Run, ExecSuite;
    NothingWritten([], tables);
    if clauses == [] {
      return;
    }
    var c, here := clauses[0], Eval(Truth(true), [Ran(clauses[0].range)], o);
    NothingWritten(here.trace, tables);
    if c.test.None? {
      SuiteWrites(c.body, scope, o, tables);
      AfterWrites(here, ExecSuite(c.body, scope, o), tables);
      return;
    }
    var t := Run(c.test.value, scope, o);
    RunWrites(c.test.value, scope, o, tables);
    if !t.value.Truth? {
      AfterWrites(here, Res(Abort(t.value), t.trace, t.rest), tables);
    } else {
      var p := if t.value.truth then ExecSuite(c.body, scope, t.rest) else ExecClauses(clauses[1..], scope, t.rest);
      if t.value.truth {
        SuiteWrites(c.body, scope, t.rest, tables);
      } else {
        ClausesWrite(clauses[1..], scope, t.rest, tables);
      }
      AfterWrites(t, p, tables);
      AfterWrites(here, After(t, p), tables);
    }
  }

  lemma {:induction false} WhileWrites(test: Expr, body: seq<Stmt>, orelse: seq<Stmt>, scope: Scope, o: seq<bool>, tables: Tables)
    ensures WritesRight(ExecWhile(test, body, orelse, scope, o).trace, tables)
    decreases |o|, 3, 0
  {
    hide WritesRight, ExecSuite;
    var t := Run(test, scope, o);
    RunWrites(test, scope, o, tables);
    if t.value.Truth? && !t.value.truth {
      SuiteWrites(orelse, scope, t.rest, tables);
      AfterWrites(t, ExecSuite(orelse, scope, t.rest), tables);
    } else if t.value.Truth? {
      var b := ExecSuite(body, scope, t.rest);
      SuiteWrites(body, scope, t.rest, tables);
      AfterWrites(t, b, tables);
      if b.outcome in {Normal, Continued} {
        var more := ExecWhile(test, body, orelse, scope, b.rest);
        WhileWrites(test, body, orelse, scope, b.rest, tables);
        ThenWrites(b, more, tables);
        AfterWrites(t, Then(b, more), tables);
      }
    }
  }

  lemma {:induction false} ForWrites(body: seq<Stmt>, orelse: seq<Stmt>, scope: Scope, o: seq<bool>, tables: Tables)
    ensures WritesRight(ExecFor(body, orelse, scope, o).trace, tables)
    decreases |o|, 3, 0
  {
    hide WritesRight, ExecSuite;
    NothingWritten([], tables);
    if o != [] && !o[0] {
      var more := Choose(o[1..]);
      SuiteWrites(orelse, scope, more.rest, tables);
      SuiteWrites(body, scope, more.rest, tables);
      var b := ExecSuite(body, scope, more.rest);
      if more.value.Truth? && more.value.truth && b.outcome in {Normal, Continued} {
        ForWrites(body, orelse, scope, b.rest, tables);
        ThenWrites(b, ExecFor(body, orelse, scope, b.rest), tables);
      }
    }
  }

  lemma {:induction false} TryWrites(body: seq<Stmt>, handlers: seq<Arm>, orelse: seq<Stmt>, finalbody: seq<Stmt>,
                                     scope: Scope, o: seq<bool>, tables: Tables)
    ensures WritesRight(ExecTry(body, handlers, orelse, finalbody, scope, o).trace, tables)
    decreases |o|, 3, |handlers| + 1
  {
    hide WritesRight, ExecSuite, ExecHandlers;
    var b := ExecSuite(body, scope, o);
    SuiteWrites(body, scope, o, tables);
    SuiteWrites(orelse, scope, b.rest, tables);
    HandlersWrite(handlers, scope, b.rest, tables);
    ThenWrites(b, ExecSuite(orelse, scope, b.rest), tables);
    ThenWrites(b, ExecHandlers(handlers, scope, b.rest), tables);
    var m := if b.outcome == Normal then Then(b, ExecSuite(orelse, scope, b.rest))
             else if b.outcome == Raising then Then(b, ExecHandlers(handlers, scope, b.rest))
             else b;
    var f := ExecSuite(finalbody, scope, m.rest);
    SuiteWrites(finalbody, scope, m.rest, tables);
    ThenWrites(m, f, tables);
  }

  lemma {:induction false} HandlersWrite(handlers: seq<Arm>, scope: Scope, o: seq<bool>, tables: Tables)
    ensures WritesRight(ExecHandlers(handlers, scope, o).trace, tables)
    decreases |o|, 3, |handlers|
  {
    hide WritesRight, ExecSuite;
    NothingWritten([], tables);
    var matches := if handlers == [] then Choose(o) else Taken(handlers[0], o);
    if handlers != [] && matches.value.Truth? {
      if matches.value.truth {
        SuiteWrites(handlers[0].body, scope, matches.rest, tables);
      } else {
        HandlersWrite(handlers[1..], scope, matches.rest, tables);
      }
    }
  }

  lemma {:induction false} CasesWrite(cases: seq<Arm>, scope: Scope, o: seq<bool>, tables: Tables)
    ensures WritesRight(ExecCases(cases, scope, o).trace, tables)
    decreases |o|, 3, |cases|
  {
    hide WritesRight, ExecSuite;
    NothingWritten([], tables);
    var matches := if cases == [] then Choose(o) else Taken(cases[0], o);
    if cases != [] && matches.value.Truth? {
      if matches.value.truth {
        SuiteWrites(cases[0].body, scope, matches.rest, tables);
      } else {
        CasesWrite(cases[1..], scope, matches.rest, tables);
      }
    }
  }

  lemma {:induction false} CallsWrite(body: seq<Stmt>, scope: Scope, o: seq<bool>, tables: Tables)
    ensures WritesRight(ExecCalls(body, scope, o).trace, tables)
    decreases |o|, 3, 0
  {
    hide WritesRight, ExecSuite;
    NothingWritten([], tables);
    var again := Choose(o);
    if again.value.Truth? && again.value.truth {
      var b := ExecSuite(body, scope, again.rest);
      SuiteWrites(body, scope, again.rest, tables);
      if b.outcome != Stopped {
        CallsWrite(body, scope, b.rest, tables);
        ThenWrites(b, ExecCalls(body, scope, b.rest), tables);
      }
    }
  }

  // ------------------------------------------------------- where entries come from

  /** The innermost scope around `scope` that has collected bindings of `id`. */
  function Home(scope: Scope, id: string): Scope
    decreases |scope|
  {
    if scope == [] || id in CollectScope(scope[|scope| - 1], map[]) then scope else Home(scope[..|scope| - 1], id)
  }

  ghost function BindingsOf(scope: Scope, id: string): seq<Expr> {
    if scope == [] then [] else
      var b := CollectScope(scope[|scope| - 1], map[]);
      if id in b then b[id] else []
  }

  /** A tabled entry is what every binding of the name, in the scope it is bound
      in, folds to under that scope's own table. */
  lemma {:induction false} EntriesComeFromBindings(scope: Scope, id: string, e: Expr, cfg: Config)
    requires cfg.Valid() && id in TablesOf(cfg)(scope) && e in BindingsOf(Home(scope, id), id)
    ensures EvaluateTruthiness(e, TablesOf(cfg)(Home(scope, id))) == Some(TablesOf(cfg)(scope)[id])
    decreases |scope|
  {
    if scope != [] {
      var enclosing := TableOf(scope[..|scope| - 1], cfg).value;
      var b := CollectScope(scope[|scope| - 1], map[]);
      ExitIsSettled(b, cfg.order(b), enclosing, State(enclosing, {}), cfg.budget);
      var st := Rounds(b, cfg.order(b), State(enclosing, {}), cfg.budget).value;
      assert Get(st.table, id) == Some(st.table[id]);
      if id in b {
        assert Resolve(b[id], st.table) == Some(st.table[id]);
      } else {
        assert Get(st.table, id) == Get(enclosing, id);
        TableInForce(scope, cfg, st.table);
        TableInForce(scope[..|scope| - 1], cfg, enclosing);
        EntriesComeFromBindings(scope[..|scope| - 1], id, e, cfg);
        assert Home(scope, id) == Home(scope[..|scope| - 1], id);
      }
    }
  }

  // --------------------------------------------------------------- the theorem

  /** When each event of a trace happened. It need not follow the trace, in which
      the calls of a function stand at its `def`; but a value is evaluated before
      it is bound. */
  ghost predicate Timed(trace: seq<Event>, time: seq<nat>) {
    && |time| == |trace|
    && forall i, j :: 0 <= j < i < |trace| && trace[i].Wrote? && i - trace[i].span <= j ==> time[j] < time[i]
  }

  /** The read at `i` sees what a collected binding of the name had put there. */
  ghost predicate SawABinding(trace: seq<Event>, time: seq<nat>, i: int, j: int)
    requires |time| == |trace| && 0 <= i < |trace| && trace[i].Read?
  {
    var home := Home(trace[i].scope, trace[i].id);
    && 0 <= j < |trace| && trace[j].Wrote? && time[j] < time[i]
    && trace[j].scope == home && trace[j].id == trace[i].id && trace[j].truth == trace[i].truth
    && trace[j].value in BindingsOf(home, trace[i].id)
  }

  /** Tabled names are bound by collected bindings only, and looked up where
      they are bound; displays with entries are not empty, no exception is
      swallowed, no assert is skipped. Nothing is said about the tables' values. */
  ghost predicate Orderly(trace: seq<Event>, time: seq<nat>, tables: Tables) {
    && Timed(trace, time)
    && forall i :: 0 <= i < |trace| ==>
         match trace[i]
         case Ran(_) | Wrote(_, _, _, _, _) => true
         case Read(scope, id, _) => id in tables(scope) ==> exists j :: SawABinding(trace, time, i, j)
         case EmptyDisplay | Swallowed | AssertSkipped => false
  }

  lemma ReadIsExpected(trace: seq<Event>, time: seq<nat>, cfg: Config, i: int, j: int)
    requires cfg.Valid() && |time| == |trace| && 0 <= i < |trace| && trace[i].Read?
    requires trace[i].id in TablesOf(cfg)(trace[i].scope) && SawABinding(trace, time, i, j)
    requires RightAt(trace, j, TablesOf(cfg)) && Faithful(trace[j - trace[j].span..j], TablesOf(cfg))
    ensures Expected(trace[i], TablesOf(cfg))
  {
    hide EvaluateTruthiness, TablesOf, TableOf, Home, BindingsOf;
    EntriesComeFromBindings(trace[i].scope, trace[i].id, trace[j].value, cfg);
  }

  /** Everything that happened before `now` is as expected. */
  lemma {:induction false} OrderlyUntil(trace: seq<Event>, time: seq<nat>, cfg: Config, now: nat)
    requires cfg.Valid() && WritesRight(trace, TablesOf(cfg)) && Orderly(trace, time, TablesOf(cfg))
    ensures forall i :: 0 <= i < |trace| && time[i] < now ==> Expected(trace[i], TablesOf(cfg))
    decreases now
  {
    hide TablesOf, TableOf, SawABinding, RightAt;
    if now > 0 {
      OrderlyUntil(trace, time, cfg, now - 1);
      forall i | 0 <= i < |trace| && time[i] < now
        ensures Expected(trace[i], TablesOf(cfg))
      {
        if trace[i].Read? && trace[i].id in TablesOf(cfg)(trace[i].scope) {
          var j :| SawABinding(trace, time, i, j);
          EvaluatedBefore(trace, time, cfg, i, j, now - 1);
          ReadIsExpected(trace, time, cfg, i, j);
        }
      }
    }
  }

  lemma EvaluatedBefore(trace: seq<Event>, time: seq<nat>, cfg: Config, i: int, j: int, now: nat)
    requires cfg.Valid() && WritesRight(trace, TablesOf(cfg)) && Timed(trace, time)
    requires 0 <= i < |trace| && trace[i].Read? && SawABinding(trace, time, i, j) && time[i] <= now
    requires forall k :: 0 <= k < |trace| && time[k] < now ==> Expected(trace[k], TablesOf(cfg))
    ensures 0 <= j < |trace| && trace[j].Wrote?
    ensures RightAt(trace, j, TablesOf(cfg)) && Faithful(trace[j - trace[j].span..j], TablesOf(cfg))
  {
    hide TablesOf, TableOf, Home, BindingsOf, Expected;
    assert RightAt(trace, j, TablesOf(cfg));
    var from := j - trace[j].span;
    forall e | e in trace[from..j]
      ensures Expected(e, TablesOf(cfg))
    {
      var k :| from <= k < j && trace[k] == e;
      assert time[k] < time[j];
    }
  }

  /** The tables are right: in an orderly run every read of a tabled name sees
      the tabled truth. */
  lemma OrderlyRunsAreFaithful(stmts: seq<Stmt>, scope: Scope, o: seq<bool>, time: seq<nat>, cfg: Config)
    requires cfg.Valid() && Orderly(ExecSuite(stmts, scope, o).trace, time, TablesOf(cfg))
    ensures Faithful(ExecSuite(stmts, scope, o).trace, TablesOf(cfg))
  {
    hide TablesOf, TableOf, ExecSuite;
    var trace := ExecSuite(stmts, scope, o).trace;
    SuiteWrites(stmts, scope, o, TablesOf(cfg));
    forall e | e in trace
      ensures Expected(e, TablesOf(cfg))
    {
      var i :| 0 <= i < |trace| && trace[i] == e;
      OrderlyUntil(trace, time, cfg, time[i] + 1);
    }
  }

  /** What the analysis reports for a module is started by no orderly run of it. */
  lemma ReportedNeverRuns(body: seq<Stmt>, cfg: Config, o: seq<bool>, time: seq<nat>, ran: Span, dead: Span)
    requires cfg.Valid() && Placed(body, 0)
    requires dead in DeadSuite(body, [body], TablesOf(cfg))
    requires Orderly(ExecSuite(body, [body], o).trace, time, TablesOf(cfg)) && Ran(ran) in ExecSuite(body, [body], o).trace
    ensures !Contains(dead, ran)
  {
    OrderlyRunsAreFaithful(body, [body], o, time, cfg);
    DeadNeverRuns(body, [body], o, TablesOf(cfg), 0, ran, dead);
  }
}
