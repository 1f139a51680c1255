/** A condition on the source under which the tables can be relied on: a name the
    analysis collects a binding of is bound in that scope by collected bindings
    only, in nested blocks and inside expressions too. */
module BindingDiscipline {
  import opened Wrappers
  import opened PythonAst
  import opened Folding
  import opened Execution
  import opened DeadRegions
  import opened ScopeTable
  import opened RegionWalker
  import opened BoundTruth

  /** Says of a scope, a name and an expression whether the one may be bound to the
      other there. */
  type Rule = (Scope, string, Expr) -> bool

  // ------------------------------------------------- every binding in the source

  /** Every walrus in the expression, wherever it stands, keeps the rule. */
  ghost predicate ExprKeeps(e: Expr, scope: Scope, rule: Rule)
    decreases e
  {
    match e
    case Named(target, value) => rule(scope, target, value) && ExprKeeps(value, scope, rule)
    case BoolOp(_, values) => ExprsKeep(values, scope, rule)
    case Display(_, items) => ItemsKeep(items, scope, rule)
    case Not(operand) => ExprKeeps(operand, scope, rule)
    case OtherUnary(operand) => ExprKeeps(operand, scope, rule)
    case BinOp(left, right) => ExprKeeps(left, scope, rule) && ExprKeeps(right, scope, rule)
    case Compare(left, comparators) => ExprKeeps(left, scope, rule) && ExprsKeep(comparators, scope, rule)
    case OtherExpr(parts) => ExprsKeep(parts, scope, rule)
    case _ => true
  }

  ghost predicate ExprsKeep(es: seq<Expr>, scope: Scope, rule: Rule)
    decreases es
  {
    forall k :: 0 <= k < |es| ==> ExprKeeps(es[k], scope, rule)
  }

  ghost predicate ItemsKeep(items: seq<Item>, scope: Scope, rule: Rule)
    decreases items
  {
    forall k :: 0 <= k < |items| ==> ItemKeeps(items[k], scope, rule)
  }

  ghost predicate ItemKeeps(item: Item, scope: Scope, rule: Rule)
    decreases item
  {
    match item
    case Plain(value) => ExprKeeps(value, scope, rule)
    case Pair(key, value) => ExprKeeps(key, scope, rule) && ExprKeeps(value, scope, rule)
    case Unpacked(value) => ExprKeeps(value, scope, rule)
  }

  ghost predicate SomeKeeps(e: Option<Expr>, scope: Scope, rule: Rule) {
    e.Some? ==> ExprKeeps(e.value, scope, rule)
  }

  /** An assignment to a name keeps the rule. */
  ghost predicate TargetKeeps(target: Option<Expr>, e: Option<Expr>, scope: Scope, rule: Rule) {
    target.Some? && target.value.Name? && e.Some? ==> rule(scope, target.value.id, e.value)
  }

  /** Every binding in the statement, and in what it nests, keeps the rule. */
  ghost predicate StmtKeeps(s: Stmt, scope: Scope, rule: Rule)
    decreases s, 0
  {
    match s
    case Simple(_, parts) => ExprsKeep(parts, scope, rule)
    case ExprStmt(_, value) => ExprKeeps(value, scope, rule)
    case Assign(_, targets, value) =>
      && TargetKeeps(if |targets| == 1 then Some(targets[0]) else None, Some(value), scope, rule)
      && ExprsKeep(targets, scope, rule) && ExprKeeps(value, scope, rule)
    case AnnAssign(_, target, annotation, bound) =>
      TargetKeeps(Some(target), bound, scope, rule) && ExprsKeep([target, annotation], scope, rule) && SomeKeeps(bound, scope, rule)
    case Return(_, result) => SomeKeeps(result, scope, rule)
    case Raise(_, parts) => ExprsKeep(parts, scope, rule)
    case Break(_) => true
    case Continue(_) => true
    case Assert(_, test) => ExprKeeps(test, scope, rule)
    case If(_, test, body, clauses) =>
      ExprKeeps(test, scope, rule) && SuiteKeeps(body, scope, rule) && ClausesKeep(clauses, scope, rule)
    case While(_, test, body, orelse) =>
      ExprKeeps(test, scope, rule) && SuiteKeeps(body, scope, rule) && SuiteKeeps(orelse, scope, rule)
    case For(_, iter, body, orelse) =>
      ExprKeeps(iter, scope, rule) && SuiteKeeps(body, scope, rule) && SuiteKeeps(orelse, scope, rule)
    case With(_, parts, body) => ExprsKeep(parts, scope, rule) && SuiteKeeps(body, scope, rule)
    case Try(_, body, handlers, orelse, finalbody) =>
      && SuiteKeeps(body, scope, rule) && ArmsKeep(handlers, scope, rule)
      && SuiteKeeps(orelse, scope, rule) && SuiteKeeps(finalbody, scope, rule)
    case FunctionDef(_, body) => SuiteKeeps(body, scope + [body], rule)
    case ClassDef(_, body) => SuiteKeeps(body, scope + [body], rule)
    case Match(_, subject, cases) => ExprKeeps(subject, scope, rule) && ArmsKeep(cases, scope, rule)
  }

  ghost predicate SuiteKeeps(stmts: seq<Stmt>, scope: Scope, rule: Rule)
    decreases stmts, 0
  {
    stmts == [] || (StmtKeeps(stmts[0], scope, rule) && SuiteKeeps(stmts[1..], scope, rule))
  }

  ghost predicate ClausesKeep(clauses: seq<Clause>, scope: Scope, rule: Rule)
    decreases clauses, 0
  {
    clauses == [] ||
    (SomeKeeps(clauses[0].test, scope, rule) && SuiteKeeps(clauses[0].body, scope, rule)
     && ClausesKeep(clauses[1..], scope, rule))
  }

  ghost predicate ArmsKeep(arms: seq<Arm>, scope: Scope, rule: Rule)
    decreases arms, 0
  {
    arms == [] || (SuiteKeeps(arms[0].body, scope, rule) && ArmsKeep(arms[1..], scope, rule))
  }

  // ------------------------------------------------------ every write in the trace

  ghost predicate TraceKeeps(trace: seq<Event>, rule: Rule) {
    forall e :: e in trace && e.Wrote? ==> rule(e.scope, e.id, e.value)
  }

  lemma JoinKeeps(a: seq<Event>, b: seq<Event>, rule: Rule)
    requires TraceKeeps(a, rule) && TraceKeeps(b, rule)
    ensures TraceKeeps(a + b, rule)
  {
  }

  lemma AfterKeeps(e: Eval, r: Res, rule: Rule)
    requires TraceKeeps(e.trace, rule) && TraceKeeps(r.trace, rule)
    ensures TraceKeeps(After(e, r).trace, rule)
  {
  }

  lemma ThenKeeps(a: Res, b: Res, rule: Rule)
    requires TraceKeeps(a.trace, rule) && TraceKeeps(b.trace, rule)
    ensures TraceKeeps(Then(a, b).trace, rule)
  {
  }

  lemma NothingWrittenKeeps(trace: seq<Event>, rule: Rule)
    requires forall e :: e in trace ==> !e.Wrote?
    ensures TraceKeeps(trace, rule)
  {
  }

  lemma StoredKeeps(r: Eval, scope: Scope, id: string, value: Expr, rule: Rule)
    requires TraceKeeps(r.trace, rule) && rule(scope, id, value)
    ensures TraceKeeps(Stored(r, scope, id, value).trace, rule)
  {
  }

  lemma {:induction false} RunKeeps(e: Expr, scope: Scope, o: seq<bool>, rule: Rule)
    requires ExprKeeps(e, scope, rule)
    ensures TraceKeeps(Run(e, scope, o).trace, rule)
    decreases |o|, 0, 0
  {
    hide TraceKeeps, RunNode, ExprKeeps;
    NothingWrittenKeeps([], rule);
    if o != [] && !o[0] {
      NodeKeeps(e, scope, o[1..], rule);
    }
  }

  lemma {:induction false} NodeKeeps(e: Expr, scope: Scope, o: seq<bool>, rule: Rule)
    requires ExprKeeps(e, scope, rule)
    ensures TraceKeeps(RunNode(e, scope, o).trace, rule)
    decreases |o|, 3, 0
  {
    hide TraceKeeps, Run, RunBool, RunItems, RunParts, Stored;
    match e
    case Display(_, items) => RunItemsKeeps(items, false, items != [], scope, o, rule);
    case Named(target, value) =>
      RunKeeps(value, scope, o, rule);
      StoredKeeps(Run(value, scope, o), scope, target, value, rule);
    case BoolOp(op, values) => RunBoolKeeps(op, values, scope, o, rule);
    case Not(operand) => RunKeeps(operand, scope, o, rule);
    case OtherUnary(operand) => RunPartsKeeps([operand], scope, o, rule);
    case BinOp(left, right) => RunPartsKeeps([left, right], scope, o, rule);
    case Compare(left, comparators) => RunPartsKeeps([left] + comparators, scope, o, rule);
    case OtherExpr(parts) => RunPartsKeeps(parts, scope, o, rule);
    case _ => NothingWrittenKeeps(RunNode(e, scope, o).trace, rule);
  }

  lemma RestKeeps(es: seq<Expr>, scope: Scope, rule: Rule)
    requires ExprsKeep(es, scope, rule) && es != []
    ensures ExprKeeps(es[0], scope, rule) && ExprsKeep(es[1..], scope, rule)
  {
    hide ExprKeeps;
  }

  lemma {:induction false} RunBoolKeeps(op: BoolOperator, values: seq<Expr>, scope: Scope, o: seq<bool>, rule: Rule)
    requires ExprsKeep(values, scope, rule)
    ensures TraceKeeps(RunBool(op, values, scope, o).trace, rule)
    decreases |o|, 2, |values|
  {
    hide TraceKeeps, Run, ExprKeeps, ExprsKeep;
    if values == [] {
      NothingWrittenKeeps([], rule);
    } else {
      RestKeeps(values, scope, rule);
      var first := Run(values[0], scope, o);
      RunKeeps(values[0], scope, o, rule);
      if first.value == Truth(op.And?) {
        RunBoolKeeps(op, values[1..], scope, first.rest, rule);
        JoinKeeps(first.trace, RunBool(op, values[1..], scope, first.rest).trace, rule);
      }
    }
  }

  lemma RestOfItemsKeeps(items: seq<Item>, scope: Scope, rule: Rule)
    requires ItemsKeep(items, scope, rule) && items != []
    ensures ItemKeeps(items[0], scope, rule) && ItemsKeep(items[1..], scope, rule)
  {
    hide ItemKeeps;
  }

  function FirstOf(items: seq<Item>, scope: Scope, o: seq<bool>): Eval
    requires items != []
  {
    if items[0].Pair? then RunParts([items[0].key, items[0].value], scope, o) else Run(items[0].value, scope, o)
  }

  lemma {:induction false} FirstOfKeeps(items: seq<Item>, scope: Scope, o: seq<bool>, rule: Rule)
    requires items != [] && ItemKeeps(items[0], scope, rule)
    ensures TraceKeeps(FirstOf(items, scope, o).trace, rule)
    decreases |o|, 2, |items|, 0
  {
    hide TraceKeeps, Run, RunParts, ExprKeeps;
    if items[0].Pair? {
      RunPartsKeeps([items[0].key, items[0].value], scope, o, rule);
    } else {
      RunKeeps(items[0].value, scope, o, rule);
    }
  }

  lemma {:induction false} RunItemsKeeps(items: seq<Item>, nonempty: bool, some: bool, scope: Scope, o: seq<bool>, rule: Rule)
    requires ItemsKeep(items, scope, rule)
    ensures TraceKeeps(RunItems(items, nonempty, some, scope, o).trace, rule)
    decreases |o|, 2, |items|
  {
    hide TraceKeeps, Run, RunParts, ItemsKeep, ItemKeeps;
    if items == [] {
      NothingWrittenKeeps(RunItems(items, nonempty, some, scope, o).trace, rule);
      return;
    }
    RestOfItemsKeeps(items, scope, rule);
    FirstOfKeeps(items, scope, o, rule);
    var first := FirstOf(items, scope, o);
    var contributes := if items[0].Unpacked? then Choose(first.rest) else Eval(Truth(true), [], first.rest);
    if first.value.Truth? && contributes.value.Truth? {
      var nonempty' := nonempty || contributes.value.truth;
      RunItemsKeeps(items[1..], nonempty', some, scope, contributes.rest, rule);
      JoinKeeps(first.trace, RunItems(items[1..], nonempty', some, scope, contributes.rest).trace, rule);
    }
  }

  lemma {:induction false} RunPartsKeeps(parts: seq<Expr>, scope: Scope, o: seq<bool>, rule: Rule)
    requires ExprsKeep(parts, scope, rule)
    ensures TraceKeeps(RunParts(parts, scope, o).trace, rule)
    decreases |o|, 1, |parts|
  {
    hide TraceKeeps, Run, ExprKeeps, ExprsKeep;
    var c := Choose(o);
    NothingWrittenKeeps(c.trace, rule);
    if parts != [] && c.value.Truth? {
      RestKeeps(parts, scope, rule);
      if !c.value.truth {
        RunPartsKeeps(parts[1..], scope, c.rest, rule);
      } else {
        var first := Run(parts[0], scope, c.rest);
        RunKeeps(parts[0], scope, c.rest, rule);
        if first.value.Truth? {
          RunPartsKeeps(parts[1..], scope, first.rest, rule);
          JoinKeeps(first.trace, RunParts(parts[1..], scope, first.rest).trace, rule);
        }
      }
    }
  }

  lemma EffectsKeep(e: Option<Expr>, target: Option<Expr>, parts: seq<Expr>, outcome: Outcome, scope: Scope, o: seq<bool>,
                    rule: Rule)
    requires SomeKeeps(e, scope, rule) && TargetKeeps(target, e, scope, rule) && ExprsKeep(parts, scope, rule)
    ensures TraceKeeps(Effects(e, target, parts, outcome, scope, o).trace, rule)
  {
    hide TraceKeeps, Run, RunParts, Stored, ExprsKeep, ExprKeeps;
    if e.None? {
      RunPartsKeeps(parts, scope, o, rule);
    } else {
      RunKeeps(e.value, scope, o, rule);
      if target.Some? && target.value.Name? {
        StoredKeeps(Run(e.value, scope, o), scope, target.value.id, e.value, rule);
      }
      var v := if target.Some? && target.value.Name? then Stored(Run(e.value, scope, o), scope, target.value.id, e.value)
               else Run(e.value, scope, o);
      RunPartsKeeps(parts, scope, v.rest, rule);
      AfterKeeps(v, Ending(RunParts(parts, scope, v.rest), outcome), rule);
    }
  }

  lemma {:induction false} ExecSuiteKeeps(stmts: seq<Stmt>, scope: Scope, o: seq<bool>, rule: Rule)
    requires SuiteKeeps(stmts, scope, rule)
    ensures TraceKeeps(ExecSuite(stmts, scope, o).trace, rule)
    decreases |o|, 2, |stmts|
  {
    hide TraceKeeps, ExecStmt, StmtKeeps;
    if stmts == [] {
      NothingWrittenKeeps([], rule);
    } else {
      var first := ExecStmt(stmts[0], scope, o);
      ExecStmtKeeps(stmts[0], scope, o, rule);
      if first.outcome == Normal {
        ExecSuiteKeeps(stmts[1..], scope, first.rest, rule);
        ThenKeeps(first, ExecSuite(stmts[1..], scope, first.rest), rule);
      }
    }
  }

  lemma {:induction false} ExecStmtKeeps(s: Stmt, scope: Scope, o: seq<bool>, rule: Rule)
    requires StmtKeeps(s, scope, rule)
    ensures TraceKeeps(ExecStmt(s, scope, o).trace, rule)
    decreases |o|, 1, 0
  {
    hide TraceKeeps, ExecNode, StmtKeeps;
    NothingWrittenKeeps([], rule);
    NothingWrittenKeeps([Ran(s.range)], rule);
    if o != [] && !o[0] {
      ExecNodeKeeps(s, scope, o[1..], rule);
      JoinKeeps([Ran(s.range)], ExecNode(s, scope, o[1..]).trace, rule);
    }
  }

  lemma {:induction false} ExecNodeKeeps(s: Stmt, scope: Scope, o: seq<bool>, rule: Rule)
    requires StmtKeeps(s, scope, rule)
    ensures TraceKeeps(ExecNode(s, scope, o).trace, rule)
    decreases |o|, 4, 0
  {
    hide TraceKeeps, Effects, Run, RunParts, ExecSuite, ExecClauses, ExecWhile, ExecFor, ExecTry, ExecCases, ExecCalls, ExitManager;
    hide ExprKeeps, ExprsKeep, SuiteKeeps, ClausesKeep, ArmsKeep, TargetKeeps;
    match s
    case Simple(_, parts) => NoTargetKeeps(None, None, parts, Normal, scope, o, rule);
    case ExprStmt(_, value) => NoTargetKeeps(Some(value), None, [], Normal, scope, o, rule);
    case Assign(_, targets, value) =>
      EffectsKeep(Some(value), if |targets| == 1 then Some(targets[0]) else None, targets, Normal, scope, o, rule);
    case AnnAssign(_, target, annotation, bound) =>
      EffectsKeep(bound, Some(target), [target, annotation], Normal, scope, o, rule);
    case Return(_, result) => NoTargetKeeps(result, None, [], Returned, scope, o, rule);
    case Raise(_, parts) => NoTargetKeeps(None, None, parts, Raising, scope, o, rule);
    case Break(_) => NothingWrittenKeeps([], rule);
    case Continue(_) => NothingWrittenKeeps([], rule);
    case Assert(_, test) =>
      var enabled := Choose(o);
      NothingWrittenKeeps([], rule);
      NothingWrittenKeeps([AssertSkipped], rule);
      RunKeeps(test, scope, enabled.rest, rule);
    case If(_, test, body, clauses) =>
      var t := Run(test, scope, o);
      RunKeeps(test, scope, o, rule);
      if t.value.Truth? && t.value.truth {
        ExecSuiteKeeps(body, scope, t.rest, rule);
        AfterKeeps(t, ExecSuite(body, scope, t.rest), rule);
      } else if t.value.Truth? {
        ExecClausesKeep(clauses, scope, t.rest, rule);
        AfterKeeps(t, ExecClauses(clauses, scope, t.rest), rule);
      }
    case While(_, test, body, orelse) => ExecWhileKeeps(test, body, orelse, scope, o, rule);
    case For(_, iter, body, orelse) =>
      var t := Run(iter, scope, o);
      RunKeeps(iter, scope, o, rule);
      if t.value.Truth? {
        ExecForKeeps(body, orelse, scope, t.rest, rule);
        AfterKeeps(t, ExecFor(body, orelse, scope, t.rest), rule);
      }
    case With(_, parts, body) =>
      var t := RunParts(parts, scope, o);
      RunPartsKeeps(parts, scope, o, rule);
      if t.value.Truth? {
        var b := ExecSuite(body, scope, t.rest);
        ExecSuiteKeeps(body, scope, t.rest, rule);
        ExitKeeps(b, rule);
        AfterKeeps(t, ExitManager(b), rule);
      }
    case Try(_, body, handlers, orelse, finalbody) => ExecTryKeeps(body, handlers, orelse, finalbody, scope, o, rule);
    case FunctionDef(_, body) => ExecCallsKeep(body, scope + [body], o, rule);
    case ClassDef(_, body) => ExecSuiteKeeps(body, scope + [body], o, rule);
    case Match(_, subject, cases) =>
      var t := Run(subject, scope, o);
      RunKeeps(subject, scope, o, rule);
      if t.value.Truth? {
        ExecCasesKeep(cases, scope, t.rest, rule);
        AfterKeeps(t, ExecCases(cases, scope, t.rest), rule);
      }
  }

  lemma NoTargetKeeps(e: Option<Expr>, target: Option<Expr>, parts: seq<Expr>, outcome: Outcome, scope: Scope, o: seq<bool>,
                      rule: Rule)
    requires target.None? && SomeKeeps(e, scope, rule) && (parts != [] ==> ExprsKeep(parts, scope, rule))
    ensures TraceKeeps(Effects(e, target, parts, outcome, scope, o).trace, rule)
  {
    EffectsKeep(e, target, parts, outcome, scope, o, rule);
  }

  lemma ExitKeeps(b: Res, rule: Rule)
    requires TraceKeeps(b.trace, rule)
    ensures TraceKeeps(ExitManager(b).trace, rule)
  {
    hide TraceKeeps;
    NothingWrittenKeeps([Swallowed], rule);
    JoinKeeps(b.trace, [Swallowed], rule);
  }

  lemma {:induction false} ExecClausesKeep(clauses: seq<Clause>, scope: Scope, o: seq<bool>, rule: Rule)
    requires ClausesKeep(clauses, scope, rule)
    ensures TraceKeeps(ExecClauses(clauses, scope, o).trace, rule)
    decreases |o|, 3, |clauses|
  {
    hide TraceKeeps, Run, ExecSuite, ExprKeeps, SuiteKeeps;
    NothingWrittenKeeps([], rule);
    if clauses == [] {
      return;
    }
    var c, here := clauses[0], Eval(Truth(true), [Ran(clauses[0].range)], o);
    NothingWrittenKeeps(here.trace, rule);
    if c.test.None? {
      ExecSuiteKeeps(c.body, scope, o, rule);
      AfterKeeps(here, ExecSuite(c.body, scope, o), rule);
      return;
    }
    var t := Run(c.test.value, scope, o);
    RunKeeps(c.test.value, scope, o, rule);
    if !t.value.Truth? {
      AfterKeeps(here, Res(Abort(t.value), t.trace, t.rest), rule);
    } else {
      var p := if t.value.truth then ExecSuite(c.body, scope, t.rest) else ExecClauses(clauses[1..], scope, t.rest);
      if t.value.truth {
        ExecSuiteKeeps(c.body, scope, t.rest, rule);
      } else {
        ExecClausesKeep(clauses[1..], scope, t.rest, rule);
      }
      AfterKeeps(t, p, rule);
      AfterKeeps(here, After(t, p), rule);
    }
  }

  lemma {:induction false} ExecWhileKeeps(test: Expr, body: seq<Stmt>, orelse: seq<Stmt>, scope: Scope, o: seq<bool>, rule: Rule)
    requires ExprKeeps(test, scope, rule) && SuiteKeeps(body, scope, rule) && SuiteKeeps(orelse, scope, rule)
    ensures TraceKeeps(ExecWhile(test, body, orelse, scope, o).trace, rule)
    decreases |o|, 3, 0
  {
    hide TraceKeeps, ExecSuite, ExprKeeps, SuiteKeeps;
    var t := Run(test, scope, o);
    RunKeeps(test, scope, o, rule);
    if t.value.Truth? && !t.value.truth {
      ExecSuiteKeeps(orelse, scope, t.rest, rule);
      AfterKeeps(t, ExecSuite(orelse, scope, t.rest), rule);
    } else if t.value.Truth? {
      var b := ExecSuite(body, scope, t.rest);
      ExecSuiteKeeps(body, scope, t.rest, rule);
      AfterKeeps(t, b, rule);
      if b.outcome in {Normal, Continued} {
        var more := ExecWhile(test, body, orelse, scope, b.rest);
        ExecWhileKeeps(test, body, orelse, scope, b.rest, rule);
        ThenKeeps(b, more, rule);
        AfterKeeps(t, Then(b, more), rule);
      }
    }
  }

  lemma {:induction false} ExecForKeeps(body: seq<Stmt>, orelse: seq<Stmt>, scope: Scope, o: seq<bool>, rule: Rule)
    requires SuiteKeeps(body, scope, rule) && SuiteKeeps(orelse, scope, rule)
    ensures TraceKeeps(ExecFor(body, orelse, scope, o).trace, rule)
    decreases |o|, 3, 0
  {
    hide TraceKeeps, ExecSuite, SuiteKeeps;
    NothingWrittenKeeps([], rule);
    if o != [] && !o[0] {
      var more := Choose(o[1..]);
      ExecSuiteKeeps(orelse, scope, more.rest, rule);
      ExecSuiteKeeps(body, scope, more.rest, rule);
      var b := ExecSuite(body, scope, more.rest);
      if more.value.Truth? && more.value.truth && b.outcome in {Normal, Continued} {
        ExecForKeeps(body, orelse, scope, b.rest, rule);
        ThenKeeps(b, ExecFor(body, orelse, scope, b.rest), rule);
      }
    }
  }

  lemma {:induction false} ExecTryKeeps(body: seq<Stmt>, handlers: seq<Arm>, orelse: seq<Stmt>, finalbody: seq<Stmt>,
                                        scope: Scope, o: seq<bool>, rule: Rule)
    requires SuiteKeeps(body, scope, rule) && ArmsKeep(handlers, scope, rule)
    requires SuiteKeeps(orelse, scope, rule) && SuiteKeeps(finalbody, scope, rule)
    ensures TraceKeeps(ExecTry(body, handlers, orelse, finalbody, scope, o).trace, rule)
    decreases |o|, 3, |handlers| + 1
  {
    hide TraceKeeps, ExecSuite, ExecHandlers, SuiteKeeps, ArmsKeep;
    var b := ExecSuite(body, scope, o);
    ExecSuiteKeeps(body, scope, o, rule);
    ExecSuiteKeeps(orelse, scope, b.rest, rule);
    ExecHandlersKeep(handlers, scope, b.rest, rule);
    ThenKeeps(b, ExecSuite(orelse, scope, b.rest), rule);
    ThenKeeps(b, ExecHandlers(handlers, scope, b.rest), rule);
    var m := if b.outcome == Normal then Then(b, ExecSuite(orelse, scope, b.rest))
             else if b.outcome == Raising then Then(b, ExecHandlers(handlers, scope, b.rest))
             else b;
    var f := ExecSuite(finalbody, scope, m.rest);
    ExecSuiteKeeps(finalbody, scope, m.rest, rule);
    ThenKeeps(m, f, rule);
  }

  lemma {:induction false} ExecHandlersKeep(handlers: seq<Arm>, scope: Scope, o: seq<bool>, rule: Rule)
    requires ArmsKeep(handlers, scope, rule)
    ensures TraceKeeps(ExecHandlers(handlers, scope, o).trace, rule)
    decreases |o|, 3, |handlers|
  {
    hide TraceKeeps, ExecSuite, SuiteKeeps;
    NothingWrittenKeeps([], rule);
    var matches := if handlers == [] then Choose(o) else Taken(handlers[0], o);
    if handlers != [] && matches.value.Truth? {
      if matches.value.truth {
        ExecSuiteKeeps(handlers[0].body, scope, matches.rest, rule);
      } else {
        ExecHandlersKeep(handlers[1..], scope, matches.rest, rule);
      }
    }
  }

  lemma {:induction false} ExecCasesKeep(cases: seq<Arm>, scope: Scope, o: seq<bool>, rule: Rule)
    requires ArmsKeep(cases, scope, rule)
    ensures TraceKeeps(ExecCases(cases, scope, o).trace, rule)
    decreases |o|, 3, |cases|
  {
    hide TraceKeeps, ExecSuite, SuiteKeeps;
    NothingWrittenKeeps([], rule);
    var matches := if cases == [] then Choose(o) else Taken(cases[0], o);
    if cases != [] && matches.value.Truth? {
      if matches.value.truth {
        ExecSuiteKeeps(cases[0].body, scope, matches.rest, rule);
      } else {
        ExecCasesKeep(cases[1..], scope, matches.rest, rule);
      }
    }
  }

  lemma {:induction false} ExecCallsKeep(body: seq<Stmt>, scope: Scope, o: seq<bool>, rule: Rule)
    requires SuiteKeeps(body, scope, rule)
    ensures TraceKeeps(ExecCalls(body, scope, o).trace, rule)
    decreases |o|, 3, 0
  {
    hide TraceKeeps, ExecSuite, SuiteKeeps;
    NothingWrittenKeeps([], rule);
    var again := Choose(o);
    if again.value.Truth? && again.value.truth {
      var b := ExecSuite(body, scope, again.rest);
      ExecSuiteKeeps(body, scope, again.rest, rule);
      if b.outcome != Stopped {
        ExecCallsKeep(body, scope, b.rest, rule);
        ThenKeeps(b, ExecCalls(body, scope, b.rest), rule);
      }
    }
  }

  // ------------------------------------------------------------------ the theorem

  /** A name with a collected binding in a scope is bound there to what is
      collected for it, and to nothing else. */
  ghost function CollectedOnly(): Rule {
    (scope: Scope, id: string, value: Expr) => BindingsOf(scope, id) != [] ==> value in BindingsOf(scope, id)
  }

  ghost predicate Disciplined(body: seq<Stmt>) {
    SuiteKeeps(body, [body], CollectedOnly())
  }

  /** The read at `i` sees what some earlier write of the name, in the scope the
      name is bound in, had put there. */
  ghost predicate SawAWrite(trace: seq<Event>, time: seq<nat>, i: int, j: int)
    requires |time| == |trace| && 0 <= i < |trace| && trace[i].Read?
  {
    && 0 <= j < |trace| && trace[j].Wrote? && time[j] < time[i]
    && trace[j].scope == Home(trace[i].scope, trace[i].id)
    && trace[j].id == trace[i].id && trace[j].truth == trace[i].truth
  }

  /** Reads of tabled names see writes; displays with entries are not empty, no
      exception is swallowed, no assert is skipped. */
  ghost predicate Plain(trace: seq<Event>, time: seq<nat>, tables: Tables) {
    && Timed(trace, time)
    && forall i :: 0 <= i < |trace| ==>
         match trace[i]
         case Ran(_) | Wrote(_, _, _, _, _) => true
         case Read(scope, id, _) => id in tables(scope) ==> exists j :: SawAWrite(trace, time, i, j)
         case EmptyDisplay | Swallowed | AssertSkipped => false
  }

  /** A tabled name has collected bindings where it is bound. */
  lemma {:induction false} TabledNameHasBindings(scope: Scope, id: string, cfg: Config)
    requires cfg.Valid() && id in TablesOf(cfg)(scope)
    ensures BindingsOf(Home(scope, id), id) != []
    decreases |scope|
  {
    if scope != [] {
      var around, b := scope[..|scope| - 1], CollectScope(scope[|scope| - 1], map[]);
      var enclosing := TableOf(around, cfg).value;
      ExitIsSettled(b, cfg.order(b), enclosing, State(enclosing, {}), cfg.budget);
      var st := Rounds(b, cfg.order(b), State(enclosing, {}), cfg.budget).value;
      assert Get(st.table, id) == Some(st.table[id]);
      if id in b {
        assert Resolve(b[id], st.table) == Some(st.table[id]);
      } else {
        assert Get(st.table, id) == Get(enclosing, id);
        TableInForce(scope, cfg, st.table);
        TableInForce(around, cfg, enclosing);
        TabledNameHasBindings(around, id, cfg);
        assert Home(scope, id) == Home(around, id);
      }
    }
  }

  lemma WritesAreBindings(trace: seq<Event>, time: seq<nat>, cfg: Config, i: int, j: int)
    requires cfg.Valid() && TraceKeeps(trace, CollectedOnly())
    requires |time| == |trace| && 0 <= i < |trace| && trace[i].Read? && trace[i].id in TablesOf(cfg)(trace[i].scope)
    requires SawAWrite(trace, time, i, j)
    ensures SawABinding(trace, time, i, j)
  {
    hide TablesOf, BindingsOf, Home;
    TabledNameHasBindings(trace[i].scope, trace[i].id, cfg);
    assert trace[j] in trace;
  }

  /** In a disciplined module every plain run is orderly. */
  lemma PlainRunsAreOrderly(body: seq<Stmt>, cfg: Config, o: seq<bool>, time: seq<nat>)
    requires cfg.Valid() && Disciplined(body) && Plain(ExecSuite(body, [body], o).trace, time, TablesOf(cfg))
    ensures Orderly(ExecSuite(body, [body], o).trace, time, TablesOf(cfg))
  {
    var trace := ExecSuite(body, [body], o).trace;
    ExecSuiteKeeps(body, [body], o, CollectedOnly());
    hide TablesOf, ExecSuite, SawAWrite, SawABinding, TraceKeeps, Timed;
    forall i | 0 <= i < |trace| && trace[i].Read? && trace[i].id in TablesOf(cfg)(trace[i].scope)
      ensures exists j :: SawABinding(trace, time, i, j)
    {
      var j :| SawAWrite(trace, time, i, j);
      WritesAreBindings(trace, time, cfg, i, j);
    }
  }

  /** So what the analysis reports for a disciplined module is started by none of
      its plain runs. */
  lemma DisciplinedReportedNeverRuns(body: seq<Stmt>, cfg: Config, o: seq<bool>, time: seq<nat>, ran: Span, dead: Span)
    requires cfg.Valid() && Placed(body, 0) && Disciplined(body)
    requires dead in DeadSuite(body, [body], TablesOf(cfg))
    requires Plain(ExecSuite(body, [body], o).trace, time, TablesOf(cfg)) && Ran(ran) in ExecSuite(body, [body], o).trace
    ensures !Contains(dead, ran)
  {
    PlainRunsAreOrderly(body, cfg, o, time);
    ReportedNeverRuns(body, cfg, o, time, ran, dead);
  }
}
