/** The analysis misses nothing where suites are straightforward: a statement that
    is no terminator can complete, and what is not reported can run. */
module DeadExactness {
  import opened Wrappers
  import opened PythonAst
  import opened Folding
  import opened Execution
  import opened DeadRegions
  import opened DeadRegionSafety
  import opened FoldingLimits
  import opened FoldingExactness

  // ------------------------------------------------------- straightforward suites

  /** Only the last arm may catch everything. */
  predicate LastCatches(arms: seq<Arm>) {
    forall k :: 0 <= k < |arms| - 1 ==> !arms[k].catchAll
  }

  /** Nothing but the terminators the analysis looks for keeps the statement from
      completing: its `elif` tests are unknown, its loops may be left by their test
      into an `else` that completes, and so on. */
  predicate Open(s: Stmt, scope: Scope, tables: Tables)
    decreases s, 0
  {
    match s
    case Assert(_, test) => Fits(test)
    case If(_, test, body, clauses) => Fits(test) && OpenSuite(body, scope, tables) && OpenClauses(clauses, scope, tables)
    case While(_, test, _, orelse) =>
      && Fits(test) && EvaluateTruthiness(test, tables(scope)) != Some(true)
      && OpenSuite(orelse, scope, tables) && !SuiteTerminates(orelse, tables(scope))
    case For(_, _, _, orelse) => OpenSuite(orelse, scope, tables) && !SuiteTerminates(orelse, tables(scope))
    case With(_, _, body) => OpenSuite(body, scope, tables)
    case Try(_, body, handlers, orelse, finalbody) =>
      && body != [] && OpenSuite(body, scope, tables)
      && OpenArms(handlers, scope, tables) && LastCatches(handlers)
      && OpenSuite(orelse, scope, tables) && !SuiteTerminates(orelse, tables(scope))
      && OpenSuite(finalbody, scope, tables)
    case ClassDef(_, body) => OpenSuite(body, scope + [body], tables) && !SuiteTerminates(body, tables(scope + [body]))
    case Match(_, _, cases) => !CatchesAll(cases)
    case _ => true
  }

  predicate OpenSuite(stmts: seq<Stmt>, scope: Scope, tables: Tables)
    decreases stmts, 0
  {
    stmts == [] || (Open(stmts[0], scope, tables) && OpenSuite(stmts[1..], scope, tables))
  }

  predicate OpenClauses(clauses: seq<Clause>, scope: Scope, tables: Tables)
    decreases clauses, 0
  {
    clauses == [] ||
    (&& OpenSuite(clauses[0].body, scope, tables)
     && (if clauses[0].test.None? then |clauses| == 1
         else Fits(clauses[0].test.value) && EvaluateTruthiness(clauses[0].test.value, tables(scope)).None?)
     && OpenClauses(clauses[1..], scope, tables))
  }

  predicate OpenArms(arms: seq<Arm>, scope: Scope, tables: Tables)
    decreases arms, 0
  {
    arms == [] || (OpenSuite(arms[0].body, scope, tables) && OpenArms(arms[1..], scope, tables))
  }

  // --------------------------------------------------------------- completing runs

  /** A faithful run that completes and leaves `more`. */
  ghost predicate Done(r: Res, more: seq<bool>, tables: Tables) {
    r.outcome == Normal && r.rest == more && Faithful(r.trace, tables)
  }

  lemma FaithfulJoin(a: seq<Event>, b: seq<Event>, tables: Tables)
    requires Faithful(a, tables) && Faithful(b, tables)
    ensures Faithful(a + b, tables)
  {
  }

  lemma RanIsFaithful(range: Span, tables: Tables)
    ensures Faithful([Ran(range)], tables)
  {
  }

  lemma StartedIsDone(s: Stmt, scope: Scope, tables: Tables, o: seq<bool>, more: seq<bool>)
    requires Done(ExecNode(s, scope, o), more, tables)
    ensures Done(ExecStmt(s, scope, [false] + o), more, tables)
  {
    hide ExecNode, Faithful;
    assert ([false] + o)[1..] == o;
    RanIsFaithful(s.range, tables);
    FaithfulJoin([Ran(s.range)], ExecNode(s, scope, o).trace, tables);
  }

  /** Some value of `e`, then the rest. */
  lemma SomeValue(e: Expr, scope: Scope, tables: Tables, more: seq<bool>) returns (o: seq<bool>)
    ensures Run(e, scope, o).value.Truth? && Run(e, scope, o).rest == more && Faithful(Run(e, scope, o).trace, tables)
  {
    hide Run, PlanFor;
    o := PlanFor(e, tables(scope)).choices + more;
    PlanYields(e, scope, tables, more);
  }

  lemma AfterIsDone(t: Eval, r: Res, more: seq<bool>, tables: Tables)
    requires Faithful(t.trace, tables) && Done(r, more, tables)
    ensures Done(After(t, r), more, tables)
  {
    FaithfulJoin(t.trace, r.trace, tables);
  }

  lemma ThenIsDone(a: Res, b: Res, more: seq<bool>, tables: Tables)
    requires Faithful(a.trace, tables) && Done(b, more, tables)
    ensures Done(Then(a, b), more, tables)
  {
    FaithfulJoin(a.trace, b.trace, tables);
  }

  lemma StoredIsFaithful(r: Eval, scope: Scope, id: string, value: Expr, tables: Tables)
    requires Faithful(r.trace, tables)
    ensures Faithful(Stored(r, scope, id, value).trace, tables)
    ensures Stored(r, scope, id, value).value == r.value && Stored(r, scope, id, value).rest == r.rest
  {
  }

  lemma EffectsDone(e: Option<Expr>, target: Option<Expr>, parts: seq<Expr>, scope: Scope, tables: Tables, more: seq<bool>)
    returns (o: seq<bool>)
    ensures Done(Effects(e, target, parts, Normal, scope, o), more, tables)
  {
    hide Run, RunParts, Stored, Faithful;
    var rest := PartsCome(parts, scope, tables, true, more);
    if e.None? {
      return rest;
    }
    o := SomeValue(e.value, scope, tables, rest);
    var v := Run(e.value, scope, o);
    if target.Some? && target.value.Name? {
      StoredIsFaithful(v, scope, target.value.id, e.value, tables);
    }
    var v' := if target.Some? && target.value.Name? then Stored(v, scope, target.value.id, e.value) else v;
    AfterIsDone(v', Ending(RunParts(parts, scope, rest), Normal), more, tables);
  }

  lemma {:induction false} CompleteSuite(stmts: seq<Stmt>, scope: Scope, tables: Tables, more: seq<bool>) returns (o: seq<bool>)
    requires OpenSuite(stmts, scope, tables) && !SuiteTerminates(stmts, tables(scope))
    ensures Done(ExecSuite(stmts, scope, o), more, tables)
    decreases stmts, 0
  {
    hide Open, StmtIsTerminator, ExecStmt;
    if stmts == [] {
      o := more;
    } else {
      var rest := CompleteSuite(stmts[1..], scope, tables, more);
      o := CompleteStmt(stmts[0], scope, tables, rest);
      ThenIsDone(ExecStmt(stmts[0], scope, o), ExecSuite(stmts[1..], scope, rest), more, tables);
    }
  }

  lemma {:induction false} CompleteStmt(s: Stmt, scope: Scope, tables: Tables, more: seq<bool>) returns (o: seq<bool>)
    requires Open(s, scope, tables) && !StmtIsTerminator(s, tables(scope))
    ensures Done(ExecStmt(s, scope, o), more, tables)
    decreases s, 2
  {
    hide ExecNode, ExecStmt, Open, StmtIsTerminator;
    var inner := CompleteNode(s, scope, tables, more);
    o := [false] + inner;
    StartedIsDone(s, scope, tables, inner, more);
  }

  lemma {:induction false} CompleteNode(s: Stmt, scope: Scope, tables: Tables, more: seq<bool>) returns (o: seq<bool>)
    requires Open(s, scope, tables) && !StmtIsTerminator(s, tables(scope))
    ensures Done(ExecNode(s, scope, o), more, tables)
    decreases s, 1
  {
    hide OpenSuite, OpenClauses, OpenArms, SuiteTerminates, ClausesTerminate, ArmsTerminate, EvaluateTruthiness, Fits;
    hide Effects, Run, RunParts, ExecSuite, ExecClauses, ExecWhile, ExecFor, ExecTry, ExecCases, ExitManager, Faithful;
    match s
    case Simple(_, parts) => o := EffectsDone(None, None, parts, scope, tables, more);
    case ExprStmt(_, value) => o := EffectsDone(Some(value), None, [], scope, tables, more);
    case Assign(_, targets, value) =>
      o := EffectsDone(Some(value), if |targets| == 1 then Some(targets[0]) else None, targets, scope, tables, more);
    case AnnAssign(_, target, annotation, bound) =>
      o := EffectsDone(bound, Some(target), [target, annotation], scope, tables, more);
    case Assert(_, test) =>
      OnlyTwoTruths(EvaluateTruthiness(test, tables(scope)));
      var inner := Attain(test, scope, tables, true, more);
      o := [true] + inner;
      assert o[1..] == inner;
    case If(_, _, _, _) => o := CompleteIf(s, scope, tables, more);
    case While(_, test, body, orelse) => o := CompleteWhile(s, scope, tables, more);
    case For(_, iter, body, orelse) => o := CompleteFor(s, scope, tables, more);
    case With(_, parts, body) => o := CompleteWith(s, scope, tables, more);
    case Try(_, _, _, _, _) => o := CompleteTry(s, scope, tables, more);
    case FunctionDef(_, body) =>
      o := [false] + more;
      assert o[1..] == more;
      NoEventIsFaithful(tables);
    case ClassDef(_, body) => o := CompleteSuite(body, scope + [body], tables, more);
    case Match(_, subject, cases) =>
      var rest := Refusing(|cases|) + more;
      o := SomeValue(subject, scope, tables, rest);
      NoArmTaken(cases, scope, more);
      NoEventIsFaithful(tables);
      AfterIsDone(Run(subject, scope, o), ExecCases(cases, scope, rest), more, tables);
  }

  lemma NoEventIsFaithful(tables: Tables)
    ensures Faithful([], tables)
  {
  }

  lemma {:induction false} CompleteIf(s: Stmt, scope: Scope, tables: Tables, more: seq<bool>) returns (o: seq<bool>)
    requires s.If? && Open(s, scope, tables) && !StmtIsTerminator(s, tables(scope))
    ensures Done(ExecNode(s, scope, o), more, tables)
    decreases s, 0
  {
    hide OpenSuite, SuiteTerminates, ClausesTerminate, EvaluateTruthiness, Fits, Run, ExecSuite, ExecClauses, Faithful;
    var known := EvaluateTruthiness(s.test, tables(scope));
    OnlyTwoTruths(known);
    if known != Some(false) && !SuiteTerminates(s.body, tables(scope)) {
      var rest := CompleteSuite(s.body, scope, tables, more);
      o := Attain(s.test, scope, tables, true, rest);
      AfterIsDone(Run(s.test, scope, o), ExecSuite(s.body, scope, rest), more, tables);
    } else {
      var rest := CompleteClauses(s.clauses, scope, tables, more);
      o := Attain(s.test, scope, tables, false, rest);
      AfterIsDone(Run(s.test, scope, o), ExecClauses(s.clauses, scope, rest), more, tables);
    }
  }

  lemma {:induction false} CompleteClauses(clauses: seq<Clause>, scope: Scope, tables: Tables, more: seq<bool>) returns (o: seq<bool>)
    requires OpenClauses(clauses, scope, tables)
    requires clauses != [] && clauses[|clauses| - 1].test.None? ==> !ClausesTerminate(clauses, tables(scope))
    ensures Done(ExecClauses(clauses, scope, o), more, tables)
    decreases clauses, 0
  {
    hide OpenSuite, SuiteTerminates, EvaluateTruthiness, Fits, Run, ExecSuite, Faithful;
    NoEventIsFaithful(tables);
    if clauses == [] {
      return more;
    }
    var c, rest := clauses[0], clauses[1..];
    RanIsFaithful(c.range, tables);
    if c.test.None? {
      o := CompleteSuite(c.body, scope, tables, more);
      AfterIsDone(Eval(Truth(true), [Ran(c.range)], o), ExecSuite(c.body, scope, o), more, tables);
    } else {
      var taken := !SuiteTerminates(c.body, tables(scope));
      var later;
      if taken {
        later := CompleteSuite(c.body, scope, tables, more);
      } else {
        assert rest != [] ==> rest[|rest| - 1] == clauses[|clauses| - 1];
        later := CompleteClauses(rest, scope, tables, more);
      }
      o := Attain(c.test.value, scope, tables, taken, later);
      var t := Run(c.test.value, scope, o);
      var p := if taken then ExecSuite(c.body, scope, later) else ExecClauses(rest, scope, later);
      AfterIsDone(t, p, more, tables);
      AfterIsDone(Eval(Truth(true), [Ran(c.range)], o), After(t, p), more, tables);
    }
  }

  lemma {:induction false} CompleteWhile(s: Stmt, scope: Scope, tables: Tables, more: seq<bool>) returns (o: seq<bool>)
    requires s.While? && Open(s, scope, tables)
    ensures Done(ExecNode(s, scope, o), more, tables)
    decreases s, 0
  {
    hide OpenSuite, SuiteTerminates, EvaluateTruthiness, Fits, Run, ExecSuite, Faithful;
    OnlyTwoTruths(EvaluateTruthiness(s.test, tables(scope)));
    var rest := CompleteSuite(s.orelse, scope, tables, more);
    o := Attain(s.test, scope, tables, false, rest);
    AfterIsDone(Run(s.test, scope, o), ExecSuite(s.orelse, scope, rest), more, tables);
  }

  lemma {:induction false} CompleteFor(s: Stmt, scope: Scope, tables: Tables, more: seq<bool>) returns (o: seq<bool>)
    requires s.For? && Open(s, scope, tables)
    ensures Done(ExecNode(s, scope, o), more, tables)
    decreases s, 0
  {
    hide OpenSuite, SuiteTerminates, Run, ExecSuite, Faithful;
    var rest := CompleteSuite(s.orelse, scope, tables, more);
    var turn := [false, false] + rest;
    assert turn[1..] == [false] + rest && ([false] + rest)[1..] == rest;
    o := SomeValue(s.iter, scope, tables, turn);
    assert ExecFor(s.body, s.orelse, scope, turn) == ExecSuite(s.orelse, scope, rest);
    AfterIsDone(Run(s.iter, scope, o), ExecFor(s.body, s.orelse, scope, turn), more, tables);
  }

  lemma {:induction false} CompleteWith(s: Stmt, scope: Scope, tables: Tables, more: seq<bool>) returns (o: seq<bool>)
    requires s.With? && Open(s, scope, tables) && !SuiteTerminates(s.body, tables(scope))
    ensures Done(ExecNode(s, scope, o), more, tables)
    decreases s, 0
  {
    hide OpenSuite, SuiteTerminates, RunParts, ExecSuite, Faithful;
    var leave := [false] + more;
    assert leave[1..] == more;
    var rest := CompleteSuite(s.body, scope, tables, leave);
    o := PartsCome(s.parts, scope, tables, true, rest);
    AfterIsDone(RunParts(s.parts, scope, o), ExitManager(ExecSuite(s.body, scope, rest)), more, tables);
  }

  /** A suite whose first statement is interrupted. */
  lemma InterruptedSuite(stmts: seq<Stmt>, scope: Scope, more: seq<bool>)
    requires stmts != []
    ensures ExecSuite(stmts, scope, [true] + more) == Res(Raising, [Ran(stmts[0].range)], more)
  {
    assert ([true] + more)[1..] == more;
  }

  lemma {:induction false} CompleteTry(s: Stmt, scope: Scope, tables: Tables, more: seq<bool>) returns (o: seq<bool>)
    requires s.Try? && Open(s, scope, tables) && !StmtIsTerminator(s, tables(scope))
    ensures Done(ExecNode(s, scope, o), more, tables)
    decreases s, 0
  {
    hide OpenSuite, OpenArms, SuiteTerminates, ArmsTerminate, ExecSuite, ExecHandlers, Faithful, LastCatches;
    var last := CompleteSuite(s.finalbody, scope, tables, more);
    var f := ExecSuite(s.finalbody, scope, last);
    if !SuiteTerminates(s.body, tables(scope)) {
      var rest := CompleteSuite(s.orelse, scope, tables, last);
      o := CompleteSuite(s.body, scope, tables, rest);
      var b, e := ExecSuite(s.body, scope, o), ExecSuite(s.orelse, scope, rest);
      ThenIsDone(b, e, last, tables);
      ThenIsDone(Then(b, e), f, more, tables);
    } else {
      var rest := CompleteHandlers(s.handlers, scope, tables, last);
      o := [true] + rest;
      InterruptedSuite(s.body, scope, rest);
      RanIsFaithful(s.body[0].range, tables);
      var b, h := ExecSuite(s.body, scope, o), ExecHandlers(s.handlers, scope, rest);
      ThenIsDone(b, h, last, tables);
      ThenIsDone(Then(b, h), f, more, tables);
    }
  }

  lemma {:induction false} CompleteHandlers(handlers: seq<Arm>, scope: Scope, tables: Tables, more: seq<bool>) returns (o: seq<bool>)
    requires OpenArms(handlers, scope, tables) && LastCatches(handlers) && !ArmsTerminate(handlers, tables(scope))
    ensures Done(ExecHandlers(handlers, scope, o), more, tables)
    decreases handlers, 0
  {
    hide OpenSuite, SuiteTerminates, ExecSuite, Faithful;
    var h, rest := handlers[0], handlers[1..];
    if !SuiteTerminates(h.body, tables(scope)) {
      var later := CompleteSuite(h.body, scope, tables, more);
      o := if h.catchAll then later else [true] + later;
      assert !h.catchAll ==> o[1..] == later;
    } else {
      assert rest != [] && !h.catchAll;
      forall k | 0 <= k < |rest| - 1
        ensures !rest[k].catchAll
      {
        assert rest[k] == handlers[k + 1];
      }
      var later := CompleteHandlers(rest, scope, tables, more);
      o := [false] + later;
      assert o[1..] == later;
    }
  }

  /** A straightforward statement is a terminator exactly when no faithful run of it
      completes normally. */
  lemma TerminatorIffNeverCompletes(s: Stmt, scope: Scope, tables: Tables)
    requires PlacedStmt(s) && Open(s, scope, tables)
    ensures StmtIsTerminator(s, tables(scope)) <==> NeverCompletes(s, scope, tables)
  {
    if StmtIsTerminator(s, tables(scope)) {
      forall o | Faithful(ExecStmt(s, scope, o).trace, tables)
        ensures ExecStmt(s, scope, o).outcome != Normal
      {
        StmtIsGood(s, scope, o, tables);
      }
    } else {
      hide Open, StmtIsTerminator, ExecStmt;
      var o := CompleteStmt(s, scope, tables, []);
    }
  }

  /** And so is a suite. */
  lemma SuiteTerminatesIffNeverCompletes(stmts: seq<Stmt>, scope: Scope, tables: Tables, lo: int)
    requires Placed(stmts, lo) && OpenSuite(stmts, scope, tables)
    ensures SuiteTerminates(stmts, tables(scope)) <==>
      forall o :: Faithful(ExecSuite(stmts, scope, o).trace, tables) ==> ExecSuite(stmts, scope, o).outcome != Normal
  {
    hide OpenSuite, ExecSuite, Placed;
    if SuiteTerminates(stmts, tables(scope)) {
      forall o | Faithful(ExecSuite(stmts, scope, o).trace, tables)
        ensures ExecSuite(stmts, scope, o).outcome != Normal
      {
        TerminatorNeverCompletes(stmts, scope, o, tables, lo);
      }
    } else {
      var o := CompleteSuite(stmts, scope, tables, []);
    }
  }

  /** Breaking out of a loop completes it, whatever its test folds to and without
      its `else`: not every `while True` is endless. */
  lemma BrokenLoopCompletes(range: Span, test: Expr, at: Span, orelse: seq<Stmt>, scope: Scope, tables: Tables)
    requires Fits(test) && EvaluateTruthiness(test, tables(scope)) != Some(false)
    ensures exists o :: Done(ExecStmt(While(range, test, [Break(at)], orelse), scope, o), [], tables)
  {
    var s := While(range, test, [Break(at)], orelse);
    OnlyTwoTruths(EvaluateTruthiness(test, tables(scope)));
    assert [false][1..] == [];
    assert ExecSuite([Break(at)], scope, [false]) == Res(Broke, [Ran(at)], []);
    hide Run, ExecSuite, EvaluateTruthiness, Fits;
    var o := Attain(test, scope, tables, true, [false]);
    AfterIsDone(Run(test, scope, o), Res(Normal, [Ran(at)], []), [], tables);
    StartedIsDone(s, scope, tables, o, []);
  }
}
