/** An orderly run that reads a tabled name: the facts the tables rest on can all
    hold at once. */
module OrderlyRuns {
  import opened PythonAst
  import opened Folding
  import opened Execution
  import opened ScopeTable
  import opened RegionWalker
  import opened FoldingLimits
  import opened BoundTruth
  import opened BindingLimits
  import opened BindingDiscipline

  /** `x = False`; `if x: pass`. */
  function PlainBinding(): seq<Stmt> {
    [Binding(0, false), Guarded(Span(1, 4), "x", Pass(2))]
  }

  const PASS_BY := [false, false, false]

  lemma GuardedSkips(range: Span, id: string, s: Stmt, scope: Scope)
    ensures ExecStmt(Guarded(range, id, s), scope, PASS_BY) == Res(Normal, [Ran(range), Read(scope, id, false)], [])
  {
    var o1, o2 := [false, false], [false];
    assert PASS_BY[1..] == o1 && o1[1..] == o2 && o2[1..] == [];
    assert Run(Name(id), scope, o1) == Eval(Truth(false), [Read(scope, id, false)], []);
    assert ExecClauses([], scope, []) == Res(Normal, [], []);
  }

  lemma PlainBindingRun(scope: Scope)
    ensures ExecSuite(PlainBinding(), scope, BIND + PASS_BY).trace
            == [Ran(Span(0, 1)), Wrote(scope, "x", BooleanLiteral(false), false, 0), Ran(Span(1, 4)), Read(scope, "x", false)]
  {
    hide ExecStmt, ExecSuite;
    var s1, s2 := Binding(0, false), Guarded(Span(1, 4), "x", Pass(2));
    BindingRuns(0, false, scope, PASS_BY);
    GuardedSkips(Span(1, 4), "x", Pass(2), scope);
    OneStatement(s2, scope, PASS_BY);
    assert [s1] + [s2] == PlainBinding();
    Stepping(s1, [s2], scope, BIND + PASS_BY);
  }

  lemma PlainBindingCollected()
    ensures CollectScope(PlainBinding(), map[]) == map["x" := [BooleanLiteral(false)]]
  {
    var body, none := PlainBinding(), map[];
    assert body[1..] == [body[1]] && [body[1]][1..] == [];
    assert [] + [BooleanLiteral(false)] == [BooleanLiteral(false)];
    assert Bind(none, "x", BooleanLiteral(false)) == map["x" := [BooleanLiteral(false)]];
    var b := CollectStmt(body[0], none);
    assert b == map["x" := [BooleanLiteral(false)]];
    assert CollectStmt(body[1], b) == b && CollectScope([], b) == b;
    assert CollectScope([body[1]], b) == b;
  }

  /** An orderly run that reads a tabled name. */
  lemma OrderlyRunReads(cfg: Config)
    requires cfg.Valid() && cfg.budget >= 2
    ensures var body := PlainBinding();
      var trace := ExecSuite(body, [body], BIND + PASS_BY).trace;
      && Orderly(trace, [0, 1, 2, 3], TablesOf(cfg))
      && Read([body], "x", false) in trace && "x" in TablesOf(cfg)([body])
  {
    var body := PlainBinding();
    PlainBindingCollected();
    TableOfFalse(body, cfg);
    PlainBindingRun([body]);
    var trace := ExecSuite(body, [body], BIND + PASS_BY).trace;
    hide TablesOf, ExecSuite, CollectScope;
    assert Home([body], "x") == [body];
    assert BindingsOf([body], "x") == [BooleanLiteral(false)];
    assert SawABinding(trace, [0, 1, 2, 3], 3, 1);
  }

  /** The module with a plain binding meets the condition on the source; the one
      with a nested binding does not. */
  lemma OnlyThePlainBindingIsDisciplined()
    ensures Disciplined(PlainBinding()) && !Disciplined(NestedBinding())
  {
    var plain, nested := PlainBinding(), NestedBinding();
    PlainBindingCollected();
    NestedBindingCollected();
    hide CollectScope;
    assert plain[1..] == [plain[1]] && [plain[1]][1..] == [] && [Pass(2)][1..] == [];
    assert BindingsOf([plain], "x") == [BooleanLiteral(false)];
    assert BindingsOf([nested], "x") == [BooleanLiteral(false)];
    assert SuiteKeeps([Pass(2)], [plain], CollectedOnly());
    assert StmtKeeps(plain[1], [plain], CollectedOnly());
    assert SuiteKeeps([plain[1]], [plain], CollectedOnly());
    assert nested[1..][0] == nested[1];
    assert !CollectedOnly()([nested], "x", BooleanLiteral(true));
    assert !StmtKeeps(Binding(2, true), [nested], CollectedOnly());
    assert !SuiteKeeps([Binding(2, true)], [nested], CollectedOnly());
    assert !StmtKeeps(nested[1], [nested], CollectedOnly());
  }
}
