/** The table is right only for names bound where the analysis looks: a binding
    inside a nested block is not collected, and can bring dead code to life. */
module BindingLimits {
  import opened Wrappers
  import opened PythonAst
  import opened Folding
  import opened Execution
  import opened DeadRegions
  import opened ScopeTable
  import opened RegionWalker
  import opened FoldingLimits

  /** `x = <truth>` at `lo`. */
  function Binding(lo: int, truth: bool): Stmt {
    Assign(Span(lo, lo + 1), [Name("x")], BooleanLiteral(truth))
  }

  /** `if <id>: <s>`, one suite of one statement. */
  function Guarded(range: Span, id: string, s: Stmt): Stmt {
    If(range, Name(id), [s], [])
  }

  /** `x = False`; `if c: x = True`; `if x: pass`. */
  function NestedBinding(): seq<Stmt> {
    [Binding(0, false), Guarded(Span(1, 4), "c", Binding(2, true)), Guarded(Span(4, 7), "x", Pass(5))]
  }

  const BIND := [false, false, false, false]
  const ENTER := [false, false, true]

  lemma BindingRuns(lo: int, truth: bool, scope: Scope, rest: seq<bool>)
    ensures ExecStmt(Binding(lo, truth), scope, BIND + rest)
            == Res(Normal, [Ran(Span(lo, lo + 1)), Wrote(scope, "x", BooleanLiteral(truth), truth, 0)], rest)
  {
    var o1, o2, o3 := [false, false, false] + rest, [false, false] + rest, [false] + rest;
    assert (BIND + rest)[1..] == o1 && o1[1..] == o2 && o2[1..] == o3 && o3[1..] == rest;
    var v := BooleanLiteral(truth);
    assert Run(v, scope, o1) == Eval(Truth(truth), [], o2);
    assert RunParts([], scope, o3) == Eval(Truth(false), [], rest);
    assert [Name("x")][1..] == [];
    assert RunParts([Name("x")], scope, o2) == Eval(Truth(false), [], rest);
    assert Stored(Run(v, scope, o1), scope, "x", v) == Eval(Truth(truth), [Wrote(scope, "x", v, truth, 0)], o2);
  }

  lemma GuardedRuns(range: Span, id: string, s: Stmt, scope: Scope, rest: seq<bool>)
    ensures var r := ExecSuite([s], scope, rest);
      ExecStmt(Guarded(range, id, s), scope, ENTER + rest)
      == Res(r.outcome, [Ran(range), Read(scope, id, true)] + r.trace, r.rest)
  {
    hide ExecSuite;
    var o1, o2 := [false, true] + rest, [true] + rest;
    assert (ENTER + rest)[1..] == o1 && o1[1..] == o2 && o2[1..] == rest;
    assert RunNode(Name(id), scope, o2) == Eval(Truth(true), [Read(scope, id, true)], rest);
    assert Run(Name(id), scope, o1) == Eval(Truth(true), [Read(scope, id, true)], rest);
    var r := ExecSuite([s], scope, rest);
    assert [Ran(range)] + ([Read(scope, id, true)] + r.trace) == [Ran(range), Read(scope, id, true)] + r.trace;
  }

  lemma OneStatement(s: Stmt, scope: Scope, o: seq<bool>)
    ensures ExecSuite([s], scope, o) == ExecStmt(s, scope, o)
  {
    hide ExecStmt;
    var r := ExecStmt(s, scope, o);
    assert [s][1..] == [] && r.trace + [] == r.trace;
    assert ExecSuite([], scope, r.rest) == Res(Normal, [], r.rest);
  }

  lemma Stepping(s: Stmt, rest: seq<Stmt>, scope: Scope, o: seq<bool>)
    requires ExecStmt(s, scope, o).outcome == Normal
    ensures ExecSuite([s] + rest, scope, o) == Then(ExecStmt(s, scope, o), ExecSuite(rest, scope, ExecStmt(s, scope, o).rest))
  {
    hide ExecStmt;
    assert ([s] + rest)[1..] == rest;
  }

  function NestedTrace(scope: Scope): seq<Event> {
    [Ran(Span(0, 1)), Wrote(scope, "x", BooleanLiteral(false), false, 0),
     Ran(Span(1, 4)), Read(scope, "c", true), Ran(Span(2, 3)), Wrote(scope, "x", BooleanLiteral(true), true, 0),
     Ran(Span(4, 7)), Read(scope, "x", true), Ran(Span(5, 6))]
  }

  lemma NestedTraceIsExpectedBut(scope: Scope, tables: Tables)
    requires tables(scope) == map["x" := false]
    ensures forall e :: e in NestedTrace(scope) ==> Expected(e, tables) || e == Read(scope, "x", true)
    ensures Ran(Pass(5).range) in NestedTrace(scope)
  {
    var trace := NestedTrace(scope);
    assert "c" !in tables(scope);
    assert Expected(trace[3], tables) && Expected(trace[1], tables) && Expected(trace[5], tables);
    assert trace[8] == Ran(Pass(5).range);
  }

  /** The run that takes both branches. */
  lemma NestedBindingRun(scope: Scope)
    ensures ExecSuite(NestedBinding(), scope, BIND + (ENTER + (BIND + (ENTER + [true])))).trace
            == NestedTrace(scope)
  {
    hide ExecStmt, ExecSuite;
    var s1, s2, s3 := Binding(0, false), Guarded(Span(1, 4), "c", Binding(2, true)), Guarded(Span(4, 7), "x", Pass(5));
    var o3 := ENTER + [true];
    BindingRuns(0, false, scope, ENTER + (BIND + o3));
    BindingRuns(2, true, scope, o3);
    OneStatement(Binding(2, true), scope, BIND + o3);
    GuardedRuns(Span(1, 4), "c", Binding(2, true), scope, BIND + o3);
    PassRuns(5, scope);
    GuardedRuns(Span(4, 7), "x", Pass(5), scope, [true]);
    OneStatement(s3, scope, o3);
    assert [s1] + ([s2] + [s3]) == NestedBinding();
    Stepping(s2, [s3], scope, ENTER + (BIND + o3));
    Stepping(s1, [s2] + [s3], scope, BIND + (ENTER + (BIND + o3)));
  }

  lemma NestedBindingCollected()
    ensures CollectScope(NestedBinding(), map[]) == map["x" := [BooleanLiteral(false)]]
  {
    var body, none := NestedBinding(), map[];
    assert body[1..] == [body[1], body[2]] && body[1..][1..] == [body[2]] && [body[2]][1..] == [];
    assert [] + [BooleanLiteral(false)] == [BooleanLiteral(false)];
    assert Bind(none, "x", BooleanLiteral(false)) == map["x" := [BooleanLiteral(false)]];
    var b := CollectStmt(body[0], none);
    assert b == map["x" := [BooleanLiteral(false)]];
    assert CollectStmt(body[1], b) == b && CollectStmt(body[2], b) == b;
    assert CollectScope([], b) == b;
    assert CollectScope([body[2]], b) == b;
    assert CollectScope(body[1..], b) == b;
  }

  /** The table of a module in which `x = False` is the only collected binding. */
  lemma TableOfFalse(body: seq<Stmt>, cfg: Config)
    requires cfg.Valid() && cfg.budget >= 2
    requires CollectScope(body, map[]) == map["x" := [BooleanLiteral(false)]]
    ensures TablesOf(cfg)([body]) == map["x" := false]
  {
    var b := CollectScope(body, map[]);
    var order := cfg.order(b);
    assert |b.Keys| == 1 by { assert b.Keys == {"x"}; }
    FreshScopeGetsLeastTable(b, order, map[], cfg.budget);
    var r := Rounds(b, order, State(map[], {}), cfg.budget).value;
    assert Get(r.table, "x") == Some(false);
    forall n | n in r.table
      ensures n == "x"
    {
      assert n !in b ==> Get(r.table, n) == None;
    }
    assert r.table == map["x" := false];
    assert [body][..0] == [];
    TableInForce([body], cfg, r.table);
  }

  lemma NestedBindingPlaced()
    ensures Placed(NestedBinding(), 0)
  {
    var body := NestedBinding();
    assert body[1..] == [body[1], body[2]] && body[1..][1..] == [body[2]] && [body[2]][1..] == [];
    assert [Binding(2, true)][1..] == [] && [Pass(5)][1..] == [];
    assert Placed([Pass(5)], 5) && Placed([Binding(2, true)], 2);
    assert PlacedStmt(body[1]) && PlacedStmt(body[2]);
    assert Placed([body[2]], 4) && Placed(body[1..], 1);
  }

  lemma GuardedPassIsDead(scope: Scope, tables: Tables)
    requires tables(scope) == map["x" := false]
    ensures DeadStmt(Guarded(Span(4, 7), "x", Pass(5)), scope, tables) == [Pass(5).range]
  {
    assert [Pass(5)][1..] == [];
    assert Ranges([Pass(5)]) == [Pass(5).range];
    assert EvaluateTruthiness(Name("x"), tables(scope)) == Some(false);
  }

  lemma PassIsDead(scope: Scope, tables: Tables)
    requires tables(scope) == map["x" := false]
    ensures Pass(5).range in DeadSuite(NestedBinding(), scope, tables)
  {
    var body := NestedBinding();
    GuardedPassIsDead(scope, tables);
    assert !StmtIsTerminator(body[0], tables(scope)) && !StmtIsTerminator(body[1], tables(scope));
    hide DeadStmt, StmtIsTerminator;
    assert body[1..] == [body[1], body[2]] && body[1..][1..] == [body[2]];
    assert DeadSuite([body[2]], scope, tables)[0] == Pass(5).range;
    assert DeadSuite(body[1..], scope, tables) == DeadStmt(body[1], scope, tables) + DeadSuite([body[2]], scope, tables);
  }

  /** `pass` is reported dead, and it runs; the only event against the table is
      the read of `x`, which sees what the nested binding wrote. */
  lemma NestedBindingRevives(cfg: Config)
    requires cfg.Valid() && cfg.budget >= 2
    ensures var body := NestedBinding();
      var trace := ExecSuite(body, [body], BIND + (ENTER + (BIND + (ENTER + [true])))).trace;
      && Placed(body, 0) && Pass(5).range in DeadSuite(body, [body], TablesOf(cfg)) && Ran(Pass(5).range) in trace
      && forall e :: e in trace ==> Expected(e, TablesOf(cfg)) || e == Read([body], "x", true)
  {
    NestedBindingCollected();
    TableOfFalse(NestedBinding(), cfg);
    NestedBindingRun([NestedBinding()]);
    NestedBindingPlaced();
    PassIsDead([NestedBinding()], TablesOf(cfg));
    NestedTraceIsExpectedBut([NestedBinding()], TablesOf(cfg));
    hide *;
  }
}
