/** The walk that collects dead ranges, scope table by scope table. */
module RegionWalker {
  import opened Wrappers
  import opened PythonAst
  import opened Folding
  import opened Execution
  import opened DeadRegions
  import opened DeadRegionSafety
  import opened ScopeTable

  /** How the hash map orders names, and how many rounds a table may take
      before the walk is given up (the loop itself has no such limit). */
  datatype Config = Config(order: Bindings -> seq<string>, budget: nat) {
    ghost predicate Valid() {
      forall b :: Enumerates(order(b), b.Keys)
    }
  }

  /** The table of a scope, built inside the table of the scope around it. */
  function TableOf(scope: Scope, cfg: Config): Option<NameTable>
    requires cfg.Valid()
    decreases |scope|
  {
    if scope == [] then Some(map[]) else
      var enclosing := TableOf(scope[..|scope| - 1], cfg);
      if enclosing.None? then None else
        var b := CollectScope(scope[|scope| - 1], map[]);
        var r := Rounds(b, cfg.order(b), State(enclosing.value, {}), cfg.budget);
        if r.None? then None else Some(r.value.table)
  }

  ghost function TablesOf(cfg: Config): Tables
    requires cfg.Valid()
  {
    (scope: Scope) => var t := TableOf(scope, cfg); if t.None? then map[] else t.value
  }

  lemma TableInForce(scope: Scope, cfg: Config, table: NameTable)
    requires cfg.Valid() && TableOf(scope, cfg) == Some(table)
    ensures TablesOf(cfg)(scope) == table
  {
  }

  method NestedTable(body: seq<Stmt>, table: NameTable, ghost scope: Scope, cfg: Config) returns (r: Option<NameTable>)
    requires cfg.Valid() && TableOf(scope, cfg) == Some(table)
    ensures r == TableOf(scope + [body], cfg)
  {
    var b := CollectScopeBindings(body);
    var st := BuildScopeTable(b, cfg.order(b), table, cfg.budget);
    assert (scope + [body])[..|scope|] == scope;
    r := if st.None? then None else Some(st.value.table);
  }

  // -------------------------------------- the scopes whose tables the walk needs

  /** `p` holds of the scope of every `def` and `class` in the suite. */
  ghost predicate SuiteHolds(stmts: seq<Stmt>, scope: Scope, p: Scope -> bool)
    decreases stmts, 0
  {
    forall k :: 0 <= k < |stmts| ==> StmtHolds(stmts[k], scope, p)
  }

  ghost predicate ScopeHolds(body: seq<Stmt>, scope: Scope, p: Scope -> bool)
    decreases body, 1
  {
    p(scope + [body]) && SuiteHolds(body, scope + [body], p)
  }

  ghost predicate ArmsHold(arms: seq<Arm>, scope: Scope, p: Scope -> bool)
    decreases arms, 0
  {
    forall k :: 0 <= k < |arms| ==> SuiteHolds(arms[k].body, scope, p)
  }

  ghost predicate ClausesHold(clauses: seq<Clause>, scope: Scope, p: Scope -> bool)
    decreases clauses, 0
  {
    forall k :: 0 <= k < |clauses| ==> SuiteHolds(clauses[k].body, scope, p)
  }

  ghost predicate StmtHolds(s: Stmt, scope: Scope, p: Scope -> bool)
    decreases s, 0
  {
    match s
    case If(_, _, body, clauses) => SuiteHolds(body, scope, p) && ClausesHold(clauses, scope, p)
    case While(_, _, body, orelse) => SuiteHolds(body, scope, p) && SuiteHolds(orelse, scope, p)
    case For(_, _, body, orelse) => SuiteHolds(body, scope, p) && SuiteHolds(orelse, scope, p)
    case With(_, _, body) => SuiteHolds(body, scope, p)
    case Try(_, body, handlers, orelse, finalbody) =>
      && SuiteHolds(body, scope, p) && ArmsHold(handlers, scope, p)
      && SuiteHolds(orelse, scope, p) && SuiteHolds(finalbody, scope, p)
    case FunctionDef(_, body) => ScopeHolds(body, scope, p)
    case ClassDef(_, body) => ScopeHolds(body, scope, p)
    case Match(_, _, cases) => ArmsHold(cases, scope, p)
    case _ => true
  }

  /** The scopes that get their table within the rounds allowed. */
  ghost function Known(cfg: Config): Scope -> bool
    requires cfg.Valid()
  {
    (scope: Scope) => TableOf(scope, cfg).Some?
  }

  // ------------------------------------------------------------------ the walk

  /** What the walk of a suite still has to append from here on. */
  ghost function Remaining(stmts: seq<Stmt>, killed: bool, scope: Scope, cfg: Config): seq<Span>
    requires cfg.Valid()
  {
    if killed then Ranges(stmts) else DeadSuite(stmts, scope, TablesOf(cfg))
  }

  lemma Unroll(dead: seq<Span>, stmts: seq<Stmt>, i: nat, killed: bool, table: NameTable, scope: Scope, cfg: Config)
    requires i < |stmts| && cfg.Valid() && TableOf(scope, cfg) == Some(table)
    ensures var here := if killed then [stmts[i].range] else DeadStmt(stmts[i], scope, TablesOf(cfg));
      dead + Remaining(stmts[i..], killed, scope, cfg) ==
      dead + here + Remaining(stmts[i + 1..], killed || StmtIsTerminator(stmts[i], table), scope, cfg)
  {
    TableInForce(scope, cfg, table);
    assert stmts[i..][0] == stmts[i] && stmts[i..][1..] == stmts[i + 1..];
  }

  /** The growing list of dead ranges. */
  class Walker {
    var dead: seq<Span>

    constructor ()
      ensures dead == []
    {
      dead := [];
    }

    method MarkAll(stmts: seq<Stmt>)
      modifies this
      ensures dead == old(dead) + Ranges(stmts)
    {
      for i := 0 to |stmts|
        invariant old(dead) + Ranges(stmts) == dead + Ranges(stmts[i..])
      {
        dead := dead + [stmts[i].range];
        assert stmts[i..][1..] == stmts[i + 1..];
      }
    }

    /** `ok` is false when some scope's table was given up. */
    method WalkSuite(stmts: seq<Stmt>, table: NameTable, ghost scope: Scope, cfg: Config) returns (ok: bool)
      requires cfg.Valid() && TableOf(scope, cfg) == Some(table)
      modifies this
      ensures SuiteHolds(stmts, scope, Known(cfg)) ==> ok
      ensures ok ==> dead == old(dead) + DeadSuite(stmts, scope, TablesOf(cfg))
      decreases stmts, 0
    {
      hide DeadStmt, StmtIsTerminator, TableOf, TablesOf;
      ghost var total := dead + DeadSuite(stmts, scope, TablesOf(cfg));
      var killed := false;
      for i := 0 to |stmts|
        invariant total == dead + Remaining(stmts[i..], killed, scope, cfg)
      {
        var stmt := stmts[i];
        Unroll(dead, stmts, i, killed, table, scope, cfg);
        if killed {
          dead := dead + [stmt.range];
        } else {
          ok := WalkCompound(stmt, table, scope, cfg);
          if !ok {
            return;
          }
          if StmtIsTerminator(stmt, table) {
            killed := true;
          }
        }
      }
      ok := true;
    }

    method WalkBranch(guard: Option<bool>, body: seq<Stmt>, table: NameTable, ghost scope: Scope, cfg: Config)
      returns (ok: bool)
      requires cfg.Valid() && TableOf(scope, cfg) == Some(table)
      modifies this
      ensures SuiteHolds(body, scope, Known(cfg)) ==> ok
      ensures ok ==> dead == old(dead) + DeadBranch(guard, body, scope, TablesOf(cfg))
      decreases body, 1
    {
      if guard == Some(false) {
        MarkAll(body);
        ok := true;
      } else {
        ok := WalkSuite(body, table, scope, cfg);
      }
    }

    method WalkClauses(clauses: seq<Clause>, taken0: bool, table: NameTable, ghost scope: Scope, cfg: Config)
      returns (ok: bool)
      requires cfg.Valid() && TableOf(scope, cfg) == Some(table)
      modifies this
      ensures ClausesHold(clauses, scope, Known(cfg)) ==> ok
      ensures ok ==> dead == old(dead) + DeadClauses(clauses, taken0, scope, TablesOf(cfg))
      decreases clauses, 0
    {
      TableInForce(scope, cfg, table);
      hide DeadBranch, TableOf, TablesOf, EvaluateTruthiness;
      var taken := taken0;
      for i := 0 to |clauses|
        invariant old(dead) + DeadClauses(clauses, taken0, scope, TablesOf(cfg)) ==
          dead + DeadClauses(clauses[i..], taken, scope, TablesOf(cfg))
      {
        var clause := clauses[i];
        assert clauses[i..][0] == clause && clauses[i..][1..] == clauses[i + 1..];
        if taken {
          dead := dead + [clause.range];
        } else {
          var guard := if clause.test.None? then None else EvaluateTruthiness(clause.test.value, table);
          ok := WalkBranch(guard, clause.body, table, scope, cfg);
          if !ok {
            return;
          }
          taken := guard == Some(true);
        }
      }
      ok := true;
    }

    method WalkArms(arms: seq<Arm>, table: NameTable, ghost scope: Scope, cfg: Config) returns (ok: bool)
      requires cfg.Valid() && TableOf(scope, cfg) == Some(table)
      modifies this
      ensures ArmsHold(arms, scope, Known(cfg)) ==> ok
      ensures ok ==> dead == old(dead) + DeadArms(arms, scope, TablesOf(cfg))
      decreases arms, 0
    {
      hide TableOf, TablesOf, DeadSuite, SuiteHolds;
      for i := 0 to |arms|
        invariant old(dead) + DeadArms(arms, scope, TablesOf(cfg)) == dead + DeadArms(arms[i..], scope, TablesOf(cfg))
      {
        assert arms[i..][0] == arms[i] && arms[i..][1..] == arms[i + 1..];
        ok := WalkSuite(arms[i].body, table, scope, cfg);
        if !ok {
          return;
        }
      }
      ok := true;
    }

    method WalkNested(body: seq<Stmt>, table: NameTable, ghost scope: Scope, cfg: Config) returns (ok: bool)
      requires cfg.Valid() && TableOf(scope, cfg) == Some(table)
      modifies this
      ensures ScopeHolds(body, scope, Known(cfg)) ==> ok
      ensures ok ==> dead == old(dead) + DeadSuite(body, scope + [body], TablesOf(cfg))
      decreases body, 1
    {
      var nested := NestedTable(body, table, scope, cfg);
      if nested.None? {
        return false;
      }
      ok := WalkSuite(body, nested.value, scope + [body], cfg);
    }

    method WalkWhile(stmt: Stmt, table: NameTable, ghost scope: Scope, cfg: Config) returns (ok: bool)
      requires stmt.While? && cfg.Valid() && TableOf(scope, cfg) == Some(table)
      modifies this
      ensures StmtHolds(stmt, scope, Known(cfg)) ==> ok
      ensures ok ==> dead == old(dead) + DeadStmt(stmt, scope, TablesOf(cfg))
      decreases stmt, 0
    {
      TableInForce(scope, cfg, table);
      hide DeadSuite, DeadBranch, TableOf, TablesOf, EvaluateTruthiness, Ranges;
      var guard := EvaluateTruthiness(stmt.test, table);
      ok := WalkBranch(guard, stmt.body, table, scope, cfg);
      if ok && guard == Some(true) {
        MarkAll(stmt.orelse);
      } else if ok {
        ok := WalkSuite(stmt.orelse, table, scope, cfg);
      }
    }

    method WalkTry(stmt: Stmt, table: NameTable, ghost scope: Scope, cfg: Config) returns (ok: bool)
      requires stmt.Try? && cfg.Valid() && TableOf(scope, cfg) == Some(table)
      modifies this
      ensures StmtHolds(stmt, scope, Known(cfg)) ==> ok
      ensures ok ==> dead == old(dead) + DeadStmt(stmt, scope, TablesOf(cfg))
      decreases stmt, 0
    {
      hide DeadSuite, DeadArms, TableOf, TablesOf;
      ok := WalkSuite(stmt.body, table, scope, cfg);
      if ok {
        ok := WalkArms(stmt.handlers, table, scope, cfg);
      }
      if ok {
        ok := WalkSuite(stmt.orelse, table, scope, cfg);
      }
      if ok {
        ok := WalkSuite(stmt.finalbody, table, scope, cfg);
      }
    }

    method WalkIf(stmt: Stmt, table: NameTable, ghost scope: Scope, cfg: Config) returns (ok: bool)
      requires stmt.If? && cfg.Valid() && TableOf(scope, cfg) == Some(table)
      modifies this
      ensures StmtHolds(stmt, scope, Known(cfg)) ==> ok
      ensures ok ==> dead == old(dead) + DeadStmt(stmt, scope, TablesOf(cfg))
      decreases stmt, 0
    {
      TableInForce(scope, cfg, table);
      hide DeadBranch, DeadClauses, TableOf, TablesOf, EvaluateTruthiness;
      var guard := EvaluateTruthiness(stmt.test, table);
      ok := WalkBranch(guard, stmt.body, table, scope, cfg);
      if ok {
        ok := WalkClauses(stmt.clauses, guard == Some(true), table, scope, cfg);
      }
    }

    method WalkFor(stmt: Stmt, table: NameTable, ghost scope: Scope, cfg: Config) returns (ok: bool)
      requires stmt.For? && cfg.Valid() && TableOf(scope, cfg) == Some(table)
      modifies this
      ensures StmtHolds(stmt, scope, Known(cfg)) ==> ok
      ensures ok ==> dead == old(dead) + DeadStmt(stmt, scope, TablesOf(cfg))
      decreases stmt, 0
    {
      hide DeadSuite, TableOf, TablesOf;
      ok := WalkSuite(stmt.body, table, scope, cfg);
      if ok {
        ok := WalkSuite(stmt.orelse, table, scope, cfg);
      }
    }

    method WalkCompound(stmt: Stmt, table: NameTable, ghost scope: Scope, cfg: Config) returns (ok: bool)
      requires cfg.Valid() && TableOf(scope, cfg) == Some(table)
      modifies this
      ensures StmtHolds(stmt, scope, Known(cfg)) ==> ok
      ensures ok ==> dead == old(dead) + DeadStmt(stmt, scope, TablesOf(cfg))
      decreases stmt, 1
    {
      DeadInside(stmt, scope, TablesOf(cfg));
      hide DeadStmt, DeadSuite, DeadArms, TableOf, TablesOf;
      ok := true;
      match stmt
      case If(_, _, _, _) => ok := WalkIf(stmt, table, scope, cfg);
      case While(_, _, _, _) => ok := WalkWhile(stmt, table, scope, cfg);
      case For(_, _, _, _) => ok := WalkFor(stmt, table, scope, cfg);
      case With(_, _, body) => ok := WalkSuite(body, table, scope, cfg);
      case Try(_, _, _, _, _) => ok := WalkTry(stmt, table, scope, cfg);
      case FunctionDef(_, body) => ok := WalkNested(body, table, scope, cfg);
      case ClassDef(_, body) => ok := WalkNested(body, table, scope, cfg);
      case Match(_, _, cases) => ok := WalkArms(cases, table, scope, cfg);
      case _ =>
    }
  }

  /** The statements whose dead ranges are those of their one suite, or none. */
  lemma DeadInside(s: Stmt, scope: Scope, tables: Tables)
    ensures s.With? ==> DeadStmt(s, scope, tables) == DeadSuite(s.body, scope, tables)
    ensures s.FunctionDef? || s.ClassDef? ==> DeadStmt(s, scope, tables) == DeadSuite(s.body, scope + [s.body], tables)
    ensures s.Match? ==> DeadStmt(s, scope, tables) == DeadArms(s.cases, scope, tables)
    ensures !s.With? && !s.FunctionDef? && !s.ClassDef? && !s.Match? && !s.If? && !s.While? && !s.For? && !s.Try?
            ==> DeadStmt(s, scope, tables) == []
  {
  }

  /** A module's dead ranges: no run of the module in which the expected facts
      hold starts a statement, or tries a clause, inside one of them. */
  method DetectDeadRanges(body: seq<Stmt>, cfg: Config) returns (r: Option<seq<Span>>)
    requires cfg.Valid()
    ensures ScopeHolds(body, [], Known(cfg)) ==> r.Some?
    ensures r.Some? ==> r.value == DeadSuite(body, [body], TablesOf(cfg))
    ensures r.Some? && Placed(body, 0) ==>
      forall o, dead, ran ::
        dead in r.value && Ran(ran) in ExecSuite(body, [body], o).trace
        && Faithful(ExecSuite(body, [body], o).trace, TablesOf(cfg))
        ==> !Contains(dead, ran)
  {
    var table := NestedTable(body, map[], [], cfg);
    assert [] + [body] == [body];
    if table.None? {
      return None;
    }
    var walker := new Walker();
    var ok := walker.WalkSuite(body, table.value, [body], cfg);
    if !ok {
      return None;
    }
    r := Some(walker.dead);
    if Placed(body, 0) {
      forall o, dead, ran |
        dead in r.value && Ran(ran) in ExecSuite(body, [body], o).trace
        && Faithful(ExecSuite(body, [body], o).trace, TablesOf(cfg))
        ensures !Contains(dead, ran)
      {
        DeadNeverRuns(body, [body], o, TablesOf(cfg), 0, ran, dead);
      }
    }
  }
}
