/** What must be reported: the dead ranges of every suite of a module, however
    deeply nested, are covered by those reported for the module. */
module DeadCoverage {
  import opened Wrappers
  import opened PythonAst
  import opened Folding
  import opened DeadRegions
  import opened DeadRegionSafety

  ghost predicate Covered(d: Span, dead: seq<Span>) {
    exists c :: c in dead && Contains(c, d)
  }

  lemma CoveredBySome(d: Span, a: seq<Span>, b: seq<Span>)
    ensures Covered(d, a + b) <==> Covered(d, a) || Covered(d, b)
  {
    if c :| c in a && Contains(c, d) {
      assert c in a + b;
    }
    if c :| c in b && Contains(c, d) {
      assert c in a + b;
    }
  }

  // --------------------------------------------------------- the suites of a suite

  /** The suite `inner`, run in `at`, is `stmts` itself or nested in it. */
  ghost predicate SuiteIn(inner: seq<Stmt>, at: Scope, stmts: seq<Stmt>, scope: Scope)
    decreases stmts, 1
  {
    (inner == stmts && at == scope) || Below(inner, at, stmts, scope)
  }

  /** It is nested in one of the statements. */
  ghost predicate Below(inner: seq<Stmt>, at: Scope, stmts: seq<Stmt>, scope: Scope)
    decreases stmts, 0
  {
    stmts != [] && (StmtHas(inner, at, stmts[0], scope) || Below(inner, at, stmts[1..], scope))
  }

  ghost predicate StmtHas(inner: seq<Stmt>, at: Scope, s: Stmt, scope: Scope)
    decreases s, 0
  {
    match s
    case If(_, _, body, clauses) => SuiteIn(inner, at, body, scope) || ClausesHave(inner, at, clauses, scope)
    case While(_, _, body, orelse) => SuiteIn(inner, at, body, scope) || SuiteIn(inner, at, orelse, scope)
    case For(_, _, body, orelse) => SuiteIn(inner, at, body, scope) || SuiteIn(inner, at, orelse, scope)
    case With(_, _, body) => SuiteIn(inner, at, body, scope)
    case Try(_, body, handlers, orelse, finalbody) =>
      || SuiteIn(inner, at, body, scope) || ArmsHave(inner, at, handlers, scope)
      || SuiteIn(inner, at, orelse, scope) || SuiteIn(inner, at, finalbody, scope)
    case FunctionDef(_, body) => SuiteIn(inner, at, body, scope + [body])
    case ClassDef(_, body) => SuiteIn(inner, at, body, scope + [body])
    case Match(_, _, cases) => ArmsHave(inner, at, cases, scope)
    case _ => false
  }

  ghost predicate ClausesHave(inner: seq<Stmt>, at: Scope, clauses: seq<Clause>, scope: Scope)
    decreases clauses, 0
  {
    clauses != [] && (SuiteIn(inner, at, clauses[0].body, scope) || ClausesHave(inner, at, clauses[1..], scope))
  }

  ghost predicate ArmsHave(inner: seq<Stmt>, at: Scope, arms: seq<Arm>, scope: Scope)
    decreases arms, 0
  {
    arms != [] && (SuiteIn(inner, at, arms[0].body, scope) || ArmsHave(inner, at, arms[1..], scope))
  }

  // ------------------------------------------------------------ where they lie

  /** Every dead range of `inner` lies between `lo` and `hi`. */
  ghost predicate DeadBetween(inner: seq<Stmt>, at: Scope, tables: Tables, lo: int, hi: int) {
    Within(DeadSuite(inner, at, tables), lo, hi)
  }

  lemma {:induction false} SuiteLies(inner: seq<Stmt>, at: Scope, stmts: seq<Stmt>, scope: Scope, tables: Tables, lo: int)
    requires Placed(stmts, lo) && SuiteIn(inner, at, stmts, scope)
    ensures DeadBetween(inner, at, tables, lo, End(stmts, lo))
    decreases stmts, 1
  {
    if inner == stmts && at == scope {
      DeadWithin(stmts, scope, tables, lo);
    } else {
      BelowLies(inner, at, stmts, scope, tables, lo);
    }
  }

  lemma {:induction false} BelowLies(inner: seq<Stmt>, at: Scope, stmts: seq<Stmt>, scope: Scope, tables: Tables, lo: int)
    requires Placed(stmts, lo) && Below(inner, at, stmts, scope)
    ensures DeadBetween(inner, at, tables, lo, End(stmts, lo))
    decreases stmts, 0
  {
    var s, rest := stmts[0], stmts[1..];
    EndsAfter(rest, s.range.hi);
    if StmtHas(inner, at, s, scope) {
      StmtLies(inner, at, s, scope, tables);
    } else {
      BelowLies(inner, at, rest, scope, tables, s.range.hi);
    }
  }

  lemma {:induction false} StmtLies(inner: seq<Stmt>, at: Scope, s: Stmt, scope: Scope, tables: Tables)
    requires PlacedStmt(s) && StmtHas(inner, at, s, scope)
    ensures DeadBetween(inner, at, tables, s.range.lo + 1, s.range.hi)
    decreases s, 1
  {
    hide DeadSuite, SuiteIn, Below, ClausesHave, ArmsHave;
    var lo := s.range.lo + 1;
    match s
    case If(_, _, body, clauses) =>
      EndsAfter(body, lo);
      ClausesEndAfter(clauses, End(body, lo));
      if SuiteIn(inner, at, body, scope) {
        SuiteLies(inner, at, body, scope, tables, lo);
      } else {
        ClausesLie(inner, at, clauses, scope, tables, End(body, lo));
      }
    case While(_, _, _, _) => LoopLies(inner, at, s, scope, tables);
    case For(_, _, _, _) => LoopLies(inner, at, s, scope, tables);
    case With(_, _, body) => SuiteLies(inner, at, body, scope, tables, lo);
    case Try(_, body, handlers, orelse, finalbody) =>
      var m := End(body, lo);
      var n := EndOfArms(handlers, m);
      EndsAfter(body, lo);
      ArmsEndAfter(handlers, m);
      EndsAfter(orelse, n);
      EndsAfter(finalbody, End(orelse, n));
      if SuiteIn(inner, at, body, scope) {
        SuiteLies(inner, at, body, scope, tables, lo);
      } else if ArmsHave(inner, at, handlers, scope) {
        ArmsLie(inner, at, handlers, scope, tables, m);
      } else if SuiteIn(inner, at, orelse, scope) {
        SuiteLies(inner, at, orelse, scope, tables, n);
      } else {
        SuiteLies(inner, at, finalbody, scope, tables, End(orelse, n));
      }
    case FunctionDef(_, body) => SuiteLies(inner, at, body, scope + [body], tables, lo);
    case ClassDef(_, body) => SuiteLies(inner, at, body, scope + [body], tables, lo);
    case Match(_, _, cases) => ArmsLie(inner, at, cases, scope, tables, lo);
  }

  lemma {:induction false} LoopLies(inner: seq<Stmt>, at: Scope, s: Stmt, scope: Scope, tables: Tables)
    requires (s.While? || s.For?) && PlacedStmt(s) && StmtHas(inner, at, s, scope)
    ensures DeadBetween(inner, at, tables, s.range.lo + 1, s.range.hi)
    decreases s, 0
  {
    hide DeadSuite, SuiteIn;
    var lo := s.range.lo + 1;
    EndsAfter(s.body, lo);
    EndsAfter(s.orelse, End(s.body, lo));
    if SuiteIn(inner, at, s.body, scope) {
      SuiteLies(inner, at, s.body, scope, tables, lo);
    } else {
      SuiteLies(inner, at, s.orelse, scope, tables, End(s.body, lo));
    }
  }

  lemma {:induction false} ClausesLie(inner: seq<Stmt>, at: Scope, clauses: seq<Clause>, scope: Scope, tables: Tables, lo: int)
    requires PlacedClauses(clauses, lo) && ClausesHave(inner, at, clauses, scope)
    ensures DeadBetween(inner, at, tables, lo, EndOfClauses(clauses, lo))
    decreases clauses, 0
  {
    var c, rest := clauses[0], clauses[1..];
    ClausesEndAfter(rest, c.range.hi);
    if SuiteIn(inner, at, c.body, scope) {
      SuiteLies(inner, at, c.body, scope, tables, c.range.lo + 1);
    } else {
      ClausesLie(inner, at, rest, scope, tables, c.range.hi);
    }
  }

  lemma {:induction false} ArmsLie(inner: seq<Stmt>, at: Scope, arms: seq<Arm>, scope: Scope, tables: Tables, lo: int)
    requires PlacedArms(arms, lo) && ArmsHave(inner, at, arms, scope)
    ensures DeadBetween(inner, at, tables, lo, EndOfArms(arms, lo))
    decreases arms, 0
  {
    var m := End(arms[0].body, lo);
    EndsAfter(arms[0].body, lo);
    ArmsEndAfter(arms[1..], m);
    if SuiteIn(inner, at, arms[0].body, scope) {
      SuiteLies(inner, at, arms[0].body, scope, tables, lo);
    } else {
      ArmsLie(inner, at, arms[1..], scope, tables, m);
    }
  }

  // --------------------------------------------------------------- they are covered

  /** A stretch of statements covers what lies in one of them. */
  lemma {:induction false} RangesCoverBelow(inner: seq<Stmt>, at: Scope, stmts: seq<Stmt>, scope: Scope, tables: Tables, lo: int, d: Span)
    requires Placed(stmts, lo) && Below(inner, at, stmts, scope) && d in DeadSuite(inner, at, tables)
    ensures Covered(d, Ranges(stmts))
    decreases |stmts|
  {
    var s, rest := stmts[0], stmts[1..];
    if StmtHas(inner, at, s, scope) {
      StmtLies(inner, at, s, scope, tables);
      assert s.range in Ranges(stmts) && Contains(s.range, d);
    } else {
      RangesCoverBelow(inner, at, rest, scope, tables, s.range.hi, d);
      CoveredBySome(d, [s.range], Ranges(rest));
    }
  }

  lemma {:induction false} RangesCoverDead(stmts: seq<Stmt>, scope: Scope, tables: Tables, lo: int, d: Span)
    requires Placed(stmts, lo) && d in DeadSuite(stmts, scope, tables)
    ensures Covered(d, Ranges(stmts))
    decreases |stmts|
  {
    var s, rest := stmts[0], stmts[1..];
    CoveredBySome(d, [s.range], Ranges(rest));
    if d in DeadStmt(s, scope, tables) {
      DeadStmtWithin(s, scope, tables);
      assert s.range in [s.range] && Contains(s.range, d);
    } else if StmtIsTerminator(s, tables(scope)) {
      assert Contains(d, d);
    } else {
      RangesCoverDead(rest, scope, tables, s.range.hi, d);
    }
  }

  lemma RangesCover(inner: seq<Stmt>, at: Scope, stmts: seq<Stmt>, scope: Scope, tables: Tables, lo: int, d: Span)
    requires Placed(stmts, lo) && SuiteIn(inner, at, stmts, scope) && d in DeadSuite(inner, at, tables)
    ensures Covered(d, Ranges(stmts))
  {
    if inner == stmts && at == scope {
      RangesCoverDead(stmts, scope, tables, lo, d);
    } else {
      RangesCoverBelow(inner, at, stmts, scope, tables, lo, d);
    }
  }

  lemma {:induction false} SuiteCovers(inner: seq<Stmt>, at: Scope, stmts: seq<Stmt>, scope: Scope, tables: Tables, lo: int, d: Span)
    requires Placed(stmts, lo) && SuiteIn(inner, at, stmts, scope) && d in DeadSuite(inner, at, tables)
    ensures Covered(d, DeadSuite(stmts, scope, tables))
    decreases stmts, 1
  {
    if inner == stmts && at == scope {
      assert Contains(d, d);
    } else {
      BelowCovers(inner, at, stmts, scope, tables, lo, d);
    }
  }

  lemma {:induction false} BelowCovers(inner: seq<Stmt>, at: Scope, stmts: seq<Stmt>, scope: Scope, tables: Tables, lo: int, d: Span)
    requires Placed(stmts, lo) && Below(inner, at, stmts, scope) && d in DeadSuite(inner, at, tables)
    ensures Covered(d, DeadSuite(stmts, scope, tables))
    decreases stmts, 0
  {
    var s, rest := stmts[0], stmts[1..];
    var tail := if StmtIsTerminator(s, tables(scope)) then Ranges(rest) else DeadSuite(rest, scope, tables);
    CoveredBySome(d, DeadStmt(s, scope, tables), tail);
    if StmtHas(inner, at, s, scope) {
      StmtCovers(inner, at, s, scope, tables, d);
    } else if StmtIsTerminator(s, tables(scope)) {
      RangesCoverBelow(inner, at, rest, scope, tables, s.range.hi, d);
    } else {
      BelowCovers(inner, at, rest, scope, tables, s.range.hi, d);
    }
  }

  lemma {:induction false} BranchCovers(guard: Option<bool>, inner: seq<Stmt>, at: Scope, body: seq<Stmt>, scope: Scope, tables: Tables, lo: int, d: Span)
    requires Placed(body, lo) && SuiteIn(inner, at, body, scope) && d in DeadSuite(inner, at, tables)
    ensures Covered(d, DeadBranch(guard, body, scope, tables))
    decreases body, 2
  {
    if guard == Some(false) {
      RangesCover(inner, at, body, scope, tables, lo, d);
    } else {
      SuiteCovers(inner, at, body, scope, tables, lo, d);
    }
  }

  lemma {:induction false} StmtCovers(inner: seq<Stmt>, at: Scope, s: Stmt, scope: Scope, tables: Tables, d: Span)
    requires PlacedStmt(s) && StmtHas(inner, at, s, scope) && d in DeadSuite(inner, at, tables)
    ensures Covered(d, DeadStmt(s, scope, tables))
    decreases s, 1
  {
    hide DeadSuite, DeadArms, DeadClauses, DeadBranch, SuiteIn, Below, ClausesHave, ArmsHave, Covered, EvaluateTruthiness;
    var lo := s.range.lo + 1;
    match s
    case If(_, test, body, clauses) =>
      var guard := EvaluateTruthiness(test, tables(scope));
      CoveredBySome(d, DeadBranch(guard, body, scope, tables), DeadClauses(clauses, guard == Some(true), scope, tables));
      if SuiteIn(inner, at, body, scope) {
        BranchCovers(guard, inner, at, body, scope, tables, lo, d);
      } else {
        ClausesCover(inner, at, clauses, guard == Some(true), scope, tables, End(body, lo), d);
      }
    case While(_, test, body, orelse) => WhileCovers(inner, at, s, scope, tables, d);
    case For(_, _, body, orelse) =>
      CoveredBySome(d, DeadSuite(body, scope, tables), DeadSuite(orelse, scope, tables));
      if SuiteIn(inner, at, body, scope) {
        SuiteCovers(inner, at, body, scope, tables, lo, d);
      } else {
        SuiteCovers(inner, at, orelse, scope, tables, End(body, lo), d);
      }
    case With(_, _, body) => SuiteCovers(inner, at, body, scope, tables, lo, d);
    case Try(_, _, _, _, _) => TryCovers(inner, at, s, scope, tables, d);
    case FunctionDef(_, body) => SuiteCovers(inner, at, body, scope + [body], tables, lo, d);
    case ClassDef(_, body) => SuiteCovers(inner, at, body, scope + [body], tables, lo, d);
    case Match(_, _, cases) => ArmsCover(inner, at, cases, scope, tables, lo, d);
  }

  lemma {:induction false} WhileCovers(inner: seq<Stmt>, at: Scope, s: Stmt, scope: Scope, tables: Tables, d: Span)
    requires s.While? && PlacedStmt(s) && StmtHas(inner, at, s, scope) && d in DeadSuite(inner, at, tables)
    ensures Covered(d, DeadStmt(s, scope, tables))
    decreases s, 0
  {
    hide DeadSuite, DeadBranch, SuiteIn, Covered, EvaluateTruthiness;
    var lo, guard := s.range.lo + 1, EvaluateTruthiness(s.test, tables(scope));
    var tail := if guard == Some(true) then Ranges(s.orelse) else DeadSuite(s.orelse, scope, tables);
    CoveredBySome(d, DeadBranch(guard, s.body, scope, tables), tail);
    if SuiteIn(inner, at, s.body, scope) {
      BranchCovers(guard, inner, at, s.body, scope, tables, lo, d);
    } else if guard == Some(true) {
      RangesCover(inner, at, s.orelse, scope, tables, End(s.body, lo), d);
    } else {
      SuiteCovers(inner, at, s.orelse, scope, tables, End(s.body, lo), d);
    }
  }

  lemma {:induction false} TryCovers(inner: seq<Stmt>, at: Scope, s: Stmt, scope: Scope, tables: Tables, d: Span)
    requires s.Try? && PlacedStmt(s) && StmtHas(inner, at, s, scope) && d in DeadSuite(inner, at, tables)
    ensures Covered(d, DeadStmt(s, scope, tables))
    decreases s, 0
  {
    hide DeadSuite, DeadArms, SuiteIn, ArmsHave, Covered;
    var lo := s.range.lo + 1;
    var m := End(s.body, lo);
    var n := EndOfArms(s.handlers, m);
    var b, h := DeadSuite(s.body, scope, tables), DeadArms(s.handlers, scope, tables);
    var e, f := DeadSuite(s.orelse, scope, tables), DeadSuite(s.finalbody, scope, tables);
    CoveredBySome(d, b, h);
    CoveredBySome(d, b + h, e);
    CoveredBySome(d, b + h + e, f);
    if SuiteIn(inner, at, s.body, scope) {
      SuiteCovers(inner, at, s.body, scope, tables, lo, d);
    } else if ArmsHave(inner, at, s.handlers, scope) {
      ArmsCover(inner, at, s.handlers, scope, tables, m, d);
    } else if SuiteIn(inner, at, s.orelse, scope) {
      SuiteCovers(inner, at, s.orelse, scope, tables, n, d);
    } else {
      SuiteCovers(inner, at, s.finalbody, scope, tables, End(s.orelse, n), d);
    }
  }

  lemma {:induction false} ClausesCover(inner: seq<Stmt>, at: Scope, clauses: seq<Clause>, taken: bool, scope: Scope, tables: Tables, lo: int, d: Span)
    requires PlacedClauses(clauses, lo) && ClausesHave(inner, at, clauses, scope) && d in DeadSuite(inner, at, tables)
    ensures Covered(d, DeadClauses(clauses, taken, scope, tables))
    decreases clauses, 0
  {
    hide DeadSuite, DeadBranch, SuiteIn, Covered, EvaluateTruthiness;
    var c, rest := clauses[0], clauses[1..];
    var guard := if c.test.None? then None else EvaluateTruthiness(c.test.value, tables(scope));
    var head := if taken then [c.range] else DeadBranch(guard, c.body, scope, tables);
    var taken' := taken || guard == Some(true);
    CoveredBySome(d, head, DeadClauses(rest, taken', scope, tables));
    if SuiteIn(inner, at, c.body, scope) {
      if taken {
        SuiteLies(inner, at, c.body, scope, tables, c.range.lo + 1);
        SpanCovers(d, c.range);
      } else {
        BranchCovers(guard, inner, at, c.body, scope, tables, c.range.lo + 1, d);
      }
    } else {
      ClausesCover(inner, at, rest, taken', scope, tables, c.range.hi, d);
    }
  }

  lemma SpanCovers(d: Span, c: Span)
    requires Contains(c, d)
    ensures Covered(d, [c])
  {
    assert c in [c];
  }

  lemma {:induction false} ArmsCover(inner: seq<Stmt>, at: Scope, arms: seq<Arm>, scope: Scope, tables: Tables, lo: int, d: Span)
    requires PlacedArms(arms, lo) && ArmsHave(inner, at, arms, scope) && d in DeadSuite(inner, at, tables)
    ensures Covered(d, DeadArms(arms, scope, tables))
    decreases arms, 0
  {
    hide DeadSuite, SuiteIn, Covered;
    CoveredBySome(d, DeadSuite(arms[0].body, scope, tables), DeadArms(arms[1..], scope, tables));
    if SuiteIn(inner, at, arms[0].body, scope) {
      SuiteCovers(inner, at, arms[0].body, scope, tables, lo, d);
    } else {
      ArmsCover(inner, at, arms[1..], scope, tables, End(arms[0].body, lo), d);
    }
  }

  // ------------------------------------------------------------------ after a jump

  predicate IsJump(s: Stmt) {
    s.Return? || s.Raise? || s.Break? || s.Continue?
  }

  /** Whatever follows a return, raise, break or continue in its suite is reported. */
  lemma {:induction false} AfterJumpIsDead(stmts: seq<Stmt>, scope: Scope, tables: Tables, j: nat, k: nat)
    requires j < k < |stmts| && IsJump(stmts[j])
    ensures stmts[k].range in DeadSuite(stmts, scope, tables)
    decreases |stmts|
  {
    var s, rest := stmts[0], stmts[1..];
    assert rest[k - 1] == stmts[k];
    if StmtIsTerminator(s, tables(scope)) {
      RangesHave(rest, k - 1);
    } else {
      assert rest[j - 1] == stmts[j];
      AfterJumpIsDead(rest, scope, tables, j - 1, k - 1);
    }
  }

  lemma {:induction false} RangesHave(stmts: seq<Stmt>, k: nat)
    requires k < |stmts|
    ensures stmts[k].range in Ranges(stmts)
    decreases |stmts|
  {
    if k > 0 {
      assert stmts[1..][k - 1] == stmts[k];
      RangesHave(stmts[1..], k - 1);
    }
  }

  /** In every suite of a module, however deep, what follows a jump is covered by
      what is reported for the module. */
  lemma AfterJumpIsCovered(body: seq<Stmt>, tables: Tables, lo: int, inner: seq<Stmt>, at: Scope, j: nat, k: nat)
    requires Placed(body, lo) && SuiteIn(inner, at, body, [body])
    requires j < k < |inner| && IsJump(inner[j])
    ensures Covered(inner[k].range, DeadSuite(body, [body], tables))
  {
    AfterJumpIsDead(inner, at, tables, j, k);
    SuiteCovers(inner, at, body, [body], tables, lo, inner[k].range);
  }
}
