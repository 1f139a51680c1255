/** Reported exactly when it never runs: in straightforward suites every statement
    and clause that is not covered by a reported range is started by some run. */
module DeadReach {
  import opened Wrappers
  import opened PythonAst
  import opened Folding
  import opened Execution
  import opened DeadRegions
  import opened DeadRegionSafety
  import opened DeadCoverage
  import opened FoldingExactness
  import opened DeadExactness

  // ----------------------------------------------------- suites without obstacles

  /** Whatever a statement leads to can be reached once its tests and the statements
      before it allow: those before a statement are terminators or can complete, only
      the last handler or case catches everything, and `else` belongs to a `try`
      whose body can complete. */
  predicate Fair(s: Stmt, scope: Scope, tables: Tables)
    decreases s, 0
  {
    match s
    case If(_, test, body, clauses) => Fits(test) && FairSuite(body, scope, tables) && FairClauses(clauses, scope, tables)
    case While(_, test, body, orelse) => Fits(test) && FairSuite(body, scope, tables) && FairSuite(orelse, scope, tables)
    case For(_, _, body, orelse) => FairSuite(body, scope, tables) && FairSuite(orelse, scope, tables)
    case With(_, _, body) => FairSuite(body, scope, tables)
    case Try(_, body, handlers, orelse, finalbody) =>
      && body != [] && FairSuite(body, scope, tables)
      && FairArms(handlers, scope, tables) && LastCatches(handlers)
      && FairSuite(orelse, scope, tables) && FairSuite(finalbody, scope, tables)
      && (orelse != [] ==> OpenSuite(body, scope, tables) && !SuiteTerminates(body, tables(scope)))
    case FunctionDef(_, body) => FairSuite(body, scope + [body], tables)
    case ClassDef(_, body) => FairSuite(body, scope + [body], tables)
    case Match(_, _, cases) => FairArms(cases, scope, tables) && LastCatches(cases)
    case _ => true
  }

  predicate FairSuite(stmts: seq<Stmt>, scope: Scope, tables: Tables)
    decreases stmts, 0
  {
    stmts == [] ||
    (&& Fair(stmts[0], scope, tables) && FairSuite(stmts[1..], scope, tables)
     && (|stmts| > 1 ==> StmtIsTerminator(stmts[0], tables(scope)) || Open(stmts[0], scope, tables)))
  }

  predicate FairClauses(clauses: seq<Clause>, scope: Scope, tables: Tables)
    decreases clauses, 0
  {
    clauses == [] ||
    (&& FairSuite(clauses[0].body, scope, tables) && FairClauses(clauses[1..], scope, tables)
     && (if clauses[0].test.None? then |clauses| == 1 else Fits(clauses[0].test.value)))
  }

  predicate FairArms(arms: seq<Arm>, scope: Scope, tables: Tables)
    decreases arms, 0
  {
    arms == [] || (FairSuite(arms[0].body, scope, tables) && FairArms(arms[1..], scope, tables))
  }

  // ------------------------------------------------------- statements and clauses

  /** `t` is the range of a statement of the suite, or of a statement or clause
      nested in one. */
  predicate RangeIn(t: Span, stmts: seq<Stmt>)
    decreases stmts, 0
  {
    stmts != [] && (t == stmts[0].range || RangeInside(t, stmts[0]) || RangeIn(t, stmts[1..]))
  }

  predicate RangeInside(t: Span, s: Stmt)
    decreases s, 0
  {
    match s
    case If(_, _, body, clauses) => RangeIn(t, body) || RangeInClauses(t, clauses)
    case While(_, _, body, orelse) => RangeIn(t, body) || RangeIn(t, orelse)
    case For(_, _, body, orelse) => RangeIn(t, body) || RangeIn(t, orelse)
    case With(_, _, body) => RangeIn(t, body)
    case Try(_, body, handlers, orelse, finalbody) =>
      RangeIn(t, body) || RangeInArms(t, handlers) || RangeIn(t, orelse) || RangeIn(t, finalbody)
    case FunctionDef(_, body) => RangeIn(t, body)
    case ClassDef(_, body) => RangeIn(t, body)
    case Match(_, _, cases) => RangeInArms(t, cases)
    case _ => false
  }

  predicate RangeInClauses(t: Span, clauses: seq<Clause>)
    decreases clauses, 0
  {
    clauses != [] && (t == clauses[0].range || RangeIn(t, clauses[0].body) || RangeInClauses(t, clauses[1..]))
  }

  predicate RangeInArms(t: Span, arms: seq<Arm>)
    decreases arms, 0
  {
    arms != [] && (RangeIn(t, arms[0].body) || RangeInArms(t, arms[1..]))
  }

  lemma {:induction false} RangeLies(t: Span, stmts: seq<Stmt>, lo: int)
    requires Placed(stmts, lo) && RangeIn(t, stmts)
    ensures lo <= t.lo && t.hi <= End(stmts, lo)
    decreases stmts, 0
  {
    var s, rest := stmts[0], stmts[1..];
    EndsAfter(rest, s.range.hi);
    if t != s.range {
      if RangeInside(t, s) {
        RangeLiesInside(t, s);
      } else {
        RangeLies(t, rest, s.range.hi);
      }
    }
  }

  lemma {:induction false} RangeLiesInside(t: Span, s: Stmt)
    requires PlacedStmt(s) && RangeInside(t, s)
    ensures Contains(s.range, t)
    decreases s, 0
  {
    hide RangeIn, RangeInClauses, RangeInArms;
    var lo := s.range.lo + 1;
    match s
    case If(_, _, body, clauses) =>
      EndsAfter(body, lo);
      ClausesEndAfter(clauses, End(body, lo));
      if RangeIn(t, body) {
        RangeLies(t, body, lo);
      } else {
        RangeLiesInClauses(t, clauses, End(body, lo));
      }
    case While(_, _, body, orelse) =>
      EndsAfter(body, lo);
      EndsAfter(orelse, End(body, lo));
      if RangeIn(t, body) {
        RangeLies(t, body, lo);
      } else {
        RangeLies(t, orelse, End(body, lo));
      }
    case For(_, _, body, orelse) =>
      EndsAfter(body, lo);
      EndsAfter(orelse, End(body, lo));
      if RangeIn(t, body) {
        RangeLies(t, body, lo);
      } else {
        RangeLies(t, orelse, End(body, lo));
      }
    case With(_, _, body) => RangeLies(t, body, lo);
    case Try(_, body, handlers, orelse, finalbody) =>
      var m := End(body, lo);
      var n := EndOfArms(handlers, m);
      EndsAfter(body, lo);
      ArmsEndAfter(handlers, m);
      EndsAfter(orelse, n);
      EndsAfter(finalbody, End(orelse, n));
      if RangeIn(t, body) {
        RangeLies(t, body, lo);
      } else if RangeInArms(t, handlers) {
        RangeLiesInArms(t, handlers, m);
      } else if RangeIn(t, orelse) {
        RangeLies(t, orelse, n);
      } else {
        RangeLies(t, finalbody, End(orelse, n));
      }
    case FunctionDef(_, body) => RangeLies(t, body, lo);
    case ClassDef(_, body) => RangeLies(t, body, lo);
    case Match(_, _, cases) => RangeLiesInArms(t, cases, lo);
  }

  lemma {:induction false} RangeLiesInClauses(t: Span, clauses: seq<Clause>, lo: int)
    requires PlacedClauses(clauses, lo) && RangeInClauses(t, clauses)
    ensures lo <= t.lo && t.hi <= EndOfClauses(clauses, lo)
    decreases clauses, 0
  {
    var c, rest := clauses[0], clauses[1..];
    ClausesEndAfter(rest, c.range.hi);
    if t != c.range {
      if RangeIn(t, c.body) {
        RangeLies(t, c.body, c.range.lo + 1);
      } else {
        RangeLiesInClauses(t, rest, c.range.hi);
      }
    }
  }

  lemma {:induction false} RangeLiesInArms(t: Span, arms: seq<Arm>, lo: int)
    requires PlacedArms(arms, lo) && RangeInArms(t, arms)
    ensures lo <= t.lo && t.hi <= EndOfArms(arms, lo)
    decreases arms, 0
  {
    var m := End(arms[0].body, lo);
    EndsAfter(arms[0].body, lo);
    ArmsEndAfter(arms[1..], m);
    if RangeIn(t, arms[0].body) {
      RangeLies(t, arms[0].body, lo);
    } else {
      RangeLiesInArms(t, arms[1..], m);
    }
  }

  /** Statements that are reported as a stretch cover what they hold. */
  lemma {:induction false} StretchCovers(t: Span, stmts: seq<Stmt>, lo: int)
    requires Placed(stmts, lo) && RangeIn(t, stmts)
    ensures Covered(t, Ranges(stmts))
    decreases |stmts|
  {
    var s, rest := stmts[0], stmts[1..];
    CoveredBySome(t, [s.range], Ranges(rest));
    if t == s.range || RangeInside(t, s) {
      if RangeInside(t, s) {
        RangeLiesInside(t, s);
      }
      SpanCovers(t, s.range);
    } else {
      StretchCovers(t, rest, s.range.hi);
    }
  }

  /** Clauses after one that is taken cover what they hold. */
  lemma {:induction false} TakenClausesCover(t: Span, clauses: seq<Clause>, scope: Scope, tables: Tables, lo: int)
    requires PlacedClauses(clauses, lo) && RangeInClauses(t, clauses)
    ensures Covered(t, DeadClauses(clauses, true, scope, tables))
    decreases |clauses|
  {
    var c, rest := clauses[0], clauses[1..];
    CoveredBySome(t, [c.range], DeadClauses(rest, true, scope, tables));
    if t == c.range || RangeIn(t, c.body) {
      if RangeIn(t, c.body) {
        RangeLies(t, c.body, c.range.lo + 1);
      }
      SpanCovers(t, c.range);
    } else {
      TakenClausesCover(t, rest, scope, tables, c.range.hi);
    }
  }

  // --------------------------------------------------------------- reaching runs

  /** A faithful run that starts `t` and then has no choices left. */
  ghost predicate Reaches(r: Res, t: Span, tables: Tables) {
    Faithful(r.trace, tables) && Ran(t) in r.trace && r.rest == []
  }

  /** Without choices a suite goes nowhere. */
  lemma SuiteIsStuck(stmts: seq<Stmt>, scope: Scope)
    ensures ExecSuite(stmts, scope, []).trace == [] && ExecSuite(stmts, scope, []).rest == []
  {
  }

  lemma HandlersAreStuck(handlers: seq<Arm>, scope: Scope)
    ensures ExecHandlers(handlers, scope, []).trace == [] && ExecHandlers(handlers, scope, []).rest == []
  {
    if handlers != [] {
      SuiteIsStuck(handlers[0].body, scope);
    }
  }

  lemma AfterReaches(e: Eval, r: Res, t: Span, tables: Tables)
    requires Faithful(e.trace, tables) && Reaches(r, t, tables)
    ensures Reaches(After(e, r), t, tables)
  {
    FaithfulJoin(e.trace, r.trace, tables);
  }

  lemma ThenReaches(a: Res, b: Res, t: Span, tables: Tables)
    requires Faithful(a.trace, tables) && Reaches(b, t, tables)
    ensures Reaches(Then(a, b), t, tables)
  {
    FaithfulJoin(a.trace, b.trace, tables);
  }

  /** What follows a reaching run, without choices, takes nothing away. */
  lemma ReachesThenStuck(a: Res, b: Res, t: Span, tables: Tables)
    requires Reaches(a, t, tables) && b.trace == [] && b.rest == []
    ensures Reaches(Then(a, b), t, tables)
  {
    assert a.trace + [] == a.trace;
  }

  lemma {:induction false} ReachSuite(stmts: seq<Stmt>, scope: Scope, tables: Tables, lo: int, t: Span) returns (o: seq<bool>)
    requires Placed(stmts, lo) && FairSuite(stmts, scope, tables)
    requires RangeIn(t, stmts) && !Covered(t, DeadSuite(stmts, scope, tables))
    ensures Reaches(ExecSuite(stmts, scope, o), t, tables)
    decreases stmts, 0
  {
    hide Fair, Open, StmtIsTerminator, ExecStmt, DeadStmt, Covered, RangeInside, Faithful;
    var s, rest := stmts[0], stmts[1..];
    var tail := if StmtIsTerminator(s, tables(scope)) then Ranges(rest) else DeadSuite(rest, scope, tables);
    CoveredBySome(t, DeadStmt(s, scope, tables), tail);
    if t == s.range || RangeInside(t, s) {
      o := ReachStmt(s, scope, tables, t);
      var first := ExecStmt(s, scope, o);
      SuiteIsStuck(rest, scope);
      ReachesThenStuck(first, ExecSuite(rest, scope, []), t, tables);
    } else if StmtIsTerminator(s, tables(scope)) {
      StretchCovers(t, rest, s.range.hi);
      assert false;
    } else {
      var later := ReachSuite(rest, scope, tables, s.range.hi, t);
      o := CompleteStmt(s, scope, tables, later);
      ThenReaches(ExecStmt(s, scope, o), ExecSuite(rest, scope, later), t, tables);
    }
  }

  lemma {:induction false} ReachStmt(s: Stmt, scope: Scope, tables: Tables, t: Span) returns (o: seq<bool>)
    requires PlacedStmt(s) && Fair(s, scope, tables)
    requires t == s.range || (RangeInside(t, s) && !Covered(t, DeadStmt(s, scope, tables)))
    ensures Reaches(ExecStmt(s, scope, o), t, tables)
    decreases s, 3
  {
    hide Fair, ExecNode, DeadStmt, Covered, RangeInside, Faithful, PlacedStmt;
    RanIsFaithful(s.range, tables);
    if t == s.range {
      o := [true];
    } else {
      var inner := ReachNode(s, scope, tables, t);
      o := [false] + inner;
      assert o[1..] == inner;
      FaithfulJoin([Ran(s.range)], ExecNode(s, scope, inner).trace, tables);
    }
  }

  lemma {:induction false} ReachNode(s: Stmt, scope: Scope, tables: Tables, t: Span) returns (o: seq<bool>)
    requires PlacedStmt(s) && Fair(s, scope, tables) && RangeInside(t, s) && !Covered(t, DeadStmt(s, scope, tables))
    ensures Reaches(ExecNode(s, scope, o), t, tables)
    decreases s, 2
  {
    match s
    case If(_, _, _, _) => o := ReachIf(s, scope, tables, t);
    case While(_, _, _, _) => o := ReachWhile(s, scope, tables, t);
    case For(_, _, _, _) => o := ReachFor(s, scope, tables, t);
    case With(_, _, _) => o := ReachWith(s, scope, tables, t);
    case Try(_, _, _, _, _) => o := ReachTry(s, scope, tables, t);
    case FunctionDef(_, _) => o := ReachFunction(s, scope, tables, t);
    case ClassDef(_, body) => o := ReachSuite(body, scope + [body], tables, s.range.lo + 1, t);
    case Match(_, _, _) => o := ReachMatch(s, scope, tables, t);
  }

  lemma {:induction false} ReachIf(s: Stmt, scope: Scope, tables: Tables, t: Span) returns (o: seq<bool>)
    requires s.If? && PlacedStmt(s) && Fair(s, scope, tables) && RangeInside(t, s) && !Covered(t, DeadStmt(s, scope, tables))
    ensures Reaches(ExecNode(s, scope, o), t, tables)
    decreases s, 0
  {
    hide FairSuite, FairClauses, DeadSuite, DeadClauses, RangeIn, RangeInClauses, Run, ExecSuite, ExecClauses;
    hide Covered, EvaluateTruthiness, Fits, Faithful;
    var known := EvaluateTruthiness(s.test, tables(scope));
    OnlyTwoTruths(known);
    var lo := s.range.lo + 1;
    CoveredBySome(t, DeadBranch(known, s.body, scope, tables), DeadClauses(s.clauses, known == Some(true), scope, tables));
    if RangeIn(t, s.body) {
      if known == Some(false) {
        StretchCovers(t, s.body, lo);
        assert false;
      }
      var rest := ReachSuite(s.body, scope, tables, lo, t);
      o := Attain(s.test, scope, tables, true, rest);
      AfterReaches(Run(s.test, scope, o), ExecSuite(s.body, scope, rest), t, tables);
    } else {
      if known == Some(true) {
        TakenClausesCover(t, s.clauses, scope, tables, End(s.body, lo));
        assert false;
      }
      var rest := ReachClauses(s.clauses, scope, tables, End(s.body, lo), t);
      o := Attain(s.test, scope, tables, false, rest);
      AfterReaches(Run(s.test, scope, o), ExecClauses(s.clauses, scope, rest), t, tables);
    }
  }

  lemma FirstClauseIsTried(clauses: seq<Clause>, scope: Scope, tables: Tables)
    requires clauses != []
    ensures Reaches(ExecClauses(clauses, scope, []), clauses[0].range, tables)
  {
    var c := clauses[0];
    SuiteIsStuck(c.body, scope);
    if c.test.Some? {
      RunIsStuck(c.test.value, scope);
    }
    hide Run, ExecSuite;
    assert [Ran(c.range)] + [] == [Ran(c.range)];
    assert ExecClauses(clauses, scope, []).trace == [Ran(c.range)];
    assert Ran(c.range) in [Ran(c.range)];
  }

  lemma {:induction false} ReachClauses(clauses: seq<Clause>, scope: Scope, tables: Tables, lo: int, t: Span) returns (o: seq<bool>)
    requires PlacedClauses(clauses, lo) && FairClauses(clauses, scope, tables)
    requires RangeInClauses(t, clauses) && !Covered(t, DeadClauses(clauses, false, scope, tables))
    ensures Reaches(ExecClauses(clauses, scope, o), t, tables)
    decreases clauses, 0
  {
    hide FairSuite, DeadSuite, RangeIn, Run, ExecSuite, Covered, EvaluateTruthiness, Fits, Faithful;
    var c, rest := clauses[0], clauses[1..];
    var guard := if c.test.None? then None else EvaluateTruthiness(c.test.value, tables(scope));
    OnlyTwoTruths(guard);
    var here := Eval(Truth(true), [Ran(c.range)], []);
    RanIsFaithful(c.range, tables);
    CoveredBySome(t, DeadBranch(guard, c.body, scope, tables), DeadClauses(rest, guard == Some(true), scope, tables));
    if t == c.range {
      o := [];
      FirstClauseIsTried(clauses, scope, tables);
    } else if RangeIn(t, c.body) {
      if guard == Some(false) {
        StretchCovers(t, c.body, c.range.lo + 1);
        assert false;
      }
      var later := ReachSuite(c.body, scope, tables, c.range.lo + 1, t);
      o := later;
      if c.test.None? {
        AfterReaches(here.(rest := o), ExecSuite(c.body, scope, o), t, tables);
      } else {
        o := Attain(c.test.value, scope, tables, true, later);
        AfterReaches(Run(c.test.value, scope, o), ExecSuite(c.body, scope, later), t, tables);
        AfterReaches(here.(rest := o), After(Run(c.test.value, scope, o), ExecSuite(c.body, scope, later)), t, tables);
      }
    } else {
      if guard == Some(true) {
        TakenClausesCover(t, rest, scope, tables, c.range.hi);
        assert false;
      }
      var later := ReachClauses(rest, scope, tables, c.range.hi, t);
      o := Attain(c.test.value, scope, tables, false, later);
      AfterReaches(Run(c.test.value, scope, o), ExecClauses(rest, scope, later), t, tables);
      AfterReaches(here.(rest := o), After(Run(c.test.value, scope, o), ExecClauses(rest, scope, later)), t, tables);
    }
  }

  lemma RunIsStuck(e: Expr, scope: Scope)
    ensures Run(e, scope, []) == Eval(Suspended, [], [])
  {
  }

  lemma {:induction false} ReachWhile(s: Stmt, scope: Scope, tables: Tables, t: Span) returns (o: seq<bool>)
    requires s.While? && PlacedStmt(s) && Fair(s, scope, tables) && RangeInside(t, s) && !Covered(t, DeadStmt(s, scope, tables))
    ensures Reaches(ExecNode(s, scope, o), t, tables)
    decreases s, 0
  {
    hide FairSuite, DeadSuite, RangeIn, Run, ExecSuite, Covered, EvaluateTruthiness, Fits, Faithful;
    var known, lo := EvaluateTruthiness(s.test, tables(scope)), s.range.lo + 1;
    OnlyTwoTruths(known);
    var tail := if known == Some(true) then Ranges(s.orelse) else DeadSuite(s.orelse, scope, tables);
    CoveredBySome(t, DeadBranch(known, s.body, scope, tables), tail);
    if RangeIn(t, s.body) {
      if known == Some(false) {
        StretchCovers(t, s.body, lo);
        assert false;
      }
      var rest := ReachSuite(s.body, scope, tables, lo, t);
      o := Attain(s.test, scope, tables, true, rest);
      var b := ExecSuite(s.body, scope, rest);
      RunIsStuck(s.test, scope);
      var again := ExecWhile(s.test, s.body, s.orelse, scope, []);
      ReachesThenStuck(b, again, t, tables);
      AfterReaches(Run(s.test, scope, o), b, t, tables);
      AfterReaches(Run(s.test, scope, o), b.(outcome := Normal), t, tables);
      AfterReaches(Run(s.test, scope, o), Then(b, again), t, tables);
    } else {
      if known == Some(true) {
        StretchCovers(t, s.orelse, End(s.body, lo));
        assert false;
      }
      var rest := ReachSuite(s.orelse, scope, tables, End(s.body, lo), t);
      o := Attain(s.test, scope, tables, false, rest);
      AfterReaches(Run(s.test, scope, o), ExecSuite(s.orelse, scope, rest), t, tables);
    }
  }

  lemma {:induction false} ReachFor(s: Stmt, scope: Scope, tables: Tables, t: Span) returns (o: seq<bool>)
    requires s.For? && PlacedStmt(s) && Fair(s, scope, tables) && RangeInside(t, s) && !Covered(t, DeadStmt(s, scope, tables))
    ensures Reaches(ExecNode(s, scope, o), t, tables)
    decreases s, 0
  {
    hide FairSuite, DeadSuite, RangeIn, Run, ExecSuite, Covered, Faithful;
    var lo := s.range.lo + 1;
    CoveredBySome(t, DeadSuite(s.body, scope, tables), DeadSuite(s.orelse, scope, tables));
    var inBody := RangeIn(t, s.body);
    var rest;
    if inBody {
      rest := ReachSuite(s.body, scope, tables, lo, t);
    } else {
      rest := ReachSuite(s.orelse, scope, tables, End(s.body, lo), t);
    }
    var turn := [false, inBody] + rest;
    assert turn[1..] == [inBody] + rest && ([inBody] + rest)[1..] == rest;
    o := SomeValue(s.iter, scope, tables, turn);
    var b, again := ExecSuite(s.body, scope, rest), ExecFor(s.body, s.orelse, scope, []);
    if inBody {
      ReachesThenStuck(b, again, t, tables);
    }
    AfterReaches(Run(s.iter, scope, o), ExecFor(s.body, s.orelse, scope, turn), t, tables);
  }

  lemma {:induction false} ReachWith(s: Stmt, scope: Scope, tables: Tables, t: Span) returns (o: seq<bool>)
    requires s.With? && PlacedStmt(s) && Fair(s, scope, tables) && RangeInside(t, s) && !Covered(t, DeadStmt(s, scope, tables))
    ensures Reaches(ExecNode(s, scope, o), t, tables)
    decreases s, 0
  {
    hide FairSuite, DeadSuite, RangeIn, RunParts, ExecSuite, Covered, Faithful;
    var rest := ReachSuite(s.body, scope, tables, s.range.lo + 1, t);
    o := PartsCome(s.parts, scope, tables, true, rest);
    AfterReaches(RunParts(s.parts, scope, o), ExitManager(ExecSuite(s.body, scope, rest)), t, tables);
  }

  lemma {:induction false} ReachFunction(s: Stmt, scope: Scope, tables: Tables, t: Span) returns (o: seq<bool>)
    requires s.FunctionDef? && PlacedStmt(s) && Fair(s, scope, tables) && RangeInside(t, s) && !Covered(t, DeadStmt(s, scope, tables))
    ensures Reaches(ExecNode(s, scope, o), t, tables)
    decreases s, 0
  {
    hide FairSuite, DeadSuite, RangeIn, ExecSuite, Covered, Faithful;
    var rest := ReachSuite(s.body, scope + [s.body], tables, s.range.lo + 1, t);
    o := [true] + rest;
    assert o[1..] == rest;
    ReachesThenStuck(ExecSuite(s.body, scope + [s.body], rest), ExecCalls(s.body, scope + [s.body], []), t, tables);
  }

  lemma {:induction false} ReachMatch(s: Stmt, scope: Scope, tables: Tables, t: Span) returns (o: seq<bool>)
    requires s.Match? && PlacedStmt(s) && Fair(s, scope, tables) && RangeInside(t, s) && !Covered(t, DeadStmt(s, scope, tables))
    ensures Reaches(ExecNode(s, scope, o), t, tables)
    decreases s, 0
  {
    hide FairArms, DeadArms, RangeInArms, Run, ExecCases, Covered, Faithful, LastCatches;
    var rest := ReachCases(s.cases, scope, tables, s.range.lo + 1, t);
    o := SomeValue(s.subject, scope, tables, rest);
    AfterReaches(Run(s.subject, scope, o), ExecCases(s.cases, scope, rest), t, tables);
  }

  lemma LastOfRestCatches(arms: seq<Arm>)
    requires LastCatches(arms) && |arms| > 1
    ensures !arms[0].catchAll && LastCatches(arms[1..])
  {
    forall k | 0 <= k < |arms[1..]| - 1
      ensures !arms[1..][k].catchAll
    {
      assert arms[1..][k] == arms[k + 1];
    }
  }

  lemma {:induction false} ReachCases(cases: seq<Arm>, scope: Scope, tables: Tables, lo: int, t: Span) returns (o: seq<bool>)
    requires PlacedArms(cases, lo) && FairArms(cases, scope, tables) && LastCatches(cases)
    requires RangeInArms(t, cases) && !Covered(t, DeadArms(cases, scope, tables))
    ensures Reaches(ExecCases(cases, scope, o), t, tables)
    decreases cases, 0
  {
    hide FairSuite, DeadSuite, RangeIn, ExecSuite, Covered, Faithful, LastCatches;
    var c, rest := cases[0], cases[1..];
    CoveredBySome(t, DeadSuite(c.body, scope, tables), DeadArms(rest, scope, tables));
    if RangeIn(t, c.body) {
      var later := ReachSuite(c.body, scope, tables, lo, t);
      o := if c.catchAll then later else [true] + later;
      assert !c.catchAll ==> o[1..] == later;
    } else {
      LastOfRestCatches(cases);
      var later := ReachCases(rest, scope, tables, End(c.body, lo), t);
      o := [false] + later;
      assert o[1..] == later;
    }
  }

  lemma {:induction false} ReachHandlers(handlers: seq<Arm>, scope: Scope, tables: Tables, lo: int, t: Span) returns (o: seq<bool>)
    requires PlacedArms(handlers, lo) && FairArms(handlers, scope, tables) && LastCatches(handlers)
    requires RangeInArms(t, handlers) && !Covered(t, DeadArms(handlers, scope, tables))
    ensures Reaches(ExecHandlers(handlers, scope, o), t, tables)
    decreases handlers, 0
  {
    hide FairSuite, DeadSuite, RangeIn, ExecSuite, Covered, Faithful, LastCatches;
    var h, rest := handlers[0], handlers[1..];
    CoveredBySome(t, DeadSuite(h.body, scope, tables), DeadArms(rest, scope, tables));
    if RangeIn(t, h.body) {
      var later := ReachSuite(h.body, scope, tables, lo, t);
      o := if h.catchAll then later else [true] + later;
      assert !h.catchAll ==> o[1..] == later;
    } else {
      LastOfRestCatches(handlers);
      var later := ReachHandlers(rest, scope, tables, End(h.body, lo), t);
      o := [false] + later;
      assert o[1..] == later;
    }
  }

  /** Handlers passed through, by refusing them or by an interruption in the last. */
  lemma {:induction false} PassHandlers(handlers: seq<Arm>, scope: Scope, tables: Tables, more: seq<bool>) returns (o: seq<bool>)
    requires LastCatches(handlers)
    ensures var r := ExecHandlers(handlers, scope, o); r.outcome != Stopped && r.rest == more && Faithful(r.trace, tables)
    decreases |handlers|
  {
    hide LastCatches;
    NoEventIsFaithful(tables);
    if handlers == [] {
      o := more;
    } else if handlers[0].catchAll {
      if handlers[0].body == [] {
        o := more;
      } else {
        o := [true] + more;
        InterruptedSuite(handlers[0].body, scope, more);
        RanIsFaithful(handlers[0].body[0].range, tables);
      }
    } else {
      if |handlers| > 1 {
        LastOfRestCatches(handlers);
      }
      assert LastCatches(handlers[1..]) by {
        if |handlers| == 1 {
          NothingCatches(handlers[1..]);
        }
      }
      var later := PassHandlers(handlers[1..], scope, tables, more);
      o := [false] + later;
      assert o[1..] == later;
    }
  }

  lemma NothingCatches(arms: seq<Arm>)
    requires arms == []
    ensures LastCatches(arms)
  {
  }

  lemma {:induction false} ReachTry(s: Stmt, scope: Scope, tables: Tables, t: Span) returns (o: seq<bool>)
    requires s.Try? && PlacedStmt(s) && Fair(s, scope, tables) && RangeInside(t, s) && !Covered(t, DeadStmt(s, scope, tables))
    ensures Reaches(ExecNode(s, scope, o), t, tables)
    decreases s, 1
  {
    hide FairSuite, FairArms, DeadSuite, DeadArms, RangeIn, RangeInArms, ExecSuite, ExecHandlers, Covered, Faithful, LastCatches, OpenSuite, SuiteTerminates;
    var lo := s.range.lo + 1;
    var m := End(s.body, lo);
    var n := EndOfArms(s.handlers, m);
    var db, dh := DeadSuite(s.body, scope, tables), DeadArms(s.handlers, scope, tables);
    var de, df := DeadSuite(s.orelse, scope, tables), DeadSuite(s.finalbody, scope, tables);
    CoveredBySome(t, db, dh);
    CoveredBySome(t, db + dh, de);
    CoveredBySome(t, db + dh + de, df);
    if RangeIn(t, s.body) {
      o := ReachSuite(s.body, scope, tables, lo, t);
      BodyReached(s, scope, tables, o, t);
    } else if RangeInArms(t, s.handlers) {
      var later := ReachHandlers(s.handlers, scope, tables, m, t);
      o := [true] + later;
      HandlerReached(s, scope, tables, later, t);
    } else if RangeIn(t, s.orelse) {
      assert s.orelse != [] by { NothingIsIn(t, s.orelse); }
      var later := ReachSuite(s.orelse, scope, tables, n, t);
      o := CompleteSuite(s.body, scope, tables, later);
      ElseReached(s, scope, tables, o, later, t);
    } else {
      var later := ReachSuite(s.finalbody, scope, tables, End(s.orelse, n), t);
      var through := PassHandlers(s.handlers, scope, tables, later);
      o := [true] + through;
      FinallyReached(s, scope, tables, through, later, t);
    }
  }

  lemma NothingIsIn(t: Span, stmts: seq<Stmt>)
    requires RangeIn(t, stmts)
    ensures stmts != []
  {
  }

  lemma BodyReached(s: Stmt, scope: Scope, tables: Tables, o: seq<bool>, t: Span)
    requires s.Try? && Reaches(ExecSuite(s.body, scope, o), t, tables)
    ensures Reaches(ExecNode(s, scope, o), t, tables)
  {
    hide ExecSuite, ExecHandlers, Reaches;
    var b := ExecSuite(s.body, scope, o);
    ReachedRest(b, t, tables);
    SuiteIsStuck(s.orelse, scope);
    SuiteIsStuck(s.finalbody, scope);
    HandlersAreStuck(s.handlers, scope);
    var e, h, f := ExecSuite(s.orelse, scope, []), ExecHandlers(s.handlers, scope, []), ExecSuite(s.finalbody, scope, []);
    ReachesThenStuck(b, e, t, tables);
    ReachesThenStuck(b, h, t, tables);
    var mid := if b.outcome == Normal then Then(b, e) else if b.outcome == Raising then Then(b, h) else b;
    ReachedRest(mid, t, tables);
    ReachesThenStuck(mid, if f.outcome == Normal then f.(outcome := mid.outcome) else f, t, tables);
  }

  lemma ReachedRest(r: Res, t: Span, tables: Tables)
    requires Reaches(r, t, tables)
    ensures r.rest == []
  {
  }

  lemma HandlerReached(s: Stmt, scope: Scope, tables: Tables, later: seq<bool>, t: Span)
    requires s.Try? && s.body != [] && Reaches(ExecHandlers(s.handlers, scope, later), t, tables)
    ensures Reaches(ExecNode(s, scope, [true] + later), t, tables)
  {
    hide ExecSuite, ExecHandlers, Reaches, Faithful;
    InterruptedSuite(s.body, scope, later);
    RanIsFaithful(s.body[0].range, tables);
    var b, h := ExecSuite(s.body, scope, [true] + later), ExecHandlers(s.handlers, scope, later);
    ThenReaches(b, h, t, tables);
    FinallyIsStuck(Then(b, h), s.finalbody, scope, t, tables);
  }

  lemma FinallyIsStuck(mid: Res, finalbody: seq<Stmt>, scope: Scope, t: Span, tables: Tables)
    requires Reaches(mid, t, tables)
    ensures mid.rest == []
    ensures var f := ExecSuite(finalbody, scope, mid.rest);
      Reaches(Then(mid, if f.outcome == Normal then f.(outcome := mid.outcome) else f), t, tables)
  {
    SuiteIsStuck(finalbody, scope);
    var f := ExecSuite(finalbody, scope, []);
    ReachesThenStuck(mid, if f.outcome == Normal then f.(outcome := mid.outcome) else f, t, tables);
  }

  lemma ElseReached(s: Stmt, scope: Scope, tables: Tables, o: seq<bool>, later: seq<bool>, t: Span)
    requires s.Try? && Done(ExecSuite(s.body, scope, o), later, tables) && Reaches(ExecSuite(s.orelse, scope, later), t, tables)
    ensures Reaches(ExecNode(s, scope, o), t, tables)
  {
    hide ExecSuite, ExecHandlers, Reaches, Faithful;
    var b, e := ExecSuite(s.body, scope, o), ExecSuite(s.orelse, scope, later);
    ThenReaches(b, e, t, tables);
    FinallyIsStuck(Then(b, e), s.finalbody, scope, t, tables);
  }

  lemma FinallyReached(s: Stmt, scope: Scope, tables: Tables, through: seq<bool>, later: seq<bool>, t: Span)
    requires s.Try? && s.body != [] && Reaches(ExecSuite(s.finalbody, scope, later), t, tables)
    requires var r := ExecHandlers(s.handlers, scope, through); r.outcome != Stopped && r.rest == later && Faithful(r.trace, tables)
    ensures Reaches(ExecNode(s, scope, [true] + through), t, tables)
  {
    hide ExecSuite, ExecHandlers, Faithful;
    InterruptedSuite(s.body, scope, through);
    RanIsFaithful(s.body[0].range, tables);
    var b, h := ExecSuite(s.body, scope, [true] + through), ExecHandlers(s.handlers, scope, through);
    FaithfulJoin(b.trace, h.trace, tables);
    var mid, f := Then(b, h), ExecSuite(s.finalbody, scope, later);
    ThenReaches(mid, if f.outcome == Normal then f.(outcome := mid.outcome) else f, t, tables);
  }

  // ------------------------------------------------------------------ the theorem

  /** In a suite without obstacles, a statement or clause is covered by what is
      reported exactly when no faithful run starts it. */
  lemma ReportedIffNeverRuns(stmts: seq<Stmt>, scope: Scope, tables: Tables, lo: int, t: Span)
    requires Placed(stmts, lo) && FairSuite(stmts, scope, tables) && RangeIn(t, stmts)
    ensures Covered(t, DeadSuite(stmts, scope, tables)) <==>
      forall o :: Faithful(ExecSuite(stmts, scope, o).trace, tables) ==> Ran(t) !in ExecSuite(stmts, scope, o).trace
  {
    hide Placed, FairSuite, ExecSuite, DeadSuite, RangeIn, Faithful;
    if Covered(t, DeadSuite(stmts, scope, tables)) {
      var c :| c in DeadSuite(stmts, scope, tables) && Contains(c, t);
      forall o | Faithful(ExecSuite(stmts, scope, o).trace, tables)
        ensures Ran(t) !in ExecSuite(stmts, scope, o).trace
      {
        if Ran(t) in ExecSuite(stmts, scope, o).trace {
          DeadNeverRuns(stmts, scope, o, tables, lo, t, c);
        }
      }
    } else {
      var o := ReachSuite(stmts, scope, tables, lo, t);
    }
  }
}
