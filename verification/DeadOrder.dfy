/** The reported ranges come in source order and do not overlap. */
module DeadOrder {
  import opened Wrappers
  import opened PythonAst
  import opened Folding
  import opened DeadRegions
  import opened DeadRegionSafety

  /** Each range ends before the next begins. */
  ghost predicate InOrder(dead: seq<Span>) {
    forall i, j :: 0 <= i < j < |dead| ==> dead[i].hi <= dead[j].lo
  }

  lemma JoinInOrder(a: seq<Span>, b: seq<Span>, lo: int, m: int, hi: int)
    requires InOrder(a) && InOrder(b) && Within(a, lo, m) && Within(b, m, hi)
    ensures InOrder(a + b)
  {
    var all := a + b;
    forall i, j | 0 <= i < j < |all|
      ensures all[i].hi <= all[j].lo
    {
      if i < |a| <= j {
        assert a[i] in a && b[j - |a|] in b;
      }
    }
  }

  lemma {:induction false} RangesInOrder(stmts: seq<Stmt>, lo: int)
    requires Placed(stmts, lo)
    ensures InOrder(Ranges(stmts))
    decreases |stmts|
  {
    if stmts != [] {
      var s, rest := stmts[0], stmts[1..];
      RangesInOrder(rest, s.range.hi);
      RangesWithin(rest, s.range.hi);
      JoinInOrder([s.range], Ranges(rest), lo, s.range.hi, End(rest, s.range.hi));
    }
  }

  lemma {:induction false} SuiteInOrder(stmts: seq<Stmt>, scope: Scope, tables: Tables, lo: int)
    requires Placed(stmts, lo)
    ensures InOrder(DeadSuite(stmts, scope, tables))
    decreases stmts, 0
  {
    hide DeadStmt, InOrder, Within, StmtIsTerminator;
    if stmts == [] {
      NothingInOrder();
    } else {
      var s, rest := stmts[0], stmts[1..];
      StmtInOrder(s, scope, tables);
      DeadStmtWithin(s, scope, tables);
      RangesInOrder(rest, s.range.hi);
      RangesWithin(rest, s.range.hi);
      SuiteInOrder(rest, scope, tables, s.range.hi);
      DeadWithin(rest, scope, tables, s.range.hi);
      var tail := if StmtIsTerminator(s, tables(scope)) then Ranges(rest) else DeadSuite(rest, scope, tables);
      JoinInOrder(DeadStmt(s, scope, tables), tail, s.range.lo + 1, s.range.hi, End(rest, s.range.hi));
    }
  }

  lemma NothingInOrder()
    ensures InOrder([])
  {
  }

  lemma {:induction false} BranchInOrder(guard: Option<bool>, body: seq<Stmt>, scope: Scope, tables: Tables, lo: int)
    requires Placed(body, lo)
    ensures InOrder(DeadBranch(guard, body, scope, tables))
    decreases body, 1
  {
    RangesInOrder(body, lo);
    SuiteInOrder(body, scope, tables, lo);
  }

  lemma {:induction false} StmtInOrder(s: Stmt, scope: Scope, tables: Tables)
    requires PlacedStmt(s)
    ensures InOrder(DeadStmt(s, scope, tables))
    decreases s, 1
  {
    hide DeadSuite, DeadBranch, DeadClauses, DeadArms, InOrder, Within, EvaluateTruthiness, Ranges;
    var lo := s.range.lo + 1;
    match s
    case If(_, test, body, clauses) =>
      var guard, m := EvaluateTruthiness(test, tables(scope)), End(body, lo);
      BranchInOrder(guard, body, scope, tables, lo);
      BranchWithin(guard, body, scope, tables, lo);
      ClausesInOrder(clauses, guard == Some(true), scope, tables, m);
      ClausesWithin(clauses, guard == Some(true), scope, tables, m);
      JoinInOrder(DeadBranch(guard, body, scope, tables), DeadClauses(clauses, guard == Some(true), scope, tables),
                  lo, m, EndOfClauses(clauses, m));
    case While(_, test, body, orelse) =>
      var guard, m := EvaluateTruthiness(test, tables(scope)), End(body, lo);
      BranchInOrder(guard, body, scope, tables, lo);
      BranchWithin(guard, body, scope, tables, lo);
      RangesInOrder(orelse, m);
      RangesWithin(orelse, m);
      SuiteInOrder(orelse, scope, tables, m);
      DeadWithin(orelse, scope, tables, m);
      JoinInOrder(DeadBranch(guard, body, scope, tables),
                  if guard == Some(true) then Ranges(orelse) else DeadSuite(orelse, scope, tables), lo, m, End(orelse, m));
    case For(_, _, body, orelse) =>
      var m := End(body, lo);
      SuiteInOrder(body, scope, tables, lo);
      DeadWithin(body, scope, tables, lo);
      SuiteInOrder(orelse, scope, tables, m);
      DeadWithin(orelse, scope, tables, m);
      JoinInOrder(DeadSuite(body, scope, tables), DeadSuite(orelse, scope, tables), lo, m, End(orelse, m));
    case With(_, _, body) => SuiteInOrder(body, scope, tables, lo);
    case Try(_, _, _, _, _) => TryInOrder(s, scope, tables);
    case FunctionDef(_, body) => SuiteInOrder(body, scope + [body], tables, lo);
    case ClassDef(_, body) => SuiteInOrder(body, scope + [body], tables, lo);
    case Match(_, _, cases) => ArmsInOrder(cases, scope, tables, lo);
    case _ => NothingInOrder();
  }

  lemma {:induction false} TryInOrder(s: Stmt, scope: Scope, tables: Tables)
    requires s.Try? && PlacedStmt(s)
    ensures InOrder(DeadStmt(s, scope, tables))
    decreases s, 0
  {
    var lo := s.range.lo + 1;
    var m := End(s.body, lo);
    var n := EndOfArms(s.handlers, m);
    var p := End(s.orelse, n);
    TryWithin(s, scope, tables);
    SuiteInOrder(s.body, scope, tables, lo);
    ArmsInOrder(s.handlers, scope, tables, m);
    SuiteInOrder(s.orelse, scope, tables, n);
    SuiteInOrder(s.finalbody, scope, tables, p);
    hide DeadSuite, DeadArms, InOrder, Within, Placed, PlacedArms;
    var b, h := DeadSuite(s.body, scope, tables), DeadArms(s.handlers, scope, tables);
    var e, f := DeadSuite(s.orelse, scope, tables), DeadSuite(s.finalbody, scope, tables);
    JoinInOrder(b, h, lo, m, n);
    SpanBoth(b, h, lo, m, n);
    JoinInOrder(b + h, e, lo, n, p);
    SpanBoth(b + h, e, lo, n, p);
    JoinInOrder(b + h + e, f, lo, p, End(s.finalbody, p));
  }

  lemma {:induction false} ClausesInOrder(clauses: seq<Clause>, taken: bool, scope: Scope, tables: Tables, lo: int)
    requires PlacedClauses(clauses, lo)
    ensures InOrder(DeadClauses(clauses, taken, scope, tables))
    decreases clauses, 0
  {
    hide DeadBranch, InOrder, Within, EvaluateTruthiness;
    if clauses == [] {
      NothingInOrder();
      return;
    }
    var c, rest := clauses[0], clauses[1..];
    var guard := if c.test.None? then None else EvaluateTruthiness(c.test.value, tables(scope));
    var taken' := taken || guard == Some(true);
    ClausesInOrder(rest, taken', scope, tables, c.range.hi);
    ClausesWithin(rest, taken', scope, tables, c.range.hi);
    if taken {
      OneInOrder(c.range);
      JoinInOrder([c.range], DeadClauses(rest, true, scope, tables), lo, c.range.hi, EndOfClauses(rest, c.range.hi));
    } else {
      var a, e := c.range.lo + 1, End(c.body, c.range.lo + 1);
      BranchInOrder(guard, c.body, scope, tables, a);
      BranchWithin(guard, c.body, scope, tables, a);
      Widen([], DeadBranch(guard, c.body, scope, tables), a, e, lo, c.range.hi);
      JoinInOrder(DeadBranch(guard, c.body, scope, tables), DeadClauses(rest, taken', scope, tables),
                  lo, c.range.hi, EndOfClauses(rest, c.range.hi));
    }
  }

  lemma OneInOrder(range: Span)
    requires range.lo < range.hi
    ensures InOrder([range]) && forall lo, hi :: lo <= range.lo && range.hi <= hi ==> Within([range], lo, hi)
  {
  }

  lemma {:induction false} ArmsInOrder(arms: seq<Arm>, scope: Scope, tables: Tables, lo: int)
    requires PlacedArms(arms, lo)
    ensures InOrder(DeadArms(arms, scope, tables))
    decreases arms, 0
  {
    hide DeadSuite, InOrder, Within;
    if arms == [] {
      NothingInOrder();
    } else {
      var m := End(arms[0].body, lo);
      SuiteInOrder(arms[0].body, scope, tables, lo);
      DeadWithin(arms[0].body, scope, tables, lo);
      ArmsInOrder(arms[1..], scope, tables, m);
      ArmsWithin(arms[1..], scope, tables, m);
      JoinInOrder(DeadSuite(arms[0].body, scope, tables), DeadArms(arms[1..], scope, tables), lo, m, EndOfArms(arms[1..], m));
    }
  }
}
