/** No faithful run ever starts a statement, or tries a clause, inside a range
    the analysis calls dead. */
module DeadRegionSafety {
  import opened Wrappers
  import opened PythonAst
  import opened Folding
  import opened Execution
  import opened DeadRegions

  /** Everything that ran lies in `[lo, hi)`. */
  ghost predicate Inside(trace: seq<Event>, lo: int, hi: int) {
    forall e :: e in trace && e.Ran? ==> lo <= e.range.lo < e.range.hi <= hi
  }

  ghost predicate Within(dead: seq<Span>, lo: int, hi: int) {
    forall d :: d in dead ==> lo <= d.lo && d.hi <= hi
  }

  /** Nothing that ran lies in a dead range. */
  ghost predicate Clean(trace: seq<Event>, dead: seq<Span>) {
    forall e, d :: e in trace && d in dead && e.Ran? ==> !Contains(d, e.range)
  }

  /** What is proved of each piece of a run. */
  ghost predicate Good(r: Res, lo: int, hi: int, dead: seq<Span>, terminator: bool, tables: Tables) {
    && Inside(r.trace, lo, hi)
    && (Faithful(r.trace, tables) ==> Clean(r.trace, dead) && (terminator ==> r.outcome != Normal))
  }

  lemma JoinTraces(a: seq<Event>, b: seq<Event>, lo: int, hi: int, dead: seq<Span>, tables: Tables)
    ensures Faithful(a + b, tables) <==> Faithful(a, tables) && Faithful(b, tables)
    ensures Inside(a + b, lo, hi) <==> Inside(a, lo, hi) && Inside(b, lo, hi)
    ensures Clean(a + b, dead) <==> Clean(a, dead) && Clean(b, dead)
  {
    assert forall e :: e in a + b <==> e in a || e in b;
  }

  lemma JoinDead(trace: seq<Event>, a: seq<Span>, b: seq<Span>, lo: int, hi: int)
    ensures Clean(trace, a + b) <==> Clean(trace, a) && Clean(trace, b)
    ensures Within(a + b, lo, hi) <==> Within(a, lo, hi) && Within(b, lo, hi)
  {
    assert forall d :: d in a + b <==> d in a || d in b;
  }

  lemma Silent(trace: seq<Event>, lo: int, hi: int, dead: seq<Span>)
    requires NoneRan(trace)
    ensures Inside(trace, lo, hi) && Clean(trace, dead)
  {
  }

  lemma Apart(trace: seq<Event>, dead: seq<Span>, a: int, b: int, c: int, d: int)
    requires Inside(trace, a, b) && Within(dead, c, d) && (b <= c || d <= a)
    ensures Clean(trace, dead)
  {
  }

  /** A header is never inside what it heads. */
  lemma HeaderIsClean(range: Span, dead: seq<Span>, hi: int)
    requires Within(dead, range.lo + 1, hi) && range.lo < range.hi
    ensures Clean([Ran(range)], dead) && Inside([Ran(range)], range.lo, range.hi)
  {
  }

  lemma Widen(trace: seq<Event>, dead: seq<Span>, lo: int, hi: int, lo': int, hi': int)
    requires lo' <= lo && hi <= hi'
    ensures Inside(trace, lo, hi) ==> Inside(trace, lo', hi')
    ensures Within(dead, lo, hi) ==> Within(dead, lo', hi')
  {
  }

  // ------------------------------------------------- where dead ranges can be

  lemma {:induction false} EndsAfter(stmts: seq<Stmt>, lo: int)
    requires Placed(stmts, lo)
    ensures lo <= End(stmts, lo)
    decreases stmts
  {
    if stmts != [] {
      EndsAfter(stmts[1..], stmts[0].range.hi);
    }
  }

  lemma {:induction false} ClausesEndAfter(clauses: seq<Clause>, lo: int)
    requires PlacedClauses(clauses, lo)
    ensures lo <= EndOfClauses(clauses, lo)
    decreases clauses
  {
    if clauses != [] {
      ClausesEndAfter(clauses[1..], clauses[0].range.hi);
    }
  }

  lemma {:induction false} ArmsEndAfter(arms: seq<Arm>, lo: int)
    requires PlacedArms(arms, lo)
    ensures lo <= EndOfArms(arms, lo)
    decreases arms
  {
    if arms != [] {
      EndsAfter(arms[0].body, lo);
      ArmsEndAfter(arms[1..], End(arms[0].body, lo));
    }
  }

  lemma {:induction false} RangesWithin(stmts: seq<Stmt>, lo: int)
    requires Placed(stmts, lo)
    ensures Within(Ranges(stmts), lo, End(stmts, lo))
    decreases stmts
  {
    if stmts != [] {
      var s, rest := stmts[0], stmts[1..];
      RangesWithin(rest, s.range.hi);
      EndsAfter(rest, s.range.hi);
      Widen([], Ranges(rest), s.range.hi, End(stmts, lo), lo, End(stmts, lo));
      JoinDead([], [s.range], Ranges(rest), lo, End(stmts, lo));
    }
  }

  lemma {:induction false} DeadWithin(stmts: seq<Stmt>, scope: Scope, tables: Tables, lo: int)
    requires Placed(stmts, lo)
    ensures Within(DeadSuite(stmts, scope, tables), lo, End(stmts, lo))
    decreases stmts, 0
  {
    if stmts != [] {
      var s, rest, hi := stmts[0], stmts[1..], End(stmts, lo);
      EndsAfter(rest, s.range.hi);
      RangesWithin(rest, s.range.hi);
      DeadWithin(rest, scope, tables, s.range.hi);
      DeadStmtWithin(s, scope, tables);
      hide Within, DeadStmt;
      var tail := if StmtIsTerminator(s, tables(scope)) then Ranges(rest) else DeadSuite(rest, scope, tables);
      Widen([], tail, s.range.hi, hi, lo, hi);
      Widen([], DeadStmt(s, scope, tables), s.range.lo + 1, s.range.hi, lo, hi);
      JoinDead([], DeadStmt(s, scope, tables), tail, lo, hi);
    }
  }

  lemma {:induction false} BranchWithin(guard: Option<bool>, body: seq<Stmt>, scope: Scope, tables: Tables, lo: int)
    requires Placed(body, lo)
    ensures Within(DeadBranch(guard, body, scope, tables), lo, End(body, lo))
    decreases body, 1
  {
    RangesWithin(body, lo);
    DeadWithin(body, scope, tables, lo);
  }

  /** Two neighbouring pieces lie within what spans both. */
  lemma SpanBoth(a: seq<Span>, b: seq<Span>, lo: int, m: int, hi: int)
    requires Within(a, lo, m) && Within(b, m, hi) && lo <= m <= hi
    ensures Within(a + b, lo, hi)
  {
    JoinDead([], a, b, lo, hi);
  }

  lemma {:induction false} DeadStmtWithin(s: Stmt, scope: Scope, tables: Tables)
    requires PlacedStmt(s)
    ensures Within(DeadStmt(s, scope, tables), s.range.lo + 1, s.range.hi)
    decreases s, 1
  {
    var lo := s.range.lo + 1;
    match s
    case If(_, test, body, clauses) =>
      var guard, m := EvaluateTruthiness(test, tables(scope)), End(body, lo);
      BranchWithin(guard, body, scope, tables, lo);
      ClausesWithin(clauses, guard == Some(true), scope, tables, m);
      EndsAfter(body, lo);
      ClausesEndAfter(clauses, m);
      SpanBoth(DeadBranch(guard, body, scope, tables), DeadClauses(clauses, guard == Some(true), scope, tables),
               lo, m, EndOfClauses(clauses, m));
    case While(_, test, body, orelse) =>
      var guard, m := EvaluateTruthiness(test, tables(scope)), End(body, lo);
      BranchWithin(guard, body, scope, tables, lo);
      RangesWithin(orelse, m);
      DeadWithin(orelse, scope, tables, m);
      EndsAfter(body, lo);
      EndsAfter(orelse, m);
      SpanBoth(DeadBranch(guard, body, scope, tables),
               if guard == Some(true) then Ranges(orelse) else DeadSuite(orelse, scope, tables),
               lo, m, End(orelse, m));
    case For(_, _, body, orelse) =>
      var m := End(body, lo);
      DeadWithin(body, scope, tables, lo);
      DeadWithin(orelse, scope, tables, m);
      EndsAfter(body, lo);
      EndsAfter(orelse, m);
      SpanBoth(DeadSuite(body, scope, tables), DeadSuite(orelse, scope, tables), lo, m, End(orelse, m));
    case With(_, _, body) => DeadWithin(body, scope, tables, lo);
    case Try(_, _, _, _, _) => TryWithin(s, scope, tables);
    case FunctionDef(_, body) => DeadWithin(body, scope + [body], tables, lo);
    case ClassDef(_, body) => DeadWithin(body, scope + [body], tables, lo);
    case Match(_, _, cases) => ArmsWithin(cases, scope, tables, lo);
    case _ =>
  }

  /** The four parts of a `try` occupy consecutive stretches. */
  ghost predicate TryLaidOut(s: Stmt, scope: Scope, tables: Tables)
    requires s.Try?
  {
    var lo := s.range.lo + 1;
    var m := End(s.body, lo);
    var n := EndOfArms(s.handlers, m);
    var p := End(s.orelse, n);
    && lo <= m <= n <= p <= End(s.finalbody, p) <= s.range.hi
    && Within(DeadSuite(s.body, scope, tables), lo, m)
    && Within(DeadArms(s.handlers, scope, tables), m, n)
    && Within(DeadSuite(s.orelse, scope, tables), n, p)
    && Within(DeadSuite(s.finalbody, scope, tables), p, End(s.finalbody, p))
  }

  lemma {:induction false} TryWithin(s: Stmt, scope: Scope, tables: Tables)
    requires s.Try? && PlacedStmt(s)
    ensures TryLaidOut(s, scope, tables)
    ensures Within(DeadStmt(s, scope, tables), s.range.lo + 1, s.range.hi)
    decreases s, 0
  {
    var lo := s.range.lo + 1;
    var m := End(s.body, lo);
    var n := EndOfArms(s.handlers, m);
    var p := End(s.orelse, n);
    var q := End(s.finalbody, p);
    EndsAfter(s.body, lo);
    ArmsEndAfter(s.handlers, m);
    EndsAfter(s.orelse, n);
    EndsAfter(s.finalbody, p);
    DeadWithin(s.body, scope, tables, lo);
    ArmsWithin(s.handlers, scope, tables, m);
    DeadWithin(s.orelse, scope, tables, n);
    DeadWithin(s.finalbody, scope, tables, p);
    hide Within, Placed, PlacedArms, DeadSuite, DeadArms;
    var d := DeadSuite(s.body, scope, tables) + DeadArms(s.handlers, scope, tables);
    SpanBoth(DeadSuite(s.body, scope, tables), DeadArms(s.handlers, scope, tables), lo, m, n);
    SpanBoth(d, DeadSuite(s.orelse, scope, tables), lo, n, p);
    SpanBoth(d + DeadSuite(s.orelse, scope, tables), DeadSuite(s.finalbody, scope, tables), lo, p, q);
    Widen([], DeadStmt(s, scope, tables), lo, q, lo, s.range.hi);
  }

  lemma {:induction false} ClausesWithin(clauses: seq<Clause>, taken: bool, scope: Scope, tables: Tables, lo: int)
    requires PlacedClauses(clauses, lo)
    ensures Within(DeadClauses(clauses, taken, scope, tables), lo, EndOfClauses(clauses, lo))
    decreases clauses, 0
  {
    if clauses != [] {
      var c, rest, hi := clauses[0], clauses[1..], EndOfClauses(clauses, lo);
      ClausesEndAfter(rest, c.range.hi);
      if taken {
        ClausesWithin(rest, true, scope, tables, c.range.hi);
        SpanBoth([c.range], DeadClauses(rest, true, scope, tables), lo, c.range.hi, hi);
      } else {
        var guard := if c.test.None? then None else EvaluateTruthiness(c.test.value, tables(scope));
        BranchWithin(guard, c.body, scope, tables, c.range.lo + 1);
        ClausesWithin(rest, guard == Some(true), scope, tables, c.range.hi);
        Widen([], DeadBranch(guard, c.body, scope, tables), c.range.lo + 1, End(c.body, c.range.lo + 1), lo, c.range.hi);
        SpanBoth(DeadBranch(guard, c.body, scope, tables), DeadClauses(rest, guard == Some(true), scope, tables),
                 lo, c.range.hi, hi);
      }
    }
  }

  lemma {:induction false} ArmsWithin(arms: seq<Arm>, scope: Scope, tables: Tables, lo: int)
    requires PlacedArms(arms, lo)
    ensures Within(DeadArms(arms, scope, tables), lo, EndOfArms(arms, lo))
    decreases arms, 0
  {
    if arms != [] {
      var m := End(arms[0].body, lo);
      EndsAfter(arms[0].body, lo);
      ArmsEndAfter(arms[1..], m);
      DeadWithin(arms[0].body, scope, tables, lo);
      ArmsWithin(arms[1..], scope, tables, m);
      SpanBoth(DeadSuite(arms[0].body, scope, tables), DeadArms(arms[1..], scope, tables), lo, m, EndOfArms(arms, lo));
    }
  }

  // ------------------------------------------------------------ putting pieces of runs together

  lemma GoodSilent(r: Res, lo: int, hi: int, dead: seq<Span>, t: bool, tables: Tables)
    requires NoneRan(r.trace) && (t ==> r.outcome != Normal)
    ensures Good(r, lo, hi, dead, t, tables)
  {
    Silent(r.trace, lo, hi, dead);
  }

  lemma GoodAfter(e: Eval, r: Res, lo: int, hi: int, dead: seq<Span>, t: bool, tables: Tables)
    requires NoneRan(e.trace) && Good(r, lo, hi, dead, t, tables)
    ensures Good(After(e, r), lo, hi, dead, t, tables)
  {
    Silent(e.trace, lo, hi, dead);
    JoinTraces(e.trace, r.trace, lo, hi, dead, tables);
  }

  lemma GoodThen(a: Res, b: Res, lo: int, hi: int, dead: seq<Span>, t: bool, tables: Tables)
    requires Good(a, lo, hi, dead, false, tables) && Good(b, lo, hi, dead, t, tables)
    ensures Good(Then(a, b), lo, hi, dead, t, tables)
  {
    JoinTraces(a.trace, b.trace, lo, hi, dead, tables);
  }

  /** When `a` would have had to stop, nothing that follows it is faithful. */
  lemma GoodImpossible(a: Res, b: Res, lo: int, hi: int, dead: seq<Span>, dead': seq<Span>, t: bool, tables: Tables)
    requires Good(a, lo, hi, dead, true, tables) && a.outcome == Normal && Inside(b.trace, lo, hi)
    ensures Good(Then(a, b), lo, hi, dead', t, tables)
  {
    JoinTraces(a.trace, b.trace, lo, hi, dead, tables);
  }

  lemma GoodEnding(r: Res, outcome: Outcome, lo: int, hi: int, dead: seq<Span>, t: bool, t': bool, tables: Tables)
    requires Good(r, lo, hi, dead, t, tables)
    requires t' ==> outcome != Normal || (t && outcome == r.outcome)
    ensures Good(r.(outcome := outcome), lo, hi, dead, t', tables)
  {
  }

  /** The same piece within a larger stretch, judged against dead ranges that
      lie before or after it as well. */
  lemma GoodAmong(r: Res, before: seq<Span>, dead: seq<Span>, after: seq<Span>,
                  lo: int, a: int, b: int, hi: int, t: bool, tables: Tables)
    requires Good(r, a, b, dead, t, tables)
    requires Within(before, lo, a) && Within(after, b, hi) && lo <= a && b <= hi
    ensures Good(r, lo, hi, before + dead + after, t, tables)
  {
    Apart(r.trace, before, a, b, lo, a);
    Apart(r.trace, after, a, b, b, hi);
    JoinDead(r.trace, before, dead, lo, hi);
    JoinDead(r.trace, before + dead, after, lo, hi);
    Widen(r.trace, [], a, b, lo, hi);
  }

  lemma WithinNothing(lo: int, hi: int)
    ensures Within([], lo, hi)
  {
  }

  lemma GoodBefore(r: Res, dead: seq<Span>, after: seq<Span>,
                   lo: int, a: int, b: int, hi: int, t: bool, tables: Tables)
    requires Good(r, a, b, dead, t, tables) && Within(after, b, hi) && lo <= a && b <= hi
    ensures Good(r, lo, hi, dead + after, t, tables)
  {
    WithinNothing(lo, a);
    GoodAmong(r, [], dead, after, lo, a, b, hi, t, tables);
    assert [] + dead + after == dead + after;
  }

  lemma GoodAfterDead(r: Res, before: seq<Span>, dead: seq<Span>,
                      lo: int, a: int, b: int, hi: int, t: bool, tables: Tables)
    requires Good(r, a, b, dead, t, tables) && Within(before, lo, a) && lo <= a && b <= hi
    ensures Good(r, lo, hi, before + dead, t, tables)
  {
    WithinNothing(b, hi);
    GoodAmong(r, before, dead, [], lo, a, b, hi, t, tables);
    assert before + dead + [] == before + dead;
  }

  lemma GoodInside(r: Res, a: int, b: int, dead: seq<Span>, t: bool, tables: Tables, lo: int, hi: int)
    requires Good(r, a, b, dead, t, tables) && lo <= a && b <= hi
    ensures Inside(r.trace, lo, hi)
  {
  }

  /** A piece run under a guard the analysis had folded the other way is not faithful. */
  lemma GoodGuarded(t: Eval, r: Res, lo: int, hi: int, dead: seq<Span>, term: bool, tables: Tables)
    requires NoneRan(t.trace) && Inside(r.trace, lo, hi) && !Faithful(t.trace, tables)
    ensures Good(After(t, r), lo, hi, dead, term, tables)
  {
    Silent(t.trace, lo, hi, dead);
    JoinTraces(t.trace, r.trace, lo, hi, dead, tables);
  }

  // ---------------------------------------------------------------- the proof

  lemma {:induction false} SuiteIsGood(stmts: seq<Stmt>, scope: Scope, o: seq<bool>, tables: Tables, lo: int)
    requires Placed(stmts, lo)
    ensures Good(ExecSuite(stmts, scope, o), lo, End(stmts, lo), DeadSuite(stmts, scope, tables),
                 SuiteTerminates(stmts, tables(scope)), tables)
    decreases |o|, 2, |stmts|
  {
    hide Inside, Within, Clean, Faithful;
    var hi := End(stmts, lo);
    if stmts == [] {
      GoodSilent(ExecSuite(stmts, scope, o), lo, hi, [], false, tables);
    } else {
      var s, rest := stmts[0], stmts[1..];
      var first, term := ExecStmt(s, scope, o), StmtIsTerminator(s, tables(scope));
      var head, tail := DeadStmt(s, scope, tables), if term then Ranges(rest) else DeadSuite(rest, scope, tables);
      StmtIsGood(s, scope, o, tables);
      EndsAfter(rest, s.range.hi);
      RangesWithin(rest, s.range.hi);
      DeadWithin(rest, scope, tables, s.range.hi);
      DeadStmtWithin(s, scope, tables);
      Widen([], head, s.range.lo + 1, s.range.hi, lo, s.range.hi);
      GoodBefore(first, head, tail, lo, s.range.lo, s.range.hi, hi, term, tables);
      if first.outcome != Normal {
        GoodEnding(first, first.outcome, lo, hi, head + tail, term, SuiteTerminates(stmts, tables(scope)), tables);
      } else {
        var others := ExecSuite(rest, scope, first.rest);
        SuiteIsGood(rest, scope, first.rest, tables, s.range.hi);
        Widen(others.trace, [], s.range.hi, hi, lo, hi);
        if term {
          GoodImpossible(first, others, lo, hi, head + tail, head + tail, true, tables);
        } else {
          GoodAfterDead(others, head, tail, lo, s.range.hi, hi, hi, SuiteTerminates(rest, tables(scope)), tables);
          GoodThen(first, others, lo, hi, head + tail, SuiteTerminates(rest, tables(scope)), tables);
        }
      }
    }
  }

  lemma {:induction false} StmtIsGood(s: Stmt, scope: Scope, o: seq<bool>, tables: Tables)
    requires PlacedStmt(s)
    ensures Good(ExecStmt(s, scope, o), s.range.lo, s.range.hi, DeadStmt(s, scope, tables),
                 StmtIsTerminator(s, tables(scope)), tables)
    decreases |o|, 1, 0
  {
    var r, dead, term := ExecStmt(s, scope, o), DeadStmt(s, scope, tables), StmtIsTerminator(s, tables(scope));
    var lo, hi := s.range.lo, s.range.hi;
    DeadStmtWithin(s, scope, tables);
    HeaderIsClean(s.range, dead, hi);
    if o == [] {
      GoodSilent(r, lo, hi, dead, term, tables);
    } else if !o[0] {
      var node := ExecNode(s, scope, o[1..]);
      NodeIsGood(s, scope, o[1..], tables);
      Widen(node.trace, [], lo + 1, hi, lo, hi);
      JoinTraces([Ran(s.range)], node.trace, lo, hi, dead, tables);
    }
  }

  lemma {:induction false} NodeIsGood(s: Stmt, scope: Scope, o: seq<bool>, tables: Tables)
    requires PlacedStmt(s)
    ensures Good(ExecNode(s, scope, o), s.range.lo + 1, s.range.hi, DeadStmt(s, scope, tables),
                 StmtIsTerminator(s, tables(scope)), tables)
    decreases |o|, 4, 0
  {
    var r, dead, term := ExecNode(s, scope, o), DeadStmt(s, scope, tables), StmtIsTerminator(s, tables(scope));
    var lo, hi := s.range.lo + 1, s.range.hi;
    match s
    case If(_, _, _, _) => IfIsGood(s, scope, o, tables);
    case While(_, _, _, _) => WhileIsGood(s, scope, o, tables);
    case For(_, iter, body, orelse) =>
      var t := Run(iter, scope, o);
      if !t.value.Truth? {
        GoodSilent(r, lo, hi, dead, term, tables);
      } else {
        ForIsGood(s, scope, t.rest, tables);
        GoodAfter(t, ExecFor(body, orelse, scope, t.rest), lo, hi, dead, term, tables);
      }
    case With(_, parts, body) =>
      var t := RunParts(parts, scope, o);
      if !t.value.Truth? {
        GoodSilent(r, lo, hi, dead, term, tables);
      } else {
        var b := ExecSuite(body, scope, t.rest);
        SuiteIsGood(body, scope, t.rest, tables, lo);
        ExitIsGood(b, lo, End(body, lo), dead, term, tables);
        GoodAfter(t, ExitManager(b), lo, End(body, lo), dead, term, tables);
        Widen(r.trace, [], lo, End(body, lo), lo, hi);
      }
    case Try(_, _, _, _, _) => TryIsGood(s, scope, o, tables);
    case FunctionDef(_, body) =>
      CallsAreGood(body, scope + [body], o, tables, lo);
      Widen(r.trace, [], lo, End(body, lo), lo, hi);
    case ClassDef(_, body) =>
      SuiteIsGood(body, scope + [body], o, tables, lo);
      Widen(r.trace, [], lo, End(body, lo), lo, hi);
    case Match(_, subject, cases) =>
      var t := Run(subject, scope, o);
      if !t.value.Truth? {
        GoodSilent(r, lo, hi, dead, term, tables);
      } else {
        var c := ExecCases(cases, scope, t.rest);
        CasesAreGood(cases, scope, t.rest, tables, lo);
        GoodEnding(c, c.outcome, lo, EndOfArms(cases, lo), dead, Exhausts(cases, tables(scope)), false, tables);
        GoodAfter(t, c, lo, EndOfArms(cases, lo), dead, term, tables);
        Widen(r.trace, [], lo, EndOfArms(cases, lo), lo, hi);
      }
    case Assert(_, test) => AssertIsGood(s, scope, o, tables);
    case _ =>
      GoodSilent(r, lo, hi, dead, term, tables);
  }

  lemma AssertIsGood(s: Stmt, scope: Scope, o: seq<bool>, tables: Tables)
    requires s.Assert?
    ensures Good(ExecNode(s, scope, o), s.range.lo + 1, s.range.hi, DeadStmt(s, scope, tables),
                 StmtIsTerminator(s, tables(scope)), tables)
  {
    var r := ExecNode(s, scope, o);
    var enabled := Choose(o);
    if enabled.value.Truth? && enabled.value.truth {
      var t := Run(s.test, scope, enabled.rest);
      if Faithful(t.trace, tables) && t.value.Truth? && EvaluateTruthiness(s.test, tables(scope)) == Some(false) {
        FoldingIsSound(s.test, scope, enabled.rest, tables, false);
      }
    } else if enabled.value.Truth? {
      assert AssertSkipped in r.trace;
    }
  }

  lemma ExitIsGood(b: Res, lo: int, hi: int, dead: seq<Span>, term: bool, tables: Tables)
    requires Good(b, lo, hi, dead, term, tables)
    ensures Good(ExitManager(b), lo, hi, dead, term, tables)
  {
    var r := ExitManager(b);
    if r.trace == b.trace + [Swallowed] {
      JoinTraces(b.trace, [Swallowed], lo, hi, dead, tables);
      assert Swallowed in [Swallowed];
    }
  }

  lemma {:induction false} IfIsGood(s: Stmt, scope: Scope, o: seq<bool>, tables: Tables)
    requires s.If? && PlacedStmt(s)
    ensures Good(ExecNode(s, scope, o), s.range.lo + 1, s.range.hi, DeadStmt(s, scope, tables),
                 StmtIsTerminator(s, tables(scope)), tables)
    decreases |o|, 3, |s.clauses| + 1
  {
    hide Inside, Within, Clean, Faithful;
    var r, dead, term := ExecNode(s, scope, o), DeadStmt(s, scope, tables), StmtIsTerminator(s, tables(scope));
    var lo, hi, m := s.range.lo + 1, s.range.hi, End(s.body, s.range.lo + 1);
    var guard, t := EvaluateTruthiness(s.test, tables(scope)), Run(s.test, scope, o);
    var branch, others := DeadBranch(guard, s.body, scope, tables), DeadClauses(s.clauses, guard == Some(true), scope, tables);
    if !t.value.Truth? {
      GoodSilent(r, lo, hi, dead, term, tables);
      return;
    }
    EndsAfter(s.body, lo);
    ClausesEndAfter(s.clauses, m);
    BranchWithin(guard, s.body, scope, tables, lo);
    ClausesWithin(s.clauses, guard == Some(true), scope, tables, m);
    if Faithful(t.trace, tables) && guard.Some? {
      FoldingIsSound(s.test, scope, o, tables, guard.value);
    }
    if t.value.truth {
      var b := ExecSuite(s.body, scope, t.rest);
      SuiteIsGood(s.body, scope, t.rest, tables, lo);
      Widen(b.trace, [], lo, m, lo, hi);
      if !Faithful(t.trace, tables) {
        GoodGuarded(t, b, lo, hi, dead, term, tables);
      } else {
        Widen([], others, m, EndOfClauses(s.clauses, m), m, hi);
        GoodBefore(b, branch, others, lo, lo, m, hi, SuiteTerminates(s.body, tables(scope)), tables);
        GoodEnding(b, b.outcome, lo, hi, dead, SuiteTerminates(s.body, tables(scope)), term, tables);
        GoodAfter(t, b, lo, hi, dead, term, tables);
      }
    } else {
      var c := ExecClauses(s.clauses, scope, t.rest);
      ClausesAreGood(s.clauses, scope, t.rest, tables, m);
      Widen(c.trace, [], m, EndOfClauses(s.clauses, m), lo, hi);
      if !Faithful(t.trace, tables) {
        GoodGuarded(t, c, lo, hi, dead, term, tables);
      } else {
        var all := AlwaysTerminate(s.clauses, tables(scope));
        GoodAfterDead(c, branch, others, lo, m, EndOfClauses(s.clauses, m), hi, all, tables);
        GoodEnding(c, c.outcome, lo, hi, dead, all, term, tables);
        GoodAfter(t, c, lo, hi, dead, term, tables);
      }
    }
  }

  /** The clauses end with an `else`, and each of them terminates. */
  predicate AlwaysTerminate(clauses: seq<Clause>, table: NameTable) {
    clauses != [] && clauses[|clauses| - 1].test.None? && ClausesTerminate(clauses, table)
  }

  lemma {:induction false} ClausesAreGood(clauses: seq<Clause>, scope: Scope, o: seq<bool>, tables: Tables, lo: int)
    requires PlacedClauses(clauses, lo)
    ensures Good(ExecClauses(clauses, scope, o), lo, EndOfClauses(clauses, lo),
                 DeadClauses(clauses, false, scope, tables), AlwaysTerminate(clauses, tables(scope)), tables)
    decreases |o|, 3, |clauses|
  {
    hide Good, Inside, Within, Clean, Faithful, End, SuiteTerminates;
    var r, hi := ExecClauses(clauses, scope, o), EndOfClauses(clauses, lo);
    if clauses == [] {
      GoodSilent(r, lo, hi, [], false, tables);
      return;
    }
    var c, rest, term := clauses[0], clauses[1..], AlwaysTerminate(clauses, tables(scope));
    var guard := if c.test.None? then None else EvaluateTruthiness(c.test.value, tables(scope));
    var here, a, m := [Ran(c.range)], c.range.lo + 1, c.range.hi;
    var branch, others := DeadBranch(guard, c.body, scope, tables), DeadClauses(rest, guard == Some(true), scope, tables);
    var dead := branch + others;
    ClausesEndAfter(rest, m);
    BranchWithin(guard, c.body, scope, tables, a);
    ClausesWithin(rest, guard == Some(true), scope, tables, m);
    TriedClauseIsClean(c.range, o, branch, others, lo, End(c.body, a), hi, tables);
    EndsAfter(c.body, a);
    var bodyTerm := SuiteTerminates(c.body, tables(scope));
    Widen([], others, m, hi, End(c.body, a), hi);
    if c.test.None? {
      var b := ExecSuite(c.body, scope, o);
      SuiteIsGood(c.body, scope, o, tables, a);
      GoodBefore(b, branch, others, lo, a, End(c.body, a), hi, bodyTerm, tables);
      GoodEnding(b, b.outcome, lo, hi, dead, bodyTerm, term, tables);
      GoodThen(Res(Normal, here, o), b, lo, hi, dead, term, tables);
      return;
    }
    var t := Run(c.test.value, scope, o);
    if !t.value.Truth? {
      var stop := Res(Abort(t.value), t.trace, t.rest);
      GoodSilent(stop, lo, hi, dead, term, tables);
      GoodThen(Res(Normal, here, o), stop, lo, hi, dead, term, tables);
      return;
    }
    var p := if t.value.truth then ExecSuite(c.body, scope, t.rest) else ExecClauses(rest, scope, t.rest);
    TestedClauseIsGood(clauses, scope, o, tables, lo);
    GoodThen(Res(Normal, here, o), After(t, p), lo, hi, dead, term, tables);
  }

  /** An `elif` whose test yielded a value: what runs because of it. */
  lemma {:induction false} TestedClauseIsGood(clauses: seq<Clause>, scope: Scope, o: seq<bool>, tables: Tables, lo: int)
    requires PlacedClauses(clauses, lo) && clauses != [] && clauses[0].test.Some?
    requires Run(clauses[0].test.value, scope, o).value.Truth?
    ensures var t := Run(clauses[0].test.value, scope, o);
      Good(After(t, if t.value.truth then ExecSuite(clauses[0].body, scope, t.rest) else ExecClauses(clauses[1..], scope, t.rest)),
           lo, EndOfClauses(clauses, lo), DeadClauses(clauses, false, scope, tables), AlwaysTerminate(clauses, tables(scope)), tables)
    decreases |o|, 3, |clauses|, 0
  {
    hide Good, Inside, Within, Clean, Faithful, End, SuiteTerminates;
    var hi, c, rest, term := EndOfClauses(clauses, lo), clauses[0], clauses[1..], AlwaysTerminate(clauses, tables(scope));
    var guard, t := EvaluateTruthiness(c.test.value, tables(scope)), Run(c.test.value, scope, o);
    var a, m := c.range.lo + 1, c.range.hi;
    var branch, others := DeadBranch(guard, c.body, scope, tables), DeadClauses(rest, guard == Some(true), scope, tables);
    var dead, bodyTerm := branch + others, SuiteTerminates(c.body, tables(scope));
    ClausesEndAfter(rest, m);
    BranchWithin(guard, c.body, scope, tables, a);
    ClausesWithin(rest, guard == Some(true), scope, tables, m);
    EndsAfter(c.body, a);
    Widen([], others, m, hi, End(c.body, a), hi);
    if Faithful(t.trace, tables) && guard.Some? {
      FoldingIsSound(c.test.value, scope, o, tables, guard.value);
    }
    var p := if t.value.truth then ExecSuite(c.body, scope, t.rest) else ExecClauses(rest, scope, t.rest);
    if t.value.truth {
      SuiteIsGood(c.body, scope, t.rest, tables, a);
      GoodInside(p, a, End(c.body, a), DeadSuite(c.body, scope, tables), bodyTerm, tables, lo, hi);
    } else {
      ClausesAreGood(rest, scope, t.rest, tables, m);
      GoodInside(p, m, hi, DeadClauses(rest, false, scope, tables), AlwaysTerminate(rest, tables(scope)), tables, lo, hi);
    }
    if !Faithful(t.trace, tables) {
      GoodGuarded(t, p, lo, hi, dead, term, tables);
    } else {
      if t.value.truth {
        GoodBefore(p, branch, others, lo, a, End(c.body, a), hi, bodyTerm, tables);
        GoodEnding(p, p.outcome, lo, hi, dead, bodyTerm, term, tables);
      } else {
        Widen([], branch, a, End(c.body, a), lo, m);
        GoodAfterDead(p, branch, others, lo, m, hi, hi, AlwaysTerminate(rest, tables(scope)), tables);
        GoodEnding(p, p.outcome, lo, hi, dead, AlwaysTerminate(rest, tables(scope)), term, tables);
      }
      GoodAfter(t, p, lo, hi, dead, term, tables);
    }
  }

  lemma TriedClauseIsClean(range: Span, o: seq<bool>, branch: seq<Span>, others: seq<Span>,
                           lo: int, m: int, hi: int, tables: Tables)
    requires lo <= range.lo < range.hi <= hi && m <= range.hi
    requires Within(branch, range.lo + 1, m) && Within(others, range.hi, hi)
    ensures Good(Res(Normal, [Ran(range)], o), lo, hi, branch + others, false, tables)
  {
    Widen([], branch, range.lo + 1, m, range.lo + 1, hi);
    Widen([], others, range.hi, hi, range.lo + 1, hi);
    HeaderIsClean(range, branch, hi);
    HeaderIsClean(range, others, hi);
    JoinDead([Ran(range)], branch, others, lo, hi);
    Widen([Ran(range)], [], range.lo, range.hi, lo, hi);
  }

  lemma {:induction false} WhileIsGood(s: Stmt, scope: Scope, o: seq<bool>, tables: Tables)
    requires s.While? && PlacedStmt(s)
    ensures Good(ExecNode(s, scope, o), s.range.lo + 1, s.range.hi, DeadStmt(s, scope, tables), false, tables)
    decreases |o|, 3, 0
  {
    hide Inside, Within, Clean, Faithful;
    var r, dead := ExecNode(s, scope, o), DeadStmt(s, scope, tables);
    var lo, hi, m := s.range.lo + 1, s.range.hi, End(s.body, s.range.lo + 1);
    var guard, t := EvaluateTruthiness(s.test, tables(scope)), Run(s.test, scope, o);
    var branch := DeadBranch(guard, s.body, scope, tables);
    var els := if guard == Some(true) then Ranges(s.orelse) else DeadSuite(s.orelse, scope, tables);
    assert r == ExecWhile(s.test, s.body, s.orelse, scope, o);
    if !t.value.Truth? {
      GoodSilent(r, lo, hi, dead, false, tables);
      return;
    }
    EndsAfter(s.body, lo);
    EndsAfter(s.orelse, m);
    BranchWithin(guard, s.body, scope, tables, lo);
    RangesWithin(s.orelse, m);
    DeadWithin(s.orelse, scope, tables, m);
    Widen([], els, m, End(s.orelse, m), m, hi);
    if Faithful(t.trace, tables) && guard.Some? {
      FoldingIsSound(s.test, scope, o, tables, guard.value);
    }
    var p := if t.value.truth then ExecSuite(s.body, scope, t.rest) else ExecSuite(s.orelse, scope, t.rest);
    if t.value.truth {
      SuiteIsGood(s.body, scope, t.rest, tables, lo);
      Widen(p.trace, [], lo, m, lo, hi);
    } else {
      SuiteIsGood(s.orelse, scope, t.rest, tables, m);
      Widen(p.trace, [], m, End(s.orelse, m), lo, hi);
    }
    var again := ExecWhile(s.test, s.body, s.orelse, scope, p.rest);
    assert again == ExecNode(s, scope, p.rest);
    WhileIsGood(s, scope, p.rest, tables);
    if !Faithful(t.trace, tables) {
      GoodGuarded(t, p, lo, hi, dead, false, tables);
      GoodGuarded(t, p.(outcome := Normal), lo, hi, dead, false, tables);
      JoinTraces(p.trace, again.trace, lo, hi, dead, tables);
      GoodGuarded(t, Then(p, again), lo, hi, dead, false, tables);
      return;
    }
    if t.value.truth {
      GoodBefore(p, branch, els, lo, lo, m, hi, SuiteTerminates(s.body, tables(scope)), tables);
    } else {
      GoodAfterDead(p, branch, els, lo, m, End(s.orelse, m), hi, SuiteTerminates(s.orelse, tables(scope)), tables);
    }
    var q := p.(outcome := if t.value.truth && p.outcome == Broke then Normal else p.outcome);
    assert Good(p, lo, hi, dead, false, tables);
    assert Good(q, lo, hi, dead, false, tables);
    GoodAfter(t, q, lo, hi, dead, false, tables);
    GoodThen(p, again, lo, hi, dead, false, tables);
    GoodAfter(t, Then(p, again), lo, hi, dead, false, tables);
  }

  lemma {:induction false} ForIsGood(s: Stmt, scope: Scope, o: seq<bool>, tables: Tables)
    requires s.For? && PlacedStmt(s)
    ensures Good(ExecFor(s.body, s.orelse, scope, o), s.range.lo + 1, s.range.hi, DeadStmt(s, scope, tables), false, tables)
    decreases |o|, 3, 0
  {
    hide Inside, Within, Clean, Faithful;
    var r, dead := ExecFor(s.body, s.orelse, scope, o), DeadStmt(s, scope, tables);
    var lo, hi, m := s.range.lo + 1, s.range.hi, End(s.body, s.range.lo + 1);
    var dBody, dElse := DeadSuite(s.body, scope, tables), DeadSuite(s.orelse, scope, tables);
    var more := if o == [] then Eval(Suspended, [], []) else Choose(o[1..]);
    if o == [] || o[0] || !more.value.Truth? {
      assert r.trace == [];
      GoodSilent(r, lo, hi, dead, false, tables);
      return;
    }
    EndsAfter(s.body, lo);
    EndsAfter(s.orelse, m);
    DeadWithin(s.body, scope, tables, lo);
    DeadWithin(s.orelse, scope, tables, m);
    Widen([], dElse, m, End(s.orelse, m), m, hi);
    if !more.value.truth {
      SuiteIsGood(s.orelse, scope, more.rest, tables, m);
      GoodAfterDead(r, dBody, dElse, lo, m, End(s.orelse, m), hi, SuiteTerminates(s.orelse, tables(scope)), tables);
      return;
    }
    var b := ExecSuite(s.body, scope, more.rest);
    SuiteIsGood(s.body, scope, more.rest, tables, lo);
    GoodBefore(b, dBody, dElse, lo, lo, m, hi, SuiteTerminates(s.body, tables(scope)), tables);
    assert Good(b, lo, hi, dead, false, tables);
    ForIsGood(s, scope, b.rest, tables);
    GoodThen(b, ExecFor(s.body, s.orelse, scope, b.rest), lo, hi, dead, false, tables);
  }

  /** A piece in one of the four parts of a `try`, judged against all of them. */
  lemma InTry(s: Stmt, part: nat, r: Res, scope: Scope, term: bool, tables: Tables)
    requires s.Try? && TryLaidOut(s, scope, tables) && part < 4
    requires var lo := s.range.lo + 1;
      var m := End(s.body, lo);
      var n := EndOfArms(s.handlers, m);
      var p := End(s.orelse, n);
      if part == 0 then Good(r, lo, m, DeadSuite(s.body, scope, tables), term, tables)
      else if part == 1 then Good(r, m, n, DeadArms(s.handlers, scope, tables), term, tables)
      else if part == 2 then Good(r, n, p, DeadSuite(s.orelse, scope, tables), term, tables)
      else Good(r, p, End(s.finalbody, p), DeadSuite(s.finalbody, scope, tables), term, tables)
    ensures Good(r, s.range.lo + 1, s.range.hi, DeadStmt(s, scope, tables), term, tables)
  {
    var lo, hi := s.range.lo + 1, s.range.hi;
    var m := End(s.body, lo);
    var n := EndOfArms(s.handlers, m);
    var p := End(s.orelse, n);
    var q := End(s.finalbody, p);
    var a, b := if part == 0 then lo else if part == 1 then m else if part == 2 then n else p,
                if part == 0 then m else if part == 1 then n else if part == 2 then p else q;
    var d0, d1, d2, d3 := DeadSuite(s.body, scope, tables), DeadArms(s.handlers, scope, tables),
                          DeadSuite(s.orelse, scope, tables), DeadSuite(s.finalbody, scope, tables);
    hide Inside, Within, Clean, Faithful, End, EndOfArms, DeadSuite, DeadArms;
    if part != 0 { Apart(r.trace, d0, a, b, lo, m); }
    if part != 1 { Apart(r.trace, d1, a, b, m, n); }
    if part != 2 { Apart(r.trace, d2, a, b, n, p); }
    if part != 3 { Apart(r.trace, d3, a, b, p, q); }
    JoinDead(r.trace, d0, d1, lo, hi);
    JoinDead(r.trace, d0 + d1, d2, lo, hi);
    JoinDead(r.trace, d0 + d1 + d2, d3, lo, hi);
    Widen(r.trace, [], a, b, lo, hi);
  }

  lemma FinallyIsGood(m: Res, f: Res, lo: int, hi: int, dead: seq<Span>, tm: bool, tf: bool, tables: Tables)
    requires Good(m, lo, hi, dead, tm, tables) && Good(f, lo, hi, dead, tf, tables)
    ensures Good(Then(m, if f.outcome == Normal then f.(outcome := m.outcome) else f), lo, hi, dead, tf || tm, tables)
  {
    JoinTraces(m.trace, f.trace, lo, hi, dead, tables);
  }

  /** A `try` up to its `finally`. */
  function UpToFinally(s: Stmt, scope: Scope, o: seq<bool>): Res
    requires s.Try?
  {
    var b := ExecSuite(s.body, scope, o);
    if b.outcome == Normal then Then(b, ExecSuite(s.orelse, scope, b.rest))
    else if b.outcome == Raising then Then(b, ExecHandlers(s.handlers, scope, b.rest))
    else b
  }

  lemma {:induction false} UpToFinallyIsGood(s: Stmt, scope: Scope, o: seq<bool>, tables: Tables)
    requires s.Try? && PlacedStmt(s)
    ensures Good(UpToFinally(s, scope, o), s.range.lo + 1, s.range.hi, DeadStmt(s, scope, tables),
                 SuiteTerminates(s.body, tables(scope)) && ArmsTerminate(s.handlers, tables(scope)), tables)
    decreases |o|, 3, |s.handlers| + 1, 0
  {
    var dead, table := DeadStmt(s, scope, tables), tables(scope);
    var lo, hi := s.range.lo + 1, s.range.hi;
    var m := End(s.body, lo);
    var n := EndOfArms(s.handlers, m);
    TryWithin(s, scope, tables);
    var tBody, tArms := SuiteTerminates(s.body, table), ArmsTerminate(s.handlers, table);
    hide Good, Inside, Within, Clean, Faithful, DeadSuite, DeadArms, DeadStmt, TryLaidOut, SuiteTerminates, ArmsTerminate;
    var b, mid := ExecSuite(s.body, scope, o), UpToFinally(s, scope, o);
    SuiteIsGood(s.body, scope, o, tables, lo);
    InTry(s, 0, b, scope, tBody, tables);
    if b.outcome == Normal {
      var e := ExecSuite(s.orelse, scope, b.rest);
      SuiteIsGood(s.orelse, scope, b.rest, tables, n);
      InTry(s, 2, e, scope, SuiteTerminates(s.orelse, table), tables);
      if tBody {
        GoodImpossible(b, e, lo, hi, dead, dead, tBody && tArms, tables);
      } else {
        GoodEnding(e, e.outcome, lo, hi, dead, SuiteTerminates(s.orelse, table), tBody && tArms, tables);
        GoodEnding(b, b.outcome, lo, hi, dead, tBody, false, tables);
        GoodThen(b, e, lo, hi, dead, tBody && tArms, tables);
      }
    } else if b.outcome == Raising {
      var h := ExecHandlers(s.handlers, scope, b.rest);
      HandlersAreGood(s.handlers, scope, b.rest, tables, m);
      InTry(s, 1, h, scope, tArms, tables);
      GoodEnding(b, b.outcome, lo, hi, dead, tBody, false, tables);
      GoodThen(b, h, lo, hi, dead, tArms, tables);
      GoodEnding(mid, mid.outcome, lo, hi, dead, tArms, tBody && tArms, tables);
    } else {
      GoodEnding(b, b.outcome, lo, hi, dead, tBody, tBody && tArms, tables);
    }
  }

  lemma {:induction false} TryIsGood(s: Stmt, scope: Scope, o: seq<bool>, tables: Tables)
    requires s.Try? && PlacedStmt(s)
    ensures Good(ExecNode(s, scope, o), s.range.lo + 1, s.range.hi, DeadStmt(s, scope, tables),
                 StmtIsTerminator(s, tables(scope)), tables)
    decreases |o|, 3, |s.handlers| + 1
  {
    var dead, table := DeadStmt(s, scope, tables), tables(scope);
    var lo, hi := s.range.lo + 1, s.range.hi;
    var p := End(s.orelse, EndOfArms(s.handlers, End(s.body, lo)));
    TryWithin(s, scope, tables);
    var t, tFinal := SuiteTerminates(s.body, table) && ArmsTerminate(s.handlers, table), SuiteTerminates(s.finalbody, table);
    hide Good, Inside, Within, Clean, Faithful, DeadSuite, DeadArms, DeadStmt, TryLaidOut, SuiteTerminates, ArmsTerminate;
    UpToFinallyIsGood(s, scope, o, tables);
    var mid := UpToFinally(s, scope, o);
    if mid.outcome == Stopped {
      GoodEnding(mid, mid.outcome, lo, hi, dead, t, StmtIsTerminator(s, table), tables);
    } else {
      var f := ExecSuite(s.finalbody, scope, mid.rest);
      SuiteIsGood(s.finalbody, scope, mid.rest, tables, p);
      InTry(s, 3, f, scope, tFinal, tables);
      FinallyIsGood(mid, f, lo, hi, dead, t, tFinal, tables);
    }
  }

  lemma {:induction false} HandlersAreGood(handlers: seq<Arm>, scope: Scope, o: seq<bool>, tables: Tables, lo: int)
    requires PlacedArms(handlers, lo)
    ensures Good(ExecHandlers(handlers, scope, o), lo, EndOfArms(handlers, lo), DeadArms(handlers, scope, tables),
                 ArmsTerminate(handlers, tables(scope)), tables)
    decreases |o|, 3, |handlers|
  {
    hide Inside, Within, Clean, Faithful;
    var r, hi, term := ExecHandlers(handlers, scope, o), EndOfArms(handlers, lo), ArmsTerminate(handlers, tables(scope));
    var matches := if handlers == [] then Choose(o) else Taken(handlers[0], o);
    if handlers == [] || !matches.value.Truth? {
      GoodSilent(r, lo, hi, DeadArms(handlers, scope, tables), term, tables);
      return;
    }
    var body, rest, m := handlers[0].body, handlers[1..], End(handlers[0].body, lo);
    EndsAfter(body, lo);
    ArmsEndAfter(rest, m);
    DeadWithin(body, scope, tables, lo);
    ArmsWithin(rest, scope, tables, m);
    if matches.value.truth {
      SuiteIsGood(body, scope, matches.rest, tables, lo);
      GoodBefore(r, DeadSuite(body, scope, tables), DeadArms(rest, scope, tables), lo, lo, m, hi,
                 SuiteTerminates(body, tables(scope)), tables);
      GoodEnding(r, r.outcome, lo, hi, DeadArms(handlers, scope, tables), SuiteTerminates(body, tables(scope)), term, tables);
    } else {
      HandlersAreGood(rest, scope, matches.rest, tables, m);
      GoodAfterDead(r, DeadSuite(body, scope, tables), DeadArms(rest, scope, tables), lo, m, hi, hi,
                    ArmsTerminate(rest, tables(scope)), tables);
      GoodEnding(r, r.outcome, lo, hi, DeadArms(handlers, scope, tables), ArmsTerminate(rest, tables(scope)), term, tables);
    }
  }

  predicate CatchesAll(arms: seq<Arm>) {
    exists k :: 0 <= k < |arms| && arms[k].catchAll
  }

  /** Some arm is always taken, and none completes. */
  predicate Exhausts(cases: seq<Arm>, table: NameTable) {
    CatchesAll(cases) && ArmsTerminate(cases, table)
  }

  lemma ExhaustsRest(cases: seq<Arm>, table: NameTable)
    requires Exhausts(cases, table)
    ensures cases != [] && SuiteTerminates(cases[0].body, table)
    ensures !cases[0].catchAll ==> Exhausts(cases[1..], table)
  {
    var k :| 0 <= k < |cases| && cases[k].catchAll;
    if k > 0 {
      assert cases[1..][k - 1] == cases[k];
    }
  }

  lemma {:induction false} CasesAreGood(cases: seq<Arm>, scope: Scope, o: seq<bool>, tables: Tables, lo: int)
    requires PlacedArms(cases, lo)
    ensures Good(ExecCases(cases, scope, o), lo, EndOfArms(cases, lo), DeadArms(cases, scope, tables),
                 Exhausts(cases, tables(scope)), tables)
    decreases |o|, 3, |cases|
  {
    hide Inside, Within, Clean, Faithful, Exhausts;
    var r, hi, term := ExecCases(cases, scope, o), EndOfArms(cases, lo), Exhausts(cases, tables(scope));
    if term {
      ExhaustsRest(cases, tables(scope));
    }
    var matches := if cases == [] then Choose(o) else Taken(cases[0], o);
    if cases == [] || !matches.value.Truth? {
      GoodSilent(r, lo, hi, DeadArms(cases, scope, tables), term, tables);
      return;
    }
    var body, rest, m := cases[0].body, cases[1..], End(cases[0].body, lo);
    var dead := DeadArms(cases, scope, tables);
    EndsAfter(body, lo);
    ArmsEndAfter(rest, m);
    DeadWithin(body, scope, tables, lo);
    ArmsWithin(rest, scope, tables, m);
    if matches.value.truth {
      SuiteIsGood(body, scope, matches.rest, tables, lo);
      GoodBefore(r, DeadSuite(body, scope, tables), DeadArms(rest, scope, tables), lo, lo, m, hi,
                 SuiteTerminates(body, tables(scope)), tables);
      GoodEnding(r, r.outcome, lo, hi, dead, SuiteTerminates(body, tables(scope)), term, tables);
    } else {
      CasesAreGood(rest, scope, matches.rest, tables, m);
      GoodAfterDead(r, DeadSuite(body, scope, tables), DeadArms(rest, scope, tables), lo, m, hi, hi,
                    Exhausts(rest, tables(scope)), tables);
      GoodEnding(r, r.outcome, lo, hi, dead, Exhausts(rest, tables(scope)), term, tables);
    }
  }

  lemma {:induction false} CallsAreGood(body: seq<Stmt>, scope: Scope, o: seq<bool>, tables: Tables, lo: int)
    requires Placed(body, lo)
    ensures Good(ExecCalls(body, scope, o), lo, End(body, lo), DeadSuite(body, scope, tables), false, tables)
    decreases |o|, 3, 0
  {
    hide Inside, Within, Clean, Faithful;
    var r, hi, dead := ExecCalls(body, scope, o), End(body, lo), DeadSuite(body, scope, tables);
    var again := Choose(o);
    if !again.value.Truth? || !again.value.truth {
      GoodSilent(r, lo, hi, dead, false, tables);
      return;
    }
    var b := ExecSuite(body, scope, again.rest);
    SuiteIsGood(body, scope, again.rest, tables, lo);
    GoodEnding(b, b.outcome, lo, hi, dead, SuiteTerminates(body, tables(scope)), false, tables);
    CallsAreGood(body, scope, b.rest, tables, lo);
    GoodThen(b, ExecCalls(body, scope, b.rest), lo, hi, dead, false, tables);
  }

  // ------------------------------------------------------------- main results

  /** No faithful run of a suite starts anything in a range reported dead. */
  lemma DeadNeverRuns(stmts: seq<Stmt>, scope: Scope, o: seq<bool>, tables: Tables, lo: int, ran: Span, dead: Span)
    requires Placed(stmts, lo) && Faithful(ExecSuite(stmts, scope, o).trace, tables)
    requires Ran(ran) in ExecSuite(stmts, scope, o).trace
    requires dead in DeadSuite(stmts, scope, tables)
    ensures !Contains(dead, ran)
  {
    SuiteIsGood(stmts, scope, o, tables, lo);
  }

  /** A suite with a terminator never completes normally. */
  lemma TerminatorNeverCompletes(stmts: seq<Stmt>, scope: Scope, o: seq<bool>, tables: Tables, lo: int)
    requires Placed(stmts, lo) && SuiteTerminates(stmts, tables(scope))
    requires Faithful(ExecSuite(stmts, scope, o).trace, tables)
    ensures ExecSuite(stmts, scope, o).outcome != Normal
  {
    SuiteIsGood(stmts, scope, o, tables, lo);
  }
}
