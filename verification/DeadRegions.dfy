/** Which source ranges can never run: the analysis as functions of the tree
    and of the table each scope is analysed under. */
module DeadRegions {
  import opened Wrappers
  import opened PythonAst
  import opened Folding

  // -------------------------------------------------------------- terminators

  predicate StmtIsTerminator(s: Stmt, table: NameTable)
    decreases s
  {
    match s
    case Return(_, _) | Raise(_, _) | Break(_) | Continue(_) => true
    case Assert(_, test) => EvaluateTruthiness(test, table) == Some(false)
    case If(_, test, body, clauses) =>
      if EvaluateTruthiness(test, table) == Some(true) then SuiteTerminates(body, table)
      else
        && clauses != [] && clauses[|clauses| - 1].test.None?
        && (SuiteTerminates(body, table) || EvaluateTruthiness(test, table) == Some(false))
        && ClausesTerminate(clauses, table)
    case With(_, _, body) => SuiteTerminates(body, table)
    case Try(_, body, handlers, _, finalbody) =>
      || SuiteTerminates(finalbody, table)
      || (SuiteTerminates(body, table) && ArmsTerminate(handlers, table))
    case _ => false
  }

  predicate SuiteTerminates(stmts: seq<Stmt>, table: NameTable)
    decreases stmts
  {
    stmts != [] && (StmtIsTerminator(stmts[0], table) || SuiteTerminates(stmts[1..], table))
  }

  predicate ClausesTerminate(clauses: seq<Clause>, table: NameTable)
    decreases clauses
  {
    clauses == [] || (SuiteTerminates(clauses[0].body, table) && ClausesTerminate(clauses[1..], table))
  }

  predicate ArmsTerminate(arms: seq<Arm>, table: NameTable)
    decreases arms
  {
    arms == [] || (SuiteTerminates(arms[0].body, table) && ArmsTerminate(arms[1..], table))
  }

  // -------------------------------------------------------------- dead ranges

  function Ranges(stmts: seq<Stmt>): seq<Span> {
    if stmts == [] then [] else [stmts[0].range] + Ranges(stmts[1..])
  }

  /** The dead ranges of a suite: everything after a terminator, and what is
      dead inside the statements before it. */
  function DeadSuite(stmts: seq<Stmt>, scope: Scope, tables: Tables): seq<Span>
    decreases stmts, 0
  {
    if stmts == [] then []
    else DeadStmt(stmts[0], scope, tables) +
         if StmtIsTerminator(stmts[0], tables(scope)) then Ranges(stmts[1..])
         else DeadSuite(stmts[1..], scope, tables)
  }

  function DeadStmt(s: Stmt, scope: Scope, tables: Tables): seq<Span>
    decreases s, 0
  {
    match s
    case If(_, test, body, clauses) =>
      DeadBranch(EvaluateTruthiness(test, tables(scope)), body, scope, tables)
      + DeadClauses(clauses, EvaluateTruthiness(test, tables(scope)) == Some(true), scope, tables)
    case While(_, test, body, orelse) =>
      DeadBranch(EvaluateTruthiness(test, tables(scope)), body, scope, tables)
      + (if EvaluateTruthiness(test, tables(scope)) == Some(true) then Ranges(orelse)
         else DeadSuite(orelse, scope, tables))
    case For(_, _, body, orelse) => DeadSuite(body, scope, tables) + DeadSuite(orelse, scope, tables)
    case With(_, _, body) => DeadSuite(body, scope, tables)
    case Try(_, body, handlers, orelse, finalbody) =>
      DeadSuite(body, scope, tables) + DeadArms(handlers, scope, tables)
      + DeadSuite(orelse, scope, tables) + DeadSuite(finalbody, scope, tables)
    case FunctionDef(_, body) => DeadSuite(body, scope + [body], tables)
    case ClassDef(_, body) => DeadSuite(body, scope + [body], tables)
    case Match(_, _, cases) => DeadArms(cases, scope, tables)
    case _ => []
  }

  /** A guarded suite: all of it when the guard is known false. */
  function DeadBranch(guard: Option<bool>, body: seq<Stmt>, scope: Scope, tables: Tables): seq<Span>
    decreases body, 1
  {
    if guard == Some(false) then Ranges(body) else DeadSuite(body, scope, tables)
  }

  function DeadClauses(clauses: seq<Clause>, taken: bool, scope: Scope, tables: Tables): seq<Span>
    decreases clauses, 0
  {
    if clauses == [] then []
    else if taken then [clauses[0].range] + DeadClauses(clauses[1..], true, scope, tables)
    else
      var guard := if clauses[0].test.None? then None else EvaluateTruthiness(clauses[0].test.value, tables(scope));
      DeadBranch(guard, clauses[0].body, scope, tables)
      + DeadClauses(clauses[1..], guard == Some(true), scope, tables)
  }

  function DeadArms(arms: seq<Arm>, scope: Scope, tables: Tables): seq<Span>
    decreases arms, 0
  {
    if arms == [] then [] else DeadSuite(arms[0].body, scope, tables) + DeadArms(arms[1..], scope, tables)
  }

  // ------------------------------------------------------------ source layout

  /** Where a suite that starts at or after `lo` ends. */
  ghost function End(stmts: seq<Stmt>, lo: int): int
    decreases stmts, 0
  {
    if stmts == [] then lo else End(stmts[1..], stmts[0].range.hi)
  }

  ghost function EndOfClauses(clauses: seq<Clause>, lo: int): int
    decreases clauses, 0
  {
    if clauses == [] then lo else EndOfClauses(clauses[1..], clauses[0].range.hi)
  }

  ghost function EndOfArms(arms: seq<Arm>, lo: int): int
    decreases arms, 0
  {
    if arms == [] then lo else EndOfArms(arms[1..], End(arms[0].body, lo))
  }

  /** Statements follow one another, and a statement's header comes before its
      suites, which follow one another inside it. */
  ghost predicate Placed(stmts: seq<Stmt>, lo: int)
    decreases stmts, 1
  {
    stmts == [] || (lo <= stmts[0].range.lo && PlacedStmt(stmts[0]) && Placed(stmts[1..], stmts[0].range.hi))
  }

  ghost predicate PlacedStmt(s: Stmt)
    decreases s, 1
  {
    var lo, hi := s.range.lo, s.range.hi;
    && lo < hi
    && match s
       case If(_, _, body, clauses) =>
         Placed(body, lo + 1) && PlacedClauses(clauses, End(body, lo + 1))
         && EndOfClauses(clauses, End(body, lo + 1)) <= hi
       case While(_, _, body, orelse) =>
         Placed(body, lo + 1) && Placed(orelse, End(body, lo + 1)) && End(orelse, End(body, lo + 1)) <= hi
       case For(_, _, body, orelse) =>
         Placed(body, lo + 1) && Placed(orelse, End(body, lo + 1)) && End(orelse, End(body, lo + 1)) <= hi
       case Try(_, body, handlers, orelse, finalbody) =>
         var m := End(body, lo + 1);
         var n := EndOfArms(handlers, m);
         Placed(body, lo + 1) && PlacedArms(handlers, m) && Placed(orelse, n)
         && Placed(finalbody, End(orelse, n)) && End(finalbody, End(orelse, n)) <= hi
       case With(_, _, body) => Placed(body, lo + 1) && End(body, lo + 1) <= hi
       case FunctionDef(_, body) => Placed(body, lo + 1) && End(body, lo + 1) <= hi
       case ClassDef(_, body) => Placed(body, lo + 1) && End(body, lo + 1) <= hi
       case Match(_, _, cases) => PlacedArms(cases, lo + 1) && EndOfArms(cases, lo + 1) <= hi
       case _ => true
  }

  ghost predicate PlacedClauses(clauses: seq<Clause>, lo: int)
    decreases clauses, 1
  {
    clauses == [] ||
    (lo <= clauses[0].range.lo < clauses[0].range.hi
     && Placed(clauses[0].body, clauses[0].range.lo + 1)
     && End(clauses[0].body, clauses[0].range.lo + 1) <= clauses[0].range.hi
     && PlacedClauses(clauses[1..], clauses[0].range.hi))
  }

  ghost predicate PlacedArms(arms: seq<Arm>, lo: int)
    decreases arms, 1
  {
    arms == [] || (Placed(arms[0].body, lo) && PlacedArms(arms[1..], End(arms[0].body, lo)))
  }
}
