/** When a whole module is answered: conditions on the bindings of its scopes, to
    be read off the source, under which every table settles; and why the number
    of rounds allowed, once enough, does not show in the answer. */
module ScopeSettling {
  import opened Wrappers
  import opened PythonAst
  import opened Folding
  import opened DeadRegions
  import opened ScopeTable
  import opened ScopeTableTermination
  import opened Ranking
  import opened RegionWalker

  // ------------------------------------------------------------- one more scope

  /** What a suite binds, as the analysis collects it. */
  function Bound(body: seq<Stmt>): Bindings {
    CollectScope(body, map[])
  }

  /** The names bound in some scope around. */
  function BoundAround(scope: Scope): set<string> {
    if scope == [] then {} else BoundAround(scope[..|scope| - 1]) + Bound(scope[|scope| - 1]).Keys
  }

  /** The scope rebinds no name of the scopes around it, or no chain of its
      bindings is too long for the rounds allowed. */
  ghost predicate Tame(body: seq<Stmt>, around: Scope, budget: nat) {
    || (Bound(body).Keys !! BoundAround(around) && budget > |Bound(body).Keys|)
    || exists top: nat :: ChainsWithin(Dependencies(Bound(body)), top) && budget >= top + 2
  }

  /** Without cycles, one round more than there are names is enough. */
  lemma AcyclicIsTame(body: seq<Stmt>, around: Scope, budget: nat)
    requires Acyclic(Dependencies(Bound(body))) && budget > |Bound(body).Keys|
    ensures Tame(body, around, budget)
  {
    var b := Bound(body);
    if b.Keys == {} {
      assert b.Keys !! BoundAround(around);
    } else {
      assert |b.Keys| > 0;
      AcyclicChainsAreShort(b.Keys, Dependencies(b));
      assert ChainsWithin(Dependencies(b), |b.Keys| - 1);
    }
  }

  lemma InnerTable(scope: Scope, body: seq<Stmt>, cfg: Config)
    requires cfg.Valid() && TableOf(scope, cfg).Some?
    ensures var b := Bound(body);
      var r := Rounds(b, cfg.order(b), State(TableOf(scope, cfg).value, {}), cfg.budget);
      TableOf(scope + [body], cfg) == if r.None? then None else Some(r.value.table)
  {
    assert (scope + [body])[..|scope|] == scope;
  }

  lemma {:induction false} TabledNamesAreBoundAround(scope: Scope, cfg: Config)
    requires cfg.Valid() && TableOf(scope, cfg).Some?
    ensures TableOf(scope, cfg).value.Keys <= BoundAround(scope)
    decreases |scope|
  {
    if scope != [] {
      var around, body := scope[..|scope| - 1], scope[|scope| - 1];
      assert scope == around + [body];
      TabledNamesAreBoundAround(around, cfg);
      InnerTable(around, body, cfg);
      var b, enclosing := Bound(body), TableOf(around, cfg).value;
      ExitIsSettled(b, cfg.order(b), enclosing, State(enclosing, {}), cfg.budget);
      var table := TableOf(scope, cfg).value;
      forall n | n in table
        ensures n in BoundAround(scope)
      {
        assert n !in b ==> Get(table, n) == Get(enclosing, n);
      }
    }
  }

  lemma TameScopeSettles(scope: Scope, body: seq<Stmt>, cfg: Config)
    requires cfg.Valid() && TableOf(scope, cfg).Some? && Tame(body, scope, cfg.budget)
    ensures TableOf(scope + [body], cfg).Some?
  {
    var b, enclosing := Bound(body), TableOf(scope, cfg).value;
    InnerTable(scope, body, cfg);
    TabledNamesAreBoundAround(scope, cfg);
    if b.Keys !! BoundAround(scope) && cfg.budget > |b.Keys| {
      FreshScopeGetsLeastTable(b, cfg.order(b), enclosing, cfg.budget);
    } else {
      var top: nat :| ChainsWithin(Dependencies(b), top) && cfg.budget >= top + 2;
      AcyclicScopeEnds(b, cfg.order(b), enclosing, top, cfg.budget);
    }
  }

  /** A scope that shadows a tabled constant by its opposite leaves the name
      untabled; one that repeats it, or binds a constant to a fresh name, tables it. */
  lemma ConstantInScope(scope: Scope, body: seq<Stmt>, cfg: Config, n: string, v: bool)
    requires cfg.Valid() && n in Bound(body) && AlwaysFold(Bound(body)[n], v)
    requires TableOf(scope, cfg).Some? && TableOf(scope + [body], cfg).Some?
    ensures var around, table := TableOf(scope, cfg).value, TableOf(scope + [body], cfg).value;
      if n in around && around[n] != v then n !in table else n in table && table[n] == v
  {
    InnerTable(scope, body, cfg);
    ConstantName(Bound(body), cfg.order(Bound(body)), TableOf(scope, cfg).value, cfg.budget, n, v);
  }

  /** What a scope does not bind it inherits as it is. */
  lemma UnboundInScope(scope: Scope, body: seq<Stmt>, cfg: Config, n: string)
    requires cfg.Valid() && n !in Bound(body)
    requires TableOf(scope, cfg).Some? && TableOf(scope + [body], cfg).Some?
    ensures Get(TableOf(scope + [body], cfg).value, n) == Get(TableOf(scope, cfg).value, n)
  {
    InnerTable(scope, body, cfg);
    var b, around := Bound(body), TableOf(scope, cfg).value;
    ExitIsSettled(b, cfg.order(b), around, State(around, {}), cfg.budget);
  }

  // ------------------------------------------------------------- a whole module

  /** `q` holds of a scope whenever `p` does and `q` holds of the scope around. */
  ghost predicate Passes(p: Scope -> bool, q: Scope -> bool) {
    forall scope: Scope, body: seq<Stmt> :: p(scope + [body]) && q(scope) ==> q(scope + [body])
  }

  lemma {:induction false} SuiteLifts(stmts: seq<Stmt>, scope: Scope, p: Scope -> bool, q: Scope -> bool)
    requires Passes(p, q) && q(scope) && SuiteHolds(stmts, scope, p)
    ensures SuiteHolds(stmts, scope, q)
    decreases stmts, 0
  {
    hide Passes;
    forall k | 0 <= k < |stmts|
      ensures StmtHolds(stmts[k], scope, q)
    {
      StmtLifts(stmts[k], scope, p, q);
    }
  }

  lemma {:induction false} ScopeLifts(body: seq<Stmt>, scope: Scope, p: Scope -> bool, q: Scope -> bool)
    requires Passes(p, q) && q(scope) && ScopeHolds(body, scope, p)
    ensures ScopeHolds(body, scope, q)
    decreases body, 1
  {
    SuiteLifts(body, scope + [body], p, q);
  }

  lemma {:induction false} ArmsLift(arms: seq<Arm>, scope: Scope, p: Scope -> bool, q: Scope -> bool)
    requires Passes(p, q) && q(scope) && ArmsHold(arms, scope, p)
    ensures ArmsHold(arms, scope, q)
    decreases arms, 0
  {
    hide Passes;
    forall k | 0 <= k < |arms|
      ensures SuiteHolds(arms[k].body, scope, q)
    {
      SuiteLifts(arms[k].body, scope, p, q);
    }
  }

  lemma {:induction false} ClausesLift(clauses: seq<Clause>, scope: Scope, p: Scope -> bool, q: Scope -> bool)
    requires Passes(p, q) && q(scope) && ClausesHold(clauses, scope, p)
    ensures ClausesHold(clauses, scope, q)
    decreases clauses, 0
  {
    hide Passes;
    forall k | 0 <= k < |clauses|
      ensures SuiteHolds(clauses[k].body, scope, q)
    {
      SuiteLifts(clauses[k].body, scope, p, q);
    }
  }

  lemma {:induction false} StmtLifts(s: Stmt, scope: Scope, p: Scope -> bool, q: Scope -> bool)
    requires Passes(p, q) && q(scope) && StmtHolds(s, scope, p)
    ensures StmtHolds(s, scope, q)
    decreases s, 0
  {
    hide Passes, SuiteHolds, ScopeHolds, ArmsHold, ClausesHold;
    match s
    case If(_, _, body, clauses) =>
      SuiteLifts(body, scope, p, q);
      ClausesLift(clauses, scope, p, q);
    case While(_, _, body, orelse) =>
      SuiteLifts(body, scope, p, q);
      SuiteLifts(orelse, scope, p, q);
    case For(_, _, body, orelse) =>
      SuiteLifts(body, scope, p, q);
      SuiteLifts(orelse, scope, p, q);
    case With(_, _, body) => SuiteLifts(body, scope, p, q);
    case Try(_, body, handlers, orelse, finalbody) =>
      SuiteLifts(body, scope, p, q);
      ArmsLift(handlers, scope, p, q);
      SuiteLifts(orelse, scope, p, q);
      SuiteLifts(finalbody, scope, p, q);
    case FunctionDef(_, body) => ScopeLifts(body, scope, p, q);
    case ClassDef(_, body) => ScopeLifts(body, scope, p, q);
    case Match(_, _, cases) => ArmsLift(cases, scope, p, q);
    case _ =>
  }

  ghost function TameScopes(budget: nat): Scope -> bool {
    (scope: Scope) => scope != [] && Tame(scope[|scope| - 1], scope[..|scope| - 1], budget)
  }

  /** A module all of whose scopes are tame is answered: every table settles
      within the rounds allowed. */
  lemma TameModuleIsAnswered(body: seq<Stmt>, cfg: Config)
    requires cfg.Valid() && ScopeHolds(body, [], TameScopes(cfg.budget))
    ensures ScopeHolds(body, [], Known(cfg))
  {
    forall scope: Scope, inner: seq<Stmt> | TameScopes(cfg.budget)(scope + [inner]) && Known(cfg)(scope)
      ensures Known(cfg)(scope + [inner])
    {
      assert (scope + [inner])[..|scope|] == scope;
      TameScopeSettles(scope, inner, cfg);
    }
    ScopeLifts(body, [], TameScopes(cfg.budget), Known(cfg));
  }

  // --------------------------------------------------- how many rounds are allowed

  /** The same map order, with at least as many rounds. */
  ghost predicate Allows(cfg: Config, more: Config) {
    cfg.order == more.order && cfg.budget <= more.budget
  }

  lemma {:induction false} MoreRoundsSameTable(scope: Scope, cfg: Config, more: Config)
    requires cfg.Valid() && more.Valid() && Allows(cfg, more) && TableOf(scope, cfg).Some?
    ensures TableOf(scope, more) == TableOf(scope, cfg)
    decreases |scope|
  {
    if scope != [] {
      var around, body := scope[..|scope| - 1], scope[|scope| - 1];
      assert scope == around + [body];
      MoreRoundsSameTable(around, cfg, more);
      InnerTable(around, body, cfg);
      InnerTable(around, body, more);
      var b := Bound(body);
      MoreRounds(b, cfg.order(b), State(TableOf(around, cfg).value, {}), cfg.budget, more.budget);
    }
  }

  /** The scopes for which two sets of tables agree. */
  ghost function Agreeing(a: Tables, b: Tables): Scope -> bool {
    (scope: Scope) => a(scope) == b(scope)
  }

  lemma {:induction false} SameDeadSuite(stmts: seq<Stmt>, scope: Scope, a: Tables, b: Tables)
    requires a(scope) == b(scope) && SuiteHolds(stmts, scope, Agreeing(a, b))
    ensures DeadSuite(stmts, scope, a) == DeadSuite(stmts, scope, b)
    decreases stmts, 0
  {
    hide DeadStmt, StmtHolds;
    if stmts != [] {
      assert StmtHolds(stmts[0], scope, Agreeing(a, b));
      SameDeadStmt(stmts[0], scope, a, b);
      forall k | 0 <= k < |stmts[1..]|
        ensures StmtHolds(stmts[1..][k], scope, Agreeing(a, b))
      {
        assert stmts[1..][k] == stmts[k + 1];
      }
      SameDeadSuite(stmts[1..], scope, a, b);
    }
  }

  lemma {:induction false} SameDeadArms(arms: seq<Arm>, scope: Scope, a: Tables, b: Tables)
    requires a(scope) == b(scope) && ArmsHold(arms, scope, Agreeing(a, b))
    ensures DeadArms(arms, scope, a) == DeadArms(arms, scope, b)
    decreases arms, 0
  {
    hide DeadSuite, SuiteHolds;
    if arms != [] {
      SameDeadSuite(arms[0].body, scope, a, b);
      forall k | 0 <= k < |arms[1..]|
        ensures SuiteHolds(arms[1..][k].body, scope, Agreeing(a, b))
      {
        assert arms[1..][k] == arms[k + 1];
      }
      SameDeadArms(arms[1..], scope, a, b);
    }
  }

  lemma {:induction false} SameDeadClauses(clauses: seq<Clause>, taken: bool, scope: Scope, a: Tables, b: Tables)
    requires a(scope) == b(scope) && ClausesHold(clauses, scope, Agreeing(a, b))
    ensures DeadClauses(clauses, taken, scope, a) == DeadClauses(clauses, taken, scope, b)
    decreases clauses, 0
  {
    hide DeadSuite, SuiteHolds, EvaluateTruthiness;
    if clauses != [] {
      SameDeadSuite(clauses[0].body, scope, a, b);
      forall k | 0 <= k < |clauses[1..]|
        ensures SuiteHolds(clauses[1..][k].body, scope, Agreeing(a, b))
      {
        assert clauses[1..][k] == clauses[k + 1];
      }
      var guard := if clauses[0].test.None? then None else EvaluateTruthiness(clauses[0].test.value, a(scope));
      SameDeadClauses(clauses[1..], taken || guard == Some(true), scope, a, b);
    }
  }

  lemma {:induction false} SameDeadStmt(s: Stmt, scope: Scope, a: Tables, b: Tables)
    requires a(scope) == b(scope) && StmtHolds(s, scope, Agreeing(a, b))
    ensures DeadStmt(s, scope, a) == DeadStmt(s, scope, b)
    decreases s, 0
  {
    hide SuiteHolds, ArmsHold, ClausesHold, DeadSuite, DeadArms, DeadClauses, EvaluateTruthiness;
    match s
    case If(_, test, body, clauses) =>
      SameDeadSuite(body, scope, a, b);
      SameDeadClauses(clauses, EvaluateTruthiness(test, a(scope)) == Some(true), scope, a, b);
    case While(_, _, body, orelse) =>
      SameDeadSuite(body, scope, a, b);
      SameDeadSuite(orelse, scope, a, b);
    case For(_, _, body, orelse) =>
      SameDeadSuite(body, scope, a, b);
      SameDeadSuite(orelse, scope, a, b);
    case With(_, _, body) => SameDeadSuite(body, scope, a, b);
    case Try(_, body, handlers, orelse, finalbody) =>
      SameDeadSuite(body, scope, a, b);
      SameDeadArms(handlers, scope, a, b);
      SameDeadSuite(orelse, scope, a, b);
      SameDeadSuite(finalbody, scope, a, b);
    case FunctionDef(_, body) => SameDeadSuite(body, scope + [body], a, b);
    case ClassDef(_, body) => SameDeadSuite(body, scope + [body], a, b);
    case Match(_, _, cases) => SameDeadArms(cases, scope, a, b);
    case _ =>
  }

  /** A module answered within some number of rounds gets that answer whenever
      more are allowed, and so from the loop itself, which has no limit. */
  lemma MoreRoundsSameAnswer(body: seq<Stmt>, cfg: Config, more: Config)
    requires cfg.Valid() && more.Valid() && Allows(cfg, more) && ScopeHolds(body, [], Known(cfg))
    ensures ScopeHolds(body, [], Known(more))
    ensures DeadSuite(body, [body], TablesOf(more)) == DeadSuite(body, [body], TablesOf(cfg))
  {
    var agreeing := Agreeing(TablesOf(cfg), TablesOf(more));
    forall scope: Scope | Known(cfg)(scope)
      ensures Known(more)(scope) && agreeing(scope)
    {
      MoreRoundsSameTable(scope, cfg, more);
    }
    ScopeLifts(body, [], Known(cfg), Known(more));
    assert agreeing([]);
    ScopeLifts(body, [], Known(cfg), agreeing);
    assert [] + [body] == [body];
    SameDeadSuite(body, [body], TablesOf(cfg), TablesOf(more));
  }

  // ---------------------------------------------------- a module never answered

  function Set(lo: int, id: string, value: Expr): Stmt {
    Assign(Span(lo, lo + 1), [Name(id)], value)
  }

  function RingBody(): seq<Stmt> {
    [Set(2, "A", Name("B")), Set(3, "B", Name("C")), Set(4, "C", Name("A"))]
  }

  /** `B = True`, and a function with `A = B; B = C; C = A`. */
  function RingModule(): seq<Stmt> {
    [Set(0, "B", BooleanLiteral(true)), FunctionDef(Span(1, 5), RingBody())]
  }

  lemma SetCollected(out: Bindings, lo: int, id: string, value: Expr)
    requires (value.Name? || value.BooleanLiteral?) && id !in out
    ensures CollectStmt(Set(lo, id, value), out) == out[id := [value]]
  {
    assert [] + [value] == [value];
  }

  lemma RingBodyCollected()
    ensures Bound(RingBody()) == Ring()
  {
    var body, none := RingBody(), map[];
    var s0, s1, s2 := body[0], body[1], body[2];
    assert body[1..] == [s1, s2] && [s1, s2][1..] == [s2] && [s2][1..] == [];
    var b1 := none["A" := [Name("B")]];
    var b2 := b1["B" := [Name("C")]];
    SetCollected(none, 2, "A", Name("B"));
    SetCollected(b1, 3, "B", Name("C"));
    SetCollected(b2, 4, "C", Name("A"));
    hide CollectStmt;
    assert CollectScope([], Ring()) == Ring();
    assert CollectScope([s2], b2) == Ring();
    assert CollectScope([s1, s2], b1) == Ring();
  }

  lemma RingModuleCollected()
    ensures Bound(RingModule()) == map["B" := [BooleanLiteral(true)]]
  {
    var body, none := RingModule(), map[];
    assert body[1..] == [body[1]] && [body[1]][1..] == [];
    var b := none["B" := [BooleanLiteral(true)]];
    SetCollected(none, 0, "B", BooleanLiteral(true));
    assert CollectStmt(body[1], b) == b;
    hide CollectStmt;
    assert CollectScope([], b) == b;
    assert CollectScope([body[1]], b) == b;
  }

  lemma RingModuleTable(cfg: Config)
    requires cfg.Valid() && TableOf([RingModule()], cfg).Some?
    ensures TableOf([RingModule()], cfg).value == map["B" := true]
  {
    assert [] + [RingModule()] == [RingModule()];
    InnerTable([], RingModule(), cfg);
    RingModuleCollected();
    var b, table := Bound(RingModule()), TableOf([RingModule()], cfg).value;
    ExitIsSettled(b, cfg.order(b), map[], State(map[], {}), cfg.budget);
    TableNeverPoisoned(b, cfg);
    assert Get(table, "B") == Some(true);
    forall n | n in table
      ensures n == "B"
    {
      assert n !in b ==> Get(table, n) == None;
    }
  }

  /** A scope without anything around it poisons nothing. */
  lemma TableNeverPoisoned(b: Bindings, cfg: Config)
    requires cfg.Valid() && Rounds(b, cfg.order(b), State(map[], {}), cfg.budget).Some?
    ensures Rounds(b, cfg.order(b), State(map[], {}), cfg.budget).value.poisoned == {}
  {
    var order, enough := cfg.order(b), cfg.budget + |b.Keys| + 1;
    FreshScopeGetsLeastTable(b, order, map[], enough);
    MoreRounds(b, order, State(map[], {}), cfg.budget, enough);
  }

  lemma RingBodyNeverSettles(cfg: Config)
    requires cfg.Valid() && cfg.order(Ring()) == ["A", "B", "C"]
    ensures TableOf([RingModule()], cfg).Some? ==> TableOf([RingModule()] + [RingBody()], cfg).None?
  {
    if TableOf([RingModule()], cfg).Some? {
      RingModuleTable(cfg);
      RingBodyCollected();
      InnerTable([RingModule()], RingBody(), cfg);
      RingNeverEnds(cfg.budget);
    }
  }

  lemma FunctionInSuite(stmts: seq<Stmt>, k: nat, scope: Scope, p: Scope -> bool)
    requires k < |stmts| && stmts[k].FunctionDef? && SuiteHolds(stmts, scope, p)
    ensures p(scope + [stmts[k].body])
  {
    assert StmtHolds(stmts[k], scope, p);
    assert ScopeHolds(stmts[k].body, scope, p);
  }

  /** With the map order A, B, C no number of rounds is enough for this module:
      the function's table never settles, and no answer is ever given. */
  lemma RingModuleIsNeverAnswered(cfg: Config)
    requires cfg.Valid() && cfg.order(Ring()) == ["A", "B", "C"]
    ensures !ScopeHolds(RingModule(), [], Known(cfg))
  {
    RingBodyNeverSettles(cfg);
    hide TableOf, RingBody, SuiteHolds;
    var body, scope := RingModule(), [RingModule()];
    assert [] + [body] == scope;
    if SuiteHolds(body, scope, Known(cfg)) {
      FunctionInSuite(body, 1, scope, Known(cfg));
    }
  }
}
