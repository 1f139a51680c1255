/** What the dead-tests answer means for the reader of a report. */
module DeadTestProperties {
  import opened Closures
  import opened Graph
  import opened Wrappers
  import opened DeadTests

  /** Reported exactly when some seeded dead test leads there and no surviving
      seed does. */
  lemma ReportedIffOnlyDeadTestsReach(q: Query, x: int)
    requires q.Valid()
    ensures x in q.BlastRadius() <==>
      && (exists t :: t in q.AllSeeds() && t in q.DeadTestSet() && x in q.Reached({t}))
      && (forall s :: s in q.AllSeeds() && s !in q.DeadTestSet() ==> x !in q.Reached({s}))
  {
    ReachedFromOne(Arcs(q.edges, 0), q.AllSeeds(), x);
    ReachedFromOne(Arcs(q.edges, 0), q.AllSeeds() - q.DeadTestSet(), x);
  }

  lemma TestcaseBitsAreTestBits(flags: NodeFlags, testcase: NodeFlags, testSeed: NodeFlags)
    requires testcase <= testSeed && HasAny(flags, testcase)
    ensures HasAny(flags, testSeed)
  {
    var bit :| bit in flags * testcase;
    assert bit in flags * testSeed;
  }

  /** Dropping what is reported takes nothing from production code, from a
      fixture or other non-testcase seed, or from a test that survives. */
  lemma NothingSurvivingIsReported(q: Query, s: int, x: int)
    requires q.Valid() && q.testcaseFlag <= q.testSeedFlags
    requires 0 <= s < |q.nodes| && q.IsSeed(s)
    requires q.IsProductionSeed(s) || !q.IsTest(s) || q.TouchesLive(s)
    requires x in q.Reached({s})
    ensures x !in q.BlastRadius()
  {
    if q.IsProductionSeed(s) && q.IsTest(s) {
      TestcaseBitsAreTestBits(q.nodes[s].flags, q.testcaseFlag, q.testSeedFlags);
      assert false;
    }
    ReportedIffOnlyDeadTestsReach(q, x);
  }

  /** Production code never reaches the code of a dead test. */
  lemma ProductionMissesDeadTests(q: Query, t: int)
    requires q.Valid() && t in q.DeadTestSet() && q.IsCode(t)
    ensures t !in q.Reached(q.ProductionSeeds())
  {
    LiveCodeIsLeast(q);
    if t in q.LiveCode() {
      LiveCodeTouchesItself(q, t);
      assert false;
    }
  }

  /** No live test exercises the code of a dead test. */
  lemma LiveTestsMissDeadTests(q: Query, t: int, s: int)
    requires q.Valid() && t in q.DeadTestSet() && q.IsCode(t)
    requires 0 <= s < |q.nodes| && q.IsTest(s) && q.TouchesLive(s)
    ensures t !in q.Exercises(s)
  {
    LiveCodeIsLeast(q);
    if t in q.Exercises(s) {
      LiveCodeTouchesItself(q, t);
      assert false;
    }
  }

  // ------------------------------------------ how a dead test goes unreported

  /** Everything the modules `s` exercises reach. */
  ghost function ThroughModules(q: Query, s: nat): set<int>
    requires q.Valid()
  {
    Closure(Arcs(q.edges, 0), ModulesOf(q, s))
  }

  ghost function ModulesOf(q: Query, s: nat): set<int>
    requires q.Valid()
  {
    set m | m in q.Exercises(s) && 0 <= m < |q.nodes| && q.IsModule(m)
  }

  /** What a node reaches is what it exercises, and what the modules among that
      reach: a walk leaves the exercised nodes only out of a module. */
  lemma ReachIsExerciseAndModules(q: Query, s: nat)
    requires q.Valid() && s < |q.nodes|
    ensures q.Reached({s}) == q.Exercises(s) + ThroughModules(q, s)
  {
    var arcs, union := Arcs(q.edges, 0), q.Exercises(s) + ThroughModules(q, s);
    ExercisesInRange(q, s);
    ClosureIsClosed(arcs, ModulesOf(q, s));
    forall e | e in arcs && e.0 in union
      ensures e.1 in union
    {
      ArcsAreEdges(q, e);
    }
    ClosureIsLeast(arcs, {s}, union);
    ClosureIsClosed(arcs, {s});
    forall e | e in q.ExerciseArcs()
      ensures e in arcs
    {
      ExerciseArcsAreArcs(q, e);
    }
    ClosureMonotone(q.ExerciseArcs(), arcs, {s}, {s});
    ClosureIsLeast(arcs, ModulesOf(q, s), q.Reached({s}));
  }

  lemma ArcsAreEdges(q: Query, e: (int, int))
    requires q.Valid() && e in Arcs(q.edges, 0)
    ensures 0 <= e.0 < |q.nodes| && (e in q.ExerciseArcs() || q.IsModule(e.0))
  {
  }

  lemma ExerciseArcsAreArcs(q: Query, e: (int, int))
    requires q.Valid() && e in q.ExerciseArcs()
    ensures e in Arcs(q.edges, 0)
  {
    var edge :| edge in q.edges && (edge.0, edge.1) == e;
    assert edge.2 & 0 == 0;
    assert !Skipped(edge.2, 0);
  }

  /** A seed that is neither production code nor a test, a fixture, reaches `t`. */
  ghost predicate ThroughAFixture(q: Query, t: int) {
    exists s :: s in q.AllSeeds() && !q.IsProductionSeed(s) && !q.IsTest(s) && t in q.Reached({s})
  }

  /** A seeded live test exercises a module, and that module reaches `t`. */
  ghost predicate ThroughAModule(q: Query, t: int)
    requires q.Valid()
  {
    exists s, m :: s in q.AllSeeds() && q.IsTest(s) && q.TouchesLive(s)
                   && m in ModulesOf(q, s) && t in q.Reached({m})
  }

  /** Only for a node that is no code: production, or a seeded live test without
      the help of a module, leads there. */
  ghost predicate Straight(q: Query, t: int)
    requires q.Valid()
  {
    exists s :: s in q.AllSeeds() &&
                ((!q.IsTest(s) && q.IsProductionSeed(s) && t in q.Reached({s}))
                 || (q.IsTest(s) && q.TouchesLive(s) && t in q.Exercises(s)))
  }

  ghost predicate DeadSeedReaches(q: Query, t: int)
    requires q.Valid()
  {
    exists d :: d in q.AllSeeds() && d in q.DeadTestSet() && t in q.Reached({d})
  }

  /** A seed that survives leads to `t` in one of three ways. */
  lemma SurvivorsLeadInThreeWays(q: Query, t: int)
    requires q.Valid()
    ensures (exists s :: s in q.AllSeeds() && s !in q.DeadTestSet() && t in q.Reached({s}))
            <==> ThroughAFixture(q, t) || ThroughAModule(q, t) || Straight(q, t)
  {
    forall s | s in q.AllSeeds()
      ensures q.IsTest(s) ==>
        (t in q.Reached({s}) <==> t in q.Exercises(s) || exists m :: m in ModulesOf(q, s) && t in q.Reached({m}))
    {
      ReachIsExerciseAndModules(q, s);
      ReachedFromOne(Arcs(q.edges, 0), ModulesOf(q, s), t);
    }
  }

  /** Exactly which dead tests are reported. One that is code escapes only through
      a fixture or through a module that a seeded live test exercises. */
  lemma DeadTestReportedIff(q: Query, t: int)
    requires q.Valid() && t in q.DeadTestSet()
    ensures t in q.BlastRadius() <==>
      DeadSeedReaches(q, t) && !ThroughAFixture(q, t) && !ThroughAModule(q, t) && (q.IsCode(t) || !Straight(q, t))
    ensures q.IsSeed(t) ==> DeadSeedReaches(q, t)
  {
    hide q.IsCode, q.LiveCode, HasAny;
    ReportedIffOnlyDeadTestsReach(q, t);
    SurvivorsLeadInThreeWays(q, t);
    if q.IsCode(t) {
      CodeIsNotReachedStraight(q, t);
    }
    if q.IsSeed(t) {
      ClosureIsClosed(Arcs(q.edges, 0), {t});
      assert t in q.AllSeeds() && t in q.Reached({t});
    }
  }

  lemma CodeIsNotReachedStraight(q: Query, t: int)
    requires q.Valid() && t in q.DeadTestSet() && q.IsCode(t)
    ensures !Straight(q, t)
  {
    ProductionMissesDeadTests(q, t);
    forall s | s in q.AllSeeds()
      ensures !q.IsTest(s) && q.IsProductionSeed(s) ==> t !in q.Reached({s})
      ensures q.IsTest(s) && q.TouchesLive(s) ==> t !in q.Exercises(s)
    {
      if q.IsProductionSeed(s) {
        ReachedFromOne(Arcs(q.edges, 0), q.ProductionSeeds(), t);
        assert s in q.ProductionSeeds();
      }
      if q.IsTest(s) && q.TouchesLive(s) {
        LiveTestsMissDeadTests(q, t, s);
      }
    }
  }

  /** No module leads to another node, and every seed is production code or a test. */
  predicate NoWayRound(q: Query)
    requires q.Valid()
  {
    && (forall e :: e in q.edges ==> q.IsModule(e.0) ==> e.1 == e.0)
    && (forall s: nat :: s < |q.nodes| && q.IsSeed(s) ==> q.IsProductionSeed(s) || q.IsTest(s))
  }

  /** Then the promise of the documentation holds: every seeded dead test that is
      code is reported, and one that is not a seed is, whenever a seeded one
      reaches it. */
  lemma EveryDeadTestReported(q: Query, t: int)
    requires q.Valid() && NoWayRound(q) && t in q.DeadTestSet() && q.IsCode(t)
    ensures t in q.BlastRadius() <==> DeadSeedReaches(q, t)
    ensures q.IsSeed(t) ==> t in q.BlastRadius()
  {
    DeadTestReportedIff(q, t);
    forall m: nat | m < |q.nodes| && q.IsModule(m)
      ensures t !in q.Reached({m})
    {
      forall e | e in Arcs(q.edges, 0) && e.0 == m
        ensures e.1 == m
      {
      }
      ClosureIsLeast(Arcs(q.edges, 0), {m}, {m});
    }
  }

  function NodeOf(name: string, kind: Kind, flags: NodeFlags): SymbolNode {
    SymbolNode(name, kind, "", 0, 0, 0, 0, flags, None)
  }

  /** A live test (1) uses the production function (0) and imports a module (2)
      whose body mentions a test (3) that uses nothing. */
  function ImportedDeadTest(): Query {
    Query([NodeOf("app", Function, {0}), NodeOf("test_live", Function, {1}),
           NodeOf("helpers", Module, {}), NodeOf("test_dead", Function, {1})],
          [(1, 0, 0), (1, 2, 0), (2, 3, 0)], {0, 1}, {1}, {1})
  }

  lemma ImportedDeadTestFacts()
    ensures var q := ImportedDeadTest();
      && q.Valid()
      && Arcs(q.edges, 0) == {(1, 0), (1, 2), (2, 3)}
      && q.ExerciseArcs() == {(1, 0), (1, 2)}
      && q.ProductionSeeds() == {0} && q.IsSeed(1) && q.IsSeed(3)
      && (forall i: nat :: i < 4 ==> (q.IsTest(i) <==> i == 1 || i == 3))
      && (forall i: nat :: i < 4 ==> (q.IsCode(i) <==> i != 2))
  {
    var q := ImportedDeadTest();
    assert q.edges[0] in q.edges && q.edges[1] in q.edges && q.edges[2] in q.edges;
    assert forall e :: e in q.edges ==> e in {q.edges[0], q.edges[1], q.edges[2]};
    assert !Skipped(0, 0);
    var none: NodeFlags, app: NodeFlags, test: NodeFlags, both: NodeFlags := {}, {0}, {1}, {0, 1};
    assert 0 in app * both && 1 in test * both && 1 in test * test;
    assert !HasAny(app, test) && !HasAny(none, test) && !HasAny(none, both);
  }

  lemma ImportingTestIsLive()
    ensures var q := ImportedDeadTest(); q.Valid() && q.TouchesLive(1)
  {
    ImportedDeadTestFacts();
    var q := ImportedDeadTest();
    LiveCodeIsLeast(q);
    hide q.ProductionSeeds, q.ExerciseArcs, Arcs, Closure, q.LiveCode;
    ClosureIsClosed({(1, 0), (1, 2), (2, 3)}, {0});
    ClosureIsClosed({(1, 0), (1, 2)}, {1});
    assert 0 in q.Reached(q.ProductionSeeds()) && q.IsCode(0);
    assert 0 in q.LiveCode();
    assert 1 in q.Exercises(1) && (1, 0) in q.ExerciseArcs();
    assert 0 in q.Exercises(1);
  }

  lemma ImportedTestIsDead()
    ensures var q := ImportedDeadTest(); q.Valid() && !q.TouchesLive(3)
  {
    ImportedDeadTestFacts();
    var q := ImportedDeadTest();
    LiveCodeIsLeast(q);
    LiveCodeOfTheExample(q);
    hide q.ProductionSeeds, q.ExerciseArcs, Arcs, Closure, q.LiveCode, q.LiveClosed;
    ClosureIsLeast({(1, 0), (1, 2)}, {3}, {3});
    assert q.LiveCode() <= {0, 1};
  }

  lemma LiveCodeOfTheExample(q: Query)
    requires q == ImportedDeadTest() && q.Valid()
    ensures q.LiveClosed({0, 1})
  {
    ImportedDeadTestFacts();
    hide q.ProductionSeeds, q.ExerciseArcs, Arcs, Closure, HasAny;
    ClosureIsLeast({(1, 0), (1, 2), (2, 3)}, {0}, {0});
    ClosureIsLeast({(1, 0), (1, 2)}, {1}, {0, 1, 2});
    ClosureIsLeast({(1, 0), (1, 2)}, {3}, {3});
    assert !q.Meets(3, {0, 1});
  }

  /** The answer need not include each dead test: test 3 is a seed, it is dead,
      and it is not reported, because the live test reaches it through a module. */
  lemma DeadTestMayGoUnreported()
    ensures var q := ImportedDeadTest();
      q.Valid() && q.IsSeed(3) && 3 in q.DeadTestSet() && 3 !in q.BlastRadius()
  {
    var q := ImportedDeadTest();
    ImportedDeadTestFacts();
    ImportingTestIsLive();
    ImportedTestIsDead();
    hide q.ProductionSeeds, q.ExerciseArcs, Arcs, Closure, q.LiveCode;
    ClosureIsClosed({(1, 0), (1, 2), (2, 3)}, {1});
    assert 2 in q.Reached({1}) && 3 in q.Reached({1});
    assert 1 in q.AllSeeds() && 1 !in q.DeadTestSet();
    ReportedIffOnlyDeadTestsReach(q, 3);
  }

  // ------------------------------------------------------- which kinds count

  /** A test that leads, through a node that is no module, to code production
      reaches is not dead; functions, classes, variables and type aliases are code. */
  lemma LinkedTestIsLive(q: Query, t: nat, x: nat, p: nat)
    requires q.Valid() && t < |q.nodes| && x < |q.nodes| && p < |q.nodes| && q.IsTest(t)
    requires q.nodes[t].kind != Module && q.nodes[x].kind != Module
    requires (t, x, 0) in q.edges && (x, p, 0) in q.edges
    requires q.nodes[p].kind == Function || q.nodes[p].kind == Class || q.nodes[p].kind == Variable || q.nodes[p].kind == TypeAlias
    requires p in q.Reached(q.ProductionSeeds())
    ensures t !in q.DeadTestSet()
  {
    LiveCodeIsLeast(q);
    hide q.LiveCode, q.ProductionSeeds, Arcs, HasAny;
    ExercisesInRange(q, t);
    assert (t, x) in q.ExerciseArcs() && (x, p) in q.ExerciseArcs();
    hide q.ExerciseArcs, q.Exercises;
    assert p in q.Exercises(t) && p in q.LiveCode();
  }

  /** Production code of some kind (0), a test (2), and a node of some kind that
      leads from the one to the other (1). */
  function Linked(link: Kind, code: Kind): Query {
    Query([NodeOf("code", code, {0}), NodeOf("link", link, {}), NodeOf("test", Function, {1})],
          [(2, 1, 0), (1, 0, 0)], {0, 1}, {1}, {1})
  }

  lemma LinkedFacts(link: Kind, code: Kind)
    ensures var q := Linked(link, code);
      && q.Valid() && |q.nodes| == 3
      && Arcs(q.edges, 0) == {(2, 1), (1, 0)}
      && q.ExerciseArcs() == (if link == Module then {(2, 1)} else {(2, 1), (1, 0)})
      && q.ProductionSeeds() == {0} && (forall i: nat :: i < 3 ==> (q.IsTest(i) <==> i == 2))
  {
    var q := Linked(link, code);
    assert q.edges[0] in q.edges && q.edges[1] in q.edges;
    assert forall e :: e in q.edges ==> e in {q.edges[0], q.edges[1]};
    assert !Skipped(0, 0);
    var none: NodeFlags, app: NodeFlags, test: NodeFlags, both: NodeFlags := {}, {0}, {1}, {0, 1};
    assert 0 in app * both && 1 in test * both && 1 in test * test;
    assert !HasAny(app, test) && !HasAny(none, test) && !HasAny(none, both);
  }

  lemma TestBehindModuleIsDead(code: Kind)
    ensures var q := Linked(Module, code); q.Valid() && 2 in q.DeadTestSet()
  {
    var q := Linked(Module, code);
    LinkedFacts(Module, code);
    LiveCodeIsLeast(q);
    hide q.LiveCode, q.ProductionSeeds, Arcs, HasAny, q.ExerciseArcs, Closure;
    ClosureIsLeast({(2, 1), (1, 0)}, {0}, {0});
    ClosureIsLeast({(2, 1)}, {2}, {2, 1});
    assert q.Exercises(2) <= {2, 1};
    hide q.Exercises;
    assert !q.Meets(2, {0});
    assert q.LiveClosed({0});
  }

  lemma TestOfNonCodeIsDead(link: Kind, code: Kind)
    requires !(code == Function || code == Class || code == Variable || code == TypeAlias)
    ensures var q := Linked(link, code); q.Valid() && 2 in q.DeadTestSet()
  {
    var q := Linked(link, code);
    LinkedFacts(link, code);
    LiveCodeIsLeast(q);
    hide q.LiveCode, q.ProductionSeeds, Arcs, HasAny, q.ExerciseArcs, Closure;
    ClosureIsLeast({(2, 1), (1, 0)}, {0}, {0});
    hide q.Exercises;
    assert !q.Meets(2, {});
    assert q.LiveClosed({});
  }

  /** The test is dead unless the link is no module and the code is code: exactly
      the four kinds are, and exactly modules stop the walk. */
  lemma LinkedTestIsDeadIff(link: Kind, code: Kind)
    ensures Linked(link, code).Valid()
    ensures 2 in Linked(link, code).DeadTestSet() <==>
      link == Module || !(code == Function || code == Class || code == Variable || code == TypeAlias)
  {
    var q := Linked(link, code);
    LinkedFacts(link, code);
    if link != Module && (code == Function || code == Class || code == Variable || code == TypeAlias) {
      ClosureIsClosed({(2, 1), (1, 0)}, {0});
      assert q.edges[0] in q.edges && q.edges[1] in q.edges;
      LinkedTestIsLive(q, 2, 1, 0);
    } else if link == Module {
      TestBehindModuleIsDead(code);
    } else {
      TestOfNonCodeIsDead(link, code);
    }
  }
}
