/** When what a live test reaches is reported all the same: the documentation has
    it stay out, and it does for every live test that is a seed. */
module DeadTestShadows {
  import opened Closures
  import opened Graph
  import opened DeadTests
  import opened DeadTestProperties
  import opened DeadTestPromise

  /** Nothing a live test reaches is reported. */
  ghost predicate LiveReachStaysOut(q: Query)
    requires q.Valid()
  {
    forall u: nat, x :: u < |q.nodes| && q.IsTest(u) && q.TouchesLive(u) && x in q.Reached({u}) ==> x !in q.BlastRadius()
  }

  /** A live test `u` that is no seed, a seeded test `d` to be dead, a node `y` that
      is no code for both to lead to, and production code `p` for `u` alone. */
  predicate IsShadow(q: Query, u: int, d: int, y: int, p0: int, p: int) {
    && 0 <= u < |q.nodes| && q.IsTest(u) && !q.IsSeed(u) && !q.IsModule(u)
    && IsSeededTest(q, d)
    && 0 <= y < |q.nodes| && !q.IsCode(y) && y != u && (y == d || !q.IsSeed(y))
    && 0 <= p0 < |q.nodes| && q.IsProductionSeed(p0)
    && 0 <= p < |q.nodes| && q.IsCode(p) && p != u && p != d
  }

  ghost predicate HasShadow(q: Query) {
    exists u, d, y, p0, p :: IsShadow(q, u, d, y, p0, p)
  }

  /** A node a surviving seed reaches is not reported, and seeded live tests survive. */
  lemma SurvivorsReachNothingReported(q: Query, s: int, x: int)
    requires q.Valid() && s in q.AllSeeds() && s !in q.DeadTestSet() && x in q.Reached({s})
    ensures x !in q.BlastRadius()
  {
    ReportedIffOnlyDeadTestsReach(q, x);
  }

  /** When every test is a seed, what any live test reaches stays out. */
  lemma SeededTestsKeepTheirReach(q: Query)
    requires q.Valid() && !HasUnseededTest(q)
    ensures LiveReachStaysOut(q)
  {
    forall u: nat, x | u < |q.nodes| && q.IsTest(u) && q.TouchesLive(u) && x in q.Reached({u})
      ensures x !in q.BlastRadius()
    {
      SurvivorsReachNothingReported(q, u, x);
    }
  }

  // ------------------------------------------------ what a shadow is needed for

  lemma ReachChains(q: Query, a: int, b: int, c: int)
    requires q.Valid() && b in q.Reached({a}) && c in q.Reached({b})
    ensures c in q.Reached({a})
  {
    ClosureTransitive(Arcs(q.edges, 0), {a}, b);
  }

  /** A walk that leaves the exercised nodes does so through a module. */
  lemma BeyondExercise(q: Query, s: nat, x: int) returns (m: int)
    requires q.Valid() && s < |q.nodes| && x in q.Reached({s}) && x !in q.Exercises(s)
    ensures m in ModulesOf(q, s) && x in q.Reached({m}) && m in q.Reached({s})
  {
    ReachIsExerciseAndModules(q, s);
    ReachedFromOne(Arcs(q.edges, 0), ModulesOf(q, s), x);
    m :| m in ModulesOf(q, s) && x in q.Reached({m});
  }

  lemma LiveMeetsProductionCode(q: Query, u: nat) returns (p0: nat, p: nat)
    requires q.Valid() && u < |q.nodes| && q.TouchesLive(u)
    ensures p0 in q.ProductionSeeds() && p in q.Reached({p0}) && p < |q.nodes| && q.IsCode(p)
    ensures p in q.Reached(q.ProductionSeeds())
  {
    if forall p: nat :: p < |q.nodes| && q.IsCode(p) ==> p !in q.Reached(q.ProductionSeeds()) {
      NoProductionCodeNoLiveCode(q);
      assert false;
    }
    p :| p < |q.nodes| && q.IsCode(p) && p in q.Reached(q.ProductionSeeds());
    ReachedFromOne(Arcs(q.edges, 0), q.ProductionSeeds(), p);
    p0 :| p0 in q.ProductionSeeds() && p in q.Reached({p0});
  }

  lemma DeadTestsExerciseNothingLive(q: Query, d: nat, z: int)
    requires q.Valid() && d in q.DeadTestSet() && z in q.Exercises(d)
    ensures 0 <= z < |q.nodes| && !q.TouchesLive(z)
  {
    ExercisesInRange(q, d);
    ClosureTransitive(q.ExerciseArcs(), {d}, z);
  }

  lemma LiveTestsExerciseLiveCode(q: Query, u: nat, z: int)
    requires q.Valid() && u < |q.nodes| && q.IsTest(u) && q.TouchesLive(u) && z in q.Exercises(u)
    ensures 0 <= z < |q.nodes| && (q.IsCode(z) ==> q.TouchesLive(z))
  {
    ExercisesInRange(q, u);
    if q.IsCode(z) {
      ExercisedCodeIsLive(q, z);
    }
  }

  /** Something `u` and `d` both lead to that is no code: `x` itself, or the module
      one of them reaches it through. */
  lemma MeetingPoint(q: Query, u: nat, d: nat, x: int) returns (y: int)
    requires q.Valid() && u < |q.nodes| && d < |q.nodes| && q.IsTest(u) && q.TouchesLive(u) && d in q.DeadTestSet()
    requires x in q.Reached({u}) && x in q.Reached({d})
    ensures 0 <= y < |q.nodes| && !q.IsCode(y) && y != u && x in q.Reached({y})
  {
    hide q.LiveCode, q.TouchesLive, q.ExerciseArcs, Arcs, HasAny, q.Exercises, q.DeadTestSet;
    ClosureIsClosed(Arcs(q.edges, 0), {x});
    if q.IsModule(u) {
      ModulesAreNotLive(q, u);
    }
    if x !in q.Exercises(d) {
      y := BeyondExercise(q, d, x);
    } else if x !in q.Exercises(u) {
      y := BeyondExercise(q, u, x);
    } else {
      y := x;
      DeadTestsExerciseNothingLive(q, d, x);
      LiveTestsExerciseLiveCode(q, u, x);
    }
  }

  lemma ReportedReachNeedsAShadow(q: Query, u: nat, x: int)
    requires q.Valid() && q.testcaseFlag <= q.testSeedFlags
    requires u < |q.nodes| && q.IsTest(u) && q.TouchesLive(u) && x in q.Reached({u}) && x in q.BlastRadius()
    ensures HasShadow(q)
  {
    hide q.IsCode, HasAny, Arcs, q.ExerciseArcs, Closure, q.LiveCode;
    ReportedIffOnlyDeadTestsReach(q, x);
    var d :| d in q.AllSeeds() && d in q.DeadTestSet() && x in q.Reached({d});
    if q.IsModule(u) {
      ModulesAreNotLive(q, u);
    }
    var p0, p := LiveMeetsProductionCode(q, u);
    if q.IsTest(p0) {
      NotAProductionSeed(q, p0);
      assert false;
    }
    if p == d {
      ProductionMissesDeadTests(q, d);
      assert false;
    }
    if p == u {
      ReachChains(q, p0, u, x);
      assert false;
    }
    var y := MeetingPoint(q, u, d, x);
    if q.IsSeed(y) {
      assert y in q.AllSeeds();
      assert y in q.DeadTestSet();
      assert p != y;
      assert IsShadow(q, u, y, y, p0, p);
    } else {
      assert IsShadow(q, u, d, y, p0, p);
    }
  }

  // ----------------------------------------------------------- casting a shadow

  function ShadowEdges(u: int, d: int, y: int, p0: int, p: int): seq<Edge> {
    [(p0, p, 0), (u, p, 0), (u, y, 0), (d, y, 0)]
  }

  lemma ShadowArcs(q: Query, u: int, d: int, y: int, p0: int, p: int)
    requires IsShadow(q, u, d, y, p0, p) && q.testcaseFlag <= q.testSeedFlags
    ensures var g := Over(q, ShadowEdges(u, d, y, p0, p));
      && g.Valid() && Arcs(g.edges, 0) == {(p0, p), (u, p), (u, y), (d, y)}
      && g.ExerciseArcs() <= {(p0, p), (u, p), (u, y), (d, y)} && (u, p) in g.ExerciseArcs() && (u, y) in g.ExerciseArcs()
    ensures p0 != d && p0 != u && p0 != y && p != y && u != d
    ensures q.ProductionSeeds() <= Range(|q.nodes|) - {u, d, y}
  {
    var edges := ShadowEdges(u, d, y, p0, p);
    NotAProductionSeed(q, d);
    assert !Skipped(0, 0);
    assert edges[0] in edges && edges[1] in edges && edges[2] in edges && edges[3] in edges;
    assert forall e :: e in edges ==> e in {edges[0], edges[1], edges[2], edges[3]};
  }

  lemma ShadowProduction(q: Query, u: int, d: int, y: int, p0: int, p: int)
    requires IsShadow(q, u, d, y, p0, p) && q.testcaseFlag <= q.testSeedFlags
    ensures var g := Over(q, ShadowEdges(u, d, y, p0, p));
      g.Valid() && d !in g.Reached(g.ProductionSeeds()) && p in g.Reached(g.ProductionSeeds())
  {
    var g := Over(q, ShadowEdges(u, d, y, p0, p));
    ShadowArcs(q, u, d, y, p0, p);
    assert p0 in g.ProductionSeeds() && g.ProductionSeeds() == q.ProductionSeeds();
    hide HasAny, Arcs, Closure, ShadowEdges, g.ProductionSeeds;
    var arcs := {(p0, p), (u, p), (u, y), (d, y)};
    ClosureIsLeast(arcs, g.ProductionSeeds(), Range(|q.nodes|) - {u, d, y});
    ClosureIsClosed(arcs, g.ProductionSeeds());
    assert (p0, p) in arcs;
  }

  lemma ShadowTestIsLive(q: Query, u: int, d: int, y: int, p0: int, p: int)
    requires IsShadow(q, u, d, y, p0, p) && q.testcaseFlag <= q.testSeedFlags
    ensures var g := Over(q, ShadowEdges(u, d, y, p0, p));
      g.Valid() && g.TouchesLive(u) && y in g.Exercises(u)
  {
    var g := Over(q, ShadowEdges(u, d, y, p0, p));
    ShadowArcs(q, u, d, y, p0, p);
    ShadowProduction(q, u, d, y, p0, p);
    LiveCodeIsLeast(g);
    hide HasAny, Arcs, Closure, ShadowEdges, g.ExerciseArcs, g.LiveCode;
    ClosureIsClosed(g.ExerciseArcs(), {u});
    assert p in g.LiveCode();
    assert u in g.Exercises(u);
    assert p in g.Exercises(u) && y in g.Exercises(u);
  }

  /** A test that exercises no code but itself, and that nothing live exercises,
      is dead. */
  lemma LonelyTestIsDead(q: Query, d: nat)
    requires q.Valid() && d < |q.nodes| && q.IsTest(d)
    requires forall z: nat :: z in q.Exercises(d) && z < |q.nodes| && q.IsCode(z) ==> z == d
    requires q.IsCode(d) ==> d !in q.Reached(q.ProductionSeeds())
    requires q.IsCode(d) ==> forall x: nat :: x < |q.nodes| && x != d ==> d !in q.Exercises(x)
    ensures d in q.DeadTestSet()
  {
    hide HasAny, q.ExerciseArcs, Arcs, q.Reached, q.ProductionSeeds, q.Exercises;
    LiveCodeIsLeast(q);
    ExercisesInRange(q, d);
    var code := (set i: nat | i < |q.nodes| && q.IsCode(i)) - {d};
    assert !q.Meets(d, code);
    assert q.LiveClosed(code);
  }

  /** `d` exercises nothing but itself and `y`. */
  lemma ShadowedExercise(q: Query, u: int, d: int, y: int, p0: int, p: int)
    requires IsShadow(q, u, d, y, p0, p) && q.testcaseFlag <= q.testSeedFlags
    ensures var g := Over(q, ShadowEdges(u, d, y, p0, p)); g.Valid() && g.Exercises(d) <= {d, y}
  {
    var g := Over(q, ShadowEdges(u, d, y, p0, p));
    ShadowArcs(q, u, d, y, p0, p);
    ShadowArcsLeaving(g.ExerciseArcs(), u, d, y, p0, p);
  }

  lemma ShadowArcsLeaving(arcs: Rel, u: int, d: int, y: int, p0: int, p: int)
    requires arcs <= {(p0, p), (u, p), (u, y), (d, y)} && p0 != d && p0 != y && u != d && u != y
    ensures Closure(arcs, {d}) <= {d, y}
  {
    ClosureIsLeast(arcs, {d}, {d, y});
  }

  lemma ShadowArcsMissing(arcs: Rel, u: int, d: int, y: int, p0: int, p: int, x: int)
    requires arcs <= {(p0, p), (u, p), (u, y), (d, y)} && p != d && y != d && x != d
    ensures d !in Closure(arcs, {x})
  {
    ClosureIsLeast(arcs, {x}, {x} + Targets(arcs));
  }

  lemma ShadowedUnexercised(q: Query, u: int, d: int, y: int, p0: int, p: int)
    requires IsShadow(q, u, d, y, p0, p) && q.testcaseFlag <= q.testSeedFlags
    ensures var g := Over(q, ShadowEdges(u, d, y, p0, p));
      g.Valid() && (y != d ==> forall x: nat :: x < |g.nodes| && x != d ==> d !in g.Exercises(x))
  {
    var g := Over(q, ShadowEdges(u, d, y, p0, p));
    ShadowArcs(q, u, d, y, p0, p);
    hide HasAny, Arcs, Closure, ShadowEdges, g.ExerciseArcs;
    if y != d {
      forall x: nat | x < |q.nodes| && x != d
        ensures d !in g.Exercises(x)
      {
        ShadowArcsMissing(g.ExerciseArcs(), u, d, y, p0, p, x);
      }
    }
  }

  lemma ShadowedTestIsDead(q: Query, u: int, d: int, y: int, p0: int, p: int)
    requires IsShadow(q, u, d, y, p0, p) && q.testcaseFlag <= q.testSeedFlags
    ensures var g := Over(q, ShadowEdges(u, d, y, p0, p)); g.Valid() && d in g.DeadTestSet()
  {
    var g := Over(q, ShadowEdges(u, d, y, p0, p));
    ShadowArcs(q, u, d, y, p0, p);
    ShadowProduction(q, u, d, y, p0, p);
    ShadowedExercise(q, u, d, y, p0, p);
    ShadowedUnexercised(q, u, d, y, p0, p);
    hide HasAny, Arcs, Closure, ShadowEdges, g.ExerciseArcs, g.LiveCode, g.ProductionSeeds, g.DeadTestSet, g.Reached, g.Exercises;
    LonelyTestIsDead(g, d);
  }

  lemma ShadowIsReported(q: Query, u: int, d: int, y: int, p0: int, p: int)
    requires IsShadow(q, u, d, y, p0, p) && q.testcaseFlag <= q.testSeedFlags
    ensures var g := Over(q, ShadowEdges(u, d, y, p0, p)); g.Valid() && y in g.BlastRadius()
  {
    var g := Over(q, ShadowEdges(u, d, y, p0, p));
    ShadowArcs(q, u, d, y, p0, p);
    ShadowedTestIsDead(q, u, d, y, p0, p);
    hide HasAny, Arcs, Closure, ShadowEdges, g.ExerciseArcs, g.LiveCode, g.DeadTestSet, g.ProductionSeeds;
    var arcs := {(p0, p), (u, p), (u, y), (d, y)};
    ClosureIsLeast(arcs, g.AllSeeds() - g.DeadTestSet(), Range(|q.nodes|) - {u, d, y});
    ClosureIsClosed(arcs, g.AllSeeds());
    assert d in g.AllSeeds() && (d, y) in arcs;
  }

  lemma ShadowFalls(q: Query, u: int, d: int, y: int, p0: int, p: int)
    requires IsShadow(q, u, d, y, p0, p) && q.testcaseFlag <= q.testSeedFlags
    ensures var g := Over(q, ShadowEdges(u, d, y, p0, p));
      && g.Valid() && !LiveReachStaysOut(g)
      && g.TouchesLive(u) && y in g.Exercises(u) && y in g.BlastRadius()
  {
    var g := Over(q, ShadowEdges(u, d, y, p0, p));
    ShadowArcs(q, u, d, y, p0, p);
    ShadowTestIsLive(q, u, d, y, p0, p);
    ShadowIsReported(q, u, d, y, p0, p);
    ReachIsExerciseAndModules(g, u);
    assert g.IsTest(u);
  }

  // ------------------------------------------------------------------ the result

  /** What live tests reach stays out, whatever the edges between these nodes are,
      exactly when the nodes and their flags leave no room for a shadow. */
  lemma LiveReachStaysOutIff(q: Query)
    requires q.testcaseFlag <= q.testSeedFlags
    ensures (forall edges :: EdgesWithin(edges, |q.nodes|) ==> LiveReachStaysOut(Over(q, edges))) <==> !HasShadow(q)
  {
    hide LiveReachStaysOut;
    if u, d, y, p0, p :| IsShadow(q, u, d, y, p0, p) {
      ShadowFalls(q, u, d, y, p0, p);
    } else {
      forall edges | EdgesWithin(edges, |q.nodes|)
        ensures LiveReachStaysOut(Over(q, edges))
      {
        NoShadowFalls(q, edges);
      }
    }
  }

  lemma SameNodesSameShadows(q: Query, edges: seq<Edge>)
    ensures HasShadow(Over(q, edges)) ==> HasShadow(q)
  {
    hide HasAny;
    if u, d, y, p0, p :| IsShadow(Over(q, edges), u, d, y, p0, p) {
      assert IsShadow(q, u, d, y, p0, p);
    }
  }

  lemma NoShadowFalls(q: Query, edges: seq<Edge>)
    requires q.testcaseFlag <= q.testSeedFlags && EdgesWithin(edges, |q.nodes|) && !HasShadow(q)
    ensures LiveReachStaysOut(Over(q, edges))
  {
    SameNodesSameShadows(q, edges);
    var g := Over(q, edges);
    hide HasShadow, HasAny, g.TouchesLive, g.Reached, g.BlastRadius;
    forall u: nat, x | u < |g.nodes| && g.IsTest(u) && g.TouchesLive(u) && x in g.Reached({u})
      ensures x !in g.BlastRadius()
    {
      if x in g.BlastRadius() {
        ReportedReachNeedsAShadow(g, u, x);
        assert false;
      }
    }
  }

  // ---------------------------------------------------------------- an instance

  /** A dead test (1) imports a module (2) that leads to a live test (3), which is
      no seed and uses the production function (0). */
  function ShadowedLiveTest(): Query {
    Query([NodeOf("app", Function, {0}), NodeOf("test_dead", Function, {1, 2}),
           NodeOf("helpers", Module, {}), NodeOf("test_live", Function, {1})],
          [(1, 2, 0), (2, 3, 0), (3, 0, 0)], {0, 2}, {1}, {1})
  }

  lemma ShadowedLiveTestFacts()
    ensures var q := ShadowedLiveTest();
      && q.Valid() && |q.nodes| == 4
      && Arcs(q.edges, 0) == {(1, 2), (2, 3), (3, 0)} && q.ExerciseArcs() == {(1, 2), (3, 0)}
      && q.ProductionSeeds() == {0} && q.AllSeeds() == {0, 1}
      && (forall i: nat :: i < 4 ==> (q.IsTest(i) <==> i == 1 || i == 3))
      && (forall i: nat :: i < 4 ==> (q.IsCode(i) <==> i != 2))
  {
    var q := ShadowedLiveTest();
    assert q.edges[0] in q.edges && q.edges[1] in q.edges && q.edges[2] in q.edges;
    assert forall e :: e in q.edges ==> e in {q.edges[0], q.edges[1], q.edges[2]};
    assert !Skipped(0, 0);
    var none: NodeFlags, app: NodeFlags, dead: NodeFlags, live: NodeFlags, seed: NodeFlags, test: NodeFlags :=
      {}, {0}, {1, 2}, {1}, {0, 2}, {1};
    assert 0 in app * seed && 2 in dead * seed && 1 in dead * test && 1 in live * test;
    assert !HasAny(none, seed) && !HasAny(live, seed) && !HasAny(app, test) && !HasAny(none, test);
  }

  lemma LiveInTheExample(q: Query)
    requires q == ShadowedLiveTest() && q.Valid()
    ensures q.TouchesLive(3)
  {
    ShadowedLiveTestFacts();
    LiveCodeIsLeast(q);
    hide HasAny, Arcs, q.ExerciseArcs, Closure, q.LiveCode, q.ProductionSeeds, q.AllSeeds, ShadowedLiveTest;
    ClosureIsClosed({(1, 2), (2, 3), (3, 0)}, {0});
    assert 0 in q.LiveCode();
    var exercise := {(1, 2), (3, 0)};
    ClosureIsClosed(exercise, {3});
    assert 3 in q.Exercises(3) && (3, 0) in exercise && 0 in q.Exercises(3);
  }

  lemma DeadInTheExample(q: Query)
    requires q == ShadowedLiveTest() && q.Valid()
    ensures 1 in q.DeadTestSet()
  {
    ShadowedLiveTestFacts();
    hide HasAny, Arcs, q.ExerciseArcs, Closure, q.LiveCode, q.ProductionSeeds, q.AllSeeds, q.DeadTestSet, ShadowedLiveTest;
    var exercise := {(1, 2), (3, 0)};
    ClosureIsLeast({(1, 2), (2, 3), (3, 0)}, {0}, {0});
    ClosureIsLeast(exercise, {1}, {1, 2});
    forall x: nat | x < 4 && x != 1
      ensures 1 !in q.Exercises(x)
    {
      ClosureIsLeast(exercise, {x}, {0, 2, 3});
    }
    LonelyTestIsDead(q, 1);
  }

  lemma ExampleWalks()
    ensures var arcs := {(1, 2), (2, 3), (3, 0)};
      3 in Closure(arcs, {0, 1}) && forall seeds :: seeds <= {0} ==> Closure(arcs, seeds) <= {0}
  {
    var arcs := {(1, 2), (2, 3), (3, 0)};
    ClosureIsClosed(arcs, {0, 1});
    assert (1, 2) in arcs && (2, 3) in arcs;
    forall seeds | seeds <= {0}
      ensures Closure(arcs, seeds) <= {0}
    {
      ClosureIsLeast(arcs, seeds, {0});
    }
  }

  /** The live test is itself reported. */
  lemma LiveTestMayBeReported()
    ensures var q := ShadowedLiveTest(); q.Valid() && q.IsTest(3) && q.TouchesLive(3) && 3 in q.BlastRadius()
  {
    var q := ShadowedLiveTest();
    ShadowedLiveTestFacts();
    LiveInTheExample(q);
    DeadInTheExample(q);
    ExampleWalks();
    hide HasAny, Arcs, q.ExerciseArcs, Closure, q.LiveCode, q.ProductionSeeds, q.AllSeeds, q.DeadTestSet, q.TouchesLive, ShadowedLiveTest;
    assert q.AllSeeds() - q.DeadTestSet() <= {0};
  }
}
