/** For which nodes and flags the documented promise, that the answer includes
    each dead test, holds whatever the edges are. */
module DeadTestPromise {
  import opened Closures
  import opened Graph
  import opened DeadTests
  import opened DeadTestProperties

  function Over(q: Query, edges: seq<Edge>): Query {
    q.(edges := edges)
  }

  /** A seed that is a test. */
  predicate IsSeededTest(q: Query, t: int) {
    0 <= t < |q.nodes| && q.IsSeed(t) && q.IsTest(t)
  }

  /** A seed that is neither production code nor a test. */
  predicate IsFixture(q: Query, s: int) {
    0 <= s < |q.nodes| && q.IsSeed(s) && !q.IsProductionSeed(s) && !q.IsTest(s)
  }

  ghost predicate AllReported(q: Query, edges: seq<Edge>)
    requires EdgesWithin(edges, |q.nodes|)
  {
    var g := Over(q, edges);
    g.DeadTestSet() <= g.BlastRadius()
  }

  ghost predicate HasUnseededTest(q: Query) {
    exists t: nat :: t < |q.nodes| && q.IsTest(t) && !q.IsSeed(t)
  }

  /** A seeded test that is no code, and a seed that is no test. */
  predicate IsLoosePair(q: Query, t: int, s: int) {
    IsSeededTest(q, t) && !q.IsCode(t) && 0 <= s < |q.nodes| && q.IsSeed(s) && !q.IsTest(s)
  }

  ghost predicate HasLoosePair(q: Query) {
    exists t, s :: IsLoosePair(q, t, s)
  }

  /** What it takes to hide the test `t` behind a module: another seeded test `s`,
      a module `m` production does not start from, and some code `p` besides the
      tests for a production seed `p0` to keep alive. */
  predicate IsHideout(q: Query, t: int, s: int, m: int, p0: int, p: int) {
    && IsSeededTest(q, t) && q.IsCode(t)
    && IsSeededTest(q, s) && s != t && !q.IsModule(s)
    && 0 <= m < |q.nodes| && q.IsModule(m) && !q.IsProductionSeed(m)
    && 0 <= p0 < |q.nodes| && q.IsProductionSeed(p0)
    && 0 <= p < |q.nodes| && q.IsCode(p) && p != t && p != s
  }

  ghost predicate HasHideout(q: Query) {
    exists t, s, m, p0, p :: IsHideout(q, t, s, m, p0, p)
  }

  ghost predicate HasFixtureAndTest(q: Query) {
    exists t, s :: IsSeededTest(q, t) && q.IsCode(t) && IsFixture(q, s)
  }

  // -------------------------------------------------- what an escape consists of

  lemma NoProductionCodeNoLiveCode(q: Query)
    requires q.Valid() && forall p: nat :: p < |q.nodes| && q.IsCode(p) ==> p !in q.Reached(q.ProductionSeeds())
    ensures q.LiveCode() == {}
  {
    LiveCodeIsLeast(q);
    assert q.LiveClosed({});
  }

  /** A module is no code and expands to nothing, so it is never live. */
  lemma ModulesAreNotLive(q: Query, s: nat)
    requires q.Valid() && s < |q.nodes| && q.IsModule(s)
    ensures !q.TouchesLive(s)
  {
    LiveCodeIsLeast(q);
    ClosureIsLeast(q.ExerciseArcs(), {s}, {s});
  }

  /** Where anything is live, production starts somewhere. */
  lemma LiveNeedsProduction(q: Query, s: nat) returns (p0: nat)
    requires q.Valid() && s < |q.nodes| && q.TouchesLive(s)
    ensures p0 in q.ProductionSeeds()
  {
    if q.ProductionSeeds() == {} {
      ClosureIsLeast(Arcs(q.edges, 0), {}, {});
      NoProductionCodeNoLiveCode(q);
      assert false;
    }
    p0 :| p0 in q.ProductionSeeds();
  }

  lemma NonCodeEscape(q: Query, t: int)
    requires q.Valid() && q.testcaseFlag <= q.testSeedFlags
    requires t in q.DeadTestSet() && q.IsSeed(t) && !q.IsCode(t) && t !in q.BlastRadius()
    ensures HasLoosePair(q)
  {
    DeadTestReportedIff(q, t);
    SurvivorsLeadInThreeWays(q, t);
    var s :| s in q.AllSeeds() && s !in q.DeadTestSet() && t in q.Reached({s});
    if q.IsTest(s) {
      var p0 := LiveNeedsProduction(q, s);
      if q.IsTest(p0) {
        NotAProductionSeed(q, p0);
        assert false;
      }
      assert IsLoosePair(q, t, p0);
    } else {
      assert IsLoosePair(q, t, s);
    }
  }

  lemma EscapeNeedsAHideout(q: Query, t: int)
    requires q.Valid() && q.testcaseFlag <= q.testSeedFlags
    requires t in q.DeadTestSet() && q.IsSeed(t) && q.IsCode(t) && t !in q.BlastRadius()
    ensures HasFixtureAndTest(q) || HasHideout(q)
  {
    DeadTestReportedIff(q, t);
    if ThroughAFixture(q, t) {
      var s :| s in q.AllSeeds() && !q.IsProductionSeed(s) && !q.IsTest(s) && t in q.Reached({s});
      assert IsSeededTest(q, t) && IsFixture(q, s);
    } else {
      var s, m :| s in q.AllSeeds() && q.IsTest(s) && q.TouchesLive(s) && m in ModulesOf(q, s) && t in q.Reached({m});
      ModuleEscape(q, t, s, m);
    }
  }

  lemma ModuleEscape(q: Query, t: int, s: int, m: int)
    requires q.Valid() && t in q.DeadTestSet() && q.IsSeed(t) && q.IsCode(t)
    requires s in q.AllSeeds() && q.IsTest(s) && q.TouchesLive(s) && m in ModulesOf(q, s) && t in q.Reached({m})
    ensures HasHideout(q)
  {
    hide q.IsCode, HasAny, Arcs, q.ExerciseArcs, Closure, q.LiveCode;
    ProductionMissesDeadTests(q, t);
    if q.IsModule(s) {
      ModulesAreNotLive(q, s);
    }
    forall x | x in q.Reached(q.ProductionSeeds())
      ensures t !in q.Reached({x})
    {
      ClosureTransitive(Arcs(q.edges, 0), q.ProductionSeeds(), x);
    }
    ReachIsExerciseAndModules(q, s);
    ReachedFromOne(Arcs(q.edges, 0), ModulesOf(q, s), t);
    ClosureIsClosed(Arcs(q.edges, 0), q.ProductionSeeds());
    assert t in q.Reached({s});
    if forall p: nat :: p < |q.nodes| && q.IsCode(p) ==> p !in q.Reached(q.ProductionSeeds()) {
      NoProductionCodeNoLiveCode(q);
      assert false;
    }
    var p: nat :| p < |q.nodes| && q.IsCode(p) && p in q.Reached(q.ProductionSeeds());
    ReachedFromOne(Arcs(q.edges, 0), q.ProductionSeeds(), p);
    var p0 :| p0 in q.ProductionSeeds() && p in q.Reached({p0});
    assert IsHideout(q, t, s, m, p0, p);
  }

  // ------------------------------------------------------------ building escapes

  function FixtureEdges(t: int, s: int): seq<Edge> {
    [(s, t, 0)]
  }

  function HideoutEdges(t: int, s: int, m: int, p0: int, p: int): seq<Edge> {
    [(p0, p, 0), (s, p, 0), (s, m, 0), (m, t, 0)]
  }

  /** A code test that production does not reach, that leads nowhere and that only
      nodes of `behind`, none of them another test, lead to is dead. */
  lemma UnexercisedTestIsDead(q: Query, t: nat, behind: set<int>)
    requires q.Valid() && t < |q.nodes| && q.IsTest(t) && q.IsCode(t)
    requires t !in q.Reached(q.ProductionSeeds()) && t in behind
    requires forall e :: e in q.ExerciseArcs() ==> e.0 != t && (e.1 in behind ==> e.0 in behind)
    requires forall x :: x in behind && x != t ==> 0 <= x < |q.nodes| && !q.IsTest(x)
    ensures t in q.DeadTestSet()
  {
    LiveCodeIsLeast(q);
    var code := (set i: nat | i < |q.nodes| && q.IsCode(i)) - {t};
    ClosureIsLeast(q.ExerciseArcs(), {t}, {t});
    forall x: nat | x < |q.nodes| && x !in behind
      ensures t !in q.Exercises(x)
    {
      ClosureIsLeast(q.ExerciseArcs(), {x}, Range(|q.nodes|) - behind);
    }
    assert !q.Meets(t, code);
    assert q.LiveClosed(code);
  }

  lemma NotAProductionSeed(q: Query, t: int)
    requires q.testcaseFlag <= q.testSeedFlags && IsSeededTest(q, t)
    ensures !q.IsProductionSeed(t)
  {
    TestcaseBitsAreTestBits(q.nodes[t].flags, q.testcaseFlag, q.testSeedFlags);
  }

  lemma FixtureArcs(q: Query, t: int, s: int)
    requires 0 <= t < |q.nodes| && 0 <= s < |q.nodes|
    ensures var g := Over(q, FixtureEdges(t, s));
      g.Valid() && Arcs(g.edges, 0) == {(s, t)} && g.ExerciseArcs() <= {(s, t)}
  {
    var edges := FixtureEdges(t, s);
    assert !Skipped(0, 0);
    assert edges[0] in edges && forall e :: e in edges ==> e == edges[0];
  }

  lemma FixtureHides(q: Query, t: int, s: int)
    requires q.testcaseFlag <= q.testSeedFlags && IsSeededTest(q, t) && q.IsCode(t) && IsFixture(q, s)
    ensures EdgesWithin(FixtureEdges(t, s), |q.nodes|) && !AllReported(q, FixtureEdges(t, s))
  {
    var g := Over(q, FixtureEdges(t, s));
    NotAProductionSeed(q, t);
    FixtureArcs(q, t, s);
    hide HasAny, Arcs, g.ExerciseArcs, Closure, g.LiveCode, FixtureEdges;
    assert g.ProductionSeeds() <= Range(|q.nodes|) - {s, t};
    ClosureIsLeast({(s, t)}, g.ProductionSeeds(), Range(|q.nodes|) - {s, t});
    UnexercisedTestIsDead(g, t, {s, t});
    ClosureIsClosed({(s, t)}, {s});
    assert (s, t) in {(s, t)};
    assert s in g.AllSeeds() && t in g.Reached({s});
    assert ThroughAFixture(g, t);
    DeadTestReportedIff(g, t);
  }

  lemma HideoutArcs(q: Query, t: int, s: int, m: int, p0: int, p: int)
    requires IsHideout(q, t, s, m, p0, p) && q.testcaseFlag <= q.testSeedFlags
    ensures var g := Over(q, HideoutEdges(t, s, m, p0, p));
      && g.Valid() && Arcs(g.edges, 0) == {(p0, p), (s, p), (s, m), (m, t)}
      && g.ExerciseArcs() <= {(p0, p), (s, p), (s, m)} && (s, p) in g.ExerciseArcs() && (s, m) in g.ExerciseArcs()
    ensures p0 != s && p0 != t && p0 != m
  {
    var edges := HideoutEdges(t, s, m, p0, p);
    NotAProductionSeed(q, s);
    NotAProductionSeed(q, t);
    assert !Skipped(0, 0);
    assert edges[0] in edges && edges[1] in edges && edges[2] in edges && edges[3] in edges;
    assert forall e :: e in edges ==> e in {edges[0], edges[1], edges[2], edges[3]};
  }

  lemma HideoutSeeds(q: Query, t: int, s: int, m: int, p0: int, p: int)
    requires IsHideout(q, t, s, m, p0, p) && q.testcaseFlag <= q.testSeedFlags
    ensures var g := Over(q, HideoutEdges(t, s, m, p0, p));
      p0 in g.ProductionSeeds() && g.ProductionSeeds() <= Range(|q.nodes|) - {t, s, m}
  {
    NotAProductionSeed(q, s);
    NotAProductionSeed(q, t);
    hide HasAny;
  }

  lemma HideoutProduction(q: Query, t: int, s: int, m: int, p0: int, p: int)
    requires IsHideout(q, t, s, m, p0, p) && q.testcaseFlag <= q.testSeedFlags
    ensures var g := Over(q, HideoutEdges(t, s, m, p0, p));
      g.Valid() && t !in g.Reached(g.ProductionSeeds()) && p in g.Reached(g.ProductionSeeds())
  {
    var g := Over(q, HideoutEdges(t, s, m, p0, p));
    HideoutArcs(q, t, s, m, p0, p);
    HideoutSeeds(q, t, s, m, p0, p);
    hide HasAny, Arcs, Closure, HideoutEdges, g.ProductionSeeds;
    var arcs := {(p0, p), (s, p), (s, m), (m, t)};
    ClosureIsLeast(arcs, g.ProductionSeeds(), Range(|q.nodes|) - {t, s, m});
    ClosureIsClosed(arcs, g.ProductionSeeds());
    assert (p0, p) in arcs && p0 in g.ProductionSeeds();
  }

  lemma HideoutTestIsLive(q: Query, t: int, s: int, m: int, p0: int, p: int)
    requires IsHideout(q, t, s, m, p0, p) && q.testcaseFlag <= q.testSeedFlags
    ensures var g := Over(q, HideoutEdges(t, s, m, p0, p));
      g.Valid() && g.TouchesLive(s) && m in ModulesOf(g, s)
  {
    var g := Over(q, HideoutEdges(t, s, m, p0, p));
    HideoutArcs(q, t, s, m, p0, p);
    HideoutProduction(q, t, s, m, p0, p);
    LiveCodeIsLeast(g);
    hide HasAny, Arcs, Closure, HideoutEdges, g.ExerciseArcs, g.LiveCode;
    ClosureIsClosed(g.ExerciseArcs(), {s});
    assert p in g.LiveCode();
    assert s in g.Exercises(s);
    assert p in g.Exercises(s) && m in g.Exercises(s);
  }

  lemma HiddenTestIsDead(q: Query, t: int, s: int, m: int, p0: int, p: int)
    requires IsHideout(q, t, s, m, p0, p) && q.testcaseFlag <= q.testSeedFlags
    ensures var g := Over(q, HideoutEdges(t, s, m, p0, p)); g.Valid() && t in g.DeadTestSet()
  {
    var g := Over(q, HideoutEdges(t, s, m, p0, p));
    HideoutArcs(q, t, s, m, p0, p);
    HideoutProduction(q, t, s, m, p0, p);
    hide HasAny, Arcs, Closure, HideoutEdges, g.ExerciseArcs, g.LiveCode, g.DeadTestSet, g.Reached;
    UnexercisedTestIsDead(g, t, {t});
  }

  lemma HideoutModuleReaches(q: Query, t: int, s: int, m: int, p0: int, p: int)
    requires IsHideout(q, t, s, m, p0, p) && q.testcaseFlag <= q.testSeedFlags
    ensures var g := Over(q, HideoutEdges(t, s, m, p0, p)); g.Valid() && t in g.Reached({m})
  {
    HideoutArcs(q, t, s, m, p0, p);
    hide HasAny, Arcs, Closure, HideoutEdges;
    var arcs := {(p0, p), (s, p), (s, m), (m, t)};
    ClosureIsClosed(arcs, {m});
    assert (m, t) in arcs && m in {m};
  }

  lemma ModuleHides(q: Query, t: int, s: int, m: int, p0: int, p: int)
    requires IsHideout(q, t, s, m, p0, p) && q.testcaseFlag <= q.testSeedFlags
    ensures EdgesWithin(HideoutEdges(t, s, m, p0, p), |q.nodes|) && !AllReported(q, HideoutEdges(t, s, m, p0, p))
  {
    var g := Over(q, HideoutEdges(t, s, m, p0, p));
    HideoutArcs(q, t, s, m, p0, p);
    HiddenTestIsDead(q, t, s, m, p0, p);
    HideoutModuleReaches(q, t, s, m, p0, p);
    HideoutTestIsLive(q, t, s, m, p0, p);
    hide HasAny, Arcs, Closure, HideoutEdges, g.ExerciseArcs, g.LiveCode, ModulesOf, g.DeadTestSet, g.Reached, g.BlastRadius;
    assert s in g.AllSeeds();
    assert ThroughAModule(g, t);
    DeadTestReportedIff(g, t);
  }

  /** A test that is no code and leads nowhere is dead. */
  lemma NonCodeTestIsDead(q: Query, t: nat)
    requires q.Valid() && t < |q.nodes| && q.IsTest(t) && !q.IsCode(t)
    requires forall e :: e in q.ExerciseArcs() ==> e.0 != t
    ensures t in q.DeadTestSet()
  {
    LiveCodeIsLeast(q);
    ClosureIsLeast(q.ExerciseArcs(), {t}, {t});
  }

  /** Without any edge an unseeded test is dead, and nothing reaches it. */
  lemma UnseededTestUnreported(q: Query, t: nat)
    requires t < |q.nodes| && q.IsTest(t) && !q.IsSeed(t)
    ensures EdgesWithin([], |q.nodes|) && !AllReported(q, [])
  {
    var g := Over(q, []);
    assert Arcs([], 0) == {} && g.ExerciseArcs() == {};
    ClosureIsLeast({}, g.AllSeeds(), g.AllSeeds());
    ClosureIsLeast({}, g.ProductionSeeds(), g.ProductionSeeds());
    hide HasAny, Arcs, g.ExerciseArcs, Closure, g.LiveCode;
    if q.IsCode(t) {
      UnexercisedTestIsDead(g, t, {t});
    } else {
      NonCodeTestIsDead(g, t);
    }
  }

  lemma LooseTestUnreported(q: Query, t: int, s: int)
    requires IsLoosePair(q, t, s)
    ensures EdgesWithin(FixtureEdges(t, s), |q.nodes|) && !AllReported(q, FixtureEdges(t, s))
  {
    var g := Over(q, FixtureEdges(t, s));
    FixtureArcs(q, t, s);
    hide HasAny, Arcs, g.ExerciseArcs, Closure, g.LiveCode, FixtureEdges;
    NonCodeTestIsDead(g, t);
    ClosureIsClosed({(s, t)}, {s});
    assert (s, t) in {(s, t)};
    assert s in g.AllSeeds() && s !in g.DeadTestSet() && t in g.Reached({s});
    ReportedIffOnlyDeadTestsReach(g, t);
  }

  // ------------------------------------------------------------------ the result

  /** The promise holds for all edges between these nodes exactly when every test
      is a seed, and they have no seed beside a test that is no code, no fixture
      seed beside a code test, and no hideout. All this can be read off the nodes
      and their flags before the query is asked. */
  lemma PromiseHoldsIff(q: Query)
    requires q.testcaseFlag <= q.testSeedFlags
    ensures (forall edges :: EdgesWithin(edges, |q.nodes|) ==> AllReported(q, edges))
            <==> !HasUnseededTest(q) && !HasLoosePair(q) && !HasFixtureAndTest(q) && !HasHideout(q)
  {
    hide AllReported, HasAny, q.IsCode;
    if t: nat :| t < |q.nodes| && q.IsTest(t) && !q.IsSeed(t) {
      UnseededTestUnreported(q, t);
    } else if t, s :| IsLoosePair(q, t, s) {
      LooseTestUnreported(q, t, s);
    } else if t, s :| IsSeededTest(q, t) && q.IsCode(t) && IsFixture(q, s) {
      FixtureHides(q, t, s);
    } else if t, s, m, p0, p :| IsHideout(q, t, s, m, p0, p) {
      ModuleHides(q, t, s, m, p0, p);
    } else {
      forall edges | EdgesWithin(edges, |q.nodes|)
        ensures AllReported(q, edges)
      {
        NoWayOut(q, edges);
      }
    }
  }

  lemma NoWayOut(q: Query, edges: seq<Edge>)
    requires q.testcaseFlag <= q.testSeedFlags && EdgesWithin(edges, |q.nodes|)
    requires !HasUnseededTest(q) && !HasLoosePair(q) && !HasFixtureAndTest(q) && !HasHideout(q)
    ensures AllReported(q, edges)
  {
    var g := Over(q, edges);
    hide HasAny, q.IsCode, g.BlastRadius, g.LiveCode;
    forall t | t in g.DeadTestSet()
      ensures t in g.BlastRadius()
    {
      assert q.IsSeed(t);
      if t !in g.BlastRadius() {
        SameNodesSameHideouts(q, edges);
        if g.IsCode(t) {
          EscapeNeedsAHideout(g, t);
        } else {
          NonCodeEscape(g, t);
        }
      }
    }
  }

  lemma SameNodesSameHideouts(q: Query, edges: seq<Edge>)
    ensures HasHideout(Over(q, edges)) ==> HasHideout(q)
    ensures HasFixtureAndTest(Over(q, edges)) ==> HasFixtureAndTest(q)
    ensures HasLoosePair(Over(q, edges)) ==> HasLoosePair(q)
  {
    var g := Over(q, edges);
    if t, s, m, p0, p :| IsHideout(g, t, s, m, p0, p) {
      assert IsHideout(q, t, s, m, p0, p);
    }
    if t, s :| IsSeededTest(g, t) && g.IsCode(t) && IsFixture(g, s) {
      assert IsSeededTest(q, t) && IsFixture(q, s);
    }
    if t, s :| IsLoosePair(g, t, s) {
      assert IsLoosePair(q, t, s);
    }
  }
}
