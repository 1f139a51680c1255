/** Taking out what the dead-tests query reports: nothing that survives notices,
    and asking again reports nothing more. */
module DeadTestRemoval {
  import opened Wrappers
  import opened Closures
  import opened Graph
  import opened DeadTests
  import opened DeadTestProperties
  import opened DeadTestPromise
  import opened DeadTestShadows

  /** The graph without the reported nodes: their slots are blank, and the edges
      at them are gone. */
  ghost function Removed(q: Query): Query
    requires q.Valid()
  {
    q.(nodes := seq(|q.nodes|, i requires 0 <= i < |q.nodes| =>
                  if i in q.BlastRadius() then SymbolNode("", Blank, "", 0, 0, 0, 0, {}, None) else q.nodes[i]),
       edges := Between(q.edges, q.BlastRadius()))
  }

  /** The edges with neither end in `gone`, in order. */
  ghost function Between(edges: seq<Edge>, gone: set<int>): seq<Edge> {
    if edges == [] then [] else
      var e := edges[|edges| - 1];
      Between(edges[..|edges| - 1], gone) + (if e.0 in gone || e.1 in gone then [] else [e])
  }

  lemma {:induction false} BetweenMembers(edges: seq<Edge>, gone: set<int>, e: Edge)
    ensures e in Between(edges, gone) <==> e in edges && e.0 !in gone && e.1 !in gone
  {
    if edges != [] {
      BetweenMembers(edges[..|edges| - 1], gone, e);
      assert edges == edges[..|edges| - 1] + [edges[|edges| - 1]];
    }
  }

  /** A walk that starts inside a closed set does not notice arcs outside it. */
  lemma SameInside(rel: Rel, rel': Rel, roots: set<int>, inside: set<int>)
    requires roots <= inside && Closed(rel, inside) && rel' <= rel
    requires forall e :: e in rel && e.0 in inside ==> e in rel'
    ensures Closure(rel', roots) == Closure(rel, roots) && Closure(rel, roots) <= inside
  {
    ClosureMonotone(rel', rel, roots, roots);
    ClosureIsLeast(rel, roots, inside);
    ClosureIsClosed(rel', roots);
    ClosureIsLeast(rel, roots, Closure(rel', roots));
  }

  /** What the surviving seeds reach. */
  ghost function Kept(q: Query): set<int>
    requires q.Valid()
  {
    q.Reached(q.AllSeeds() - q.DeadTestSet())
  }

  /** No live test exercises anything that is reported. */
  ghost predicate LiveTestsUntouched(q: Query)
    requires q.Valid()
  {
    forall t: nat, x :: t < |q.nodes| && q.IsTest(t) && q.TouchesLive(t) && x in q.Exercises(t) ==> x !in q.BlastRadius()
  }

  /** The query as it is asked: tests are among the test seeds, and no live test
      exercises anything that is reported. */
  ghost predicate Removable(q: Query) {
    q.Valid() && q.testcaseFlag <= q.testSeedFlags && LiveTestsUntouched(q)
  }

  // ------------------------------------------------------------ what is left

  lemma RemovedFacts(q: Query)
    requires q.Valid()
    ensures var r := Removed(q);
      && r.Valid() && |r.nodes| == |q.nodes|
      && (forall i: nat :: i < |q.nodes| && i !in q.BlastRadius() ==> r.nodes[i] == q.nodes[i])
      && (forall i: nat :: i < |q.nodes| && i in q.BlastRadius() ==>
            !r.IsCode(i) && !r.IsModule(i) && !r.IsTest(i) && !r.IsSeed(i))
      && (forall e :: e in r.edges <==> e in q.edges && e.0 !in q.BlastRadius() && e.1 !in q.BlastRadius())
  {
    var r := Removed(q);
    forall e
      ensures e in r.edges <==> e in q.edges && e.0 !in q.BlastRadius() && e.1 !in q.BlastRadius()
    {
      BetweenMembers(q.edges, q.BlastRadius(), e);
    }
  }

  lemma KeptIsUntouched(q: Query)
    requires q.Valid()
    ensures Closed(Arcs(q.edges, 0), Kept(q)) && Kept(q) !! q.BlastRadius()
    ensures q.AllSeeds() - q.DeadTestSet() <= Kept(q) <= Range(|q.nodes|)
    ensures q.AllSeeds() - q.BlastRadius() <= Kept(q)
  {
    ClosureIsClosed(Arcs(q.edges, 0), q.AllSeeds() - q.DeadTestSet());
    ClosureIsClosed(Arcs(q.edges, 0), q.AllSeeds());
    ReachedInRange(q, q.AllSeeds() - q.DeadTestSet());
  }

  lemma ArcsLeft(q: Query)
    requires q.Valid()
    ensures Removed(q).Valid()
    ensures Arcs(Removed(q).edges, 0) <= Arcs(q.edges, 0)
    ensures forall e :: e in Arcs(q.edges, 0) && e.0 in Kept(q) ==> e in Arcs(Removed(q).edges, 0)
  {
    RemovedFacts(q);
    KeptIsUntouched(q);
    hide q.BlastRadius, Kept, Closure, Removed;
    forall e | e in Arcs(q.edges, 0) && e.0 in Kept(q)
      ensures e in Arcs(Removed(q).edges, 0)
    {
      var edge :| edge in q.edges && !Skipped(edge.2, 0) && (edge.0, edge.1) == e;
      assert edge in Removed(q).edges;
    }
  }

  lemma ExerciseArcsLeft(q: Query)
    requires q.Valid()
    ensures Removed(q).Valid()
    ensures Removed(q).ExerciseArcs() <= q.ExerciseArcs()
    ensures forall e :: e in q.ExerciseArcs() && e.0 in Kept(q) ==> e in Removed(q).ExerciseArcs()
    ensures Closed(q.ExerciseArcs(), Kept(q))
  {
    RemovedFacts(q);
    KeptIsUntouched(q);
    var r := Removed(q);
    forall e | e in q.ExerciseArcs()
      ensures e in Arcs(q.edges, 0)
    {
      ExerciseArcsAreArcs(q, e);
    }
    hide q.BlastRadius, Kept, Closure, Removed, Arcs;
    forall e | e in q.ExerciseArcs() && e.0 in Kept(q)
      ensures e in r.ExerciseArcs()
    {
      var edge :| edge in q.edges && !q.IsModule(edge.0) && (edge.0, edge.1) == e;
      assert edge in r.edges;
    }
    forall e | e in r.ExerciseArcs()
      ensures e in q.ExerciseArcs()
    {
      var edge :| edge in r.edges && !r.IsModule(edge.0) && (edge.0, edge.1) == e;
      assert edge in q.edges;
    }
  }

  /** Walks from what is kept are as before. */
  lemma KeptReachesTheSame(q: Query, roots: set<int>)
    requires q.Valid() && roots <= Kept(q)
    ensures Removed(q).Valid() && Removed(q).Reached(roots) == q.Reached(roots) && q.Reached(roots) <= Kept(q)
  {
    ArcsLeft(q);
    KeptIsUntouched(q);
    SameInside(Arcs(q.edges, 0), Arcs(Removed(q).edges, 0), roots, Kept(q));
  }

  lemma ExercisesLess(q: Query, s: nat)
    requires q.Valid()
    ensures Removed(q).Valid() && Removed(q).Exercises(s) <= q.Exercises(s)
  {
    ExerciseArcsLeft(q);
    ClosureMonotone(Removed(q).ExerciseArcs(), q.ExerciseArcs(), {s}, {s});
  }

  // ---------------------------------------------------------- live code stays

  lemma ProductionStays(q: Query)
    requires q.Valid() && q.testcaseFlag <= q.testSeedFlags
    ensures Removed(q).Valid() && Removed(q).ProductionSeeds() == q.ProductionSeeds() && q.ProductionSeeds() <= Kept(q)
    ensures Removed(q).Reached(q.ProductionSeeds()) == q.Reached(q.ProductionSeeds()) <= Kept(q)
  {
    RemovedFacts(q);
    KeptIsUntouched(q);
    forall i: nat | i < |q.nodes| && q.IsProductionSeed(i)
      ensures i in Kept(q)
    {
      if q.IsTest(i) {
        NotAProductionSeed(q, i);
        assert false;
      }
      assert i in q.AllSeeds() - q.DeadTestSet();
    }
    KeptReachesTheSame(q, q.ProductionSeeds());
  }

  /** A walk none of whose nodes is reported stays as it was. */
  lemma UnreportedExerciseIsTheSame(q: Query, s: nat)
    requires q.Valid() && s < |q.nodes| && q.Exercises(s) !! q.BlastRadius()
    ensures Removed(q).Valid() && Removed(q).Exercises(s) == q.Exercises(s)
  {
    var r := Removed(q);
    ExerciseArcsLeft(q);
    ExercisesInRange(q, s);
    forall e | e in q.ExerciseArcs() && e.0 in q.Exercises(s)
      ensures e in r.ExerciseArcs()
    {
      UnreportedArcIsLeft(q, e);
    }
    SameInside(q.ExerciseArcs(), r.ExerciseArcs(), {s}, q.Exercises(s));
  }

  lemma UnreportedArcIsLeft(q: Query, e: (int, int))
    requires q.Valid() && e in q.ExerciseArcs() && e.0 !in q.BlastRadius() && e.1 !in q.BlastRadius()
    ensures Removed(q).Valid() && e in Removed(q).ExerciseArcs()
  {
    RemovedFacts(q);
    var r := Removed(q);
    hide q.BlastRadius, Removed;
    var edge :| edge in q.edges && !q.IsModule(edge.0) && (edge.0, edge.1) == e;
    assert edge in r.edges;
  }

  lemma LiveTestIsUntouched(q: Query, t: nat)
    requires Removable(q) && t < |q.nodes| && q.IsTest(t) && q.TouchesLive(t)
    ensures t !in q.BlastRadius() && q.Exercises(t) !! q.BlastRadius()
    ensures Removed(q).Valid() && Removed(q).IsTest(t) && Removed(q).Exercises(t) == q.Exercises(t)
  {
    RemovedFacts(q);
    ExercisesInRange(q, t);
    UnreportedExerciseIsTheSame(q, t);
  }

  lemma NothingBecomesLive(q: Query)
    requires q.Valid() && q.testcaseFlag <= q.testSeedFlags
    ensures Removed(q).Valid() && Removed(q).LiveCode() <= q.LiveCode()
  {
    var r := Removed(q);
    RemovedFacts(q);
    ProductionStays(q);
    LiveCodeIsLeast(q);
    LiveCodeIsLeast(r);
    hide q.BlastRadius, Closure, Removed, Arcs, q.ExerciseArcs, q.LiveCode, HasAny, q.ProductionSeeds, q.Exercises, q.Reached, Kept;
    forall t: nat | t < |r.nodes| && r.IsTest(t) && r.Meets(t, q.LiveCode())
      ensures q.IsTest(t) && q.Meets(t, q.LiveCode()) && r.Exercises(t) <= q.Exercises(t)
    {
      ExercisesLess(q, t);
    }
    assert r.LiveClosed(q.LiveCode());
  }

  /** A test that meets what is still live takes its code along as before. */
  lemma LiveTestTakesItsCode(q: Query, t: nat, y: nat)
    requires Removable(q) && t < |q.nodes| && y < |q.nodes| && Removed(q).Valid()
    requires Removed(q).LiveCode() <= q.LiveCode() && q.IsTest(t) && q.Meets(t, Removed(q).LiveCode())
    requires q.IsCode(y) && y in q.Exercises(t)
    ensures y in Removed(q).LiveCode()
  {
    var r := Removed(q);
    RemovedFacts(q);
    LiveCodeIsLeast(r);
    hide q.BlastRadius, Closure, Removed, Arcs, q.ExerciseArcs, q.LiveCode, HasAny, q.ProductionSeeds, q.Exercises, LiveTestsUntouched;
    assert q.Meets(t, q.LiveCode());
    LiveTestIsUntouched(q, t);
    assert r.Meets(t, r.LiveCode());
    assert y !in q.BlastRadius() && r.IsCode(y);
  }

  lemma ProductionCodeStaysLive(q: Query, i: nat)
    requires q.Valid() && q.testcaseFlag <= q.testSeedFlags
    requires i < |q.nodes| && q.IsCode(i) && i in q.Reached(q.ProductionSeeds())
    ensures Removed(q).Valid() && i in Removed(q).LiveCode()
  {
    RemovedFacts(q);
    ProductionStays(q);
    KeptIsUntouched(q);
    LiveCodeIsLeast(Removed(q));
    hide q.BlastRadius, Closure, Removed, Arcs, q.ExerciseArcs, q.LiveCode, HasAny, q.ProductionSeeds, Kept, q.Exercises;
  }

  lemma NothingStopsBeingLive(q: Query)
    requires Removable(q)
    ensures Removed(q).Valid() && q.LiveCode() <= Removed(q).LiveCode()
  {
    NothingBecomesLive(q);
    LiveCodeIsLeast(q);
    var live := Removed(q).LiveCode();
    hide q.BlastRadius, Closure, Removed, Arcs, q.ExerciseArcs, q.LiveCode, HasAny, q.ProductionSeeds, q.Exercises, q.Reached, q.IsCode, LiveTestsUntouched;
    forall i: nat | i < |q.nodes| && q.IsCode(i) && i in q.Reached(q.ProductionSeeds())
      ensures i in live
    {
      ProductionCodeStaysLive(q, i);
    }
    forall t: nat, y: nat | t < |q.nodes| && q.IsTest(t) && q.Meets(t, live)
        && y < |q.nodes| && q.IsCode(y) && y in q.Exercises(t)
      ensures y in live
    {
      LiveTestTakesItsCode(q, t, y);
    }
    assert q.LiveClosed(live);
  }

  /** The live tests of `q` are tests of `r` that exercise what they did, and are
      live there. */
  ghost predicate LiveTestsStay(q: Query, r: Query)
    requires q.Valid() && r.Valid() && |r.nodes| == |q.nodes|
  {
    forall t: nat :: t < |q.nodes| && q.IsTest(t) && q.TouchesLive(t) ==>
      r.IsTest(t) && r.Exercises(t) == q.Exercises(t) && r.TouchesLive(t)
  }

  /** The tests that were live are live, and the tests now dead are the dead ones
      that had not been reported. */
  lemma LiveTestsStayLive(q: Query)
    requires Removable(q)
    ensures var r := Removed(q);
      && r.Valid() && |r.nodes| == |q.nodes| && r.LiveCode() == q.LiveCode()
      && LiveTestsStay(q, r) && r.DeadTestSet() == q.DeadTestSet() - q.BlastRadius()
  {
    var r := Removed(q);
    RemovedFacts(q);
    NothingBecomesLive(q);
    NothingStopsBeingLive(q);
    hide q.BlastRadius, Closure, Removed, Arcs, q.ExerciseArcs, q.LiveCode, HasAny, Kept, LiveTestsUntouched;
    forall t: nat | t < |q.nodes| && q.IsTest(t) && q.TouchesLive(t)
      ensures r.IsTest(t) && r.Exercises(t) == q.Exercises(t) && r.TouchesLive(t)
    {
      LiveTestIsUntouched(q, t);
    }
    forall t: nat | t < |q.nodes| && r.TouchesLive(t)
      ensures q.TouchesLive(t)
    {
      ExercisesLess(q, t);
    }
  }

  /** What every surviving seed reaches is still there and still reached. */
  ghost predicate SurvivorsReachTheSame(q: Query, r: Query)
    requires q.Valid() && r.Valid()
  {
    forall s :: s in q.AllSeeds() - q.DeadTestSet() ==> s in r.AllSeeds() && r.Reached({s}) == q.Reached({s})
  }

  lemma SecondRadius(q: Query)
    requires q.Valid() && Removed(q).Valid()
    requires Removed(q).Reached(Removed(q).AllSeeds()) <= Kept(q)
    requires Removed(q).AllSeeds() - Removed(q).DeadTestSet() == q.AllSeeds() - q.DeadTestSet()
    requires Removed(q).Reached(q.AllSeeds() - q.DeadTestSet()) == q.Reached(q.AllSeeds() - q.DeadTestSet())
    ensures Removed(q).BlastRadius() == {}
  {
  }

  lemma SurvivorsAreNotDisturbed(q: Query)
    requires q.Valid()
    ensures Removed(q).Valid() && SurvivorsReachTheSame(q, Removed(q))
  {
    RemovedFacts(q);
    KeptIsUntouched(q);
    hide q.BlastRadius, Closure, Removed, Arcs, q.LiveCode, HasAny, Kept, q.DeadTestSet;
    forall s | s in q.AllSeeds() - q.DeadTestSet()
      ensures s in Removed(q).AllSeeds() && Removed(q).Reached({s}) == q.Reached({s})
    {
      KeptReachesTheSame(q, {s});
    }
  }

  lemma SecondQueryReportsNothing(q: Query)
    requires Removable(q)
    ensures Removed(q).Valid() && Removed(q).BlastRadius() == {}
  {
    var r := Removed(q);
    RemovedFacts(q);
    LiveTestsStayLive(q);
    KeptIsUntouched(q);
    hide q.BlastRadius, Closure, Removed, Arcs, q.LiveCode, HasAny, Kept, q.DeadTestSet, LiveTestsStay, LiveTestsUntouched;
    assert r.AllSeeds() == q.AllSeeds() - q.BlastRadius();
    assert r.AllSeeds() - r.DeadTestSet() == q.AllSeeds() - q.DeadTestSet();
    KeptReachesTheSame(q, r.AllSeeds());
    KeptReachesTheSame(q, q.AllSeeds() - q.DeadTestSet());
    SecondRadius(q);
  }

  // ------------------------------------------------------------------ the result

  /** Nothing that survives notices the removal, and a second query reports nothing. */
  ghost predicate Undisturbed(q: Query)
    requires q.Valid()
  {
    var r := Removed(q);
    && r.Valid() && |r.nodes| == |q.nodes|
    && SurvivorsReachTheSame(q, r) && LiveTestsStay(q, r)
    && r.DeadTestSet() == q.DeadTestSet() - q.BlastRadius() && r.BlastRadius() == {}
  }

  lemma RemovableIsUndisturbed(q: Query)
    requires Removable(q)
    ensures Undisturbed(q)
  {
    RemovedFacts(q);
    LiveTestsStayLive(q);
    SurvivorsAreNotDisturbed(q);
    SecondQueryReportsNothing(q);
  }

  /** A reported node is exercised by nothing that is left. */
  lemma ReportedIsNotExercised(q: Query, t: nat, x: int)
    requires q.Valid() && t < |q.nodes| && x in q.BlastRadius() && t !in q.BlastRadius()
    ensures Removed(q).Valid() && x !in Removed(q).Exercises(t)
  {
    var r := Removed(q);
    RemovedFacts(q);
    hide q.BlastRadius, Removed, Closure;
    ClosureIsLeast(r.ExerciseArcs(), {t}, Range(|q.nodes|) - q.BlastRadius());
  }

  /** One graph: it is undisturbed exactly when no live test exercises anything
      that is reported. */
  lemma UndisturbedIff(q: Query)
    requires q.Valid() && q.testcaseFlag <= q.testSeedFlags
    ensures Undisturbed(q) <==> LiveTestsUntouched(q)
  {
    if LiveTestsUntouched(q) {
      RemovableIsUndisturbed(q);
    } else {
      var t: nat, x :| t < |q.nodes| && q.IsTest(t) && q.TouchesLive(t) && x in q.Exercises(t) && x in q.BlastRadius();
      RemovedFacts(q);
      if t !in q.BlastRadius() {
        ReportedIsNotExercised(q, t, x);
      }
    }
  }

  /** All graphs over some nodes: removal disturbs none of them exactly when the
      nodes and their flags leave no room for a shadow, so for one whenever every
      test is a seed. */
  lemma RemovalIsSafeIff(q: Query)
    requires q.testcaseFlag <= q.testSeedFlags
    ensures (forall edges :: EdgesWithin(edges, |q.nodes|) ==> Undisturbed(Over(q, edges))) <==> !HasShadow(q)
    ensures !HasUnseededTest(q) ==> !HasShadow(q)
  {
    hide Undisturbed;
    if u, d, y, p0, p :| IsShadow(q, u, d, y, p0, p) {
      var g := Over(q, ShadowEdges(u, d, y, p0, p));
      ShadowFalls(q, u, d, y, p0, p);
      UndisturbedIff(g);
      assert g.IsTest(u);
      assert !LiveTestsUntouched(g);
    } else {
      forall edges | EdgesWithin(edges, |q.nodes|)
        ensures Undisturbed(Over(q, edges))
      {
        NothingIsTouched(q, edges);
        UndisturbedIff(Over(q, edges));
      }
    }
  }

  lemma NothingIsTouched(q: Query, edges: seq<Edge>)
    requires q.testcaseFlag <= q.testSeedFlags && EdgesWithin(edges, |q.nodes|) && !HasShadow(q)
    ensures LiveTestsUntouched(Over(q, edges))
  {
    var g := Over(q, edges);
    NoShadowFalls(q, edges);
    forall t: nat, x | t < |g.nodes| && g.IsTest(t) && g.TouchesLive(t) && x in g.Exercises(t)
      ensures x !in g.BlastRadius()
    {
      ReachIsExerciseAndModules(g, t);
    }
  }
}
