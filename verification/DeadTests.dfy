/** The dead-tests query: which tests exercise nothing that production code or
    a surviving test exercises, and what only those tests keep reachable. */
module DeadTests {
  import opened Closures
  import opened Graph

  /** One call's arguments. */
  datatype Query = Query(
    nodes: seq<SymbolNode>, edges: seq<Edge>,
    seedFlags: NodeFlags, testcaseFlag: NodeFlags, testSeedFlags: NodeFlags)
  {
    predicate Valid() {
      EdgesWithin(edges, |nodes|)
    }

    predicate IsCode(i: nat) requires i < |nodes| {
      nodes[i].kind in {Function, Class, Variable, TypeAlias}
    }

    predicate IsModule(i: nat) requires i < |nodes| {
      nodes[i].kind == Module
    }

    predicate IsTest(i: nat) requires i < |nodes| {
      HasAny(nodes[i].flags, testcaseFlag)
    }

    predicate IsSeed(i: nat) requires i < |nodes| {
      HasAny(nodes[i].flags, seedFlags)
    }

    predicate IsProductionSeed(i: nat) requires i < |nodes| {
      IsSeed(i) && !HasAny(nodes[i].flags, testSeedFlags)
    }

    ghost function AllSeeds(): set<int> {
      set i: nat | i < |nodes| && IsSeed(i)
    }

    ghost function ProductionSeeds(): set<int> {
      set i: nat | i < |nodes| && IsProductionSeed(i)
    }

    /** Everything a set of seeds reaches, modules included. */
    ghost function Reached(seeds: set<int>): set<int> {
      Closure(Arcs(edges, 0), seeds)
    }

    /** Arcs a per-test walk may take: a module never expands. */
    ghost function ExerciseArcs(): Rel
      requires Valid()
    {
      set e | e in edges && !IsModule(e.0) :: (e.0, e.1)
    }

    ghost function Exercises(i: nat): set<int>
      requires Valid()
    {
      Closure(ExerciseArcs(), {i})
    }

    ghost predicate Meets(i: nat, code: set<int>)
      requires Valid()
    {
      exists y :: y in Exercises(i) && y in code
    }

    /** `code` holds the code production reaches and, with every test whose
        exercised nodes meet it, all the code that test exercises. */
    ghost predicate LiveClosed(code: set<int>)
      requires Valid()
    {
      && (forall i: nat :: i < |nodes| && IsCode(i) && i in Reached(ProductionSeeds()) ==> i in code)
      && (forall t: nat, y: nat ::
            t < |nodes| && IsTest(t) && Meets(t, code) && y < |nodes| && IsCode(y) && y in Exercises(t)
            ==> y in code)
    }

    ghost predicate LiveForced(i: nat)
      requires Valid()
    {
      forall code: set<int> :: LiveClosed(code) ==> i in code
    }

    /** The least such set: live code. */
    ghost function LiveCode(): set<int>
      requires Valid()
    {
      set i: nat | i < |nodes| && LiveForced(i)
    }

    ghost predicate TouchesLive(i: nat)
      requires Valid()
    {
      Meets(i, LiveCode())
    }

    ghost function DeadTestSet(): set<int>
      requires Valid()
    {
      set t: nat | t < |nodes| && IsTest(t) && !TouchesLive(t)
    }

    /** What the query answers: reached by the seeds, lost without the dead tests. */
    ghost function BlastRadius(): set<int>
      requires Valid()
    {
      Reached(AllSeeds()) - Reached(AllSeeds() - DeadTestSet())
    }
  }

  lemma ExercisesInRange(q: Query, i: nat)
    requires q.Valid() && i < |q.nodes|
    ensures i in q.Exercises(i) && q.Exercises(i) <= Range(|q.nodes|)
    ensures Closed(q.ExerciseArcs(), q.Exercises(i))
  {
    ClosureIsClosed(q.ExerciseArcs(), {i});
    ClosureIsLeast(q.ExerciseArcs(), {i}, Range(|q.nodes|));
    assert i in {i};
  }

  /** Live code is itself closed, so it is the least fixpoint. */
  lemma LiveCodeIsLeast(q: Query)
    requires q.Valid()
    ensures q.LiveClosed(q.LiveCode())
    ensures forall code :: q.LiveClosed(code) ==> q.LiveCode() <= code
    ensures forall i :: i in q.LiveCode() ==> q.IsCode(i)
  {
    forall code | q.LiveClosed(code)
      ensures q.LiveCode() <= code
    {
      forall i | i in q.LiveCode()
        ensures i in code
      {
        assert q.LiveForced(i);
      }
    }
    forall t: nat, y: nat | t < |q.nodes| && q.IsTest(t) && q.Meets(t, q.LiveCode())
        && y < |q.nodes| && q.IsCode(y) && y in q.Exercises(t)
      ensures y in q.LiveCode()
    {
      forall code: set<int> | q.LiveClosed(code)
        ensures y in code
      {
        assert q.LiveCode() <= code;
        assert q.Meets(t, code);
      }
    }
    var codeOnly := set i: nat | i < |q.nodes| && q.IsCode(i);
    assert q.LiveClosed(codeOnly);
  }

  /** A node's exercised set meets `live` only if the node is in `live`, once
      `live` has taken in the non-module predecessors of its members. */
  lemma MeetsOnlyFromInside(q: Query, live: set<int>, i: nat)
    requires q.Valid() && i < |q.nodes| && i !in live
    requires forall e :: e in q.ExerciseArcs() && e.1 in live ==> e.0 in live
    ensures !q.Meets(i, live)
  {
    var outside := Range(|q.nodes|) - live;
    ClosureIsLeast(q.ExerciseArcs(), {i}, outside);
  }

  lemma PredecessorTouchesLive(q: Query, p: nat, x: nat)
    requires q.Valid() && p < |q.nodes| && (p, x) in q.ExerciseArcs() && q.TouchesLive(x)
    ensures q.TouchesLive(p)
  {
    ExercisesInRange(q, p);
    ClosureTransitive(q.ExerciseArcs(), {p}, x);
  }

  // ------------------------------------------------------- the shared worklist

  /** A node some live test exercises. */
  ghost predicate ExercisedByLive(q: Query, y: int)
    requires q.Valid()
  {
    exists t: nat :: t < |q.nodes| && q.IsTest(t) && q.TouchesLive(t) && y in q.Exercises(t)
  }

  /** The backward walk: what must become live is live or pending, and nothing
      else is. */
  ghost predicate BackwardKept(q: Query, live: set<int>, pending: set<int>)
    requires q.Valid()
  {
    && live <= Range(|q.nodes|) && pending <= Range(|q.nodes|)
    && (forall i: nat :: i < |q.nodes| && q.IsCode(i) && i in q.Reached(q.ProductionSeeds())
          ==> i in live || i in pending)
    && (forall e :: e in q.ExerciseArcs() && e.1 in live ==> e.0 in live || e.0 in pending)
    && (forall i :: i in live ==> q.TouchesLive(i))
    && (forall i :: i in pending ==> q.TouchesLive(i))
  }

  /** The forward walk: it starts at every live test and follows every arc. */
  ghost predicate ForwardKept(q: Query, live: set<int>, exercised: set<int>, frontier: set<int>)
    requires q.Valid()
  {
    && exercised <= Range(|q.nodes|) && frontier <= Range(|q.nodes|)
    && (forall t :: t in live && 0 <= t < |q.nodes| && q.IsTest(t) ==> t in exercised || t in frontier)
    && (forall e :: e in q.ExerciseArcs() && e.0 in exercised ==> e.1 in exercised || e.1 in frontier)
    && (forall y :: y in frontier ==> ExercisedByLive(q, y))
  }

  /** Code the forward walk met has been handed to the backward walk. */
  ghost predicate HandedOver(q: Query, live: set<int>, exercised: set<int>, pending: set<int>) {
    forall y :: y in exercised && 0 <= y < |q.nodes| && q.IsCode(y) ==> y in live || y in pending
  }

  /** The state of the two interleaved walks: `pending` is what the backward
      walk filling `live` still has to visit, `frontier` what the forward walk
      filling `exercised` has. */
  ghost predicate Working(q: Query, live: set<int>, exercised: set<int>, pending: set<int>, frontier: set<int>)
    requires q.Valid()
  {
    && BackwardKept(q, live, pending)
    && ForwardKept(q, live, exercised, frontier)
    && HandedOver(q, live, exercised, pending)
  }

  lemma LiveCodeTouchesItself(q: Query, i: nat)
    requires q.Valid() && i < |q.nodes| && i in q.LiveCode()
    ensures q.TouchesLive(i)
  {
    ExercisesInRange(q, i);
  }

  lemma WorkStarts(q: Query, pending: set<int>)
    requires q.Valid()
    requires forall i: int :: i in pending <==>
               0 <= i < |q.nodes| && q.IsCode(i) && i in q.Reached(q.ProductionSeeds())
    ensures Working(q, {}, {}, pending, {})
  {
    LiveCodeIsLeast(q);
    forall i | i in pending
      ensures q.TouchesLive(i)
    {
      LiveCodeTouchesItself(q, i);
    }
  }

  lemma LiveTestExercisesItself(q: Query, t: nat)
    requires q.Valid() && t < |q.nodes| && q.IsTest(t) && q.TouchesLive(t)
    ensures ExercisedByLive(q, t)
  {
    ExercisesInRange(q, t);
  }

  lemma BackwardMarksLive(q: Query, live: set<int>, rest: set<int>, idx: int, preds: set<int>)
    requires q.Valid() && BackwardKept(q, live, rest + {idx}) && preds <= Range(|q.nodes|)
    requires forall p :: p in preds <==> (p, idx) in q.ExerciseArcs()
    ensures BackwardKept(q, live + {idx}, rest + preds) && q.TouchesLive(idx)
  {
    hide q.ExerciseArcs, q.Reached, q.ProductionSeeds, q.TouchesLive, HasAny, q.IsCode;
    assert idx in rest + {idx};
    forall p | p in preds
      ensures q.TouchesLive(p)
    {
      PredecessorTouchesLive(q, p, idx);
    }
  }

  lemma ForwardMarksLive(q: Query, live: set<int>, exercised: set<int>, idx: int, frontier: set<int>)
    requires q.Valid() && 0 <= idx < |q.nodes| && ForwardKept(q, live, exercised, {}) && q.TouchesLive(idx)
    requires frontier == if q.IsTest(idx) then {idx} else {}
    ensures ForwardKept(q, live + {idx}, exercised, frontier)
  {
    hide q.ExerciseArcs, q.TouchesLive, HasAny, ExercisedByLive;
    if q.IsTest(idx) {
      LiveTestExercisesItself(q, idx);
    }
  }

  lemma WorkMarksLive(q: Query, live: set<int>, exercised: set<int>, rest: set<int>, idx: int,
                      preds: set<int>, frontier: set<int>)
    requires q.Valid() && 0 <= idx < |q.nodes| && Working(q, live, exercised, rest + {idx}, {})
    requires preds <= Range(|q.nodes|)
    requires forall p :: p in preds <==> (p, idx) in q.ExerciseArcs()
    requires frontier == if q.IsTest(idx) then {idx} else {}
    ensures Working(q, live + {idx}, exercised, rest + preds, frontier)
  {
    hide BackwardKept, ForwardKept, q.ExerciseArcs, HasAny, q.IsCode, q.TouchesLive;
    BackwardMarksLive(q, live, rest, idx, preds);
    ForwardMarksLive(q, live, exercised, idx, frontier);
  }

  lemma ExercisedCodeIsLive(q: Query, y: nat)
    requires q.Valid() && y < |q.nodes| && ExercisedByLive(q, y) && q.IsCode(y)
    ensures q.TouchesLive(y)
  {
    LiveCodeIsLeast(q);
    LiveCodeTouchesItself(q, y);
  }

  lemma ExercisedStep(q: Query, y: nat, d: int)
    requires q.Valid() && y < |q.nodes| && ExercisedByLive(q, y) && (y, d) in q.ExerciseArcs()
    ensures ExercisedByLive(q, d)
  {
    var t: nat :| t < |q.nodes| && q.IsTest(t) && q.TouchesLive(t) && y in q.Exercises(t);
    ExercisesInRange(q, t);
  }

  lemma BackwardTakesCode(q: Query, live: set<int>, pending: set<int>, newCode: set<int>)
    requires q.Valid() && BackwardKept(q, live, pending) && newCode <= Range(|q.nodes|)
    requires forall y :: y in newCode ==> q.TouchesLive(y)
    ensures BackwardKept(q, live, pending + newCode)
  {
    hide q.ExerciseArcs, q.Reached, q.ProductionSeeds, q.TouchesLive, HasAny, q.IsCode;
  }

  lemma ForwardExercises(q: Query, live: set<int>, exercised: set<int>, rest: set<int>, cur: int, more: set<int>)
    requires q.Valid() && 0 <= cur < |q.nodes| && ForwardKept(q, live, exercised, rest + {cur})
    requires more <= Range(|q.nodes|)
    requires forall d :: d in more <==> (cur, d) in q.ExerciseArcs()
    ensures ForwardKept(q, live, exercised + {cur}, rest + more) && ExercisedByLive(q, cur)
  {
    hide ExercisedByLive, q.ExerciseArcs, HasAny;
    assert cur in rest + {cur};
    forall d | d in more
      ensures ExercisedByLive(q, d)
    {
      ExercisedStep(q, cur, d);
    }
  }

  lemma WorkExercises(q: Query, live: set<int>, exercised: set<int>, pending: set<int>, rest: set<int>, cur: int,
                      newCode: set<int>, more: set<int>)
    requires q.Valid() && 0 <= cur < |q.nodes| && Working(q, live, exercised, pending, rest + {cur})
    requires newCode == if cur !in live && q.IsCode(cur) then {cur} else {}
    requires more <= Range(|q.nodes|)
    requires forall d :: d in more <==> (cur, d) in q.ExerciseArcs()
    ensures Working(q, live, exercised + {cur}, pending + newCode, rest + more)
  {
    hide BackwardKept, ForwardKept, ExercisedByLive, q.TouchesLive, q.ExerciseArcs, q.IsCode;
    ForwardExercises(q, live, exercised, rest, cur, more);
    if q.IsCode(cur) {
      ExercisedCodeIsLive(q, cur);
    }
    BackwardTakesCode(q, live, pending, newCode);
  }

  /** What the finished worklist leaves behind is the fixpoint. */
  lemma WorkEnds(q: Query, live: set<int>, exercised: set<int>)
    requires q.Valid() && Working(q, live, exercised, {}, {})
    ensures live == set i: int | 0 <= i < |q.nodes| && q.TouchesLive(i)
  {
    var code := set i | i in live && q.IsCode(i);
    forall t: nat, y: nat | t < |q.nodes| && q.IsTest(t) && q.Meets(t, code)
        && y < |q.nodes| && q.IsCode(y) && y in q.Exercises(t)
      ensures y in code
    {
      assert q.Meets(t, live);
      if t !in live {
        MeetsOnlyFromInside(q, live, t);
      }
      ClosureIsLeast(q.ExerciseArcs(), {t}, exercised);
    }
    LiveCodeIsLeast(q);
    assert q.LiveClosed(code);
    forall i: nat | i < |q.nodes| && q.TouchesLive(i)
      ensures i in live
    {
      assert q.Meets(i, live);
      if i !in live {
        MeetsOnlyFromInside(q, live, i);
      }
    }
  }

  // ---------------------------------------------------------------- adjacency

  function Heads(entries: seq<(int, bv8)>): (r: seq<int>)
    ensures |r| == |entries| && forall k :: 0 <= k < |r| ==> r[k] == entries[k].0
  {
    seq(|entries|, k requires 0 <= k < |entries| => entries[k].0)
  }

  /** Total number of entries in the rows of `adj` picked out by `rows`. */
  ghost function Weight(adj: seq<seq<int>>, rows: set<int>, n: nat): nat
    requires n <= |adj|
  {
    if n == 0 then 0 else
      Weight(adj, rows, n - 1) + (if n - 1 in rows then |adj[n - 1]| else 0)
  }

  lemma {:induction false} WeightAdd(adj: seq<seq<int>>, rows: set<int>, x: nat, n: nat)
    requires x !in rows && n <= |adj|
    ensures Weight(adj, rows + {x}, n) == Weight(adj, rows, n) + (if x < n then |adj[x]| else 0)
  {
    if n > 0 {
      WeightAdd(adj, rows, x, n - 1);
    }
  }

  lemma {:induction false} WeightMonotone(adj: seq<seq<int>>, rows: set<int>, rows': set<int>, n: nat)
    requires rows <= rows' && n <= |adj|
    ensures Weight(adj, rows, n) <= Weight(adj, rows', n)
  {
    if n > 0 {
      WeightMonotone(adj, rows, rows', n - 1);
    }
  }

  /** One more entry in one row adds one to the total. */
  lemma {:induction false} WeightPush(adj: seq<seq<int>>, x: nat, v: int, rows: set<int>, n: nat)
    requires x < |adj| && n <= |adj| && x in rows
    ensures Weight(adj[x := adj[x] + [v]], rows, n) == Weight(adj, rows, n) + (if x < n then 1 else 0)
  {
    if n > 0 {
      WeightPush(adj, x, v, rows, n - 1);
    }
  }

  lemma {:induction false} WeightOfEmptyRows(adj: seq<seq<int>>, rows: set<int>, n: nat)
    requires n <= |adj| && forall i :: 0 <= i < |adj| ==> adj[i] == []
    ensures Weight(adj, rows, n) == 0
  {
    if n > 0 {
      WeightOfEmptyRows(adj, rows, n - 1);
    }
  }

  /** The rows `out` and `incoming` list the first `k` edges' endpoints. */
  ghost predicate Listed(n: nat, edges: seq<Edge>, k: nat, out: seq<seq<int>>, incoming: seq<seq<int>>)
    requires k <= |edges|
  {
    ListedOut(n, edges[..k], out) && ListedIncoming(n, edges[..k], incoming)
  }

  ghost predicate ListedOut(n: nat, edges: seq<Edge>, out: seq<seq<int>>) {
    && |out| == n
    && (forall i :: 0 <= i < n ==> out[i] == Heads(Outgoing(edges, i)))
    && Weight(out, Range(n), n) == |edges|
  }

  ghost predicate ListedIncoming(n: nat, edges: seq<Edge>, incoming: seq<seq<int>>) {
    && |incoming| == n
    && (forall i :: 0 <= i < n ==> incoming[i] == Heads(Incoming(edges, i)))
    && Weight(incoming, Range(n), n) == |edges|
  }

  lemma ListedStart(n: nat, edges: seq<Edge>)
    ensures Listed(n, edges, 0, seq(n, _ => []), seq(n, _ => []))
  {
    WeightOfEmptyRows(seq(n, _ => []), Range(n), n);
  }

  lemma ListOneOut(n: nat, edges: seq<Edge>, e: Edge, out: seq<seq<int>>)
    requires ListedOut(n, edges, out) && 0 <= e.0 < n
    ensures ListedOut(n, edges + [e], out[e.0 := out[e.0] + [e.1]])
  {
    assert (edges + [e])[..|edges|] == edges;
    WeightPush(out, e.0, e.1, Range(n), n);
  }

  lemma ListOneIncoming(n: nat, edges: seq<Edge>, e: Edge, incoming: seq<seq<int>>)
    requires ListedIncoming(n, edges, incoming) && 0 <= e.1 < n
    ensures ListedIncoming(n, edges + [e], incoming[e.1 := incoming[e.1] + [e.0]])
  {
    assert (edges + [e])[..|edges|] == edges;
    WeightPush(incoming, e.1, e.0, Range(n), n);
  }

  lemma ListOne(n: nat, edges: seq<Edge>, k: nat, out: seq<seq<int>>, incoming: seq<seq<int>>)
    requires EdgesWithin(edges, n) && k < |edges| && Listed(n, edges, k, out, incoming)
    requires |out| == |incoming| == n
    ensures 0 <= edges[k].0 < n && 0 <= edges[k].1 < n
    ensures Listed(n, edges, k + 1, out[edges[k].0 := out[edges[k].0] + [edges[k].1]],
                   incoming[edges[k].1 := incoming[edges[k].1] + [edges[k].0]])
  {
    hide ListedOut, ListedIncoming;
    assert edges[k] in edges;
    assert edges[..k + 1] == edges[..k] + [edges[k]];
    ListOneOut(n, edges[..k], edges[k], out);
    ListOneIncoming(n, edges[..k], edges[k], incoming);
  }

  method BuildAdjacency(n: nat, edges: seq<Edge>) returns (out: seq<seq<int>>, incoming: seq<seq<int>>)
    requires EdgesWithin(edges, n)
    ensures Listed(n, edges, |edges|, out, incoming)
  {
    hide Listed;
    out, incoming := seq(n, _ => []), seq(n, _ => []);
    ListedStart(n, edges);
    for k := 0 to |edges|
      invariant |out| == n && |incoming| == n
      invariant Listed(n, edges, k, out, incoming)
    {
      var (src, dst, _) := edges[k];
      ListOne(n, edges, k, out, incoming);
      out := out[src := out[src] + [dst]];
      incoming := incoming[dst := incoming[dst] + [src]];
    }
  }

  lemma ListedIsAdjacency(q: Query, out: seq<seq<int>>, incoming: seq<seq<int>>)
    requires Listed(|q.nodes|, q.edges, |q.edges|, out, incoming)
    ensures IsAdjacency(q, out, incoming)
    ensures Weight(out, Range(|q.nodes|), |q.nodes|) == |q.edges|
    ensures Weight(incoming, Range(|q.nodes|), |q.nodes|) == |q.edges|
  {
    assert q.edges[..|q.edges|] == q.edges;
  }

  lemma HeadsOutgoing(edges: seq<Edge>, i: int, d: int)
    ensures d in Heads(Outgoing(edges, i)) <==> exists e :: e in edges && e.0 == i && e.1 == d
  {
    var entries := Outgoing(edges, i);
    if d in Heads(entries) {
      var k :| 0 <= k < |entries| && Heads(entries)[k] == d;
      OutgoingMembers(edges, i, entries[k]);
    }
    forall e | e in edges && e.0 == i && e.1 == d
      ensures d in Heads(entries)
    {
      OutgoingMembers(edges, i, (d, e.2));
      var k :| 0 <= k < |entries| && entries[k] == (d, e.2);
      assert Heads(entries)[k] == d;
    }
  }

  lemma HeadsIncoming(edges: seq<Edge>, i: int, s: int)
    ensures s in Heads(Incoming(edges, i)) <==> exists e :: e in edges && e.1 == i && e.0 == s
  {
    var entries := Incoming(edges, i);
    if s in Heads(entries) {
      var k :| 0 <= k < |entries| && Heads(entries)[k] == s;
      IncomingMembers(edges, i, entries[k]);
    }
    forall e | e in edges && e.1 == i && e.0 == s
      ensures s in Heads(entries)
    {
      IncomingMembers(edges, i, (s, e.2));
      var k :| 0 <= k < |entries| && entries[k] == (s, e.2);
      assert Heads(entries)[k] == s;
    }
  }

  // ------------------------------------------------------------ forward walks

  /** The arcs a walk over `out` follows when only `expand`ed nodes have any. */
  ghost function WalkArcs(out: seq<seq<int>>, expand: int -> bool): Rel {
    set i: nat, d | i < |out| && expand(i) && d in out[i] :: (i, d)
  }

  lemma RowArcs(out: seq<seq<int>>, expand: int -> bool, i: nat)
    requires i < |out|
    ensures forall d :: (i, d) in WalkArcs(out, expand) <==> expand(i) && d in out[i]
  {
  }

  method ForwardClosure(out: seq<seq<int>>, roots: seq<int>, expand: int -> bool) returns (seen: set<int>)
    requires AllBelow(roots, |out|)
    requires forall i :: 0 <= i < |out| ==> AllBelow(out[i], |out|)
    ensures seen == Closure(WalkArcs(out, expand), Elements(roots))
  {
    hide Walking, Closure, WalkArcs;
    ghost var rel, rootSet := WalkArcs(out, expand), Elements(roots);
    WalkStarts(rel, rootSet, roots);
    seen := {};
    var stack := roots;
    while stack != []
      invariant seen <= Range(|out|) && AllBelow(stack, |out|)
      invariant Walking(rel, rootSet, seen, stack)
      decreases Range(|out|) - seen, |stack|
    {
      var idx, rest := stack[|stack| - 1], stack[..|stack| - 1];
      assert stack == rest + [idx];
      stack := rest;
      if idx in seen {
        WalkSkips(rel, rootSet, seen, rest, idx);
      } else {
        var more := if expand(idx) then out[idx] else [];
        RowArcs(out, expand, idx);
        WalkExpands(rel, rootSet, seen, rest, idx, more);
        seen := seen + {idx};
        stack := stack + more;
      }
    }
    WalkEnds(rel, rootSet, seen, stack);
  }

  lemma WalkArcsAreArcs(q: Query, out: seq<seq<int>>)
    requires q.Valid() && |out| == |q.nodes|
    requires forall i :: 0 <= i < |out| ==> out[i] == Heads(Outgoing(q.edges, i))
    ensures forall i :: 0 <= i < |out| ==> AllBelow(out[i], |out|)
    ensures WalkArcs(out, _ => true) == Arcs(q.edges, 0)
  {
    forall i: nat, d | i < |out|
      ensures d in out[i] <==> exists e :: e in q.edges && e.0 == i && e.1 == d
    {
      HeadsOutgoing(q.edges, i, d);
    }
    forall i, k | 0 <= i < |out| && 0 <= k < |out[i]|
      ensures 0 <= out[i][k] < |out|
    {
      assert out[i][k] in out[i];
      HeadsOutgoing(q.edges, i, out[i][k]);
    }
    forall e | e in q.edges
      ensures !Skipped(e.2, 0)
    {
      assert e.2 & 0 == 0;
    }
  }

  // --------------------------------------------------------------- the query

  /** The non-module entries of a predecessor list, in order. */
  function WithoutModules(q: Query, preds: seq<int>): (r: seq<int>)
    requires AllBelow(preds, |q.nodes|)
    ensures |r| <= |preds| && AllBelow(r, |q.nodes|)
    ensures forall p :: p in r <==> p in preds && 0 <= p < |q.nodes| && !q.IsModule(p)
  {
    if preds == [] then [] else
      var last := preds[|preds| - 1];
      WithoutModules(q, preds[..|preds| - 1]) + (if q.IsModule(last) then [] else [last])
  }

  /** The code among `production`, in whatever order the set is visited. */
  method CodeAmong(q: Query, production: set<int>) returns (code: seq<int>)
    requires production <= Range(|q.nodes|)
    ensures |code| <= |production| && AllBelow(code, |q.nodes|)
    ensures forall i :: i in code <==> i in production && q.IsCode(i)
  {
    code := [];
    var rest := production;
    while rest != {}
      invariant rest <= production && |code| <= |production| - |rest| && AllBelow(code, |q.nodes|)
      invariant forall i :: i in code <==> i in production && i !in rest && q.IsCode(i)
      decreases rest
    {
      var i :| i in rest;
      rest := rest - {i};
      if q.IsCode(i) {
        code := code + [i];
      }
    }
  }

  lemma PredecessorArcs(q: Query, incoming: seq<seq<int>>, x: int)
    requires q.Valid() && |incoming| == |q.nodes| && 0 <= x < |q.nodes|
    requires incoming[x] == Heads(Incoming(q.edges, x))
    ensures AllBelow(incoming[x], |q.nodes|)
    ensures Elements(WithoutModules(q, incoming[x])) <= Range(|q.nodes|)
    ensures forall p :: p in Elements(WithoutModules(q, incoming[x])) <==> (p, x) in q.ExerciseArcs()
  {
    forall p: int
      ensures p in incoming[x] <==> exists e :: e in q.edges && e.1 == x && e.0 == p
    {
      HeadsIncoming(q.edges, x, p);
    }
    forall k | 0 <= k < |incoming[x]|
      ensures 0 <= incoming[x][k] < |q.nodes|
    {
      assert incoming[x][k] in incoming[x];
    }
  }

  /** What a forward walk pushes after `x`: nothing when `x` is a module. */
  function Expansion(q: Query, out: seq<seq<int>>, x: int): seq<int>
    requires |out| == |q.nodes| && 0 <= x < |q.nodes|
  {
    if q.IsModule(x) then [] else out[x]
  }

  lemma SuccessorArcs(q: Query, out: seq<seq<int>>, x: int)
    requires q.Valid() && |out| == |q.nodes| && 0 <= x < |q.nodes|
    requires out[x] == Heads(Outgoing(q.edges, x))
    ensures Elements(Expansion(q, out, x)) <= Range(|q.nodes|)
    ensures forall d :: d in Elements(Expansion(q, out, x)) <==> (x, d) in q.ExerciseArcs()
  {
    forall d: int
      ensures d in out[x] <==> exists e :: e in q.edges && e.0 == x && e.1 == d
    {
      HeadsOutgoing(q.edges, x, d);
    }
    forall k | 0 <= k < |out[x]|
      ensures 0 <= out[x][k] < |q.nodes|
    {
      assert out[x][k] in out[x];
    }
  }

  /** The walks have popped no more than what their pushes account for. */
  ghost predicate Paid(q: Query, out: seq<seq<int>>, incoming: seq<seq<int>>, live: set<int>,
                       exercised: set<int>, stack: nat, forward: nat, outer: int, inner: int)
    requires |out| == |incoming| == |q.nodes|
  {
    var n := |q.nodes|;
    && outer + stack <= n + Weight(incoming, live, n) + |exercised|
    && inner + forward <= |live| + Weight(out, exercised, n)
  }

  lemma PaidInFull(q: Query, out: seq<seq<int>>, incoming: seq<seq<int>>, live: set<int>,
                   exercised: set<int>, outer: int, inner: int)
    requires |out| == |incoming| == |q.nodes|
    requires live <= Range(|q.nodes|) && exercised <= Range(|q.nodes|)
    requires Weight(out, Range(|q.nodes|), |q.nodes|) == Weight(incoming, Range(|q.nodes|), |q.nodes|) == |q.edges|
    requires Paid(q, out, incoming, live, exercised, 0, 0, outer, inner)
    ensures outer + inner <= 3 * |q.nodes| + 2 * |q.edges|
  {
    var n := |q.nodes|;
    SizeOfRange(live, n);
    SizeOfRange(exercised, n);
    WeightMonotone(incoming, live, Range(n), n);
    WeightMonotone(out, exercised, Range(n), n);
  }

  ghost predicate IsAdjacency(q: Query, out: seq<seq<int>>, incoming: seq<seq<int>>) {
    && |out| == |incoming| == |q.nodes|
    && (forall i :: 0 <= i < |out| ==> out[i] == Heads(Outgoing(q.edges, i)))
    && (forall i :: 0 <= i < |out| ==> incoming[i] == Heads(Incoming(q.edges, i)))
  }

  lemma ElementsOfConcat(a: seq<int>, b: seq<int>)
    ensures Elements(a + b) == Elements(a) + Elements(b)
    ensures |b| == 1 ==> Elements(b) == {b[0]}
  {
  }

  /** Everything the loops keep, in one predicate. */
  ghost predicate Sound(q: Query, out: seq<seq<int>>, incoming: seq<seq<int>>, live: set<int>, exercised: set<int>,
                        stack: seq<int>, forward: seq<int>, outer: int, inner: int)
    requires q.Valid() && IsAdjacency(q, out, incoming)
  {
    Working(q, live, exercised, Elements(stack), Elements(forward))
    && Paid(q, out, incoming, live, exercised, |stack|, |forward|, outer, inner)
  }

  lemma TopOf(s: seq<int>, n: nat)
    requires Elements(s) <= Range(n) && s != []
    ensures 0 <= s[|s| - 1] < n
    ensures s == s[..|s| - 1] + [s[|s| - 1]]
  {
    assert s[|s| - 1] in Elements(s);
  }

  lemma SoundInRange(q: Query, out: seq<seq<int>>, incoming: seq<seq<int>>, live: set<int>, exercised: set<int>,
                     stack: seq<int>, forward: seq<int>, outer: int, inner: int)
    requires q.Valid() && IsAdjacency(q, out, incoming)
    requires Sound(q, out, incoming, live, exercised, stack, forward, outer, inner)
    ensures live <= Range(|q.nodes|) && exercised <= Range(|q.nodes|)
    ensures Elements(stack) <= Range(|q.nodes|) && Elements(forward) <= Range(|q.nodes|)
  {
  }

  lemma SkipForward(q: Query, out: seq<seq<int>>, incoming: seq<seq<int>>, live: set<int>, exercised: set<int>,
                    stack: seq<int>, rest: seq<int>, cur: int, outer: int, inner: int)
    requires q.Valid() && IsAdjacency(q, out, incoming) && cur in exercised
    requires Sound(q, out, incoming, live, exercised, stack, rest + [cur], outer, inner)
    ensures Sound(q, out, incoming, live, exercised, stack, rest, outer, inner + 1)
  {
    ElementsOfConcat(rest, [cur]);
  }

  function NewCode(q: Query, live: set<int>, cur: int): seq<int>
    requires 0 <= cur < |q.nodes|
  {
    if cur !in live && q.IsCode(cur) then [cur] else []
  }

  lemma TakeForward(q: Query, out: seq<seq<int>>, incoming: seq<seq<int>>, live: set<int>, exercised: set<int>,
                    stack: seq<int>, rest: seq<int>, cur: int, outer: int, inner: int)
    requires q.Valid() && IsAdjacency(q, out, incoming) && 0 <= cur < |q.nodes| && cur !in exercised
    requires Sound(q, out, incoming, live, exercised, stack, rest + [cur], outer, inner)
    ensures Sound(q, out, incoming, live, exercised + {cur}, stack + NewCode(q, live, cur),
                  rest + Expansion(q, out, cur), outer, inner + 1)
  {
    hide Working, q.ExerciseArcs, HasAny, q.IsCode, q.IsTest, Range, Closure, Expansion;
    var newCode, more := NewCode(q, live, cur), Expansion(q, out, cur);
    SuccessorArcs(q, out, cur);
    ElementsOfConcat(rest, [cur]);
    ElementsOfConcat(rest, more);
    ElementsOfConcat(stack, newCode);
    WorkExercises(q, live, exercised, Elements(stack), Elements(rest), cur, Elements(newCode), Elements(more));
    ExpansionSize(q, out, cur);
    WeightAdd(out, exercised, cur, |q.nodes|);
  }

  lemma ExpansionSize(q: Query, out: seq<seq<int>>, x: int)
    requires |out| == |q.nodes| && 0 <= x < |q.nodes|
    ensures |Expansion(q, out, x)| <= |out[x]|
  {
  }

  lemma SkipBackward(q: Query, out: seq<seq<int>>, incoming: seq<seq<int>>, live: set<int>, exercised: set<int>,
                     rest: seq<int>, idx: int, outer: int, inner: int)
    requires q.Valid() && IsAdjacency(q, out, incoming) && idx in live
    requires Sound(q, out, incoming, live, exercised, rest + [idx], [], outer, inner)
    ensures Sound(q, out, incoming, live, exercised, rest, [], outer + 1, inner)
  {
    ElementsOfConcat(rest, [idx]);
  }

  lemma TakeBackward(q: Query, out: seq<seq<int>>, incoming: seq<seq<int>>, live: set<int>, exercised: set<int>,
                     rest: seq<int>, idx: int, outer: int, inner: int)
    requires q.Valid() && IsAdjacency(q, out, incoming) && 0 <= idx < |q.nodes| && idx !in live
    requires Sound(q, out, incoming, live, exercised, rest + [idx], [], outer, inner)
    ensures AllBelow(incoming[idx], |q.nodes|)
    ensures Sound(q, out, incoming, live + {idx}, exercised, rest + WithoutModules(q, incoming[idx]),
                  if q.IsTest(idx) then [idx] else [], outer + 1, inner)
  {
    hide Working, q.ExerciseArcs, HasAny, q.IsCode, q.IsTest, Range, Closure;
    PredecessorArcs(q, incoming, idx);
    var preds, forward := WithoutModules(q, incoming[idx]), if q.IsTest(idx) then [idx] else [];
    ElementsOfConcat(rest, [idx]);
    ElementsOfConcat(rest, preds);
    assert Elements([]) == {} && Elements([idx]) == {idx};
    WorkMarksLive(q, live, exercised, Elements(rest), idx, Elements(preds), Elements(forward));
    WeightAdd(incoming, live, idx, |q.nodes|);
  }

  lemma SoundAtTheStart(q: Query, out: seq<seq<int>>, incoming: seq<seq<int>>, stack: seq<int>)
    requires q.Valid() && IsAdjacency(q, out, incoming) && |stack| <= |q.nodes|
    requires forall i: int :: i in stack <==>
               0 <= i < |q.nodes| && q.IsCode(i) && i in q.Reached(q.ProductionSeeds())
    ensures Sound(q, out, incoming, {}, {}, stack, [], 0, 0)
  {
    WorkStarts(q, Elements(stack));
    assert Elements([]) == {};
  }

  lemma SoundAtTheEnd(q: Query, out: seq<seq<int>>, incoming: seq<seq<int>>, live: set<int>, exercised: set<int>,
                      outer: int, inner: int)
    requires q.Valid() && IsAdjacency(q, out, incoming)
    requires Weight(out, Range(|q.nodes|), |q.nodes|) == Weight(incoming, Range(|q.nodes|), |q.nodes|) == |q.edges|
    requires Sound(q, out, incoming, live, exercised, [], [], outer, inner)
    ensures live == set i: int | 0 <= i < |q.nodes| && q.TouchesLive(i)
    ensures outer + inner <= 3 * |q.nodes| + 2 * |q.edges|
  {
    PaidInFull(q, out, incoming, live, exercised, outer, inner);
    WorkEnds(q, live, exercised);
  }

  /** The forward half: exercise everything `idx` leads to, handing newly met
      code to the backward walk's stack. */
  method Exercise(q: Query, out: seq<seq<int>>, ghost incoming: seq<seq<int>>, live: set<int>,
                  exercised0: set<int>, stack0: seq<int>, idx: int, ghost outer: int, ghost inner0: int)
    returns (exercised: set<int>, stack: seq<int>, ghost inner: int)
    requires q.Valid() && IsAdjacency(q, out, incoming)
    requires Sound(q, out, incoming, live, exercised0, stack0, [idx], outer, inner0)
    ensures Sound(q, out, incoming, live, exercised, stack, [], outer, inner)
  {
    hide Sound, Heads, NewCode, Expansion;
    exercised, stack, inner := exercised0, stack0, inner0;
    var forward := [idx];
    while forward != []
      invariant Sound(q, out, incoming, live, exercised, stack, forward, outer, inner)
      decreases Range(|q.nodes|) - exercised, |forward|
    {
      SoundInRange(q, out, incoming, live, exercised, stack, forward, outer, inner);
      TopOf(forward, |q.nodes|);
      var cur, rest := forward[|forward| - 1], forward[..|forward| - 1];
      if cur in exercised {
        SkipForward(q, out, incoming, live, exercised, stack, rest, cur, outer, inner);
        forward, inner := rest, inner + 1;
      } else {
        TakeForward(q, out, incoming, live, exercised, stack, rest, cur, outer, inner);
        exercised, inner := exercised + {cur}, inner + 1;
        stack := stack + NewCode(q, live, cur);
        forward := rest + Expansion(q, out, cur);
      }
    }
  }

  /** The worklist: a backward walk from production code that, on meeting a
      test, lets that test's exercised code join the roots. */
  method MarkLive(q: Query, out: seq<seq<int>>, incoming: seq<seq<int>>, productionCode: seq<int>)
    returns (live: set<int>, ghost pops: int)
    requires q.Valid() && IsAdjacency(q, out, incoming)
    requires Weight(out, Range(|q.nodes|), |q.nodes|) == Weight(incoming, Range(|q.nodes|), |q.nodes|) == |q.edges|
    requires AllBelow(productionCode, |q.nodes|) && |productionCode| <= |q.nodes|
    requires forall i: int :: i in productionCode <==>
               0 <= i < |q.nodes| && q.IsCode(i) && i in q.Reached(q.ProductionSeeds())
    ensures live == set i: int | 0 <= i < |q.nodes| && q.TouchesLive(i)
    ensures pops <= 3 * |q.nodes| + 2 * |q.edges|
  {
    live := {};
    var exercised := {};
    var stack := productionCode;
    ghost var outer, inner := 0, 0;
    SoundAtTheStart(q, out, incoming, stack);
    hide Sound, Heads, Weight, WithoutModules, q.TouchesLive, q.Reached, q.ProductionSeeds, q.IsCode, HasAny, Elements;
    while stack != []
      invariant Sound(q, out, incoming, live, exercised, stack, [], outer, inner)
      decreases Range(|q.nodes|) - live, |stack|
    {
      SoundInRange(q, out, incoming, live, exercised, stack, [], outer, inner);
      TopOf(stack, |q.nodes|);
      var idx, rest := stack[|stack| - 1], stack[..|stack| - 1];
      if idx in live {
        SkipBackward(q, out, incoming, live, exercised, rest, idx, outer, inner);
        stack, outer := rest, outer + 1;
      } else {
        TakeBackward(q, out, incoming, live, exercised, rest, idx, outer, inner);
        live, outer := live + {idx}, outer + 1;
        stack := rest + WithoutModules(q, incoming[idx]);
        if q.IsTest(idx) {
          exercised, stack, inner := Exercise(q, out, incoming, live, exercised, stack, idx, outer, inner);
        }
      }
    }
    SoundAtTheEnd(q, out, incoming, live, exercised, outer, inner);
    pops := outer + inner;
  }

  /** The indices below `|nodes|` satisfying a test, in increasing order. */
  function Select(n: nat, p: int -> bool): (r: seq<int>)
    ensures AllBelow(r, n) && forall i :: i in r <==> 0 <= i < n && p(i)
  {
    if n == 0 then [] else Select(n - 1, p) + (if p(n - 1) then [n - 1] else [])
  }

  /** The dead tests: testcases the worklist never marked live. */
  method FindDeadTests(q: Query, out: seq<seq<int>>, incoming: seq<seq<int>>)
    returns (deadTests: set<int>, ghost pops: int)
    requires q.Valid() && IsAdjacency(q, out, incoming)
    requires Weight(out, Range(|q.nodes|), |q.nodes|) == Weight(incoming, Range(|q.nodes|), |q.nodes|) == |q.edges|
    ensures deadTests == q.DeadTestSet()
    ensures pops <= 3 * |q.nodes| + 2 * |q.edges|
  {
    var n := |q.nodes|;
    WalkArcsAreArcs(q, out);
    ReachedInRange(q, q.ProductionSeeds());
    hide Arcs, Closure, WalkArcs, Weight, Heads, HasAny, q.IsCode, q.TouchesLive;
    var productionSeeds := Select(n, i => 0 <= i < n && q.IsProductionSeed(i));
    assert Elements(productionSeeds) == q.ProductionSeeds();
    var production := ForwardClosure(out, productionSeeds, _ => true);
    var productionCode := CodeAmong(q, production);
    SizeOfRange(production, n);
    var live;
    live, pops := MarkLive(q, out, incoming, productionCode);
    deadTests := set i | i in Range(n) && q.IsTest(i) && i !in live;
  }

  method DeadTestIndices(q: Query) returns (radius: set<int>, ghost pops: int)
    requires q.Valid()
    ensures radius == q.BlastRadius()
    ensures pops <= 3 * |q.nodes| + 2 * |q.edges|
  {
    var n := |q.nodes|;
    var out, incoming := BuildAdjacency(n, q.edges);
    ListedIsAdjacency(q, out, incoming);
    WalkArcsAreArcs(q, out);
    hide Arcs, Closure, WalkArcs, Weight, Heads, HasAny, q.DeadTestSet;
    var deadTests;
    deadTests, pops := FindDeadTests(q, out, incoming);
    if deadTests == {} {
      assert q.AllSeeds() - deadTests == q.AllSeeds();
      return {}, pops;
    }
    var seeds := Select(n, i => 0 <= i < n && q.IsSeed(i));
    assert Elements(seeds) == q.AllSeeds();
    var full := ForwardClosure(out, seeds, _ => true);
    var survivors := Select(n, i => i in seeds && i !in deadTests);
    assert Elements(survivors) == q.AllSeeds() - deadTests;
    var kept := ForwardClosure(out, survivors, _ => true);
    radius := full - kept;
  }

  lemma ReachedInRange(q: Query, seeds: set<int>)
    requires q.Valid() && seeds <= Range(|q.nodes|)
    ensures q.Reached(seeds) <= Range(|q.nodes|)
  {
    ClosureIsLeast(Arcs(q.edges, 0), seeds, Range(|q.nodes|));
  }
}
