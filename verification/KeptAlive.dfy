/** What reachability answers mean, and the two "kept alive only by" queries. */
module KeptAlive {
  import opened Closures
  import opened Graph
  import opened GraphBuilder
  import opened Reachability

  const DEAD_BRANCH: bv8 := 1

  method KeptAliveByFlagsOnly(b: Builder, flags: NodeFlags, seedFlags: NodeFlags) returns (r: set<int>)
    requires b.Valid()
    ensures r == OnlyByFlags(b.nodes, b.edges, flags, seedFlags)
  {
    var seeds := SeedList(b.nodes, seedFlags);
    var full := Bfs(b, seeds, Forward, 0);
    var others := SeedList(b.nodes, seedFlags - flags);
    var without := Bfs(b, others, Forward, 0);
    assert Elements(seeds) == Seeds(b.nodes, seedFlags);
    assert Elements(others) == Seeds(b.nodes, seedFlags - flags);
    r := full - without;
  }

  method KeptAliveByDeadBranches(b: Builder, seedFlags: NodeFlags) returns (r: set<int>)
    requires b.Valid()
    ensures r == OnlyByDeadBranches(b.nodes, b.edges, seedFlags)
  {
    var seeds := SeedList(b.nodes, seedFlags);
    var full := Bfs(b, seeds, Forward, 0);
    var strict := Bfs(b, seeds, Forward, DEAD_BRANCH);
    assert Elements(seeds) == Seeds(b.nodes, seedFlags);
    r := full - strict;
  }

  ghost function OnlyByFlags(nodes: seq<SymbolNode>, edges: seq<Edge>, flags: NodeFlags, seedFlags: NodeFlags): set<int> {
    Closure(Arcs(edges, 0), Seeds(nodes, seedFlags)) - Closure(Arcs(edges, 0), Seeds(nodes, seedFlags - flags))
  }

  ghost function OnlyByDeadBranches(nodes: seq<SymbolNode>, edges: seq<Edge>, seedFlags: NodeFlags): set<int> {
    Closure(Arcs(edges, 0), Seeds(nodes, seedFlags)) - Closure(Arcs(edges, 1), Seeds(nodes, seedFlags))
  }

  /** Kept alive only by dead branches: some path leads there from a seed, and
      every such path runs over an edge that is in a dead branch. */
  lemma OnlyByDeadBranchesMeans(nodes: seq<SymbolNode>, edges: seq<Edge>, seedFlags: NodeFlags, x: int)
    ensures x in OnlyByDeadBranches(nodes, edges, seedFlags) <==>
      && (exists p :: IsPath(Arcs(edges, 0), Seeds(nodes, seedFlags), p, x))
      && (forall p :: IsPath(Arcs(edges, 0), Seeds(nodes, seedFlags), p, x) ==>
            exists i :: 0 < i < |p| && (p[i - 1], p[i]) !in Arcs(edges, 1))
  {
    var seeds := Seeds(nodes, seedFlags);
    ClosureIsPaths(Arcs(edges, 0), seeds, x);
    ClosureIsPaths(Arcs(edges, 1), seeds, x);
    NothingSkipped(edges, 1);
    forall p | IsPath(Arcs(edges, 0), seeds, p, x)
      ensures (exists i :: 0 < i < |p| && (p[i - 1], p[i]) !in Arcs(edges, 1))
              || IsPath(Arcs(edges, 1), seeds, p, x)
    {
    }
    forall p | IsPath(Arcs(edges, 1), seeds, p, x)
      ensures IsPath(Arcs(edges, 0), seeds, p, x)
    {
    }
  }

  lemma NothingSkipped(edges: seq<Edge>, skip: bv8)
    ensures Arcs(edges, skip) <= Arcs(edges, 0)
  {
    forall e | e in edges
      ensures !Skipped(e.2, 0)
    {
      assert e.2 & 0 == 0;
    }
  }

  /** Skipping more kinds of edge never reaches more. */
  lemma SkippingMoreReachesLess(edges: seq<Edge>, skip: bv8, more: bv8, roots: set<int>)
    requires skip & more == skip
    ensures Closure(Arcs(edges, more), roots) <= Closure(Arcs(edges, skip), roots)
  {
    forall e | e in edges && !Skipped(e.2, more)
      ensures !Skipped(e.2, skip)
    {
      MoreBitsSkipMore(e.2, skip, more);
    }
    ClosureMonotone(Arcs(edges, more), Arcs(edges, skip), roots, roots);
  }

  lemma MoreBitsSkipMore(f: bv8, skip: bv8, more: bv8)
    requires skip & more == skip && f & more == 0
    ensures f & skip == 0
  {
  }

  /** Ancestors and descendants are each other's converse. */
  lemma DescendantIffAncestor(edges: seq<Edge>, skip: bv8, s: int, d: int)
    ensures d in Closure(Directed(edges, Forward, skip), {s}) <==> s in Closure(Directed(edges, Reverse, skip), {d})
  {
    ForwardBackward(Arcs(edges, skip), s, d);
  }

  // --------------------------------------------------- dropping seeds by flag

  /** The radius as the documentation puts it: dropping every seed that carries
      any of `flags`. */
  ghost function DroppingCarriers(nodes: seq<SymbolNode>, edges: seq<Edge>, flags: NodeFlags, seedFlags: NodeFlags): set<int> {
    Closure(Arcs(edges, 0), Seeds(nodes, seedFlags)) -
    Closure(Arcs(edges, 0), Seeds(nodes, seedFlags) - Seeds(nodes, flags))
  }

  /** A seed that carries one of `flags` and another seed bit besides. */
  ghost predicate SeedsTwice(nodes: seq<SymbolNode>, flags: NodeFlags, seedFlags: NodeFlags, i: int) {
    0 <= i < |nodes| && HasAny(nodes[i].flags, flags) && HasAny(nodes[i].flags, seedFlags - flags)
  }

  lemma SurvivingSeeds(nodes: seq<SymbolNode>, flags: NodeFlags, seedFlags: NodeFlags)
    ensures Seeds(nodes, seedFlags) - Seeds(nodes, flags) <= Seeds(nodes, seedFlags - flags)
    ensures (forall i :: !SeedsTwice(nodes, flags, seedFlags, i)) ==>
      Seeds(nodes, seedFlags) - Seeds(nodes, flags) == Seeds(nodes, seedFlags - flags)
  {
    forall i: nat | i < |nodes|
      ensures HasAny(nodes[i].flags, seedFlags) && !HasAny(nodes[i].flags, flags) ==> HasAny(nodes[i].flags, seedFlags - flags)
      ensures HasAny(nodes[i].flags, seedFlags - flags) ==> HasAny(nodes[i].flags, seedFlags)
    {
      var f := nodes[i].flags;
      if HasAny(f, seedFlags) && !HasAny(f, flags) {
        var bit :| bit in f * seedFlags;
        assert bit !in f * flags;
        assert bit in f * (seedFlags - flags);
      }
      if HasAny(f, seedFlags - flags) {
        var bit :| bit in f * (seedFlags - flags);
        assert bit in f * seedFlags;
      }
    }
    if forall i :: !SeedsTwice(nodes, flags, seedFlags, i) {
      forall i | i in Seeds(nodes, seedFlags - flags)
        ensures i in Seeds(nodes, seedFlags) - Seeds(nodes, flags)
      {
        assert !SeedsTwice(nodes, flags, seedFlags, i);
      }
    }
  }

  /** The query masks seed bits away, so a node seeded by another bit as well
      stays a seed. It agrees with dropping every carrier, whatever the edges,
      exactly when no node is seeded twice. */
  lemma MaskingIsDroppingIff(nodes: seq<SymbolNode>, flags: NodeFlags, seedFlags: NodeFlags)
    ensures (forall edges :: OnlyByFlags(nodes, edges, flags, seedFlags) == DroppingCarriers(nodes, edges, flags, seedFlags))
            <==> forall i :: !SeedsTwice(nodes, flags, seedFlags, i)
  {
    SurvivingSeeds(nodes, flags, seedFlags);
    if i :| SeedsTwice(nodes, flags, seedFlags, i) {
      var bit :| bit in nodes[i].flags * (seedFlags - flags);
      assert bit in nodes[i].flags * seedFlags;
      ClosureIsClosed(Arcs([], 0), Seeds(nodes, seedFlags));
      ClosureIsClosed(Arcs([], 0), Seeds(nodes, seedFlags - flags));
      ClosureIsLeast(Arcs([], 0), Seeds(nodes, seedFlags) - Seeds(nodes, flags), Seeds(nodes, seedFlags) - Seeds(nodes, flags));
      assert i in Seeds(nodes, seedFlags) && i in Seeds(nodes, seedFlags - flags) && i in Seeds(nodes, flags);
      assert i in DroppingCarriers(nodes, [], flags, seedFlags) && i !in OnlyByFlags(nodes, [], flags, seedFlags);
    }
  }
}
