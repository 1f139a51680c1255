/** The reachability queries: the builder's graph walk, the walk over a loaded
    graph, and the two "kept alive only by" differences. */
module Reachability {
  import opened Wrappers
  import opened Closures
  import opened Graph
  import opened Scatter
  import opened GraphBuilder

  datatype Direction = Forward | Reverse

  ghost function Directed(edges: seq<Edge>, direction: Direction, skip: bv8): Rel {
    if direction.Forward? then Arcs(edges, skip) else Inverse(Arcs(edges, skip))
  }

  /** `row` has an edge to `d` that is not skipped. */
  ghost predicate Offers(row: Row, d: int, skip: bv8) {
    exists f :: (d, f) in row && !Skipped(f, skip)
  }

  /** `row` lists exactly the neighbours of `i`, with their edges' flags. */
  ghost predicate RowOf(row: Row, i: int, rel: Rel, skip: bv8) {
    forall d :: (i, d) in rel <==> Offers(row, d, skip)
  }

  lemma OutgoingIsRow(edges: seq<Edge>, i: int, skip: bv8)
    ensures RowOf(Outgoing(edges, i), i, Arcs(edges, skip), skip)
  {
    forall d
      ensures (i, d) in Arcs(edges, skip) <==> Offers(Outgoing(edges, i), d, skip)
    {
      forall f
        ensures (d, f) in Outgoing(edges, i) <==> (i, d, f) in edges
      {
        OutgoingMembers(edges, i, (d, f));
      }
    }
  }

  lemma IncomingIsRow(edges: seq<Edge>, i: int, skip: bv8)
    ensures RowOf(Incoming(edges, i), i, Inverse(Arcs(edges, skip)), skip)
  {
    forall d
      ensures (i, d) in Inverse(Arcs(edges, skip)) <==> Offers(Incoming(edges, i), d, skip)
    {
      forall f
        ensures (d, f) in Incoming(edges, i) <==> (d, i, f) in edges
      {
        IncomingMembers(edges, i, (d, f));
      }
    }
  }

  /** The neighbours a step of the builder's walk pushes: those not skipped and
      not visited yet. */
  method Unvisited(row: Row, skip: bv8, visited: set<int>) returns (more: seq<int>)
    ensures forall d :: d in more <==> d !in visited && Offers(row, d, skip)
  {
    more := [];
    for k := 0 to |row|
      invariant forall d :: d in more <==> d !in visited && Offers(row[..k], d, skip)
    {
      var (next, flags) := row[k];
      assert row[..k + 1] == row[..k] + [row[k]];
      if !Skipped(flags, skip) && next !in visited {
        more := more + [next];
      }
    }
    assert row[..|row|] == row;
  }

  lemma StepStaysAllBelow(edges: seq<Edge>, n: int, direction: Direction, skip: bv8, i: int, d: int)
    requires EdgesWithin(edges, n) && (i, d) in Directed(edges, direction, skip)
    ensures 0 <= d < n
  {
  }

  lemma BuilderRow(b: Builder, direction: Direction, skip: bv8, i: int)
    requires b.Valid() && 0 <= i < |b.nodes|
    ensures |b.forwardAdj| == |b.reverseAdj| == |b.nodes|
    ensures RowOf(if direction.Forward? then b.forwardAdj[i] else b.reverseAdj[i], i,
                  Directed(b.edges, direction, skip), skip)
  {
    OutgoingIsRow(b.edges, i, skip);
    IncomingIsRow(b.edges, i, skip);
  }

  /** What both walks keep. */
  ghost predicate Going(rel: Rel, roots: set<int>, n: nat, visited: set<int>, stack: seq<int>) {
    visited <= Range(n) && AllBelow(stack, n) && Walking(rel, roots, visited, stack)
  }

  lemma GoingStarts(rel: Rel, roots: set<int>, n: nat, stack: seq<int>)
    requires AllBelow(stack, n) && forall r :: r in roots <==> r in stack
    ensures Going(rel, roots, n, {}, stack)
  {
    WalkStarts(rel, roots, stack);
  }

  lemma TopOf(rel: Rel, roots: set<int>, n: nat, visited: set<int>, stack: seq<int>)
    requires Going(rel, roots, n, visited, stack) && stack != []
    ensures visited <= Range(n) && 0 <= stack[|stack| - 1] < n
    ensures stack[|stack| - 1] in visited ==> Going(rel, roots, n, visited, stack[..|stack| - 1])
  {
    var i, rest := stack[|stack| - 1], stack[..|stack| - 1];
    assert stack == rest + [i];
    if i in visited {
      WalkSkips(rel, roots, visited, rest, i);
    }
  }

  lemma GoingExpands(rel: Rel, roots: set<int>, n: nat, visited: set<int>, stack: seq<int>, more: seq<int>)
    requires Going(rel, roots, n, visited, stack) && stack != [] && AllBelow(more, n)
    requires var i := stack[|stack| - 1];
      && (forall d :: d in more ==> (i, d) in rel)
      && (forall e :: e in rel && e.0 == i ==> e.1 in more || e.1 in visited || e.1 == i)
    ensures Going(rel, roots, n, visited + {stack[|stack| - 1]}, stack[..|stack| - 1] + more)
  {
    var i, rest := stack[|stack| - 1], stack[..|stack| - 1];
    assert stack == rest + [i];
    WalkExpands(rel, roots, visited, rest, i, more);
  }

  lemma GoingEnds(rel: Rel, roots: set<int>, n: nat, visited: set<int>, stack: seq<int>)
    requires Going(rel, roots, n, visited, stack) && stack == []
    ensures visited == Closure(rel, roots)
  {
    WalkEnds(rel, roots, visited, stack);
  }

  /** The builder's walk: pushes only unvisited neighbours. */
  method Bfs(b: Builder, seeds: seq<int>, direction: Direction, skip: bv8) returns (visited: set<int>)
    requires b.Valid() && AllBelow(seeds, |b.nodes|)
    ensures visited == Closure(Directed(b.edges, direction, skip), Elements(seeds))
  {
    hide Directed, Closure, Going, b.Valid, RowOf, Offers, AllBelow;
    ghost var rel, roots, n := Directed(b.edges, direction, skip), Elements(seeds), |b.nodes|;
    visited := {};
    var stack := seeds;
    GoingStarts(rel, roots, n, stack);
    while stack != []
      invariant Going(rel, roots, n, visited, stack)
      decreases Range(n) - visited, |stack|
    {
      TopOf(rel, roots, n, visited, stack);
      var i, rest := stack[|stack| - 1], stack[..|stack| - 1];
      if i in visited {
        stack := rest;
      } else {
        BuilderRow(b, direction, skip, i);
        var row := if direction.Forward? then b.forwardAdj[i] else b.reverseAdj[i];
        var more := Unvisited(row, skip, visited + {i});
        PushedNeighbours(b, direction, skip, i, row, visited + {i}, more);
        GoingExpands(rel, roots, n, visited, stack, more);
        visited := visited + {i};
        stack := rest + more;
      }
    }
    GoingEnds(rel, roots, n, visited, stack);
  }

  lemma PushedNeighbours(b: Builder, direction: Direction, skip: bv8, i: int, row: Row, visited: set<int>, more: seq<int>)
    requires b.Valid() && RowOf(row, i, Directed(b.edges, direction, skip), skip)
    requires forall d :: d in more <==> d !in visited && Offers(row, d, skip)
    ensures AllBelow(more, |b.nodes|)
    ensures forall d :: d in more ==> (i, d) in Directed(b.edges, direction, skip)
    ensures forall e :: e in Directed(b.edges, direction, skip) && e.0 == i ==> e.1 in more || e.1 in visited
  {
    hide Directed;
    forall k | 0 <= k < |more|
      ensures 0 <= more[k] < |b.nodes|
    {
      assert more[k] in more;
      StepStaysAllBelow(b.edges, |b.nodes|, direction, skip, i, more[k]);
    }
    forall e | e in Directed(b.edges, direction, skip) && e.0 == i
      ensures e.1 in more || e.1 in visited
    {
      assert e == (i, e.1);
      assert Offers(row, e.1, skip);
    }
  }

  // ------------------------------------------------------------ a loaded graph

  /** A graph read back from disk, with its own adjacency lists. */
  class LoadedGraph {
    var nodes: seq<SymbolNode>
    var edges: seq<Edge>
    var out: seq<Row>
    var defaultSeedMask: NodeFlags

    ghost predicate Valid()
      reads this
    {
      && EdgesWithin(edges, |nodes|) && |out| == |nodes|
      && forall i :: 0 <= i < |nodes| ==> out[i] == Outgoing(edges, i)
    }

    constructor (nodes: seq<SymbolNode>, edges: seq<Edge>, registry: seq<FlagEntry>)
      requires EdgesWithin(edges, |nodes|)
      ensures Valid() && this.nodes == nodes && this.edges == edges
      ensures defaultSeedMask == SeedMask(registry)
    {
      this.nodes, this.edges := nodes, edges;
      var out: seq<Row> := seq(|nodes|, _ => []);
      for k := 0 to |edges|
        invariant |out| == |nodes| && forall i :: 0 <= i < |out| ==> out[i] == Outgoing(edges[..k], i)
      {
        var (src, dst, flags) := edges[k];
        assert edges[k] in edges;
        assert edges[..k + 1][..k] == edges[..k];
        out := out[src := out[src] + [(dst, flags)]];
      }
      assert edges[..|edges|] == edges;
      var mask := SeedMaskFromRegistry(registry);
      this.out, this.defaultSeedMask := out, mask;
    }

    /** The indices reached from every node carrying a seed bit; neighbours are
        pushed whether visited or not, and filtered when popped. */
    method Reachable(seedFlags: Option<NodeFlags>, skip: bv8) returns (visited: set<int>)
      requires Valid()
      ensures visited == Closure(Arcs(edges, skip),
                Seeds(nodes, if seedFlags.Some? then seedFlags.value else defaultSeedMask))
    {
      hide Closure, Going, Arcs, RowOf, Offers, AllBelow, Seeds;
      var mask := if seedFlags.Some? then seedFlags.value else defaultSeedMask;
      var stack := SeedList(nodes, mask);
      ghost var rel, roots, n := Arcs(edges, skip), Seeds(nodes, mask), |nodes|;
      GoingStarts(rel, roots, n, stack);
      visited := {};
      while stack != []
        invariant Going(rel, roots, n, visited, stack)
        decreases Range(n) - visited, |stack|
      {
        TopOf(rel, roots, n, visited, stack);
        var i, rest := stack[|stack| - 1], stack[..|stack| - 1];
        if i in visited {
          stack := rest;
        } else {
          OutgoingIsRow(edges, i, skip);
          var more := Unvisited(out[i], skip, {});
          FollowedArcs(edges, n, skip, i, out[i], more);
          GoingExpands(rel, roots, n, visited, stack, more);
          visited := visited + {i};
          stack := rest + more;
        }
      }
      GoingEnds(rel, roots, n, visited, stack);
    }
  }

  lemma FollowedArcs(edges: seq<Edge>, n: int, skip: bv8, i: int, row: Row, more: seq<int>)
    requires EdgesWithin(edges, n) && RowOf(row, i, Arcs(edges, skip), skip)
    requires forall d :: d in more <==> Offers(row, d, skip)
    ensures AllBelow(more, n)
    ensures forall d :: d in more ==> (i, d) in Arcs(edges, skip)
    ensures forall e :: e in Arcs(edges, skip) && e.0 == i ==> e.1 in more
  {
    forall k | 0 <= k < |more|
      ensures 0 <= more[k] < n
    {
      assert more[k] in more;
      assert Offers(row, more[k], skip);
      assert (i, more[k]) in Arcs(edges, skip);
    }
    forall e | e in Arcs(edges, skip) && e.0 == i
      ensures e.1 in more
    {
      assert e == (i, e.1);
      assert Offers(row, e.1, skip);
    }
  }

  /** A registered flag: its bit, whether it seeds walks, and whether it does so
      by default. */
  datatype FlagEntry = FlagEntry(name: string, bit: NodeFlags, seed: bool, defaultOn: bool, description: string)

  /** The bits of every entry that seeds by default. */
  ghost function SeedMask(registry: seq<FlagEntry>): NodeFlags {
    set b, k | 0 <= k < |registry| && registry[k].seed && registry[k].defaultOn && b in registry[k].bit :: b
  }

  /** One more entry adds its bit to the mask exactly when it seeds and is on by default. */
  lemma EntryCounts(registry: seq<FlagEntry>, e: FlagEntry)
    ensures SeedMask(registry + [e]) == SeedMask(registry) + (if e.seed && e.defaultOn then e.bit else {})
    ensures SeedMask([]) == {}
  {
    var all := registry + [e];
    forall b | b in SeedMask(registry) + (if e.seed && e.defaultOn then e.bit else {})
      ensures b in SeedMask(all)
    {
      if b in SeedMask(registry) {
        var k :| 0 <= k < |registry| && registry[k].seed && registry[k].defaultOn && b in registry[k].bit;
        assert all[k] == registry[k];
      } else {
        assert all[|registry|] == e;
      }
    }
  }

  method SeedMaskFromRegistry(registry: seq<FlagEntry>) returns (mask: NodeFlags)
    ensures mask == SeedMask(registry)
  {
    mask := {};
    for k := 0 to |registry|
      invariant mask == SeedMask(registry[..k])
    {
      assert registry[..k + 1] == registry[..k] + [registry[k]];
      if registry[k].seed && registry[k].defaultOn {
        mask := mask + registry[k].bit;
      }
    }
    assert registry[..|registry|] == registry;
  }

  method SeedList(nodes: seq<SymbolNode>, mask: NodeFlags) returns (seeds: seq<int>)
    ensures AllBelow(seeds, |nodes|) && forall i :: i in Seeds(nodes, mask) <==> i in seeds
  {
    seeds := [];
    for k := 0 to |nodes|
      invariant AllBelow(seeds, |nodes|)
      invariant forall i :: i in seeds <==> 0 <= i < k && HasAny(nodes[i].flags, mask)
    {
      if HasAny(nodes[k].flags, mask) {
        seeds := seeds + [k];
      }
    }
  }
}
