/** The symbol graph's values: nodes, edges and their flag words, and the
    relation a list of edges stands for. */
module Graph {
  import opened Closures
  import opened Wrappers
  import opened Sets

  /** The fixed vocabulary of node kinds; `Blank` is the empty kind of a
      tombstoned slot. */
  datatype Kind = Function | Class | Variable | Import | TypeAlias | Module | External | Blank

  datatype ImportRecord = ImportRecord(mod: string, decl: Option<string>, star: bool)

  /** A node's 32-bit flag word, as the set of its one bits: OR is union, AND
      intersection, and masking bits out is difference. */
  type NodeFlags = set<nat>

  datatype SymbolNode = SymbolNode(
    fqname: string, kind: Kind, path: string,
    startLine: nat, startColumn: nat, endLine: nat, endColumn: nat,
    flags: NodeFlags, imports: Option<ImportRecord>)

  type Edge = (int, int, bv8)

  /** `flags & mask != 0` */
  predicate HasAny(flags: NodeFlags, mask: NodeFlags) {
    flags * mask != {}
  }

  predicate Skipped(flags: bv8, skip: bv8) {
    flags & skip != 0
  }

  /** An edge is skipped exactly when it has one of the eight bits to skip. */
  lemma SkippedIffABitIsShared(flags: bv8, skip: bv8)
    ensures Skipped(flags, skip) <==>
      || (flags & 1 != 0 && skip & 1 != 0) || (flags & 2 != 0 && skip & 2 != 0)
      || (flags & 4 != 0 && skip & 4 != 0) || (flags & 8 != 0 && skip & 8 != 0)
      || (flags & 16 != 0 && skip & 16 != 0) || (flags & 32 != 0 && skip & 32 != 0)
      || (flags & 64 != 0 && skip & 64 != 0) || (flags & 128 != 0 && skip & 128 != 0)
  {
  }

  predicate EdgesWithin(edges: seq<Edge>, n: int) {
    forall e :: e in edges ==> 0 <= e.0 < n && 0 <= e.1 < n
  }

  /** The node indices of a graph with `n` nodes. */
  function Range(n: nat): (r: set<int>)
    ensures forall i :: i in r <==> 0 <= i < n
    ensures |r| == n
  {
    if n == 0 then {} else Range(n - 1) + {n - 1}
  }

  predicate AllBelow(s: seq<int>, n: int) {
    forall k :: 0 <= k < |s| ==> 0 <= s[k] < n
  }

  function Elements(s: seq<int>): set<int> {
    set x | x in s
  }

  /** The arcs left once every edge carrying a bit of `skip` is ignored. */
  ghost function Arcs(edges: seq<Edge>, skip: bv8): Rel {
    set e | e in edges && !Skipped(e.2, skip) :: (e.0, e.1)
  }

  /** `edges` seen from one node: its outgoing (incoming) edges, in order. */
  function Outgoing(edges: seq<Edge>, i: int): seq<(int, bv8)> {
    if edges == [] then [] else
      var e := edges[|edges| - 1];
      Outgoing(edges[..|edges| - 1], i) + (if e.0 == i then [(e.1, e.2)] else [])
  }

  function Incoming(edges: seq<Edge>, i: int): seq<(int, bv8)> {
    if edges == [] then [] else
      var e := edges[|edges| - 1];
      Incoming(edges[..|edges| - 1], i) + (if e.1 == i then [(e.0, e.2)] else [])
  }

  /** The number of set bits never matters here, only which nodes seed a walk. */
  ghost function Seeds(nodes: seq<SymbolNode>, mask: NodeFlags): set<int> {
    set i: nat | i < |nodes| && HasAny(nodes[i].flags, mask)
  }

  lemma {:induction false} OutgoingMembers(edges: seq<Edge>, i: int, x: (int, bv8))
    ensures x in Outgoing(edges, i) <==> (i, x.0, x.1) in edges
  {
    if edges != [] {
      OutgoingMembers(edges[..|edges| - 1], i, x);
      assert edges == edges[..|edges| - 1] + [edges[|edges| - 1]];
    }
  }

  lemma {:induction false} IncomingMembers(edges: seq<Edge>, i: int, x: (int, bv8))
    ensures x in Incoming(edges, i) <==> (x.0, i, x.1) in edges
  {
    if edges != [] {
      IncomingMembers(edges[..|edges| - 1], i, x);
      assert edges == edges[..|edges| - 1] + [edges[|edges| - 1]];
    }
  }

  lemma SizeOfRange(s: set<int>, n: nat)
    requires s <= Range(n)
    ensures |s| <= n
  {
    SubsetSize(s, Range(n));
  }
}
