/** The graph under construction: nodes with stable dense indices, edges with
    their deduplication state and adjacency tables, and the external anchors. */
module GraphBuilder {
  import opened Wrappers
  import opened Graph
  import opened Scatter
  import opened EdgeStore
  import ReverseScatter

  /** Positional identity of an interned node; flags are not part of it. */
  datatype NodeKey = NodeKey(fqname: string, kind: Kind, file: int,
                             startLine: nat, startColumn: nat, endLine: nat, endColumn: nat)

  function KeyOf(node: SymbolNode, file: int): NodeKey {
    NodeKey(node.fqname, node.kind, file, node.startLine, node.startColumn, node.endLine, node.endColumn)
  }

  function BlankNode(): SymbolNode {
    SymbolNode("", Blank, "", 0, 0, 0, 0, {}, None)
  }

  /** A node without a position. */
  function PositionlessNode(fqname: string, kind: Kind, path: string, flags: NodeFlags): SymbolNode {
    SymbolNode(fqname, kind, path, 0, 0, 0, 0, flags, None)
  }

  const NO_FILE := 0xFFFF_FFFF

  datatype PreparedOp =
    | AddEdge(src: nat, dst: nat, edgeFlags: bv8)
    | Entrypoint(decl: nat)
    | FlagDecl(decl: nat, flags: NodeFlags)

  const ENTRYPOINT: NodeFlags := {1}

  datatype Applied = Done | OutOfRange(index: nat)

  // ------------------------------------------------------------ flag updates

  /** ORs each pair's bits onto its node, in order. */
  function OrAll(nodes: seq<SymbolNode>, ors: seq<(int, NodeFlags)>): (r: seq<SymbolNode>)
    requires forall k :: 0 <= k < |ors| ==> 0 <= ors[k].0 < |nodes|
    ensures |r| == |nodes|
    decreases |ors|
  {
    if ors == [] then nodes else OrAll(OrOne(nodes, ors[0]), ors[1..])
  }

  function OrBits(node: SymbolNode, bits: NodeFlags): SymbolNode {
    node.(flags := node.flags + bits)
  }

  function OrOne(nodes: seq<SymbolNode>, or: (int, NodeFlags)): (r: seq<SymbolNode>)
    requires 0 <= or.0 < |nodes|
    ensures |r| == |nodes|
  {
    nodes[or.0 := OrBits(nodes[or.0], or.1)]
  }

  // ---------------------------------------------------------- external anchors

  /** The anchors of a build: the map from external names to indices, and what
      it must have to do with the nodes and the intern table. */
  ghost predicate AnchorsKept(nodes: seq<SymbolNode>, nodeIndex: map<NodeKey, int>, anchors: map<string, int>,
                              tombstoned: set<int>) {
    && tombstoned <= Range(|nodes|)
    && (forall f :: f in anchors ==> 0 <= anchors[f] < |nodes|)
    && (forall f, g :: f in anchors && g in anchors && anchors[f] == anchors[g] ==> f == g)
    && (forall f :: f in anchors && anchors[f] !in tombstoned ==>
          nodes[anchors[f]].kind == External && nodes[anchors[f]].fqname == f)
    && (forall i :: 0 <= i < |nodes| && nodes[i].kind == External ==>
          i !in tombstoned && nodes[i].fqname in anchors && anchors[nodes[i].fqname] == i)
    && (forall key :: key in nodeIndex && key.kind == External ==> key.fqname in anchors)
  }

  // -------------------------------------------------------------- the intern table

  /** The node is the one the key was made for. */
  ghost predicate Matches(node: SymbolNode, key: NodeKey) {
    && node.fqname == key.fqname && node.kind == key.kind
    && node.startLine == key.startLine && node.startColumn == key.startColumn
    && node.endLine == key.endLine && node.endColumn == key.endColumn
  }

  /** Two nodes are the same for the intern table. */
  ghost predicate SameIdentity(a: SymbolNode, fileA: int, b: SymbolNode, fileB: int) {
    && fileA == fileB && a.fqname == b.fqname && a.kind == b.kind
    && a.startLine == b.startLine && a.startColumn == b.startColumn
    && a.endLine == b.endLine && a.endColumn == b.endColumn
  }

  lemma KeysIdentify(a: SymbolNode, fileA: int, b: SymbolNode, fileB: int)
    ensures KeyOf(a, fileA) == KeyOf(b, fileB) <==> SameIdentity(a, fileA, b, fileB)
    ensures Matches(a, KeyOf(b, fileB)) <==> SameIdentity(a, fileB, b, fileB)
  {
  }

  /** Keys have slots of their own; a slot that is not tombstoned holds a node the
      key was made for; and an anchor's slot belongs to no other kind of key. */
  ghost predicate TableKept(nodes: seq<SymbolNode>, nodeIndex: map<NodeKey, int>, anchors: map<string, int>,
                            tombstoned: set<int>) {
    && (forall key :: key in nodeIndex ==> 0 <= nodeIndex[key] < |nodes|)
    && (forall a, b :: a in nodeIndex && b in nodeIndex && nodeIndex[a] == nodeIndex[b] ==> a == b)
    && (forall key :: key in nodeIndex && nodeIndex[key] !in tombstoned ==> Matches(nodes[nodeIndex[key]], key))
    && forall key, f :: key in nodeIndex && f in anchors && nodeIndex[key] == anchors[f] ==>
         Matches(SymbolNode(f, External, "", 0, 0, 0, 0, {}, None), key)
  }

  lemma InternedSlot(nodes: seq<SymbolNode>, nodeIndex: map<NodeKey, int>, anchors: map<string, int>,
                     tombstoned: set<int>, node: SymbolNode, file: int)
    requires TableKept(nodes, nodeIndex, anchors, tombstoned) && KeyOf(node, file) in nodeIndex
    ensures var idx := nodeIndex[KeyOf(node, file)];
      0 <= idx < |nodes| && (idx !in tombstoned ==> SameIdentity(nodes[idx], file, node, file))
  {
    var idx := nodeIndex[KeyOf(node, file)];
    KeysIdentify(nodes[idx], file, node, file);
  }

  lemma AnchorsInRange(nodes: seq<SymbolNode>, nodeIndex: map<NodeKey, int>, anchors: map<string, int>, tombstoned: set<int>)
    requires AnchorsKept(nodes, nodeIndex, anchors, tombstoned)
    ensures forall f :: f in anchors ==> anchors[f] < |nodes|
  {
  }

  lemma TableAfterMint(nodes: seq<SymbolNode>, nodeIndex: map<NodeKey, int>, anchors: map<string, int>,
                       tombstoned: set<int>, node: SymbolNode, file: int)
    requires TableKept(nodes, nodeIndex, anchors, tombstoned) && KeyOf(node, file) !in nodeIndex
    requires (forall f :: f in anchors ==> anchors[f] < |nodes|)
    ensures TableKept(nodes + [node], nodeIndex[KeyOf(node, file) := |nodes|], anchors, tombstoned)
  {
    var key, nodes' := KeyOf(node, file), nodes + [node];
    var index' := nodeIndex[key := |nodes|];
    KeysIdentify(node, file, node, file);
    forall k | k in index' && index'[k] !in tombstoned
      ensures Matches(nodes'[index'[k]], k)
    {
      if k != key {
        assert nodes'[nodeIndex[k]] == nodes[nodeIndex[k]];
      }
    }
  }

  lemma NewSlotIsTheAnchors(nodes: seq<SymbolNode>, nodeIndex: map<NodeKey, int>, anchors: map<string, int>,
                            tombstoned: set<int>, node: SymbolNode, file: int)
    requires TableKept(nodes, nodeIndex, anchors, tombstoned) && KeyOf(node, file) !in nodeIndex
    requires SameIdentity(node, 0, SymbolNode(node.fqname, External, "", 0, 0, 0, 0, {}, None), 0)
    ensures var index' := nodeIndex[KeyOf(node, file) := |nodes|];
      forall key :: key in index' && index'[key] == |nodes| ==>
        Matches(SymbolNode(node.fqname, External, "", 0, 0, 0, 0, {}, None), key)
  {
    KeysIdentify(SymbolNode(node.fqname, External, "", 0, 0, 0, 0, {}, None), file, node, file);
  }

  lemma TableAfterAnchor(nodes: seq<SymbolNode>, nodeIndex: map<NodeKey, int>, anchors: map<string, int>,
                         tombstoned: set<int>, fqname: string, idx: int)
    requires TableKept(nodes, nodeIndex, anchors, tombstoned)
    requires forall key :: key in nodeIndex && nodeIndex[key] == idx ==>
      Matches(SymbolNode(fqname, External, "", 0, 0, 0, 0, {}, None), key)
    ensures TableKept(nodes, nodeIndex, anchors[fqname := idx], tombstoned)
  {
  }

  lemma TableAfterRevival(nodes: seq<SymbolNode>, nodeIndex: map<NodeKey, int>, anchors: map<string, int>,
                          tombstoned: set<int>, fqname: string, node: SymbolNode)
    requires TableKept(nodes, nodeIndex, anchors, tombstoned) && fqname in anchors && 0 <= anchors[fqname] < |nodes|
    requires SameIdentity(node, 0, SymbolNode(fqname, External, "", 0, 0, 0, 0, {}, None), 0)
    ensures TableKept(nodes[anchors[fqname] := node], nodeIndex, anchors, tombstoned - {anchors[fqname]})
  {
    var idx := anchors[fqname];
    forall key | key in nodeIndex && nodeIndex[key] !in tombstoned - {idx}
      ensures Matches(nodes[idx := node][nodeIndex[key]], key)
    {
      if nodeIndex[key] != idx {
        assert nodeIndex[key] !in tombstoned;
      }
    }
  }

  lemma TableAfterTombstone(before: seq<SymbolNode>, after: seq<SymbolNode>, nodeIndex: map<NodeKey, int>,
                            anchors: map<string, int>, tombstoned: set<int>, lo: nat, hi: nat)
    requires TableKept(before, nodeIndex, anchors, tombstoned) && Overwritten(before, after, lo, hi, BlankNode())
    requires lo <= hi <= |before|
    ensures TableKept(after, nodeIndex, anchors, tombstoned + Block(lo, hi))
  {
    forall key | key in nodeIndex && nodeIndex[key] !in tombstoned + Block(lo, hi)
      ensures Matches(after[nodeIndex[key]], key)
    {
      assert !(lo <= nodeIndex[key] < hi);
    }
  }

  /** Flags are no part of any identity. */
  lemma FlagsKeepIdentities(before: seq<SymbolNode>, after: seq<SymbolNode>, ops: seq<PreparedOp>,
                            nodeIndex: map<NodeKey, int>, anchors: map<string, int>, tombstoned: set<int>)
    requires Flagged(before, after, ops)
    ensures AnchorsKept(before, nodeIndex, anchors, tombstoned) ==> AnchorsKept(after, nodeIndex, anchors, tombstoned)
    ensures TableKept(before, nodeIndex, anchors, tombstoned) ==> TableKept(after, nodeIndex, anchors, tombstoned)
  {
    forall i | 0 <= i < |after|
      ensures after[i].kind == before[i].kind && after[i].fqname == before[i].fqname
      ensures forall key :: Matches(after[i], key) <==> Matches(before[i], key)
    {
      assert after[i] == before[i].(flags := after[i].flags);
    }
  }

  /** `after` is `before` with `v` written over the slots from `lo` to `hi`. */
  ghost predicate Overwritten<T>(before: seq<T>, after: seq<T>, lo: int, hi: int, v: T) {
    |after| == |before|
    && forall i :: 0 <= i < |before| ==> after[i] == if lo <= i < hi then v else before[i]
  }

  /** The indices from `lo` up to, not including, `hi`. */
  ghost function Block(lo: nat, hi: nat): set<int> {
    Range(hi) - Range(lo)
  }

  lemma BlockStarts(lo: nat)
    ensures Block(lo, lo) == {}
  {
  }

  lemma BlockGrows(lo: nat, hi: nat)
    requires lo <= hi
    ensures Block(lo, hi) + {hi as int} == Block(lo, hi + 1)
  {
  }

  lemma OverwriteNone<T>(s: seq<T>, lo: int, v: T)
    ensures Overwritten(s, s, lo, lo, v)
  {
  }

  lemma OverwriteOne<T>(before: seq<T>, after: seq<T>, lo: int, hi: int, v: T)
    requires Overwritten(before, after, lo, hi, v) && 0 <= lo <= hi
    ensures |after| == |before|
    ensures Overwritten(before, if hi < |after| then after[hi := v] else after, lo, hi + 1, v)
  {
  }

  lemma AnchorFacts(nodes: seq<SymbolNode>, nodeIndex: map<NodeKey, int>, anchors: map<string, int>,
                    tombstoned: set<int>, fqname: string)
    requires AnchorsKept(nodes, nodeIndex, anchors, tombstoned) && fqname in anchors
    ensures 0 <= anchors[fqname] < |nodes|
    ensures anchors[fqname] !in tombstoned ==>
      nodes[anchors[fqname]].kind == External && nodes[anchors[fqname]].fqname == fqname
  {
  }

  lemma NewAnchorIsUninterned(nodes: seq<SymbolNode>, nodeIndex: map<NodeKey, int>, anchors: map<string, int>,
                              tombstoned: set<int>, key: NodeKey)
    requires AnchorsKept(nodes, nodeIndex, anchors, tombstoned) && key.kind == External && key.fqname !in anchors
    ensures key !in nodeIndex && |nodes| !in tombstoned
  {
  }

  lemma AnchorsAfterOtherNode(nodes: seq<SymbolNode>, nodeIndex: map<NodeKey, int>, anchors: map<string, int>,
                              tombstoned: set<int>, key: NodeKey, node: SymbolNode)
    requires AnchorsKept(nodes, nodeIndex, anchors, tombstoned) && node.kind != External && key.kind == node.kind
    ensures AnchorsKept(nodes + [node], nodeIndex[key := |nodes|], anchors, tombstoned)
  {
  }

  lemma AnchorsAfterRevival(nodes: seq<SymbolNode>, nodeIndex: map<NodeKey, int>, anchors: map<string, int>,
                            tombstoned: set<int>, fqname: string, node: SymbolNode)
    requires AnchorsKept(nodes, nodeIndex, anchors, tombstoned) && fqname in anchors
    requires node.kind == External && node.fqname == fqname
    ensures AnchorsKept(nodes[anchors[fqname] := node], nodeIndex, anchors, tombstoned - {anchors[fqname]})
  {
  }

  lemma AnchorsAfterMint(nodes: seq<SymbolNode>, nodeIndex: map<NodeKey, int>, anchors: map<string, int>,
                         tombstoned: set<int>, key: NodeKey, node: SymbolNode)
    requires AnchorsKept(nodes, nodeIndex, anchors, tombstoned) && node.fqname !in anchors
    requires node.kind == External && key.fqname == node.fqname
    ensures AnchorsKept(nodes + [node], nodeIndex[key := |nodes|], anchors[node.fqname := |nodes|], tombstoned)
  {
    var nodes', anchors' := nodes + [node], anchors[node.fqname := |nodes|];
    assert |nodes| !in tombstoned;
    forall i | 0 <= i < |nodes'| && nodes'[i].kind == External
      ensures i !in tombstoned && nodes'[i].fqname in anchors' && anchors'[nodes'[i].fqname] == i
    {
      if i < |nodes| {
        assert nodes'[i] == nodes[i];
      }
    }
    forall f | f in anchors'
      ensures 0 <= anchors'[f] < |nodes'|
      ensures anchors'[f] !in tombstoned ==> nodes'[anchors'[f]].kind == External && nodes'[anchors'[f]].fqname == f
    {
      if f != node.fqname {
        assert nodes'[anchors[f]] == nodes[anchors[f]];
      }
    }
  }

  lemma AnchorsAfterTombstone(before: seq<SymbolNode>, after: seq<SymbolNode>, nodeIndex: map<NodeKey, int>,
                              anchors: map<string, int>, tombstoned: set<int>, lo: nat, hi: nat)
    requires AnchorsKept(before, nodeIndex, anchors, tombstoned) && Overwritten(before, after, lo, hi, BlankNode())
    requires lo <= hi <= |before|
    ensures AnchorsKept(after, nodeIndex, anchors, tombstoned + Block(lo, hi))
  {
    forall i | 0 <= i < |after| && after[i].kind == External
      ensures i !in tombstoned + Block(lo, hi) && after[i] == before[i]
    {
      assert !(lo <= i < hi);
    }
  }

  class Builder {
    var nodes: seq<SymbolNode>
    var nodeFile: seq<int>
    var baseFlags: seq<NodeFlags>
    var tombstoned: set<int>
    var nodeIndex: map<NodeKey, int>
    var edges: seq<Edge>
    var bulkLen: int
    var edgeOverflow: set<Edge>
    var forwardAdj: seq<Row>
    var reverseAdj: seq<Row>
    var externalNodes: map<string, int>

    /** The edge structures are in step with each other and with the nodes. */
    ghost predicate Valid()
      reads this
    {
      InStep(|nodes|, edges, bulkLen, edgeOverflow, forwardAdj, reverseAdj) && |nodeFile| == |nodes|
    }

    ghost predicate Anchored()
      reads this
    {
      AnchorsKept(nodes, nodeIndex, externalNodes, tombstoned)
    }

    /** The intern table is in step with the nodes and the anchors. */
    ghost predicate Interned()
      reads this
    {
      TableKept(nodes, nodeIndex, externalNodes, tombstoned)
    }

    constructor ()
      ensures Valid() && Anchored() && Interned()
      ensures nodes == [] && edges == [] && tombstoned == {} && externalNodes == map[]
    {
      nodes, nodeFile, baseFlags, tombstoned, nodeIndex := [], [], [], {}, map[];
      edges, bulkLen, edgeOverflow := [], 0, {};
      forwardAdj, reverseAdj, externalNodes := [], [], map[];
    }

    // ------------------------------------------------------------------ edges

    method HasEdge(t: Edge) returns (present: bool)
      requires Valid()
      ensures present <==> t in edges
    {
      InStepMembership(|nodes|, edges, bulkLen, edgeOverflow, forwardAdj, reverseAdj, t);
      var found := BinarySearch(edges[..bulkLen], t);
      present := found || t in edgeOverflow;
    }

    method AddEdge(src: int, dst: int, flags: bv8)
      requires Valid() && 0 <= src < |nodes| && 0 <= dst < |nodes|
      modifies this`edges, this`edgeOverflow, this`forwardAdj, this`reverseAdj
      ensures Valid() && edges == Insert(old(edges), (src, dst, flags))
    {
      var t := (src, dst, flags);
      var present := HasEdge(t);
      if !present {
        InStepPush(|nodes|, edges, bulkLen, edgeOverflow, forwardAdj, reverseAdj, t);
        edgeOverflow := edgeOverflow + {t};
        edges := edges + [t];
        forwardAdj := forwardAdj[src := forwardAdj[src] + [(dst, flags)]];
        reverseAdj := reverseAdj[dst := reverseAdj[dst] + [(src, flags)]];
      }
    }

    method ExtendEdges(triples: seq<Edge>)
      requires Valid() && EdgesWithin(triples, |nodes|)
      modifies this`edges, this`edgeOverflow, this`forwardAdj, this`reverseAdj
      ensures Valid() && edges == InsertAll(old(edges), triples)
    {
      for k := 0 to |triples|
        invariant Valid() && InsertAll(old(edges), triples) == InsertAll(edges, triples[k..])
      {
        var (src, dst, flags) := triples[k];
        assert triples[k] in triples;
        assert triples[k..][1..] == triples[k + 1..];
        AddEdge(src, dst, flags);
      }
    }

    /** Installs a sorted list into an edge-less builder, filling the two
        tables by the partitioned scatters. */
    method InitEdgesBulk(triples: seq<Edge>, workers: nat)
      requires Valid() && edges == [] && edgeOverflow == {}
      requires StrictlySorted(triples) && EdgesWithin(triples, |nodes|)
      modifies this`edges, this`bulkLen, this`forwardAdj, this`reverseAdj
      ensures Valid() && edges == triples
    {
      if triples == [] {
        return;
      }
      SortedTriples(triples, |nodes|);
      var forward; ghost var writes;
      forward, writes := ScatterAdjacency(forwardAdj, triples, workers);
      var reverse := ReverseScatter.ScatterReverse(reverseAdj, triples, workers);
      forall i | 0 <= i < |nodes|
        ensures forward[i] == Outgoing(triples, i) && reverse[i] == Incoming(triples, i)
      {
        assert reverse[i] == [] + Incoming(triples, i);
      }
      InStepBulk(|nodes|, triples, forward, reverse);
      forwardAdj, reverseAdj := forward, reverse;
      bulkLen := |triples|;
      edges := triples;
    }

    method ResetDerivedEdges()
      requires |nodeFile| == |nodes|
      modifies this`edges, this`bulkLen, this`edgeOverflow, this`forwardAdj, this`reverseAdj
      ensures Valid() && edges == []
    {
      edges, bulkLen, edgeOverflow := [], 0, {};
      forwardAdj, reverseAdj := seq(|nodes|, _ => []), seq(|nodes|, _ => []);
      InStepEmpty(|nodes|);
    }

    // ------------------------------------------------------------------ nodes

    /** Marks a block of slots dead and blanks them, in place. */
    method TombstoneBlock(start: nat, len: nat)
      requires Valid() && Anchored() && start + len <= |nodes|
      modifies this`tombstoned, this`nodes, this`nodeFile, this`baseFlags
      ensures Valid() && Anchored() && (old(Interned()) ==> Interned())
      ensures tombstoned == old(tombstoned) + Block(start, start + len)
      ensures Overwritten(old(nodes), nodes, start, start + len, SymbolNode("", Blank, "", 0, 0, 0, 0, {}, None))
      ensures Overwritten(old(nodeFile), nodeFile, start, start + len, 0xFFFF_FFFF)
      ensures Overwritten(old(baseFlags), baseFlags, start, start + len, {})
    {
      BlankBlock(start, len);
      if old(Interned()) {
        TableAfterTombstone(old(nodes), nodes, nodeIndex, externalNodes, old(tombstoned), start, start + len);
      }
      AnchorsAfterTombstone(old(nodes), nodes, nodeIndex, externalNodes, old(tombstoned), start, start + len);
    }

    method BlankBlock(start: nat, len: nat)
      requires |nodeFile| == |nodes| && start + len <= |nodes|
      modifies this`tombstoned, this`nodes, this`nodeFile, this`baseFlags
      ensures tombstoned == old(tombstoned) + Block(start, start + len)
      ensures Overwritten(old(nodes), nodes, start, start + len, BlankNode())
      ensures Overwritten(old(nodeFile), nodeFile, start, start + len, NO_FILE)
      ensures Overwritten(old(baseFlags), baseFlags, start, start + len, {})
    {
      hide Overwritten, Block;
      BlockStarts(start);
      OverwriteNone(nodes, start, BlankNode());
      OverwriteNone(nodeFile, start, NO_FILE);
      OverwriteNone(baseFlags, start, {});
      for idx := start to start + len
        invariant |nodes| == |old(nodes)| == |nodeFile|
        invariant tombstoned == old(tombstoned) + Block(start, idx)
        invariant Overwritten(old(nodes), nodes, start, idx, BlankNode())
        invariant Overwritten(old(nodeFile), nodeFile, start, idx, NO_FILE)
        invariant Overwritten(old(baseFlags), baseFlags, start, idx, {})
      {
        BlockGrows(start, idx);
        OverwriteOne(old(nodes), nodes, start, idx, BlankNode());
        OverwriteOne(old(nodeFile), nodeFile, start, idx, NO_FILE);
        OverwriteOne(old(baseFlags), baseFlags, start, idx, {});
        tombstoned := tombstoned + {idx};
        nodes := nodes[idx := BlankNode()];
        nodeFile := nodeFile[idx := NO_FILE];
        if idx < |baseFlags| {
          baseFlags := baseFlags[idx := {}];
        }
      }
    }

    /** Mints a node, or finds the one interned under the same key. */
    method InternNode(node: SymbolNode, file: int) returns (idx: int)
      requires Valid()
      modifies this`nodes, this`nodeFile, this`nodeIndex, this`forwardAdj, this`reverseAdj
      ensures Valid()
      ensures var key := NodeKey(node.fqname, node.kind, file, node.startLine, node.startColumn, node.endLine, node.endColumn);
        if key in old(nodeIndex)
        then idx == old(nodeIndex)[key] && nodes == old(nodes) && nodeIndex == old(nodeIndex) && nodeFile == old(nodeFile)
        else idx == |old(nodes)| && nodes == old(nodes) + [node] && nodeIndex == old(nodeIndex)[key := idx]
             && nodeFile == old(nodeFile) + [0xFFFF_FFFF]
      ensures node.kind != External && old(Anchored()) ==> Anchored()
      ensures old(Anchored()) && old(Interned()) ==> Interned()
      ensures old(Interned()) && idx !in tombstoned && idx < |nodes| ==> SameIdentity(nodes[idx], file, node, file)
    {
      hide AnchorsKept, InStep, TableKept;
      var key := KeyOf(node, file);
      if key in nodeIndex {
        if Interned() {
          InternedSlot(nodes, nodeIndex, externalNodes, tombstoned, node, file);
        }
        return nodeIndex[key];
      }
      InStepNewNode(|nodes|, edges, bulkLen, edgeOverflow, forwardAdj, reverseAdj);
      if node.kind != External && Anchored() {
        AnchorsAfterOtherNode(nodes, nodeIndex, externalNodes, tombstoned, key, node);
      }
      if Anchored() && Interned() {
        AnchorsInRange(nodes, nodeIndex, externalNodes, tombstoned);
        TableAfterMint(nodes, nodeIndex, externalNodes, tombstoned, node, file);
      }
      idx := |nodes|;
      nodes := nodes + [node];
      nodeFile := nodeFile + [NO_FILE];
      nodeIndex := nodeIndex[key := idx];
      forwardAdj := forwardAdj + [[]];
      reverseAdj := reverseAdj + [[]];
    }

    /** The one anchor of an external name: minted the first time, found after
        that, and brought back to life at its old index if it was tombstoned. */
    method InternExternal(fqname: string, path: string, file: int) returns (idx: int)
      requires Valid() && Anchored()
      modifies this`nodes, this`nodeFile, this`nodeIndex, this`forwardAdj, this`reverseAdj,
               this`tombstoned, this`externalNodes
      ensures Valid() && Anchored() && (old(Interned()) ==> Interned())
      ensures externalNodes == old(externalNodes)[fqname := idx]
      ensures fqname in old(externalNodes) ==> idx == old(externalNodes)[fqname] && |nodes| == |old(nodes)|
      ensures fqname !in old(externalNodes) ==> idx == |old(nodes)| && |nodes| == idx + 1
      ensures 0 <= idx < |nodes| && nodes[idx].kind == External && nodes[idx].fqname == fqname
      ensures fqname !in old(externalNodes) || idx in old(tombstoned) ==>
        nodes[idx] == SymbolNode(fqname, External, path, 0, 0, 0, 0, {}, None)
      ensures fqname in old(externalNodes) ==> nodeIndex == old(nodeIndex) && nodeFile == old(nodeFile)
      ensures tombstoned == old(tombstoned) - {idx}
      ensures forall i :: 0 <= i < |old(nodes)| && (i != idx || i !in old(tombstoned)) ==> nodes[i] == old(nodes)[i]
    {
      hide AnchorsKept, TableKept;
      if fqname in externalNodes {
        idx := externalNodes[fqname];
        AnchorFacts(nodes, nodeIndex, externalNodes, tombstoned, fqname);
        assert externalNodes == externalNodes[fqname := idx];
        if idx in tombstoned {
          AnchorsAfterRevival(nodes, nodeIndex, externalNodes, tombstoned, fqname, PositionlessNode(fqname, External, path, {}));
          if Interned() {
            TableAfterRevival(nodes, nodeIndex, externalNodes, tombstoned, fqname, PositionlessNode(fqname, External, path, {}));
          }
          tombstoned := tombstoned - {idx};
          nodes := nodes[idx := PositionlessNode(fqname, External, path, {})];
        }
        return;
      }
      var node := PositionlessNode(fqname, External, path, {});
      NewAnchorIsUninterned(nodes, nodeIndex, externalNodes, tombstoned, KeyOf(node, file));
      AnchorsAfterMint(nodes, nodeIndex, externalNodes, tombstoned, KeyOf(node, file), node);
      ghost var was := Interned();
      idx := InternNode(node, file);
      if was {
        NewSlotIsTheAnchors(old(nodes), old(nodeIndex), externalNodes, tombstoned, node, file);
        TableAfterAnchor(nodes, nodeIndex, externalNodes, tombstoned, fqname, idx);
      }
      externalNodes := externalNodes[fqname := idx];
    }

    // -------------------------------------------------------- batched mutation

    /** Edges land in order; flag ORs are gathered and applied afterwards in
        index order, in whichever order ties come out of the unstable sort. */
    method ApplyPreparedBatch(prepared: seq<PreparedOp>) returns (r: Applied)
      requires Valid()
      modifies this`edges, this`edgeOverflow, this`forwardAdj, this`reverseAdj, this`nodes
      ensures Valid() && |nodes| == |old(nodes)|
      ensures r.Done? <==> AllInRange(prepared, |old(nodes)|)
      ensures r.Done? ==> Snapshot(nodes, edges) == ApplyInOrder(Snapshot(old(nodes), old(edges)), prepared)
      ensures !r.Done? ==> nodes == old(nodes)
      ensures !r.Done? ==>
        edges == ApplyInOrder(Snapshot(old(nodes), old(edges)), prepared[..FirstOutOfRange(prepared, |old(nodes)|)]).edges
      ensures r.Done? ==> Landed(old(edges), edges, prepared) && Flagged(old(nodes), nodes, prepared)
      ensures !r.Done? ==> Refused(prepared, |old(nodes)|, r.index, old(edges), edges)
      ensures old(Anchored()) ==> Anchored()
      ensures old(Interned()) ==> Interned()
    {
      InStepDistinct(|nodes|, edges, bulkLen, edgeOverflow, forwardAdj, reverseAdj);
      hide Landed, Flagged, Refused, AnchorsKept, TableKept, InStep, Distinct;
      var len := |nodes|;
      var ors: seq<(int, NodeFlags)> := [];
      ghost var start := Snapshot(nodes, edges);
      ghost var stop := FirstOutOfRange(prepared, len);
      for k := 0 to |prepared|
        invariant Valid() && nodes == old(nodes) && k <= stop
        invariant edges == EdgesAfter(old(edges), prepared[..k])
        invariant ors == OrsOf(prepared[..k])
      {
        var op := prepared[k];
        StopsAt(prepared, k, len);
        if !OpInRange(op, len) {
          BatchRefused(start, prepared, k);
          return OutOfRange(Offender(op, len));
        }
        assert prepared[..k + 1][..k] == prepared[..k];
        match op {
          case AddEdge(src, dst, flags) => AddEdge(src, dst, flags);
          case Entrypoint(decl) => ors := ors + [(decl, ENTRYPOINT)];
          case FlagDecl(decl, flags) => ors := ors + [(decl, flags)];
        }
      }
      assert prepared[..|prepared|] == prepared;
      BatchDone(start, prepared);
      FlagsKeepIdentities(nodes, OrAll(nodes, ors), prepared, nodeIndex, externalNodes, tombstoned);
      var sorted := SortByIndex(ors, len);
      PermutedOrsAgree(nodes, ors, sorted);
      SweepOrs(sorted);
      r := Done;
    }

    /** The final sweep over the node array. */
    method SweepOrs(ors: seq<(int, NodeFlags)>)
      requires forall k :: 0 <= k < |ors| ==> 0 <= ors[k].0 < |nodes|
      modifies this`nodes
      ensures nodes == OrAll(old(nodes), ors)
    {
      for k := 0 to |ors|
        invariant |nodes| == |old(nodes)|
        invariant OrAll(old(nodes), ors) == OrAll(nodes, ors[k..])
      {
        assert ors[k..][0] == ors[k] && ors[k..][1..] == ors[k + 1..];
        nodes := OrOne(nodes, ors[k]);
      }
    }
  }

  // ----------------------------------------------------- facts about triples

  lemma SortedTriples(triples: seq<Edge>, n: int)
    requires StrictlySorted(triples) && EdgesWithin(triples, n)
    ensures SortedBySource(triples) && ReverseScatter.DestinationsBelow(triples, n)
    ensures forall k :: 0 <= k < |triples| ==> 0 <= triples[k].0 < n
  {
    forall k | 0 <= k < |triples|
      ensures 0 <= triples[k].0 < n && 0 <= triples[k].1 < n
    {
      assert triples[k] in triples;
    }
    forall i, j | 0 <= i < j < |triples|
      ensures triples[i].0 <= triples[j].0
    {
      assert Less(triples[i], triples[j]);
    }
  }

  // ------------------------------------------------------- facts about batches

  predicate OpInRange(op: PreparedOp, n: int) {
    match op
    case AddEdge(src, dst, _) => src < n && dst < n
    case Entrypoint(decl) => decl < n
    case FlagDecl(decl, _) => decl < n
  }

  /** The index an operation is refused for: the source is checked first. */
  function Offender(op: PreparedOp, n: int): (index: nat)
    ensures !OpInRange(op, n) ==> index >= n
  {
    if !op.AddEdge? then op.decl else if op.src >= n then op.src else op.dst
  }

  predicate AllInRange(ops: seq<PreparedOp>, n: int) {
    forall k :: 0 <= k < |ops| ==> OpInRange(ops[k], n)
  }

  /** How many operations come before the first one out of range. */
  function FirstOutOfRange(ops: seq<PreparedOp>, n: int): (k: nat)
    ensures k <= |ops|
    ensures AllInRange(ops[..k], n)
    ensures k < |ops| ==> !OpInRange(ops[k], n)
    ensures k == |ops| <==> AllInRange(ops, n)
  {
    if ops == [] || !OpInRange(ops[0], n) then 0 else
      var k := FirstOutOfRange(ops[1..], n);
      assert ops[..k + 1] == [ops[0]] + ops[1..][..k];
      assert ops == [ops[0]] + ops[1..];
      k + 1
  }

  lemma StopsAt(ops: seq<PreparedOp>, k: int, n: int)
    requires 0 <= k < |ops| && k <= FirstOutOfRange(ops, n)
    ensures OpInRange(ops[k], n) <==> k < FirstOutOfRange(ops, n)
  {
    var stop := FirstOutOfRange(ops, n);
    if k < stop {
      assert ops[..stop][k] == ops[k];
    }
  }

  /** What the operations read and write. */
  datatype Snapshot = Snapshot(nodes: seq<SymbolNode>, edges: seq<Edge>)

  function ApplyOne(g: Snapshot, op: PreparedOp): (r: Snapshot)
    requires OpInRange(op, |g.nodes|)
    ensures |r.nodes| == |g.nodes|
  {
    match op
    case AddEdge(src, dst, flags) => g.(edges := Insert(g.edges, (src, dst, flags)))
    case Entrypoint(decl) => g.(nodes := OrOne(g.nodes, (decl, ENTRYPOINT)))
    case FlagDecl(decl, flags) => g.(nodes := OrOne(g.nodes, (decl, flags)))
  }

  /** The operations one at a time, in input order. */
  function ApplyInOrder(g: Snapshot, ops: seq<PreparedOp>): (r: Snapshot)
    requires AllInRange(ops, |g.nodes|)
    ensures |r.nodes| == |g.nodes|
  {
    if ops == [] then g else ApplyOne(ApplyInOrder(g, ops[..|ops| - 1]), ops[|ops| - 1])
  }

  lemma {:induction false} OrAllSnoc(nodes: seq<SymbolNode>, ors: seq<(int, NodeFlags)>, x: (int, NodeFlags))
    requires 0 <= x.0 < |nodes| && forall k :: 0 <= k < |ors| ==> 0 <= ors[k].0 < |nodes|
    ensures OrAll(nodes, ors + [x]) == OrOne(OrAll(nodes, ors), x)
    decreases |ors|
  {
    if ors == [] {
      assert ([] + [x])[1..] == [] && (ors + [x])[0] == x;
    } else {
      assert (ors + [x])[0] == ors[0] && (ors + [x])[1..] == ors[1..] + [x];
      OrAllSnoc(OrOne(nodes, ors[0]), ors[1..], x);
    }
  }

  /** Edges and flags do not interfere: doing all edges, then all ORs, is the same. */
  lemma {:induction false} InOrderSplits(g: Snapshot, ops: seq<PreparedOp>)
    requires AllInRange(ops, |g.nodes|)
    ensures forall k :: 0 <= k < |OrsOf(ops)| ==> 0 <= OrsOf(ops)[k].0 < |g.nodes|
    ensures ApplyInOrder(g, ops) == Snapshot(OrAll(g.nodes, OrsOf(ops)), EdgesAfter(g.edges, ops))
    decreases |ops|
  {
    if ops != [] {
      var before, op := ops[..|ops| - 1], ops[|ops| - 1];
      InOrderSplits(g, before);
      match op
      case AddEdge(_, _, _) =>
      case Entrypoint(decl) => OrAllSnoc(g.nodes, OrsOf(before), (decl, ENTRYPOINT));
      case FlagDecl(decl, flags) => OrAllSnoc(g.nodes, OrsOf(before), (decl, flags));
    }
  }

  /** The flag bits an operation asks for are on its node already. */
  ghost predicate AsksNothingNew(op: PreparedOp, nodes: seq<SymbolNode>)
    requires OpInRange(op, |nodes|)
  {
    match op
    case AddEdge(_, _, _) => true
    case Entrypoint(decl) => ENTRYPOINT <= nodes[decl].flags
    case FlagDecl(decl, flags) => flags <= nodes[decl].flags
  }

  lemma {:induction false} FlagsOnlyGrow(g: Snapshot, ops: seq<PreparedOp>, i: int)
    requires AllInRange(ops, |g.nodes|) && 0 <= i < |g.nodes|
    ensures g.nodes[i].flags <= ApplyInOrder(g, ops).nodes[i].flags
    decreases |ops|
  {
    if ops != [] {
      FlagsOnlyGrow(g, ops[..|ops| - 1], i);
    }
  }

  /** When a batch fails the flag changes asked for before the failing operation
      are lost, although its edges stay. The nodes come out as if the earlier
      operations had landed exactly when none of them asked for a new bit. */
  lemma {:induction false} EarlierFlagsLandIff(g: Snapshot, ops: seq<PreparedOp>)
    requires AllInRange(ops, |g.nodes|)
    ensures ApplyInOrder(g, ops).nodes == g.nodes <==>
      forall k :: 0 <= k < |ops| ==> AsksNothingNew(ops[k], g.nodes)
    decreases |ops|
  {
    if ops != [] {
      var before, op := ops[..|ops| - 1], ops[|ops| - 1];
      EarlierFlagsLandIff(g, before);
      assert ops == before + [op];
      var mid := ApplyInOrder(g, before);
      if ApplyInOrder(g, ops).nodes == g.nodes {
        forall i | 0 <= i < |g.nodes|
          ensures mid.nodes[i] == g.nodes[i]
        {
          FlagsOnlyGrow(g, before, i);
          FlagsOnlyGrow(g, ops, i);
          SameButFlags(g, before, i);
          LastOnlyGrows(mid, op, i);
        }
        assert mid.nodes == g.nodes;
      }
      OneChangesNothingIff(mid, op);
    }
  }

  lemma LastOnlyGrows(g: Snapshot, op: PreparedOp, i: int)
    requires OpInRange(op, |g.nodes|) && 0 <= i < |g.nodes|
    ensures g.nodes[i].flags <= ApplyOne(g, op).nodes[i].flags
  {
  }

  lemma {:induction false} SameButFlags(g: Snapshot, ops: seq<PreparedOp>, i: int)
    requires AllInRange(ops, |g.nodes|) && 0 <= i < |g.nodes|
    ensures ApplyInOrder(g, ops).nodes[i] == g.nodes[i].(flags := ApplyInOrder(g, ops).nodes[i].flags)
    decreases |ops|
  {
    if ops != [] {
      SameButFlags(g, ops[..|ops| - 1], i);
    }
  }

  lemma OneChangesNothingIff(g: Snapshot, op: PreparedOp)
    requires OpInRange(op, |g.nodes|)
    ensures ApplyOne(g, op).nodes == g.nodes <==> AsksNothingNew(op, g.nodes)
  {
    if op.AddEdge? {
    } else {
      var bits := if op.Entrypoint? then ENTRYPOINT else op.flags;
      var node := g.nodes[op.decl];
      assert ApplyOne(g, op).nodes[op.decl].flags == node.flags + bits;
      if bits <= node.flags {
        assert node.flags + bits == node.flags;
        assert ApplyOne(g, op).nodes == g.nodes;
      }
    }
  }

  /** The edge list after a batch, and the flag ORs the batch asks for. */
  function EdgesAfter(edges: seq<Edge>, ops: seq<PreparedOp>): seq<Edge> {
    if ops == [] then edges else
      var before, op := EdgesAfter(edges, ops[..|ops| - 1]), ops[|ops| - 1];
      if op.AddEdge? then Insert(before, (op.src, op.dst, op.edgeFlags)) else before
  }

  function OrsOf(ops: seq<PreparedOp>): seq<(int, NodeFlags)> {
    if ops == [] then [] else
      var before, op := OrsOf(ops[..|ops| - 1]), ops[|ops| - 1];
      match op
      case AddEdge(_, _, _) => before
      case Entrypoint(decl) => before + [(decl, ENTRYPOINT)]
      case FlagDecl(decl, flags) => before + [(decl, flags)]
  }

  // ------------------------------------------------ what a batch leaves, in its own words

  /** The `k`th operation asks for the edge `e`. */
  ghost predicate Requests(ops: seq<PreparedOp>, k: int, e: Edge) {
    0 <= k < |ops| && ops[k].AddEdge? && ops[k].src == e.0 && ops[k].dst == e.1 && ops[k].edgeFlags == e.2
  }

  ghost predicate Requested(ops: seq<PreparedOp>, e: Edge) {
    exists k :: Requests(ops, k, e)
  }

  /** `a` is asked for before `b` is. */
  ghost predicate RequestedBefore(ops: seq<PreparedOp>, a: Edge, b: Edge) {
    exists k :: Requests(ops, k, a) && forall l :: 0 <= l <= k ==> !Requests(ops, l, b)
  }

  /** The old edges stay first, the requested ones are there with them and no
      others, and new ones come in the order they are first asked for. */
  ghost predicate Landed(before: seq<Edge>, after: seq<Edge>, ops: seq<PreparedOp>) {
    && before <= after
    && (forall e :: e in after <==> e in before || Requested(ops, e))
    && forall i, j :: |before| <= i < j < |after| ==> RequestedBefore(ops, after[i], after[j])
  }

  /** The `k`th operation asks for the flag `bit` on node `i`. */
  ghost predicate Asks(ops: seq<PreparedOp>, k: int, i: int, bit: nat) {
    0 <= k < |ops| &&
    match ops[k]
    case AddEdge(_, _, _) => false
    case Entrypoint(decl) => decl == i && bit == 1
    case FlagDecl(decl, flags) => decl == i && bit in flags
  }

  ghost predicate Asked(ops: seq<PreparedOp>, i: int, bit: nat) {
    exists k :: Asks(ops, k, i, bit)
  }

  /** The batch stopped at the first operation out of range, having landed the edges
      of those before it; the index is that operation's, its source first. */
  ghost predicate Refused(ops: seq<PreparedOp>, n: int, index: nat, before: seq<Edge>, after: seq<Edge>) {
    exists k :: 0 <= k < |ops| && RefusedAt(ops, k, n, index) && Landed(before, after, ops[..k])
  }

  ghost predicate RefusedAt(ops: seq<PreparedOp>, k: int, n: int, index: nat)
    requires 0 <= k < |ops|
  {
    && index >= n
    && (match ops[k]
        case AddEdge(src, dst, _) => index == src || (src < n && index == dst)
        case Entrypoint(decl) => index == decl
        case FlagDecl(decl, _) => index == decl)
    && forall j :: 0 <= j < k ==> OpInRange(ops[j], n)
  }

  /** Each node has the flags it had and those asked for, and is otherwise as it was. */
  ghost predicate Flagged(before: seq<SymbolNode>, after: seq<SymbolNode>, ops: seq<PreparedOp>) {
    && |after| == |before|
    && (forall i :: 0 <= i < |after| ==> after[i] == before[i].(flags := after[i].flags))
    && forall i, bit: nat :: 0 <= i < |after| ==> (bit in after[i].flags <==> bit in before[i].flags || Asked(ops, i, bit))
  }

  lemma RequestedSnoc(ops: seq<PreparedOp>, op: PreparedOp, e: Edge)
    ensures Requested(ops + [op], e) <==> Requested(ops, e) || Requests([op], 0, e)
  {
    var all := ops + [op];
    if k :| Requests(ops, k, e) {
      assert Requests(all, k, e);
    }
    if Requests([op], 0, e) {
      assert Requests(all, |ops|, e);
    }
    if k :| Requests(all, k, e) {
      assert k < |ops| ==> Requests(ops, k, e);
    }
  }

  lemma BeforeStays(ops: seq<PreparedOp>, op: PreparedOp, a: Edge, b: Edge, k: int)
    requires Requests(ops, k, a) && forall l :: 0 <= l <= k ==> !Requests(ops, l, b)
    ensures RequestedBefore(ops + [op], a, b)
  {
    assert Requests(ops + [op], k, a);
    forall l | 0 <= l <= k
      ensures !Requests(ops + [op], l, b)
    {
      assert !Requests(ops, l, b);
    }
  }

  lemma RequestedBeforeSnoc(ops: seq<PreparedOp>, op: PreparedOp, a: Edge, b: Edge)
    ensures RequestedBefore(ops, a, b) ==> RequestedBefore(ops + [op], a, b)
    ensures Requested(ops, a) && !Requested(ops, b) ==> RequestedBefore(ops + [op], a, b)
  {
    if k :| Requests(ops, k, a) && forall l :: 0 <= l <= k ==> !Requests(ops, l, b) {
      BeforeStays(ops, op, a, b, k);
    }
    if Requested(ops, a) && !Requested(ops, b) {
      var k :| Requests(ops, k, a);
      BeforeStays(ops, op, a, b, k);
    }
  }

  lemma NewEdgeIsRequested(before: seq<Edge>, mid: seq<Edge>, ops: seq<PreparedOp>, i: int)
    requires Landed(before, mid, ops) && Distinct(mid) && |before| <= i < |mid|
    ensures Requested(ops, mid[i])
  {
    assert mid[i] in mid;
    assert forall k :: 0 <= k < |before| ==> before[k] == mid[k];
  }

  lemma LandOne(before: seq<Edge>, mid: seq<Edge>, ops: seq<PreparedOp>, src: nat, dst: nat, flags: bv8)
    requires Landed(before, mid, ops) && Distinct(mid)
    ensures Landed(before, Insert(mid, (src, dst, flags)), ops + [AddEdge(src, dst, flags)])
  {
    var op, t := AddEdge(src, dst, flags), (src, dst, flags);
    var after := Insert(mid, t);
    forall e
      ensures e in after <==> e in before || Requested(ops + [op], e)
    {
      RequestedSnoc(ops, op, e);
    }
    hide Requested, RequestedBefore;
    forall i, j | |before| <= i < j < |after|
      ensures RequestedBefore(ops + [op], after[i], after[j])
    {
      RequestedBeforeSnoc(ops, op, after[i], after[j]);
      if j == |mid| {
        NewEdgeIsRequested(before, mid, ops, i);
      }
    }
  }

  lemma LandNone(before: seq<Edge>, mid: seq<Edge>, ops: seq<PreparedOp>, op: PreparedOp)
    requires Landed(before, mid, ops) && !op.AddEdge?
    ensures Landed(before, mid, ops + [op])
  {
    forall e
      ensures Requested(ops + [op], e) <==> Requested(ops, e)
    {
      RequestedSnoc(ops, op, e);
    }
    hide Requested, RequestedBefore;
    forall i, j | |before| <= i < j < |mid|
      ensures RequestedBefore(ops + [op], mid[i], mid[j])
    {
      RequestedBeforeSnoc(ops, op, mid[i], mid[j]);
    }
  }

  lemma AskedSnoc(ops: seq<PreparedOp>, op: PreparedOp, i: int, bit: nat)
    ensures Asked(ops + [op], i, bit) <==> Asked(ops, i, bit) || Asks([op], 0, i, bit)
  {
    var all := ops + [op];
    if k :| Asks(ops, k, i, bit) {
      assert Asks(all, k, i, bit);
    }
    if Asks([op], 0, i, bit) {
      assert Asks(all, |ops|, i, bit);
    }
    if k :| Asks(all, k, i, bit) {
      assert k < |ops| ==> Asks(ops, k, i, bit);
    }
  }

  lemma FlagOne(before: seq<SymbolNode>, g: Snapshot, ops: seq<PreparedOp>, op: PreparedOp)
    requires Flagged(before, g.nodes, ops) && OpInRange(op, |g.nodes|)
    ensures Flagged(before, ApplyOne(g, op).nodes, ops + [op])
  {
    var after := ApplyOne(g, op).nodes;
    forall i, bit: nat | 0 <= i < |after|
      ensures bit in after[i].flags <==> bit in before[i].flags || Asked(ops + [op], i, bit)
    {
      AskedSnoc(ops, op, i, bit);
      hide Asked;
      assert bit in after[i].flags <==> bit in g.nodes[i].flags || Asks([op], 0, i, bit);
    }
  }

  /** Applying operations in input order lands what they ask for. */
  lemma {:induction false} InOrderLands(g: Snapshot, ops: seq<PreparedOp>)
    requires AllInRange(ops, |g.nodes|) && Distinct(g.edges)
    ensures Landed(g.edges, ApplyInOrder(g, ops).edges, ops) && Distinct(ApplyInOrder(g, ops).edges)
    ensures Flagged(g.nodes, ApplyInOrder(g, ops).nodes, ops)
    decreases |ops|
  {
    if ops != [] {
      var init, op := ops[..|ops| - 1], ops[|ops| - 1];
      InOrderLands(g, init);
      assert ops == init + [op];
      var mid := ApplyInOrder(g, init);
      hide Landed, Flagged;
      FlagOne(g.nodes, mid, init, op);
      if op.AddEdge? {
        LandOne(g.edges, mid.edges, init, op.src, op.dst, op.edgeFlags);
      } else {
        LandNone(g.edges, mid.edges, init, op);
      }
    }
  }

  lemma BatchDone(start: Snapshot, ops: seq<PreparedOp>)
    requires AllInRange(ops, |start.nodes|) && Distinct(start.edges)
    ensures forall k :: 0 <= k < |OrsOf(ops)| ==> 0 <= OrsOf(ops)[k].0 < |start.nodes|
    ensures ApplyInOrder(start, ops) == Snapshot(OrAll(start.nodes, OrsOf(ops)), EdgesAfter(start.edges, ops))
    ensures Landed(start.edges, EdgesAfter(start.edges, ops), ops)
    ensures Flagged(start.nodes, OrAll(start.nodes, OrsOf(ops)), ops)
  {
    InOrderSplits(start, ops);
    InOrderLands(start, ops);
  }

  lemma BatchRefused(start: Snapshot, ops: seq<PreparedOp>, k: int)
    requires 0 <= k < |ops| && k == FirstOutOfRange(ops, |start.nodes|) && Distinct(start.edges)
    ensures !AllInRange(ops, |start.nodes|) && AllInRange(ops[..k], |start.nodes|)
    ensures EdgesAfter(start.edges, ops[..k]) == ApplyInOrder(start, ops[..k]).edges
    ensures Refused(ops, |start.nodes|, Offender(ops[k], |start.nodes|), start.edges, EdgesAfter(start.edges, ops[..k]))
  {
    hide Landed;
    var n := |start.nodes|;
    InOrderSplits(start, ops[..k]);
    InOrderLands(start, ops[..k]);
    forall j | 0 <= j < k
      ensures OpInRange(ops[j], n)
    {
      assert ops[..k][j] == ops[j];
    }
    assert RefusedAt(ops, k, n, Offender(ops[k], n));
  }

  // ------------------------------------------------- reordering the flag ORs

  /** An unstable sort by index: equal indices may come out in any order. */
  method SortByIndex(ors: seq<(int, NodeFlags)>, n: int) returns (sorted: seq<(int, NodeFlags)>)
    requires forall k :: 0 <= k < |ors| ==> 0 <= ors[k].0 < n
    ensures multiset(sorted) == multiset(ors)
    ensures forall i, j :: 0 <= i < j < |sorted| ==> sorted[i].0 <= sorted[j].0
  {
    hide Sorting;
    sorted := [];
    var rest := ors;
    SortStarts(ors);
    while rest != []
      invariant Sorting(ors, sorted, rest)
      decreases |rest|
    {
      ghost var least := LeastIndex(rest);
      assert forall j :: 0 <= j < |rest| ==> rest[least].0 <= rest[j].0;
      var k :| 0 <= k < |rest| && forall j :: 0 <= j < |rest| ==> rest[k].0 <= rest[j].0;
      SortPicks(ors, sorted, rest, k);
      sorted := sorted + [rest[k]];
      rest := rest[..k] + rest[k + 1..];
    }
    SortEnds(ors, sorted, rest);
  }

  /** `sorted` has been picked out of `ors`, least first; `rest` is what is left. */
  ghost predicate Sorting(ors: seq<(int, NodeFlags)>, sorted: seq<(int, NodeFlags)>, rest: seq<(int, NodeFlags)>) {
    && multiset(sorted) + multiset(rest) == multiset(ors)
    && (forall i, j :: 0 <= i < j < |sorted| ==> sorted[i].0 <= sorted[j].0)
    && (forall i, j :: 0 <= i < |sorted| && 0 <= j < |rest| ==> sorted[i].0 <= rest[j].0)
  }

  lemma SortStarts(ors: seq<(int, NodeFlags)>)
    ensures Sorting(ors, [], ors)
  {
  }

  lemma SortPicks(ors: seq<(int, NodeFlags)>, sorted: seq<(int, NodeFlags)>, rest: seq<(int, NodeFlags)>, k: int)
    requires Sorting(ors, sorted, rest) && 0 <= k < |rest| && forall j :: 0 <= j < |rest| ==> rest[k].0 <= rest[j].0
    ensures Sorting(ors, sorted + [rest[k]], rest[..k] + rest[k + 1..])
  {
    PickedOut(rest, k);
    var rest' := rest[..k] + rest[k + 1..];
    assert forall j :: 0 <= j < |rest'| ==> rest'[j] == rest[if j < k then j else j + 1];
  }

  lemma PickedOut(rest: seq<(int, NodeFlags)>, k: int)
    requires 0 <= k < |rest|
    ensures multiset([rest[k]]) + multiset(rest[..k] + rest[k + 1..]) == multiset(rest)
  {
    assert rest == rest[..k] + ([rest[k]] + rest[k + 1..]);
  }

  lemma SortEnds(ors: seq<(int, NodeFlags)>, sorted: seq<(int, NodeFlags)>, rest: seq<(int, NodeFlags)>)
    requires Sorting(ors, sorted, rest) && rest == []
    ensures multiset(sorted) == multiset(ors)
    ensures forall i, j :: 0 <= i < j < |sorted| ==> sorted[i].0 <= sorted[j].0
  {
  }

  ghost function LeastIndex(s: seq<(int, NodeFlags)>): (k: int)
    requires s != []
    ensures 0 <= k < |s| && forall j :: 0 <= j < |s| ==> s[k].0 <= s[j].0
  {
    var last := |s| - 1;
    if last == 0 then 0 else
      var k := LeastIndex(s[..last]);
      assert forall j :: 0 <= j < last ==> s[..last][j] == s[j];
      if s[last].0 < s[k].0 then last else k
  }

  lemma OrsCommute(nodes: seq<SymbolNode>, a: (int, NodeFlags), b: (int, NodeFlags))
    requires 0 <= a.0 < |nodes| && 0 <= b.0 < |nodes|
    ensures OrOne(OrOne(nodes, a), b) == OrOne(OrOne(nodes, b), a)
  {
    hide OrBits;
    var x, y := OrOne(OrOne(nodes, a), b), OrOne(OrOne(nodes, b), a);
    forall i | 0 <= i < |nodes|
      ensures x[i] == y[i]
    {
      OrBitsCommute(nodes[i], a.1, b.1);
    }
  }

  lemma OrBitsCommute(node: SymbolNode, a: NodeFlags, b: NodeFlags)
    ensures OrBits(OrBits(node, a), b) == OrBits(OrBits(node, b), a)
  {
    assert node.flags + a + b == node.flags + b + a;
  }

  /** Pulling one OR to the front changes nothing. */
  lemma {:induction false} PullOr(nodes: seq<SymbolNode>, ors: seq<(int, NodeFlags)>, k: int)
    requires forall j :: 0 <= j < |ors| ==> 0 <= ors[j].0 < |nodes|
    requires 0 <= k < |ors|
    ensures OrAll(nodes, ors) == OrAll(OrOne(nodes, ors[k]), ors[..k] + ors[k + 1..])
    decreases |ors|
  {
    if k == 0 {
      assert ors[..0] + ors[1..] == ors[1..];
    } else {
      PullOr(OrOne(nodes, ors[0]), ors[1..], k - 1);
      OrsCommute(nodes, ors[0], ors[k]);
      var rest := ors[..k] + ors[k + 1..];
      assert ors[1..][..k - 1] + ors[1..][k..] == rest[1..] && rest[0] == ors[0];
    }
  }

  lemma DropFirst(a: seq<(int, NodeFlags)>, b: seq<(int, NodeFlags)>, k: int)
    requires multiset(a) == multiset(b) && a != [] && 0 <= k < |b| && b[k] == a[0]
    ensures multiset(a[1..]) == multiset(b[..k] + b[k + 1..])
  {
    assert b == b[..k] + ([b[k]] + b[k + 1..]);
    assert a == [a[0]] + a[1..];
    assert multiset(a[1..]) == multiset(a) - multiset{a[0]};
    assert multiset(b[..k] + b[k + 1..]) == multiset(b) - multiset{b[k]};
  }

  /** ORs applied in any order leave the same flags. */
  lemma {:induction false} PermutedOrsAgree(nodes: seq<SymbolNode>, a: seq<(int, NodeFlags)>, b: seq<(int, NodeFlags)>)
    requires multiset(a) == multiset(b)
    requires forall j :: 0 <= j < |a| ==> 0 <= a[j].0 < |nodes|
    ensures forall j :: 0 <= j < |b| ==> 0 <= b[j].0 < |nodes|
    ensures OrAll(nodes, a) == OrAll(nodes, b)
    decreases |a|
  {
    forall j | 0 <= j < |b|
      ensures 0 <= b[j].0 < |nodes|
    {
      assert b[j] in multiset(a);
    }
    if a == [] {
      assert |multiset(b)| == 0;
    } else {
      assert a[0] in multiset(b);
      var k :| 0 <= k < |b| && b[k] == a[0];
      var b' := b[..k] + b[k + 1..];
      DropFirst(a, b, k);
      PullOr(nodes, b, k);
      PermutedOrsAgree(OrOne(nodes, a[0]), a[1..], b');
    }
  }
}
