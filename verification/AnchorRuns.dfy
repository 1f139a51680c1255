/** External anchors over whole runs of interning and tombstoning. */
module AnchorRuns {
  import opened Graph
  import opened GraphBuilder

  datatype NodeOp =
    | Intern(fqname: string, path: string, file: int)
    | InternOther(node: SymbolNode, file: int)
    | Tombstone(start: nat, len: nat)

  /** External nodes are interned only as externals. */
  predicate Proper(ops: seq<NodeOp>) {
    forall k :: 0 <= k < |ops| && ops[k].InternOther? ==> ops[k].node.kind != External
  }

  /** `idxs[k]` is the index interning returned, and it is still the name's index. */
  ghost predicate Answered(ops: seq<NodeOp>, idxs: seq<int>, anchors: map<string, int>) {
    |idxs| <= |ops| &&
    forall k :: 0 <= k < |idxs| && ops[k].Intern? ==> ops[k].fqname in anchors && anchors[ops[k].fqname] == idxs[k]
  }

  ghost predicate Extends(before: map<string, int>, after: map<string, int>) {
    forall f :: f in before ==> f in after && after[f] == before[f]
  }

  /** Runs the operations; tombstoning past the last node stops the run. However
      interning externals, interning other nodes and tombstoning alternate, a
      name keeps the index it was first given, every request for it returns that
      index, and no node is removed. */
  method Replay(b: Builder, ops: seq<NodeOp>) returns (idxs: seq<int>)
    requires b.Valid() && b.Anchored() && b.Interned() && Proper(ops)
    modifies b
    ensures b.Valid() && b.Anchored() && b.Interned() && |old(b.nodes)| <= |b.nodes|
    ensures Extends(old(b.externalNodes), b.externalNodes)
    ensures Answered(ops, idxs, b.externalNodes)
    ensures |idxs| < |ops| ==> ops[|idxs|].Tombstone? && ops[|idxs|].start + ops[|idxs|].len > |b.nodes|
  {
    hide AnchorsKept, TableKept, b.Valid;
    idxs := [];
    while |idxs| < |ops|
      invariant b.Valid() && b.Anchored() && b.Interned() && |old(b.nodes)| <= |b.nodes|
      invariant Extends(old(b.externalNodes), b.externalNodes)
      invariant Answered(ops, idxs, b.externalNodes)
    {
      match ops[|idxs|] {
        case Intern(fqname, path, file) =>
          var idx := b.InternExternal(fqname, path, file);
          idxs := idxs + [idx];
        case InternOther(node, file) =>
          var idx := b.InternNode(node, file);
          idxs := idxs + [idx];
        case Tombstone(start, len) =>
          if start + len > |b.nodes| {
            return;
          }
          b.TombstoneBlock(start, len);
          idxs := idxs + [-1];
      }
    }
  }

  /** No two live anchors share a name. */
  lemma LiveAnchorsHaveDistinctNames(nodes: seq<SymbolNode>, nodeIndex: map<NodeKey, int>, anchors: map<string, int>,
                                     tombstoned: set<int>, i: int, j: int)
    requires AnchorsKept(nodes, nodeIndex, anchors, tombstoned)
    requires 0 <= i < |nodes| && 0 <= j < |nodes| && nodes[i].kind == External && nodes[j].kind == External
    requires nodes[i].fqname == nodes[j].fqname
    ensures i == j
  {
  }

  /** Two nodes interned one after the other get one index exactly when their file,
      name, kind and positions agree, whatever their flags, paths and imports. */
  method InternPair(b: Builder, first: SymbolNode, file: int, second: SymbolNode, file': int) returns (i: int, j: int)
    requires b.Valid() && b.Anchored() && b.Interned()
    modifies b
    ensures b.Valid()
    ensures i == j <==> SameIdentity(first, file, second, file')
  {
    i := b.InternNode(first, file);
    KeysIdentify(first, file, second, file');
    j := b.InternNode(second, file');
  }
}
