/** Whole builds: sequences of edge operations, and the bulk path against the
    one-at-a-time path. */
module EdgeRuns {
  import opened Graph
  import opened EdgeStore
  import opened GraphBuilder

  datatype EdgeOp = Add(t: Edge) | Extend(ts: seq<Edge>) | Bulk(triples: seq<Edge>) | Reset

  /** What the builder's methods make of the edge list. */
  function Step(edges: seq<Edge>, op: EdgeOp): seq<Edge> {
    match op
    case Add(t) => Insert(edges, t)
    case Extend(ts) => InsertAll(edges, ts)
    case Bulk(triples) => triples
    case Reset => []
  }

  function Run(edges: seq<Edge>, ops: seq<EdgeOp>): seq<Edge>
    decreases |ops|
  {
    if ops == [] then edges else Run(Step(edges, ops[0]), ops[1..])
  }

  /** Each operation's precondition along the run. */
  ghost predicate Allowed(edges: seq<Edge>, ops: seq<EdgeOp>, n: int)
    decreases |ops|
  {
    ops == [] ||
    ((match ops[0]
      case Add(t) => 0 <= t.0 < n && 0 <= t.1 < n
      case Extend(ts) => EdgesWithin(ts, n)
      case Bulk(triples) => edges == [] && StrictlySorted(triples) && EdgesWithin(triples, n)
      case Reset => true)
     && Allowed(Step(edges, ops[0]), ops[1..], n))
  }

  /** A builder taken through a whole run: at every point its tables and its
      deduplication state match the list the operations stand for. */
  method Replay(b: Builder, ops: seq<EdgeOp>, workers: nat)
    requires b.Valid() && Allowed(b.edges, ops, |b.nodes|)
    requires b.edges == [] ==> b.edgeOverflow == {}
    modifies b`edges, b`bulkLen, b`edgeOverflow, b`forwardAdj, b`reverseAdj
    ensures b.Valid() && b.edges == Run(old(b.edges), ops)
    ensures forall i, j :: 0 <= i < j < |b.edges| ==> b.edges[i] != b.edges[j]
    ensures forall i :: 0 <= i < |b.nodes| ==>
      b.forwardAdj[i] == Outgoing(b.edges, i) && b.reverseAdj[i] == Incoming(b.edges, i)
    decreases |ops|
  {
    if ops != [] {
      match ops[0] {
        case Add((src, dst, flags)) => b.AddEdge(src, dst, flags);
        case Extend(ts) => b.ExtendEdges(ts);
        case Bulk(triples) => b.InitEdgesBulk(triples, workers);
        case Reset => b.ResetDerivedEdges();
      }
      OverflowOfNothing(b);
      Replay(b, ops[1..], workers);
    }
  }

  lemma OverflowOfNothing(b: Builder)
    requires b.Valid()
    ensures b.edges == [] ==> b.edgeOverflow == {}
  {
  }

  /** The bulk path leaves the list the one-at-a-time path leaves, and so does
      every run that follows; the tables are functions of the list. */
  lemma BulkEqualsOneByOne(triples: seq<Edge>, ops: seq<EdgeOp>)
    requires StrictlySorted(triples)
    ensures Run([], [Bulk(triples)] + ops) == Run([], [Extend(triples)] + ops)
  {
    forall i, j | 0 <= i < j < |triples|
      ensures triples[i] != triples[j]
    {
      assert Less(triples[i], triples[j]);
    }
    assert [] + triples == triples;
    OneByOneGivesTheList([], triples);
    assert ([Bulk(triples)] + ops)[1..] == ops && ([Extend(triples)] + ops)[1..] == ops;
  }

  /** Inserting a list is inserting its members one after another. */
  lemma {:induction false} ExtendIsRepeatedAdd(edges: seq<Edge>, ts: seq<Edge>)
    ensures InsertAll(edges, ts) == Run(edges, seq(|ts|, k requires 0 <= k < |ts| => Add(ts[k])))
    decreases |ts|
  {
    if ts != [] {
      var adds := seq(|ts|, k requires 0 <= k < |ts| => Add(ts[k]));
      assert adds[1..] == seq(|ts[1..]|, k requires 0 <= k < |ts[1..]| => Add(ts[1..][k]));
      ExtendIsRepeatedAdd(Insert(edges, ts[0]), ts[1..]);
    }
  }
}
