/** The edge list, its deduplication state and its two adjacency tables, as
    values: what each operation makes of the list, and what keeps the four
    representations in step. */
module EdgeStore {
  import opened Graph
  import opened Scatter

  /** The order of edge triples: source, then destination, then flags. */
  predicate Less(a: Edge, b: Edge) {
    a.0 < b.0 || (a.0 == b.0 && (a.1 < b.1 || (a.1 == b.1 && a.2 < b.2)))
  }

  /** Source first, then destination, then flags. */
  lemma OrderIsLexicographic(a: Edge, b: Edge)
    ensures Less(a, b) <==> !(a == b || Less(b, a))
    ensures a.0 < b.0 ==> Less(a, b)
    ensures a.0 == b.0 && a.1 < b.1 ==> Less(a, b)
    ensures a.0 == b.0 && a.1 == b.1 && a.2 < b.2 ==> Less(a, b)
  {
  }

  ghost predicate StrictlySorted(edges: seq<Edge>) {
    forall i, j :: 0 <= i < j < |edges| ==> Less(edges[i], edges[j])
  }

  ghost predicate Distinct(edges: seq<Edge>) {
    forall i, j :: 0 <= i < j < |edges| ==> edges[i] != edges[j]
  }

  /** Adding one edge, unless it is there already. */
  function Insert(edges: seq<Edge>, t: Edge): (r: seq<Edge>)
    ensures t in r && edges <= r
    ensures forall e :: e in r <==> e in edges || e == t
    ensures Distinct(edges) ==> Distinct(r)
  {
    if t in edges then edges else edges + [t]
  }

  /** Adding edges one at a time. */
  function InsertAll(edges: seq<Edge>, ts: seq<Edge>): (r: seq<Edge>)
    ensures forall e :: e in r <==> e in edges || e in ts
    ensures Distinct(edges) ==> Distinct(r)
    decreases |ts|
  {
    if ts == [] then edges else InsertAll(Insert(edges, ts[0]), ts[1..])
  }

  /** The standard library's binary search over a sorted slice. */
  method BinarySearch(sorted: seq<Edge>, t: Edge) returns (found: bool)
    requires StrictlySorted(sorted)
    ensures found <==> t in sorted
  {
    var lo, hi := 0, |sorted|;
    while lo < hi
      invariant 0 <= lo <= hi <= |sorted|
      invariant forall i :: 0 <= i < |sorted| && !(lo <= i < hi) ==> sorted[i] != t
    {
      var mid := (lo + hi) / 2;
      if sorted[mid] == t {
        return true;
      } else if Less(sorted[mid], t) {
        lo := mid + 1;
      } else {
        hi := mid;
      }
    }
    found := false;
  }

  /** The list, its sorted prefix and overflow, and the two tables, in step. */
  ghost predicate InStep(n: int, edges: seq<Edge>, bulkLen: int, overflow: set<Edge>, forward: seq<Row>, reverse: seq<Row>) {
    && EdgesWithin(edges, n) && Distinct(edges)
    && 0 <= bulkLen <= |edges| && StrictlySorted(edges[..bulkLen])
    && overflow == (set e | e in edges[bulkLen..])
    && |forward| == |reverse| == n
    && (forall i :: 0 <= i < n ==> forward[i] == Outgoing(edges, i))
    && (forall i :: 0 <= i < n ==> reverse[i] == Incoming(edges, i))
  }

  lemma InStepMembership(n: int, edges: seq<Edge>, bulkLen: int, overflow: set<Edge>, forward: seq<Row>, reverse: seq<Row>, t: Edge)
    requires InStep(n, edges, bulkLen, overflow, forward, reverse)
    ensures t in edges <==> t in edges[..bulkLen] || t in overflow
  {
    assert edges == edges[..bulkLen] + edges[bulkLen..];
  }

  lemma InStepDistinct(n: int, edges: seq<Edge>, bulkLen: int, overflow: set<Edge>, forward: seq<Row>, reverse: seq<Row>)
    requires InStep(n, edges, bulkLen, overflow, forward, reverse)
    ensures Distinct(edges)
  {
  }

  lemma InStepEmpty(n: nat)
    ensures InStep(n, [], 0, {}, seq(n, _ => []), seq(n, _ => []))
  {
  }

  lemma InStepPush(n: int, edges: seq<Edge>, bulkLen: int, overflow: set<Edge>, forward: seq<Row>, reverse: seq<Row>, t: Edge)
    requires InStep(n, edges, bulkLen, overflow, forward, reverse) && t !in edges
    requires 0 <= t.0 < n && 0 <= t.1 < n
    ensures InStep(n, edges + [t], bulkLen, overflow + {t},
                   forward[t.0 := forward[t.0] + [(t.1, t.2)]], reverse[t.1 := reverse[t.1] + [(t.0, t.2)]])
  {
    var edges' := edges + [t];
    assert edges'[..|edges|] == edges && edges'[..bulkLen] == edges[..bulkLen];
    assert edges'[bulkLen..] == edges[bulkLen..] + [t];
  }

  lemma InStepBulk(n: int, triples: seq<Edge>, forward: seq<Row>, reverse: seq<Row>)
    requires StrictlySorted(triples) && EdgesWithin(triples, n) && |forward| == |reverse| == n
    requires forall i :: 0 <= i < n ==> forward[i] == Outgoing(triples, i) && reverse[i] == Incoming(triples, i)
    ensures InStep(n, triples, |triples|, {}, forward, reverse)
  {
    assert triples[..|triples|] == triples;
    forall i, j | 0 <= i < j < |triples|
      ensures triples[i] != triples[j]
    {
      assert Less(triples[i], triples[j]);
    }
  }

  lemma InStepNewNode(n: int, edges: seq<Edge>, bulkLen: int, overflow: set<Edge>, forward: seq<Row>, reverse: seq<Row>)
    requires InStep(n, edges, bulkLen, overflow, forward, reverse)
    ensures InStep(n + 1, edges, bulkLen, overflow, forward + [[]], reverse + [[]])
  {
    NoEdgesAt(edges, n);
  }

  lemma {:induction false} NoEdgesAt(edges: seq<Edge>, n: int)
    requires EdgesWithin(edges, n)
    ensures Outgoing(edges, n) == [] && Incoming(edges, n) == []
  {
    if edges != [] {
      assert edges[|edges| - 1] in edges;
      assert forall e :: e in edges[..|edges| - 1] ==> e in edges;
      NoEdgesAt(edges[..|edges| - 1], n);
    }
  }

  /** Sorted, duplicate-free triples inserted one by one give themselves. */
  lemma {:induction false} OneByOneGivesTheList(done: seq<Edge>, ts: seq<Edge>)
    requires Distinct(done + ts)
    ensures InsertAll(done, ts) == done + ts
    decreases |ts|
  {
    if ts == [] {
      assert done + ts == done;
    } else {
      assert (done + ts)[|done|] == ts[0];
      assert ts[0] !in done by {
        forall i | 0 <= i < |done|
          ensures done[i] != ts[0]
        {
          assert (done + ts)[i] == done[i];
        }
      }
      assert done + [ts[0]] + ts[1..] == done + ts;
      OneByOneGivesTheList(done + [ts[0]], ts[1..]);
    }
  }
}
