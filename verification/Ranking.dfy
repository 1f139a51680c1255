/** Ranking the nodes of a finite relation by the longest chain that starts there. */
module Ranking {

  /** Nodes, each related to the next. */
  ghost predicate IsChain<T>(rel: set<(T, T)>, p: seq<T>) {
    p != [] && forall i :: 0 < i < |p| ==> (p[i - 1], p[i]) in rel
  }

  /** No chain leads back to where it started. */
  ghost predicate Acyclic<T(!new)>(rel: set<(T, T)>) {
    forall p: seq<T> :: IsChain(rel, p) && |p| > 1 ==> p[0] != p[|p| - 1]
  }

  /** No chain has more than `top` steps. */
  ghost predicate ChainsWithin<T(!new)>(rel: set<(T, T)>, top: nat) {
    forall p: seq<T> :: IsChain(rel, p) ==> |p| <= top + 1
  }

  /** No chain that starts at `n` has more than `top` steps. */
  ghost predicate ChainsFromWithin<T(!new)>(rel: set<(T, T)>, n: T, top: nat) {
    forall p: seq<T> :: IsChain(rel, p) && p[0] == n ==> |p| <= top + 1
  }

  ghost predicate Between<T>(rel: set<(T, T)>, nodes: set<T>) {
    forall e :: e in rel ==> e.0 in nodes && e.1 in nodes
  }

  /** What is related to lower-ranked nodes only is ranked above them. */
  ghost predicate Descends<T>(rel: set<(T, T)>, rank: map<T, nat>) {
    forall e :: e in rel && e.0 in rank ==> e.1 in rank && rank[e.1] < rank[e.0]
  }

  /** The nodes from which no chain of more than `k` nodes starts, layer by layer. */
  ghost function Layer<T>(nodes: set<T>, rel: set<(T, T)>, k: nat): set<T> {
    if k == 0 then {} else set n | n in nodes && forall e :: e in rel && e.0 == n ==> e.1 in Layer(nodes, rel, k - 1)
  }

  lemma {:induction false} LayersGrow<T>(nodes: set<T>, rel: set<(T, T)>, k: nat)
    ensures Layer(nodes, rel, k) <= Layer(nodes, rel, k + 1)
  {
    if k > 0 {
      LayersGrow(nodes, rel, k - 1);
    }
  }

  lemma {:induction false} LaterLayersInclude<T>(nodes: set<T>, rel: set<(T, T)>, k: nat, j: nat)
    requires k <= j
    ensures Layer(nodes, rel, k) <= Layer(nodes, rel, j)
    decreases j - k
  {
    if k < j {
      LayersGrow(nodes, rel, k);
      LaterLayersInclude(nodes, rel, k + 1, j);
    }
  }

  lemma {:induction false} OutsideLayerStartsChain<T>(nodes: set<T>, rel: set<(T, T)>, k: nat, n: T) returns (p: seq<T>)
    requires Between(rel, nodes) && n in nodes && n !in Layer(nodes, rel, k)
    ensures IsChain(rel, p) && p[0] == n && |p| == k + 1
  {
    if k == 0 {
      p := [n];
    } else {
      var e :| e in rel && e.0 == n && e.1 !in Layer(nodes, rel, k - 1);
      var rest := OutsideLayerStartsChain(nodes, rel, k - 1, e.1);
      p := [n] + rest;
      forall i | 0 < i < |p|
        ensures (p[i - 1], p[i]) in rel
      {
        if i > 1 {
          assert (rest[i - 2], rest[i - 1]) in rel;
        }
      }
    }
  }

  /** Where a node first appears. */
  ghost function FirstLayer<T>(nodes: set<T>, rel: set<(T, T)>, n: T, k: nat): (r: nat)
    requires n in Layer(nodes, rel, k)
    ensures 0 < r <= k && n in Layer(nodes, rel, r) && n !in Layer(nodes, rel, r - 1)
  {
    if n in Layer(nodes, rel, k - 1) then FirstLayer(nodes, rel, n, k - 1) else k
  }

  lemma SuccessorIsBelow<T>(nodes: set<T>, rel: set<(T, T)>, n: T, m: T, k: nat)
    requires k > 0 && n in Layer(nodes, rel, k) && (n, m) in rel
    ensures m in Layer(nodes, rel, k - 1)
  {
  }

  lemma SuccessorComesFirst<T>(nodes: set<T>, rel: set<(T, T)>, n: T, m: T, k: nat)
    requires n in Layer(nodes, rel, k) && (n, m) in rel
    ensures m in Layer(nodes, rel, k) && FirstLayer(nodes, rel, m, k) < FirstLayer(nodes, rel, n, k)
  {
    hide Layer, FirstLayer;
    var r := FirstLayer(nodes, rel, n, k);
    SuccessorIsBelow(nodes, rel, n, m, r);
    LaterLayersInclude(nodes, rel, r - 1, k);
    var s := FirstLayer(nodes, rel, m, k);
    if s >= r {
      LaterLayersInclude(nodes, rel, r - 1, s - 1);
      assert false;
    }
  }

  lemma ShortChainsFillLayer<T(!new)>(nodes: set<T>, rel: set<(T, T)>, n: T, top: nat)
    requires Between(rel, nodes) && n in nodes && ChainsFromWithin(rel, n, top)
    ensures n in Layer(nodes, rel, top + 1)
  {
    if n !in Layer(nodes, rel, top + 1) {
      var p := OutsideLayerStartsChain(nodes, rel, top + 1, n);
      assert false;
    }
  }

  /** The rank of each node of the first `top + 1` layers: the longest chain that
      starts there. */
  ghost function Ranks<T>(nodes: set<T>, rel: set<(T, T)>, top: nat): (rank: map<T, nat>)
    ensures rank.Keys == Layer(nodes, rel, top + 1)
    ensures forall n :: n in rank ==> rank[n] == FirstLayer(nodes, rel, n, top + 1) - 1
  {
    var ranked := Layer(nodes, rel, top + 1);
    map n | n in ranked :: FirstLayer(nodes, rel, n, top + 1) - 1
  }

  lemma RanksDescend<T>(nodes: set<T>, rel: set<(T, T)>, top: nat)
    ensures Descends(rel, Ranks(nodes, rel, top))
    ensures forall n :: n in Ranks(nodes, rel, top) ==> Ranks(nodes, rel, top)[n] <= top
  {
    hide Layer, FirstLayer, Ranks;
    var rank := Ranks(nodes, rel, top);
    forall e | e in rel && e.0 in rank
      ensures e.1 in rank && rank[e.1] < rank[e.0]
    {
      SuccessorComesFirst(nodes, rel, e.0, e.1, top + 1);
    }
  }

  /** The nodes from which all chains are short can be ranked, each by the longest
      chain that starts at it. */
  lemma ChainsGiveRanks<T(!new)>(nodes: set<T>, rel: set<(T, T)>, top: nat) returns (rank: map<T, nat>)
    requires Between(rel, nodes)
    ensures Descends(rel, rank) && forall n :: n in rank ==> rank[n] <= top
    ensures forall n :: n in nodes && ChainsFromWithin(rel, n, top) ==> n in rank
  {
    hide Layer, FirstLayer, ChainsFromWithin, Ranks, Descends;
    rank := Ranks(nodes, rel, top);
    RanksDescend(nodes, rel, top);
    forall n | n in nodes && ChainsFromWithin(rel, n, top)
      ensures n in rank
    {
      ShortChainsFillLayer(nodes, rel, n, top);
    }
  }

  /** And only those: a rank bounds the chains. */
  lemma {:induction false} RankBoundsChain<T>(rel: set<(T, T)>, rank: map<T, nat>, p: seq<T>)
    requires Descends(rel, rank) && IsChain(rel, p) && p[0] in rank
    ensures |p| <= rank[p[0]] + 1
    decreases |p|
  {
    if |p| > 1 {
      assert (p[0], p[1]) in rel;
      forall i | 0 < i < |p[1..]|
        ensures (p[1..][i - 1], p[1..][i]) in rel
      {
        assert (p[i], p[i + 1]) in rel;
      }
      RankBoundsChain(rel, rank, p[1..]);
    }
  }

  lemma {:induction false} RepeatIfTooLong<T>(p: seq<T>, nodes: set<T>) returns (i: nat, j: nat)
    requires (forall k :: 0 <= k < |p| ==> p[k] in nodes) && |p| > |nodes|
    ensures i < j < |p| && p[i] == p[j]
    decreases |p|
  {
    var last := |p| - 1;
    if k :| 0 <= k < last && p[k] == p[last] {
      return k, last;
    }
    assert |nodes - {p[last]}| < |nodes|;
    i, j := RepeatIfTooLong(p[..last], nodes - {p[last]});
  }

  lemma PartOfChain<T>(rel: set<(T, T)>, p: seq<T>, i: nat, j: nat)
    requires IsChain(rel, p) && i < j < |p|
    ensures IsChain(rel, p[i..j + 1])
  {
    var part := p[i..j + 1];
    forall k | 0 < k < |part|
      ensures (part[k - 1], part[k]) in rel
    {
      assert (p[i + k - 1], p[i + k]) in rel;
    }
  }

  /** Without cycles no chain is longer than there are nodes. */
  lemma AcyclicChainsAreShort<T(!new)>(nodes: set<T>, rel: set<(T, T)>)
    requires Between(rel, nodes) && Acyclic(rel) && |nodes| > 0
    ensures ChainsWithin(rel, |nodes| - 1)
  {
    forall p: seq<T> | IsChain(rel, p)
      ensures |p| <= |nodes|
    {
      if |p| > |nodes| {
        forall k | 0 <= k < |p|
          ensures p[k] in nodes
        {
          assert (p[0], p[1]) in rel;
          assert k > 0 ==> (p[k - 1], p[k]) in rel;
        }
        var i, j := RepeatIfTooLong(p, nodes);
        PartOfChain(rel, p, i, j);
        assert false;
      }
    }
  }
}
