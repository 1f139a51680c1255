/** Reachability over a finite relation, defined without any algorithm: the
    closure of some roots is what every closed set around them has in common.
    Every traversal of the system is proved to compute one of these closures. */
module Closures {

  type Rel = set<(int, int)>

  ghost predicate Closed(rel: Rel, s: set<int>) {
    forall e :: e in rel && e.0 in s ==> e.1 in s
  }

  /** `x` belongs to every closed set that contains `roots`. */
  ghost predicate Forced(rel: Rel, roots: set<int>, x: int) {
    forall s: set<int> :: roots <= s && Closed(rel, s) ==> x in s
  }

  ghost function Targets(rel: Rel): set<int> {
    set e | e in rel :: e.1
  }

  ghost function Closure(rel: Rel, roots: set<int>): set<int> {
    set x | x in roots + Targets(rel) && Forced(rel, roots, x)
  }

  ghost function Inverse(rel: Rel): Rel {
    set e | e in rel :: (e.1, e.0)
  }

  lemma ClosureIsClosed(rel: Rel, roots: set<int>)
    ensures roots <= Closure(rel, roots)
    ensures Closed(rel, Closure(rel, roots))
  {
    forall e | e in rel && e.0 in Closure(rel, roots)
      ensures e.1 in Closure(rel, roots)
    {
      assert e.1 in Targets(rel);
      assert Forced(rel, roots, e.0);
    }
  }

  lemma ClosureIsLeast(rel: Rel, roots: set<int>, s: set<int>)
    requires roots <= s && Closed(rel, s)
    ensures Closure(rel, roots) <= s
  {
    forall x | x in Closure(rel, roots)
      ensures x in s
    {
      assert Forced(rel, roots, x);
    }
  }

  /** How every traversal below is finished off: its visited set is closed,
      contains the roots, and holds nothing that is not forced. */
  lemma LeastClosedIsClosure(rel: Rel, roots: set<int>, s: set<int>)
    requires roots <= s && Closed(rel, s) && s <= Closure(rel, roots)
    ensures s == Closure(rel, roots)
  {
    ClosureIsLeast(rel, roots, s);
  }

  lemma ClosureMonotone(rel: Rel, rel': Rel, roots: set<int>, roots': set<int>)
    requires rel <= rel' && roots <= roots'
    ensures Closure(rel, roots) <= Closure(rel', roots')
  {
    ClosureIsClosed(rel', roots');
    ClosureIsLeast(rel, roots, Closure(rel', roots'));
  }

  /** A node is reached from a set of roots exactly when one root reaches it. */
  lemma ReachedFromOne(rel: Rel, roots: set<int>, x: int)
    ensures x in Closure(rel, roots) <==> exists r :: r in roots && x in Closure(rel, {r})
  {
    var union := set y, r | r in roots && y in Closure(rel, {r}) :: y;
    forall r | r in roots
      ensures r in union && Closure(rel, {r}) <= Closure(rel, roots)
    {
      ClosureIsClosed(rel, {r});
      ClosureMonotone(rel, rel, {r}, roots);
      assert r in Closure(rel, {r});
    }
    forall e | e in rel && e.0 in union
      ensures e.1 in union
    {
      var r :| r in roots && e.0 in Closure(rel, {r});
      ClosureIsClosed(rel, {r});
    }
    ClosureIsLeast(rel, roots, union);
  }

  lemma ClosureTransitive(rel: Rel, roots: set<int>, x: int)
    requires x in Closure(rel, roots)
    ensures Closure(rel, {x}) <= Closure(rel, roots)
  {
    ClosureIsClosed(rel, roots);
    ClosureIsLeast(rel, {x}, Closure(rel, roots));
  }

  /** Walking forward from `s` finds `d` exactly when walking backward from `d`
      finds `s`. What `s` does not reach is closed under going backward. */
  lemma ForwardBackward(rel: Rel, s: int, d: int)
    ensures d in Closure(rel, {s}) <==> s in Closure(Inverse(rel), {d})
  {
    assert Inverse(Inverse(rel)) == rel by {
      forall e | e in rel
        ensures e in Inverse(Inverse(rel))
      {
        assert (e.1, e.0) in Inverse(rel);
      }
    }
    if s in Closure(Inverse(rel), {d}) {
      BackwardImpliesForward(rel, s, d);
    }
    if d in Closure(rel, {s}) {
      BackwardImpliesForward(Inverse(rel), d, s);
    }
  }

  lemma BackwardImpliesForward(rel: Rel, s: int, d: int)
    requires s in Closure(Inverse(rel), {d})
    ensures d in Closure(rel, {s})
  {
    var reached := Closure(rel, {s});
    ClosureIsClosed(rel, {s});
    if d !in reached {
      var missed := ({d} + Targets(Inverse(rel))) - reached;
      forall e | e in Inverse(rel) && e.0 in missed
        ensures e.1 in missed
      {
        assert (e.1, e.0) in rel;
      }
      ClosureIsLeast(Inverse(rel), {d}, missed);
      assert false;
    }
  }

  /** The definition agrees with paths: a node is in the closure exactly when
      a path of arcs leads to it from a root. */
  ghost predicate IsPath(rel: Rel, roots: set<int>, p: seq<int>, x: int) {
    && p != []
    && p[0] in roots
    && p[|p| - 1] == x
    && forall i :: 0 < i < |p| ==> (p[i - 1], p[i]) in rel
  }

  lemma ClosureIsPaths(rel: Rel, roots: set<int>, x: int)
    ensures x in Closure(rel, roots) <==> exists p :: IsPath(rel, roots, p, x)
  {
    var onPath := set y | y in roots + Targets(rel) && exists p :: IsPath(rel, roots, p, y);
    forall r | r in roots
      ensures r in onPath
    {
      assert IsPath(rel, roots, [r], r);
    }
    forall e | e in rel && e.0 in onPath
      ensures e.1 in onPath
    {
      var p :| IsPath(rel, roots, p, e.0);
      assert IsPath(rel, roots, p + [e.1], e.1);
    }
    ClosureIsLeast(rel, roots, onPath);
    if exists p :: IsPath(rel, roots, p, x) {
      var p :| IsPath(rel, roots, p, x);
      ClosureIsClosed(rel, roots);
      PathStaysInside(rel, Closure(rel, roots), p);
    }
  }

  lemma {:induction false} PathStaysInside(rel: Rel, s: set<int>, p: seq<int>)
    requires p != [] && p[0] in s && Closed(rel, s)
    requires forall i :: 0 < i < |p| ==> (p[i - 1], p[i]) in rel
    ensures p[|p| - 1] in s
  {
    if |p| > 1 {
      PathStaysInside(rel, s, p[..|p| - 1]);
      assert (p[|p| - 2], p[|p| - 1]) in rel;
    }
  }

  // ------------------------------------------------------- stack-driven walks

  /** What every stack-driven walk keeps: the roots and the successors of what
      it has seen are seen or waiting, and it only ever touches the closure. */
  ghost predicate Walking(rel: Rel, roots: set<int>, seen: set<int>, stack: seq<int>) {
    && (forall r :: r in roots ==> r in seen || r in stack)
    && (forall e :: e in rel && e.0 in seen ==> e.1 in seen || e.1 in stack)
    && seen <= Closure(rel, roots)
    && (forall i :: i in stack ==> i in Closure(rel, roots))
  }

  lemma WalkStarts(rel: Rel, roots: set<int>, stack: seq<int>)
    requires forall r :: r in roots <==> r in stack
    ensures Walking(rel, roots, {}, stack)
  {
    ClosureIsClosed(rel, roots);
  }

  lemma WalkSkips(rel: Rel, roots: set<int>, seen: set<int>, rest: seq<int>, idx: int)
    requires Walking(rel, roots, seen, rest + [idx]) && idx in seen
    ensures Walking(rel, roots, seen, rest)
  {
    assert forall i :: i in rest + [idx] <==> i in rest || i == idx;
  }

  /** Popping `idx` and pushing successors of it, among them all the unseen ones. */
  lemma WalkExpands(rel: Rel, roots: set<int>, seen: set<int>, rest: seq<int>, idx: int, more: seq<int>)
    requires Walking(rel, roots, seen, rest + [idx])
    requires forall d :: d in more ==> (idx, d) in rel
    requires forall e :: e in rel && e.0 == idx ==> e.1 in more || e.1 in seen || e.1 == idx
    ensures Walking(rel, roots, seen + {idx}, rest + more)
  {
    assert forall i :: i in rest + [idx] <==> i in rest || i == idx;
    assert forall i :: i in rest + more <==> i in rest || i in more;
    ClosureIsClosed(rel, roots);
    forall d | d in more
      ensures d in Closure(rel, roots)
    {
      assert (idx, d) in rel;
    }
  }

  lemma WalkEnds(rel: Rel, roots: set<int>, seen: set<int>, stack: seq<int>)
    requires Walking(rel, roots, seen, stack) && stack == []
    ensures seen == Closure(rel, roots)
  {
    forall r | r in roots
      ensures r in seen
    {
      assert r !in stack;
    }
    LeastClosedIsClosure(rel, roots, seen);
  }
}
