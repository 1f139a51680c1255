/** Wiring command handlers to click groups: a wired handler that was declared
    with `@owner.group` becomes a group itself. */
module ClickGroups {

  /** One file's decorators: `handlers` are (owner name, decorated node) pairs,
      `links` the decorated nodes that open a subgroup, with their owner's name. */
  datatype File = File(groups: seq<int>, handlers: seq<(string, int)>, links: set<(int, string)>, names: seq<string>)
  {
    /** A node's simple name; empty when the index is not a node of the file. */
    function SimpleOf(i: int): string {
      if 0 <= i < |names| then names[i] else ""
    }

    /** `owner` bears the name `n`; an index that is no node bears the empty one. */
    ghost predicate Bears(owner: int, n: string) {
      (0 <= owner < |names| && names[owner] == n) || (!(0 <= owner < |names|) && n == "")
    }

    /** Under the wired edges, `g` is a group: declared as one, or wired as a subgroup. */
    ghost predicate IsGroup(edges: set<(int, int)>, g: int) {
      g in groups || exists owner, n :: (owner, g) in edges && (g, n) in links && Bears(owner, n)
    }

    /** Every handler is wired to every group of its owner's name. */
    ghost predicate Closed(edges: set<(int, int)>) {
      forall g: int, k: int :: 0 <= k < |handlers| && IsGroup(edges, g) && Bears(g, handlers[k].0)
                               ==> (g, handlers[k].1) in edges
    }

    ghost predicate Least(edges: set<(int, int)>) {
      Closed(edges) && forall other :: Closed(other) ==> edges <= other
    }
  }

  type Groups = map<string, seq<int>>

  function AddGroup(groups: Groups, name: string, g: int): Groups {
    groups[name := (if name in groups then groups[name] else []) + [g]]
  }

  /** What the loop keeps: groups are listed under their own name, all listed
      ones are groups and all groups are listed, and every edge is forced. */
  ghost predicate Wired(f: File, groups: Groups, emitted: set<(int, int)>) {
    && (forall n, g :: n in groups && g in groups[n] ==> f.SimpleOf(g) == n && f.IsGroup(emitted, g))
    && (forall g :: f.IsGroup(emitted, g) ==> f.SimpleOf(g) in groups && g in groups[f.SimpleOf(g)])
    && (forall other :: f.Closed(other) ==> emitted <= other)
  }

  /** The first `done` handlers are wired to all the groups listed for them. */
  ghost predicate Swept(f: File, groups: Groups, emitted: set<(int, int)>, done: int)
    requires 0 <= done <= |f.handlers|
  {
    forall k, g :: 0 <= k < done && f.handlers[k].0 in groups && g in groups[f.handlers[k].0]
                   ==> (g, f.handlers[k].1) in emitted
  }

  method GroupsByName(f: File) returns (groups: Groups)
    ensures Wired(f, groups, {})
  {
    groups := map[];
    for k := 0 to |f.groups|
      invariant forall n, g :: n in groups && g in groups[n] ==> f.SimpleOf(g) == n && g in f.groups
      invariant forall j :: 0 <= j < k ==> f.SimpleOf(f.groups[j]) in groups && f.groups[j] in groups[f.SimpleOf(f.groups[j])]
    {
      var g := f.groups[k];
      groups := AddGroup(groups, f.SimpleOf(g), g);
    }
  }

  /** Wiring one handler to one listed group of its owner's name. */
  lemma WireOne(f: File, groups: Groups, emitted: set<(int, int)>, k: int, g: int)
    requires Wired(f, groups, emitted) && 0 <= k < |f.handlers|
    requires f.SimpleOf(g) == f.handlers[k].0 && f.IsGroup(emitted, g)
    ensures var (owner, h) := f.handlers[k];
      Wired(f, if (h, owner) in f.links then AddGroup(groups, f.SimpleOf(h), h) else groups, emitted + {(g, h)})
  {
    var (owner, h) := f.handlers[k];
    var groups' := if (h, owner) in f.links then AddGroup(groups, f.SimpleOf(h), h) else groups;
    var emitted' := emitted + {(g, h)};
    forall x
      ensures f.IsGroup(emitted', x) <==> f.IsGroup(emitted, x) || (x == h && (h, owner) in f.links)
    {
      if f.IsGroup(emitted, x) && x !in f.groups {
        var o, n :| (o, x) in emitted && (x, n) in f.links && f.Bears(o, n);
        assert (o, x) in emitted';
      }
      if x == h && (h, owner) in f.links {
        assert (g, h) in emitted';
      }
    }
    forall other | f.Closed(other)
      ensures emitted' <= other
    {
      GroupsOnlyGrow(f, emitted, other, g);
    }
  }

  lemma GroupsOnlyGrow(f: File, edges: set<(int, int)>, more: set<(int, int)>, g: int)
    requires edges <= more && f.IsGroup(edges, g)
    ensures f.IsGroup(more, g)
  {
    if g !in f.groups {
      var o, n :| (o, g) in edges && (g, n) in f.links && f.Bears(o, n);
      assert (o, g) in more;
    }
  }

  /** All edges there could ever be. */
  ghost function Universe(f: File): set<(int, int)> {
    set i, k | 0 <= i < |f.groups| + |f.handlers| && 0 <= k < |f.handlers| :: (NodeAt(f, i), f.handlers[k].1)
  }

  ghost function NodeAt(f: File, i: int): int
    requires 0 <= i < |f.groups| + |f.handlers|
  {
    if i < |f.groups| then f.groups[i] else f.handlers[i - |f.groups|].1
  }

  lemma EveryEdgeIsInTheUniverse(f: File)
    ensures f.Closed(Universe(f))
  {
    forall g: int, k: int | 0 <= k < |f.handlers| && f.IsGroup(Universe(f), g)
      ensures (g, f.handlers[k].1) in Universe(f)
    {
      if g in f.groups {
        var i :| 0 <= i < |f.groups| && f.groups[i] == g;
        assert NodeAt(f, i) == g;
      } else {
        var o :| (o, g) in Universe(f);
        var j :| 0 <= j < |f.handlers| && f.handlers[j].1 == g;
        assert NodeAt(f, |f.groups| + j) == g;
      }
    }
  }

  /** One pass over the handlers. `changed` says whether a new group appeared. */
  ghost predicate Kept(f: File, groups: Groups, emitted: set<(int, int)>, ops: seq<(int, int)>) {
    && Wired(f, groups, emitted)
    && emitted == (set e | e in ops)
    && (forall i, j :: 0 <= i < j < |ops| ==> ops[i] != ops[j])
  }

  /** Wires one handler to the groups its owner's name had when it was reached. */
  method WireHandler(f: File, k: int, groups0: Groups, emitted0: set<(int, int)>, ops0: seq<(int, int)>)
    returns (groups: Groups, emitted: set<(int, int)>, ops: seq<(int, int)>, grew: bool)
    requires 0 <= k < |f.handlers| && Kept(f, groups0, emitted0, ops0)
    ensures Kept(f, groups, emitted, ops) && emitted0 <= emitted
    ensures grew ==> emitted0 != emitted
    ensures !grew ==> groups == groups0
    ensures f.handlers[k].0 in groups0 ==> forall g :: g in groups0[f.handlers[k].0] ==> (g, f.handlers[k].1) in emitted
  {
    groups, emitted, ops, grew := groups0, emitted0, ops0, false;
    var (owner, h) := f.handlers[k];
    if owner !in groups {
      return;
    }
    var snapshot := groups[owner];
    for i := 0 to |snapshot|
      invariant Kept(f, groups, emitted, ops) && emitted0 <= emitted
      invariant grew ==> emitted0 != emitted
      invariant !grew ==> groups == groups0
      invariant forall j :: 0 <= j < i ==> (snapshot[j], h) in emitted
    {
      var g := snapshot[i];
      if (g, h) in emitted {
        continue;
      }
      assert g in groups0[owner];
      assert f.SimpleOf(g) == owner && f.IsGroup(emitted0, g);
      GroupsOnlyGrow(f, emitted0, emitted, g);
      WireOne(f, groups, emitted, k, g);
      ops := ops + [(g, h)];
      emitted := emitted + {(g, h)};
      if (h, owner) in f.links {
        groups := AddGroup(groups, f.SimpleOf(h), h);
        grew := true;
      }
    }
  }

  /** The fixpoint loop: the edges emitted, each once, are the least set closed
      under wiring. */
  method RunOnFile(f: File) returns (ops: seq<(int, int)>)
    ensures f.Least(set e | e in ops)
    ensures forall i, j :: 0 <= i < j < |ops| ==> ops[i] != ops[j]
  {
    var groups := GroupsByName(f);
    var emitted: set<(int, int)> := {};
    ops := [];
    assert Kept(f, groups, emitted, ops);
    EveryEdgeIsInTheUniverse(f);
    var changed := true;
    while changed
      invariant Kept(f, groups, emitted, ops)
      invariant !changed ==> Swept(f, groups, emitted, |f.handlers|)
      decreases Universe(f) - emitted, changed
    {
      ghost var before := emitted;
      changed := false;
      for k := 0 to |f.handlers|
        invariant Kept(f, groups, emitted, ops) && before <= emitted
        invariant changed ==> before != emitted
        invariant !changed ==> Swept(f, groups, emitted, k)
      {
        var grew;
        groups, emitted, ops, grew := WireHandler(f, k, groups, emitted, ops);
        changed := changed || grew;
      }
    }
    assert f.Closed(emitted);
  }

  /** So neither the order of the handlers nor that of the groups matters. */
  lemma LeastIsUnique(f: File, f': File, a: set<(int, int)>, b: set<(int, int)>)
    requires f.Least(a) && f'.Least(b)
    requires f.links == f'.links && f.names == f'.names
    requires (forall g :: g in f.groups <==> g in f'.groups) && (forall h :: h in f.handlers <==> h in f'.handlers)
    ensures a == b
  {
    SameClosedSets(f, f', b);
    SameClosedSets(f', f, a);
  }

  lemma SameClosedSets(f: File, f': File, edges: set<(int, int)>)
    requires f.links == f'.links && f.names == f'.names
    requires (forall g :: g in f.groups <==> g in f'.groups) && (forall h :: h in f.handlers <==> h in f'.handlers)
    requires f'.Closed(edges)
    ensures f.Closed(edges)
  {
    forall g: int, k: int | 0 <= k < |f.handlers| && f.IsGroup(edges, g) && f.Bears(g, f.handlers[k].0)
      ensures (g, f.handlers[k].1) in edges
    {
      assert f.handlers[k] in f'.handlers;
      var j :| 0 <= j < |f'.handlers| && f'.handlers[j] == f.handlers[k];
      assert f'.IsGroup(edges, g);
    }
  }

  // ------------------------------------------------------- wiring, link by link

  /** `h` is decorated by a group that bears the name of `g`. */
  ghost predicate Handles(f: File, g: int, h: int) {
    exists n :: f.Bears(g, n) && (n, h) in f.handlers
  }

  /** ... and opens a subgroup. */
  ghost predicate Subgroups(f: File, g: int, h: int) {
    exists n :: f.Bears(g, n) && (n, h) in f.handlers && (h, n) in f.links
  }

  /** A declared group, its subgroup, and so on down. */
  ghost predicate IsNesting(f: File, p: seq<int>) {
    p != [] && p[0] in f.groups && forall i :: 0 < i < |p| ==> Subgroups(f, p[i - 1], p[i])
  }

  ghost predicate EndsNesting(f: File, p: seq<int>, g: int) {
    IsNesting(f, p) && p[|p| - 1] == g
  }

  ghost predicate Nested(f: File, g: int) {
    exists p :: EndsNesting(f, p, g)
  }

  lemma NestedStarts(f: File, g: int)
    requires g in f.groups
    ensures Nested(f, g)
  {
    assert EndsNesting(f, [g], g);
  }

  lemma NestedGoesOn(f: File, g: int, h: int)
    requires Nested(f, g) && Subgroups(f, g, h)
    ensures Nested(f, h)
  {
    var p :| EndsNesting(f, p, g);
    var q := p + [h];
    forall i | 0 < i < |q|
      ensures Subgroups(f, q[i - 1], q[i])
    {
      assert i < |p| ==> q[i - 1] == p[i - 1] && q[i] == p[i];
    }
    assert EndsNesting(f, q, h);
  }

  /** The nested groups and what they handle. */
  ghost function NestedEdges(f: File): set<(int, int)> {
    set e | e in Universe(f) && Nested(f, e.0) && Handles(f, e.0, e.1)
  }

  lemma NestedEdgesAreClosed(f: File)
    ensures f.Closed(NestedEdges(f))
  {
    EveryEdgeIsInTheUniverse(f);
    forall g: int, k: int | 0 <= k < |f.handlers| && f.IsGroup(NestedEdges(f), g) && f.Bears(g, f.handlers[k].0)
      ensures (g, f.handlers[k].1) in NestedEdges(f)
    {
      if g in f.groups {
        NestedStarts(f, g);
      } else {
        var o, n :| (o, g) in NestedEdges(f) && (g, n) in f.links && f.Bears(o, n);
        SubgroupOfWired(f, o, g, n);
        NestedGoesOn(f, o, g);
      }
      GroupsOnlyGrow(f, NestedEdges(f), Universe(f), g);
      assert f.handlers[k] in f.handlers && (f.handlers[k].0, f.handlers[k].1) == f.handlers[k];
      assert Handles(f, g, f.handlers[k].1);
    }
  }

  lemma SubgroupOfWired(f: File, o: int, g: int, n: string)
    requires Handles(f, o, g) && (g, n) in f.links && f.Bears(o, n)
    ensures Subgroups(f, o, g)
  {
    var m :| f.Bears(o, m) && (m, g) in f.handlers;
    assert m == n;
  }

  lemma {:induction false} NestedIsForced(f: File, p: seq<int>, edges: set<(int, int)>)
    requires f.Closed(edges) && IsNesting(f, p)
    ensures f.IsGroup(edges, p[|p| - 1])
    decreases |p|
  {
    if |p| > 1 {
      var last := |p| - 1;
      assert Subgroups(f, p[last - 1], p[last]);
      var n :| f.Bears(p[last - 1], n) && (n, p[last]) in f.handlers && (p[last], n) in f.links;
      NestedIsForced(f, p[..last], edges);
      var k :| 0 <= k < |f.handlers| && f.handlers[k] == (n, p[last]);
      assert (p[last - 1], p[last]) in edges;
    }
  }

  /** The least wiring, said with chains: an edge is in it exactly when its source is
      nested in a declared group and handles its target. */
  lemma WiredIffNested(f: File, edges: set<(int, int)>, g: int, h: int)
    requires f.Least(edges)
    ensures (g, h) in edges <==> Nested(f, g) && Handles(f, g, h)
  {
    NestedEdgesAreClosed(f);
    if Nested(f, g) && Handles(f, g, h) {
      var p :| EndsNesting(f, p, g);
      NestedIsForced(f, p, edges);
      var n :| f.Bears(g, n) && (n, h) in f.handlers;
      var k :| 0 <= k < |f.handlers| && f.handlers[k] == (n, h);
    }
  }
}
