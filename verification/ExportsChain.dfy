/** Following a name through `from m import *` re-exports, with the set of files
    whose contents the answer depends on. */
module ExportsChain {
  import opened Wrappers
  import opened Closures

  /** What one file says: the live bindings of each exported name, as indices
      into its node references, and the modules names are star-imported from. */
  datatype Payload = Payload(exportsByName: map<string, seq<int>>, starReexports: map<string, string>, refs: seq<int>)
  {
    ghost predicate Valid() {
      forall n, k :: n in exportsByName && 0 <= k < |exportsByName[n]| ==> 0 <= exportsByName[n][k] < |refs|
    }
  }

  /** The files of a snapshot, and the module resolver, which finds a file for
      a module name as seen from a file, or none. */
  datatype World = World(files: map<int, Payload>, resolve: (int, string) -> Option<int>)
  {
    ghost predicate Valid() {
      && (forall f :: f in files ==> files[f].Valid())
      && (forall f, m :: f in files && resolve(f, m).Some? ==> resolve(f, m).value in files)
    }

    /** Where the walk goes from `f`, when `name` is a resolvable star re-export there. */
    function Hop(f: int, name: string): Option<int>
      requires f in files
    {
      if name in files[f].starReexports then resolve(f, files[f].starReexports[name]) else None
    }

    /** What `f` itself exports under `name`. */
    function ExportsAt(f: int, name: string): seq<int>
      requires f in files && files[f].Valid()
    {
      if name in files[f].exportsByName then
        var locals := files[f].exportsByName[name];
        seq(|locals|, k requires 0 <= k < |locals| => files[f].refs[locals[k]])
      else []
    }

    /** `f` star-imports `name` from a module that is found in `g`. */
    ghost predicate LeadsOn(f: int, name: string, g: int) {
      f in files && name in files[f].starReexports && resolve(f, files[f].starReexports[name]) == Some(g)
    }

    ghost predicate DeadEnd(f: int, name: string) {
      f in files && !(name in files[f].starReexports && resolve(f, files[f].starReexports[name]).Some?)
    }

    ghost function Hops(name: string): Rel {
      set f | f in files && Hop(f, name).Some? :: (f, Hop(f, name).value)
    }

    lemma HopsLeadOn(name: string)
      ensures forall f, g :: (f, g) in Hops(name) <==> LeadsOn(f, name, g)
      ensures forall f :: f in files ==> (Hop(f, name).None? <==> DeadEnd(f, name))
    {
    }

    /** The files on the chain from `target`. */
    ghost function Chain(target: int, name: string): set<int> {
      Closure(Hops(name), {target})
    }

    /** `out` is every live binding `f` exports under `name`, in order; nothing when
        it exports no such name. */
    ghost predicate Exports(f: int, name: string, out: seq<int>)
      requires f in files && files[f].Valid()
    {
      if name !in files[f].exportsByName then out == [] else
        var locals := files[f].exportsByName[name];
        |out| == |locals| && forall k :: 0 <= k < |locals| ==> out[k] == files[f].refs[locals[k]]
    }

    lemma ExportsAtIsExports(f: int, name: string, out: seq<int>)
      requires f in files && files[f].Valid()
      ensures Exports(f, name, out) <==> out == ExportsAt(f, name)
    {
    }

    /** The exports at the end of the chain, or nothing if it has no end. */
    ghost predicate IsAnswer(target: int, name: string, out: seq<int>)
      requires Valid()
    {
      && (forall f :: f in Chain(target, name) && DeadEnd(f, name) ==> Exports(f, name, out))
      && ((forall f :: f in Chain(target, name) ==> !DeadEnd(f, name)) ==> out == [])
    }
  }

  /** What the loop keeps: the files seen lead on, each to one seen or waiting. */
  ghost predicate Following(w: World, target: int, name: string, seen: set<int>, stack: seq<int>)
    requires w.Valid()
  {
    && seen <= w.files.Keys && |stack| <= 1
    && (forall f :: f in stack ==> f in w.files)
    && (forall f :: f in seen ==> w.Hop(f, name).Some?)
    && Walking(w.Hops(name), {target}, seen, stack)
  }

  lemma FollowOne(w: World, target: int, name: string, seen: set<int>, f: int)
    requires w.Valid() && Following(w, target, name, seen, [f]) && f !in seen && w.Hop(f, name).Some?
    ensures Following(w, target, name, seen + {f}, [w.Hop(f, name).value])
  {
    var g := w.Hop(f, name).value;
    assert (f, g) in w.Hops(name);
    assert [f] == [] + [f] && [g] == [] + [g];
    WalkExpands(w.Hops(name), {target}, seen, [], f, [g]);
  }

  lemma ChainEnds(w: World, target: int, name: string, seen: set<int>, f: int)
    requires w.Valid() && Following(w, target, name, seen, [f]) && f !in seen && w.Hop(f, name).None?
    ensures w.Chain(target, name) == seen + {f} && w.IsAnswer(target, name, w.ExportsAt(f, name))
  {
    assert [f] == [] + [f];
    var none: seq<int> := [];
    WalkExpands(w.Hops(name), {target}, seen, none, f, none);
    assert none + none == none;
    WalkEnds(w.Hops(name), {target}, seen + {f}, none);
  }

  lemma ChainCycles(w: World, target: int, name: string, seen: set<int>, f: int)
    requires w.Valid() && Following(w, target, name, seen, [f]) && f in seen
    ensures w.Chain(target, name) == seen && w.IsAnswer(target, name, [])
  {
    assert [f] == [] + [f];
    WalkSkips(w.Hops(name), {target}, seen, [], f);
    WalkEnds(w.Hops(name), {target}, seen, []);
  }

  /** The walk is under way with nothing emitted, or over with the answer. */
  ghost predicate OnTheWay(w: World, target: int, name: string, seen: set<int>, stack: seq<int>, out: seq<int>)
    requires w.Valid()
  {
    if stack == [] then seen == w.Chain(target, name) && w.IsAnswer(target, name, out)
    else Following(w, target, name, seen, stack) && out == []
  }

  /** The walk ends, on cycles too; it records every file of the chain. */
  method WalkExportsChain(w: World, target: int, name: string, touched0: set<int>)
    returns (out: seq<int>, touched: set<int>)
    requires w.Valid() && target in w.files
    ensures w.IsAnswer(target, name, out)
    ensures touched == touched0 + w.Chain(target, name)
  {
    hide w.Hops, w.Chain, w.IsAnswer, Walking, w.Hop, w.ExportsAt;
    WalkStarts(w.Hops(name), {target}, [target]);
    var seen: set<int> := {};
    out, touched := [], touched0;
    var stack := [target];
    while stack != []
      invariant OnTheWay(w, target, name, seen, stack, out)
      invariant touched == touched0 + seen
      decreases w.files.Keys - seen, |stack|
    {
      var f := stack[|stack| - 1];
      assert stack == [f];
      stack := stack[..|stack| - 1];
      if f in seen {
        ChainCycles(w, target, name, seen, f);
        continue;
      }
      touched := touched + {f};
      var hop := w.Hop(f, name);
      if hop.Some? {
        FollowOne(w, target, name, seen, f);
        stack := stack + [hop.value];
        assert stack == [hop.value];
      } else {
        ChainEnds(w, target, name, seen, f);
        out := out + w.ExportsAt(f, name);
        assert out == w.ExportsAt(f, name);
      }
      seen := seen + {f};
    }
  }

  // ------------------------------------------------------- the recorded read set

  /** Two payloads say the same about `name`. What they export under other
      names, and the references only those use, may differ. */
  ghost predicate SameAbout(a: Payload, b: Payload, name: string)
    requires a.Valid() && b.Valid()
  {
    && (name in a.starReexports <==> name in b.starReexports)
    && (name in a.starReexports ==> a.starReexports[name] == b.starReexports[name])
    && (name in a.exportsByName <==> name in b.exportsByName)
    && (name in a.exportsByName ==>
          && |a.exportsByName[name]| == |b.exportsByName[name]|
          && forall k :: 0 <= k < |a.exportsByName[name]| ==>
               a.refs[a.exportsByName[name][k]] == b.refs[b.exportsByName[name][k]])
  }

  /** Two snapshots say the same about `name` in the files of a chain, and resolve
      the modules it is star-imported from there alike. */
  ghost predicate AgreeOn(w: World, w': World, name: string, chain: set<int>)
    requires w.Valid() && w'.Valid()
  {
    forall f :: f in chain && f in w.files ==>
      && f in w'.files && SameAbout(w.files[f], w'.files[f], name)
      && (name in w.files[f].starReexports ==>
            w.resolve(f, w.files[f].starReexports[name]) == w'.resolve(f, w.files[f].starReexports[name]))
  }

  lemma SameHops(w: World, w': World, name: string, chain: set<int>)
    requires w.Valid() && w'.Valid() && AgreeOn(w, w', name, chain) && chain <= w.files.Keys
    ensures chain <= w'.files.Keys
    ensures forall f :: f in chain ==> w.Hop(f, name) == w'.Hop(f, name)
    ensures forall e: (int, int) :: e.0 in chain ==> (e in w.Hops(name) <==> e in w'.Hops(name))
  {
    forall f | f in chain
      ensures f in w'.files
    {
      assert f in w.files;
    }
  }

  lemma SameExports(w: World, w': World, name: string, chain: set<int>, f: int)
    requires w.Valid() && w'.Valid() && AgreeOn(w, w', name, chain) && f in chain && f in w.files
    ensures f in w'.files && w.ExportsAt(f, name) == w'.ExportsAt(f, name)
  {
  }

  lemma ChainIsInside(w: World, target: int, name: string)
    requires w.Valid() && target in w.files
    ensures w.Chain(target, name) <= w.files.Keys
  {
    ClosureIsLeast(w.Hops(name), {target}, w.files.Keys);
  }

  lemma SameChain(w: World, w': World, target: int, name: string)
    requires w.Valid() && w'.Valid() && target in w.files
    requires AgreeOn(w, w', name, w.Chain(target, name))
    ensures w.Chain(target, name) == w'.Chain(target, name)
  {
    var chain, chain' := w.Chain(target, name), w'.Chain(target, name);
    ChainIsInside(w, target, name);
    SameHops(w, w', name, chain);
    ClosureIsClosed(w.Hops(name), {target});
    ClosureIsLeast(w'.Hops(name), {target}, chain);
    ClosureIsClosed(w'.Hops(name), {target});
    ClosureIsLeast(w.Hops(name), {target}, chain');
  }

  /** There is one answer: the chain never forks. */
  lemma AnswerIsUnique(w: World, target: int, name: string, out: seq<int>, out': seq<int>)
    requires w.Valid() && w.IsAnswer(target, name, out) && w.IsAnswer(target, name, out')
    ensures out == out'
  {
  }

  /** A snapshot that agrees, about this name, on the files recorded gives the
      same answer and the same record, whatever it says about other files. */
  lemma RecordedFilesDetermineTheAnswer(w: World, w': World, target: int, name: string, out: seq<int>, out': seq<int>)
    requires w.Valid() && w'.Valid() && target in w.files
    requires AgreeOn(w, w', name, w.Chain(target, name))
    requires w.IsAnswer(target, name, out) && w'.IsAnswer(target, name, out')
    ensures out == out' && w.Chain(target, name) == w'.Chain(target, name)
  {
    hide w.Chain, w.Hops;
    var chain := w.Chain(target, name);
    ChainIsInside(w, target, name);
    SameChain(w, w', target, name);
    SameHops(w, w', name, chain);
    forall f | f in chain
      ensures w.ExportsAt(f, name) == w'.ExportsAt(f, name)
    {
      SameExports(w, w', name, chain, f);
    }
    assert w'.IsAnswer(target, name, out);
    AnswerIsUnique(w', target, name, out, out');
  }
}
