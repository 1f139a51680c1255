/** What a definition denotes that is read from itself: nothing, or more than any
    list holds. */
module ModuleCycles {
  import opened Wrappers
  import opened Graph
  import opened ModuleValues

  /** One hop of a derivation: from a definition followed by steps to the next. */
  ghost predicate Hop(f: File, c: Key, c': Key)
    requires f.Valid()
  {
    c.0 in f.kinds && c'.0 in f.kinds &&
    match f.kinds[c.0]
    case Assignment(value) => value.Some? && LeadsTo(f, f.scopes[c.0], value.value, c'.0) && c'.1 == Steps(value.value) + c.1
    case FunctionDef(body, results) =>
      && body.Some? && c.1 != [] && c.1[0] == Call
      && exists k :: 0 <= k < |results| && LeadsTo(f, body.value, results[k], c'.0) && c'.1 == Steps(results[k]) + c.1[1..]
    case _ => false
  }

  ghost predicate IsTrail(f: File, p: seq<Key>)
    requires f.Valid()
  {
    p != [] && p[0].0 in f.kinds && forall i :: 0 < i < |p| ==> Hop(f, p[i - 1], p[i])
  }

  /** The trail comes back to its definition with `more` steps than it left with. */
  ghost predicate GoesRound(f: File, p: seq<Key>, more: seq<Step>)
    requires f.Valid()
  {
    IsTrail(f, p) && p[|p| - 1] == (p[0].0, p[0].1 + more) && more != []
  }

  lemma HopLeadsBack(f: File, c: Key, c': Key, v: ModuleValue)
    requires f.Valid() && Hop(f, c, c') && DefDenotes(f, c'.0, c'.1, v)
    ensures DefDenotes(f, c.0, c.1, v)
  {
    hide DefDenotes, ExprDenotes;
    DefUnfolds(f, c.0, c.1, v);
    match f.kinds[c.0]
    case Assignment(value) => ExprUnfolds(f, f.scopes[c.0], value.value, c.1, v);
    case FunctionDef(body, results) =>
      var k :| 0 <= k < |results| && LeadsTo(f, body.value, results[k], c'.0) && c'.1 == Steps(results[k]) + c.1[1..];
      ExprUnfolds(f, body.value, results[k], c.1[1..], v);
    case _ =>
  }

  lemma HopTakesMore(f: File, c: Key, c': Key, more: seq<Step>)
    requires f.Valid() && Hop(f, c, c')
    ensures Hop(f, (c.0, c.1 + more), (c'.0, c'.1 + more))
  {
    match f.kinds[c.0]
    case Assignment(value) =>
      assert Steps(value.value) + c.1 + more == Steps(value.value) + (c.1 + more);
    case FunctionDef(body, results) =>
      var k :| 0 <= k < |results| && LeadsTo(f, body.value, results[k], c'.0) && c'.1 == Steps(results[k]) + c.1[1..];
      assert (c.1 + more)[1..] == c.1[1..] + more;
      assert Steps(results[k]) + c.1[1..] + more == Steps(results[k]) + (c.1[1..] + more);
    case _ =>
  }

  /** What is denoted at the end of a trail is denoted at its start. */
  lemma {:induction false} TrailLeadsBack(f: File, p: seq<Key>, more: seq<Step>, v: ModuleValue)
    requires f.Valid() && IsTrail(f, p) && p[|p| - 1].0 in f.kinds
    requires DefDenotes(f, p[|p| - 1].0, p[|p| - 1].1 + more, v)
    ensures DefDenotes(f, p[0].0, p[0].1 + more, v)
    decreases |p|
  {
    if |p| > 1 {
      hide DefDenotes;
      var last := |p| - 1;
      assert Hop(f, p[last - 1], p[last]);
      HopTakesMore(f, p[last - 1], p[last], more);
      hide Hop;
      HopLeadsBack(f, (p[last - 1].0, p[last - 1].1 + more), (p[last].0, p[last].1 + more), v);
      HopStartsAtADefinition(f, p[last - 1], p[last]);
      assert p[..last][last - 1] == p[last - 1];
      TrailLeadsBack(f, p[..last], more, v);
    }
  }

  lemma HopStartsAtADefinition(f: File, c: Key, c': Key)
    requires f.Valid() && Hop(f, c, c')
    ensures c.0 in f.kinds && c'.0 in f.kinds
  {
  }

  // ----------------------------------------------- derivations are trails of hops

  /** At the last definition of a trail: an import of a named module, or a literal
      dynamic import at the root of the value or of a returned one. */
  ghost predicate Emits(f: File, c: Key, v: ModuleValue)
    requires f.Valid()
  {
    c.0 in f.kinds &&
    match f.kinds[c.0]
    case ImportBinding(payload) => payload.mod != "" && v.spec == payload && v.boundName == f.names[c.0] && v.steps == c.1
    case Assignment(value) => value.Some? && EmitsDynamically(value.value, c.1, v)
    case FunctionDef(body, results) =>
      && body.Some? && c.1 != [] && c.1[0] == Call
      && exists k :: 0 <= k < |results| && EmitsDynamically(results[k], c.1[1..], v)
    case OtherDef => false
  }

  ghost predicate EmitsDynamically(e: Expr, trailing: seq<Step>, v: ModuleValue) {
    && Root(e).DynamicImport? && Root(e).target.Some?
    && v.spec == ImportRecord(Root(e).target.value, None, false) && v.boundName == "" && v.steps == Steps(e) + trailing
  }

  ghost predicate TrailTo(f: File, p: seq<Key>, c: Key, v: ModuleValue)
    requires f.Valid()
  {
    IsTrail(f, p) && p[0] == c && Emits(f, p[|p| - 1], v)
  }

  lemma EmittedIsDenoted(f: File, c: Key, v: ModuleValue)
    requires f.Valid() && Emits(f, c, v)
    ensures c.0 in f.kinds && DefDenotes(f, c.0, c.1, v)
  {
    hide DefDenotes, ExprDenotes;
    DefUnfolds(f, c.0, c.1, v);
    match f.kinds[c.0]
    case Assignment(value) => ExprUnfolds(f, f.scopes[c.0], value.value, c.1, v);
    case FunctionDef(body, results) =>
      var k :| 0 <= k < |results| && EmitsDynamically(results[k], c.1[1..], v);
      ExprUnfolds(f, body.value, results[k], c.1[1..], v);
    case _ =>
  }

  /** The first hop of a derivation, if it does not emit at once. */
  lemma DerivationHops(f: File, d: int, steps: seq<Step>, v: ModuleValue, n: nat) returns (next: Key)
    requires f.Valid() && d in f.kinds && DefDerives(f, d, steps, v, n) && !Emits(f, (d, steps), v)
    ensures n > 0 && Hop(f, (d, steps), next) && next.0 in f.kinds && DefDerives(f, next.0, next.1, v, n - 1)
  {
    match f.kinds[d]
    case Assignment(value) =>
      next := ExprHops(f, f.scopes[d], value.value, steps, v, n - 1);
    case FunctionDef(body, results) =>
      var k :| 0 <= k < |results| && ExprDerives(f, body.value, results[k], steps[1..], v, n - 1);
      next := ExprHops(f, body.value, results[k], steps[1..], v, n - 1);
    case _ =>
      assert false;
  }

  lemma ExprHops(f: File, scope: int, e: Expr, trailing: seq<Step>, v: ModuleValue, n: nat) returns (next: Key)
    requires f.Valid() && ExprDerives(f, scope, e, trailing, v, n) && !EmitsDynamically(e, trailing, v)
    ensures LeadsTo(f, scope, e, next.0) && next.1 == Steps(e) + trailing
    ensures next.0 in f.kinds && DefDerives(f, next.0, next.1, v, n)
  {
    var d :| d in f.visible(scope, Root(e).id) && DefDerives(f, d, Steps(e) + trailing, v, n);
    next := (d, Steps(e) + trailing);
  }

  lemma {:induction false} DerivationIsTrail(f: File, d: int, steps: seq<Step>, v: ModuleValue, n: nat) returns (p: seq<Key>)
    requires f.Valid() && d in f.kinds && DefDerives(f, d, steps, v, n)
    ensures TrailTo(f, p, (d, steps), v)
    decreases n
  {
    if Emits(f, (d, steps), v) {
      p := [(d, steps)];
    } else {
      var next := DerivationHops(f, d, steps, v, n);
      var rest := DerivationIsTrail(f, next.0, next.1, v, n - 1);
      hide Hop, Emits, DefDerives;
      p := [(d, steps)] + rest;
      forall i | 0 < i < |p|
        ensures Hop(f, p[i - 1], p[i])
      {
        if i > 1 {
          assert Hop(f, rest[i - 2], rest[i - 1]);
        }
      }
    }
  }

  /** A definition denotes a value exactly when a trail of hops leads from it to a
      definition that emits the value. */
  lemma DenotedIffTrail(f: File, d: int, steps: seq<Step>, v: ModuleValue)
    requires f.Valid() && d in f.kinds
    ensures DefDenotes(f, d, steps, v) <==> exists p :: TrailTo(f, p, (d, steps), v)
  {
    if DefDenotes(f, d, steps, v) {
      var n: nat :| DefDerives(f, d, steps, v, n);
      var p := DerivationIsTrail(f, d, steps, v, n);
    }
    hide DefDenotes, Hop, Emits;
    if p :| TrailTo(f, p, (d, steps), v) {
      var last := p[|p| - 1];
      EmittedIsDenoted(f, last, v);
      assert last.1 + [] == last.1 && steps + [] == steps;
      TrailLeadsBack(f, p, [], v);
    }
  }

  // ------------------------------------------------------------------ going round

  function Repeated(n: nat, steps: seq<Step>): (r: seq<Step>)
    ensures steps != [] ==> |r| >= n
  {
    if n == 0 then [] else steps + Repeated(n - 1, steps)
  }

  function WithSteps(v: ModuleValue, more: seq<Step>): ModuleValue {
    v.(steps := v.steps + more)
  }

  /** Steps applied last stay last: whatever is denoted is denoted, with `more`
      after it, when `more` follows. */
  lemma {:induction false} ExprTakesMore(f: File, scope: int, e: Expr, trailing: seq<Step>, v: ModuleValue, n: nat, more: seq<Step>)
    requires f.Valid() && ExprDerives(f, scope, e, trailing, v, n)
    ensures ExprDerives(f, scope, e, trailing + more, WithSteps(v, more), n)
    decreases n, 1
  {
    assert Steps(e) + trailing + more == Steps(e) + (trailing + more);
    if Root(e).Name? {
      var d :| d in f.visible(scope, Root(e).id) && DefDerives(f, d, Steps(e) + trailing, v, n);
      DefTakesMore(f, d, Steps(e) + trailing, v, n, more);
    }
  }

  lemma {:induction false} DefTakesMore(f: File, d: int, steps: seq<Step>, v: ModuleValue, n: nat, more: seq<Step>)
    requires f.Valid() && d in f.kinds && DefDerives(f, d, steps, v, n)
    ensures DefDerives(f, d, steps + more, WithSteps(v, more), n)
    decreases n, 0
  {
    match f.kinds[d]
    case Assignment(value) => ExprTakesMore(f, f.scopes[d], value.value, steps, v, n - 1, more);
    case FunctionDef(body, results) =>
      var k :| 0 <= k < |results| && ExprDerives(f, body.value, results[k], steps[1..], v, n - 1);
      ExprTakesMore(f, body.value, results[k], steps[1..], v, n - 1, more);
      assert (steps + more)[1..] == steps[1..] + more;
    case _ =>
  }

  /** Going round any number of times. */
  lemma {:induction false} EveryRoundIsDenoted(f: File, p: seq<Key>, more: seq<Step>, v: ModuleValue, rounds: nat, rest: seq<Step>)
    requires f.Valid() && GoesRound(f, p, more) && DefDenotes(f, p[0].0, p[0].1, v)
    ensures DefDenotes(f, p[0].0, p[0].1 + rest, WithSteps(v, Repeated(rounds, more) + rest))
    decreases rounds
  {
    if rounds == 0 {
      var n: nat :| DefDerives(f, p[0].0, p[0].1, v, n);
      DefTakesMore(f, p[0].0, p[0].1, v, n, rest);
      assert [] + rest == rest;
    } else {
      EveryRoundIsDenoted(f, p, more, v, rounds - 1, more + rest);
      RoundsCommute(rounds - 1, more);
      assert Repeated(rounds - 1, more) + (more + rest) == Repeated(rounds, more) + rest;
      assert p[0].1 + (more + rest) == p[0].1 + more + rest;
      TrailLeadsBack(f, p, rest, WithSteps(v, Repeated(rounds, more) + rest));
    }
  }

  lemma {:induction false} RoundsCommute(n: nat, steps: seq<Step>)
    ensures Repeated(n, steps) + steps == steps + Repeated(n, steps)
  {
    if n > 0 {
      RoundsCommute(n - 1, steps);
      assert steps + Repeated(n - 1, steps) + steps == steps + (Repeated(n - 1, steps) + steps);
    }
  }

  lemma {:induction false} LongerThanAll(out: seq<ModuleValue>) returns (n: nat)
    ensures n > 0 && forall v :: v in out ==> |v.steps| < n
  {
    if out == [] {
      return 1;
    }
    var m := LongerThanAll(out[1..]);
    n := m + |out[0].steps| + 1;
    assert out == [out[0]] + out[1..];
  }

  /** One value makes a value that is longer than everything in a list. */
  lemma LongerIsMissed(f: File, p: seq<Key>, more: seq<Step>, v: ModuleValue, out: seq<ModuleValue>) returns (w: ModuleValue)
    requires f.Valid() && GoesRound(f, p, more) && DefDenotes(f, p[0].0, p[0].1, v)
    ensures DefDenotes(f, p[0].0, p[0].1, w) && w !in out
  {
    var n := LongerThanAll(out);
    EveryRoundIsDenoted(f, p, more, v, n, []);
    assert p[0].1 + [] == p[0].1;
    w := WithSteps(v, Repeated(n, more) + []);
  }

  ghost predicate IsWholeAnswer(f: File, c: Key, out: seq<ModuleValue>)
    requires f.Valid() && c.0 in f.kinds
  {
    forall v :: DefDenotes(f, c.0, c.1, v) ==> v in out
  }

  /** What goes round, through however many definitions and calls, denotes all or
      nothing: some list of values is the whole answer exactly when no module is
      denoted at all. */
  lemma FiniteAnswerIffNone(f: File, p: seq<Key>, more: seq<Step>)
    requires f.Valid() && GoesRound(f, p, more)
    ensures (exists out: seq<ModuleValue> :: IsWholeAnswer(f, p[0], out)) <==> IsWholeAnswer(f, p[0], [])
  {
    if out: seq<ModuleValue> :| IsWholeAnswer(f, p[0], out) {
      if v :| DefDenotes(f, p[0].0, p[0].1, v) {
        var w := LongerIsMissed(f, p, more, v, out);
        assert false;
      }
    }
  }

  // ----------------------------------------------------------- rebinding a name

  /** `d` assigns an access chain whose root is read from `d` itself. */
  ghost predicate RebindsItself(f: File, d: int, e: Expr)
    requires f.Valid()
  {
    d in f.kinds && f.kinds[d] == Assignment(Some(e)) && LeadsTo(f, f.scopes[d], e, d) && Steps(e) != []
  }

  /** The root of `e`, read where `d` is bound, may be an import of a module. */
  ghost predicate MayBeImport(f: File, d: int, e: Expr, i: int)
    requires f.Valid() && d in f.kinds
  {
    LeadsTo(f, f.scopes[d], e, i) && f.kinds[i].ImportBinding? && f.kinds[i].payload.mod != ""
  }

  lemma RebindingGoesRound(f: File, d: int, e: Expr)
    requires f.Valid() && RebindsItself(f, d, e)
    ensures GoesRound(f, [(d, []), (d, Steps(e))], Steps(e))
  {
    assert [] + Steps(e) == Steps(e) && Steps(e) + [] == Steps(e);
  }

  /** Two definitions that read each other, as `x = y.a` and `y = x.b`. */
  lemma MutualRebindingGoesRound(f: File, d: int, e: Expr, d': int, e': Expr)
    requires f.Valid() && d in f.kinds && d' in f.kinds
    requires f.kinds[d] == Assignment(Some(e)) && LeadsTo(f, f.scopes[d], e, d')
    requires f.kinds[d'] == Assignment(Some(e')) && LeadsTo(f, f.scopes[d'], e', d)
    requires Steps(e') + Steps(e) != []
    ensures GoesRound(f, [(d, []), (d', Steps(e)), (d, Steps(e') + Steps(e))], Steps(e') + Steps(e))
  {
    assert Steps(e) + [] == Steps(e) && [] + (Steps(e') + Steps(e)) == Steps(e') + Steps(e);
  }

  /** In any file, when a name rebound through itself may also be an import, every
      list of values, whatever cut produced it, misses one. */
  lemma NoListIsTheWholeAnswerOnACycle(f: File, d: int, e: Expr, i: int, out: seq<ModuleValue>)
    requires f.Valid() && RebindsItself(f, d, e) && MayBeImport(f, d, e, i)
    ensures exists v :: DefDenotes(f, d, [], v) && v !in out
  {
    var v := ModuleValue(f.kinds[i].payload, f.names[i], Steps(e) + []);
    assert DefDerives(f, i, Steps(e) + [], v, 0);
    assert ExprDerives(f, f.scopes[d], e, [], v, 0);
    assert DefDerives(f, d, [], v, 1);
    RebindingGoesRound(f, d, e);
    var w := LongerIsMissed(f, [(d, []), (d, Steps(e))], Steps(e), v, out);
  }

  /** `import pkg as x` and `x = x.sub`, either of which a read of `x` may see. */
  function Rebinding(): File {
    File(map[0 := ImportBinding(ImportRecord("pkg", None, false)), 1 := Assignment(Some(Attribute(Name("x"), "sub")))],
         map[0 := "x", 1 := "x"], map[0 := 0, 1 := 0],
         (scope, name) => if name == "x" then [0, 1] else [])
  }

  /** The walk's own answer for such a name, whatever it is, misses a value. */
  lemma RebindingMissesAValue(out: seq<ModuleValue>)
    ensures exists v :: DefDenotes(Rebinding(), 1, [], v) && v !in out
  {
    var f, e := Rebinding(), Attribute(Name("x"), "sub");
    assert Steps(e) == [Attr("sub")];
    assert [0, 1][0] == 0 && [0, 1][1] == 1;
    NoListIsTheWholeAnswerOnACycle(f, 1, e, 0, out);
  }
}
