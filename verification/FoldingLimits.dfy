/** Where the dead-region analysis relies on facts it does not check, and what
    happens to its answers without them. */
module FoldingLimits {
  import opened Wrappers
  import opened PythonAst
  import opened Folding
  import opened Execution
  import opened DeadRegions
  import opened DeadRegionSafety

  /** Every read of a tabled name saw the tabled truth. */
  ghost predicate ReadsAgree(trace: seq<Event>, tables: Tables) {
    forall e :: e in trace && e.Read? ==> Expected(e, tables)
  }

  // ----------------------------------------- any expression can yield a value

  datatype Plan = Plan(choices: seq<bool>, truth: bool)

  /** Choices under which `e` yields a value and reads what `table` says. */
  function PlanFor(e: Expr, table: NameTable): Plan
    decreases e
  {
    match e
    case Name(id) => var t := if id in table then table[id] else true; Plan([false, t], t)
    case Named(_, value) => var p := PlanFor(value, table); Plan([false] + p.choices, p.truth)
    case Not(operand) => var p := PlanFor(operand, table); Plan([false] + p.choices, !p.truth)
    case BoolOp(op, values) => var p := PlanForBool(op, values, table); Plan([false] + p.choices, p.truth)
    case Display(_, items) => var p := PlanForItems(items, true, false, table); Plan([false] + p.choices, p.truth)
    case OtherUnary(_) => Plan([false] + Skipping(1), true)
    case BinOp(_, _) => Plan([false] + Skipping(2), true)
    case Compare(_, comparators) => Plan([false] + Skipping(1 + |comparators|), true)
    case OtherExpr(parts) => Plan([false] + Skipping(|parts|), true)
    case _ => var v := EvaluateTruthiness(e, table); Plan([false], if v.Some? then v.value else true)
  }

  /** Skip `n` operands, then yield something true. */
  function Skipping(n: nat): seq<bool> {
    if n == 0 then [true] else [false] + Skipping(n - 1)
  }

  function PlanForBool(op: BoolOperator, values: seq<Expr>, table: NameTable): Plan
    decreases values
  {
    if values == [] then Plan([], op.And?) else
      var first := PlanFor(values[0], table);
      if first.truth != op.And? then first else
        var others := PlanForBool(op, values[1..], table);
        Plan(first.choices + others.choices, others.truth)
  }

  /** `full` says whether the unpackings contribute elements. */
  function PlanForItems(items: seq<Item>, full: bool, nonempty: bool, table: NameTable): Plan
    decreases items
  {
    if items == [] then Plan([], nonempty) else
      var others := PlanForItems(items[1..], full, nonempty || !items[0].Unpacked? || full, table);
      Plan(ChoicesForItem(items[0], full, table) + others.choices, others.truth)
  }

  function ChoicesForItem(item: Item, full: bool, table: NameTable): seq<bool>
    decreases item
  {
    match item
    case Pair(_, _) => Skipping(2)
    case Plain(value) => PlanFor(value, table).choices
    case Unpacked(value) => PlanFor(value, table).choices + [full]
  }

  lemma {:induction false} SkippingYields(parts: seq<Expr>, scope: Scope, more: seq<bool>)
    ensures RunParts(parts, scope, Skipping(|parts|) + more) == Eval(Truth(true), [], more)
  {
    var o := Skipping(|parts|) + more;
    if parts == [] {
      assert o[1..] == more;
    } else {
      assert o[1..] == Skipping(|parts[1..]|) + more;
      SkippingYields(parts[1..], scope, more);
    }
  }

  ghost predicate Yields(r: Eval, p: Plan, more: seq<bool>, tables: Tables) {
    r.value == Truth(p.truth) && r.rest == more && Faithful(r.trace, tables)
  }

  /** For the entries of a display: faithful, unless it comes out empty although
      it has some. */
  ghost predicate ItemsYield(r: Eval, p: Plan, more: seq<bool>, some: bool, tables: Tables) {
    && r.value == Truth(p.truth) && r.rest == more && ReadsAgree(r.trace, tables)
    && (p.truth || !some ==> Faithful(r.trace, tables))
  }

  lemma {:induction false} FullIsNonempty(items: seq<Item>, nonempty: bool, table: NameTable)
    requires nonempty || items != []
    ensures PlanForItems(items, true, nonempty, table).truth
    decreases |items|
  {
    if items != [] {
      FullIsNonempty(items[1..], true, table);
    }
  }


  /** The choice not to raise leaves the rest to the node. */
  lemma FirstChoice(e: Expr, scope: Scope, choices: seq<bool>, more: seq<bool>)
    requires choices != [] && !choices[0]
    ensures Run(e, scope, choices + more) == RunNode(e, scope, choices[1..] + more)
  {
    hide RunNode;
    assert (choices + more)[1..] == choices[1..] + more;
  }

  lemma {:induction false} PlanYields(e: Expr, scope: Scope, tables: Tables, more: seq<bool>)
    ensures Yields(Run(e, scope, PlanFor(e, tables(scope)).choices + more), PlanFor(e, tables(scope)), more, tables)
    decreases e
  {
    hide PlanForBool, PlanForItems, Skipping, Run, RunBool, RunItems, RunParts;
    var p := PlanFor(e, tables(scope));
    FirstChoice(e, scope, p.choices, more);
    match e
    case Name(id) =>
      assert (p.choices[1..] + more)[0] == p.truth && (p.choices[1..] + more)[1..] == more;
    case Named(_, value) => PlanYields(value, scope, tables, more);
    case Not(operand) => PlanYields(operand, scope, tables, more);
    case BoolOp(op, values) => BoolPlanYields(op, values, scope, tables, more);
    case Display(_, items) =>
      ItemsPlanYields(items, true, false, items != [], scope, tables, more);
      if items != [] {
        FullIsNonempty(items, false, tables(scope));
      }
    case OtherUnary(operand) => SkippingYields([operand], scope, more);
    case BinOp(left, right) => SkippingYields([left, right], scope, more);
    case Compare(left, comparators) => SkippingYields([left] + comparators, scope, more);
    case OtherExpr(parts) => SkippingYields(parts, scope, more);
    case _ =>
      assert p.choices[1..] + more == more;
  }

  lemma {:induction false} BoolPlanYields(op: BoolOperator, values: seq<Expr>, scope: Scope, tables: Tables, more: seq<bool>)
    ensures Yields(RunBool(op, values, scope, PlanForBool(op, values, tables(scope)).choices + more),
                   PlanForBool(op, values, tables(scope)), more, tables)
    decreases values
  {
    hide Run, PlanFor;
    if values == [] {
      assert [] + more == more;
    } else {
      var first := PlanFor(values[0], tables(scope));
      if first.truth != op.And? {
        PlanYields(values[0], scope, tables, more);
      } else {
        var others := PlanForBool(op, values[1..], tables(scope));
        PlanYields(values[0], scope, tables, others.choices + more);
        BoolPlanYields(op, values[1..], scope, tables, more);
        assert first.choices + others.choices + more == first.choices + (others.choices + more);
      }
    }
  }

  function RunItem(item: Item, scope: Scope, o: seq<bool>): Eval {
    if item.Pair? then RunParts([item.key, item.value], scope, o) else Run(item.value, scope, o)
  }

  /** One entry of a display evaluated, and chosen to contribute elements or not. */
  lemma ItemsGoOn(items: seq<Item>, full: bool, nonempty: bool, some: bool, scope: Scope, o: seq<bool>, rest: seq<bool>)
    requires items != [] && RunItem(items[0], scope, o).value.Truth?
    requires RunItem(items[0], scope, o).rest == (if items[0].Unpacked? then [full] else []) + rest
    ensures var others := RunItems(items[1..], nonempty || !items[0].Unpacked? || full, some, scope, rest);
      RunItems(items, nonempty, some, scope, o) == Eval(others.value, RunItem(items[0], scope, o).trace + others.trace, others.rest)
  {
    assert ([full] + rest)[1..] == rest;
    assert [] + rest == rest;
  }

  lemma {:induction false} ItemsPlanYields(items: seq<Item>, full: bool, nonempty: bool, some: bool, scope: Scope,
                                           tables: Tables, more: seq<bool>)
    ensures ItemsYield(RunItems(items, nonempty, some, scope, PlanForItems(items, full, nonempty, tables(scope)).choices + more),
                       PlanForItems(items, full, nonempty, tables(scope)), more, some, tables)
    decreases items
  {
    hide RunItem, ChoicesForItem;
    if items == [] {
      assert [] + more == more;
    } else {
      hide RunItems;
      var nonempty' := nonempty || !items[0].Unpacked? || full;
      var others := PlanForItems(items[1..], full, nonempty', tables(scope));
      var o := ChoicesForItem(items[0], full, tables(scope)) + (others.choices + more);
      assert PlanForItems(items, full, nonempty, tables(scope)).choices + more == o;
      ItemPlanYields(items[0], full, scope, tables, others.choices + more);
      ItemsPlanYields(items[1..], full, nonempty', some, scope, tables, more);
      ItemsGoOn(items, full, nonempty, some, scope, o, others.choices + more);
    }
  }

  lemma {:induction false} ItemPlanYields(item: Item, full: bool, scope: Scope, tables: Tables, more: seq<bool>)
    ensures var r := RunItem(item, scope, ChoicesForItem(item, full, tables(scope)) + more);
      && r.value.Truth? && Faithful(r.trace, tables)
      && r.rest == (if item.Unpacked? then [full] else []) + more
    decreases item
  {
    hide Run, RunParts, PlanFor;
    match item
    case Pair(key, value) =>
      SkippingYields([key, value], scope, more);
      assert [] + more == more;
    case Plain(value) =>
      PlanYields(value, scope, tables, more);
      assert [] + more == more;
    case Unpacked(value) =>
      PlanYields(value, scope, tables, [full] + more);
      assert PlanFor(value, tables(scope)).choices + [full] + more == PlanFor(value, tables(scope)).choices + ([full] + more);
  }

  // -------------------------------------------------------- unpacking displays

  /** A display some entry of which is certain to be there. */
  predicate Anchored(items: seq<Item>) {
    exists k :: 0 <= k < |items| && !items[k].Unpacked?
  }

  lemma {:induction false} AnchoredStaysNonempty(items: seq<Item>, nonempty: bool, some: bool, scope: Scope, o: seq<bool>)
    requires nonempty || Anchored(items)
    requires RunItems(items, nonempty, some, scope, o).value.Truth?
    ensures RunItems(items, nonempty, some, scope, o).value.truth
    decreases |items|
  {
    if items != [] {
      var first := if items[0].Pair? then RunParts([items[0].key, items[0].value], scope, o)
                   else Run(items[0].value, scope, o);
      var contributes := if items[0].Unpacked? then Choose(first.rest) else Eval(Truth(true), [], first.rest);
      if !nonempty && items[0].Unpacked? {
        var k :| 0 <= k < |items| && !items[k].Unpacked?;
        assert items[1..][k - 1] == items[k];
      }
      AnchoredStaysNonempty(items[1..], nonempty || contributes.value.truth, some, scope, contributes.rest);
    }
  }

  lemma {:induction false} AllUnpackedIsEmpty(items: seq<Item>, table: NameTable)
    requires !Anchored(items)
    ensures !PlanForItems(items, false, false, table).truth
    decreases |items|
  {
    if items != [] {
      assert items[0].Unpacked?;
      forall k | 0 <= k < |items[1..]|
        ensures items[1..][k].Unpacked?
      {
        assert items[1..][k] == items[k + 1];
      }
      AllUnpackedIsEmpty(items[1..], table);
    }
  }

  lemma DisplayRunsItsItems(kind: DisplayKind, items: seq<Item>, scope: Scope, o: seq<bool>)
    requires o != [] && !o[0]
    ensures Run(Display(kind, items), scope, o) == RunItems(items, false, items != [], scope, o[1..])
  {
    assert Run(Display(kind, items), scope, o) == RunNode(Display(kind, items), scope, o[1..]);
  }

  /** Folding a display to "true when it has entries" is right for every run
      exactly when it has none or one of them is not an unpacking: `[*xs]` is
      folded to true, and is false whenever `xs` is empty. */
  lemma DisplayFoldingExact(kind: DisplayKind, items: seq<Item>, scope: Scope, tables: Tables)
    ensures (forall o :: var r := Run(Display(kind, items), scope, o);
               r.value.Truth? && ReadsAgree(r.trace, tables)
               ==> Some(r.value.truth) == EvaluateTruthiness(Display(kind, items), tables(scope)))
            <==> items == [] || Anchored(items)
  {
    var e := Display(kind, items);
    if items == [] || Anchored(items) {
      forall o | Run(e, scope, o).value.Truth?
        ensures Run(e, scope, o).value.truth == (items != [])
      {
        DisplayRunsItsItems(kind, items, scope, o);
        if items != [] {
          AnchoredStaysNonempty(items, false, true, scope, o[1..]);
        }
      }
    } else {
      var p := PlanForItems(items, false, false, tables(scope));
      var o := [false] + (p.choices + []);
      assert o[1..] == p.choices + [];
      ItemsPlanYields(items, false, false, true, scope, tables, []);
      AllUnpackedIsEmpty(items, tables(scope));
      DisplayRunsItsItems(kind, items, scope, o);
      var r := Run(e, scope, o);
      assert r.value.Truth? && ReadsAgree(r.trace, tables) && !r.value.truth;
    }
  }

  // -------------------------------------------- runs the assumptions rule out

  /** `pass` at `lo`. */
  function Pass(lo: int): Stmt {
    Simple(Span(lo, lo + 1), [])
  }

  lemma PassRuns(lo: int, scope: Scope)
    ensures ExecSuite([Pass(lo)], scope, [true]) == Res(Raising, [Ran(Span(lo, lo + 1))], [])
  {
    assert [true][1..] == [];
    assert ExecStmt(Pass(lo), scope, [true]) == Res(Raising, [Ran(Span(lo, lo + 1))], []);
  }

  lemma RaiseRuns(scope: Scope, rest: seq<bool>)
    ensures ExecSuite([Raise(Span(1, 2), [])], scope, [false, true] + rest) == Res(Raising, [Ran(Span(1, 2))], rest)
  {
    var raise, o := Raise(Span(1, 2), []), [false, true] + rest;
    assert o[1..] == [true] + rest && ([true] + rest)[1..] == rest;
    assert ExecNode(raise, scope, o[1..]) == Res(Raising, [], rest);
    assert ExecStmt(raise, scope, o) == Res(Raising, [Ran(Span(1, 2))], rest);
  }

  lemma WithRuns(range: Span, body: seq<Stmt>, scope: Scope, rest: seq<bool>)
    ensures var b := ExitManager(ExecSuite(body, scope, rest));
      ExecStmt(With(range, [], body), scope, [false, true] + rest) == Res(b.outcome, [Ran(range)] + b.trace, b.rest)
  {
    hide ExecSuite, ExitManager;
    var s, o := With(range, [], body), [false, true] + rest;
    assert o[1..] == [true] + rest && ([true] + rest)[1..] == rest;
    assert RunParts([], scope, o[1..]) == Eval(Truth(true), [], rest);
    assert [] + ExitManager(ExecSuite(body, scope, rest)).trace == ExitManager(ExecSuite(body, scope, rest)).trace;
  }

  /** `with m:` around a `raise`, its manager swallowing the exception. */
  lemma SwallowingWithCompletes(scope: Scope)
    ensures ExecStmt(With(Span(0, 3), [], [Raise(Span(1, 2), [])]), scope, [false, true, false, true, false, true, true])
            == Res(Normal, [Ran(Span(0, 3)), Ran(Span(1, 2)), Swallowed], [true])
  {
    hide ExecSuite, ExecStmt;
    var o := [false, true, true];
    WithRuns(Span(0, 3), [Raise(Span(1, 2), [])], scope, [false, true] + o);
    RaiseRuns(scope, o);
    assert [false, true, false, true, false, true, true] == [false, true] + ([false, true] + o);
    assert o[1..] == [true, true] && [true, true][1..] == [true];
    assert ExitManager(Res(Raising, [Ran(Span(1, 2))], o)) == Res(Normal, [Ran(Span(1, 2)), Swallowed], [true]);
  }

  /** `with m: raise`, then `pass`: the `pass` is reported dead, and it runs when
      the manager swallows the exception. */
  lemma SwallowedExceptionRevives(scope: Scope, tables: Tables)
    ensures var suite := [With(Span(0, 3), [], [Raise(Span(1, 2), [])]), Pass(4)];
      var r := ExecSuite(suite, scope, [false, true, false, true, false, true, true]);
      && Placed(suite, 0) && Pass(4).range in DeadSuite(suite, scope, tables)
      && Ran(Pass(4).range) in r.trace && forall e :: e in r.trace ==> Expected(e, tables) || e == Swallowed
  {
    hide ExecStmt, ExecNode, DeadSuite, DeadStmt, Placed, StmtIsTerminator;
    var s := With(Span(0, 3), [], [Raise(Span(1, 2), [])]);
    assert [s, Pass(4)][1..] == [Pass(4)];
    AfterWithIsDead(scope, tables);
    SwallowingWithCompletes(scope);
    PassRuns(4, scope);
  }

  lemma AfterWithIsDead(scope: Scope, tables: Tables)
    ensures var suite := [With(Span(0, 3), [], [Raise(Span(1, 2), [])]), Pass(4)];
      Placed(suite, 0) && Pass(4).range in DeadSuite(suite, scope, tables)
  {
    var raise, s := Raise(Span(1, 2), []), With(Span(0, 3), [], [Raise(Span(1, 2), [])]);
    var suite := [s, Pass(4)];
    assert suite[1..] == [Pass(4)] && [raise][1..] == [] && [Pass(4)][1..] == [];
    assert StmtIsTerminator(raise, tables(scope));
    assert SuiteTerminates([raise], tables(scope));
    assert StmtIsTerminator(s, tables(scope));
    assert Ranges([Pass(4)]) == [Pass(4).range];
    assert DeadSuite(suite, scope, tables) == DeadStmt(s, scope, tables) + Ranges([Pass(4)]);
    assert End([raise], 1) == 2 && Placed([raise], 1) && PlacedStmt(s) && Placed([Pass(4)], 3);
  }

  lemma DisabledAssertCompletes(scope: Scope)
    ensures ExecStmt(Assert(Span(0, 1), BooleanLiteral(false)), scope, [false, false, true])
            == Res(Normal, [Ran(Span(0, 1)), AssertSkipped], [true])
  {
    assert [false, false, true][1..] == [false, true] && [false, true][1..] == [true];
    assert ExecNode(Assert(Span(0, 1), BooleanLiteral(false)), scope, [false, true]) == Res(Normal, [AssertSkipped], [true]);
  }

  /** `assert False`, then `pass`: reported dead, and run when asserts are off. */
  lemma DisabledAssertRevives(scope: Scope, tables: Tables)
    ensures var suite := [Assert(Span(0, 1), BooleanLiteral(false)), Pass(2)];
      var r := ExecSuite(suite, scope, [false, false, true]);
      && Placed(suite, 0) && Pass(2).range in DeadSuite(suite, scope, tables)
      && Ran(Pass(2).range) in r.trace && forall e :: e in r.trace ==> Expected(e, tables) || e == AssertSkipped
  {
    hide ExecStmt;
    var s := Assert(Span(0, 1), BooleanLiteral(false));
    var suite := [s, Pass(2)];
    assert suite[1..] == [Pass(2)] && [Pass(2)][1..] == [];
    DisabledAssertCompletes(scope);
    PassRuns(2, scope);
    assert StmtIsTerminator(s, tables(scope));
    assert Ranges([Pass(2)]) == [Pass(2).range];
    assert DeadSuite(suite, scope, tables) == DeadStmt(s, scope, tables) + Ranges([Pass(2)]);
    assert Placed([Pass(2)], 1);
  }

  // ------------------------------------------------------------------- `match`

  /** Refusing every arm that can be refused. */
  lemma {:induction false} NoArmTaken(cases: seq<Arm>, scope: Scope, more: seq<bool>)
    requires !CatchesAll(cases)
    ensures ExecCases(cases, scope, Refusing(|cases|) + more) == Res(Normal, [], more)
  {
    var o := Refusing(|cases|) + more;
    if cases == [] {
      assert o == more;
    } else {
      assert !cases[0].catchAll;
      assert o[1..] == Refusing(|cases[1..]|) + more;
      forall k | 0 <= k < |cases[1..]|
        ensures !cases[1..][k].catchAll
      {
        assert cases[1..][k] == cases[k + 1];
      }
      NoArmTaken(cases[1..], scope, more);
    }
  }

  function Refusing(n: nat): (r: seq<bool>) {
    if n == 0 then [] else [false] + Refusing(n - 1)
  }

  /** No faithful run of the statement completes normally. */
  ghost predicate NeverCompletes(s: Stmt, scope: Scope, tables: Tables) {
    forall o :: Faithful(ExecStmt(s, scope, o).trace, tables) ==> ExecStmt(s, scope, o).outcome != Normal
  }

  lemma ExhaustiveMatchRun(s: Stmt, scope: Scope, o: seq<bool>, tables: Tables)
    requires s.Match? && PlacedStmt(s) && Exhausts(s.cases, tables(scope))
    requires Faithful(ExecStmt(s, scope, o).trace, tables)
    ensures ExecStmt(s, scope, o).outcome != Normal
  {
    if o != [] && !o[0] {
      var r, t := ExecNode(s, scope, o[1..]), Run(s.subject, scope, o[1..]);
      hide Exhausts;
      assert Faithful(r.trace, tables);
      if t.value.Truth? {
        var c := ExecCases(s.cases, scope, t.rest);
        CasesAreGood(s.cases, scope, t.rest, tables, s.range.lo + 1);
        assert Faithful(c.trace, tables);
      }
    }
  }

  lemma OpenMatchRun(s: Stmt, scope: Scope, tables: Tables) returns (o: seq<bool>)
    requires s.Match? && !CatchesAll(s.cases)
    ensures Faithful(ExecStmt(s, scope, o).trace, tables) && ExecStmt(s, scope, o).outcome == Normal
  {
    var subject := PlanFor(s.subject, tables(scope)).choices;
    var rest := Refusing(|s.cases|) + [];
    PlanYields(s.subject, scope, tables, rest);
    NoArmTaken(s.cases, scope, []);
    hide Run, PlanFor, Refusing, ExecCases;
    o := [false] + (subject + rest);
    assert o[1..] == subject + rest;
    assert ExecNode(s, scope, o[1..]) == Res(Normal, Run(s.subject, scope, subject + rest).trace, []);
  }

  /** A `match` is never taken for a terminator. One whose arms all terminate is
      one exactly when some arm catches everything; what follows it is then dead
      and goes unreported. */
  lemma MatchTerminatesIff(s: Stmt, scope: Scope, tables: Tables)
    requires s.Match? && PlacedStmt(s) && ArmsTerminate(s.cases, tables(scope))
    ensures NeverCompletes(s, scope, tables) <==> CatchesAll(s.cases)
    ensures forall table :: !StmtIsTerminator(s, table)
  {
    if CatchesAll(s.cases) {
      forall o | Faithful(ExecStmt(s, scope, o).trace, tables)
        ensures ExecStmt(s, scope, o).outcome != Normal
      {
        ExhaustiveMatchRun(s, scope, o, tables);
      }
    } else {
      var o := OpenMatchRun(s, scope, tables);
    }
  }
}
