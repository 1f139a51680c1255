/** Constant folding of truth values, and the run-time behaviour it predicts.
    An expression is run against a stream of choices, so that every unknown
    value, every exception and every interruption is some stream. */
module Folding {
  import opened Wrappers
  import opened PythonAst

  /** An integer literal that does not fit 64 bits is left unfolded. */
  predicate FitsI64(i: int) {
    -0x8000_0000_0000_0000 <= i < 0x8000_0000_0000_0000
  }

  function EvaluateTruthiness(e: Expr, table: NameTable): Option<bool>
    decreases e
  {
    match e
    case BooleanLiteral(b) => Some(b)
    case NoneLiteral => Some(false)
    case EllipsisLiteral => Some(true)
    case IntLiteral(i) => if FitsI64(i) then Some(i != 0) else None
    case FloatLiteral(f) => Some(f != 0.0)
    case ComplexLiteral(re, im) => Some(re != 0.0 || im != 0.0)
    case StringLiteral(t) => Some(t != "")
    case BytesLiteral(b) => Some(b != [])
    case Display(_, items) => Some(items != [])
    case Name(id) => if id in table then Some(table[id]) else None
    case Named(_, value) => EvaluateTruthiness(value, table)
    case BoolOp(op, values) => FoldBool(op, values, table)
    case Not(operand) =>
      (match EvaluateTruthiness(operand, table)
       case Some(b) => Some(!b)
       case None => None)
    case OtherUnary(_) | BinOp(_, _) | Compare(_, _) | OtherExpr(_) => None
  }

  /** `and` is settled by any operand known false, `or` by any known true, even
      after an unknown one; otherwise one unknown operand leaves it unknown. */
  function FoldBool(op: BoolOperator, values: seq<Expr>, table: NameTable): Option<bool>
    decreases values
  {
    if values == [] then Some(op.And?) else
      var first, others := EvaluateTruthiness(values[0], table), FoldBool(op, values[1..], table);
      if first == Some(op.Or?) then first
      else if first == Some(op.And?) || others == Some(op.Or?) then others
      else None
  }

  // --------------------------------------------------------------- executions

  /** What a run leaves in its trace. `Ran` is a statement being started or a
      clause being tried; `Read` a name being read in a scope, `Wrote` a name
      being bound to the value of an expression, whose evaluation left the last
      `span` events before. The others mark the run-time situations the analysis
      takes not to happen. */
  datatype Event =
    | Ran(range: Span)
    | Read(scope: Scope, id: string, truth: bool)
    | Wrote(scope: Scope, id: string, value: Expr, truth: bool, span: nat)
    | EmptyDisplay
    | Swallowed
    | AssertSkipped

  /** How evaluating an expression ends: in a value (known by its truth), in an
      exception, or not yet, because the choices are used up. */
  datatype Value = Truth(truth: bool) | Raised | Suspended

  datatype Eval = Eval(value: Value, trace: seq<Event>, rest: seq<bool>)

  function Choose(o: seq<bool>): (r: Eval)
    ensures |r.rest| <= |o| && (o != [] ==> |r.rest| < |o|)
    ensures r.trace == [] && r.value != Raised
  {
    if o == [] then Eval(Suspended, [], []) else Eval(Truth(o[0]), [], o[1..])
  }

  predicate NoneRan(trace: seq<Event>) {
    forall e :: e in trace ==> !e.Ran?
  }

  /** The value an evaluation of `value` yields, bound to a name. */
  function Stored(r: Eval, scope: Scope, id: string, value: Expr): Eval {
    if r.value.Truth? then r.(trace := r.trace + [Wrote(scope, id, value, r.value.truth, |r.trace|)]) else r
  }

  /** Evaluates `e`; the first choice says whether that raises. */
  function Run(e: Expr, scope: Scope, o: seq<bool>): (r: Eval)
    ensures |r.rest| <= |o| && (o != [] ==> |r.rest| < |o|)
    ensures NoneRan(r.trace)
    decreases |o|, 0, 0
  {
    if o == [] then Eval(Suspended, [], [])
    else if o[0] then Eval(Raised, [], o[1..])
    else RunNode(e, scope, o[1..])
  }

  function RunNode(e: Expr, scope: Scope, o: seq<bool>): (r: Eval)
    ensures |r.rest| <= |o|
    ensures NoneRan(r.trace)
    decreases |o|, 3, 0
  {
    match e
    case BooleanLiteral(b) => Eval(Truth(b), [], o)
    case NoneLiteral => Eval(Truth(false), [], o)
    case EllipsisLiteral => Eval(Truth(true), [], o)
    case IntLiteral(i) => Eval(Truth(i != 0), [], o)
    case FloatLiteral(f) => Eval(Truth(f != 0.0), [], o)
    case ComplexLiteral(re, im) => Eval(Truth(re != 0.0 || im != 0.0), [], o)
    case StringLiteral(t) => Eval(Truth(t != ""), [], o)
    case BytesLiteral(b) => Eval(Truth(b != []), [], o)
    case Display(_, items) => RunItems(items, false, items != [], scope, o)
    case Name(id) =>
      var c := Choose(o);
      if c.value.Truth? then Eval(c.value, [Read(scope, id, c.value.truth)], c.rest) else c
    case Named(target, value) => Stored(Run(value, scope, o), scope, target, value)
    case BoolOp(op, values) => RunBool(op, values, scope, o)
    case Not(operand) =>
      var r := Run(operand, scope, o);
      if r.value.Truth? then r.(value := Truth(!r.value.truth)) else r
    case OtherUnary(operand) => RunParts([operand], scope, o)
    case BinOp(left, right) => RunParts([left, right], scope, o)
    case Compare(left, comparators) => RunParts([left] + comparators, scope, o)
    case OtherExpr(parts) => RunParts(parts, scope, o)
  }

  /** Operands run left to right until one settles the result. */
  function RunBool(op: BoolOperator, values: seq<Expr>, scope: Scope, o: seq<bool>): (r: Eval)
    ensures |r.rest| <= |o|
    ensures NoneRan(r.trace)
    decreases |o|, 2, |values|
  {
    if values == [] then Eval(Truth(op.And?), [], o) else
      var first := Run(values[0], scope, o);
      if first.value != Truth(op.And?) then first else
        var others := RunBool(op, values[1..], scope, first.rest);
        Eval(others.value, first.trace + others.trace, others.rest)
  }

  /** A display is true when it ends up with an element; whether an unpacking
      contributes one is a choice. */
  function RunItems(items: seq<Item>, nonempty: bool, some: bool, scope: Scope, o: seq<bool>): (r: Eval)
    ensures |r.rest| <= |o|
    ensures NoneRan(r.trace)
    decreases |o|, 2, |items|
  {
    if items == [] then
      Eval(Truth(nonempty), if some && !nonempty then [EmptyDisplay] else [], o)
    else
      var first := if items[0].Pair? then RunParts([items[0].key, items[0].value], scope, o)
                   else Run(items[0].value, scope, o);
      if !first.value.Truth? then first else
        var contributes := if items[0].Unpacked? then Choose(first.rest) else Eval(Truth(true), [], first.rest);
        if !contributes.value.Truth? then Eval(contributes.value, first.trace, contributes.rest) else
          var others := RunItems(items[1..], nonempty || contributes.value.truth, some, scope, contributes.rest);
          Eval(others.value, first.trace + others.trace, others.rest)
  }

  /** An operation the analysis knows nothing about: some of its operands run,
      and it yields anything. */
  function RunParts(parts: seq<Expr>, scope: Scope, o: seq<bool>): (r: Eval)
    ensures |r.rest| <= |o| && (o != [] ==> |r.rest| < |o|)
    ensures NoneRan(r.trace)
    decreases |o|, 1, |parts|
  {
    var c := Choose(o);
    if parts == [] || !c.value.Truth? then c
    else if !c.value.truth then RunParts(parts[1..], scope, c.rest)
    else
      var first := Run(parts[0], scope, c.rest);
      if !first.value.Truth? then first else
        var others := RunParts(parts[1..], scope, first.rest);
        Eval(others.value, first.trace + others.trace, others.rest)
  }

  /** A table per scope. */
  type Tables = Scope -> NameTable

  /** The run-time facts the analysis relies on, event by event: a read of a
      tabled name sees the tabled truth, a display with entries is not empty,
      no context manager swallows an exception, and asserts are enabled. */
  predicate Expected(e: Event, tables: Tables) {
    match e
    case Ran(_) | Wrote(_, _, _, _, _) => true
    case Read(scope, id, truth) => id in tables(scope) ==> tables(scope)[id] == truth
    case EmptyDisplay | Swallowed | AssertSkipped => false
  }

  predicate Faithful(trace: seq<Event>, tables: Tables) {
    forall e :: e in trace ==> Expected(e, tables)
  }

  /** Whatever an expression folds to under its scope's table is what every
      faithful run of it that yields a value yields. */
  lemma {:induction false} FoldingIsSound(e: Expr, scope: Scope, o: seq<bool>, tables: Tables, b: bool)
    requires EvaluateTruthiness(e, tables(scope)) == Some(b)
    requires Run(e, scope, o).value.Truth? && Faithful(Run(e, scope, o).trace, tables)
    ensures Run(e, scope, o).value == Truth(b)
    decreases |o|, e, 1
  {
    var r := RunNode(e, scope, o[1..]);
    match e
    case Name(id) =>
      assert Read(scope, id, r.value.truth) in r.trace;
    case Display(_, items) =>
      DisplayRuns(items, false, items != [], scope, o[1..], tables);
    case Named(_, value) =>
      assert Faithful(Run(value, scope, o[1..]).trace, tables);
      FoldingIsSound(value, scope, o[1..], tables, b);
    case Not(operand) =>
      FoldingIsSound(operand, scope, o[1..], tables, !b);
    case BoolOp(op, values) =>
      BoolFoldingIsSound(op, values, scope, o[1..], tables, b);
    case _ =>
  }

  lemma {:induction false} BoolFoldingIsSound(op: BoolOperator, values: seq<Expr>, scope: Scope, o: seq<bool>,
                                              tables: Tables, b: bool)
    requires FoldBool(op, values, tables(scope)) == Some(b)
    requires RunBool(op, values, scope, o).value.Truth? && Faithful(RunBool(op, values, scope, o).trace, tables)
    ensures RunBool(op, values, scope, o).value == Truth(b)
    decreases |o|, values, 0
  {
    if values != [] {
      var first := Run(values[0], scope, o);
      var known := EvaluateTruthiness(values[0], tables(scope));
      if known.Some? && first.value.Truth? {
        assert Faithful(first.trace, tables);
        FoldingIsSound(values[0], scope, o, tables, known.value);
      }
      if first.value == Truth(op.And?) {
        assert known != Some(op.Or?);
        var others := RunBool(op, values[1..], scope, first.rest);
        assert Faithful(others.trace, tables);
        if FoldBool(op, values[1..], tables(scope)) == Some(b) {
          BoolFoldingIsSound(op, values[1..], scope, first.rest, tables, b);
        }
      }
    }
  }

  lemma {:induction false} DisplayRuns(items: seq<Item>, nonempty: bool, some: bool, scope: Scope, o: seq<bool>,
                                       tables: Tables)
    requires items != [] ==> some
    requires RunItems(items, nonempty, some, scope, o).value.Truth?
    requires Faithful(RunItems(items, nonempty, some, scope, o).trace, tables)
    ensures RunItems(items, nonempty, some, scope, o).value == Truth(nonempty || some)
    decreases |o|, items
  {
    if items == [] {
      assert some && !nonempty ==> EmptyDisplay in RunItems(items, nonempty, some, scope, o).trace;
    } else {
      var first := if items[0].Pair? then RunParts([items[0].key, items[0].value], scope, o)
                   else Run(items[0].value, scope, o);
      var contributes := if items[0].Unpacked? then Choose(first.rest) else Eval(Truth(true), [], first.rest);
      var others := RunItems(items[1..], nonempty || contributes.value.truth, some, scope, contributes.rest);
      assert Faithful(others.trace, tables);
      DisplayRuns(items[1..], nonempty || contributes.value.truth, some, scope, contributes.rest, tables);
    }
  }
}
