/** The folder misses nothing: an expression it leaves unknown has runs of either
    truth, so it folds exactly what every run agrees on. */
module FoldingExactness {
  import opened Wrappers
  import opened PythonAst
  import opened Folding
  import opened FoldingLimits

  /** Every integer literal the folder looks at fits 64 bits. */
  predicate Fits(e: Expr)
    decreases e
  {
    match e
    case IntLiteral(i) => -0x8000_0000_0000_0000 <= i <= 0x7FFF_FFFF_FFFF_FFFF
    case Named(_, value) => Fits(value)
    case BoolOp(_, values) => AllFit(values)
    case Not(operand) => Fits(operand)
    case _ => true
  }

  predicate AllFit(es: seq<Expr>)
    decreases es
  {
    es == [] || (Fits(es[0]) && AllFit(es[1..]))
  }

  /** A faithful run that yields `want` and leaves `more`. */
  ghost predicate Comes(r: Eval, want: bool, more: seq<bool>, tables: Tables) {
    r.value == Truth(want) && r.rest == more && Faithful(r.trace, tables)
  }

  /** Not known to be otherwise. */
  predicate MayBe(known: Option<bool>, want: bool) {
    known.None? || known == Some(want)
  }

  lemma OnlyTwoTruths(known: Option<bool>)
    ensures known == None || known == Some(true) || known == Some(false)
  {
    if known.Some? {
      assert known == Some(known.value);
      assert known.value == true || known.value == false;
    }
  }

  lemma {:induction false} PartsCome(parts: seq<Expr>, scope: Scope, tables: Tables, want: bool, more: seq<bool>) returns (o: seq<bool>)
    ensures Comes(RunParts(parts, scope, o), want, more, tables)
    decreases |parts|
  {
    if parts == [] {
      o := [want] + more;
      assert o[1..] == more;
    } else {
      var rest := PartsCome(parts[1..], scope, tables, want, more);
      o := [false] + rest;
      assert o[1..] == rest;
    }
  }

  lemma {:induction false} Attain(e: Expr, scope: Scope, tables: Tables, want: bool, more: seq<bool>) returns (o: seq<bool>)
    requires Fits(e) && MayBe(EvaluateTruthiness(e, tables(scope)), want)
    ensures Comes(Run(e, scope, o), want, more, tables)
    decreases e
  {
    hide Run;
    var inner := AttainNode(e, scope, tables, want, more);
    o := [false] + inner;
    FirstChoice(e, scope, [false], inner);
    assert [false][1..] + inner == inner;
  }

  lemma {:induction false} AttainNode(e: Expr, scope: Scope, tables: Tables, want: bool, more: seq<bool>) returns (o: seq<bool>)
    requires Fits(e) && MayBe(EvaluateTruthiness(e, tables(scope)), want)
    ensures Comes(RunNode(e, scope, o), want, more, tables)
    decreases e, 0
  {
    hide Run, RunBool, RunItems, RunParts;
    match e
    case Name(id) =>
      o := [want] + more;
      assert o[1..] == more;
    case Named(_, value) => o := Attain(value, scope, tables, want, more);
    case Not(operand) => o := Attain(operand, scope, tables, !want, more);
    case BoolOp(op, values) => o := AttainBool(op, values, scope, tables, want, more);
    case Display(_, items) => o := DisplayComes(items, scope, tables, more);
    case OtherUnary(operand) => o := PartsCome([operand], scope, tables, want, more);
    case BinOp(left, right) => o := PartsCome([left, right], scope, tables, want, more);
    case Compare(left, comparators) => o := PartsCome([left] + comparators, scope, tables, want, more);
    case OtherExpr(parts) => o := PartsCome(parts, scope, tables, want, more);
    case _ => o := more;
  }

  lemma DisplayComes(items: seq<Item>, scope: Scope, tables: Tables, more: seq<bool>) returns (o: seq<bool>)
    ensures Comes(RunItems(items, false, items != [], scope, o), items != [], more, tables)
  {
    hide RunItems;
    o := PlanForItems(items, true, false, tables(scope)).choices + more;
    ItemsPlanYields(items, true, false, items != [], scope, tables, more);
    if items != [] {
      FullIsNonempty(items, false, tables(scope));
    }
  }

  lemma {:induction false} AttainBool(op: BoolOperator, values: seq<Expr>, scope: Scope, tables: Tables, want: bool, more: seq<bool>)
    returns (o: seq<bool>)
    requires AllFit(values) && MayBe(FoldBool(op, values, tables(scope)), want)
    ensures Comes(RunBool(op, values, scope, o), want, more, tables)
    decreases values
  {
    hide Run, Fits, EvaluateTruthiness;
    if values == [] {
      return more;
    }
    var known, others := EvaluateTruthiness(values[0], tables(scope)), FoldBool(op, values[1..], tables(scope));
    OnlyTwoTruths(known);
    OnlyTwoTruths(others);
    if want == op.Or? && MayBe(known, want) {
      o := Attain(values[0], scope, tables, want, more);
    } else {
      var rest := AttainBool(op, values[1..], scope, tables, want, more);
      o := Attain(values[0], scope, tables, op.And?, rest);
    }
  }

  /** What an expression folds to is exactly what all its faithful runs that yield a
      value agree on: nothing that could be known is left unknown. */
  lemma FoldingIsExact(e: Expr, scope: Scope, tables: Tables, b: bool)
    requires Fits(e)
    ensures EvaluateTruthiness(e, tables(scope)) == Some(b) <==>
      forall o :: Run(e, scope, o).value.Truth? && Faithful(Run(e, scope, o).trace, tables) ==> Run(e, scope, o).value == Truth(b)
  {
    if EvaluateTruthiness(e, tables(scope)) == Some(b) {
      forall o | Run(e, scope, o).value.Truth? && Faithful(Run(e, scope, o).trace, tables)
        ensures Run(e, scope, o).value == Truth(b)
      {
        FoldingIsSound(e, scope, o, tables, b);
      }
    } else {
      hide Run, EvaluateTruthiness;
      OnlyTwoTruths(EvaluateTruthiness(e, tables(scope)));
      var o := Attain(e, scope, tables, !b, []);
    }
  }

  /** An integer literal is folded exactly when it fits 64 bits. */
  lemma IntegersFold(i: int, table: NameTable)
    ensures EvaluateTruthiness(IntLiteral(i), table) ==
      if -9223372036854775808 <= i <= 9223372036854775807 then Some(i != 0) else None
  {
  }
}
