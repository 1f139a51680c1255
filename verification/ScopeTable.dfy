/** The per-scope table of known truth values: a chaotic iteration over the
    scope's bindings, with a poison set for names that flip. */
module ScopeTable {
  import opened Wrappers
  import opened PythonAst
  import opened Folding
  import opened Sets

  type Bindings = map<string, seq<Expr>>

  // ----------------------------------------------------- collecting bindings

  function Bind(out: Bindings, name: string, e: Expr): Bindings {
    out[name := (if name in out then out[name] else []) + [e]]
  }

  /** Walrus bindings in `e`; calls, attributes and displays are not entered. */
  function CollectWalrus(e: Expr, out: Bindings): Bindings
    decreases e
  {
    match e
    case Named(target, value) => CollectWalrus(value, Bind(out, target, value))
    case BoolOp(_, values) => CollectWalruses(values, out)
    case Not(operand) => CollectWalrus(operand, out)
    case OtherUnary(operand) => CollectWalrus(operand, out)
    case BinOp(left, right) => CollectWalrus(right, CollectWalrus(left, out))
    case Compare(left, comparators) => CollectWalruses(comparators, CollectWalrus(left, out))
    case _ => out
  }

  function CollectWalruses(es: seq<Expr>, out: Bindings): Bindings
    decreases es
  {
    if es == [] then out else CollectWalruses(es[1..], CollectWalrus(es[0], out))
  }

  function CollectStmt(s: Stmt, out: Bindings): Bindings {
    match s
    case Assign(_, targets, value) =>
      CollectWalrus(value, if |targets| == 1 && targets[0].Name? then Bind(out, targets[0].id, value) else out)
    case AnnAssign(_, target, annotation, bound) =>
      var bound' := if target.Name? && bound.Some? then Bind(out, target.id, bound.value) else out;
      CollectWalrus(annotation, if bound.Some? then CollectWalrus(bound.value, bound') else bound')
    case ExprStmt(_, value) => CollectWalrus(value, out)
    case If(_, test, _, _) => CollectWalrus(test, out)
    case While(_, test, _, _) => CollectWalrus(test, out)
    case Return(_, result) => if result.Some? then CollectWalrus(result.value, out) else out
    case _ => out
  }

  function CollectScope(stmts: seq<Stmt>, out: Bindings): Bindings {
    if stmts == [] then out else CollectScope(stmts[1..], CollectStmt(stmts[0], out))
  }

  method CollectScopeBindings(stmts: seq<Stmt>) returns (out: Bindings)
    ensures out == CollectScope(stmts, map[])
  {
    out := map[];
    for i := 0 to |stmts|
      invariant CollectScope(stmts, map[]) == CollectScope(stmts[i..], out)
    {
      out := CollectStmt(stmts[i], out);
      assert stmts[i..][1..] == stmts[i + 1..];
    }
  }

  /** What was collected stays, and what is collected comes after it. */
  ghost predicate Extends(before: Bindings, after: Bindings) {
    forall n :: n in before ==> n in after && before[n] <= after[n]
  }

  lemma {:induction false} WalrusExtends(e: Expr, out: Bindings)
    ensures Extends(out, CollectWalrus(e, out))
    decreases e
  {
    match e
    case Named(target, value) => WalrusExtends(value, Bind(out, target, value));
    case BoolOp(_, values) => WalrusesExtend(values, out);
    case Not(operand) => WalrusExtends(operand, out);
    case OtherUnary(operand) => WalrusExtends(operand, out);
    case BinOp(left, right) =>
      WalrusExtends(left, out);
      WalrusExtends(right, CollectWalrus(left, out));
    case Compare(left, comparators) =>
      WalrusExtends(left, out);
      WalrusesExtend(comparators, CollectWalrus(left, out));
    case _ =>
  }

  lemma {:induction false} WalrusesExtend(es: seq<Expr>, out: Bindings)
    ensures Extends(out, CollectWalruses(es, out))
    decreases es
  {
    if es != [] {
      WalrusExtends(es[0], out);
      WalrusesExtend(es[1..], CollectWalrus(es[0], out));
    }
  }

  lemma StmtExtends(s: Stmt, out: Bindings)
    ensures Extends(out, CollectStmt(s, out))
  {
    match s
    case Assign(_, targets, value) =>
      WalrusExtends(value, if |targets| == 1 && targets[0].Name? then Bind(out, targets[0].id, value) else out);
    case AnnAssign(_, target, annotation, bound) =>
      var bound' := if target.Name? && bound.Some? then Bind(out, target.id, bound.value) else out;
      if bound.Some? {
        WalrusExtends(bound.value, bound');
      }
      WalrusExtends(annotation, if bound.Some? then CollectWalrus(bound.value, bound') else bound');
    case ExprStmt(_, value) => WalrusExtends(value, out);
    case If(_, test, _, _) => WalrusExtends(test, out);
    case While(_, test, _, _) => WalrusExtends(test, out);
    case Return(_, result) =>
      if result.Some? {
        WalrusExtends(result.value, out);
      }
    case _ =>
  }

  /** Bindings come in the order of the statements that make them. */
  lemma {:induction false} ScopeExtends(first: seq<Stmt>, later: seq<Stmt>, out: Bindings)
    ensures CollectScope(first + later, out) == CollectScope(later, CollectScope(first, out))
    ensures Extends(CollectScope(first, out), CollectScope(first + later, out))
    decreases |first|, |later|
  {
    if first == [] {
      assert first + later == later;
      if later != [] {
        StmtExtends(later[0], out);
        assert [] + later[1..] == later[1..];
        ScopeExtends([], later[1..], CollectStmt(later[0], out));
      }
    } else {
      assert (first + later)[1..] == first[1..] + later;
      ScopeExtends(first[1..], later, CollectStmt(first[0], out));
    }
  }

  // What is collected, said without the accumulator.

  /** `e` holds `id := v` where the analysis looks: under operators, comparisons
      and other walruses, not under calls, displays or anything else. */
  ghost predicate WalrusIn(e: Expr, id: string, v: Expr)
    decreases e
  {
    match e
    case Named(target, value) => (target == id && value == v) || WalrusIn(value, id, v)
    case BoolOp(_, values) => WalrusAmong(values, id, v)
    case Not(operand) => WalrusIn(operand, id, v)
    case OtherUnary(operand) => WalrusIn(operand, id, v)
    case BinOp(left, right) => WalrusIn(left, id, v) || WalrusIn(right, id, v)
    case Compare(left, comparators) => WalrusIn(left, id, v) || WalrusAmong(comparators, id, v)
    case _ => false
  }

  ghost predicate WalrusAmong(es: seq<Expr>, id: string, v: Expr)
    decreases es
  {
    exists k :: 0 <= k < |es| && WalrusIn(es[k], id, v)
  }

  /** `s` binds `id` to `v` at the top level of its suite. */
  ghost predicate Binds(s: Stmt, id: string, v: Expr) {
    match s
    case Assign(_, targets, value) => (targets == [Name(id)] && value == v) || WalrusIn(value, id, v)
    case AnnAssign(_, target, annotation, bound) =>
      (target == Name(id) && bound == Some(v)) || (bound.Some? && WalrusIn(bound.value, id, v)) || WalrusIn(annotation, id, v)
    case ExprStmt(_, value) => WalrusIn(value, id, v)
    case If(_, test, _, _) => WalrusIn(test, id, v)
    case While(_, test, _, _) => WalrusIn(test, id, v)
    case Return(_, result) => result.Some? && WalrusIn(result.value, id, v)
    case _ => false
  }

  ghost predicate Holds(b: Bindings, id: string, v: Expr) {
    id in b && v in b[id]
  }

  lemma {:induction false} WalrusCollected(e: Expr, out: Bindings, id: string, v: Expr)
    ensures Holds(CollectWalrus(e, out), id, v) <==> Holds(out, id, v) || WalrusIn(e, id, v)
    decreases e
  {
    match e
    case Named(target, value) => WalrusCollected(value, Bind(out, target, value), id, v);
    case BoolOp(_, values) => WalrusesCollected(values, out, id, v);
    case Not(operand) => WalrusCollected(operand, out, id, v);
    case OtherUnary(operand) => WalrusCollected(operand, out, id, v);
    case BinOp(left, right) =>
      WalrusCollected(left, out, id, v);
      WalrusCollected(right, CollectWalrus(left, out), id, v);
    case Compare(left, comparators) =>
      WalrusCollected(left, out, id, v);
      WalrusesCollected(comparators, CollectWalrus(left, out), id, v);
    case _ =>
  }

  lemma {:induction false} WalrusesCollected(es: seq<Expr>, out: Bindings, id: string, v: Expr)
    ensures Holds(CollectWalruses(es, out), id, v) <==> Holds(out, id, v) || WalrusAmong(es, id, v)
    decreases es
  {
    if es != [] {
      var out' := CollectWalrus(es[0], out);
      WalrusCollected(es[0], out, id, v);
      WalrusesCollected(es[1..], out', id, v);
      assert WalrusAmong(es, id, v) <==> WalrusIn(es[0], id, v) || WalrusAmong(es[1..], id, v) by {
        if k :| 0 <= k < |es| && WalrusIn(es[k], id, v) && k > 0 {
          assert es[1..][k - 1] == es[k];
        }
        if k :| 0 <= k < |es[1..]| && WalrusIn(es[1..][k], id, v) {
          assert es[k + 1] == es[1..][k];
        }
      }
    }
  }

  lemma AssignCollected(s: Stmt, out: Bindings, id: string, v: Expr)
    requires s.Assign?
    ensures Holds(CollectStmt(s, out), id, v) <==> Holds(out, id, v) || Binds(s, id, v)
  {
    hide WalrusIn, CollectWalrus;
    var bound := |s.targets| == 1 && s.targets[0].Name?;
    WalrusCollected(s.value, if bound then Bind(out, s.targets[0].id, s.value) else out, id, v);
    if bound {
      assert s.targets == [s.targets[0]];
      assert s.targets == [Name(id)] <==> s.targets[0].id == id;
    } else {
      assert s.targets != [Name(id)];
    }
  }

  lemma AnnAssignCollected(s: Stmt, out: Bindings, id: string, v: Expr)
    requires s.AnnAssign?
    ensures Holds(CollectStmt(s, out), id, v) <==> Holds(out, id, v) || Binds(s, id, v)
  {
    hide WalrusIn, CollectWalrus;
    var bound' := if s.target.Name? && s.bound.Some? then Bind(out, s.target.id, s.bound.value) else out;
    if s.bound.Some? {
      WalrusCollected(s.bound.value, bound', id, v);
    }
    WalrusCollected(s.annotation, if s.bound.Some? then CollectWalrus(s.bound.value, bound') else bound', id, v);
  }

  lemma StmtCollected(s: Stmt, out: Bindings, id: string, v: Expr)
    ensures Holds(CollectStmt(s, out), id, v) <==> Holds(out, id, v) || Binds(s, id, v)
  {
    hide WalrusIn, CollectWalrus, Holds;
    match s
    case Assign(_, _, _) => AssignCollected(s, out, id, v);
    case AnnAssign(_, _, _, _) => AnnAssignCollected(s, out, id, v);
    case ExprStmt(_, value) => WalrusCollected(value, out, id, v);
    case If(_, test, _, _) => WalrusCollected(test, out, id, v);
    case While(_, test, _, _) => WalrusCollected(test, out, id, v);
    case Return(_, result) =>
      if result.Some? {
        WalrusCollected(result.value, out, id, v);
      }
    case _ =>
  }

  /** Exactly the top-level bindings of the suite are collected; what a nested
      block, `for`, import or inner scope binds is not. */
  lemma {:induction false} ScopeCollected(stmts: seq<Stmt>, out: Bindings, id: string, v: Expr)
    ensures Holds(CollectScope(stmts, out), id, v) <==>
      Holds(out, id, v) || exists k :: 0 <= k < |stmts| && Binds(stmts[k], id, v)
    decreases |stmts|
  {
    hide Binds, CollectStmt, Holds;
    if stmts != [] {
      StmtCollected(stmts[0], out, id, v);
      ScopeCollected(stmts[1..], CollectStmt(stmts[0], out), id, v);
      if k :| 0 <= k < |stmts| && Binds(stmts[k], id, v) && k > 0 {
        assert stmts[1..][k - 1] == stmts[k];
      }
      if k :| 0 <= k < |stmts[1..]| && Binds(stmts[1..][k], id, v) {
        assert stmts[k + 1] == stmts[1..][k];
      }
    }
  }

  // ------------------------------------------------------------ one iteration

  datatype State = State(table: NameTable, poisoned: set<string>)

  function Get(table: NameTable, name: string): Option<bool> {
    if name in table then Some(table[name]) else None
  }

  /** The value all bindings agree on, if they do and it is known. */
  function Resolve(exprs: seq<Expr>, table: NameTable): Option<bool> {
    if exprs == [] then None
    else if forall k :: 0 <= k < |exprs| ==> EvaluateTruthiness(exprs[k], table) == EvaluateTruthiness(exprs[0], table)
    then EvaluateTruthiness(exprs[0], table)
    else None
  }

  ghost predicate AllFold(exprs: seq<Expr>, table: NameTable, v: bool) {
    exprs != [] && forall k :: 0 <= k < |exprs| ==> EvaluateTruthiness(exprs[k], table) == Some(v)
  }

  /** Bindings resolve to a value exactly when there are some and all fold to it. */
  lemma ResolvesIff(exprs: seq<Expr>, table: NameTable, v: bool)
    ensures Resolve(exprs, table) == Some(v) <==> AllFold(exprs, table, v)
  {
  }

  /** One visit of one name: the new state, and whether it changed. */
  function Visit(b: Bindings, name: string, st: State): (State, bool)
    requires name in b
  {
    if name in st.poisoned then (st, false) else
      match (Resolve(b[name], st.table), Get(st.table, name))
      case (Some(v), None) => (State(st.table[name := v], st.poisoned), true)
      case (Some(v), Some(prev)) =>
        if prev != v then (State(st.table - {name}, st.poisoned + {name}), true) else (st, false)
      case (None, Some(_)) => (State(st.table - {name}, st.poisoned), true)
      case (None, None) => (st, false)
  }

  /** A round visits every name once. */
  function Sweep(b: Bindings, order: seq<string>, st: State): (State, bool)
    requires forall n :: n in order ==> n in b
  {
    if order == [] then (st, false) else
      var first := Visit(b, order[0], st);
      var others := Sweep(b, order[1..], first.0);
      (others.0, first.1 || others.1)
  }

  /** Rounds until one changes nothing; `None` if `budget` rounds are not enough. */
  function Rounds(b: Bindings, order: seq<string>, st: State, budget: nat): Option<State>
    requires forall n :: n in order ==> n in b
    decreases budget
  {
    if budget == 0 then None else
      var round := Sweep(b, order, st);
      if round.1 then Rounds(b, order, round.0, budget - 1) else Some(round.0)
  }

  /** A result reached is the result however many more rounds are allowed. */
  lemma {:induction false} MoreRounds(b: Bindings, order: seq<string>, st: State, budget: nat, more: nat)
    requires (forall n :: n in order ==> n in b) && budget <= more
    requires Rounds(b, order, st, budget).Some?
    ensures Rounds(b, order, st, more) == Rounds(b, order, st, budget)
    decreases budget
  {
    if Sweep(b, order, st).1 {
      MoreRounds(b, order, Sweep(b, order, st).0, budget - 1, more - 1);
    }
  }

  ghost predicate Enumerates(order: seq<string>, names: set<string>) {
    forall n :: n in order <==> n in names
  }

  /** The loop itself, visiting the names in `order`, given up after `budget` rounds. */
  method BuildScopeTable(bindings: Bindings, order: seq<string>, enclosing: NameTable, budget: nat)
    returns (r: Option<State>)
    requires forall n :: n in order ==> n in bindings
    ensures r == Rounds(bindings, order, State(enclosing, {}), budget)
  {
    var table, poisoned := enclosing, {};
    var changed, rounds := true, 0;
    while changed && rounds < budget
      invariant rounds <= budget
      invariant Rounds(bindings, order, State(enclosing, {}), budget) ==
        if changed then Rounds(bindings, order, State(table, poisoned), budget - rounds)
        else Some(State(table, poisoned))
    {
      changed := false;
      ghost var start := State(table, poisoned);
      for i := 0 to |order|
        invariant Sweep(bindings, order, start) ==
          (Sweep(bindings, order[i..], State(table, poisoned)).0,
           changed || Sweep(bindings, order[i..], State(table, poisoned)).1)
      {
        var name := order[i];
        assert order[i..][1..] == order[i + 1..];
        if name !in poisoned {
          var resolved, previous := Resolve(bindings[name], table), Get(table, name);
          if resolved.Some? && previous.None? {
            table, changed := table[name := resolved.value], true;
          } else if resolved.Some? && resolved != previous {
            table, poisoned, changed := table - {name}, poisoned + {name}, true;
          } else if resolved.None? && previous.Some? {
            table, changed := table - {name}, true;
          }
        }
      }
      rounds := rounds + 1;
    }
    r := if changed then None else Some(State(table, poisoned));
  }

  // ------------------------------------------------- what any exit guarantees

  /** Poisoned names are bound and untabled; unbound names keep their entry. */
  ghost predicate Kept(b: Bindings, enclosing: NameTable, st: State) {
    && st.poisoned <= b.Keys
    && st.poisoned !! st.table.Keys
    && forall n :: n !in b ==> Get(st.table, n) == Get(enclosing, n)
  }

  lemma {:induction false} SweepKeeps(b: Bindings, order: seq<string>, enclosing: NameTable, st: State)
    requires (forall n :: n in order ==> n in b) && Kept(b, enclosing, st)
    ensures Kept(b, enclosing, Sweep(b, order, st).0)
  {
    if order != [] {
      SweepKeeps(b, order[1..], enclosing, Visit(b, order[0], st).0);
    }
  }

  lemma {:induction false} QuietSweepChangesNothing(b: Bindings, order: seq<string>, st: State)
    requires (forall n :: n in order ==> n in b) && !Sweep(b, order, st).1
    ensures Sweep(b, order, st).0 == st
    ensures forall n :: n in order ==> !Visit(b, n, st).1
  {
    if order != [] {
      QuietSweepChangesNothing(b, order[1..], st);
    }
  }

  /** Every name's entry is what its bindings fold to, under the table itself. */
  ghost predicate Settled(b: Bindings, enclosing: NameTable, st: State) {
    && Kept(b, enclosing, st)
    && forall n :: n in b && n !in st.poisoned ==> Get(st.table, n) == Resolve(b[n], st.table)
  }

  lemma {:induction false} ExitIsSettled(b: Bindings, order: seq<string>, enclosing: NameTable, st: State, budget: nat)
    requires Enumerates(order, b.Keys) && Kept(b, enclosing, st)
    requires Rounds(b, order, st, budget).Some?
    ensures Settled(b, enclosing, Rounds(b, order, st, budget).value)
    decreases budget
  {
    SweepKeeps(b, order, enclosing, st);
    if Sweep(b, order, st).1 {
      ExitIsSettled(b, order, enclosing, Sweep(b, order, st).0, budget - 1);
    } else {
      QuietSweepChangesNothing(b, order, st);
    }
  }

  /** The same without `Resolve`: an unpoisoned name is tabled with a value exactly
      when it has bindings and all of them fold to that value under the table. */
  lemma SettledEntries(b: Bindings, enclosing: NameTable, st: State, n: string, v: bool)
    requires Settled(b, enclosing, st) && n in b && n !in st.poisoned
    ensures (n in st.table && st.table[n] == v) <==> AllFold(b[n], st.table, v)
  {
    ResolvesIff(b[n], st.table, v);
  }

  // ------------------------------------------------- names with constant bindings

  /** Whatever is known, the bindings all fold to `v`. */
  ghost predicate AlwaysFold(exprs: seq<Expr>, v: bool) {
    forall table: NameTable :: AllFold(exprs, table, v)
  }

  /** Whatever is known, the bindings do not agree on a value. */
  ghost predicate NeverAgree(exprs: seq<Expr>) {
    forall table: NameTable :: Resolve(exprs, table).None?
  }

  /** Poisoned and without an entry. */
  ghost predicate Out(st: State, n: string) {
    n in st.poisoned && n !in st.table
  }

  /** With the entry `v`, not poisoned. */
  ghost predicate In(st: State, n: string, v: bool) {
    n !in st.poisoned && n in st.table && st.table[n] == v
  }

  lemma {:induction false} OutStaysOut(b: Bindings, order: seq<string>, st: State, n: string)
    requires (forall m :: m in order ==> m in b) && Out(st, n)
    ensures Out(Sweep(b, order, st).0, n)
  {
    if order != [] {
      OutStaysOut(b, order[1..], Visit(b, order[0], st).0, n);
    }
  }

  lemma {:induction false} InStaysIn(b: Bindings, order: seq<string>, st: State, n: string, v: bool)
    requires (forall m :: m in order ==> m in b) && n in b && AlwaysFold(b[n], v) && In(st, n, v)
    ensures In(Sweep(b, order, st).0, n, v)
  {
    if order != [] {
      assert AllFold(b[n], st.table, v);
      ResolvesIff(b[n], st.table, v);
      InStaysIn(b, order[1..], Visit(b, order[0], st).0, n, v);
    }
  }

  /** The sweep that first reaches the name decides: an inherited entry that says
      otherwise is poisoned, and anything else ends in the entry `v`. */
  lemma {:induction false} FirstSweepDecides(b: Bindings, order: seq<string>, st: State, n: string, v: bool)
    requires (forall m :: m in order ==> m in b) && n in order && AlwaysFold(b[n], v) && n !in st.poisoned
    ensures if n in st.table && st.table[n] != v then Out(Sweep(b, order, st).0, n) else In(Sweep(b, order, st).0, n, v)
  {
    var next := Visit(b, order[0], st).0;
    if order[0] == n {
      assert AllFold(b[n], st.table, v);
      ResolvesIff(b[n], st.table, v);
      if n in st.table && st.table[n] != v {
        OutStaysOut(b, order[1..], next, n);
      } else {
        InStaysIn(b, order[1..], next, n, v);
      }
    } else {
      FirstSweepDecides(b, order[1..], next, n, v);
    }
  }

  lemma {:induction false} RoundsStayDecided(b: Bindings, order: seq<string>, st: State, budget: nat, n: string, v: bool)
    requires (forall m :: m in order ==> m in b) && n in b && AlwaysFold(b[n], v)
    requires Rounds(b, order, st, budget).Some?
    ensures Out(st, n) ==> Out(Rounds(b, order, st, budget).value, n)
    ensures In(st, n, v) ==> In(Rounds(b, order, st, budget).value, n, v)
    decreases budget
  {
    hide AlwaysFold;
    if Out(st, n) {
      OutStaysOut(b, order, st, n);
    }
    if In(st, n, v) {
      InStaysIn(b, order, st, n, v);
    }
    hide Out, In;
    if Sweep(b, order, st).1 {
      RoundsStayDecided(b, order, Sweep(b, order, st).0, budget - 1, n, v);
    }
  }

  /** A name whose bindings are constant ends with that constant as its entry,
      unless the scope inherits the opposite: then it is poisoned and has none. */
  lemma ConstantName(b: Bindings, order: seq<string>, enclosing: NameTable, budget: nat, n: string, v: bool)
    requires Enumerates(order, b.Keys) && n in b && AlwaysFold(b[n], v)
    requires Rounds(b, order, State(enclosing, {}), budget).Some?
    ensures var st := Rounds(b, order, State(enclosing, {}), budget).value;
      if n in enclosing && enclosing[n] != v then n in st.poisoned && n !in st.table
      else n !in st.poisoned && n in st.table && st.table[n] == v
  {
    hide AlwaysFold, Sweep;
    var start := State(enclosing, {});
    FirstSweepDecides(b, order, start, n, v);
    if Sweep(b, order, start).1 {
      RoundsStayDecided(b, order, Sweep(b, order, start).0, budget - 1, n, v);
    }
  }

  lemma {:induction false} SweepNeverPoisons(b: Bindings, order: seq<string>, st: State, n: string)
    requires (forall m :: m in order ==> m in b) && n in b && NeverAgree(b[n]) && n !in st.poisoned
    ensures n !in Sweep(b, order, st).0.poisoned
  {
    if order != [] {
      assert Resolve(b[n], st.table).None?;
      SweepNeverPoisons(b, order[1..], Visit(b, order[0], st).0, n);
    }
  }

  lemma {:induction false} RoundsNeverPoison(b: Bindings, order: seq<string>, st: State, budget: nat, n: string)
    requires (forall m :: m in order ==> m in b) && n in b && NeverAgree(b[n]) && n !in st.poisoned
    requires Rounds(b, order, st, budget).Some?
    ensures n !in Rounds(b, order, st, budget).value.poisoned
    decreases budget
  {
    hide NeverAgree;
    SweepNeverPoisons(b, order, st, n);
    if Sweep(b, order, st).1 {
      RoundsNeverPoison(b, order, Sweep(b, order, st).0, budget - 1, n);
    }
  }

  /** A name whose bindings never agree loses the entry it inherits, without being
      poisoned. */
  lemma DisputedName(b: Bindings, order: seq<string>, enclosing: NameTable, budget: nat, n: string)
    requires Enumerates(order, b.Keys) && n in b && NeverAgree(b[n])
    requires Rounds(b, order, State(enclosing, {}), budget).Some?
    ensures var st := Rounds(b, order, State(enclosing, {}), budget).value;
      n !in st.table && n !in st.poisoned
  {
    RoundsNeverPoison(b, order, State(enclosing, {}), budget, n);
    ExitIsSettled(b, order, enclosing, State(enclosing, {}), budget);
    assert Resolve(b[n], Rounds(b, order, State(enclosing, {}), budget).value.table).None?;
  }

  // ------------------------------------------------------ known information

  /** `a` knows no more than `b`, and nothing different. */
  ghost predicate Below(a: NameTable, b: NameTable) {
    forall n :: n in a ==> n in b && a[n] == b[n]
  }

  /** Knowing more names never changes or loses a folded value. */
  lemma {:induction false} FoldingIsMonotone(e: Expr, a: NameTable, b: NameTable)
    requires Below(a, b) && EvaluateTruthiness(e, a).Some?
    ensures EvaluateTruthiness(e, b) == EvaluateTruthiness(e, a)
    decreases e
  {
    match e
    case Named(_, value) => FoldingIsMonotone(value, a, b);
    case Not(operand) => FoldingIsMonotone(operand, a, b);
    case BoolOp(op, values) => BoolFoldingIsMonotone(op, values, a, b);
    case _ =>
  }

  lemma {:induction false} BoolFoldingIsMonotone(op: BoolOperator, values: seq<Expr>, a: NameTable, b: NameTable)
    requires Below(a, b) && FoldBool(op, values, a).Some?
    ensures FoldBool(op, values, b) == FoldBool(op, values, a)
    decreases values
  {
    if values != [] {
      if EvaluateTruthiness(values[0], a).Some? {
        FoldingIsMonotone(values[0], a, b);
      }
      if FoldBool(op, values[1..], a).Some? {
        BoolFoldingIsMonotone(op, values[1..], a, b);
      }
    }
  }

  lemma ResolvingIsMonotone(exprs: seq<Expr>, a: NameTable, b: NameTable)
    requires Below(a, b) && Resolve(exprs, a).Some?
    ensures Resolve(exprs, b) == Resolve(exprs, a)
  {
    forall k | 0 <= k < |exprs|
      ensures EvaluateTruthiness(exprs[k], b) == Resolve(exprs, a)
    {
      FoldingIsMonotone(exprs[k], a, b);
    }
  }

  // ------------------------------- scopes that rebind nothing they inherit

  /** Every bound entry is already what its bindings fold to. */
  ghost predicate Grown(b: Bindings, st: State) {
    && st.poisoned == {}
    && forall n :: n in b && n in st.table ==> Resolve(b[n], st.table) == Some(st.table[n])
  }

  /** `x` has every entry the bindings call for, on top of `enclosing`. */
  ghost predicate ClosedTable(b: Bindings, enclosing: NameTable, x: NameTable) {
    && Below(enclosing, x)
    && forall n :: n in b && Resolve(b[n], x).Some? ==> Get(x, n) == Resolve(b[n], x)
  }

  lemma VisitGrows(b: Bindings, name: string, st: State)
    requires name in b && Grown(b, st)
    ensures var v := Visit(b, name, st);
      && Grown(b, v.0) && Below(st.table, v.0.table)
      && v.0.table.Keys == st.table.Keys + (if v.1 then {name} else {})
      && (v.1 ==> name !in st.table)
  {
    var v := Visit(b, name, st);
    assert Below(st.table, v.0.table);
    forall n | n in b && n in v.0.table
      ensures Resolve(b[n], v.0.table) == Some(v.0.table[n])
    {
      ResolvingIsMonotone(b[n], st.table, v.0.table);
    }
  }

  lemma {:induction false} SweepGrows(b: Bindings, order: seq<string>, st: State)
    requires (forall n :: n in order ==> n in b) && Grown(b, st)
    ensures var r := Sweep(b, order, st);
      && Grown(b, r.0) && Below(st.table, r.0.table)
      && st.table.Keys <= r.0.table.Keys <= st.table.Keys + b.Keys
      && (r.1 ==> st.table.Keys != r.0.table.Keys)
  {
    if order != [] {
      VisitGrows(b, order[0], st);
      SweepGrows(b, order[1..], Visit(b, order[0], st).0);
    }
  }

  lemma {:induction false} SweepStaysBelow(b: Bindings, order: seq<string>, st: State, enclosing: NameTable, x: NameTable)
    requires (forall n :: n in order ==> n in b) && Grown(b, st)
    requires ClosedTable(b, enclosing, x) && Below(st.table, x)
    ensures Below(Sweep(b, order, st).0.table, x)
  {
    if order != [] {
      VisitGrows(b, order[0], st);
      if Resolve(b[order[0]], st.table).Some? {
        ResolvingIsMonotone(b[order[0]], st.table, x);
      }
      SweepStaysBelow(b, order[1..], Visit(b, order[0], st).0, enclosing, x);
    }
  }

  /** How many bound names have no entry yet. */
  ghost function Missing(b: Bindings, st: State): nat {
    |b.Keys - st.table.Keys|
  }

  lemma {:induction false} GrowingEnds(b: Bindings, order: seq<string>, st: State, budget: nat)
    requires (forall n :: n in order ==> n in b) && Grown(b, st)
    requires budget > Missing(b, st)
    ensures Rounds(b, order, st, budget).Some?
    ensures Grown(b, Rounds(b, order, st, budget).value)
    decreases budget
  {
    hide Grown, Sweep, Below, Missing;
    SweepGrows(b, order, st);
    if Sweep(b, order, st).1 {
      SweepLeavesFewer(b, order, st);
      GrowingEnds(b, order, Sweep(b, order, st).0, budget - 1);
    }
  }

  lemma SweepLeavesFewer(b: Bindings, order: seq<string>, st: State)
    requires (forall n :: n in order ==> n in b) && Grown(b, st) && Sweep(b, order, st).1
    ensures Missing(b, Sweep(b, order, st).0) < Missing(b, st)
  {
    SweepGrows(b, order, st);
    ProperSubsetIsSmaller(b.Keys - Sweep(b, order, st).0.table.Keys, b.Keys - st.table.Keys);
  }

  lemma {:induction false} RoundsStayBelow(b: Bindings, order: seq<string>, st: State, budget: nat,
                                           enclosing: NameTable, x: NameTable)
    requires (forall n :: n in order ==> n in b) && Grown(b, st)
    requires ClosedTable(b, enclosing, x) && Below(st.table, x)
    requires Rounds(b, order, st, budget).Some?
    ensures Below(Rounds(b, order, st, budget).value.table, x)
    decreases budget
  {
    hide Grown, Sweep, Below, ClosedTable;
    SweepStaysBelow(b, order, st, enclosing, x);
    SweepGrows(b, order, st);
    if Sweep(b, order, st).1 {
      RoundsStayBelow(b, order, Sweep(b, order, st).0, budget - 1, enclosing, x);
    }
  }

  /** Every visit of the sweep leaves the entries there are and poisons nothing:
      neither the removing arm nor the poisoning arm fires. */
  ghost predicate SweepOnlyAdds(b: Bindings, order: seq<string>, st: State)
    requires forall n :: n in order ==> n in b
  {
    order == [] ||
    (var v := Visit(b, order[0], st);
     Below(st.table, v.0.table) && v.0.poisoned == st.poisoned && SweepOnlyAdds(b, order[1..], v.0))
  }

  ghost predicate RoundsOnlyAdd(b: Bindings, order: seq<string>, st: State, budget: nat)
    requires forall n :: n in order ==> n in b
    decreases budget
  {
    budget == 0 ||
    (SweepOnlyAdds(b, order, st)
     && (Sweep(b, order, st).1 ==> RoundsOnlyAdd(b, order, Sweep(b, order, st).0, budget - 1)))
  }

  lemma {:induction false} GrowingSweepOnlyAdds(b: Bindings, order: seq<string>, st: State)
    requires (forall n :: n in order ==> n in b) && Grown(b, st)
    ensures SweepOnlyAdds(b, order, st)
  {
    if order != [] {
      VisitGrows(b, order[0], st);
      GrowingSweepOnlyAdds(b, order[1..], Visit(b, order[0], st).0);
    }
  }

  lemma {:induction false} GrowingRoundsOnlyAdd(b: Bindings, order: seq<string>, st: State, budget: nat)
    requires (forall n :: n in order ==> n in b) && Grown(b, st)
    ensures RoundsOnlyAdd(b, order, st, budget)
    decreases budget
  {
    if budget > 0 {
      hide Grown, Sweep, Below, SweepOnlyAdds;
      GrowingSweepOnlyAdds(b, order, st);
      SweepGrows(b, order, st);
      if Sweep(b, order, st).1 {
        GrowingRoundsOnlyAdd(b, order, Sweep(b, order, st).0, budget - 1);
      }
    }
  }

  /** A scope that rebinds nothing it inherits: given at least one round more
      than it has names the loop ends, only ever adds entries, and leaves the
      least table that has every entry the bindings call for. */
  lemma FreshScopeGetsLeastTable(b: Bindings, order: seq<string>, enclosing: NameTable, budget: nat)
    requires Enumerates(order, b.Keys) && b.Keys !! enclosing.Keys && budget > |b.Keys|
    ensures var r := Rounds(b, order, State(enclosing, {}), budget);
      && r.Some? && r.value.poisoned == {}
      && r == Rounds(b, order, State(enclosing, {}), |b.Keys| + 1)
      && Settled(b, enclosing, r.value)
      && ClosedTable(b, enclosing, r.value.table)
      && forall x :: ClosedTable(b, enclosing, x) ==> Below(r.value.table, x)
    ensures RoundsOnlyAdd(b, order, State(enclosing, {}), budget)
  {
    var start := State(enclosing, {});
    assert b.Keys - enclosing.Keys == b.Keys;
    GrowingEnds(b, order, start, |b.Keys| + 1);
    MoreRounds(b, order, start, |b.Keys| + 1, budget);
    GrowingRoundsOnlyAdd(b, order, start, budget);
    ExitIsSettled(b, order, enclosing, start, budget);
    var r := Rounds(b, order, start, budget).value;
    forall n | n in enclosing
      ensures n in r.table && r.table[n] == enclosing[n]
    {
      assert Get(r.table, n) == Get(enclosing, n);
    }
    forall x | ClosedTable(b, enclosing, x)
      ensures Below(r.table, x)
    {
      RoundsStayBelow(b, order, start, budget, enclosing, x);
    }
  }

  /** So neither the order in which the map yields the names nor how many rounds
      are allowed, once enough, matters. */
  lemma FreshScopeOrderIsIrrelevant(b: Bindings, order: seq<string>, order': seq<string>, enclosing: NameTable,
                                    budget: nat, budget': nat)
    requires Enumerates(order, b.Keys) && Enumerates(order', b.Keys) && b.Keys !! enclosing.Keys
    requires budget > |b.Keys| && budget' > |b.Keys|
    ensures Rounds(b, order, State(enclosing, {}), budget) == Rounds(b, order', State(enclosing, {}), budget')
  {
    FreshScopeGetsLeastTable(b, order, enclosing, budget);
    FreshScopeGetsLeastTable(b, order', enclosing, budget');
    var t := Rounds(b, order, State(enclosing, {}), budget).value.table;
    var t' := Rounds(b, order', State(enclosing, {}), budget').value.table;
    assert Below(t, t') && Below(t', t);
    assert t == t';
  }
}
