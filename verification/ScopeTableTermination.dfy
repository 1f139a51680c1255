/** When the table loop ends, and a scope on which it never does. */
module ScopeTableTermination {
  import opened Wrappers
  import opened PythonAst
  import opened Folding
  import opened ScopeTable
  import opened Ranking

  /** The names an expression's truth can be folded from. */
  function Mentions(e: Expr): set<string>
    decreases e
  {
    match e
    case Name(id) => {id}
    case Named(_, value) => Mentions(value)
    case Not(operand) => Mentions(operand)
    case BoolOp(_, values) => MentionsAny(values)
    case _ => {}
  }

  function MentionsAny(es: seq<Expr>): set<string>
    decreases es
  {
    if es == [] then {} else Mentions(es[0]) + MentionsAny(es[1..])
  }

  ghost predicate AgreeOn(names: set<string>, a: NameTable, b: NameTable) {
    forall n :: n in names ==> Get(a, n) == Get(b, n)
  }

  lemma {:induction false} FoldingReadsMentions(e: Expr, a: NameTable, b: NameTable)
    requires AgreeOn(Mentions(e), a, b)
    ensures EvaluateTruthiness(e, a) == EvaluateTruthiness(e, b)
    decreases e
  {
    match e
    case Name(id) => assert Get(a, id) == Get(b, id);
    case Named(_, value) => FoldingReadsMentions(value, a, b);
    case Not(operand) => FoldingReadsMentions(operand, a, b);
    case BoolOp(op, values) => BoolFoldingReadsMentions(op, values, a, b);
    case _ =>
  }

  lemma {:induction false} BoolFoldingReadsMentions(op: BoolOperator, values: seq<Expr>, a: NameTable, b: NameTable)
    requires AgreeOn(MentionsAny(values), a, b)
    ensures FoldBool(op, values, a) == FoldBool(op, values, b)
    decreases values
  {
    if values != [] {
      FoldingReadsMentions(values[0], a, b);
      BoolFoldingReadsMentions(op, values[1..], a, b);
    }
  }

  // --------------------------------------------------- acyclic binding graphs

  /** `rank` orders the bound names so that bindings mention only lower ones. */
  ghost predicate Ranked(b: Bindings, rank: map<string, nat>) {
    && b.Keys <= rank.Keys
    && forall n, k, m :: n in b && 0 <= k < |b[n]| && m in Mentions(b[n][k]) && m in b ==> rank[m] < rank[n]
  }

  /** Visiting `n` would change nothing. */
  ghost predicate Quiet(b: Bindings, st: State, n: string)
    requires n in b
  {
    Visit(b, n, st) == (st, false)
  }

  /** Every name of rank below `k` is quiet. */
  ghost predicate QuietBelow(b: Bindings, rank: map<string, nat>, st: State, k: nat)
    requires b.Keys <= rank.Keys
  {
    forall n :: n in b && rank[n] < k ==> Quiet(b, st, n)
  }

  /** The two states treat `n` alike. */
  ghost predicate SameAt(a: State, b: State, n: string) {
    Get(a.table, n) == Get(b.table, n) && (n in a.poisoned <==> n in b.poisoned)
  }

  /** Everything of rank below `k`, and everything unbound, is as it was. */
  ghost predicate SameBelow(b: Bindings, rank: map<string, nat>, st: State, st': State, k: nat)
    requires b.Keys <= rank.Keys
  {
    forall n :: (n in b ==> rank[n] < k) ==> SameAt(st, st', n)
  }

  lemma VisitTouchesOnlyItself(b: Bindings, name: string, st: State, n: string)
    requires name in b && n != name
    ensures SameAt(st, Visit(b, name, st).0, n)
  {
  }

  lemma ResolvingReadsLowerRanks(b: Bindings, rank: map<string, nat>, st: State, st': State, n: string)
    requires Ranked(b, rank) && n in b && SameBelow(b, rank, st, st', rank[n])
    ensures Resolve(b[n], st.table) == Resolve(b[n], st'.table)
  {
    forall k | 0 <= k < |b[n]|
      ensures EvaluateTruthiness(b[n][k], st.table) == EvaluateTruthiness(b[n][k], st'.table)
    {
      forall m | m in Mentions(b[n][k])
        ensures Get(st.table, m) == Get(st'.table, m)
      {
        assert SameAt(st, st', m);
      }
      FoldingReadsMentions(b[n][k], st.table, st'.table);
    }
  }

  /** Quietness of `n` depends on `n` and on lower ranks only. */
  lemma QuietIsLocal(b: Bindings, rank: map<string, nat>, st: State, st': State, n: string)
    requires Ranked(b, rank) && n in b && Quiet(b, st, n)
    requires SameBelow(b, rank, st, st', rank[n]) && SameAt(st, st', n)
    ensures Quiet(b, st', n)
  {
    ResolvingReadsLowerRanks(b, rank, st, st', n);
  }

  /** Once what it depends on is settled, one visit settles a name for good. */
  lemma VisitQuiets(b: Bindings, rank: map<string, nat>, st: State, n: string)
    requires Ranked(b, rank) && n in b
    ensures Quiet(b, Visit(b, n, st).0, n)
  {
    var st' := Visit(b, n, st).0;
    forall m | m in b ==> rank[m] < rank[n]
      ensures SameAt(st, st', m)
    {
      VisitTouchesOnlyItself(b, n, st, m);
    }
    ResolvingReadsLowerRanks(b, rank, st, st', n);
  }

  /** During one round: names below `k` stay put, and those of rank `k` are
      quiet from their visit on. */
  ghost predicate Settling(b: Bindings, rank: map<string, nat>, st0: State, st: State, k: nat, done: set<string>)
    requires b.Keys <= rank.Keys
  {
    && QuietBelow(b, rank, st, k)
    && SameBelow(b, rank, st0, st, k)
    && forall n :: n in done && n in b && rank[n] == k ==> Quiet(b, st, n)
  }

  lemma VisitSettles(b: Bindings, rank: map<string, nat>, st0: State, st: State, k: nat, done: set<string>, name: string)
    requires Ranked(b, rank) && name in b && Settling(b, rank, st0, st, k, done)
    ensures Settling(b, rank, st0, Visit(b, name, st).0, k, done + {name})
  {
    var st' := Visit(b, name, st).0;
    if rank[name] < k {
      assert Quiet(b, st, name);
    } else {
      forall n | n in b ==> rank[n] < k
        ensures SameAt(st0, st', n) && SameAt(st, st', n)
      {
        VisitTouchesOnlyItself(b, name, st, n);
        assert SameAt(st0, st, n);
      }
      forall n | n in b && rank[n] < k
        ensures Quiet(b, st', n)
      {
        assert Quiet(b, st, n);
        QuietIsLocal(b, rank, st, st', n);
      }
      forall n | n in done + {name} && n in b && rank[n] == k
        ensures Quiet(b, st', n)
      {
        if n == name {
          VisitQuiets(b, rank, st, n);
        } else {
          VisitTouchesOnlyItself(b, name, st, n);
          QuietIsLocal(b, rank, st, st', n);
        }
      }
    }
  }

  lemma {:induction false} SweepSettles(b: Bindings, rank: map<string, nat>, order: seq<string>, st0: State, st: State,
                                        k: nat, done: set<string>)
    requires Ranked(b, rank) && (forall n :: n in order ==> n in b) && Settling(b, rank, st0, st, k, done)
    ensures Settling(b, rank, st0, Sweep(b, order, st).0, k, done + set n | n in order)
    decreases order
  {
    if order == [] {
      assert done + (set n | n in order) == done;
    } else {
      VisitSettles(b, rank, st0, st, k, done, order[0]);
      SweepSettles(b, rank, order[1..], st0, Visit(b, order[0], st).0, k, done + {order[0]});
      assert done + {order[0]} + (set n | n in order[1..]) == done + set n | n in order;
    }
  }

  /** A round settles one more rank and leaves the settled ones as they are. */
  lemma RoundSettlesNextRank(b: Bindings, rank: map<string, nat>, order: seq<string>, st: State, k: nat)
    requires Ranked(b, rank) && Enumerates(order, b.Keys) && QuietBelow(b, rank, st, k)
    ensures QuietBelow(b, rank, Sweep(b, order, st).0, k + 1)
    ensures SameBelow(b, rank, st, Sweep(b, order, st).0, k)
  {
    SweepSettles(b, rank, order, st, st, k, {});
  }

  lemma {:induction false} QuietStateIsLeftAlone(b: Bindings, order: seq<string>, st: State)
    requires (forall n :: n in order ==> n in b && Quiet(b, st, n))
    ensures Sweep(b, order, st) == (st, false)
  {
    if order != [] {
      assert Quiet(b, st, order[0]);
      QuietStateIsLeftAlone(b, order[1..], st);
    }
  }

  /** The state after `j` rounds. */
  function After(b: Bindings, order: seq<string>, st: State, j: nat): State
    requires forall n :: n in order ==> n in b
  {
    if j == 0 then st else Sweep(b, order, After(b, order, st, j - 1)).0
  }

  /** Names of rank `k` never change again after round `k + 1`. */
  lemma {:induction false} RankSettlesByItsRound(b: Bindings, rank: map<string, nat>, order: seq<string>, st: State,
                                                 k: nat, j: nat, n: string)
    requires Ranked(b, rank) && Enumerates(order, b.Keys) && n in b && rank[n] == k && j > k
    ensures QuietBelow(b, rank, After(b, order, st, j), j)
    ensures SameAt(After(b, order, st, k + 1), After(b, order, st, j), n)
    decreases j
  {
    QuietAfter(b, rank, order, st, j);
    if j > k + 1 {
      RankSettlesByItsRound(b, rank, order, st, k, j - 1, n);
      RoundSettlesNextRank(b, rank, order, After(b, order, st, j - 1), j - 1);
      assert SameAt(After(b, order, st, j - 1), After(b, order, st, j), n);
    }
  }

  lemma {:induction false} QuietAfter(b: Bindings, rank: map<string, nat>, order: seq<string>, st: State, j: nat)
    requires Ranked(b, rank) && Enumerates(order, b.Keys)
    ensures QuietBelow(b, rank, After(b, order, st, j), j)
    decreases j
  {
    if j > 0 {
      QuietAfter(b, rank, order, st, j - 1);
      RoundSettlesNextRank(b, rank, order, After(b, order, st, j - 1), j - 1);
    }
  }

  lemma {:induction false} RankedRoundsEnd(b: Bindings, rank: map<string, nat>, order: seq<string>, st: State,
                                           k: nat, top: nat, budget: nat)
    requires Ranked(b, rank) && Enumerates(order, b.Keys) && QuietBelow(b, rank, st, k)
    requires (forall n :: n in b ==> rank[n] <= top) && k <= top + 1 && budget > top + 1 - k
    ensures Rounds(b, order, st, budget).Some?
    decreases budget
  {
    if k == top + 1 {
      QuietStateIsLeftAlone(b, order, st);
    } else {
      RoundSettlesNextRank(b, rank, order, st, k);
      if Sweep(b, order, st).1 {
        RankedRoundsEnd(b, rank, order, Sweep(b, order, st).0, k + 1, top, budget - 1);
      }
    }
  }

  lemma RankedScopeEnds(b: Bindings, rank: map<string, nat>, order: seq<string>, enclosing: NameTable, top: nat, budget: nat)
    requires Ranked(b, rank) && Enumerates(order, b.Keys) && (forall n :: n in b ==> rank[n] <= top) && budget >= top + 2
    ensures var r := Rounds(b, order, State(enclosing, {}), budget);
      r.Some? && Settled(b, enclosing, r.value)
  {
    RankedRoundsEnd(b, rank, order, State(enclosing, {}), 0, top, budget);
    ExitIsSettled(b, order, enclosing, State(enclosing, {}), budget);
  }

  // ------------------------------------------------------- chains of dependencies

  /** Some binding of `n` mentions `m`, which is bound in the scope too. */
  ghost predicate DependsOn(b: Bindings, n: string, m: string) {
    n in b && m in b && exists k :: 0 <= k < |b[n]| && m in Mentions(b[n][k])
  }

  ghost function Dependencies(b: Bindings): set<(string, string)> {
    set n, m | n in b && m in b && DependsOn(b, n, m) :: (n, m)
  }

  lemma RankedByDependency(b: Bindings, rank: map<string, nat>)
    requires b.Keys <= rank.Keys && Descends(Dependencies(b), rank)
    ensures Ranked(b, rank)
  {
    forall n, k, m | n in b && 0 <= k < |b[n]| && m in Mentions(b[n][k]) && m in b
      ensures rank[m] < rank[n]
    {
      assert DependsOn(b, n, m);
      assert (n, m) in Dependencies(b);
    }
  }

  /** When no chain of dependencies has more than `top` steps the loop ends,
      whatever the scope inherits: within two rounds more than that. */
  lemma AcyclicScopeEnds(b: Bindings, order: seq<string>, enclosing: NameTable, top: nat, budget: nat)
    requires Enumerates(order, b.Keys) && ChainsWithin(Dependencies(b), top) && budget >= top + 2
    ensures var r := Rounds(b, order, State(enclosing, {}), budget);
      r.Some? && Settled(b, enclosing, r.value)
  {
    var rank := ChainsGiveRanks(b.Keys, Dependencies(b), top);
    forall n | n in b
      ensures n in rank
    {
      assert ChainsFromWithin(Dependencies(b), n, top);
    }
    RankedByDependency(b, rank);
    RankedScopeEnds(b, rank, order, enclosing, top, budget);
  }

  /** So without cycles one round more than there are names always does. */
  lemma ScopeWithoutCyclesEnds(b: Bindings, order: seq<string>, enclosing: NameTable, budget: nat)
    requires Enumerates(order, b.Keys) && Acyclic(Dependencies(b)) && budget > |b.Keys|
    ensures var r := Rounds(b, order, State(enclosing, {}), budget);
      r.Some? && Settled(b, enclosing, r.value)
  {
    if b.Keys == {} {
      FreshScopeGetsLeastTable(b, order, enclosing, budget);
    } else {
      assert |b.Keys| > 0;
      AcyclicChainsAreShort(b.Keys, Dependencies(b));
      AcyclicScopeEnds(b, order, enclosing, |b.Keys| - 1, budget);
    }
  }

  // -------------------------------------------------------------- an endless scope

  /** `A = B; B = C; C = A` where `B` is inherited as true. */
  function Ring(): Bindings {
    map["A" := [Name("B")], "B" := [Name("C")], "C" := [Name("A")]]
  }

  lemma RingFirstRound()
    ensures Sweep(Ring(), ["A", "B", "C"], State(map["B" := true], {})) == (State(map["A" := true, "C" := true], {}), true)
  {
    var b, s0 := Ring(), State(map["B" := true], {});
    var s1, s2, s3 := State(map["B" := true, "A" := true], {}), State(map["A" := true], {}),
                      State(map["A" := true, "C" := true], {});
    assert Visit(b, "A", s0) == (s1, true);
    assert s1.table - {"B"} == s2.table;
    assert Visit(b, "B", s1) == (s2, true);
    assert Visit(b, "C", s2) == (s3, true);
    assert ["A", "B", "C"][1..] == ["B", "C"] && ["B", "C"][1..] == ["C"] && ["C"][1..] == [];
    assert Sweep(b, ["C"], s2) == (s3, true);
    assert Sweep(b, ["B", "C"], s1) == (s3, true);
  }

  lemma RingSecondRound()
    ensures Sweep(Ring(), ["A", "B", "C"], State(map["A" := true, "C" := true], {})) == (State(map["B" := true], {}), true)
  {
    var b, s0 := Ring(), State(map["A" := true, "C" := true], {});
    var s1, s2, s3 := State(map["C" := true], {}), State(map["C" := true, "B" := true], {}), State(map["B" := true], {});
    assert s0.table - {"A"} == s1.table;
    assert Visit(b, "A", s0) == (s1, true);
    assert Visit(b, "B", s1) == (s2, true);
    assert s2.table - {"C"} == s3.table;
    assert Visit(b, "C", s2) == (s3, true);
    assert ["A", "B", "C"][1..] == ["B", "C"] && ["B", "C"][1..] == ["C"] && ["C"][1..] == [];
    assert Sweep(b, ["C"], s2) == (s3, true);
    assert Sweep(b, ["B", "C"], s1) == (s3, true);
  }

  /** The poison set does not make the loop converge: on the ring no number of
      rounds is enough, because an entry can be removed without being poisoned. */
  lemma {:induction false} RingNeverEnds(budget: nat)
    ensures Rounds(Ring(), ["A", "B", "C"], State(map["B" := true], {}), budget) == None
    ensures Rounds(Ring(), ["A", "B", "C"], State(map["A" := true, "C" := true], {}), budget) == None
    decreases budget
  {
    if budget > 0 {
      RingFirstRound();
      RingSecondRound();
      RingNeverEnds(budget - 1);
    }
  }
}
