/** Which modules a name can denote, found by following names to definitions and
    calls to returned values. The walk cuts cycles and remembers its answers. */
module ModuleValues {
  import opened Wrappers
  import opened Graph
  import Ranking

  datatype Step = Attr(name: string) | Call

  /** An access chain on a root. `DynamicImport` is a call of an importing
      function, with the module it names when its argument is a literal. */
  datatype Expr =
    | Name(id: string)
    | Attribute(value: Expr, attr: string)
    | Invoke(func: Expr)
    | DynamicImport(target: Option<string>)
    | OtherExpr

  datatype DefKind =
    | ImportBinding(payload: ImportRecord)
    | Assignment(value: Option<Expr>)
    | FunctionDef(body: Option<int>, results: seq<Expr>)
    | OtherDef

  datatype ModuleValue = ModuleValue(spec: ImportRecord, boundName: string, steps: seq<Step>)

  /** One file's definitions, as the semantic index gives them: what each is,
      the name and scope it is bound in, and which ones a name read in a scope
      may refer to. */
  datatype File = File(kinds: map<int, DefKind>, names: map<int, string>, scopes: map<int, int>, visible: (int, string) -> seq<int>)
  {
    ghost predicate Valid() {
      && names.Keys == kinds.Keys && scopes.Keys == kinds.Keys
      && forall s, n, d :: d in visible(s, n) ==> d in kinds && names[d] == n
    }
  }

  const MEMBER_RESOLVE_DEPTH_CAP := 16

  // ---------------------------------------------------------- access chains

  predicate IsAccess(e: Expr) {
    e.Attribute? || e.Invoke?
  }

  function Root(e: Expr): Expr {
    match e
    case Attribute(value, _) => Root(value)
    case Invoke(func) => Root(func)
    case _ => e
  }

  /** The steps applied to the root, innermost first. */
  function Steps(e: Expr): seq<Step> {
    match e
    case Attribute(value, attr) => Steps(value) + [Attr(attr)]
    case Invoke(func) => Steps(func) + [Call]
    case _ => []
  }

  function Applied(root: Expr, steps: seq<Step>): Expr {
    if steps == [] then root else
      var inner := Applied(root, steps[..|steps| - 1]);
      match steps[|steps| - 1]
      case Attr(name) => Attribute(inner, name)
      case Call => Invoke(inner)
  }

  /** Peeling loses nothing: putting the steps back gives the expression. */
  lemma {:induction false} PeelingLosesNothing(e: Expr)
    ensures Applied(Root(e), Steps(e)) == e && !IsAccess(Root(e))
  {
    match e
    case Attribute(value, attr) =>
      PeelingLosesNothing(value);
      assert Steps(e)[..|Steps(e)| - 1] == Steps(value);
    case Invoke(func) =>
      PeelingLosesNothing(func);
      assert Steps(e)[..|Steps(e)| - 1] == Steps(func);
    case _ =>
  }

  function Reversed(s: seq<Step>): (r: seq<Step>)
    ensures |r| == |s| && forall i :: 0 <= i < |s| ==> r[i] == s[|s| - 1 - i]
  {
    if s == [] then [] else Reversed(s[1..]) + [s[0]]
  }

  lemma ReversedSnoc(s: seq<Step>, x: Step)
    ensures Reversed(s + [x]) == [x] + Reversed(s)
  {
  }

  method PeelValueChain(e: Expr) returns (root: Expr, steps: seq<Step>)
    ensures root == Root(e) && steps == Steps(e)
  {
    steps := [];
    root := e;
    while IsAccess(root)
      invariant Root(root) == Root(e) && Steps(e) == Steps(root) + Reversed(steps)
      decreases root
    {
      var step := if root.Attribute? then Attr(root.attr) else Call;
      ReversedSnoc(steps, step);
      steps := steps + [step];
      root := if root.Attribute? then root.value else root.func;
    }
    steps := Reversed(steps);
  }

  // -------------------------------------------------------------- derivations

  /** `v` is what `e`, read in `scope` and followed by `trailing`, denotes by a
      derivation of at most `n` hops through assignments and calls. */
  ghost predicate ExprDerives(f: File, scope: int, e: Expr, trailing: seq<Step>, v: ModuleValue, n: nat)
    requires f.Valid()
    decreases n, 1
  {
    match Root(e)
    case Name(id) => exists d :: d in f.visible(scope, id) && DefDerives(f, d, Steps(e) + trailing, v, n)
    case DynamicImport(target) => target.Some? && v == ModuleValue(ImportRecord(target.value, None, false), "", Steps(e) + trailing)
    case _ => false
  }

  ghost predicate DefDerives(f: File, d: int, steps: seq<Step>, v: ModuleValue, n: nat)
    requires f.Valid() && d in f.kinds
    decreases n, 0
  {
    match f.kinds[d]
    case ImportBinding(payload) => payload.mod != "" && v == ModuleValue(payload, f.names[d], steps)
    case Assignment(value) => n > 0 && value.Some? && ExprDerives(f, f.scopes[d], value.value, steps, v, n - 1)
    case FunctionDef(body, results) =>
      && n > 0 && body.Some? && steps != [] && steps[0] == Call
      && exists k :: 0 <= k < |results| && ExprDerives(f, body.value, results[k], steps[1..], v, n - 1)
    case OtherDef => false
  }

  ghost predicate ExprDenotes(f: File, scope: int, e: Expr, trailing: seq<Step>, v: ModuleValue)
    requires f.Valid()
  {
    exists n: nat :: ExprDerives(f, scope, e, trailing, v, n)
  }

  ghost predicate DefDenotes(f: File, d: int, steps: seq<Step>, v: ModuleValue)
    requires f.Valid() && d in f.kinds
  {
    exists n: nat :: DefDerives(f, d, steps, v, n)
  }

  /** What one of a function's returned values denotes. */
  ghost predicate ReturnDenotes(f: File, body: int, results: seq<Expr>, trailing: seq<Step>, v: ModuleValue)
    requires f.Valid()
  {
    exists k :: 0 <= k < |results| && ExprDenotes(f, body, results[k], trailing, v)
  }

  /** The first hop of a derivation, the rest left to what is denoted next. */
  ghost predicate ExprLeads(f: File, scope: int, e: Expr, trailing: seq<Step>, v: ModuleValue)
    requires f.Valid()
  {
    match Root(e)
    case Name(id) => exists d :: d in f.visible(scope, id) && DefDenotes(f, d, Steps(e) + trailing, v)
    case DynamicImport(target) => target.Some? && v == ModuleValue(ImportRecord(target.value, None, false), "", Steps(e) + trailing)
    case _ => false
  }

  ghost predicate DefLeads(f: File, d: int, steps: seq<Step>, v: ModuleValue)
    requires f.Valid() && d in f.kinds
  {
    match f.kinds[d]
    case ImportBinding(payload) => payload.mod != "" && v == ModuleValue(payload, f.names[d], steps)
    case Assignment(value) => value.Some? && ExprDenotes(f, f.scopes[d], value.value, steps, v)
    case FunctionDef(body, results) =>
      body.Some? && steps != [] && steps[0] == Call && ReturnDenotes(f, body.value, results, steps[1..], v)
    case OtherDef => false
  }

  lemma ExprUnfolds(f: File, scope: int, e: Expr, trailing: seq<Step>, v: ModuleValue)
    requires f.Valid()
    ensures ExprDenotes(f, scope, e, trailing, v) <==> ExprLeads(f, scope, e, trailing, v)
  {
    if ExprDenotes(f, scope, e, trailing, v) {
      var n: nat :| ExprDerives(f, scope, e, trailing, v, n);
      if Root(e).Name? {
        var d :| d in f.visible(scope, Root(e).id) && DefDerives(f, d, Steps(e) + trailing, v, n);
        assert DefDenotes(f, d, Steps(e) + trailing, v);
      }
    }
    if Root(e).Name? {
      if d :| d in f.visible(scope, Root(e).id) && DefDenotes(f, d, Steps(e) + trailing, v) {
        var n: nat :| DefDerives(f, d, Steps(e) + trailing, v, n);
        assert ExprDerives(f, scope, e, trailing, v, n);
      }
    } else {
      assert ExprDerives(f, scope, e, trailing, v, 0) == ExprDenotes(f, scope, e, trailing, v);
    }
  }

  lemma DefUnfolds(f: File, d: int, steps: seq<Step>, v: ModuleValue)
    requires f.Valid() && d in f.kinds
    ensures DefDenotes(f, d, steps, v) <==> DefLeads(f, d, steps, v)
  {
    if DefDenotes(f, d, steps, v) {
      var n: nat :| DefDerives(f, d, steps, v, n);
      if f.kinds[d].Assignment? {
        assert ExprDerives(f, f.scopes[d], f.kinds[d].value.value, steps, v, n - 1);
      } else if f.kinds[d].FunctionDef? {
        var k :| 0 <= k < |f.kinds[d].results| && ExprDerives(f, f.kinds[d].body.value, f.kinds[d].results[k], steps[1..], v, n - 1);
        assert ExprDenotes(f, f.kinds[d].body.value, f.kinds[d].results[k], steps[1..], v);
      }
    }
    match f.kinds[d]
    case ImportBinding(payload) =>
      if payload.mod != "" && v == ModuleValue(payload, f.names[d], steps) {
        assert DefDerives(f, d, steps, v, 0);
      }
    case Assignment(value) =>
      if value.Some? && ExprDenotes(f, f.scopes[d], value.value, steps, v) {
        var n: nat :| ExprDerives(f, f.scopes[d], value.value, steps, v, n);
        assert DefDerives(f, d, steps, v, n + 1);
      }
    case FunctionDef(body, results) =>
      if body.Some? && steps != [] && steps[0] == Call && ReturnDenotes(f, body.value, results, steps[1..], v) {
        var k :| 0 <= k < |results| && ExprDenotes(f, body.value, results[k], steps[1..], v);
        var n: nat :| ExprDerives(f, body.value, results[k], steps[1..], v, n);
        assert DefDerives(f, d, steps, v, n + 1);
      }
    case OtherDef =>
  }

  // ---------------------------------------------------------------- ranked files

  /** Reading `e` in `scope` may lead to `d`. */
  ghost predicate LeadsTo(f: File, scope: int, e: Expr, d: int) {
    Root(e).Name? && d in f.visible(scope, Root(e).id)
  }

  /** The value of `d`, or of calling it, may be read from `d'`. */
  ghost predicate ReadsFrom(f: File, d: int, d': int)
    requires f.Valid() && d in f.kinds
  {
    match f.kinds[d]
    case Assignment(value) => value.Some? && LeadsTo(f, f.scopes[d], value.value, d')
    case FunctionDef(body, results) => body.Some? && exists k :: 0 <= k < |results| && LeadsTo(f, body.value, results[k], d')
    case _ => false
  }

  /** The ranked definitions read only from ranked ones of lower rank: among
      them there is no cycle, and no chain longer than the highest rank. */
  ghost predicate Ranks(f: File, rank: map<int, nat>)
    requires f.Valid()
  {
    forall d, d' :: d in rank && d in f.kinds && ReadsFrom(f, d, d') ==> d' in rank && rank[d'] < rank[d]
  }

  type Key = (int, seq<Step>)

  ghost predicate NoRepeats(log: seq<Key>) {
    forall i, j :: 0 <= i < j < |log| ==> log[i] != log[j]
  }

  /** Every remembered value is denoted. */
  ghost predicate Sound(f: File, memo: map<Key, seq<ModuleValue>>)
    requires f.Valid()
  {
    forall key :: key in memo ==> key.0 in f.kinds && forall v :: v in memo[key] ==> DefDenotes(f, key.0, key.1, v)
  }

  /** Every denoted value is remembered. */
  ghost predicate Complete(f: File, memo: map<Key, seq<ModuleValue>>)
    requires f.Valid()
  {
    forall key, v :: key in memo && key.0 in f.kinds && DefDenotes(f, key.0, key.1, v) ==> v in memo[key]
  }

  lemma Recalled(f: File, memo: map<Key, seq<ModuleValue>>, key: Key)
    requires f.Valid() && Sound(f, memo) && key in memo && key.0 in f.kinds
    ensures forall v :: v in memo[key] ==> DefDenotes(f, key.0, key.1, v)
    ensures Complete(f, memo) ==> forall v :: DefDenotes(f, key.0, key.1, v) ==> v in memo[key]
  {
  }

  lemma Remembered(f: File, memo: map<Key, seq<ModuleValue>>, key: Key, out: seq<ModuleValue>)
    requires f.Valid() && Sound(f, memo) && key.0 in f.kinds
    requires forall v :: v in out ==> DefDenotes(f, key.0, key.1, v)
    ensures Sound(f, memo[key := out])
    ensures Complete(f, memo) && (forall v :: DefDenotes(f, key.0, key.1, v) ==> v in out) ==> Complete(f, memo[key := out])
  {
  }

  lemma Logged(log: seq<Key>, key: Key)
    requires NoRepeats(log) && key !in log
    ensures NoRepeats(log + [key])
  {
  }

  /** Answers are never forgotten, and what is expanded on the way is answered. */
  ghost predicate Grown(memo: map<Key, seq<ModuleValue>>, log: seq<Key>, memo': map<Key, seq<ModuleValue>>, log': seq<Key>) {
    && memo.Keys <= memo'.Keys
    && forall key :: key in log' ==> key in log || key in memo'
  }

  /** A walk over one file. `ranked` is set when the walk stays among ranked
      definitions; `log` lists the pairs it has expanded. */
  class ModuleValueWalk {
    const file: File
    var active: set<int>
    var memo: map<Key, seq<ModuleValue>>
    ghost const ranked: Option<map<int, nat>>
    ghost var log: seq<Key>

    ghost predicate Valid()
      reads this
    {
      && file.Valid() && active <= file.kinds.Keys
      && Sound(file, memo)
      && (ranked.Some? ==> Ranks(file, ranked.value) && Complete(file, memo))
      && NoRepeats(log) && forall key :: key in log ==> key in memo || key.0 in active
    }

    /** No cut can happen below `d`: it is ranked below everything on the path,
        and its rank fits under the depth cap. */
    ghost predicate Clear(d: int, depth: nat)
      reads this
    {
      ranked.Some? ==>
        && d in ranked.value && depth + ranked.value[d] < MEMBER_RESOLVE_DEPTH_CAP
        && forall a :: a in active && a in ranked.value ==> ranked.value[d] < ranked.value[a]
    }

    ghost predicate ClearExpr(scope: int, e: Expr, depth: nat)
      reads this
    {
      && (ranked.Some? ==> depth <= MEMBER_RESOLVE_DEPTH_CAP)
      && forall d :: LeadsTo(file, scope, e, d) ==> Clear(d, depth)
    }

    constructor (file: File, ghost ranked: Option<map<int, nat>>)
      requires file.Valid() && (ranked.Some? ==> Ranks(file, ranked.value))
      ensures Valid() && this.file == file && this.ranked == ranked && active == {} && memo == map[]
    {
      this.file, this.ranked := file, ranked;
      active, memo, log := {}, map[], [];
    }

    method ClassifyFunctionReturns(body: Option<int>, results: seq<Expr>, trailing: seq<Step>, depth: nat)
      returns (out: seq<ModuleValue>)
      requires Valid()
      requires body.Some? ==> forall k :: 0 <= k < |results| ==> ClearExpr(body.value, results[k], depth)
      modifies this
      ensures Valid() && active == old(active) && Grown(old(memo), old(log), memo, log)
      ensures body.None? ==> out == []
      ensures body.Some? ==> forall v :: v in out ==> ReturnDenotes(file, body.value, results, trailing, v)
      ensures body.Some? && ranked.Some? ==> forall v :: ReturnDenotes(file, body.value, results, trailing, v) ==> v in out
      decreases file.kinds.Keys - active, 2
    {
      hide ExprDenotes;
      out := [];
      if body.None? {
        return;
      }
      for k := 0 to |results|
        invariant Valid() && active == old(active) && Grown(old(memo), old(log), memo, log)
        invariant forall v :: v in out ==> ReturnDenotes(file, body.value, results, trailing, v)
        invariant ranked.Some? ==> forall v :: ReturnDenotes(file, body.value, results[..k], trailing, v) ==> v in out
      {
        assert forall v :: ReturnDenotes(file, body.value, results[..k + 1], trailing, v) ==>
          ReturnDenotes(file, body.value, results[..k], trailing, v) || ExprDenotes(file, body.value, results[k], trailing, v);
        var more := ClassifyModuleValue(body.value, results[k], trailing, depth);
        out := out + more;
      }
      assert results[..|results|] == results;
    }

    method ClassifyModuleValue(scope: int, e: Expr, trailing: seq<Step>, depth: nat) returns (out: seq<ModuleValue>)
      requires Valid() && ClearExpr(scope, e, depth)
      modifies this
      ensures Valid() && active == old(active) && Grown(old(memo), old(log), memo, log)
      ensures forall v :: v in out ==> ExprDenotes(file, scope, e, trailing, v)
      ensures ranked.Some? ==> forall v :: ExprDenotes(file, scope, e, trailing, v) ==> v in out
      decreases file.kinds.Keys - active, 1
    {
      hide ExprDenotes, DefDenotes;
      out := [];
      if depth > MEMBER_RESOLVE_DEPTH_CAP {
        return;
      }
      var root, steps := PeelValueChain(e);
      steps := steps + trailing;
      forall v
        ensures ExprDenotes(file, scope, e, trailing, v) <==> ExprLeads(file, scope, e, trailing, v)
      {
        ExprUnfolds(file, scope, e, trailing, v);
      }
      match root
      case Name(id) =>
        var defs := file.visible(scope, id);
        for k := 0 to |defs|
          invariant Valid() && active == old(active) && Grown(old(memo), old(log), memo, log)
          invariant forall v :: v in out ==> exists d :: d in defs && DefDenotes(file, d, steps, v)
          invariant ranked.Some? ==> forall v, j :: 0 <= j < k && DefDenotes(file, defs[j], steps, v) ==> v in out
        {
          var d := defs[k];
          assert LeadsTo(file, scope, e, d);
          var more := ClassifyModuleValueDef(d, id, steps, depth);
          out := out + more;
        }
      case DynamicImport(target) =>
        if target.Some? {
          out := [ModuleValue(ImportRecord(target.value, None, false), "", steps)];
        }
      case _ =>
    }

    method ClassifyModuleValueDef(d: int, name: string, steps: seq<Step>, depth: nat) returns (out: seq<ModuleValue>)
      requires Valid() && d in file.kinds && name == file.names[d] && Clear(d, depth)
      modifies this
      ensures Valid() && active == old(active) && Grown(old(memo), old(log), memo, log)
      ensures forall v :: v in out ==> DefDenotes(file, d, steps, v)
      ensures ranked.Some? ==> forall v :: DefDenotes(file, d, steps, v) ==> v in out
      decreases file.kinds.Keys - active, 0
    {
      hide ExprDenotes, DefDenotes, Sound, Complete, NoRepeats;
      var key := (d, steps);
      if key in memo {
        Recalled(file, memo, key);
        return memo[key];
      }
      if d in active {
        return [];
      }
      forall v
        ensures DefDenotes(file, d, steps, v) <==> DefLeads(file, d, steps, v)
      {
        DefUnfolds(file, d, steps, v);
      }
      active := active + {d};
      Logged(log, key);
      log := log + [key];
      out := [];
      match file.kinds[d] {
        case ImportBinding(payload) =>
          if payload.mod != "" {
            out := [ModuleValue(payload, name, steps)];
          }
        case Assignment(value) =>
          if value.Some? {
            assert forall x :: LeadsTo(file, file.scopes[d], value.value, x) ==> ReadsFrom(file, d, x);
            out := ClassifyModuleValue(file.scopes[d], value.value, steps, depth + 1);
          }
        case FunctionDef(body, results) =>
          if steps != [] && steps[0] == Call {
            out := ClassifyFunctionReturns(body, results, steps[1..], depth + 1);
          }
        case OtherDef =>
      }
      Remembered(file, memo, key, out);
      active := active - {d};
      memo := memo[key := out];
    }
  }

  /** What a definition's value denotes, or for a function the value of calling it. */
  ghost predicate ValueDenotes(f: File, d: int, v: ModuleValue)
    requires f.Valid() && d in f.kinds
  {
    match f.kinds[d]
    case Assignment(_) => DefDenotes(f, d, [], v)
    case FunctionDef(_, _) => DefDenotes(f, d, [Call], v)
    case _ => false
  }

  /** Which definitions are read from which. */
  ghost function Reads(f: File): set<(int, int)>
    requires f.Valid()
  {
    set d, d' | d in f.kinds && d' in f.kinds && ReadsFrom(f, d, d') :: (d, d')
  }

  lemma RanksFollowReads(f: File, rank: map<int, nat>)
    requires f.Valid() && Ranking.Descends(Reads(f), rank)
    ensures Ranks(f, rank)
  {
    forall d, d' | d in rank && d in f.kinds && ReadsFrom(f, d, d')
      ensures d' in rank && rank[d'] < rank[d]
    {
      assert d' in f.kinds;
      assert (d, d') in Reads(f);
    }
  }

  /** In a file of few definitions none of which is read from itself, however
      indirectly, no chain is too deep for the cap. */
  lemma AcyclicFileIsShallow(f: File, d: int)
    requires f.Valid() && d in f.kinds && Ranking.Acyclic(Reads(f)) && |f.kinds.Keys| <= 17
    ensures Ranking.ChainsFromWithin(Reads(f), d, 16)
  {
    assert |f.kinds.Keys| > 0;
    Ranking.AcyclicChainsAreShort(f.kinds.Keys, Reads(f));
  }

  /** The walk always ends and everything it finds is denoted. When no chain of
      reads that starts at the definition is longer than the cap, and so none
      goes round in a cycle, it finds everything there is to find. */
  method ModuleValuesForDef(f: File, d: int) returns (out: seq<ModuleValue>)
    requires f.Valid() && d in f.kinds
    ensures forall v :: v in out ==> ValueDenotes(f, d, v)
    ensures Ranking.ChainsFromWithin(Reads(f), d, 16) ==>
      forall v :: ValueDenotes(f, d, v) ==> v in out
  {
    hide ExprDenotes, DefDenotes;
    ghost var ranked: Option<map<int, nat>> := None;
    if Ranking.ChainsFromWithin(Reads(f), d, MEMBER_RESOLVE_DEPTH_CAP) {
      var rank := Ranking.ChainsGiveRanks(f.kinds.Keys, Reads(f), MEMBER_RESOLVE_DEPTH_CAP);
      RanksFollowReads(f, rank);
      ranked := Some(rank);
    }
    var walk := new ModuleValueWalk(f, ranked);
    forall v
      ensures DefDenotes(f, d, [], v) <==> DefLeads(f, d, [], v)
      ensures DefDenotes(f, d, [Call], v) <==> DefLeads(f, d, [Call], v)
    {
      DefUnfolds(f, d, [], v);
      DefUnfolds(f, d, [Call], v);
    }
    out := [];
    match f.kinds[d] {
      case Assignment(value) =>
        if value.Some? {
          assert forall x :: LeadsTo(f, f.scopes[d], value.value, x) ==> ReadsFrom(f, d, x);
          out := walk.ClassifyModuleValue(f.scopes[d], value.value, [], 0);
        }
      case FunctionDef(body, results) =>
        assert [Call][1..] == [];
        out := walk.ClassifyFunctionReturns(body, results, [], 0);
      case _ =>
    }
  }
}
