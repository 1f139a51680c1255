/** How suites of statements run (Python Language Reference, sections 7.3 and
    8.1 to 8.5), driven by a stream of choices: which way unknown tests go,
    where exceptions and interruptions strike, which handlers match, how often
    loops turn and functions are called. A run whose choices are used up is
    suspended, so the runs of a suite are the finite prefixes of everything it
    can do, endless loops included. */
module Execution {
  import opened Wrappers
  import opened PythonAst
  import opened Folding

  datatype Outcome = Normal | Returned | Raising | Broke | Continued | Stopped

  datatype Res = Res(outcome: Outcome, trace: seq<Event>, rest: seq<bool>)

  /** What a statement does when one of its expressions yields no value. */
  function Abort(v: Value): Outcome
    requires !v.Truth?
  {
    if v.Raised? then Raising else Stopped
  }

  /** `e`'s trace, then `r`. */
  function After(e: Eval, r: Res): Res {
    Res(r.outcome, e.trace + r.trace, r.rest)
  }

  function Then(a: Res, b: Res): Res {
    Res(b.outcome, a.trace + b.trace, b.rest)
  }

  /** Evaluation that, when it yields a value, ends the statement with `outcome`. */
  function Ending(e: Eval, outcome: Outcome): Res {
    Res(if e.value.Truth? then outcome else Abort(e.value), e.trace, e.rest)
  }

  /** Evaluates `e` when there is one, binding `target` to it when that is a
      name, then some of `parts`. */
  function Effects(e: Option<Expr>, target: Option<Expr>, parts: seq<Expr>, outcome: Outcome, scope: Scope, o: seq<bool>): (r: Res)
    ensures |r.rest| <= |o|
    ensures NoneRan(r.trace)
  {
    if e.None? then Ending(RunParts(parts, scope, o), outcome) else
      var v := if target.Some? && target.value.Name? then Stored(Run(e.value, scope, o), scope, target.value.id, e.value)
               else Run(e.value, scope, o);
      if !v.value.Truth? then Ending(v, outcome)
      else After(v, Ending(RunParts(parts, scope, v.rest), outcome))
  }

  function ExecSuite(stmts: seq<Stmt>, scope: Scope, o: seq<bool>): (r: Res)
    ensures |r.rest| <= |o|
    decreases |o|, 2, |stmts|
  {
    if stmts == [] then Res(Normal, [], o) else
      var first := ExecStmt(stmts[0], scope, o);
      if first.outcome != Normal then first
      else Then(first, ExecSuite(stmts[1..], scope, first.rest))
  }

  /** Starts a statement; the first choice says whether it is interrupted. */
  function ExecStmt(s: Stmt, scope: Scope, o: seq<bool>): (r: Res)
    ensures |r.rest| <= |o|
    ensures r.outcome == Normal ==> |r.rest| < |o|
    decreases |o|, 1, 0
  {
    if o == [] then Res(Stopped, [], [])
    else if o[0] then Res(Raising, [Ran(s.range)], o[1..])
    else
      var r := ExecNode(s, scope, o[1..]);
      Res(r.outcome, [Ran(s.range)] + r.trace, r.rest)
  }

  function ExecNode(s: Stmt, scope: Scope, o: seq<bool>): (r: Res)
    ensures |r.rest| <= |o|
    decreases |o|, 4, 0
  {
    match s
    case Simple(_, parts) => Effects(None, None, parts, Normal, scope, o)
    case ExprStmt(_, value) => Effects(Some(value), None, [], Normal, scope, o)
    case Assign(_, targets, value) => Effects(Some(value), if |targets| == 1 then Some(targets[0]) else None, targets, Normal, scope, o)
    case AnnAssign(_, target, annotation, bound) => Effects(bound, Some(target), [target, annotation], Normal, scope, o)
    case Return(_, result) => Effects(result, None, [], Returned, scope, o)
    case Raise(_, parts) => Effects(None, None, parts, Raising, scope, o)
    case Break(_) => Res(Broke, [], o)
    case Continue(_) => Res(Continued, [], o)
    case Assert(_, test) =>
      var enabled := Choose(o);
      if !enabled.value.Truth? then Res(Stopped, [], enabled.rest)
      else if !enabled.value.truth then Res(Normal, [AssertSkipped], enabled.rest)
      else
        var t := Run(test, scope, enabled.rest);
        Res(if !t.value.Truth? then Abort(t.value) else if t.value.truth then Normal else Raising, t.trace, t.rest)
    case If(_, test, body, clauses) =>
      var t := Run(test, scope, o);
      if !t.value.Truth? then Res(Abort(t.value), t.trace, t.rest)
      else After(t, if t.value.truth then ExecSuite(body, scope, t.rest) else ExecClauses(clauses, scope, t.rest))
    case While(_, test, body, orelse) => ExecWhile(test, body, orelse, scope, o)
    case For(_, iter, body, orelse) =>
      var t := Run(iter, scope, o);
      if !t.value.Truth? then Res(Abort(t.value), t.trace, t.rest)
      else After(t, ExecFor(body, orelse, scope, t.rest))
    case With(_, parts, body) =>
      var t := RunParts(parts, scope, o);
      if !t.value.Truth? then Res(Abort(t.value), t.trace, t.rest)
      else
        var b := ExecSuite(body, scope, t.rest);
        After(t, ExitManager(b))
    case Try(_, body, handlers, orelse, finalbody) => ExecTry(body, handlers, orelse, finalbody, scope, o)
    case FunctionDef(_, body) => ExecCalls(body, scope + [body], o)
    case ClassDef(_, body) =>
      var b := ExecSuite(body, scope + [body], o);
      b.(outcome := if b.outcome in {Normal, Stopped} then b.outcome else Raising)
    case Match(_, subject, cases) =>
      var t := Run(subject, scope, o);
      if !t.value.Truth? then Res(Abort(t.value), t.trace, t.rest)
      else After(t, ExecCases(cases, scope, t.rest))
  }

  /** Clauses are tried in order; trying one leaves its range in the trace. */
  function ExecClauses(clauses: seq<Clause>, scope: Scope, o: seq<bool>): (r: Res)
    ensures |r.rest| <= |o|
    decreases |o|, 3, |clauses|
  {
    if clauses == [] then Res(Normal, [], o) else
      var c, here := clauses[0], Eval(Truth(true), [Ran(clauses[0].range)], o);
      if c.test.None? then After(here, ExecSuite(c.body, scope, o)) else
        var t := Run(c.test.value, scope, o);
        if !t.value.Truth? then After(here, Res(Abort(t.value), t.trace, t.rest))
        else After(here, After(t, if t.value.truth then ExecSuite(c.body, scope, t.rest)
                                  else ExecClauses(clauses[1..], scope, t.rest)))
  }

  function ExecWhile(test: Expr, body: seq<Stmt>, orelse: seq<Stmt>, scope: Scope, o: seq<bool>): (r: Res)
    ensures |r.rest| <= |o|
    decreases |o|, 3, 0
  {
    var t := Run(test, scope, o);
    if !t.value.Truth? then Res(Abort(t.value), t.trace, t.rest)
    else if !t.value.truth then After(t, ExecSuite(orelse, scope, t.rest))
    else
      var b := ExecSuite(body, scope, t.rest);
      if b.outcome == Broke then After(t, b.(outcome := Normal))
      else if b.outcome !in {Normal, Continued} then After(t, b)
      else After(t, Then(b, ExecWhile(test, body, orelse, scope, b.rest)))
  }

  /** Each turn, one choice may raise from the iterator and the next says
      whether there is another element. */
  function ExecFor(body: seq<Stmt>, orelse: seq<Stmt>, scope: Scope, o: seq<bool>): (r: Res)
    ensures |r.rest| <= |o|
    decreases |o|, 3, 0
  {
    if o == [] then Res(Stopped, [], [])
    else if o[0] then Res(Raising, [], o[1..])
    else
      var more := Choose(o[1..]);
      if !more.value.Truth? then Res(Stopped, [], more.rest)
      else if !more.value.truth then ExecSuite(orelse, scope, more.rest)
      else
        var b := ExecSuite(body, scope, more.rest);
        if b.outcome == Broke then b.(outcome := Normal)
        else if b.outcome !in {Normal, Continued} then b
        else Then(b, ExecFor(body, orelse, scope, b.rest))
  }

  /** Leaving a `with`: the manager may raise, or swallow an exception. */
  function ExitManager(b: Res): (r: Res)
    ensures |r.rest| <= |b.rest|
  {
    if b.outcome == Stopped then b else
      var raises := Choose(b.rest);
      if !raises.value.Truth? then Res(Stopped, b.trace, raises.rest)
      else if raises.value.truth then Res(Raising, b.trace, raises.rest)
      else if b.outcome != Raising then b.(rest := raises.rest)
      else
        var swallows := Choose(raises.rest);
        if !swallows.value.Truth? then Res(Stopped, b.trace, swallows.rest)
        else if swallows.value.truth then Res(Normal, b.trace + [Swallowed], swallows.rest)
        else Res(Raising, b.trace, swallows.rest)
  }

  function ExecTry(body: seq<Stmt>, handlers: seq<Arm>, orelse: seq<Stmt>, finalbody: seq<Stmt>,
                   scope: Scope, o: seq<bool>): (r: Res)
    ensures |r.rest| <= |o|
    decreases |o|, 3, |handlers| + 1
  {
    var b := ExecSuite(body, scope, o);
    var m := if b.outcome == Normal then Then(b, ExecSuite(orelse, scope, b.rest))
             else if b.outcome == Raising then Then(b, ExecHandlers(handlers, scope, b.rest))
             else b;
    if m.outcome == Stopped then m else
      var f := ExecSuite(finalbody, scope, m.rest);
      Then(m, if f.outcome == Normal then f.(outcome := m.outcome) else f)
  }

  /** Whether an arm is taken: a choice, unless it catches everything. */
  function Taken(arm: Arm, o: seq<bool>): (r: Eval)
    ensures |r.rest| <= |o| && r.trace == [] && r.value != Raised
  {
    if arm.catchAll then Eval(Truth(true), [], o) else Choose(o)
  }

  /** The first handler chosen to match runs; with none the exception goes on. */
  function ExecHandlers(handlers: seq<Arm>, scope: Scope, o: seq<bool>): (r: Res)
    ensures |r.rest| <= |o|
    decreases |o|, 3, |handlers|
  {
    if handlers == [] then Res(Raising, [], o) else
      var matches := Taken(handlers[0], o);
      if !matches.value.Truth? then Res(Stopped, [], matches.rest)
      else if matches.value.truth then ExecSuite(handlers[0].body, scope, matches.rest)
      else ExecHandlers(handlers[1..], scope, matches.rest)
  }

  function ExecCases(cases: seq<Arm>, scope: Scope, o: seq<bool>): (r: Res)
    ensures |r.rest| <= |o|
    decreases |o|, 3, |cases|
  {
    if cases == [] then Res(Normal, [], o) else
      var matches := Taken(cases[0], o);
      if !matches.value.Truth? then Res(Stopped, [], matches.rest)
      else if matches.value.truth then ExecSuite(cases[0].body, scope, matches.rest)
      else ExecCases(cases[1..], scope, matches.rest)
  }

  /** A body runs only once its `def` has; every later call of the function is
      accounted for at the `def`, any number of times. */
  function ExecCalls(body: seq<Stmt>, scope: Scope, o: seq<bool>): (r: Res)
    ensures |r.rest| <= |o|
    decreases |o|, 3, 0
  {
    var again := Choose(o);
    if !again.value.Truth? then Res(Stopped, [], again.rest)
    else if !again.value.truth then Res(Normal, [], again.rest)
    else
      var b := ExecSuite(body, scope, again.rest);
      if b.outcome == Stopped then b
      else Then(b, ExecCalls(body, scope, b.rest))
  }
}
