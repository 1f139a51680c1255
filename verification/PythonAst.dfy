/** The part of a Python module's syntax tree the dead-region analysis reads. */
module PythonAst {
  import opened Wrappers

  /** A half-open span of source text. */
  datatype Span = Span(lo: int, hi: int)

  predicate Contains(outer: Span, inner: Span) {
    outer.lo <= inner.lo && inner.hi <= outer.hi
  }

  datatype BoolOperator = And | Or

  datatype DisplayKind = List | Tuple | Set | Dict

  /** One entry of a display: `e`, `k: v`, or an unpacking `*e` / `**e`. */
  datatype Item = Plain(value: Expr) | Pair(key: Expr, value: Expr) | Unpacked(value: Expr)

  datatype Expr =
    | BooleanLiteral(value: bool)
    | NoneLiteral
    | EllipsisLiteral
    | IntLiteral(integer: int)
    | FloatLiteral(number: real)
    | ComplexLiteral(re: real, im: real)
    | StringLiteral(text: string)
    | BytesLiteral(octets: seq<nat>)
    | Display(kind: DisplayKind, items: seq<Item>)
    | Name(id: string)
    | Named(target: string, named: Expr)
    | BoolOp(op: BoolOperator, values: seq<Expr>)
    | Not(operand: Expr)
    | OtherUnary(operand: Expr)
    | BinOp(left: Expr, right: Expr)
    | Compare(left: Expr, comparators: seq<Expr>)
    | OtherExpr(parts: seq<Expr>)

  /** An `elif` clause, or an `else` clause when it has no test. */
  datatype Clause = Clause(range: Span, test: Option<Expr>, body: seq<Stmt>)

  /** The suite of an `except` handler or of a `case`. A bare `except`, and an
      irrefutable `case` without a guard, catch everything. */
  datatype Arm = Arm(catchAll: bool, body: seq<Stmt>)

  datatype Stmt =
    | Simple(range: Span, parts: seq<Expr>)
    | ExprStmt(range: Span, value: Expr)
    | Assign(range: Span, targets: seq<Expr>, value: Expr)
    | AnnAssign(range: Span, target: Expr, annotation: Expr, bound: Option<Expr>)
    | Return(range: Span, result: Option<Expr>)
    | Raise(range: Span, parts: seq<Expr>)
    | Break(range: Span)
    | Continue(range: Span)
    | Assert(range: Span, test: Expr)
    | If(range: Span, test: Expr, body: seq<Stmt>, clauses: seq<Clause>)
    | While(range: Span, test: Expr, body: seq<Stmt>, orelse: seq<Stmt>)
    | For(range: Span, iter: Expr, body: seq<Stmt>, orelse: seq<Stmt>)
    | With(range: Span, parts: seq<Expr>, body: seq<Stmt>)
    | Try(range: Span, body: seq<Stmt>, handlers: seq<Arm>, orelse: seq<Stmt>, finalbody: seq<Stmt>)
    | FunctionDef(range: Span, body: seq<Stmt>)
    | ClassDef(range: Span, body: seq<Stmt>)
    | Match(range: Span, subject: Expr, cases: seq<Arm>)

  /** Known truth values of names. */
  type NameTable = map<string, bool>

  /** The scope a statement runs in: the bodies of the module and of each
      enclosing `def` and `class`, outermost first. */
  type Scope = seq<seq<Stmt>>
}
