/** Rule bodies after desugaring. Names bound by patterns, operators and literals do not matter to
    the analyses and are dropped; of the patterns of a match it is kept whether they cover every value, which
    nothing in the language checks. */
module Ast {

  datatype Expr =
    | Lit
    | Var
    | FieldAccess(expr: Expr)
    | Index(expr: Expr, index: Expr)
    | Update(expr: Expr, index: Expr, value: Expr)
    | Tuple(items: seq<Expr>)
    | Record(fields: seq<Expr>)
    | MethodCall
    | Take(queue: string)
    | TryTake(queue: string)
    | Peek(queue: string)
    | Call(args: seq<Expr>)
    | BitSlice(expr: Expr)
    | BinOp(lhs: Expr, rhs: Expr)
    | UnaryOp(expr: Expr)

  datatype Stmt =
    | Let(value: Expr)
    | Put(target: string, value: Expr)
    | ExprStmt(expr: Expr)
    | Match(scrutinee: Expr, arms: seq<MatchArm>, covers: bool)
    | If(cond: Expr, thenBody: seq<Stmt>, elseBody: seq<Stmt>)

  datatype MatchArm = MatchArm(body: seq<Stmt>)
}
