/** Array ports: `regs[i].take()` and `regs[i].put(v)` become a match over scalar ports `regs_0`, `regs_1`, ... */
module Desugar {

  datatype Method = TakeMethod | TryTakeMethod | PeekMethod | PutMethod | OtherMethod(name: string)

  /** Operators, calls, tuples, records, fields and slices are all an `Op` on their operands; the
      operands of an update are its index and its value. Constants are literals. */
  datatype Expr =
    | Lit(n: nat)
    | Var(name: string)
    | Op(op: string, args: seq<Expr>)
    | Index(inner: Expr, index: Expr)
    | Update(inner: Expr, operands: seq<Expr>)
    | MethodCall(receiver: Expr, m: Method, args: seq<Expr>)
    | Take(queue: string)
    | TryTake(queue: string)
    | Peek(queue: string)

  datatype Pattern = LitPattern(n: nat) | BindPattern(name: string) | Wildcard | SomePattern(name: string) | NonePattern

  datatype Stmt =
    | Let(pattern: Pattern, value: Expr)
    | ExprStmt(expr: Expr)
    | Put(target: string, value: Expr)
    | If(cond: Expr, thenBody: seq<Stmt>, elseBody: seq<Stmt>)
    | Match(scrutinee: Expr, arms: seq<Arm>)

  datatype Arm = Arm(pattern: Pattern, body: seq<Stmt>)

  /** The array ports of a process and their sizes. */
  type Sizes = map<string, nat>

  // ---------------------------------------------------------------------------
  // Names
  // ---------------------------------------------------------------------------

  function Digit(d: nat): char
    requires d < 10
  {
    '0' + d as char
  }

  function Decimal(n: nat): (s: string)
    ensures |s| > 0 && forall i | 0 <= i < |s| :: s[i] != '_'
  {
    if n < 10 then [Digit(n)] else Decimal(n / 10) + [Digit(n % 10)]
  }

  /** The scalar port that stands for one element. */
  function ElementName(a: string, i: nat): string {
    a + "_" + Decimal(i)
  }

  lemma {:induction false} DecimalInjective(m: nat, n: nat)
    requires Decimal(m) == Decimal(n)
    ensures m == n
  {
    assert Decimal(m)[|Decimal(m)| - 1] == Digit(m % 10);
    assert Decimal(n)[|Decimal(n)| - 1] == Digit(n % 10);
    if m >= 10 && n >= 10 {
      assert Decimal(m / 10) == Decimal(m)[..|Decimal(m)| - 1] == Decimal(n)[..|Decimal(n)| - 1] == Decimal(n / 10);
      DecimalInjective(m / 10, n / 10);
    }
  }

  lemma UnderscoreInside(a: string, i: nat, b: string, j: nat)
    requires |b| < |a|
    ensures ElementName(a, i) != ElementName(b, j)
  {
    assert ElementName(a, i)[|a|] == '_';
    if |a| < |ElementName(b, j)| {
      assert ElementName(b, j)[|a|] == Decimal(j)[|a| - |b| - 1];
    }
  }

  /** The last underscore tells an element's array and its number. */
  lemma NameInjective(a: string, i: nat, b: string, j: nat)
    requires ElementName(a, i) == ElementName(b, j)
    ensures a == b && i == j
  {
    if |b| < |a| {
      UnderscoreInside(a, i, b, j);
    } else if |a| < |b| {
      UnderscoreInside(b, j, a, i);
    }
    var name := ElementName(a, i);
    assert a == name[..|a|] == b;
    assert Decimal(i) == name[|a| + 1..] == Decimal(j);
    DecimalInjective(i, j);
  }

  // ---------------------------------------------------------------------------
  // The transformation
  // ---------------------------------------------------------------------------

  predicate IsRead(m: Method) {
    m.TakeMethod? || m.TryTakeMethod? || m.PeekMethod?
  }

  function ReadOf(m: Method, queue: string): Expr
    requires IsRead(m)
  {
    match m
    case TakeMethod => Take(queue)
    case TryTakeMethod => TryTake(queue)
    case PeekMethod => Peek(queue)
  }

  function DesugarExpr(e: Expr): Expr
    decreases e
  {
    match e
    case Op(op, args) => Op(op, DesugarExprs(args))
    case Index(inner, index) => Index(DesugarExpr(inner), DesugarExpr(index))
    case Update(inner, operands) => Update(DesugarExpr(inner), DesugarExprs(operands))
    case MethodCall(receiver, m, args) =>
      var receiver', args' := DesugarExpr(receiver), DesugarExprs(args);
      if IsRead(m) && receiver'.Var? then ReadOf(m, receiver'.name)
      else if m.OtherMethod? then e
      else MethodCall(receiver', m, args')
    case _ => e
  }

  function DesugarExprs(es: seq<Expr>): (r: seq<Expr>)
    ensures |r| == |es|
    decreases es
  {
    if es == [] then [] else [DesugarExpr(es[0])] + DesugarExprs(es[1..])
  }

  /** `a[index]`, for an array port */
  predicate IsElement(e: Expr, sizes: Sizes) {
    e.Index? && e.inner.Var? && e.inner.name in sizes
  }

  function ExpandIndexedPut(a: string, size: nat, index: Expr, value: Expr): Stmt {
    Match(index, seq(size, i requires 0 <= i < size => Arm(LitPattern(i), [Put(ElementName(a, i), value)])))
  }

  function ExpandIndexedLet(a: string, size: nat, index: Expr, m: Method, pattern: Pattern): Stmt
    requires IsRead(m)
  {
    Match(index, seq(size, i requires 0 <= i < size => Arm(LitPattern(i), [Let(pattern, ReadOf(m, ElementName(a, i)))])))
  }

  function DesugarStmt(s: Stmt, sizes: Sizes): Stmt
    decreases s
  {
    match s
    case Let(pattern, value) =>
      if value.MethodCall? && IsRead(value.m) && IsElement(value.receiver, sizes) then
        var a := value.receiver.inner.name;
        ExpandIndexedLet(a, sizes[a], DesugarExpr(value.receiver.index), value.m, pattern)
      else Let(pattern, DesugarExpr(value))
    case ExprStmt(e) =>
      if e.MethodCall? && e.m == PutMethod && IsElement(e.receiver, sizes) && |e.args| == 1 then
        var a := e.receiver.inner.name;
        ExpandIndexedPut(a, sizes[a], DesugarExpr(e.receiver.index), DesugarExpr(e.args[0]))
      else
        var d := DesugarExpr(e);
        if d.MethodCall? && d.m == PutMethod && d.receiver.Var? && |d.args| == 1 then
          Put(d.receiver.name, DesugarExpr(d.args[0]))
        else ExprStmt(d)
    case Put(target, value) => Put(target, DesugarExpr(value))
    case If(cond, thenBody, elseBody) =>
      If(DesugarExpr(cond), DesugarStmts(thenBody, sizes), DesugarStmts(elseBody, sizes))
    case Match(scrutinee, arms) => Match(DesugarExpr(scrutinee), DesugarArms(arms, sizes))
  }

  function DesugarStmts(ss: seq<Stmt>, sizes: Sizes): (r: seq<Stmt>)
    ensures |r| == |ss|
    decreases ss
  {
    if ss == [] then [] else [DesugarStmt(ss[0], sizes)] + DesugarStmts(ss[1..], sizes)
  }

  function DesugarArms(arms: seq<Arm>, sizes: Sizes): (r: seq<Arm>)
    ensures |r| == |arms|
    decreases arms
  {
    if arms == [] then []
    else [Arm(arms[0].pattern, DesugarStmts(arms[0].body, sizes))] + DesugarArms(arms[1..], sizes)
  }

  // ---------------------------------------------------------------------------
  // The passes as they run
  // ---------------------------------------------------------------------------

  method DesugarStmtInto(s: Stmt, sizes: Sizes, out: seq<Stmt>) returns (out': seq<Stmt>)
    ensures out' == out + [DesugarStmt(s, sizes)]
    decreases s
  {
    match s
    case Let(pattern, value) =>
      if value.MethodCall? && IsRead(value.m) && IsElement(value.receiver, sizes) {
        var a, index := value.receiver.inner.name, DesugarExpr(value.receiver.index);
        out' := out + [ExpandIndexedLet(a, sizes[a], index, value.m, pattern)];
        return;
      }
      out' := out + [Let(pattern, DesugarExpr(value))];
    case ExprStmt(e) =>
      if e.MethodCall? && e.m == PutMethod && IsElement(e.receiver, sizes) && |e.args| == 1 {
        var a, index, value := e.receiver.inner.name, DesugarExpr(e.receiver.index), DesugarExpr(e.args[0]);
        out' := out + [ExpandIndexedPut(a, sizes[a], index, value)];
        return;
      }
      var desugared := DesugarExpr(e);
      if desugared.MethodCall? && desugared.m == PutMethod && desugared.receiver.Var? && |desugared.args| == 1 {
        out' := out + [Put(desugared.receiver.name, DesugarExpr(desugared.args[0]))];
        return;
      }
      out' := out + [ExprStmt(desugared)];
    case Put(target, value) =>
      out' := out + [Put(target, DesugarExpr(value))];
    case Match(scrutinee, arms) =>
      var arms' := DesugarArmList(arms, sizes);
      out' := out + [Match(DesugarExpr(scrutinee), arms')];
    case If(cond, thenBody, elseBody) =>
      var then' := DesugarBody(thenBody, sizes);
      var else' := DesugarBody(elseBody, sizes);
      out' := out + [If(DesugarExpr(cond), then', else')];
  }

  method DesugarArmList(arms: seq<Arm>, sizes: Sizes) returns (result: seq<Arm>)
    ensures result == DesugarArms(arms, sizes)
    decreases arms
  {
    hide DesugarStmts;
    result := [];
    for i := 0 to |arms|
      invariant result + DesugarArms(arms[i..], sizes) == DesugarArms(arms, sizes)
    {
      assert arms[i..][1..] == arms[i + 1..] && arms[i..][0] == arms[i];
      var body := DesugarBody(arms[i].body, sizes);
      result := result + [Arm(arms[i].pattern, body)];
    }
  }

  lemma RestOfBody(ss: seq<Stmt>, i: nat, sizes: Sizes)
    requires i < |ss|
    ensures DesugarStmts(ss[i..], sizes) == [DesugarStmt(ss[i], sizes)] + DesugarStmts(ss[i + 1..], sizes)
  {
  }

  method DesugarBody(ss: seq<Stmt>, sizes: Sizes) returns (result: seq<Stmt>)
    ensures result == DesugarStmts(ss, sizes)
    decreases ss
  {
    hide DesugarStmt, DesugarStmts;
    result := [];
    for i := 0 to |ss|
      invariant result + DesugarStmts(ss[i..], sizes) == DesugarStmts(ss, sizes)
    {
      RestOfBody(ss, i, sizes);
      result := DesugarStmtInto(ss[i], sizes, result);
    }
  }

  /** What a put's argument becomes is not changed by desugaring it again, as the code does. */
  lemma {:induction false} DesugarExprTwice(e: Expr)
    ensures DesugarExpr(DesugarExpr(e)) == DesugarExpr(e)
    decreases e
  {
    match e
    case Op(op, args) => DesugarExprsTwice(args);
    case Index(inner, index) =>
      DesugarExprTwice(inner);
      DesugarExprTwice(index);
    case Update(inner, operands) =>
      DesugarExprTwice(inner);
      DesugarExprsTwice(operands);
    case MethodCall(receiver, m, args) =>
      DesugarExprTwice(receiver);
      DesugarExprsTwice(args);
    case _ =>
  }

  lemma {:induction false} DesugarExprsTwice(es: seq<Expr>)
    ensures DesugarExprs(DesugarExprs(es)) == DesugarExprs(es)
    decreases es
  {
    if es != [] {
      DesugarExprTwice(es[0]);
      DesugarExprsTwice(es[1..]);
    }
  }
}
