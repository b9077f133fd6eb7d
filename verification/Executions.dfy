/** The executions of a rule body: which ports it takes and puts, in order, when one branch of every `if`
    and one arm of every match runs; or, if matches may fall through, no arm of a match whose patterns do not
    cover every value. A match without arms does nothing. */
module Executions {
  import opened Ast

  datatype Event = TakeOf(port: string) | PutOf(port: string)

  /** One execution: the events at positions the linearity walker visits, and all of them. */
  datatype Trace = Trace(seen: seq<Event>, all: seq<Event>) {
    function Then(next: Trace): Trace {
      Trace(seen + next.seen, all + next.all)
    }
  }

  const NOTHING := Trace([], [])

  /** Every take inside an expression, in evaluation order. */
  function AllTakes(e: Expr): seq<Event>
    decreases e
  {
    match e
    case Take(q) => [TakeOf(q)]
    case TryTake(q) => [TakeOf(q)]
    case FieldAccess(inner) => AllTakes(inner)
    case Index(inner, index) => AllTakes(inner) + AllTakes(index)
    case Update(inner, index, value) => AllTakes(inner) + AllTakes(index) + AllTakes(value)
    case Tuple(items) => AllTakesOf(items)
    case Record(fields) => AllTakesOf(fields)
    case Call(args) => AllTakesOf(args)
    case BitSlice(inner) => AllTakes(inner)
    case BinOp(lhs, rhs) => AllTakes(lhs) + AllTakes(rhs)
    case UnaryOp(inner) => AllTakes(inner)
    case _ => []
  }

  function AllTakesOf(es: seq<Expr>): seq<Event>
    decreases es
  {
    if es == [] then [] else AllTakes(es[0]) + AllTakesOf(es[1..])
  }

  /** The takes the walker reaches: it does not descend into records, fields, indices, updates and
      slices. */
  function SeenTakes(e: Expr): seq<Event>
    decreases e
  {
    match e
    case Take(q) => [TakeOf(q)]
    case TryTake(q) => [TakeOf(q)]
    case BinOp(lhs, rhs) => SeenTakes(lhs) + SeenTakes(rhs)
    case UnaryOp(inner) => SeenTakes(inner)
    case Call(args) => SeenTakesOf(args)
    case Tuple(items) => SeenTakesOf(items)
    case _ => []
  }

  function SeenTakesOf(es: seq<Expr>): seq<Event>
    decreases es
  {
    if es == [] then [] else SeenTakes(es[0]) + SeenTakesOf(es[1..])
  }

  function ExprTrace(e: Expr): Trace {
    Trace(SeenTakes(e), AllTakes(e))
  }

  function Sequel(first: set<Trace>, second: set<Trace>): set<Trace> {
    set a, b | a in first && b in second :: a.Then(b)
  }

  function StmtPaths(s: Stmt, falls: bool): (paths: set<Trace>)
    ensures paths != {}
    decreases s
  {
    match s
    case Let(value) => {ExprTrace(value)}
    case ExprStmt(e) => {ExprTrace(e)}
    case Put(target, value) => {ExprTrace(value).Then(Trace([PutOf(target)], [PutOf(target)]))}
    case If(cond, thenBody, elseBody) =>
      var branches := StmtsPaths(thenBody, falls) + StmtsPaths(elseBody, falls);
      AfterIsNonempty(ExprTrace(cond), branches);
      Sequel({ExprTrace(cond)}, branches)
    case Match(scrutinee, arms, covers) =>
      if arms == [] then {ExprTrace(scrutinee)}
      else
        var branches := ArmsPaths(arms, falls) + (if falls && !covers then {NOTHING} else {});
        AfterIsNonempty(ExprTrace(scrutinee), branches);
        Sequel({ExprTrace(scrutinee)}, branches)
  }

  function ArmsPaths(arms: seq<MatchArm>, falls: bool): (paths: set<Trace>)
    ensures arms != [] ==> paths != {}
    decreases arms
  {
    if arms == [] then {} else ArmsPaths(arms[..|arms| - 1], falls) + StmtsPaths(arms[|arms| - 1].body, falls)
  }

  function StmtsPaths(ss: seq<Stmt>, falls: bool): (paths: set<Trace>)
    ensures paths != {}
    decreases ss
  {
    if ss == [] then {NOTHING}
    else
      var a := StmtPaths(ss[0], falls);
      var b := StmtsPaths(ss[1..], falls);
      SequelIsNonempty(a, b);
      Sequel(a, b)
  }

  lemma SequelIsNonempty(a: set<Trace>, b: set<Trace>)
    requires a != {} && b != {}
    ensures Sequel(a, b) != {}
  {
    var x :| x in a;
    var y :| y in b;
    assert x.Then(y) in Sequel(a, b);
  }

  lemma AfterIsNonempty(x: Trace, b: set<Trace>)
    requires b != {}
    ensures Sequel({x}, b) != {}
  {
    SequelIsNonempty({x}, b);
  }
}
