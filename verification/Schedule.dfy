/** Rule scheduling: what a rule may mutate, which rules conflict, and the first-fit grouping. */
module Schedule {
  import opened Ast
  import opened Executions

  // ---------------------------------------------------------------------------
  // Resource extraction
  // ---------------------------------------------------------------------------

  /** The ports an expression takes from, anywhere inside it. */
  function ExprTakes(e: Expr): set<string>
    decreases e
  {
    match e
    case Take(q) => {q}
    case TryTake(q) => {q}
    case FieldAccess(inner) => ExprTakes(inner)
    case Index(inner, index) => ExprTakes(inner) + ExprTakes(index)
    case Update(inner, index, value) => ExprTakes(inner) + ExprTakes(index) + ExprTakes(value)
    case Tuple(items) => ExprsTakes(items)
    case Record(fields) => ExprsTakes(fields)
    case Call(args) => ExprsTakes(args)
    case BitSlice(inner) => ExprTakes(inner)
    case BinOp(lhs, rhs) => ExprTakes(lhs) + ExprTakes(rhs)
    case UnaryOp(inner) => ExprTakes(inner)
    case _ => {}
  }

  function ExprsTakes(es: seq<Expr>): set<string>
    decreases es
  {
    if es == [] then {} else ExprTakes(es[0]) + ExprsTakes(es[1..])
  }

  /** The ports a statement takes from or puts to, in any of its branches. */
  function StmtTouches(s: Stmt): set<string>
    decreases s
  {
    match s
    case Let(value) => ExprTakes(value)
    case ExprStmt(e) => ExprTakes(e)
    case Put(target, value) => {target} + ExprTakes(value)
    case If(cond, thenBody, elseBody) => ExprTakes(cond) + StmtsTouch(thenBody) + StmtsTouch(elseBody)
    case Match(scrutinee, arms, _) => ExprTakes(scrutinee) + ArmsTouch(arms)
  }

  function StmtsTouch(ss: seq<Stmt>): set<string>
    decreases ss
  {
    if ss == [] then {} else StmtTouches(ss[0]) + StmtsTouch(ss[1..])
  }

  function ArmsTouch(arms: seq<MatchArm>): set<string>
    decreases arms
  {
    if arms == [] then {} else StmtsTouch(arms[0].body) + ArmsTouch(arms[1..])
  }

  /** The edges behind the bound ones of some ports. */
  function EdgesOf(ports: set<string>, portMap: map<string, nat>): set<nat> {
    set p | p in ports && p in portMap :: portMap[p]
  }

  /** The accumulator the walkers fill. Only the part that decides conflicts is kept. */
  class RuleResources {
    var mutableEdges: set<nat>

    constructor ()
      ensures mutableEdges == {}
    {
      mutableEdges := {};
    }

    method Touch(port: string, portMap: map<string, nat>)
      modifies this
      ensures mutableEdges == old(mutableEdges) + EdgesOf({port}, portMap)
    {
      if port in portMap {
        mutableEdges := mutableEdges + {portMap[port]};
      }
    }

    method CollectExpr(e: Expr, portMap: map<string, nat>)
      modifies this
      ensures mutableEdges == old(mutableEdges) + EdgesOf(ExprTakes(e), portMap)
      decreases e
    {
      match e
      case Take(queue) => Touch(queue, portMap);
      case TryTake(queue) => Touch(queue, portMap);
      case FieldAccess(inner) => CollectExpr(inner, portMap);
      case Index(inner, index) =>
        CollectExpr(inner, portMap);
        CollectExpr(index, portMap);
      case Update(inner, index, value) =>
        CollectExpr(inner, portMap);
        CollectExpr(index, portMap);
        CollectExpr(value, portMap);
      case Tuple(items) => CollectExprs(items, portMap);
      case Record(fields) => CollectExprs(fields, portMap);
      case Call(args) => CollectExprs(args, portMap);
      case BitSlice(inner) => CollectExpr(inner, portMap);
      case BinOp(lhs, rhs) =>
        CollectExpr(lhs, portMap);
        CollectExpr(rhs, portMap);
      case UnaryOp(inner) => CollectExpr(inner, portMap);
      case _ =>
    }

    method CollectExprs(es: seq<Expr>, portMap: map<string, nat>)
      modifies this
      ensures mutableEdges == old(mutableEdges) + EdgesOf(ExprsTakes(es), portMap)
      decreases es
    {
      for i := 0 to |es|
        invariant mutableEdges + EdgesOf(ExprsTakes(es[i..]), portMap) == old(mutableEdges) + EdgesOf(ExprsTakes(es), portMap)
      {
        CollectExpr(es[i], portMap);
      }
    }

    method CollectStmt(s: Stmt, portMap: map<string, nat>)
      modifies this
      ensures mutableEdges == old(mutableEdges) + EdgesOf(StmtTouches(s), portMap)
      decreases s
    {
      match s
      case Let(value) => CollectExpr(value, portMap);
      case ExprStmt(e) => CollectExpr(e, portMap);
      case Put(target, value) =>
        Touch(target, portMap);
        CollectExpr(value, portMap);
      case If(cond, thenBody, elseBody) =>
        CollectExpr(cond, portMap);
        CollectStmts(thenBody, portMap);
        CollectStmts(elseBody, portMap);
      case Match(scrutinee, arms, _) =>
        CollectExpr(scrutinee, portMap);
        CollectArms(arms, portMap);
    }

    method CollectStmts(ss: seq<Stmt>, portMap: map<string, nat>)
      modifies this
      ensures mutableEdges == old(mutableEdges) + EdgesOf(StmtsTouch(ss), portMap)
      decreases ss
    {
      for i := 0 to |ss|
        invariant mutableEdges + EdgesOf(StmtsTouch(ss[i..]), portMap) == old(mutableEdges) + EdgesOf(StmtsTouch(ss), portMap)
      {
        CollectStmt(ss[i], portMap);
      }
    }

    method CollectArms(arms: seq<MatchArm>, portMap: map<string, nat>)
      modifies this
      ensures mutableEdges == old(mutableEdges) + EdgesOf(ArmsTouch(arms), portMap)
      decreases arms
    {
      for i := 0 to |arms|
        invariant mutableEdges + EdgesOf(ArmsTouch(arms[i..]), portMap) == old(mutableEdges) + EdgesOf(ArmsTouch(arms), portMap)
      {
        CollectStmts(arms[i].body, portMap);
      }
    }
  }

  predicate Does(t: Trace, port: string) {
    TakeOf(port) in t.all || PutOf(port) in t.all
  }

  ghost predicate SomePathDoes(paths: set<Trace>, port: string) {
    exists t | t in paths :: Does(t, port)
  }

  lemma {:induction false} ExprTakesAreExecuted(e: Expr, port: string)
    ensures port in ExprTakes(e) <==> TakeOf(port) in AllTakes(e)
    ensures PutOf(port) !in AllTakes(e)
    decreases e
  {
    match e
    case FieldAccess(inner) => ExprTakesAreExecuted(inner, port);
    case Index(inner, index) =>
      ExprTakesAreExecuted(inner, port);
      ExprTakesAreExecuted(index, port);
    case Update(inner, index, value) =>
      ExprTakesAreExecuted(inner, port);
      ExprTakesAreExecuted(index, port);
      ExprTakesAreExecuted(value, port);
    case Tuple(items) => ExprsTakesAreExecuted(items, port);
    case Record(fields) => ExprsTakesAreExecuted(fields, port);
    case Call(args) => ExprsTakesAreExecuted(args, port);
    case BitSlice(inner) => ExprTakesAreExecuted(inner, port);
    case BinOp(lhs, rhs) =>
      ExprTakesAreExecuted(lhs, port);
      ExprTakesAreExecuted(rhs, port);
    case UnaryOp(inner) => ExprTakesAreExecuted(inner, port);
    case _ =>
  }

  lemma {:induction false} ExprsTakesAreExecuted(es: seq<Expr>, port: string)
    ensures port in ExprsTakes(es) <==> TakeOf(port) in AllTakesOf(es)
    ensures PutOf(port) !in AllTakesOf(es)
    decreases es
  {
    if es != [] {
      ExprTakesAreExecuted(es[0], port);
      ExprsTakesAreExecuted(es[1..], port);
    }
  }

  lemma SequelDoes(a: set<Trace>, b: set<Trace>, port: string)
    requires a != {} && b != {}
    ensures SomePathDoes(Sequel(a, b), port) <==> SomePathDoes(a, port) || SomePathDoes(b, port)
  {
    forall p, q | p in a && q in b
      ensures p.Then(q) in Sequel(a, b)
      ensures Does(p.Then(q), port) <==> Does(p, port) || Does(q, port)
    {
    }
    var p0 :| p0 in a;
    var q0 :| q0 in b;
    if SomePathDoes(a, port) {
      var p :| p in a && Does(p, port);
      assert Does(p.Then(q0), port);
    } else if SomePathDoes(b, port) {
      var q :| q in b && Does(q, port);
      assert Does(p0.Then(q), port);
    }
  }

  lemma EitherDoes(a: set<Trace>, b: set<Trace>, port: string)
    ensures SomePathDoes(a + b, port) <==> SomePathDoes(a, port) || SomePathDoes(b, port)
  {
  }

  lemma OneDoes(t: Trace, port: string)
    ensures SomePathDoes({t}, port) <==> Does(t, port)
  {
  }

  lemma NoneDoes(port: string)
    ensures !SomePathDoes({}, port)
  {
  }

  /** The ports collected for a rule are exactly those some execution of the rule takes or puts. */
  lemma {:induction false} TouchedIffExecuted(ss: seq<Stmt>, port: string, falls: bool)
    ensures port in StmtsTouch(ss) <==> SomePathDoes(StmtsPaths(ss, falls), port)
    decreases ss, 0
  {
    hide SomePathDoes, Sequel;
    if ss == [] {
      OneDoes(NOTHING, port);
    } else {
      StmtTouchedIffExecuted(ss[0], port, falls);
      TouchedIffExecuted(ss[1..], port, falls);
      SequelDoes(StmtPaths(ss[0], falls), StmtsPaths(ss[1..], falls), port);
    }
  }

  /** So the edges a rule may mutate are exactly those bound to a port that some execution takes or puts. */
  lemma MutableEdgesAreExecuted(ss: seq<Stmt>, portMap: map<string, nat>, edge: nat, falls: bool)
    ensures edge in EdgesOf(StmtsTouch(ss), portMap) <==>
            exists port :: port in portMap && portMap[port] == edge && SomePathDoes(StmtsPaths(ss, falls), port)
  {
    hide SomePathDoes, StmtsTouch, StmtsPaths;
    forall port ensures port in StmtsTouch(ss) <==> SomePathDoes(StmtsPaths(ss, falls), port) {
      TouchedIffExecuted(ss, port, falls);
    }
  }

  lemma {:induction false} StmtTouchedIffExecuted(s: Stmt, port: string, falls: bool)
    ensures port in StmtTouches(s) <==> SomePathDoes(StmtPaths(s, falls), port)
    decreases s, 1
  {
    hide SomePathDoes, Sequel;
    match s
    case Let(value) =>
      ExprTakesAreExecuted(value, port);
      OneDoes(ExprTrace(value), port);
    case ExprStmt(e) =>
      ExprTakesAreExecuted(e, port);
      OneDoes(ExprTrace(e), port);
    case Put(target, value) =>
      ExprTakesAreExecuted(value, port);
      OneDoes(ExprTrace(value).Then(Trace([PutOf(target)], [PutOf(target)])), port);
    case If(cond, thenBody, elseBody) =>
      var t, f := StmtsPaths(thenBody, falls), StmtsPaths(elseBody, falls);
      ExprTakesAreExecuted(cond, port);
      OneDoes(ExprTrace(cond), port);
      TouchedIffExecuted(thenBody, port, falls);
      TouchedIffExecuted(elseBody, port, falls);
      EitherDoes(t, f, port);
      SequelDoes({ExprTrace(cond)}, t + f, port);
    case Match(scrutinee, arms, _) =>
      ExprTakesAreExecuted(scrutinee, port);
      OneDoes(ExprTrace(scrutinee), port);
      if arms != [] {
        ArmsTouchedIffExecuted(arms, port, falls);
        var none := if falls && !s.covers then {NOTHING} else {};
        OneDoes(NOTHING, port);
        NoneDoes(port);
        EitherDoes(ArmsPaths(arms, falls), none, port);
        SequelDoes({ExprTrace(scrutinee)}, ArmsPaths(arms, falls) + none, port);
      }
  }

  lemma {:induction false} ArmsTouchedIffExecuted(arms: seq<MatchArm>, port: string, falls: bool)
    ensures port in ArmsTouch(arms) <==> SomePathDoes(ArmsPaths(arms, falls), port)
    decreases arms, 0
  {
    if arms != [] {
      var init, last := arms[..|arms| - 1], arms[|arms| - 1];
      ArmsTouchedIffExecuted(init, port, falls);
      TouchedIffExecuted(last.body, port, falls);
      EitherDoes(ArmsPaths(init, falls), StmtsPaths(last.body, falls), port);
      ArmsTouchSnoc(init, last);
      assert arms == init + [last];
    }
  }

  lemma {:induction false} ArmsTouchSnoc(arms: seq<MatchArm>, last: MatchArm)
    ensures ArmsTouch(arms + [last]) == ArmsTouch(arms) + StmtsTouch(last.body)
  {
    if arms == [] {
      assert ([] + [last])[1..] == [];
      assert ArmsTouch([]) == {};
    } else {
      assert (arms + [last])[1..] == arms[1..] + [last];
      ArmsTouchSnoc(arms[1..], last);
    }
  }
}
