/** What the passes after the expansion of array ports make of an indexed access. */
module ExpandedAccess {
  import opened Ast
  import opened Linearity
  import Desugar
  import Expansion

  // ---------------------------------------------------------------------------
  // Expanded bodies as the analyses see them
  // ---------------------------------------------------------------------------

  /** `walked` tells the operators into which the linearity walk descends. */
  function LowerExpr(e: Desugar.Expr, walked: set<string>): Expr
    decreases e
  {
    match e
    case Lit(_) => Lit
    case Var(_) => Var
    case Op(op, args) => if op in walked then Call(LowerExprs(args, walked)) else Record(LowerExprs(args, walked))
    case Index(inner, index) => Index(LowerExpr(inner, walked), LowerExpr(index, walked))
    case Update(inner, operands) => Update(LowerExpr(inner, walked), Tuple(LowerExprs(operands, walked)), Lit)
    case MethodCall(_, _, _) => MethodCall
    case Take(q) => Take(q)
    case TryTake(q) => TryTake(q)
    case Peek(q) => Peek(q)
  }

  function LowerExprs(es: seq<Desugar.Expr>, walked: set<string>): seq<Expr>
    decreases es
  {
    if es == [] then [] else [LowerExpr(es[0], walked)] + LowerExprs(es[1..], walked)
  }

  /** Whether the arms of a match cover every value makes no difference here. */
  function LowerStmt(s: Desugar.Stmt, walked: set<string>): Stmt
    decreases s
  {
    match s
    case Let(_, value) => Let(LowerExpr(value, walked))
    case ExprStmt(e) => ExprStmt(LowerExpr(e, walked))
    case Put(target, value) => Put(target, LowerExpr(value, walked))
    case If(cond, thenBody, elseBody) => If(LowerExpr(cond, walked), LowerStmts(thenBody, walked), LowerStmts(elseBody, walked))
    case Match(scrutinee, arms) => Match(LowerExpr(scrutinee, walked), LowerArms(arms, walked), false)
  }

  function LowerStmts(ss: seq<Desugar.Stmt>, walked: set<string>): (r: seq<Stmt>)
    ensures |r| == |ss|
    decreases ss
  {
    if ss == [] then [] else [LowerStmt(ss[0], walked)] + LowerStmts(ss[1..], walked)
  }

  function LowerArms(arms: seq<Desugar.Arm>, walked: set<string>): (r: seq<MatchArm>)
    ensures |r| == |arms|
    ensures forall i | 0 <= i < |arms| :: r[i] == MatchArm(LowerStmts(arms[i].body, walked))
    decreases arms
  {
    if arms == [] then [] else [MatchArm(LowerStmts(arms[0].body, walked))] + LowerArms(arms[1..], walked)
  }

  /** The expanded program. */
  function Expanded(body: seq<Desugar.Stmt>, sizes: Desugar.Sizes, walked: set<string>): seq<Stmt> {
    LowerStmts(Desugar.DesugarStmts(body, sizes), walked)
  }

  // ---------------------------------------------------------------------------
  // Indexed accesses
  // ---------------------------------------------------------------------------

  /** `let p = a[index].take()`, or a `try_take` */
  predicate IsIndexedTake(s: Desugar.Stmt, a: string, sizes: Desugar.Sizes) {
    && s.Let? && s.value.MethodCall? && (s.value.m.TakeMethod? || s.value.m.TryTakeMethod?)
    && Desugar.IsElement(s.value.receiver, sizes) && s.value.receiver.inner.name == a
  }

  /** `a[index].put(value)` */
  predicate IsIndexedPut(s: Desugar.Stmt, a: string, sizes: Desugar.Sizes) {
    && s.ExprStmt? && s.expr.MethodCall? && s.expr.m.PutMethod? && |s.expr.args| == 1
    && Desugar.IsElement(s.expr.receiver, sizes) && s.expr.receiver.inner.name == a
  }

  /** Somewhere in the body, in whatever branch, is a statement with the property. */
  predicate HasStmt(ss: seq<Desugar.Stmt>, wanted: Desugar.Stmt -> bool)
    decreases ss
  {
    ss != [] && (wanted(ss[0]) || InStmt(ss[0], wanted) || HasStmt(ss[1..], wanted))
  }

  predicate InStmt(s: Desugar.Stmt, wanted: Desugar.Stmt -> bool)
    decreases s
  {
    match s
    case If(_, thenBody, elseBody) => HasStmt(thenBody, wanted) || HasStmt(elseBody, wanted)
    case Match(_, arms) => InArms(arms, wanted)
    case _ => false
  }

  predicate InArms(arms: seq<Desugar.Arm>, wanted: Desugar.Stmt -> bool)
    decreases arms
  {
    arms != [] && (HasStmt(arms[0].body, wanted) || InArms(arms[1..], wanted))
  }

  // ---------------------------------------------------------------------------
  // Arrays of cells
  // ---------------------------------------------------------------------------

  /** The problems the walk sees at one cell in a list of statements. */
  function Complaints(ss: seq<Stmt>, cell: string, st: CellState): set<Problem> {
    StmtsOutcome(ss, cell, st).problems
  }

  lemma {:induction false} ArmComplains(arms: seq<MatchArm>, cell: string, st: CellState, i: nat)
    requires i < |arms|
    ensures Complaints(arms[i].body, cell, st) <= ArmsProblems(arms, cell, st)
    ensures StmtsOutcome(arms[i].body, cell, st).state != StmtsOutcome(arms[0].body, cell, st).state ==> ArmsDisagree(arms, cell, st)
    decreases |arms|
  {
    if i < |arms| - 1 {
      ArmComplains(arms[..|arms| - 1], cell, st, i);
      assert arms[..|arms| - 1][i] == arms[i] && arms[..|arms| - 1][0] == arms[0];
    }
  }

  /** Two arms that differ about a cell, or one that is complained about. */
  lemma ArmsDiffer(arms: seq<MatchArm>, cell: string, st: CellState, i: nat, j: nat)
    requires i < |arms| && j < |arms|
    requires StmtsOutcome(arms[i].body, cell, st).state != StmtsOutcome(arms[j].body, cell, st).state
             || Complaints(arms[i].body, cell, st) != {}
    ensures ArmsOutcome(arms, cell, st).problems != {}
  {
    ArmComplains(arms, cell, st, i);
    ArmComplains(arms, cell, st, j);
    if ArmsDisagree(arms, cell, st) {
      assert Inconsistent in ArmsOutcome(arms, cell, st).problems;
    } else {
      var p :| p in Complaints(arms[i].body, cell, st);
      assert p in ArmsOutcome(arms, cell, st).problems;
    }
  }

  function Another(k: nat): nat {
    if k == 0 then 1 else 0
  }

  lemma OneStatement(s: Stmt, cell: string, st: CellState)
    ensures StmtsOutcome([s], cell, st) == StmtOutcome(s, cell, st)
  {
    var o := StmtOutcome(s, cell, st);
    assert StmtsOutcome([s][1..], cell, o.state) == Outcome(o.state, {});
  }

  /** A take, or a put, of the one cell, in an arm of a match; the other arm leaves the cell alone. */
  lemma TakeOrPutDiffers(s: Stmt, t: Stmt, cell: string, st: CellState)
    requires || (s.Let? && t.Let? && s.value in {Take(cell), TryTake(cell)} && ExprOutcome(t.value, cell, st) == Outcome(st, {}))
             || (s.Put? && t.Put? && s.target == cell != t.target && s.value == t.value)
    ensures StmtsOutcome([s], cell, st).state != StmtsOutcome([t], cell, st).state || Complaints([s], cell, st) != {}
  {
    OneStatement(s, cell, st);
    OneStatement(t, cell, st);
    hide StmtsOutcome;
    if s.Let? {
      assert OnTake(st).state == st ==> OnTake(st).problems != {};
    } else {
      var o := ExprOutcome(s.value, cell, st);
      assert OnPut(o.state).state == o.state ==> OnPut(o.state).problems != {};
      assert OnPut(o.state).problems <= StmtOutcome(s, cell, st).problems;
    }
  }

  /** The expansion of an access to one of at least two cells is complained about, whatever state the walk has
      for the cell. */
  lemma AccessComplains(s: Desugar.Stmt, a: string, sizes: Desugar.Sizes, walked: set<string>, k: nat, st: CellState)
    requires IsIndexedTake(s, a, sizes) || IsIndexedPut(s, a, sizes)
    requires k < sizes[a] && sizes[a] >= 2
    ensures StmtOutcome(LowerStmt(Desugar.DesugarStmt(s, sizes), walked), Desugar.ElementName(a, k), st).problems != {}
  {
    var j := Another(k);
    var m := Desugar.DesugarStmt(s, sizes);
    var cell := Desugar.ElementName(a, k);
    OtherName(a, k, j);
    ArmsOfAccess(s, a, sizes, walked, k);
    ArmsOfAccess(s, a, sizes, walked, j);
    hide Desugar.ElementName, Desugar.DesugarExpr, LowerExpr, LowerStmt, Desugar.DesugarStmt, StmtsOutcome,
         StmtOutcome, ArmsOutcome, ExprOutcome;
    var lowered := LowerStmt(m, walked);
    var from := ExprOutcome(lowered.scrutinee, cell, st).state;
    TakeOrPutDiffers(Access(s, a, sizes, walked, k), Access(s, a, sizes, walked, j), cell, from);
    ArmsDiffer(lowered.arms, cell, from, k, j);
    ArmsCount(lowered, cell, st);
  }

  lemma ArmsCount(s: Stmt, cell: string, st: CellState)
    requires s.Match? && s.arms != []
    ensures ArmsOutcome(s.arms, cell, ExprOutcome(s.scrutinee, cell, st).state).problems <= StmtOutcome(s, cell, st).problems
  {
  }

  function Access(s: Desugar.Stmt, a: string, sizes: Desugar.Sizes, walked: set<string>, k: nat): Stmt
    requires IsIndexedTake(s, a, sizes) || IsIndexedPut(s, a, sizes)
  {
    if s.ExprStmt? then Put(Desugar.ElementName(a, k), LowerExpr(Desugar.DesugarExpr(s.expr.args[0]), walked))
    else Let(if s.value.m.TakeMethod? then Take(Desugar.ElementName(a, k)) else TryTake(Desugar.ElementName(a, k)))
  }

  lemma LowerRead(m: Desugar.Method, q: string, walked: set<string>)
    ensures m.TakeMethod? ==> LowerExpr(Desugar.ReadOf(m, q), walked) == Take(q)
    ensures m.TryTakeMethod? ==> LowerExpr(Desugar.ReadOf(m, q), walked) == TryTake(q)
  {
  }

  lemma ArmsOfAccess(s: Desugar.Stmt, a: string, sizes: Desugar.Sizes, walked: set<string>, k: nat)
    requires IsIndexedTake(s, a, sizes) || IsIndexedPut(s, a, sizes)
    requires k < sizes[a]
    ensures var m := LowerStmt(Desugar.DesugarStmt(s, sizes), walked);
            m.Match? && |m.arms| == sizes[a] && m.arms[k].body == [Access(s, a, sizes, walked, k)]
  {
    hide Desugar.ElementName, Desugar.DesugarExpr, LowerExpr;
    var d := Desugar.DesugarStmt(s, sizes);
    var body := d.arms[k].body;
    assert |body| == 1 && body[1..] == [];
    assert LowerStmts(body, walked) == [LowerStmt(body[0], walked)] + LowerStmts(body[1..], walked);
    if s.Let? {
      LowerRead(s.value.m, Desugar.ElementName(a, k), walked);
    }
  }

  lemma OtherName(a: string, k: nat, j: nat)
    requires k != j
    ensures Desugar.ElementName(a, k) != Desugar.ElementName(a, j)
  {
    if Desugar.ElementName(a, k) == Desugar.ElementName(a, j) {
      Desugar.NameInjective(a, k, a, j);
    }
  }

  /** Every complaint inside a body is made about the body. */
  lemma {:induction false} BodyComplains(ss: seq<Desugar.Stmt>, wanted: Desugar.Stmt -> bool, sizes: Desugar.Sizes,
                                         walked: set<string>, cell: string, st: CellState)
    requires HasStmt(ss, wanted)
    requires forall s, from: CellState | wanted(s) ::
               StmtOutcome(LowerStmt(Desugar.DesugarStmt(s, sizes), walked), cell, from).problems != {}
    ensures Complaints(Expanded(ss, sizes, walked), cell, st) != {}
    decreases ss
  {
    hide Desugar.DesugarStmt, LowerStmt, StmtOutcome;
    var o := StmtOutcome(LowerStmt(Desugar.DesugarStmt(ss[0], sizes), walked), cell, st);
    if wanted(ss[0]) {
    } else if InStmt(ss[0], wanted) {
      StmtComplains(ss[0], wanted, sizes, walked, cell, st);
    } else {
      BodyComplains(ss[1..], wanted, sizes, walked, cell, o.state);
    }
  }

  lemma {:induction false} StmtComplains(s: Desugar.Stmt, wanted: Desugar.Stmt -> bool, sizes: Desugar.Sizes,
                                         walked: set<string>, cell: string, st: CellState)
    requires InStmt(s, wanted)
    requires forall t, from: CellState | wanted(t) ::
               StmtOutcome(LowerStmt(Desugar.DesugarStmt(t, sizes), walked), cell, from).problems != {}
    ensures StmtOutcome(LowerStmt(Desugar.DesugarStmt(s, sizes), walked), cell, st).problems != {}
    decreases s
  {
    match s
    case If(cond, thenBody, elseBody) =>
      hide StmtOutcome, LowerStmt, Desugar.DesugarStmt;
      var from := ExprOutcome(LowerExpr(Desugar.DesugarExpr(cond), walked), cell, st).state;
      IfComplains(s, sizes, walked, cell, st);
      if HasStmt(thenBody, wanted) {
        BodyComplains(thenBody, wanted, sizes, walked, cell, from);
      } else {
        BodyComplains(elseBody, wanted, sizes, walked, cell, from);
      }
    case Match(scrutinee, arms) =>
      hide StmtOutcome, LowerStmt, Desugar.DesugarStmt;
      MatchComplains(s, sizes, walked, cell, st);
      ArmsComplain(arms, wanted, sizes, walked, cell, ExprOutcome(LowerExpr(Desugar.DesugarExpr(scrutinee), walked), cell, st).state);
    case _ =>
  }

  lemma IfComplains(s: Desugar.Stmt, sizes: Desugar.Sizes, walked: set<string>, cell: string, st: CellState)
    requires s.If?
    ensures var from := ExprOutcome(LowerExpr(Desugar.DesugarExpr(s.cond), walked), cell, st).state;
            Complaints(Expanded(s.thenBody, sizes, walked), cell, from) + Complaints(Expanded(s.elseBody, sizes, walked), cell, from)
            <= StmtOutcome(LowerStmt(Desugar.DesugarStmt(s, sizes), walked), cell, st).problems
  {
    hide Desugar.DesugarExpr, LowerExpr, Desugar.DesugarStmts, LowerStmts, StmtsOutcome;
  }

  lemma MatchComplains(s: Desugar.Stmt, sizes: Desugar.Sizes, walked: set<string>, cell: string, st: CellState)
    requires s.Match?
    ensures var from := ExprOutcome(LowerExpr(Desugar.DesugarExpr(s.scrutinee), walked), cell, st).state;
            ArmsProblems(LowerArms(Desugar.DesugarArms(s.arms, sizes), walked), cell, from)
            <= StmtOutcome(LowerStmt(Desugar.DesugarStmt(s, sizes), walked), cell, st).problems
  {
    hide Desugar.DesugarExpr, LowerExpr, Desugar.DesugarArms, LowerArms, StmtsOutcome, ArmsDisagree;
  }

  lemma {:induction false} ArmsComplain(arms: seq<Desugar.Arm>, wanted: Desugar.Stmt -> bool, sizes: Desugar.Sizes,
                                        walked: set<string>, cell: string, st: CellState)
    requires InArms(arms, wanted)
    requires forall s, from: CellState | wanted(s) ::
               StmtOutcome(LowerStmt(Desugar.DesugarStmt(s, sizes), walked), cell, from).problems != {}
    ensures ArmsProblems(LowerArms(Desugar.DesugarArms(arms, sizes), walked), cell, st) != {}
    decreases arms
  {
    var i := ArmWith(arms, wanted);
    hide Desugar.DesugarStmts, LowerStmts, StmtsOutcome, InArms, HasStmt, StmtOutcome, LowerStmt, Desugar.DesugarStmt;
    BodyComplains(arms[i].body, wanted, sizes, walked, cell, st);
    ArmBodies(arms, sizes, i);
    ArmComplains(LowerArms(Desugar.DesugarArms(arms, sizes), walked), cell, st, i);
  }

  lemma {:induction false} ArmWith(arms: seq<Desugar.Arm>, wanted: Desugar.Stmt -> bool) returns (i: nat)
    requires InArms(arms, wanted)
    ensures i < |arms| && HasStmt(arms[i].body, wanted)
    decreases |arms|
  {
    if HasStmt(arms[0].body, wanted) {
      i := 0;
    } else {
      var j := ArmWith(arms[1..], wanted);
      i := j + 1;
    }
  }

  lemma {:induction false} ArmBodies(arms: seq<Desugar.Arm>, sizes: Desugar.Sizes, i: nat)
    requires i < |arms|
    ensures Desugar.DesugarArms(arms, sizes)[i].body == Desugar.DesugarStmts(arms[i].body, sizes)
    decreases |arms|
  {
    hide Desugar.DesugarStmts;
    if i > 0 {
      ArmBodies(arms[1..], sizes, i - 1);
    }
  }

  /** No array of two or more cells can be taken from or put to by index: wherever in a rule the access stands,
      and whatever the index, the expanded rule is complained about for every one of the cells. */
  lemma IndexedCellIsRejected(body: seq<Desugar.Stmt>, a: string, sizes: Desugar.Sizes, walked: set<string>, k: nat)
    requires a in sizes && sizes[a] >= 2 && k < sizes[a]
    requires HasStmt(body, s => IsIndexedTake(s, a, sizes) || IsIndexedPut(s, a, sizes))
    ensures RuleOutcome(Expanded(body, sizes, walked), Desugar.ElementName(a, k)).problems != {}
  {
    var wanted := s => IsIndexedTake(s, a, sizes) || IsIndexedPut(s, a, sizes);
    var cell := Desugar.ElementName(a, k);
    forall s, from: CellState | wanted(s)
      ensures StmtOutcome(LowerStmt(Desugar.DesugarStmt(s, sizes), walked), cell, from).problems != {}
    {
      AccessComplains(s, a, sizes, walked, k, from);
    }
    BodyComplains(body, wanted, sizes, walked, cell, Untouched);
  }

  /** `let p = a[i].take()  a[i].put(0)` */
  function TakeThenPut(a: string, i: nat, p: Desugar.Pattern): seq<Desugar.Stmt> {
    var element := Desugar.Index(Desugar.Var(a), Desugar.Lit(i));
    [Desugar.Let(p, Desugar.MethodCall(element, Desugar.TakeMethod, [])),
     Desugar.ExprStmt(Desugar.MethodCall(element, Desugar.PutMethod, [Desugar.Lit(0)]))]
  }

  /** A match with one arm. */
  lemma OnlyArm(s: Stmt, access: Stmt, cell: string, st: CellState)
    requires s.Match? && s.scrutinee.Lit? && |s.arms| == 1 && s.arms[0].body == [access]
    ensures StmtOutcome(s, cell, st).state == StmtOutcome(access, cell, st).state
    ensures StmtOutcome(s, cell, st).problems == StmtOutcome(access, cell, st).problems
  {
    OneStatement(access, cell, st);
    var last := |s.arms| - 1;
    assert s.arms[..last] == [];
    assert ArmsProblems(s.arms, cell, st) == ArmsProblems(s.arms[..last], cell, st) + StmtsOutcome(s.arms[last].body, cell, st).problems;
    assert ArmsProblems([], cell, st) == {};
    assert ArmsOutcome(s.arms, cell, st).problems == StmtOutcome(access, cell, st).problems;
  }

  lemma OneElement(i: nat, a: string, sizes: Desugar.Sizes, walked: set<string>, st: CellState)
    requires i < 2 && a in sizes && sizes[a] == 1
    ensures var s := TakeThenPut(a, 0, Desugar.Wildcard)[i];
            var o := StmtOutcome(LowerStmt(Desugar.DesugarStmt(s, sizes), walked), Desugar.ElementName(a, 0), st);
            o == if i == 0 then OnTake(st) else OnPut(st)
  {
    var s := TakeThenPut(a, 0, Desugar.Wildcard)[i];
    var access := Access(s, a, sizes, walked, 0);
    ArmsOfAccess(s, a, sizes, walked, 0);
    assert LowerStmt(Desugar.DesugarStmt(s, sizes), walked).scrutinee == Lit;
    OnlyArm(LowerStmt(Desugar.DesugarStmt(s, sizes), walked), access, Desugar.ElementName(a, 0), st);
    hide Desugar.ElementName;
    assert StmtOutcome(access, Desugar.ElementName(a, 0), st) == if i == 0 then OnTake(st) else OnPut(st);
  }

  /** So a rule that takes a cell by index and puts it back is accepted exactly when the array has one. */
  lemma TakeThenPutIsAcceptedIff(a: string, sizes: Desugar.Sizes, walked: set<string>)
    requires a in sizes && sizes[a] > 0
    ensures (forall k: nat | k < sizes[a] ::
               RuleOutcome(Expanded(TakeThenPut(a, 0, Desugar.Wildcard), sizes, walked), Desugar.ElementName(a, k)).problems == {})
            <==> sizes[a] == 1
  {
    var body := TakeThenPut(a, 0, Desugar.Wildcard);
    if sizes[a] == 1 {
      OneElement(0, a, sizes, walked, Untouched);
      OneElement(1, a, sizes, walked, Taken);
      ExpandedAt(body, sizes, walked);
      TwoStatements(Expanded(body, sizes, walked), Desugar.ElementName(a, 0));
    } else {
      IndexedCellIsRejected(body, a, sizes, walked, 0);
    }
  }

  lemma ExpandedAt(body: seq<Desugar.Stmt>, sizes: Desugar.Sizes, walked: set<string>)
    requires |body| == 2
    ensures Expanded(body, sizes, walked) == [LowerStmt(Desugar.DesugarStmt(body[0], sizes), walked),
                                              LowerStmt(Desugar.DesugarStmt(body[1], sizes), walked)]
  {
    hide Desugar.DesugarStmt, LowerStmt;
    hide Desugar.DesugarStmts, LowerStmts;
    TwoDesugared(body, sizes);
    TwoLowered(Desugar.DesugarStmts(body, sizes), walked);
  }

  lemma TwoDesugared(body: seq<Desugar.Stmt>, sizes: Desugar.Sizes)
    requires |body| == 2
    ensures Desugar.DesugarStmts(body, sizes) == [Desugar.DesugarStmt(body[0], sizes), Desugar.DesugarStmt(body[1], sizes)]
  {
    hide Desugar.DesugarStmt;
    assert body[1..] == [body[1]] && body[1..][1..] == [];
    assert Desugar.DesugarStmts(body[1..], sizes) == [Desugar.DesugarStmt(body[1], sizes)] + Desugar.DesugarStmts(body[1..][1..], sizes);
  }

  lemma TwoLowered(ss: seq<Desugar.Stmt>, walked: set<string>)
    requires |ss| == 2
    ensures LowerStmts(ss, walked) == [LowerStmt(ss[0], walked), LowerStmt(ss[1], walked)]
  {
    hide LowerStmt;
    assert ss[1..] == [ss[1]] && ss[1..][1..] == [];
    assert LowerStmts(ss[1..], walked) == [LowerStmt(ss[1], walked)] + LowerStmts(ss[1..][1..], walked);
  }

  lemma TwoStatements(ss: seq<Stmt>, cell: string)
    requires |ss| == 2
    ensures var first := StmtOutcome(ss[0], cell, Untouched);
            StmtsOutcome(ss, cell, Untouched) == first.Then(StmtOutcome(ss[1], cell, first.state))
  {
    hide StmtOutcome;
    var o := StmtOutcome(ss[0], cell, Untouched);
    OneStatement(ss[1], cell, o.state);
    assert ss[1..] == [ss[1]];
  }

  // ---------------------------------------------------------------------------
  // Arrays of queues
  // ---------------------------------------------------------------------------

  /** The ports an expression takes from and waits for. */
  function ExprWaits(e: Expr): set<string>
    decreases e
  {
    match e
    case Take(q) => {q}
    case FieldAccess(inner) => ExprWaits(inner)
    case Index(inner, index) => ExprWaits(inner) + ExprWaits(index)
    case Update(inner, index, value) => ExprWaits(inner) + ExprWaits(index) + ExprWaits(value)
    case Tuple(items) => ExprsWait(items)
    case Record(fields) => ExprsWait(fields)
    case Call(args) => ExprsWait(args)
    case BitSlice(inner) => ExprWaits(inner)
    case BinOp(lhs, rhs) => ExprWaits(lhs) + ExprWaits(rhs)
    case UnaryOp(inner) => ExprWaits(inner)
    case _ => {}
  }

  function ExprsWait(es: seq<Expr>): set<string>
    decreases es
  {
    if es == [] then {} else ExprWaits(es[0]) + ExprsWait(es[1..])
  }

  /** The blocking takes of a statement, in any of its branches. */
  function StmtWaits(s: Stmt): set<string>
    decreases s
  {
    match s
    case Let(value) => ExprWaits(value)
    case Put(_, value) => ExprWaits(value)
    case ExprStmt(e) => ExprWaits(e)
    case If(cond, thenBody, elseBody) => ExprWaits(cond) + StmtsWait(thenBody) + StmtsWait(elseBody)
    case Match(scrutinee, arms, _) => ExprWaits(scrutinee) + ArmsWait(arms)
  }

  function StmtsWait(ss: seq<Stmt>): set<string>
    decreases ss
  {
    if ss == [] then {} else StmtWaits(ss[0]) + StmtsWait(ss[1..])
  }

  function ArmsWait(arms: seq<MatchArm>): set<string>
    decreases arms
  {
    if arms == [] then {} else StmtsWait(arms[0].body) + ArmsWait(arms[1..])
  }

  lemma {:induction false} ArmWaits(arms: seq<MatchArm>, i: nat)
    requires i < |arms|
    ensures StmtsWait(arms[i].body) <= ArmsWait(arms)
    decreases |arms|
  {
    if i > 0 {
      ArmWaits(arms[1..], i - 1);
    }
  }

  predicate IsBlockingTake(s: Desugar.Stmt, a: string, sizes: Desugar.Sizes) {
    IsIndexedTake(s, a, sizes) && s.value.m.TakeMethod?
  }

  lemma TakeWaits(s: Desugar.Stmt, a: string, sizes: Desugar.Sizes, walked: set<string>, k: nat)
    requires IsBlockingTake(s, a, sizes) && k < sizes[a]
    ensures Desugar.ElementName(a, k) in StmtWaits(LowerStmt(Desugar.DesugarStmt(s, sizes), walked))
  {
    ArmsOfAccess(s, a, sizes, walked, k);
    var m := LowerStmt(Desugar.DesugarStmt(s, sizes), walked);
    ArmWaits(m.arms, k);
    hide Desugar.ElementName, Desugar.DesugarStmt, LowerStmt;
    assert StmtsWait(m.arms[k].body) == StmtWaits(Access(s, a, sizes, walked, k)) + StmtsWait(m.arms[k].body[1..]);
  }

  lemma {:induction false} BodyWaits(ss: seq<Desugar.Stmt>, a: string, sizes: Desugar.Sizes, walked: set<string>, k: nat)
    requires HasStmt(ss, s => IsBlockingTake(s, a, sizes)) && a in sizes && k < sizes[a]
    ensures Desugar.ElementName(a, k) in StmtsWait(Expanded(ss, sizes, walked))
    decreases ss
  {
    hide Desugar.DesugarStmt, LowerStmt, StmtWaits, Desugar.ElementName;
    if IsBlockingTake(ss[0], a, sizes) {
      TakeWaits(ss[0], a, sizes, walked, k);
    } else if InStmt(ss[0], s => IsBlockingTake(s, a, sizes)) {
      BranchWaits(ss[0], a, sizes, walked, k);
    } else {
      BodyWaits(ss[1..], a, sizes, walked, k);
    }
  }

  lemma {:induction false} BranchWaits(s: Desugar.Stmt, a: string, sizes: Desugar.Sizes, walked: set<string>, k: nat)
    requires InStmt(s, t => IsBlockingTake(t, a, sizes)) && a in sizes && k < sizes[a]
    ensures Desugar.ElementName(a, k) in StmtWaits(LowerStmt(Desugar.DesugarStmt(s, sizes), walked))
    decreases s
  {
    hide Desugar.DesugarExpr, LowerExpr, Desugar.DesugarStmts, LowerStmts, StmtsWait, Desugar.ElementName;
    match s
    case If(cond, thenBody, elseBody) =>
      if HasStmt(thenBody, t => IsBlockingTake(t, a, sizes)) {
        BodyWaits(thenBody, a, sizes, walked, k);
      } else {
        BodyWaits(elseBody, a, sizes, walked, k);
      }
    case Match(scrutinee, arms) =>
      var i := ArmWith(arms, t => IsBlockingTake(t, a, sizes));
      BodyWaits(arms[i].body, a, sizes, walked, k);
      ArmBodies(arms, sizes, i);
      ArmWaits(LowerArms(Desugar.DesugarArms(arms, sizes), walked), i);
    case _ =>
  }

  /** `let p = a[index].try_take()`, or a `peek` */
  predicate IsTryOrPeek(s: Desugar.Stmt, a: string, sizes: Desugar.Sizes) {
    && s.Let? && s.value.MethodCall? && (s.value.m.TryTakeMethod? || s.value.m.PeekMethod?)
    && Desugar.IsElement(s.value.receiver, sizes) && s.value.receiver.inner.name == a
  }

  lemma {:induction false} NoArmWaits(arms: seq<MatchArm>)
    requires forall i | 0 <= i < |arms| :: StmtsWait(arms[i].body) == {}
    ensures ArmsWait(arms) == {}
    decreases |arms|
  {
    if arms != [] {
      NoArmWaits(arms[1..]);
    }
  }

  lemma ReadArm(m: Desugar.Method, q: string, p: Desugar.Pattern, walked: set<string>)
    requires m.TryTakeMethod? || m.PeekMethod?
    ensures StmtsWait(LowerStmts([Desugar.Let(p, Desugar.ReadOf(m, q))], walked)) == {}
  {
    var let := Desugar.Let(p, Desugar.ReadOf(m, q));
    assert [let][1..] == [];
    assert LowerStmts([let], walked) == [LowerStmt(let, walked)];
    var lowered := LowerStmt(let, walked);
    assert StmtsWait([lowered]) == StmtWaits(lowered) + StmtsWait([lowered][1..]);
  }

  /** An indexed try_take or peek waits for no element: only its index may hold takes to wait for. */
  lemma TryTakeWaitsForNothing(s: Desugar.Stmt, a: string, sizes: Desugar.Sizes, walked: set<string>)
    requires IsTryOrPeek(s, a, sizes)
    ensures StmtWaits(LowerStmt(Desugar.DesugarStmt(s, sizes), walked))
            == ExprWaits(LowerExpr(Desugar.DesugarExpr(s.value.receiver.index), walked))
  {
    hide Desugar.DesugarExpr, LowerExpr, ExprWaits, Desugar.ElementName;
    var d := Desugar.DesugarStmt(s, sizes);
    forall i | 0 <= i < |d.arms| ensures StmtsWait(LowerStmts(d.arms[i].body, walked)) == {} {
      ReadArm(s.value.m, Desugar.ElementName(a, i), s.pattern, walked);
    }
    NoArmWaits(LowerArms(d.arms, walked));
  }

  /** The elements a rule waits for. */
  function Awaited(takes: set<string>, store: Expansion.Store): set<Expansion.Ref> {
    set r | r in store && Expansion.Renamed(r).name in takes
  }

  /** What the emitted rule does to the queues it takes from: it is enabled when each of them has a word, and
      then takes one from each, whichever branch runs. */
  predicate Enabled(awaited: set<Expansion.Ref>, store: Expansion.Store) {
    forall r | r in awaited && r in store :: store[r] != []
  }

  function Fired(awaited: set<Expansion.Ref>, store: Expansion.Store): Expansion.Store {
    map r | r in store :: if r in awaited && store[r] != [] then store[r][1..] else store[r]
  }

  /** An indexed take from an array of queues, anywhere in a rule, makes the rule wait for all of them, and
      firing takes a word from all of them. */
  lemma IndexedTakeDrainsArray(body: seq<Desugar.Stmt>, a: string, sizes: Desugar.Sizes, walked: set<string>,
                               store: Expansion.Store, k: nat)
    requires HasStmt(body, s => IsBlockingTake(s, a, sizes)) && a in sizes && k < sizes[a] && Expansion.Element(a, k) in store
    ensures var awaited := Awaited(StmtsWait(Expanded(body, sizes, walked)), store);
            Enabled(awaited, store) ==>
              var word := store[Expansion.Element(a, k)];
              word != [] && Fired(awaited, store)[Expansion.Element(a, k)] == word[1..]
  {
    BodyWaits(body, a, sizes, walked, k);
    hide Expanded, StmtsWait;
    assert Expansion.Element(a, k) in Awaited(StmtsWait(Expanded(body, sizes, walked)), store);
  }

  /** The array's queues and no other port. */
  ghost predicate IsArray(store: Expansion.Store, a: string, n: nat) {
    forall r :: r in store <==> r.Element? && r.a == a && r.i < n
  }

  /** The emitted rule and the indexed one are enabled together, and end with the same words. */
  ghost predicate CycleAgrees(ops: Expansion.Ops, s: Desugar.Stmt, sizes: Desugar.Sizes, walked: set<string>, store: Expansion.Store) {
    var run := Expansion.Exec(ops, s, map[], store);
    var awaited := Awaited(StmtsWait(Expanded([s], sizes, walked)), store);
    && (run.Done? <==> Enabled(awaited, store))
    && (run.Done? ==> run.store == Fired(awaited, store))
  }

  function TakeAt(a: string, i: nat, x: string): Desugar.Stmt {
    Desugar.Let(Desugar.BindPattern(x), Desugar.MethodCall(Desugar.Index(Desugar.Var(a), Desugar.Lit(i)), Desugar.TakeMethod, []))
  }

  /** The indexed run: the selected queue gives its first word. */
  lemma TakeAtRuns(ops: Expansion.Ops, a: string, i: nat, x: string, store: Expansion.Store)
    requires Expansion.Element(a, i) in store
    ensures var run := Expansion.Exec(ops, TakeAt(a, i, x), map[], store);
            var r := Expansion.Element(a, i);
            && (run.Done? <==> store[r] != [])
            && (run.Done? ==> run.store == store[r := store[r][1..]])
  {
    assert Expansion.Eval(ops, Desugar.Lit(i), map[], store) == Expansion.Done(Expansion.Num(i), store);
    hide Expansion.Eval;
  }

  lemma HasTakeAt(a: string, i: nat, x: string, sizes: Desugar.Sizes)
    requires a in sizes
    ensures HasStmt([TakeAt(a, i, x)], s => IsBlockingTake(s, a, sizes))
  {
  }

  /** So a rule that takes one element of an array of queues behaves as written, whatever they hold, exactly when
      the array has one. */
  lemma IndexedTakeAgreesIff(ops: Expansion.Ops, a: string, i: nat, x: string, sizes: Desugar.Sizes, walked: set<string>)
    requires a in sizes && i < sizes[a]
    ensures (forall store | IsArray(store, a, sizes[a]) :: CycleAgrees(ops, TakeAt(a, i, x), sizes, walked, store))
            <==> sizes[a] == 1
  {
    hide Expansion.Exec, Expanded, StmtsWait, Desugar.ElementName;
    var n := sizes[a];
    HasTakeAt(a, i, x, sizes);
    forall store, k: nat | IsArray(store, a, n) && k < n
      ensures Expansion.Element(a, k) in Awaited(StmtsWait(Expanded([TakeAt(a, i, x)], sizes, walked)), store)
    {
      BodyWaits([TakeAt(a, i, x)], a, sizes, walked, k);
    }
    if n == 1 {
      forall store | IsArray(store, a, n) ensures CycleAgrees(ops, TakeAt(a, i, x), sizes, walked, store) {
        TakeAtRuns(ops, a, i, x, store);
        assert Expansion.Element(a, 0) in store;
      }
    } else {
      var refs := set k | 0 <= k < n :: Expansion.Element(a, k);
      var store: Expansion.Store := map r | r in refs :: if r == Expansion.Element(a, i) then [Expansion.NoneValue] else [];
      TakeAtRuns(ops, a, i, x, store);
      assert IsArray(store, a, n);
      assert store[Expansion.Element(a, Another(i))] == [];
      assert !CycleAgrees(ops, TakeAt(a, i, x), sizes, walked, store);
    }
  }
}
