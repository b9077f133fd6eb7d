/** The linear-cell check, against the executions of the rule it checks. */
module Linearity {
  import opened Ast

  datatype CellState = Untouched | Taken | PutBack

  datatype Problem = TakenTwice | TakenAfterPut | PutUntaken | PutTwice | Inconsistent | NotPutBack

  /** A complaint about one cell; its position in the source text is dropped. */
  datatype Diagnostic = Diagnostic(cell: string, problem: Problem)

  // ---------------------------------------------------------------------------
  // What the linearity check does to one cell
  // ---------------------------------------------------------------------------

  datatype Outcome = Outcome(state: CellState, problems: set<Problem>) {
    function Then(next: Outcome): Outcome {
      Outcome(next.state, problems + next.problems)
    }
  }

  function OnTake(st: CellState): Outcome {
    match st
    case Untouched => Outcome(Taken, {})
    case Taken => Outcome(st, {TakenTwice})
    case PutBack => Outcome(st, {TakenAfterPut})
  }

  function OnPut(st: CellState): Outcome {
    match st
    case Untouched => Outcome(st, {PutUntaken})
    case Taken => Outcome(PutBack, {})
    case PutBack => Outcome(st, {PutTwice})
  }

  function ExprOutcome(e: Expr, cell: string, st: CellState): Outcome
    decreases e
  {
    match e
    case Take(q) => if q == cell then OnTake(st) else Outcome(st, {})
    case TryTake(q) => if q == cell then OnTake(st) else Outcome(st, {})
    case BinOp(lhs, rhs) =>
      var l := ExprOutcome(lhs, cell, st);
      l.Then(ExprOutcome(rhs, cell, l.state))
    case UnaryOp(inner) => ExprOutcome(inner, cell, st)
    case Call(args) => ExprsOutcome(args, cell, st)
    case Tuple(items) => ExprsOutcome(items, cell, st)
    case _ => Outcome(st, {})
  }

  function ExprsOutcome(es: seq<Expr>, cell: string, st: CellState): Outcome
    decreases es
  {
    if es == [] then Outcome(st, {})
    else
      var o := ExprOutcome(es[0], cell, st);
      o.Then(ExprsOutcome(es[1..], cell, o.state))
  }

  function Disagreement(disagree: bool): set<Problem> {
    if disagree then {Inconsistent} else {}
  }

  /** The branches of an `if`: both must leave the cell alike, and the first one's state is kept. */
  function Join(t: Outcome, f: Outcome): Outcome {
    Outcome(t.state, t.problems + f.problems + Disagreement(t.state != f.state))
  }

  function StmtOutcome(s: Stmt, cell: string, st: CellState): Outcome
    decreases s
  {
    match s
    case Let(value) => ExprOutcome(value, cell, st)
    case ExprStmt(e) => ExprOutcome(e, cell, st)
    case Put(target, value) =>
      var o := ExprOutcome(value, cell, st);
      o.Then(if target == cell then OnPut(o.state) else Outcome(o.state, {}))
    case If(cond, thenBody, elseBody) =>
      var o := ExprOutcome(cond, cell, st);
      o.Then(Join(StmtsOutcome(thenBody, cell, o.state), StmtsOutcome(elseBody, cell, o.state)))
    case Match(scrutinee, arms, _) =>
      var o := ExprOutcome(scrutinee, cell, st);
      o.Then(if arms == [] then Outcome(o.state, {}) else ArmsOutcome(arms, cell, o.state))
  }

  function StmtsOutcome(ss: seq<Stmt>, cell: string, st: CellState): Outcome
    decreases ss
  {
    if ss == [] then Outcome(st, {})
    else
      var o := StmtOutcome(ss[0], cell, st);
      o.Then(StmtsOutcome(ss[1..], cell, o.state))
  }

  /** Every arm starts from `st`, and the first arm's state is kept. */
  function ArmsOutcome(arms: seq<MatchArm>, cell: string, st: CellState): Outcome
    requires arms != []
    decreases arms, 1
  {
    Outcome(StmtsOutcome(arms[0].body, cell, st).state,
            ArmsProblems(arms, cell, st) + Disagreement(ArmsDisagree(arms, cell, st)))
  }

  function ArmsProblems(arms: seq<MatchArm>, cell: string, st: CellState): set<Problem>
    decreases arms, 0
  {
    if arms == [] then {}
    else ArmsProblems(arms[..|arms| - 1], cell, st) + StmtsOutcome(arms[|arms| - 1].body, cell, st).problems
  }

  /** Some arm leaves the cell in another state than the first arm does. */
  predicate ArmsDisagree(arms: seq<MatchArm>, cell: string, st: CellState)
    decreases arms, 0
  {
    |arms| > 1 && (
      || ArmsDisagree(arms[..|arms| - 1], cell, st)
      || StmtsOutcome(arms[|arms| - 1].body, cell, st).state != StmtsOutcome(arms[0].body, cell, st).state)
  }

  /** The whole rule: the cell starts untouched and must not end taken. */
  function RuleOutcome(body: seq<Stmt>, cell: string): Outcome {
    var o := StmtsOutcome(body, cell, Untouched);
    if o.state == Taken then Outcome(o.state, o.problems + {NotPutBack}) else o
  }

  // ---------------------------------------------------------------------------
  // The walk itself
  // ---------------------------------------------------------------------------

  /** The `&mut` arguments of the walk: the cell states of one branch, and the shared complaints. */
  class States {
    var cells: map<string, CellState>

    constructor (cells: map<string, CellState>)
      ensures this.cells == cells
    {
      this.cells := cells;
    }
  }

  class Diagnostics {
    var found: set<Diagnostic>

    constructor ()
      ensures found == {}
    {
      found := {};
    }

    method Push(cell: string, problem: Problem)
      modifies this
      ensures found == old(found) + {Diagnostic(cell, problem)}
    {
      found := found + {Diagnostic(cell, problem)};
    }
  }

  /** The pieces of a rule the walk works through. */
  datatype Piece =
    | OfTake(queue: string) | OfPut(target: string)
    | OfExpr(expr: Expr) | OfExprs(exprs: seq<Expr>)
    | OfStmt(stmt: Stmt) | OfStmts(stmts: seq<Stmt>)
    | OfBranches(thenBody: seq<Stmt>, elseBody: seq<Stmt>) | OfArms(arms: seq<MatchArm>)

  function OutcomeOf(w: Piece, c: string, st: CellState): Outcome {
    match w
    case OfTake(queue) => if queue == c then OnTake(st) else Outcome(st, {})
    case OfPut(target) => if target == c then OnPut(st) else Outcome(st, {})
    case OfExpr(e) => ExprOutcome(e, c, st)
    case OfExprs(es) => ExprsOutcome(es, c, st)
    case OfStmt(s) => StmtOutcome(s, c, st)
    case OfStmts(ss) => StmtsOutcome(ss, c, st)
    case OfBranches(t, f) => Join(StmtsOutcome(t, c, st), StmtsOutcome(f, c, st))
    case OfArms(arms) => if arms == [] then Outcome(st, {}) else ArmsOutcome(arms, c, st)
  }

  /** The states `m` and complaints `d` become, cell by cell, what the walk makes of piece `w`. */
  ghost predicate Applied(m: map<string, CellState>, d: set<Diagnostic>,
                          m': map<string, CellState>, d': set<Diagnostic>, w: Piece)
  {
    && m'.Keys == m.Keys
    && (forall c | c in m :: m'[c] == OutcomeOf(w, c, m[c]).state)
    && (forall c, p :: Diagnostic(c, p) in d' <==>
          Diagnostic(c, p) in d || (c in m && p in OutcomeOf(w, c, m[c]).problems))
  }

  lemma AppliedThen(m0: map<string, CellState>, d0: set<Diagnostic>, m1: map<string, CellState>, d1: set<Diagnostic>,
                    m2: map<string, CellState>, d2: set<Diagnostic>, w1: Piece, w2: Piece, w: Piece)
    requires Applied(m0, d0, m1, d1, w1) && Applied(m1, d1, m2, d2, w2)
    requires forall c, st :: OutcomeOf(w, c, st) == OutcomeOf(w1, c, st).Then(OutcomeOf(w2, c, OutcomeOf(w1, c, st).state))
    ensures Applied(m0, d0, m2, d2, w)
  {
  }

  lemma AppliedSame(m: map<string, CellState>, d: set<Diagnostic>, m': map<string, CellState>, d': set<Diagnostic>,
                    w: Piece, w': Piece)
    requires Applied(m, d, m', d', w)
    requires forall c, st :: OutcomeOf(w', c, st) == OutcomeOf(w, c, st)
    ensures Applied(m, d, m', d', w')
  {
  }

  method CheckTake(queue: string, states: States, diagnostics: Diagnostics)
    modifies states, diagnostics
    ensures Applied(old(states.cells), old(diagnostics.found), states.cells, diagnostics.found, OfTake(queue))
  {
    if queue in states.cells {
      match states.cells[queue]
      case Untouched => states.cells := states.cells[queue := Taken];
      case Taken => diagnostics.Push(queue, TakenTwice);
      case PutBack => diagnostics.Push(queue, TakenAfterPut);
    }
  }

  method CheckPut(target: string, states: States, diagnostics: Diagnostics)
    modifies states, diagnostics
    ensures Applied(old(states.cells), old(diagnostics.found), states.cells, diagnostics.found, OfPut(target))
  {
    if target in states.cells {
      match states.cells[target]
      case Untouched => diagnostics.Push(target, PutUntaken);
      case Taken => states.cells := states.cells[target := PutBack];
      case PutBack => diagnostics.Push(target, PutTwice);
    }
  }

  method CheckExpr(e: Expr, states: States, diagnostics: Diagnostics)
    modifies states, diagnostics
    ensures Applied(old(states.cells), old(diagnostics.found), states.cells, diagnostics.found, OfExpr(e))
    decreases e
  {
    ghost var m, d := states.cells, diagnostics.found;
    match e
    case Take(queue) =>
      CheckTake(queue, states, diagnostics);
    case TryTake(queue) =>
      CheckTake(queue, states, diagnostics);
    case BinOp(lhs, rhs) =>
      hide Applied;
      CheckExpr(lhs, states, diagnostics);
      ghost var m1, d1 := states.cells, diagnostics.found;
      CheckExpr(rhs, states, diagnostics);
      AppliedThen(m, d, m1, d1, states.cells, diagnostics.found, OfExpr(lhs), OfExpr(rhs), OfExpr(e));
    case UnaryOp(inner) =>
      CheckExpr(inner, states, diagnostics);
      AppliedSame(m, d, states.cells, diagnostics.found, OfExpr(inner), OfExpr(e));
    case Call(args) =>
      CheckExprs(args, states, diagnostics);
      AppliedSame(m, d, states.cells, diagnostics.found, OfExprs(args), OfExpr(e));
    case Tuple(items) =>
      CheckExprs(items, states, diagnostics);
      AppliedSame(m, d, states.cells, diagnostics.found, OfExprs(items), OfExpr(e));
    case _ =>
  }

  method CheckExprs(es: seq<Expr>, states: States, diagnostics: Diagnostics)
    modifies states, diagnostics
    ensures Applied(old(states.cells), old(diagnostics.found), states.cells, diagnostics.found, OfExprs(es))
    decreases es
  {
    ghost var m0, d0 := states.cells, diagnostics.found;
    for i := 0 to |es|
      invariant Applied(m0, d0, states.cells, diagnostics.found, OfExprs(es[..i]))
    {
      hide Applied;
      ghost var m, d := states.cells, diagnostics.found;
      CheckExpr(es[i], states, diagnostics);
      forall c, st { ExprsOutcomeSnoc(es[..i], es[i], c, st); }
      assert es[..i + 1] == es[..i] + [es[i]];
      AppliedThen(m0, d0, m, d, states.cells, diagnostics.found, OfExprs(es[..i]), OfExpr(es[i]), OfExprs(es[..i + 1]));
    }
    assert es[..|es|] == es;
  }

  lemma {:induction false} ExprsOutcomeSnoc(es: seq<Expr>, e: Expr, c: string, st: CellState)
    ensures ExprsOutcome(es + [e], c, st) ==
            ExprsOutcome(es, c, st).Then(ExprOutcome(e, c, ExprsOutcome(es, c, st).state))
    decreases es
  {
    if es == [] {
      assert ([] + [e])[1..] == [];
      assert ExprsOutcome([], c, st) == Outcome(st, {});
    } else {
      assert (es + [e])[1..] == es[1..] + [e];
      ExprsOutcomeSnoc(es[1..], e, c, ExprOutcome(es[0], c, st).state);
    }
  }

  /** At a join: complain about every cell on which a branch disagrees with the branch that is kept. */
  method CompareBranch(kept: map<string, CellState>, other: map<string, CellState>, diagnostics: Diagnostics)
    requires kept.Keys == other.Keys
    modifies diagnostics
    ensures forall c, p :: Diagnostic(c, p) in diagnostics.found <==>
              Diagnostic(c, p) in old(diagnostics.found) || (c in kept && p in Disagreement(kept[c] != other[c]))
  {
    var names := kept.Keys;
    while names != {}
      invariant names <= kept.Keys
      invariant forall c, p :: Diagnostic(c, p) in diagnostics.found <==>
                  || Diagnostic(c, p) in old(diagnostics.found)
                  || (c in kept && c !in names && p in Disagreement(kept[c] != other[c]))
    {
      var name :| name in names;
      if kept[name] != other[name] {
        diagnostics.Push(name, Inconsistent);
      }
      names := names - {name};
    }
  }

  method CheckStmts(ss: seq<Stmt>, states: States, diagnostics: Diagnostics)
    modifies states, diagnostics
    ensures Applied(old(states.cells), old(diagnostics.found), states.cells, diagnostics.found, OfStmts(ss))
    decreases ss, 0
  {
    ghost var m0, d0 := states.cells, diagnostics.found;
    for i := 0 to |ss|
      invariant Applied(m0, d0, states.cells, diagnostics.found, OfStmts(ss[..i]))
    {
      hide Applied;
      ghost var m, d := states.cells, diagnostics.found;
      CheckStmt(ss[i], states, diagnostics);
      forall c, st { StmtsOutcomeSnoc(ss[..i], ss[i], c, st); }
      assert ss[..i + 1] == ss[..i] + [ss[i]];
      AppliedThen(m0, d0, m, d, states.cells, diagnostics.found, OfStmts(ss[..i]), OfStmt(ss[i]), OfStmts(ss[..i + 1]));
    }
    assert ss[..|ss|] == ss;
  }

  lemma {:induction false} StmtsOutcomeSnoc(ss: seq<Stmt>, s: Stmt, c: string, st: CellState)
    ensures StmtsOutcome(ss + [s], c, st) ==
            StmtsOutcome(ss, c, st).Then(StmtOutcome(s, c, StmtsOutcome(ss, c, st).state))
    decreases ss
  {
    if ss == [] {
      assert ([] + [s])[1..] == [];
      assert StmtsOutcome([], c, st) == Outcome(st, {});
    } else {
      assert (ss + [s])[1..] == ss[1..] + [s];
      StmtsOutcomeSnoc(ss[1..], s, c, StmtOutcome(ss[0], c, st).state);
    }
  }

  method CheckStmt(s: Stmt, states: States, diagnostics: Diagnostics)
    modifies states, diagnostics
    ensures Applied(old(states.cells), old(diagnostics.found), states.cells, diagnostics.found, OfStmt(s))
    decreases s, 2
  {
    hide Applied;
    ghost var m, d := states.cells, diagnostics.found;
    match s
    case Let(value) =>
      CheckExpr(value, states, diagnostics);
      AppliedSame(m, d, states.cells, diagnostics.found, OfExpr(value), OfStmt(s));
    case ExprStmt(expr) =>
      CheckExpr(expr, states, diagnostics);
      AppliedSame(m, d, states.cells, diagnostics.found, OfExpr(expr), OfStmt(s));
    case Put(target, value) =>
      CheckExpr(value, states, diagnostics);
      ghost var m1, d1 := states.cells, diagnostics.found;
      CheckPut(target, states, diagnostics);
      AppliedThen(m, d, m1, d1, states.cells, diagnostics.found, OfExpr(value), OfPut(target), OfStmt(s));
    case If(cond, thenBody, elseBody) =>
      CheckExpr(cond, states, diagnostics);
      ghost var m1, d1 := states.cells, diagnostics.found;
      CheckBranches(s, states, diagnostics);
      AppliedThen(m, d, m1, d1, states.cells, diagnostics.found,
                  OfExpr(cond), OfBranches(thenBody, elseBody), OfStmt(s));
    case Match(scrutinee, arms, _) =>
      CheckExpr(scrutinee, states, diagnostics);
      ghost var m1, d1 := states.cells, diagnostics.found;
      CheckArms(s, states, diagnostics);
      AppliedThen(m, d, m1, d1, states.cells, diagnostics.found, OfExpr(scrutinee), OfArms(arms), OfStmt(s));
  }

  method CheckBranches(s: Stmt, states: States, diagnostics: Diagnostics)
    requires s.If?
    modifies states, diagnostics
    ensures Applied(old(states.cells), old(diagnostics.found), states.cells, diagnostics.found,
                    OfBranches(s.thenBody, s.elseBody))
    decreases s, 1
  {
    hide StmtsOutcome;
    ghost var m, d := states.cells, diagnostics.found;
    var thenStates := new States(states.cells);
    CheckStmts(s.thenBody, thenStates, diagnostics);
    ghost var d1 := diagnostics.found;
    var elseStates := new States(states.cells);
    CheckStmts(s.elseBody, elseStates, diagnostics);
    ghost var d2 := diagnostics.found;
    CompareBranch(thenStates.cells, elseStates.cells, diagnostics);
    states.cells := thenStates.cells;
    AppliedJoin(m, d, thenStates.cells, d1, elseStates.cells, d2, diagnostics.found, s.thenBody, s.elseBody);
  }

  lemma AppliedJoin(m: map<string, CellState>, d: set<Diagnostic>, t: map<string, CellState>, d1: set<Diagnostic>,
                    f: map<string, CellState>, d2: set<Diagnostic>, d3: set<Diagnostic>,
                    thenBody: seq<Stmt>, elseBody: seq<Stmt>)
    requires Applied(m, d, t, d1, OfStmts(thenBody)) && Applied(m, d1, f, d2, OfStmts(elseBody))
    requires forall c, p :: Diagnostic(c, p) in d3 <==>
               Diagnostic(c, p) in d2 || (c in t && p in Disagreement(t[c] != f[c]))
    ensures Applied(m, d, t, d3, OfBranches(thenBody, elseBody))
  {
    hide StmtsOutcome, Disagreement;
  }

  method CheckArms(s: Stmt, states: States, diagnostics: Diagnostics)
    requires s.Match?
    modifies states, diagnostics
    ensures Applied(old(states.cells), old(diagnostics.found), states.cells, diagnostics.found, OfArms(s.arms))
    decreases s, 1
  {
    if s.arms == [] {
      return;
    }
    hide StmtsOutcome, ArmsDisagree, ArmsProblems, Disagreement, ArmStates;
    var start := states.cells;
    var armStates := CollectArms(s, start, diagnostics);
    CompareArms(s.arms, start, armStates, diagnostics);
    FirstArm(armStates, s.arms, start);
    states.cells := armStates[0];
  }

  /** Each arm on its own copy of the states. */
  method CollectArms(s: Stmt, start: map<string, CellState>, diagnostics: Diagnostics)
    returns (armStates: seq<map<string, CellState>>)
    requires s.Match?
    modifies diagnostics
    ensures |armStates| == |s.arms| && ArmStates(armStates, s.arms, start)
    ensures forall c, p :: Diagnostic(c, p) in diagnostics.found <==>
              Diagnostic(c, p) in old(diagnostics.found) || (c in start && p in ArmsProblems(s.arms, c, start[c]))
    decreases s, 0
  {
    hide StmtsOutcome;
    var arms := s.arms;
    armStates := [];
    for i := 0 to |arms|
      invariant |armStates| == i && ArmStates(armStates, arms, start)
      invariant forall c, p :: Diagnostic(c, p) in diagnostics.found <==>
                  Diagnostic(c, p) in old(diagnostics.found) || (c in start && p in ArmsProblems(arms[..i], c, start[c]))
    {
      var branch := new States(start);
      CheckStmts(arms[i].body, branch, diagnostics);
      armStates := armStates + [branch.cells];
      assert arms[..i + 1][..i] == arms[..i];
    }
    assert arms[..|arms|] == arms;
  }

  lemma FirstArm(armStates: seq<map<string, CellState>>, arms: seq<MatchArm>, start: map<string, CellState>)
    requires arms != [] && |armStates| == |arms| && ArmStates(armStates, arms, start)
    ensures armStates[0].Keys == start.Keys
    ensures forall c | c in start :: armStates[0][c] == StmtsOutcome(arms[0].body, c, start[c]).state
  {
  }

  /** What each arm checked so far made of the states it was given a copy of. */
  ghost predicate ArmStates(armStates: seq<map<string, CellState>>, arms: seq<MatchArm>, start: map<string, CellState>) {
    && |armStates| <= |arms|
    && forall j | 0 <= j < |armStates| ::
         && armStates[j].Keys == start.Keys
         && forall c | c in start :: armStates[j][c] == StmtsOutcome(arms[j].body, c, start[c]).state
  }

  method CompareArms(arms: seq<MatchArm>, ghost start: map<string, CellState>,
                     armStates: seq<map<string, CellState>>, diagnostics: Diagnostics)
    requires arms != [] && |armStates| == |arms| && ArmStates(armStates, arms, start)
    modifies diagnostics
    ensures forall c, p :: Diagnostic(c, p) in diagnostics.found <==>
              || Diagnostic(c, p) in old(diagnostics.found)
              || (c in start && p in Disagreement(ArmsDisagree(arms, c, start[c])))
  {
    for i := 1 to |arms|
      invariant forall c, p :: Diagnostic(c, p) in diagnostics.found <==>
                  || Diagnostic(c, p) in old(diagnostics.found)
                  || (c in start && p in Disagreement(ArmsDisagree(arms[..i], c, start[c])))
    {
      CompareBranch(armStates[0], armStates[i], diagnostics);
      assert arms[..i + 1][..i] == arms[..i];
    }
    assert arms[..|arms|] == arms;
  }

  method CheckRule(body: seq<Stmt>, statePorts: seq<string>, diagnostics: Diagnostics)
    modifies diagnostics
    ensures forall c, p :: Diagnostic(c, p) in diagnostics.found <==>
              Diagnostic(c, p) in old(diagnostics.found) || (c in statePorts && p in RuleOutcome(body, c).problems)
  {
    var states := new States(map c | c in statePorts :: Untouched);
    ghost var start := states.cells;
    CheckStmts(body, states, diagnostics);
    var cells := states.cells;
    ghost var found := diagnostics.found;
    var names := cells.Keys;
    while names != {}
      invariant names <= cells.Keys
      invariant forall c, p :: Diagnostic(c, p) in diagnostics.found <==>
                  || Diagnostic(c, p) in found
                  || (c in cells && c !in names && cells[c] == Taken && p == NotPutBack)
    {
      var name :| name in names;
      if cells[name] == Taken {
        diagnostics.Push(name, NotPutBack);
      }
      names := names - {name};
    }
    assert forall c | c in start :: OutcomeOf(OfStmts(body), c, start[c]) == StmtsOutcome(body, c, Untouched);
  }
}
