/** What a silent linearity check tells about the executions of the rule. */
module LinearityTheorems {
  import opened Ast
  import opened Executions
  import opened Linearity
  import Schedule

  datatype Op = T | P

  /** The takes and puts of one cell, in order. */
  function Word(es: seq<Event>, cell: string): seq<Op> {
    if es == [] then []
    else
      (match es[0]
       case TakeOf(q) => if q == cell then [T] else []
       case PutOf(q) => if q == cell then [P] else [])
      + Word(es[1..], cell)
  }

  datatype Landing = In(state: CellState) | Broken

  /** Where a cell in state `st` lands after `w`, if every operation is allowed when its turn comes. */
  function Track(st: CellState, w: seq<Op>): Landing
    decreases w
  {
    if w == [] then In(st)
    else if w[0] == T && st == Untouched then Track(Taken, w[1..])
    else if w[0] == P && st == Taken then Track(PutBack, w[1..])
    else Broken
  }

  lemma {:induction false} WordOfSequel(a: seq<Event>, b: seq<Event>, cell: string)
    ensures Word(a + b, cell) == Word(a, cell) + Word(b, cell)
  {
    if a == [] {
      assert a + b == b;
    } else {
      WordOfSequel(a[1..], b, cell);
      assert (a + b)[1..] == a[1..] + b;
    }
  }

  lemma {:induction false} TrackSequel(st: CellState, a: seq<Op>, b: seq<Op>)
    ensures Track(st, a + b) == if Track(st, a).In? then Track(Track(st, a).state, b) else Broken
    decreases a
  {
    if a == [] {
      assert a + b == b;
    } else {
      assert (a + b)[1..] == a[1..] + b;
      if a[0] == T && st == Untouched {
        TrackSequel(Taken, a[1..], b);
      } else if a[0] == P && st == Taken {
        TrackSequel(PutBack, a[1..], b);
      }
    }
  }

  /** Continuing alike from two states to the same landing means they were the same state. */
  lemma {:induction false} TrackIsInjective(s1: CellState, s2: CellState, w: seq<Op>)
    requires Track(s1, w).In? && Track(s1, w) == Track(s2, w)
    ensures s1 == s2
    decreases w
  {
  }

  function LandingOf(o: Outcome): Landing {
    if o.problems == {} then In(o.state) else Broken
  }

  /** An expression runs in one way only. */
  lemma {:induction false} ExprLands(e: Expr, cell: string, st: CellState)
    ensures Track(st, Word(SeenTakes(e), cell)) == LandingOf(ExprOutcome(e, cell, st))
    decreases e
  {
    hide Track, Word, OnTake;
    match e
    case Take(q) => TakeTracks(q, cell, st);
    case TryTake(q) => TakeTracks(q, cell, st);
    case BinOp(lhs, rhs) =>
      WordOfSequel(SeenTakes(lhs), SeenTakes(rhs), cell);
      TrackSequel(st, Word(SeenTakes(lhs), cell), Word(SeenTakes(rhs), cell));
      ExprLands(lhs, cell, st);
      ExprLands(rhs, cell, ExprOutcome(lhs, cell, st).state);
    case UnaryOp(inner) => ExprLands(inner, cell, st);
    case Call(args) => ExprsLand(args, cell, st);
    case Tuple(items) => ExprsLand(items, cell, st);
    case _ => NothingTracks(cell, st);
  }

  lemma TakeTracks(queue: string, cell: string, st: CellState)
    ensures Track(st, Word([TakeOf(queue)], cell)) == LandingOf(if queue == cell then OnTake(st) else Outcome(st, {}))
  {
  }

  lemma NothingTracks(cell: string, st: CellState)
    ensures Track(st, Word([], cell)) == In(st)
  {
  }

  lemma {:induction false} ExprsLand(es: seq<Expr>, cell: string, st: CellState)
    ensures Track(st, Word(SeenTakesOf(es), cell)) == LandingOf(ExprsOutcome(es, cell, st))
    decreases es
  {
    if es != [] {
      WordOfSequel(SeenTakes(es[0]), SeenTakesOf(es[1..]), cell);
      TrackSequel(st, Word(SeenTakes(es[0]), cell), Word(SeenTakesOf(es[1..]), cell));
      ExprLands(es[0], cell, st);
      ExprsLand(es[1..], cell, ExprOutcome(es[0], cell, st).state);
    }
  }

  /** Every path takes the cell from `st` to `x` without breaking the discipline. */
  ghost predicate Reaches(paths: set<Trace>, cell: string, st: CellState, x: CellState) {
    forall t | t in paths :: Track(st, Word(t.seen, cell)) == In(x)
  }

  lemma ReachesOne(t: Trace, cell: string, st: CellState, x: CellState)
    ensures Reaches({t}, cell, st, x) <==> Track(st, Word(t.seen, cell)) == In(x)
  {
  }

  lemma ReachesEither(a: set<Trace>, b: set<Trace>, cell: string, st: CellState, x: CellState)
    ensures Reaches(a + b, cell, st, x) <==> Reaches(a, cell, st, x) && Reaches(b, cell, st, x)
  {
  }

  /** Branches may be judged at their join: if all paths through it end alike, the paths up to it
      already do. Nothing that follows a disagreement can repair it. */
  lemma ReachesSequel(a: set<Trace>, b: set<Trace>, cell: string, st: CellState, x: CellState)
    requires a != {} && b != {}
    ensures Reaches(Sequel(a, b), cell, st, x) <==> exists mid :: Reaches(a, cell, st, mid) && Reaches(b, cell, mid, x)
  {
    forall p, q | p in a && q in b
      ensures p.Then(q) in Sequel(a, b)
      ensures Track(st, Word(p.Then(q).seen, cell)) ==
              if Track(st, Word(p.seen, cell)).In? then Track(Track(st, Word(p.seen, cell)).state, Word(q.seen, cell)) else Broken
    {
      WordOfSequel(p.seen, q.seen, cell);
      TrackSequel(st, Word(p.seen, cell), Word(q.seen, cell));
    }
    if Reaches(Sequel(a, b), cell, st, x) {
      var p0 :| p0 in a;
      var q0 :| q0 in b;
      assert p0.Then(q0) in Sequel(a, b);
      var mid := Track(st, Word(p0.seen, cell)).state;
      forall p | p in a ensures Track(st, Word(p.seen, cell)) == In(mid) {
        assert p.Then(q0) in Sequel(a, b);
        TrackIsInjective(Track(st, Word(p.seen, cell)).state, mid, Word(q0.seen, cell));
      }
      forall q | q in b ensures Track(mid, Word(q.seen, cell)) == In(x) {
        assert p0.Then(q) in Sequel(a, b);
      }
      assert Reaches(a, cell, st, mid) && Reaches(b, cell, mid, x);
    }
  }

  lemma {:induction false} StmtsLand(ss: seq<Stmt>, cell: string, st: CellState, x: CellState)
    ensures StmtsOutcome(ss, cell, st) == Outcome(x, {}) <==> Reaches(StmtsPaths(ss, false), cell, st, x)
    decreases ss, 0
  {
    hide Reaches, Sequel;
    if ss == [] {
      ReachesOne(NOTHING, cell, st, x);
    } else {
      var a, b := StmtPaths(ss[0], false), StmtsPaths(ss[1..], false);
      var o := StmtOutcome(ss[0], cell, st);
      ReachesSequel(a, b, cell, st, x);
      forall mid { StmtLands(ss[0], cell, st, mid); }
      StmtsLand(ss[1..], cell, o.state, x);
    }
  }

  lemma {:induction false} StmtLands(s: Stmt, cell: string, st: CellState, x: CellState)
    ensures StmtOutcome(s, cell, st) == Outcome(x, {}) <==> Reaches(StmtPaths(s, false), cell, st, x)
    decreases s, 1
  {
    hide Reaches, Sequel;
    match s
    case Let(value) =>
      ExprLands(value, cell, st);
      ReachesOne(ExprTrace(value), cell, st, x);
    case ExprStmt(value) =>
      ExprLands(value, cell, st);
      ReachesOne(ExprTrace(value), cell, st, x);
    case Put(target, value) =>
      PutLands(target, value, cell, st, x);
    case If(cond, thenBody, elseBody) =>
      var t, f := StmtsPaths(thenBody, false), StmtsPaths(elseBody, false);
      var o := ExprOutcome(cond, cell, st);
      ExprLands(cond, cell, st);
      ReachesSequel({ExprTrace(cond)}, t + f, cell, st, x);
      forall mid { ReachesOne(ExprTrace(cond), cell, st, mid); }
      ReachesEither(t, f, cell, o.state, x);
      StmtsLand(thenBody, cell, o.state, x);
      StmtsLand(elseBody, cell, o.state, x);
    case Match(scrutinee, arms, _) =>
      var o := ExprOutcome(scrutinee, cell, st);
      ExprLands(scrutinee, cell, st);
      if arms == [] {
        ReachesOne(ExprTrace(scrutinee), cell, st, x);
      } else {
        assert ArmsPaths(arms, false) + {} == ArmsPaths(arms, false);
        ReachesSequel({ExprTrace(scrutinee)}, ArmsPaths(arms, false), cell, st, x);
        forall mid { ReachesOne(ExprTrace(scrutinee), cell, st, mid); }
        ArmsLand(arms, cell, o.state, x);
      }
  }

  lemma PutLands(target: string, value: Expr, cell: string, st: CellState, x: CellState)
    ensures StmtOutcome(Put(target, value), cell, st) == Outcome(x, {}) <==>
            Reaches(StmtPaths(Put(target, value), false), cell, st, x)
  {
    hide Track, Word, Reaches, OnPut, SeenTakes, AllTakes, ExprOutcome;
    var put := [PutOf(target)];
    PutTracks(target, cell, ExprOutcome(value, cell, st).state);
    ExprLands(value, cell, st);
    WordOfSequel(SeenTakes(value), put, cell);
    TrackSequel(st, Word(SeenTakes(value), cell), Word(put, cell));
    ReachesOne(ExprTrace(value).Then(Trace(put, put)), cell, st, x);
  }

  lemma PutTracks(target: string, cell: string, st: CellState)
    ensures Track(st, Word([PutOf(target)], cell)) == LandingOf(if target == cell then OnPut(st) else Outcome(st, {}))
  {
  }

  /** All arms end in `x`, whichever of them is compared with the first. */
  lemma {:induction false} ArmsLand(arms: seq<MatchArm>, cell: string, st: CellState, x: CellState)
    requires arms != []
    ensures ArmsOutcome(arms, cell, st) == Outcome(x, {}) <==> Reaches(ArmsPaths(arms, false), cell, st, x)
    decreases arms, 0
  {
    hide Reaches, Sequel;
    var last := arms[|arms| - 1];
    StmtsLand(last.body, cell, st, x);
    ReachesEither(ArmsPaths(arms[..|arms| - 1], false), StmtsPaths(last.body, false), cell, st, x);
    if |arms| > 1 {
      ArmsLand(arms[..|arms| - 1], cell, st, x);
    } else {
      assert ArmsProblems(arms[..0], cell, st) == {} && ArmsPaths(arms[..0], false) == {};
      assert ArmsOutcome(arms, cell, st).problems == StmtsOutcome(last.body, cell, st).problems;
      assert ArmsPaths(arms, false) == StmtsPaths(last.body, false);
    }
  }

  // ---------------------------------------------------------------------------
  // Silence means linear
  // ---------------------------------------------------------------------------

  ghost predicate Silent(body: seq<Stmt>, statePorts: seq<string>) {
    forall c | c in statePorts :: RuleOutcome(body, c).problems == {}
  }

  /** On every execution the cell is left alone, or on every execution it is taken once and then put
      once; judged by what the walker sees, and as if some arm of every match ran. */
  ghost predicate SeenLinear(body: seq<Stmt>, cell: string) {
    || (forall t | t in StmtsPaths(body, false) :: Word(t.seen, cell) == [])
    || (forall t | t in StmtsPaths(body, false) :: Word(t.seen, cell) == [T, P])
  }

  /** The same, judged by everything an execution does and over all executions, those in which a match falls
      through included. */
  ghost predicate Linear(body: seq<Stmt>, cell: string) {
    OneWord(StmtsPaths(body, true), cell)
  }

  ghost predicate OneWord(paths: set<Trace>, cell: string) {
    AllAre(paths, cell, []) || AllAre(paths, cell, [T, P])
  }

  lemma LegalWords(w: seq<Op>)
    ensures Track(Untouched, w) == In(Untouched) <==> w == []
    ensures Track(Untouched, w) == In(PutBack) <==> w == [T, P]
  {
    if w != [] && w[0] == T {
      var v := w[1..];
      if v != [] && v[0] == P {
        assert w == [T, P] + v[1..];
        assert v[1..] == [] <==> Track(PutBack, v[1..]) == In(PutBack);
      }
    }
  }

  /** Main result. The check is silent about a rule exactly when, for each cell, all executions in which some
      arm of every match runs agree on one of the two legal words, as far as the walker sees: nothing at
      all, or one take and then one put. */
  lemma SilentIffSeenLinear(body: seq<Stmt>, statePorts: seq<string>)
    ensures Silent(body, statePorts) <==> forall c | c in statePorts :: SeenLinear(body, c)
  {
    forall c ensures RuleOutcome(body, c).problems == {} <==> SeenLinear(body, c) {
      StmtsLand(body, c, Untouched, Untouched);
      StmtsLand(body, c, Untouched, PutBack);
      forall t | t in StmtsPaths(body, false) { LegalWords(Word(t.seen, c)); }
    }
  }

  // ---------------------------------------------------------------------------
  // Takes the walker does not see
  // ---------------------------------------------------------------------------

  /** A take of the cell sits inside a record, field, index, update or slice expression. */
  predicate HidesTake(e: Expr, cell: string)
    decreases e
  {
    match e
    case Take(_) => false
    case TryTake(_) => false
    case BinOp(lhs, rhs) => HidesTake(lhs, cell) || HidesTake(rhs, cell)
    case UnaryOp(inner) => HidesTake(inner, cell)
    case Call(args) => exists i | 0 <= i < |args| :: HidesTake(args[i], cell)
    case Tuple(items) => exists i | 0 <= i < |items| :: HidesTake(items[i], cell)
    case _ => TakeOf(cell) in AllTakes(e)
  }

  predicate StmtHides(s: Stmt, cell: string)
    decreases s
  {
    match s
    case Let(value) => HidesTake(value, cell)
    case ExprStmt(e) => HidesTake(e, cell)
    case Put(_, value) => HidesTake(value, cell)
    case If(cond, thenBody, elseBody) => HidesTake(cond, cell) || StmtsHide(thenBody, cell) || StmtsHide(elseBody, cell)
    case Match(scrutinee, arms, _) => HidesTake(scrutinee, cell) || ArmsHide(arms, cell)
  }

  predicate StmtsHide(ss: seq<Stmt>, cell: string)
    decreases ss
  {
    ss != [] && (StmtHides(ss[0], cell) || StmtsHide(ss[1..], cell))
  }

  predicate ArmsHide(arms: seq<MatchArm>, cell: string)
    decreases arms
  {
    arms != [] && (ArmsHide(arms[..|arms| - 1], cell) || StmtsHide(arms[|arms| - 1].body, cell))
  }

  function Puts(w: seq<Op>): nat {
    if w == [] then 0 else (if w[0] == P then 1 else 0) + Puts(w[1..])
  }

  /** How the two words of an execution differ: by extra takes, if at all. */
  ghost predicate Extends(t: Trace, cell: string) {
    && |Word(t.all, cell)| >= |Word(t.seen, cell)|
    && Puts(Word(t.all, cell)) == Puts(Word(t.seen, cell))
    && (|Word(t.all, cell)| == |Word(t.seen, cell)| ==> Word(t.all, cell) == Word(t.seen, cell))
  }

  ghost predicate Longer(t: Trace, cell: string) {
    |Word(t.all, cell)| > |Word(t.seen, cell)|
  }

  lemma {:induction false} PutsOfSequel(a: seq<Op>, b: seq<Op>)
    ensures Puts(a + b) == Puts(a) + Puts(b)
  {
    if a == [] {
      assert a + b == b;
    } else {
      PutsOfSequel(a[1..], b);
      assert (a + b)[1..] == a[1..] + b;
    }
  }

  lemma SequelExtends(a: Trace, b: Trace, cell: string)
    requires Extends(a, cell) && Extends(b, cell)
    ensures Extends(a.Then(b), cell)
    ensures Longer(a.Then(b), cell) <==> Longer(a, cell) || Longer(b, cell)
  {
    WordOfSequel(a.seen, b.seen, cell);
    WordOfSequel(a.all, b.all, cell);
    PutsOfSequel(Word(a.seen, cell), Word(b.seen, cell));
    PutsOfSequel(Word(a.all, cell), Word(b.all, cell));
  }

  /** Takes alone make a word of takes. */
  lemma {:induction false} TakesOnly(es: seq<Event>, cell: string)
    requires forall i | 0 <= i < |es| :: es[i].TakeOf?
    ensures Puts(Word(es, cell)) == 0
    ensures TakeOf(cell) in es <==> Word(es, cell) != []
  {
    if es != [] {
      TakesOnly(es[1..], cell);
      assert es[0].TakeOf?;
      PutsOfSequel(if es[0] == TakeOf(cell) then [T] else [], Word(es[1..], cell));
    }
  }

  lemma {:induction false} AllTakesAreTakes(e: Expr)
    ensures forall i | 0 <= i < |AllTakes(e)| :: AllTakes(e)[i].TakeOf?
    decreases e
  {
    match e
    case FieldAccess(inner) => AllTakesAreTakes(inner);
    case Index(inner, index) => AllTakesAreTakes(inner); AllTakesAreTakes(index);
    case Update(inner, index, value) =>
      AllTakesAreTakes(inner);
      AllTakesAreTakes(index);
      AllTakesAreTakes(value);
    case Tuple(items) => AllTakesOfAreTakes(items);
    case Record(fields) => AllTakesOfAreTakes(fields);
    case Call(args) => AllTakesOfAreTakes(args);
    case BitSlice(inner) => AllTakesAreTakes(inner);
    case BinOp(lhs, rhs) => AllTakesAreTakes(lhs); AllTakesAreTakes(rhs);
    case UnaryOp(inner) => AllTakesAreTakes(inner);
    case _ =>
  }

  lemma {:induction false} AllTakesOfAreTakes(es: seq<Expr>)
    ensures forall i | 0 <= i < |AllTakesOf(es)| :: AllTakesOf(es)[i].TakeOf?
    decreases es
  {
    if es != [] {
      AllTakesAreTakes(es[0]);
      AllTakesOfAreTakes(es[1..]);
    }
  }

  /** Where the walker stops, every take is an extra one. */
  lemma UnseenExtends(es: seq<Event>, cell: string)
    requires forall i | 0 <= i < |es| :: es[i].TakeOf?
    ensures Extends(Trace([], es), cell)
    ensures Longer(Trace([], es), cell) <==> TakeOf(cell) in es
  {
    TakesOnly(es, cell);
  }

  lemma {:induction false} ExprExtends(e: Expr, cell: string)
    ensures Extends(ExprTrace(e), cell)
    ensures Longer(ExprTrace(e), cell) <==> HidesTake(e, cell)
    decreases e
  {
    hide Extends, Longer;
    match e
    case Take(q) => SameExtends([TakeOf(q)], cell);
    case TryTake(q) => SameExtends([TakeOf(q)], cell);
    case BinOp(lhs, rhs) =>
      ExprExtends(lhs, cell);
      ExprExtends(rhs, cell);
      SequelExtends(ExprTrace(lhs), ExprTrace(rhs), cell);
    case UnaryOp(inner) => ExprExtends(inner, cell);
    case Call(args) => ExprsExtend(args, cell);
    case Tuple(items) => ExprsExtend(items, cell);
    case _ =>
      AllTakesAreTakes(e);
      UnseenExtends(AllTakes(e), cell);
  }

  lemma {:induction false} ExprsExtend(es: seq<Expr>, cell: string)
    ensures var t := Trace(SeenTakesOf(es), AllTakesOf(es));
            Extends(t, cell) && (Longer(t, cell) <==> exists i | 0 <= i < |es| :: HidesTake(es[i], cell))
    decreases es
  {
    if es != [] {
      ExprExtends(es[0], cell);
      ExprsExtend(es[1..], cell);
      SequelExtends(ExprTrace(es[0]), Trace(SeenTakesOf(es[1..]), AllTakesOf(es[1..])), cell);
      assert forall i | 0 < i < |es| :: es[i] == es[1..][i - 1];
      if HidesTake(es[0], cell) || (exists i | 0 <= i < |es[1..]| :: HidesTake(es[1..][i], cell)) {
        assert exists i | 0 <= i < |es| :: HidesTake(es[i], cell);
      }
    }
  }

  /** Every path may only have extra takes, and some path has one exactly when `hides`. */
  ghost predicate PathsExtend(paths: set<Trace>, cell: string, hides: bool) {
    && (forall t | t in paths :: Extends(t, cell))
    && (hides <==> exists t | t in paths :: Longer(t, cell))
  }

  lemma SequelPathsExtend(a: set<Trace>, b: set<Trace>, cell: string, hideA: bool, hideB: bool)
    requires a != {} && b != {} && PathsExtend(a, cell, hideA) && PathsExtend(b, cell, hideB)
    ensures PathsExtend(Sequel(a, b), cell, hideA || hideB)
  {
    forall p, q | p in a && q in b
      ensures p.Then(q) in Sequel(a, b) && Extends(p.Then(q), cell)
      ensures Longer(p.Then(q), cell) <==> Longer(p, cell) || Longer(q, cell)
    {
      SequelExtends(p, q, cell);
    }
    var p0 :| p0 in a;
    var q0 :| q0 in b;
    if hideA {
      var p :| p in a && Longer(p, cell);
      assert Longer(p.Then(q0), cell);
    } else if hideB {
      var q :| q in b && Longer(q, cell);
      assert Longer(p0.Then(q), cell);
    }
  }

  lemma EitherPathsExtend(a: set<Trace>, b: set<Trace>, cell: string, hideA: bool, hideB: bool)
    requires PathsExtend(a, cell, hideA) && PathsExtend(b, cell, hideB)
    ensures PathsExtend(a + b, cell, hideA || hideB)
  {
  }

  lemma OnePathExtends(t: Trace, cell: string)
    requires Extends(t, cell)
    ensures PathsExtend({t}, cell, Longer(t, cell))
  {
  }

  lemma {:induction false} StmtsExtend(ss: seq<Stmt>, cell: string)
    ensures PathsExtend(StmtsPaths(ss, false), cell, StmtsHide(ss, cell))
    decreases ss, 0
  {
    if ss == [] {
      OnePathExtends(NOTHING, cell);
    } else {
      hide PathsExtend, Sequel;
      StmtExtends(ss[0], cell);
      StmtsExtend(ss[1..], cell);
      SequelPathsExtend(StmtPaths(ss[0], false), StmtsPaths(ss[1..], false), cell, StmtHides(ss[0], cell), StmtsHide(ss[1..], cell));
    }
  }

  lemma {:induction false} StmtExtends(s: Stmt, cell: string)
    ensures PathsExtend(StmtPaths(s, false), cell, StmtHides(s, cell))
    decreases s, 1
  {
    hide PathsExtend, Sequel, Extends, Longer, ExprTrace;
    match s
    case Let(value) =>
      ExprExtends(value, cell);
      OnePathExtends(ExprTrace(value), cell);
    case ExprStmt(value) =>
      ExprExtends(value, cell);
      OnePathExtends(ExprTrace(value), cell);
    case Put(target, value) =>
      var put := Trace([PutOf(target)], [PutOf(target)]);
      ExprExtends(value, cell);
      SameExtends([PutOf(target)], cell);
      SequelExtends(ExprTrace(value), put, cell);
      OnePathExtends(ExprTrace(value).Then(put), cell);
    case If(cond, thenBody, elseBody) =>
      var t, f := StmtsPaths(thenBody, false), StmtsPaths(elseBody, false);
      ExprExtends(cond, cell);
      OnePathExtends(ExprTrace(cond), cell);
      StmtsExtend(thenBody, cell);
      StmtsExtend(elseBody, cell);
      EitherPathsExtend(t, f, cell, StmtsHide(thenBody, cell), StmtsHide(elseBody, cell));
      SequelPathsExtend({ExprTrace(cond)}, t + f, cell, HidesTake(cond, cell), StmtsHide(thenBody, cell) || StmtsHide(elseBody, cell));
    case Match(scrutinee, arms, _) =>
      ExprExtends(scrutinee, cell);
      OnePathExtends(ExprTrace(scrutinee), cell);
      if arms != [] {
        assert ArmsPaths(arms, false) + {} == ArmsPaths(arms, false);
        ArmsExtend(arms, cell);
        SequelPathsExtend({ExprTrace(scrutinee)}, ArmsPaths(arms, false), cell, HidesTake(scrutinee, cell), ArmsHide(arms, cell));
      }
  }

  lemma SameExtends(es: seq<Event>, cell: string)
    ensures Extends(Trace(es, es), cell) && !Longer(Trace(es, es), cell)
  {
  }

  lemma {:induction false} ArmsExtend(arms: seq<MatchArm>, cell: string)
    ensures PathsExtend(ArmsPaths(arms, false), cell, ArmsHide(arms, cell))
    decreases arms, 0
  {
    if arms != [] {
      var init, last := arms[..|arms| - 1], arms[|arms| - 1].body;
      ArmsExtend(init, cell);
      StmtsExtend(last, cell);
      EitherPathsExtend(ArmsPaths(init, false), StmtsPaths(last, false), cell, ArmsHide(init, cell), StmtsHide(last, cell));
    }
  }

  // ---------------------------------------------------------------------------
  // Matches that fall through
  // ---------------------------------------------------------------------------

  /** A match whose patterns do not cover every value has an arm that touches the cell. */
  predicate StmtFalls(s: Stmt, cell: string)
    decreases s
  {
    match s
    case If(_, thenBody, elseBody) => StmtsFall(thenBody, cell) || StmtsFall(elseBody, cell)
    case Match(_, arms, covers) => ArmsFall(arms, cell) || (!covers && cell in Schedule.ArmsTouch(arms))
    case _ => false
  }

  predicate StmtsFall(ss: seq<Stmt>, cell: string)
    decreases ss
  {
    ss != [] && (StmtFalls(ss[0], cell) || StmtsFall(ss[1..], cell))
  }

  predicate ArmsFall(arms: seq<MatchArm>, cell: string)
    decreases arms
  {
    arms != [] && (ArmsFall(arms[..|arms| - 1], cell) || StmtsFall(arms[|arms| - 1].body, cell))
  }

  ghost predicate HasWord(paths: set<Trace>, cell: string, w: seq<Op>) {
    exists t :: t in paths && Word(t.all, cell) == w
  }

  /** Falling through adds executions. It adds no word; or else it adds one shorter than a word there was. */
  ghost predicate Adds(all: set<Trace>, some: set<Trace>, cell: string, falls: bool) {
    && some != {} && some <= all
    && if falls then exists t, u :: t in all && u in some && |Word(t.all, cell)| < |Word(u.all, cell)|
       else forall t | t in all :: HasWord(some, cell, Word(t.all, cell))
  }

  lemma InSequel(a: set<Trace>, b: set<Trace>, p: Trace, q: Trace, cell: string)
    requires p in a && q in b
    ensures p.Then(q) in Sequel(a, b) && Word(p.Then(q).all, cell) == Word(p.all, cell) + Word(q.all, cell)
  {
    WordOfSequel(p.all, q.all, cell);
  }

  lemma SequelOrder(a: set<Trace>, a': set<Trace>, b: set<Trace>, b': set<Trace>)
    requires a' <= a && b' <= b && a' != {} && b' != {}
    ensures Sequel(a', b') != {} && Sequel(a', b') <= Sequel(a, b)
  {
    SequelIsNonempty(a', b');
  }

  lemma SequelWords(a: set<Trace>, a': set<Trace>, b: set<Trace>, b': set<Trace>, cell: string, t: Trace)
    requires Adds(a, a', cell, false) && Adds(b, b', cell, false) && t in Sequel(a, b)
    ensures HasWord(Sequel(a', b'), cell, Word(t.all, cell))
  {
    var p, q :| p in a && q in b && t == p.Then(q);
    hide Word, Sequel;
    InSequel(a, b, p, q, cell);
    assert HasWord(a', cell, Word(p.all, cell)) && HasWord(b', cell, Word(q.all, cell));
    var p' :| p' in a' && Word(p'.all, cell) == Word(p.all, cell);
    var q' :| q' in b' && Word(q'.all, cell) == Word(q.all, cell);
    InSequel(a', b', p', q', cell);
  }

  lemma AddsSequel(a: set<Trace>, a': set<Trace>, b: set<Trace>, b': set<Trace>, cell: string, f: bool, g: bool)
    requires Adds(a, a', cell, f) && Adds(b, b', cell, g)
    ensures Adds(Sequel(a, b), Sequel(a', b'), cell, f || g)
  {
    hide Word, Sequel;
    SequelOrder(a, a', b, b');
    var p0 :| p0 in a';
    var q0 :| q0 in b';
    if f {
      var t, u :| t in a && u in a' && |Word(t.all, cell)| < |Word(u.all, cell)|;
      InSequel(a, b, t, q0, cell);
      InSequel(a', b', u, q0, cell);
    } else if g {
      var t, u :| t in b && u in b' && |Word(t.all, cell)| < |Word(u.all, cell)|;
      InSequel(a, b, p0, t, cell);
      InSequel(a', b', p0, u, cell);
    } else {
      forall t | t in Sequel(a, b) ensures HasWord(Sequel(a', b'), cell, Word(t.all, cell)) {
        SequelWords(a, a', b, b', cell, t);
      }
    }
  }

  lemma AddsEither(a: set<Trace>, a': set<Trace>, b: set<Trace>, b': set<Trace>, cell: string, f: bool, g: bool)
    requires Adds(a, a', cell, f) && Adds(b, b', cell, g)
    ensures Adds(a + b, a' + b', cell, f || g)
  {
    if f {
      var t, u :| t in a && u in a' && |Word(t.all, cell)| < |Word(u.all, cell)|;
      assert t in a + b && u in a' + b';
    } else if g {
      var t, u :| t in b && u in b' && |Word(t.all, cell)| < |Word(u.all, cell)|;
      assert t in a + b && u in a' + b';
    } else {
      forall t | t in a + b ensures HasWord(a' + b', cell, Word(t.all, cell)) {
        if t in a {
          var u :| u in a' && Word(u.all, cell) == Word(t.all, cell);
          assert u in a' + b';
        } else {
          var u :| u in b' && Word(u.all, cell) == Word(t.all, cell);
          assert u in a' + b';
        }
      }
    }
  }

  lemma AddsOne(t: Trace, cell: string)
    ensures Adds({t}, {t}, cell, false)
  {
    assert HasWord({t}, cell, Word(t.all, cell));
  }

  /** An execution in which no arm runs. */
  lemma AddsNothing(a: set<Trace>, a': set<Trace>, cell: string, f: bool)
    requires Adds(a, a', cell, f)
    ensures Adds(a + {NOTHING}, a', cell, f || Schedule.SomePathDoes(a', cell))
  {
    assert NOTHING in a + {NOTHING} && Word(NOTHING.all, cell) == [];
    if f {
      var t, u :| t in a && u in a' && |Word(t.all, cell)| < |Word(u.all, cell)|;
      assert t in a + {NOTHING};
    } else if Schedule.SomePathDoes(a', cell) {
      var u :| u in a' && Schedule.Does(u, cell);
      WordTouches(u.all, cell);
    } else {
      var u :| u in a';
      assert !Schedule.Does(u, cell);
      WordTouches(u.all, cell);
      assert HasWord(a', cell, []);
    }
  }

  lemma {:induction false} WordTouches(es: seq<Event>, cell: string)
    ensures Word(es, cell) != [] <==> TakeOf(cell) in es || PutOf(cell) in es
  {
    if es != [] {
      WordTouches(es[1..], cell);
    }
  }

  lemma {:induction false} StmtsAdd(ss: seq<Stmt>, cell: string)
    ensures Adds(StmtsPaths(ss, true), StmtsPaths(ss, false), cell, StmtsFall(ss, cell))
    decreases ss, 0
  {
    hide Adds, Sequel;
    if ss == [] {
      AddsOne(NOTHING, cell);
    } else {
      StmtAdds(ss[0], cell);
      StmtsAdd(ss[1..], cell);
      AddsSequel(StmtPaths(ss[0], true), StmtPaths(ss[0], false), StmtsPaths(ss[1..], true), StmtsPaths(ss[1..], false),
                 cell, StmtFalls(ss[0], cell), StmtsFall(ss[1..], cell));
    }
  }

  lemma {:induction false} StmtAdds(s: Stmt, cell: string)
    ensures Adds(StmtPaths(s, true), StmtPaths(s, false), cell, StmtFalls(s, cell))
    decreases s, 1
  {
    hide Adds, Sequel;
    match s
    case Let(value) => AddsOne(ExprTrace(value), cell);
    case ExprStmt(e) => AddsOne(ExprTrace(e), cell);
    case Put(target, value) => AddsOne(ExprTrace(value).Then(Trace([PutOf(target)], [PutOf(target)])), cell);
    case If(cond, thenBody, elseBody) =>
      var t, t', f, f' := StmtsPaths(thenBody, true), StmtsPaths(thenBody, false), StmtsPaths(elseBody, true), StmtsPaths(elseBody, false);
      AddsOne(ExprTrace(cond), cell);
      StmtsAdd(thenBody, cell);
      StmtsAdd(elseBody, cell);
      AddsEither(t, t', f, f', cell, StmtsFall(thenBody, cell), StmtsFall(elseBody, cell));
      AddsSequel({ExprTrace(cond)}, {ExprTrace(cond)}, t + f, t' + f', cell, false, StmtFalls(s, cell));
    case Match(scrutinee, arms, covers) =>
      AddsOne(ExprTrace(scrutinee), cell);
      if arms == [] {
        assert Schedule.ArmsTouch(arms) == {};
      } else {
        var a, a' := ArmsPaths(arms, true), ArmsPaths(arms, false);
        ArmsAdd(arms, cell);
        Schedule.ArmsTouchedIffExecuted(arms, cell, false);
        AddsNothing(a, a', cell, ArmsFall(arms, cell));
        assert a' + {} == a' && a + {} == a;
        AddsSequel({ExprTrace(scrutinee)}, {ExprTrace(scrutinee)}, if covers then a else a + {NOTHING}, a', cell, false, StmtFalls(s, cell));
      }
  }

  lemma {:induction false} ArmsAdd(arms: seq<MatchArm>, cell: string)
    requires arms != []
    ensures Adds(ArmsPaths(arms, true), ArmsPaths(arms, false), cell, ArmsFall(arms, cell))
    decreases arms, 0
  {
    hide Adds, Sequel;
    var init, last := arms[..|arms| - 1], arms[|arms| - 1].body;
    StmtsAdd(last, cell);
    if init == [] {
      assert ArmsPaths(init, true) == {} && ArmsPaths(init, false) == {};
      assert ArmsPaths(arms, true) == StmtsPaths(last, true) && ArmsPaths(arms, false) == StmtsPaths(last, false);
    } else {
      ArmsAdd(init, cell);
      AddsEither(ArmsPaths(init, true), ArmsPaths(init, false), StmtsPaths(last, true), StmtsPaths(last, false),
                 cell, ArmsFall(init, cell), StmtsFall(last, cell));
    }
  }

  // ---------------------------------------------------------------------------
  // What silence is worth
  // ---------------------------------------------------------------------------

  /** Without a hidden take, an execution in which some arm of every match runs does what the walker sees. */
  lemma SilentWords(body: seq<Stmt>, statePorts: seq<string>, cell: string)
    requires Silent(body, statePorts) && cell in statePorts
    ensures OneWord(StmtsPaths(body, false), cell) <==> !StmtsHide(body, cell)
  {
    SilentIffSeenLinear(body, statePorts);
    StmtsExtend(body, cell);
    if StmtsHide(body, cell) {
      var t :| t in StmtsPaths(body, false) && Longer(t, cell);
      assert Extends(t, cell);
      assert Puts([T, P]) == 1;
      assert Word(t.all, cell) != [] && Word(t.all, cell) != [T, P];
    } else {
      assert forall t | t in StmtsPaths(body, false) :: Word(t.all, cell) == Word(t.seen, cell);
    }
  }

  /** Main result. A rule that passes really is linear in a cell exactly when it hides no take of that cell and no
      match that can fall through touches it. */
  lemma SilentIsLinearIff(body: seq<Stmt>, statePorts: seq<string>, cell: string)
    requires Silent(body, statePorts) && cell in statePorts
    ensures Linear(body, cell) <==> !StmtsHide(body, cell) && !StmtsFall(body, cell)
  {
    SilentWords(body, statePorts, cell);
    StmtsAdd(body, cell);
    FallingAddsNoWord(StmtsPaths(body, true), StmtsPaths(body, false), cell, StmtsFall(body, cell));
  }

  lemma FallingAddsNoWord(all: set<Trace>, some: set<Trace>, cell: string, falls: bool)
    requires Adds(all, some, cell, falls)
    ensures OneWord(all, cell) <==> OneWord(some, cell) && !falls
  {
    hide Word;
    if falls {
      var t, u :| t in all && u in some && |Word(t.all, cell)| < |Word(u.all, cell)|;
      TwoWords(all, t, u, cell);
    } else {
      NoOtherWord(all, some, cell, []);
      NoOtherWord(all, some, cell, [T, P]);
    }
  }

  lemma TwoWords(paths: set<Trace>, t: Trace, u: Trace, cell: string)
    requires t in paths && u in paths && Word(t.all, cell) != Word(u.all, cell)
    ensures !OneWord(paths, cell)
  {
  }

  ghost predicate AllAre(paths: set<Trace>, cell: string, w: seq<Op>) {
    forall t | t in paths :: Word(t.all, cell) == w
  }

  lemma NoOtherWord(all: set<Trace>, some: set<Trace>, cell: string, w: seq<Op>)
    requires Adds(all, some, cell, false)
    ensures AllAre(all, cell, w) <==> AllAre(some, cell, w)
  {
    hide Word;
    if AllAre(some, cell, w) {
      forall t | t in all ensures Word(t.all, cell) == w {
        assert HasWord(some, cell, Word(t.all, cell));
      }
    }
  }

  /** A take where the walk does not look: in a record, a field, an index, an update or a slice. */
  function Wrapped(place: nat, take: Expr): Expr {
    match place
    case 0 => Record([take])
    case 1 => FieldAccess(take)
    case 2 => Index(take, Var)
    case 3 => Index(Var, take)
    case 4 => Update(take, Var, Var)
    case 5 => Update(Var, take, Var)
    case 6 => Update(Var, Var, take)
    case _ => BitSlice(take)
  }

  lemma WrappedHides(place: nat, cell: string)
    ensures TakeOf(cell) in AllTakes(Wrapped(place, Take(cell))) && HidesTake(Wrapped(place, Take(cell)), cell)
    ensures ExprOutcome(Wrapped(place, Take(cell)), cell, Untouched) == Outcome(Untouched, {})
  {
    assert [Take(cell)][1..] == [];
    assert AllTakesOf([Take(cell)]) == [TakeOf(cell)];
    assert AllTakes(Var) == [];
  }

  /** In each of these places a take that is never put back passes in silence. */
  lemma HiddenTakePasses(place: nat, cell: string)
    ensures var body := [Let(Wrapped(place, Take(cell)))];
            Silent(body, [cell]) && !Linear(body, cell)
  {
    var body := [Let(Wrapped(place, Take(cell)))];
    WrappedHides(place, cell);
    hide Wrapped, AllTakes, HidesTake, ExprOutcome;
    assert body[1..] == [];
    var o := StmtOutcome(body[0], cell, Untouched);
    assert StmtsOutcome(body, cell, Untouched) == Outcome(Untouched, {});
    assert StmtsHide(body, cell);
    SilentIsLinearIff(body, [cell], cell);
  }

  /** And so does one with a put that only some values reach: `let x = c.take()  match y { 0 => { c.put(x) } }`. */
  lemma FallThroughPasses(cell: string)
    ensures var body := [Let(Take(cell)), Match(Var, [MatchArm([Put(cell, Var)])], false)];
            Silent(body, [cell]) && !StmtsHide(body, cell) && !Linear(body, cell)
  {
    var put := [Put(cell, Var)];
    var arms := [MatchArm(put)];
    var branch := Match(Var, arms, false);
    var body := [Let(Take(cell)), branch];
    assert body[1..] == [branch] && [branch][1..] == [] && put[1..] == [] && arms[..0] == [] && arms[1..] == [];
    PutIsSilent(cell, put, arms);
    assert StmtOutcome(branch, cell, Taken) == Outcome(PutBack, {});
    assert StmtsOutcome([branch], cell, Taken) == Outcome(PutBack, {});
    assert StmtsOutcome(body, cell, Untouched) == Outcome(PutBack, {});
    assert StmtFalls(branch, cell) && StmtsFall([branch], cell) && StmtsFall(body, cell);
    assert !StmtHides(branch, cell) && !StmtsHide([branch], cell) && !StmtsHide(body, cell);
    SilentIsLinearIff(body, [cell], cell);
  }

  lemma PutIsSilent(cell: string, put: seq<Stmt>, arms: seq<MatchArm>)
    requires put == [Put(cell, Var)] && arms == [MatchArm(put)]
    ensures ArmsOutcome(arms, cell, Taken) == Outcome(PutBack, {})
    ensures cell in Schedule.ArmsTouch(arms) && !ArmsHide(arms, cell)
  {
    assert put[1..] == [] && arms[..0] == [] && arms[1..] == [];
    assert StmtsOutcome([], cell, PutBack) == Outcome(PutBack, {});
    assert StmtsOutcome(put, cell, Taken) == Outcome(PutBack, {});
    assert ArmsProblems([], cell, Taken) == {} && !ArmsDisagree(arms, cell, Taken);
    assert cell in Schedule.StmtsTouch(put);
    assert !StmtsHide([], cell) && !StmtsHide(put, cell) && !ArmsHide([], cell);
  }
}
