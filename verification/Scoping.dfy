/** Names bound by indexed reads: which expanded programs the type check accepts, which accepted ones keep their
    meaning, and what the emitter makes of a name. */
module Scoping {
  import opened Options
  import opened Desugar
  import opened Expansion

  // ---------------------------------------------------------------------------
  // Scopes
  // ---------------------------------------------------------------------------

  /** What an indexed read does to its name for the statements after it: it binds it, as the program says;
      it leaves it as it was; or the name is out of scope until it is bound again. */
  datatype Reading = Binds | Keeps | Drops

  /** The type check does not visit the index of an index expression, nor the index and the value of an update. */
  datatype Positions = Visited | Unvisited | Everywhere

  /** Every variable and port that an expression uses in these positions is known. */
  predicate ExprScoped(e: Expr, names: set<string>, pos: Positions)
    decreases e
  {
    match e
    case Var(x) => pos == Unvisited || x in names
    case Op(_, args) => ExprsScoped(args, names, pos)
    case Index(inner, index) =>
      ExprScoped(inner, names, pos) && (pos == Visited || ExprScoped(index, names, Everywhere))
    case Update(inner, operands) =>
      ExprScoped(inner, names, pos) && (pos == Visited || ExprsScoped(operands, names, Everywhere))
    case MethodCall(receiver, _, args) => ExprScoped(receiver, names, pos) && ExprsScoped(args, names, pos)
    case Take(q) => pos == Unvisited || q in names
    case TryTake(q) => pos == Unvisited || q in names
    case Peek(q) => pos == Unvisited || q in names
    case Lit(_) => true
  }

  predicate ExprsScoped(es: seq<Expr>, names: set<string>, pos: Positions)
    decreases es
  {
    es == [] || (ExprScoped(es[0], names, pos) && ExprsScoped(es[1..], names, pos))
  }

  function LetBinds(p: Pattern): set<string> {
    if p.BindPattern? then {p.name} else {}
  }

  function ArmBinds(p: Pattern): set<string> {
    match p
    case BindPattern(x) => {x}
    case SomePattern(x) => {x}
    case _ => {}
  }

  /** The names known after a statement. Those bound in a branch end with it. */
  function After(s: Stmt, names: set<string>, sizes: Sizes, reading: Reading): set<string> {
    if !s.Let? then names
    else if !IsIndexedRead(s, sizes) || reading == Binds then names + LetBinds(s.pattern)
    else if reading == Keeps then names
    else names - LetBinds(s.pattern)
  }

  /** Every variable is known where it is used. The value put to an array without elements is used nowhere. */
  predicate StmtScoped(s: Stmt, names: set<string>, sizes: Sizes, reading: Reading, pos: Positions)
    decreases s
  {
    match s
    case Let(_, value) =>
      if IsIndexedRead(s, sizes) then ExprScoped(value.receiver.index, names, pos) else ExprScoped(value, names, pos)
    case ExprStmt(e) =>
      if e.MethodCall? && e.m == PutMethod && IsElement(e.receiver, sizes) then
        ExprScoped(e.receiver.index, names, pos) && (sizes[e.receiver.inner.name] == 0 || ExprsScoped(e.args, names, pos))
      else ExprScoped(e, names, pos)
    case Put(target, value) => (pos == Unvisited || target in names) && ExprScoped(value, names, pos)
    case If(cond, thenBody, elseBody) =>
      ExprScoped(cond, names, pos) && StmtsScoped(thenBody, names, sizes, reading, pos) && StmtsScoped(elseBody, names, sizes, reading, pos)
    case Match(scrutinee, arms) => ExprScoped(scrutinee, names, pos) && ArmsScoped(arms, names, sizes, reading, pos)
  }

  predicate StmtsScoped(ss: seq<Stmt>, names: set<string>, sizes: Sizes, reading: Reading, pos: Positions)
    decreases ss
  {
    ss == [] || (StmtScoped(ss[0], names, sizes, reading, pos) && StmtsScoped(ss[1..], After(ss[0], names, sizes, reading), sizes, reading, pos))
  }

  predicate ArmsScoped(arms: seq<Arm>, names: set<string>, sizes: Sizes, reading: Reading, pos: Positions)
    decreases arms
  {
    arms == [] || (StmtsScoped(arms[0].body, names + ArmBinds(arms[0].pattern), sizes, reading, pos)
                   && ArmsScoped(arms[1..], names, sizes, reading, pos))
  }

  /** The scope check on the expanded program, which has no arrays. */
  predicate Accepted(ss: seq<Stmt>, names: set<string>) {
    StmtsScoped(ss, names, map[], Binds, Visited)
  }

  /** The ports that stand for elements are declared. */
  ghost predicate ElementsKnown(names: set<string>, sizes: Sizes) {
    forall a, i: nat | a in sizes && i < sizes[a] :: ElementName(a, i) in names
  }

  // ---------------------------------------------------------------------------
  // Which expansions are accepted
  // ---------------------------------------------------------------------------

  lemma {:induction false} ExprScopedSame(e: Expr, names: set<string>, sizes: Sizes, pos: Positions)
    requires ExprOk(e, sizes)
    ensures ExprScoped(DesugarExpr(e), names, pos) <==> ExprScoped(e, names, pos)
    decreases e
  {
    match e
    case Op(op, args) => ExprsScopedSame(args, names, sizes, pos);
    case Index(inner, index) =>
      ExprScopedSame(inner, names, sizes, pos);
      ExprScopedSame(index, names, sizes, Everywhere);
    case Update(inner, operands) =>
      ExprScopedSame(inner, names, sizes, pos);
      ExprsScopedSame(operands, names, sizes, Everywhere);
    case MethodCall(receiver, m, _) => assert DesugarExpr(receiver) == receiver;
    case _ =>
  }

  lemma {:induction false} ExprsScopedSame(es: seq<Expr>, names: set<string>, sizes: Sizes, pos: Positions)
    requires ExprsOk(es, sizes)
    ensures ExprsScoped(DesugarExprs(es), names, pos) <==> ExprsScoped(es, names, pos)
    decreases es
  {
    if es != [] {
      ExprScopedSame(es[0], names, sizes, pos);
      ExprsScopedSame(es[1..], names, sizes, pos);
    }
  }

  /** Arms that bind nothing in their patterns and hold one statement each. */
  lemma {:induction false} UniformArms(arms: seq<Arm>, names: set<string>, ok: bool)
    requires forall i | 0 <= i < |arms| ::
               arms[i].pattern.LitPattern? && |arms[i].body| == 1 && StmtScoped(arms[i].body[0], names, map[], Binds, Visited) == ok
    ensures ArmsScoped(arms, names, map[], Binds, Visited) <==> arms == [] || ok
    decreases arms
  {
    if arms != [] {
      UniformArms(arms[1..], names, ok);
      assert names + ArmBinds(arms[0].pattern) == names;
      assert StmtsScoped(arms[0].body[1..], After(arms[0].body[0], names, map[], Binds), map[], Binds, Visited);
    }
  }

  lemma IndexedLetScoped(a: string, size: nat, index: Expr, m: Method, p: Pattern, names: set<string>)
    requires IsRead(m) && forall i: nat | i < size :: ElementName(a, i) in names
    ensures StmtScoped(ExpandIndexedLet(a, size, index, m, p), names, map[], Binds, Visited) <==> ExprScoped(index, names, Visited)
  {
    hide ElementName;
    UniformArms(ExpandIndexedLet(a, size, index, m, p).arms, names, true);
  }

  lemma IndexedPutScoped(a: string, size: nat, index: Expr, value: Expr, names: set<string>)
    requires forall i: nat | i < size :: ElementName(a, i) in names
    ensures StmtScoped(ExpandIndexedPut(a, size, index, value), names, map[], Binds, Visited)
            <==> ExprScoped(index, names, Visited) && (size == 0 || ExprScoped(value, names, Visited))
  {
    hide ElementName;
    UniformArms(ExpandIndexedPut(a, size, index, value).arms, names, ExprScoped(value, names, Visited));
  }

  lemma {:induction false} StmtAcceptedIff(s: Stmt, names: set<string>, sizes: Sizes)
    requires StmtOk(s, sizes) && ElementsKnown(names, sizes)
    ensures StmtScoped(DesugarStmt(s, sizes), names, map[], Binds, Visited) <==> StmtScoped(s, names, sizes, Keeps, Visited)
    ensures After(DesugarStmt(s, sizes), names, map[], Binds) == After(s, names, sizes, Keeps)
    decreases s
  {
    hide Apart, ElementName;
    match s
    case Let(p, value) =>
      if IsIndexedRead(s, sizes) {
        var a := value.receiver.inner.name;
        ExprScopedSame(value.receiver.index, names, sizes, Visited);
        IndexedLetScoped(a, sizes[a], DesugarExpr(value.receiver.index), value.m, p, names);
      } else {
        NoCallLeft(value, sizes);
        ExprScopedSame(value, names, sizes, Visited);
      }
    case ExprStmt(e) => ExprStmtAcceptedIff(e, names, sizes);
    case Put(_, value) => ExprScopedSame(value, names, sizes, Visited);
    case If(cond, thenBody, elseBody) =>
      ExprScopedSame(cond, names, sizes, Visited);
      AcceptedIff(thenBody, names, sizes);
      AcceptedIff(elseBody, names, sizes);
    case Match(scrutinee, arms) =>
      ExprScopedSame(scrutinee, names, sizes, Visited);
      ArmsAcceptedIff(arms, names, sizes);
  }

  lemma ExprStmtAcceptedIff(e: Expr, names: set<string>, sizes: Sizes)
    requires StmtOk(ExprStmt(e), sizes) && ElementsKnown(names, sizes)
    ensures StmtScoped(DesugarStmt(ExprStmt(e), sizes), names, map[], Binds, Visited) <==> StmtScoped(ExprStmt(e), names, sizes, Keeps, Visited)
    ensures !DesugarStmt(ExprStmt(e), sizes).Let?
  {
    hide Apart, ElementName;
    if e.MethodCall? && e.m == PutMethod {
      var value := e.args[0];
      ExprScopedSame(value, names, sizes, Visited);
      assert ExprsScoped(e.args, names, Visited) <==> ExprScoped(value, names, Visited);
      if IsElement(e.receiver, sizes) {
        var a := e.receiver.inner.name;
        ExprScopedSame(e.receiver.index, names, sizes, Visited);
        IndexedPutScoped(a, sizes[a], DesugarExpr(e.receiver.index), DesugarExpr(value), names);
      } else {
        PlainPut(e, sizes);
        PutScoped(e, names);
      }
    } else {
      NoCallLeft(e, sizes);
      ExprScopedSame(e, names, sizes, Visited);
    }
  }

  lemma PutScoped(e: Expr, names: set<string>)
    requires e.MethodCall? && e.receiver.Var? && |e.args| == 1
    ensures ExprScoped(e, names, Visited) <==> e.receiver.name in names && ExprScoped(e.args[0], names, Visited)
  {
    assert ExprsScoped(e.args, names, Visited) <==> ExprScoped(e.args[0], names, Visited);
  }

  /** Main result on acceptance. The expanded program passes the scope check exactly when the program does with every
      indexed read binding nothing for what follows: no name may be used that only an indexed read has bound. */
  lemma {:induction false} AcceptedIff(ss: seq<Stmt>, names: set<string>, sizes: Sizes)
    requires StmtsOk(ss, sizes) && ElementsKnown(names, sizes)
    ensures Accepted(DesugarStmts(ss, sizes), names) <==> StmtsScoped(ss, names, sizes, Keeps, Visited)
    decreases ss
  {
    assert ss != [] ==> names <= After(ss[0], names, sizes, Keeps);
    hide StmtScoped, After, DesugarStmt;
    if ss != [] {
      StmtAcceptedIff(ss[0], names, sizes);
      AcceptedIff(ss[1..], After(ss[0], names, sizes, Keeps), sizes);
    }
  }

  lemma {:induction false} ArmsAcceptedIff(arms: seq<Arm>, names: set<string>, sizes: Sizes)
    requires ArmsOk(arms, sizes) && ElementsKnown(names, sizes)
    ensures ArmsScoped(DesugarArms(arms, sizes), names, map[], Binds, Visited) <==> ArmsScoped(arms, names, sizes, Keeps, Visited)
    decreases arms
  {
    hide StmtsScoped, DesugarStmts;
    if arms != [] {
      AcceptedIff(arms[0].body, names + ArmBinds(arms[0].pattern), sizes);
      ArmsAcceptedIff(arms[1..], names, sizes);
    }
  }

  // ---------------------------------------------------------------------------
  // Which accepted expansions keep their meaning
  // ---------------------------------------------------------------------------

  /** The same values for the names that are known. */
  predicate Alike(names: set<string>, x: Env, y: Env) {
    forall n | n in names :: (n in x <==> n in y) && (n in x ==> x[n] == y[n])
  }

  /** Two runs that end with the same ports, and alike in the names that are known. */
  predicate Close(x: Result<Env>, y: Result<Env>, names: set<string>) {
    match x
    case Blocked => y == Blocked
    case Done(env, store) => y.Done? && y.store == store && Alike(names, env, y.value)
  }

  lemma {:induction false} ExprClose(ops: Ops, e: Expr, x: Env, y: Env, store: Store, names: set<string>)
    requires ExprScoped(e, names, Everywhere) && Alike(names, x, y)
    ensures Eval(ops, e, x, store) == Eval(ops, e, y, store)
    decreases e
  {
    match e
    case Op(_, args) => ExprsClose(ops, args, x, y, store, names);
    case Index(inner, index) =>
      ExprClose(ops, inner, x, y, store, names);
      var r := Eval(ops, inner, x, store);
      if r.Done? {
        ExprClose(ops, index, x, y, r.store, names);
      }
    case Update(inner, operands) =>
      ExprClose(ops, inner, x, y, store, names);
      var r := Eval(ops, inner, x, store);
      if r.Done? {
        ExprsClose(ops, operands, x, y, r.store, names);
      }
    case _ =>
  }

  lemma {:induction false} ExprsClose(ops: Ops, es: seq<Expr>, x: Env, y: Env, store: Store, names: set<string>)
    requires ExprsScoped(es, names, Everywhere) && Alike(names, x, y)
    ensures EvalAll(ops, es, x, store) == EvalAll(ops, es, y, store)
    decreases es
  {
    if es != [] {
      ExprClose(ops, es[0], x, y, store, names);
      var r := Eval(ops, es[0], x, store);
      if r.Done? {
        ExprsClose(ops, es[1..], x, y, r.store, names);
      }
    }
  }

  lemma {:induction false} StmtClose(ops: Ops, s: Stmt, x: Env, y: Env, store: Store, names: set<string>, sizes: Sizes)
    requires StmtOk(s, sizes) && StmtScoped(s, names, sizes, Drops, Everywhere) && Alike(names, x, y) && Fits(store, sizes)
    ensures Close(Exec(ops, s, x, store), Exec(ops, DiscardStmt(s, sizes), y, store), After(s, names, sizes, Drops))
    decreases s
  {
    hide Apart, Read, Leave, ExecAll, ExecArms, Write, Selected;
    match s
    case Let(p, value) => LetClose(ops, p, value, x, y, store, names, sizes);
    case ExprStmt(e) => ExprStmtClose(ops, e, x, y, store, names, sizes);
    case Put(_, value) => ExprClose(ops, value, x, y, store, names);
    case If(cond, thenBody, elseBody) =>
      ExprClose(ops, cond, x, y, store, names);
      var c := Eval(ops, cond, x, store);
      if c.Done? {
        var body := if c.value != Num(0) then thenBody else elseBody;
        StmtsClose(ops, body, x, y, c.store, names, sizes);
        LeavesClose(ExecAll(ops, body, x, c.store), ExecAll(ops, DiscardStmts(body, sizes), y, c.store), x, y, names);
      }
    case Match(scrutinee, arms) =>
      ExprClose(ops, scrutinee, x, y, store, names);
      var v := Eval(ops, scrutinee, x, store);
      if v.Done? {
        ArmsClose(ops, arms, v.value, x, y, v.store, names, sizes);
        LeavesClose(ExecArms(ops, arms, v.value, x, v.store), ExecArms(ops, DiscardArms(arms, sizes), v.value, y, v.store), x, y, names);
      }
  }

  lemma LetClose(ops: Ops, p: Pattern, value: Expr, x: Env, y: Env, store: Store, names: set<string>, sizes: Sizes)
    requires var s := Let(p, value);
             StmtOk(s, sizes) && StmtScoped(s, names, sizes, Drops, Everywhere) && Alike(names, x, y)
    ensures var s := Let(p, value);
            Close(Exec(ops, s, x, store), Exec(ops, DiscardStmt(s, sizes), y, store), After(s, names, sizes, Drops))
  {
    hide Apart, Read, Eval, ExprScoped;
    if IsIndexedRead(Let(p, value), sizes) {
      ExprClose(ops, value.receiver.index, x, y, store, names);
    } else {
      ExprClose(ops, value, x, y, store, names);
    }
  }

  lemma LeavesClose(r: Result<Env>, r': Result<Env>, x: Env, y: Env, names: set<string>)
    requires Close(r, r', {}) && Alike(names, x, y)
    ensures Close(Leave(r, x), Leave(r', y), names)
  {
  }

  lemma ExprStmtClose(ops: Ops, e: Expr, x: Env, y: Env, store: Store, names: set<string>, sizes: Sizes)
    requires StmtOk(ExprStmt(e), sizes) && StmtScoped(ExprStmt(e), names, sizes, Drops, Everywhere) && Alike(names, x, y) && Fits(store, sizes)
    ensures Close(Exec(ops, ExprStmt(e), x, store), Exec(ops, ExprStmt(e), y, store), names)
  {
    hide Apart, Read;
    if e.MethodCall? && e.m == PutMethod {
      if IsElement(e.receiver, sizes) {
        ExprClose(ops, e.receiver.index, x, y, store, names);
        var i := Eval(ops, e.receiver.index, x, store);
        if i.Done? && Selected(e.receiver.inner.name, i.value, i.store).Some? {
          ExprClose(ops, e.args[0], x, y, i.store, names);
        }
      } else {
        assert ExprsScoped(e.args, names, Everywhere);
        ExprClose(ops, e.args[0], x, y, store, names);
      }
    } else {
      ExprClose(ops, e, x, y, store, names);
    }
  }

  lemma {:induction false} StmtsClose(ops: Ops, ss: seq<Stmt>, x: Env, y: Env, store: Store, names: set<string>, sizes: Sizes)
    requires StmtsOk(ss, sizes) && StmtsScoped(ss, names, sizes, Drops, Everywhere) && Alike(names, x, y) && Fits(store, sizes)
    ensures Close(ExecAll(ops, ss, x, store), ExecAll(ops, DiscardStmts(ss, sizes), y, store), {})
    decreases ss
  {
    hide Exec, StmtOk, StmtScoped, After, DiscardStmt;
    if ss != [] {
      StmtClose(ops, ss[0], x, y, store, names, sizes);
      var a, b := Exec(ops, ss[0], x, store), Exec(ops, DiscardStmt(ss[0], sizes), y, store);
      if a.Done? {
        StmtsClose(ops, ss[1..], a.value, b.value, a.store, After(ss[0], names, sizes, Drops), sizes);
      }
    }
  }

  lemma {:induction false} ArmsClose(ops: Ops, arms: seq<Arm>, v: Value, x: Env, y: Env, store: Store, names: set<string>, sizes: Sizes)
    requires ArmsOk(arms, sizes) && ArmsScoped(arms, names, sizes, Drops, Everywhere) && Alike(names, x, y) && Fits(store, sizes)
    ensures Close(ExecArms(ops, arms, v, x, store), ExecArms(ops, DiscardArms(arms, sizes), v, y, store), {})
    decreases arms
  {
    hide ExecAll, StmtsOk, StmtsScoped, DiscardStmts;
    if arms != [] {
      var p := arms[0].pattern;
      match Try(p, v, x)
      case Bound(x') =>
        var y' := Try(p, v, y).env;
        StmtsClose(ops, arms[0].body, x', y', store, names + ArmBinds(p), sizes);
      case NoMatch => ArmsClose(ops, arms[1..], v, x, y, store, names, sizes);
    }
  }

  /** Elements only where the arrays have them. */
  ghost predicate Fits(store: Store, sizes: Sizes) {
    forall a, i: nat | Element(a, i) in store :: a in sizes && i < sizes[a]
  }

  /** No indexed read gives a new word to a name that is already known. */
  predicate StmtUnshadowed(s: Stmt, names: set<string>, sizes: Sizes)
    decreases s
  {
    match s
    case Let(p, _) => IsIndexedRead(s, sizes) ==> LetBinds(p) !! names
    case If(_, thenBody, elseBody) => Unshadowed(thenBody, names, sizes) && Unshadowed(elseBody, names, sizes)
    case Match(_, arms) => ArmsUnshadowed(arms, names, sizes)
    case _ => true
  }

  predicate Unshadowed(ss: seq<Stmt>, names: set<string>, sizes: Sizes)
    decreases ss
  {
    ss == [] || (StmtUnshadowed(ss[0], names, sizes) && Unshadowed(ss[1..], After(ss[0], names, sizes, Keeps), sizes))
  }

  predicate ArmsUnshadowed(arms: seq<Arm>, names: set<string>, sizes: Sizes)
    decreases arms
  {
    arms == [] || (Unshadowed(arms[0].body, names + ArmBinds(arms[0].pattern), sizes) && ArmsUnshadowed(arms[1..], names, sizes))
  }

  lemma {:induction false} StmtStaysScoped(s: Stmt, names: set<string>, sizes: Sizes, pos: Positions)
    requires StmtScoped(s, names, sizes, Keeps, pos) && StmtUnshadowed(s, names, sizes)
    ensures StmtScoped(s, names, sizes, Drops, pos) && After(s, names, sizes, Drops) == After(s, names, sizes, Keeps)
    decreases s
  {
    match s
    case If(_, thenBody, elseBody) =>
      StaysScoped(thenBody, names, sizes, pos);
      StaysScoped(elseBody, names, sizes, pos);
    case Match(_, arms) => ArmsStayScoped(arms, names, sizes, pos);
    case _ =>
  }

  lemma {:induction false} StaysScoped(ss: seq<Stmt>, names: set<string>, sizes: Sizes, pos: Positions)
    requires StmtsScoped(ss, names, sizes, Keeps, pos) && Unshadowed(ss, names, sizes)
    ensures StmtsScoped(ss, names, sizes, Drops, pos)
    decreases ss
  {
    hide StmtScoped, After, StmtUnshadowed;
    if ss != [] {
      StmtStaysScoped(ss[0], names, sizes, pos);
      StaysScoped(ss[1..], After(ss[0], names, sizes, Keeps), sizes, pos);
    }
  }

  lemma {:induction false} ArmsStayScoped(arms: seq<Arm>, names: set<string>, sizes: Sizes, pos: Positions)
    requires ArmsScoped(arms, names, sizes, Keeps, pos) && ArmsUnshadowed(arms, names, sizes)
    ensures ArmsScoped(arms, names, sizes, Drops, pos)
    decreases arms
  {
    hide StmtsScoped, Unshadowed;
    if arms != [] {
      StaysScoped(arms[0].body, names + ArmBinds(arms[0].pattern), sizes, pos);
      ArmsStayScoped(arms[1..], names, sizes, pos);
    }
  }

  // Everywhere is the visited and the unvisited positions together.

  lemma {:induction false} ExprEverywhere(e: Expr, names: set<string>)
    ensures ExprScoped(e, names, Everywhere) <==> ExprScoped(e, names, Visited) && ExprScoped(e, names, Unvisited)
    decreases e
  {
    match e
    case Op(_, args) => ExprsEverywhere(args, names);
    case Index(inner, _) => ExprEverywhere(inner, names);
    case Update(inner, _) => ExprEverywhere(inner, names);
    case MethodCall(receiver, _, args) =>
      ExprEverywhere(receiver, names);
      ExprsEverywhere(args, names);
    case _ =>
  }

  lemma {:induction false} ExprsEverywhere(es: seq<Expr>, names: set<string>)
    ensures ExprsScoped(es, names, Everywhere) <==> ExprsScoped(es, names, Visited) && ExprsScoped(es, names, Unvisited)
    decreases es
  {
    if es != [] {
      ExprEverywhere(es[0], names);
      ExprsEverywhere(es[1..], names);
    }
  }

  lemma {:induction false} StmtEverywhere(s: Stmt, names: set<string>, sizes: Sizes, reading: Reading)
    ensures StmtScoped(s, names, sizes, reading, Everywhere)
            <==> StmtScoped(s, names, sizes, reading, Visited) && StmtScoped(s, names, sizes, reading, Unvisited)
    decreases s
  {
    hide ExprScoped, ExprsScoped, After;
    match s
    case Let(_, value) => ExprEverywhere(if IsIndexedRead(s, sizes) then value.receiver.index else value, names);
    case ExprStmt(e) =>
      ExprEverywhere(e, names);
      if e.MethodCall? && IsElement(e.receiver, sizes) {
        ExprEverywhere(e.receiver.index, names);
        ExprsEverywhere(e.args, names);
      }
    case Put(_, value) => ExprEverywhere(value, names);
    case If(cond, thenBody, elseBody) =>
      ExprEverywhere(cond, names);
      StmtsEverywhere(thenBody, names, sizes, reading);
      StmtsEverywhere(elseBody, names, sizes, reading);
    case Match(scrutinee, arms) =>
      ExprEverywhere(scrutinee, names);
      ArmsEverywhere(arms, names, sizes, reading);
  }

  lemma {:induction false} StmtsEverywhere(ss: seq<Stmt>, names: set<string>, sizes: Sizes, reading: Reading)
    ensures StmtsScoped(ss, names, sizes, reading, Everywhere)
            <==> StmtsScoped(ss, names, sizes, reading, Visited) && StmtsScoped(ss, names, sizes, reading, Unvisited)
    decreases ss
  {
    hide StmtScoped, After;
    if ss != [] {
      StmtEverywhere(ss[0], names, sizes, reading);
      StmtsEverywhere(ss[1..], After(ss[0], names, sizes, reading), sizes, reading);
    }
  }

  lemma {:induction false} ArmsEverywhere(arms: seq<Arm>, names: set<string>, sizes: Sizes, reading: Reading)
    ensures ArmsScoped(arms, names, sizes, reading, Everywhere)
            <==> ArmsScoped(arms, names, sizes, reading, Visited) && ArmsScoped(arms, names, sizes, reading, Unvisited)
    decreases arms
  {
    hide StmtsScoped;
    if arms != [] {
      StmtsEverywhere(arms[0].body, names + ArmBinds(arms[0].pattern), sizes, reading);
      ArmsEverywhere(arms[1..], names, sizes, reading);
    }
  }

  /** Main result on meaning. When no name is used after an indexed read has rebound it, the expanded program on
      scalar ports leaves every port as the indexed program leaves it, and blocks when it does: for every
      array size, every content and every nesting. */
  lemma ExpansionPreservesMeaning(ops: Ops, body: seq<Stmt>, env: Env, store: Store, names: set<string>, sizes: Sizes)
    requires StmtsOk(body, sizes) && Declared(store, sizes) && StmtsScoped(body, names, sizes, Drops, Everywhere)
    ensures var indexed := ExecAll(ops, body, env, store);
            var expanded := ExecAll(ops, DesugarStmts(body, sizes), env, Flatten(store, sizes));
            if indexed.Blocked? then expanded.Blocked? else expanded.Done? && Same(indexed.store, expanded.store, sizes)
  {
    StmtsClose(ops, body, env, env, store, names, sizes);
    ExpansionIsDiscarding(ops, body, env, store, sizes);
  }

  /** So does every accepted program whose indexed reads shadow no known name and whose names in the
      positions the type check does not visit are known as well. */
  lemma AcceptedUnshadowedMeansTheSame(ops: Ops, body: seq<Stmt>, env: Env, store: Store, names: set<string>, sizes: Sizes)
    requires StmtsOk(body, sizes) && Declared(store, sizes) && ElementsKnown(names, sizes)
    requires Accepted(DesugarStmts(body, sizes), names) && Unshadowed(body, names, sizes)
    requires StmtsScoped(body, names, sizes, Keeps, Unvisited)
    ensures var indexed := ExecAll(ops, body, env, store);
            var expanded := ExecAll(ops, DesugarStmts(body, sizes), env, Flatten(store, sizes));
            if indexed.Blocked? then expanded.Blocked? else expanded.Done? && Same(indexed.store, expanded.store, sizes)
  {
    AcceptedIff(body, names, sizes);
    StmtsEverywhere(body, names, sizes, Keeps);
    StaysScoped(body, names, sizes, Everywhere);
    ExpansionPreservesMeaning(ops, body, env, store, names, sizes);
  }

  // ---------------------------------------------------------------------------
  // Programs that are rejected, or mean something else
  // ---------------------------------------------------------------------------

  /** `let x = a[index].m()  q.put(x)` */
  function ReadAndPut(x: string, a: string, index: Expr, m: Method, q: string): seq<Stmt> {
    [Let(BindPattern(x), MethodCall(Index(Var(a), index), m, [])), ExprStmt(MethodCall(Var(q), PutMethod, [Var(x)]))]
  }

  lemma TwoScoped(s: Stmt, t: Stmt, names: set<string>, sizes: Sizes, reading: Reading, pos: Positions)
    ensures StmtsScoped([s, t], names, sizes, reading, pos)
            <==> StmtScoped(s, names, sizes, reading, pos) && StmtScoped(t, After(s, names, sizes, reading), sizes, reading, pos)
    ensures StmtsOk([s, t], sizes) <==> StmtOk(s, sizes) && StmtOk(t, sizes)
  {
    hide StmtScoped, StmtOk, After;
    assert [s, t][1..] == [t] && [t][1..] == [];
    var known := After(s, names, sizes, reading);
    assert StmtsScoped([t], known, sizes, reading, pos) <==> StmtScoped(t, known, sizes, reading, pos);
    assert StmtsOk([t], sizes) <==> StmtOk(t, sizes);
  }

  lemma TwoRun(ops: Ops, s: Stmt, t: Stmt, env: Env, store: Store)
    requires Exec(ops, s, env, store).Done?
    ensures var r := Exec(ops, s, env, store);
            ExecAll(ops, [s, t], env, store) == Exec(ops, t, r.value, r.store)
  {
    hide Exec;
    var r := Exec(ops, s, env, store);
    assert [s, t][1..] == [t] && [t][1..] == [];
    var e := Exec(ops, t, r.value, r.store);
    assert e.Done? ==> ExecAll(ops, [], e.value, e.store) == e;
    assert ExecAll(ops, [t], r.value, r.store) == e;
  }

  /** The read as the program says it is in scope, and rejected once expanded, exactly when the name is not
      known from elsewhere. */
  lemma ReadAndPutIsRejectedIff(x: string, a: string, index: Expr, m: Method, q: string, names: set<string>, sizes: Sizes)
    requires a in sizes && IsRead(m) && ExprOk(index, sizes) && ExprScoped(index, names, Visited)
    requires Apart(q, sizes) && q in names && ElementsKnown(names, sizes)
    ensures var body := ReadAndPut(x, a, index, m, q);
            && StmtsOk(body, sizes) && StmtsScoped(body, names, sizes, Binds, Visited)
            && (Accepted(DesugarStmts(body, sizes), names) <==> x in names)
  {
    hide Apart;
    var body := ReadAndPut(x, a, index, m, q);
    var read, put := body[0], body[1];
    PutUses(x, q, names, sizes);
    PutUses(x, q, names + {x}, sizes);
    TwoScoped(read, put, names, sizes, Binds, Visited);
    TwoScoped(read, put, names, sizes, Keeps, Visited);
    AcceptedIff(body, names, sizes);
  }

  lemma PutUses(x: string, q: string, names: set<string>, sizes: Sizes)
    requires Apart(q, sizes) && q in names
    ensures var put := ExprStmt(MethodCall(Var(q), PutMethod, [Var(x)]));
            StmtOk(put, sizes) && forall r :: StmtScoped(put, names, sizes, r, Visited) <==> x in names
  {
    hide Apart;
    var e := MethodCall(Var(q), PutMethod, [Var(x)]);
    assert [Var(x)][1..] == [];
    PutScoped(e, names);
    assert forall r :: StmtScoped(ExprStmt(e), names, sizes, r, Visited) <==> ExprScoped(e, names, Visited);
  }

  lemma ReadAndPutRuns(ops: Ops, x: string, a: string, i: nat, m: Method, q: string, env: Env, store: Store, sizes: Sizes)
    requires a in sizes && IsRead(m) && x in env
    requires Element(a, i) in store && store[Element(a, i)] != [] && Scalar(q) in store
    ensures var body, word := ReadAndPut(x, a, Lit(i), m, q), Read(m, Element(a, i), store);
            && word.Done? && word.store[Scalar(q)] == store[Scalar(q)]
            && ExecAll(ops, body, env, store)
               == Done(env[x := word.value], word.store[Scalar(q) := store[Scalar(q)] + [word.value]])
            && ExecAll(ops, DiscardStmts(body, sizes), env, store)
               == Done(env, word.store[Scalar(q) := store[Scalar(q)] + [env[x]]])
  {
    var body, word := ReadAndPut(x, a, Lit(i), m, q), Read(m, Element(a, i), store);
    var read, put := body[0], body[1];
    var dropped := Let(Wildcard, read.value);
    assert DiscardStmts([put], sizes) == [put];
    assert body[1..] == [put];
    assert DiscardStmts(body, sizes) == [dropped, put];
    hide DiscardStmts;
    assert Exec(ops, read, env, store) == Done(env[x := word.value], word.store);
    assert Exec(ops, dropped, env, store) == Done(env, word.store);
    TwoRun(ops, read, put, env, store);
    TwoRun(ops, dropped, put, env, store);
  }

  /** With the name bound before, the program is accepted and puts the earlier value: it does what it says
      exactly when the word read happens to be that value. */
  lemma ShadowedNameIsOuter(ops: Ops, x: string, a: string, i: nat, m: Method, q: string, env: Env, store: Store,
                            names: set<string>, sizes: Sizes)
    requires x in names && q in names && ElementsKnown(names, sizes)
    requires a in sizes && i < sizes[a] && IsRead(m) && Apart(q, sizes) && Declared(store, sizes)
    requires x in env && Scalar(q) in store && Element(a, i) in store && store[Element(a, i)] != []
    ensures var body := ReadAndPut(x, a, Lit(i), m, q);
            var indexed := ExecAll(ops, body, env, store);
            var expanded := ExecAll(ops, DesugarStmts(body, sizes), env, Flatten(store, sizes));
            && StmtsOk(body, sizes) && Accepted(DesugarStmts(body, sizes), names)
            && indexed.Done? && expanded.Done?
            && expanded.store[Scalar(q)] == store[Scalar(q)] + [env[x]]
            && (Same(indexed.store, expanded.store, sizes) <==> Read(m, Element(a, i), store).value == env[x])
  {
    hide Apart, Read, ReadAndPut, ExecAll, Same, DiscardStmts, DesugarStmts, StmtsOk, StmtsScoped;
    var body, word := ReadAndPut(x, a, Lit(i), m, q), Read(m, Element(a, i), store);
    var flat := Flatten(store, sizes);
    var expanded := ExecAll(ops, DesugarStmts(body, sizes), env, flat);
    ReadAndPutIsRejectedIff(x, a, Lit(i), m, q, names, sizes);
    ExpansionIsDiscarding(ops, body, env, store, sizes);
    ReadAndPutRuns(ops, x, a, i, m, q, env, store, sizes);
    PutTheSameIff(word.store, expanded.store, q, store[Scalar(q)], word.value, env[x], sizes);
  }

  lemma PutTheSameIff(store: Store, flat: Store, q: string, words: seq<Value>, x: Value, y: Value, sizes: Sizes)
    requires Scalar(q) in store && Same(store[Scalar(q) := words + [y]], flat, sizes)
    ensures Scalar(q) in flat && flat[Scalar(q)] == words + [y]
    ensures Same(store[Scalar(q) := words + [x]], flat, sizes) <==> x == y
  {
    hide Same;
    SameAt(store[Scalar(q) := words + [y]], flat, q, sizes);
    if Same(store[Scalar(q) := words + [x]], flat, sizes) {
      SameAt(store[Scalar(q) := words + [x]], flat, q, sizes);
      assert (words + [x])[|words|] == (words + [y])[|words|];
    }
  }

  lemma SameAt(store: Store, flat: Store, q: string, sizes: Sizes)
    requires Same(store, flat, sizes) && Scalar(q) in store
    ensures Scalar(q) in flat && flat[Scalar(q)] == store[Scalar(q)]
  {
    assert Renamed(Scalar(q)) == Scalar(q);
  }

  /** `let k = a[i].m()  q.put(r[k])` */
  function ReadAndIndex(k: string, a: string, i: nat, m: Method, q: string, r: string): seq<Stmt> {
    [Let(BindPattern(k), MethodCall(Index(Var(a), Lit(i)), m, [])),
     ExprStmt(MethodCall(Var(q), PutMethod, [Index(Var(r), Var(k))]))]
  }

  /** The name stands where the type check does not look: the program is accepted although only an indexed read
      binds the name, and does not mean what it says: the name has no value after the expanded match. */
  lemma UnvisitedNamePasses(ops: Ops, k: string, a: string, i: nat, m: Method, q: string, r: string, env: Env, store: Store,
                            names: set<string>, sizes: Sizes)
    requires a in sizes && i < sizes[a] && IsRead(m) && Apart(q, sizes) && Declared(store, sizes) && ElementsKnown(names, sizes)
    requires q in names && r in names && k !in names && r in env && k !in env && r != k
    requires Scalar(q) in store && Element(a, i) in store && store[Element(a, i)] != []
    ensures var body := ReadAndIndex(k, a, i, m, q, r);
            && StmtsOk(body, sizes) && Unshadowed(body, names, sizes) && Accepted(DesugarStmts(body, sizes), names)
            && ExecAll(ops, body, env, store).Done?
            && ExecAll(ops, DesugarStmts(body, sizes), env, Flatten(store, sizes)).Blocked?
  {
    hide Apart, Declared;
    var body := ReadAndIndex(k, a, i, m, q, r);
    var read, put := body[0], body[1];
    assert body == [read, put];
    IndexUses(k, q, r, names, sizes);
    TwoScoped(read, put, names, sizes, Keeps, Visited);
    AcceptedIff(body, names, sizes);
    assert Unshadowed(body, names, sizes) by { ReadsOnce(read, put, names, sizes); }
    ExpansionIsDiscarding(ops, body, env, store, sizes);
    IndexedRuns(ops, k, a, i, m, q, r, env, store, sizes);
  }

  lemma ReadsOnce(read: Stmt, put: Stmt, names: set<string>, sizes: Sizes)
    requires read.Let? && put.ExprStmt? && LetBinds(read.pattern) !! names
    ensures Unshadowed([read, put], names, sizes)
  {
    assert [read, put][1..] == [put] && [put][1..] == [];
    var known := After(read, names, sizes, Keeps);
    assert Unshadowed([], After(put, known, sizes, Keeps), sizes);
    assert Unshadowed([put], known, sizes);
  }

  lemma IndexUses(k: string, q: string, r: string, names: set<string>, sizes: Sizes)
    requires Apart(q, sizes) && q in names && r in names
    ensures var put := ExprStmt(MethodCall(Var(q), PutMethod, [Index(Var(r), Var(k))]));
            StmtOk(put, sizes) && StmtScoped(put, names, sizes, Keeps, Visited)
  {
    hide Apart;
    var value := Index(Var(r), Var(k));
    assert [value][1..] == [];
    assert ExprScoped(value, names, Visited);
    PutScoped(MethodCall(Var(q), PutMethod, [value]), names);
    assert ExprOk(value, sizes);
  }

  lemma IndexedRuns(ops: Ops, k: string, a: string, i: nat, m: Method, q: string, r: string, env: Env, store: Store, sizes: Sizes)
    requires a in sizes && IsRead(m) && r in env && k !in env && r != k
    requires Element(a, i) in store && store[Element(a, i)] != [] && Scalar(q) in store
    ensures var body := ReadAndIndex(k, a, i, m, q, r);
            && ExecAll(ops, body, env, store).Done?
            && ExecAll(ops, DiscardStmts(body, sizes), env, store).Blocked?
  {
    var body, word := ReadAndIndex(k, a, i, m, q, r), Read(m, Element(a, i), store);
    var read, put := body[0], body[1];
    var dropped := Let(Wildcard, read.value);
    assert body[1..] == [put];
    assert DiscardStmts([put], sizes) == [put];
    assert DiscardStmts(body, sizes) == [dropped, put];
    hide DiscardStmts;
    assert Exec(ops, read, env, store) == Done(env[k := word.value], word.store);
    assert Exec(ops, dropped, env, store) == Done(env, word.store);
    PutsIndexed(ops, k, q, r, env[k := word.value], word.store);
    PutsIndexed(ops, k, q, r, env, word.store);
    TwoRun(ops, read, put, env, store);
    TwoRun(ops, dropped, put, env, store);
  }

  lemma PutsIndexed(ops: Ops, k: string, q: string, r: string, env: Env, store: Store)
    requires r in env && Scalar(q) in store
    ensures Exec(ops, ExprStmt(MethodCall(Var(q), PutMethod, [Index(Var(r), Var(k))])), env, store).Done? <==> k in env
  {
    var value := Index(Var(r), Var(k));
    assert Eval(ops, Var(r), env, store).Done?;
    assert Eval(ops, value, env, store).Done? <==> k in env;
  }

  // ---------------------------------------------------------------------------
  // What the emitter makes of a name
  // ---------------------------------------------------------------------------

  /** The emitter keeps, for each name, the text that replaces it from there on. */
  datatype Signal = Data(port: string) | Register(port: string) | ValidAndData(port: string) | Text(e: Expr)

  type Vars = map<string, Signal>

  function SignalOf(e: Expr): Signal {
    match e
    case Take(q) => Data(q)
    case Peek(q) => Register(q)
    case TryTake(q) => ValidAndData(q)
    case _ => Text(e)
  }

  /** The names after a statement has been emitted: branches are emitted one after the other into the
      same table. */
  function EmitStmt(s: Stmt, vars: Vars): Vars
    decreases s
  {
    match s
    case Let(p, value) => if p.BindPattern? then vars[p.name := SignalOf(value)] else vars
    case If(_, thenBody, elseBody) => EmitStmts(elseBody, EmitStmts(thenBody, vars))
    case Match(scrutinee, arms) => EmitArms(arms, scrutinee, vars)
    case _ => vars
  }

  function EmitStmts(ss: seq<Stmt>, vars: Vars): Vars
    decreases ss
  {
    if ss == [] then vars else EmitStmts(ss[1..], EmitStmt(ss[0], vars))
  }

  function EmitArms(arms: seq<Arm>, scrutinee: Expr, vars: Vars): Vars
    decreases arms
  {
    if arms == [] then vars
    else
      var bound := match arms[0].pattern
                   case BindPattern(x) => vars[x := SignalOf(scrutinee)]
                   case SomePattern(x) => vars[x := SignalOf(scrutinee)]
                   case _ => vars;
      EmitArms(arms[1..], scrutinee, EmitStmts(arms[0].body, bound))
  }

  lemma {:induction false} LastArmWins(arms: seq<Arm>, scrutinee: Expr, vars: Vars, x: string)
    requires arms != []
    requires forall i | 0 <= i < |arms| ::
               arms[i].pattern.LitPattern? && |arms[i].body| == 1 && arms[i].body[0].Let? && arms[i].body[0].pattern == BindPattern(x)
    ensures var after := EmitArms(arms, scrutinee, vars);
            x in after && after[x] == SignalOf(arms[|arms| - 1].body[0].value)
    decreases arms
  {
    var bound := EmitStmts(arms[0].body, vars);
    assert bound == EmitStmts(arms[0].body[1..], EmitStmt(arms[0].body[0], vars)) == vars[x := SignalOf(arms[0].body[0].value)];
    if |arms| > 1 {
      LastArmWins(arms[1..], scrutinee, bound, x);
    } else {
      assert EmitArms(arms[1..], scrutinee, bound) == bound;
    }
  }

  /** What the text shows while the ports hold these words. A register is always valid. */
  function Shows(sig: Signal, ports: Store): Option<Value> {
    match sig
    case Data(q) => if Scalar(q) in ports && ports[Scalar(q)] != [] then Some(ports[Scalar(q)][0]) else None
    case Register(q) => if Scalar(q) in ports && ports[Scalar(q)] != [] then Some(SomeValue(ports[Scalar(q)][0])) else None
    case ValidAndData(q) =>
      if Scalar(q) !in ports then None
      else if ports[Scalar(q)] == [] then Some(NoneValue) else Some(SomeValue(ports[Scalar(q)][0]))
    case Text(_) => None
  }

  /** Every element's port holds a word. */
  ghost predicate AllHold(a: string, size: nat, ports: Store) {
    forall j: nat | j < size :: Scalar(ElementName(a, j)) in ports && ports[Scalar(ElementName(a, j))] != []
  }

  /** `let x = first`, then the read and the put: accepted, since the name is known. In the emitted text the
      name put is the last element's, whatever the index; so the text shows the word read, whatever the
      ports hold, exactly when the index selects the last element. */
  lemma EmittedNameIsLast(first: Expr, x: string, a: string, index: Expr, i: nat, m: Method, q: string,
                          names: set<string>, sizes: Sizes, vars: Vars)
    requires a in sizes && i < sizes[a] && IsRead(m) && Apart(q, sizes)
    requires ExprOk(first, sizes) && ExprScoped(first, names, Visited) && ExprOk(index, sizes) && ExprScoped(index, names + {x}, Visited)
    requires q in names && ElementsKnown(names, sizes)
    ensures var body := [Let(BindPattern(x), first)] + ReadAndPut(x, a, index, m, q);
            var expanded := DesugarStmts(body, sizes);
            && |expanded| == 3 && Accepted(expanded, names) && expanded[2] == Put(q, Var(x))
            && var text := EmitStmts(expanded[..2], vars);
            && x in text && text[x] == SignalOf(ReadOf(m, ElementName(a, sizes[a] - 1)))
            && ((forall ports | AllHold(a, sizes[a], ports) ::
                   Shows(text[x], ports) == Some(Read(m, Scalar(ElementName(a, i)), ports).value))
                <==> i == sizes[a] - 1)
  {
    hide Apart, ElementName, AllHold;
    var body := [Let(BindPattern(x), first)] + ReadAndPut(x, a, index, m, q);
    BodyExpands(first, x, a, index, m, q, sizes);
    BodyIsAccepted(first, x, a, index, m, q, names, sizes);
    var expanded := DesugarStmts(body, sizes);
    LastArmIsText(a, sizes[a], DesugarExpr(index), m, x, expanded[..2], vars);
    ShowsLastIff(a, sizes[a], i, m);
  }

  lemma BodyExpands(first: Expr, x: string, a: string, index: Expr, m: Method, q: string, sizes: Sizes)
    requires a in sizes && IsRead(m) && ExprOk(first, sizes)
    ensures var body := [Let(BindPattern(x), first)] + ReadAndPut(x, a, index, m, q);
            DesugarStmts(body, sizes)
            == [Let(BindPattern(x), DesugarExpr(first)),
                ExpandIndexedLet(a, sizes[a], DesugarExpr(index), m, BindPattern(x)), Put(q, Var(x))]
  {
    hide ElementName, ExpandIndexedLet, Apart;
    var rest := ReadAndPut(x, a, index, m, q);
    var outer, read, put := Let(BindPattern(x), first), rest[0], rest[1];
    PlainPut(put.expr, sizes);
    NoIndexedCall(first, sizes);
    assert DesugarStmt(read, sizes) == ExpandIndexedLet(a, sizes[a], DesugarExpr(index), m, BindPattern(x));
    assert [outer] + rest == [outer, read, put];
    hide DesugarStmt;
    ThreeDesugared(outer, read, put, sizes);
  }

  lemma NoIndexedCall(e: Expr, sizes: Sizes)
    requires ExprOk(e, sizes)
    ensures forall p :: DesugarStmt(Let(p, e), sizes) == Let(p, DesugarExpr(e))
  {
  }

  lemma ThreeDesugared(s: Stmt, t: Stmt, u: Stmt, sizes: Sizes)
    ensures DesugarStmts([s, t, u], sizes) == [DesugarStmt(s, sizes), DesugarStmt(t, sizes), DesugarStmt(u, sizes)]
  {
    hide DesugarStmt;
    assert [s, t, u][1..] == [t, u] && [t, u][1..] == [u] && [u][1..] == [];
    assert DesugarStmts([u], sizes) == [DesugarStmt(u, sizes)];
    assert DesugarStmts([t, u], sizes) == [DesugarStmt(t, sizes), DesugarStmt(u, sizes)];
  }

  lemma BodyIsAccepted(first: Expr, x: string, a: string, index: Expr, m: Method, q: string, names: set<string>, sizes: Sizes)
    requires a in sizes && IsRead(m) && Apart(q, sizes)
    requires ExprOk(first, sizes) && ExprScoped(first, names, Visited) && ExprOk(index, sizes) && ExprScoped(index, names + {x}, Visited)
    requires q in names && ElementsKnown(names, sizes)
    ensures Accepted(DesugarStmts([Let(BindPattern(x), first)] + ReadAndPut(x, a, index, m, q), sizes), names)
  {
    hide Apart;
    var rest := ReadAndPut(x, a, index, m, q);
    var body := [Let(BindPattern(x), first)] + rest;
    assert body[1..] == rest;
    ReadAndPutIsRejectedIff(x, a, index, m, q, names + {x}, sizes);
    AcceptedIff(rest, names + {x}, sizes);
    AcceptedIff(body, names, sizes);
  }

  lemma LastArmIsText(a: string, size: nat, index: Expr, m: Method, x: string, ss: seq<Stmt>, vars: Vars)
    requires IsRead(m) && size > 0 && |ss| == 2 && ss[1] == ExpandIndexedLet(a, size, index, m, BindPattern(x))
    ensures var text := EmitStmts(ss, vars);
            x in text && text[x] == SignalOf(ReadOf(m, ElementName(a, size - 1)))
  {
    hide ElementName;
    var before := EmitStmt(ss[0], vars);
    assert ss[1..] == [ss[1]] && [ss[1]][1..] == [];
    assert EmitStmts([ss[1]], before) == EmitStmt(ss[1], before);
    assert EmitStmts(ss, vars) == EmitStmt(ss[1], before);
    LastArmWins(ss[1].arms, index, before, x);
  }

  lemma ShowsLastIff(a: string, size: nat, i: nat, m: Method)
    requires i < size && IsRead(m)
    ensures (forall ports | AllHold(a, size, ports) ::
               Shows(SignalOf(ReadOf(m, ElementName(a, size - 1))), ports) == Some(Read(m, Scalar(ElementName(a, i)), ports).value))
            <==> i == size - 1
  {
    hide ElementName;
    if i != size - 1 {
      if ElementName(a, i) == ElementName(a, size - 1) {
        NameInjective(a, i, a, size - 1);
      }
      var ports := OneApart(a, size, i);
      assert AllHold(a, size, ports);
    }
  }

  /** Ports that hold the same word but for element `i`. */
  ghost function OneApart(a: string, size: nat, i: nat): (ports: Store)
    ensures forall j: nat | j < size ::
              Scalar(ElementName(a, j)) in ports
              && ports[Scalar(ElementName(a, j))] == [Num(if ElementName(a, j) == ElementName(a, i) then 1 else 0)]
  {
    if size == 0 then map[]
    else
      var name := ElementName(a, size - 1);
      OneApart(a, size - 1, i)[Scalar(name) := [Num(if name == ElementName(a, i) then 1 else 0)]]
  }
}
