/** What programs over array ports mean, and what their expansion onto scalar ports means. */
module Expansion {
  import opened Options
  import opened Desugar

  // ---------------------------------------------------------------------------
  // Meaning
  // ---------------------------------------------------------------------------

  datatype Value = Num(n: nat) | NoneValue | SomeValue(inner: Value)

  /** A port, or one element of an array port. */
  datatype Ref = Scalar(name: string) | Element(a: string, i: nat)

  /** What every port holds. */
  type Store = map<Ref, seq<Value>>

  type Env = map<string, Value>

  /** What the operators mean is left open. */
  type Ops = (string, seq<Value>) -> Value

  datatype Result<T> = Blocked | Done(value: T, store: Store)

  function Read(m: Method, p: Ref, store: Store): (r: Result<Value>)
    requires IsRead(m)
    ensures r.Done? ==> r.store.Keys == store.Keys
  {
    if p !in store then Blocked
    else if m.TryTakeMethod? then
      if store[p] == [] then Done(NoneValue, store) else Done(SomeValue(store[p][0]), store[p := store[p][1..]])
    else if store[p] == [] then Blocked
    else if m.PeekMethod? then Done(SomeValue(store[p][0]), store)
    else Done(store[p][0], store[p := store[p][1..]])
  }

  function Write(r: Ref, v: Value, store: Store): Option<Store> {
    if r in store then Some(store[r := store[r] + [v]]) else None
  }

  function Eval(ops: Ops, e: Expr, env: Env, store: Store): (r: Result<Value>)
    ensures r.Done? ==> r.store.Keys == store.Keys
    decreases e
  {
    match e
    case Lit(n) => Done(Num(n), store)
    case Var(x) => if x in env then Done(env[x], store) else Blocked
    case Op(op, args) =>
      (match EvalAll(ops, args, env, store)
       case Blocked => Blocked
       case Done(vs, store') => Done(ops(op, vs), store'))
    case Index(inner, index) =>
      (match Eval(ops, inner, env, store)
       case Blocked => Blocked
       case Done(v, store') =>
         match Eval(ops, index, env, store')
         case Blocked => Blocked
         case Done(i, store'') => Done(ops("[]", [v, i]), store''))
    case Update(inner, operands) =>
      (match Eval(ops, inner, env, store)
       case Blocked => Blocked
       case Done(v, store') =>
         match EvalAll(ops, operands, env, store')
         case Blocked => Blocked
         case Done(vs, store'') => Done(ops("[:=]", [v] + vs), store''))
    case MethodCall(receiver, m, _) =>
      if IsRead(m) && receiver.Var? then Read(m, Scalar(receiver.name), store) else Blocked
    case Take(q) => Read(TakeMethod, Scalar(q), store)
    case TryTake(q) => Read(TryTakeMethod, Scalar(q), store)
    case Peek(q) => Read(PeekMethod, Scalar(q), store)
  }

  function EvalAll(ops: Ops, es: seq<Expr>, env: Env, store: Store): (r: Result<seq<Value>>)
    ensures r.Done? ==> r.store.Keys == store.Keys
    decreases es
  {
    if es == [] then Done([], store)
    else
      match Eval(ops, es[0], env, store)
      case Blocked => Blocked
      case Done(v, store') =>
        match EvalAll(ops, es[1..], env, store')
        case Blocked => Blocked
        case Done(vs, store'') => Done([v] + vs, store'')
  }

  datatype Binding = NoMatch | Bound(env: Env)

  /** A match arm's pattern against a value. */
  function Try(p: Pattern, v: Value, env: Env): Binding {
    match p
    case LitPattern(n) => if v == Num(n) then Bound(env) else NoMatch
    case BindPattern(x) => Bound(env[x := v])
    case Wildcard => Bound(env)
    case SomePattern(x) => if v.SomeValue? then Bound(env[x := v.inner]) else NoMatch
    case NonePattern => if v == NoneValue then Bound(env) else NoMatch
  }

  /** A let binds a plain name and ignores any other pattern. */
  function BindLet(p: Pattern, v: Value, env: Env): Env {
    if p.BindPattern? then env[p.name := v] else env
  }

  function Assign(p: Pattern, r: Result<Value>, env: Env): Result<Env> {
    match r
    case Blocked => Blocked
    case Done(v, store) => Done(BindLet(p, v, env), store)
  }

  function PutTo(r: Ref, v: Result<Value>, env: Env): Result<Env> {
    match v
    case Blocked => Blocked
    case Done(x, store) =>
      match Write(r, x, store)
      case None => Blocked
      case Some(store') => Done(env, store')
  }

  /** The element an index selects, if the array has it. */
  function Selected(a: string, index: Value, store: Store): Option<Ref> {
    if index.Num? && Element(a, index.n) in store then Some(Element(a, index.n)) else None
  }

  /** The end of a branch: what it did stays, the names it bound go. */
  function Leave(r: Result<Env>, env: Env): Result<Env> {
    match r
    case Blocked => Blocked
    case Done(_, store) => Done(env, store)
  }

  /** Running a statement. An indexed access reads or puts the selected element; one the array does not
      have does nothing. */
  function Exec(ops: Ops, s: Stmt, env: Env, store: Store): (r: Result<Env>)
    ensures r.Done? ==> r.store.Keys == store.Keys
    decreases s
  {
    match s
    case Let(p, value) =>
      if value.MethodCall? && IsRead(value.m) && value.receiver.Index? && value.receiver.inner.Var? then
        match Eval(ops, value.receiver.index, env, store)
        case Blocked => Blocked
        case Done(i, store') =>
          match Selected(value.receiver.inner.name, i, store')
          case None => Done(env, store')
          case Some(q) => Assign(p, Read(value.m, q, store'), env)
      else Assign(p, Eval(ops, value, env, store), env)
    case ExprStmt(e) =>
      if e.MethodCall? && e.m == PutMethod && |e.args| == 1 && e.receiver.Index? && e.receiver.inner.Var? then
        match Eval(ops, e.receiver.index, env, store)
        case Blocked => Blocked
        case Done(i, store') =>
          match Selected(e.receiver.inner.name, i, store')
          case None => Done(env, store')
          case Some(q) => PutTo(q, Eval(ops, e.args[0], env, store'), env)
      else if e.MethodCall? && e.m == PutMethod && |e.args| == 1 && e.receiver.Var? then
        PutTo(Scalar(e.receiver.name), Eval(ops, e.args[0], env, store), env)
      else Assign(Wildcard, Eval(ops, e, env, store), env)
    case Put(target, value) => PutTo(Scalar(target), Eval(ops, value, env, store), env)
    case If(cond, thenBody, elseBody) =>
      (match Eval(ops, cond, env, store)
       case Blocked => Blocked
       case Done(c, store') => Leave(ExecAll(ops, if c != Num(0) then thenBody else elseBody, env, store'), env))
    case Match(scrutinee, arms) =>
      (match Eval(ops, scrutinee, env, store)
       case Blocked => Blocked
       case Done(v, store') => Leave(ExecArms(ops, arms, v, env, store'), env))
  }

  function ExecAll(ops: Ops, ss: seq<Stmt>, env: Env, store: Store): (r: Result<Env>)
    ensures r.Done? ==> r.store.Keys == store.Keys
    decreases ss
  {
    if ss == [] then Done(env, store)
    else
      match Exec(ops, ss[0], env, store)
      case Blocked => Blocked
      case Done(env', store') => ExecAll(ops, ss[1..], env', store')
  }

  /** The first arm that matches runs, if any does. */
  function ExecArms(ops: Ops, arms: seq<Arm>, v: Value, env: Env, store: Store): (r: Result<Env>)
    ensures r.Done? ==> r.store.Keys == store.Keys
    decreases arms
  {
    if arms == [] then Done(env, store)
    else
      match Try(arms[0].pattern, v, env)
      case Bound(env') => ExecAll(ops, arms[0].body, env', store)
      case NoMatch => ExecArms(ops, arms[1..], v, env, store)
  }

  // ---------------------------------------------------------------------------
  // Well-formed programs
  // ---------------------------------------------------------------------------

  /** A scalar name that is not an element's. */
  ghost predicate Apart(q: string, sizes: Sizes) {
    forall a, i: nat | a in sizes && i < sizes[a] :: ElementName(a, i) != q
  }

  /** No indexed access inside an expression, no method the language does not have, and no scalar port
      that shares its name with an element. */
  ghost predicate ExprOk(e: Expr, sizes: Sizes)
    decreases e
  {
    match e
    case Op(_, args) => ExprsOk(args, sizes)
    case Index(inner, index) => ExprOk(inner, sizes) && ExprOk(index, sizes)
    case Update(inner, operands) => ExprOk(inner, sizes) && ExprsOk(operands, sizes)
    case MethodCall(receiver, m, args) => IsRead(m) && receiver.Var? && args == [] && Apart(receiver.name, sizes)
    case Take(q) => Apart(q, sizes)
    case TryTake(q) => Apart(q, sizes)
    case Peek(q) => Apart(q, sizes)
    case _ => true
  }

  ghost predicate ExprsOk(es: seq<Expr>, sizes: Sizes)
    decreases es
  {
    es == [] || (ExprOk(es[0], sizes) && ExprsOk(es[1..], sizes))
  }

  ghost predicate StmtOk(s: Stmt, sizes: Sizes)
    decreases s
  {
    match s
    case Let(_, value) =>
      if value.MethodCall? && IsElement(value.receiver, sizes) then IsRead(value.m) && ExprOk(value.receiver.index, sizes)
      else ExprOk(value, sizes)
    case ExprStmt(e) =>
      if e.MethodCall? && e.m == PutMethod then
        |e.args| == 1 && ExprOk(e.args[0], sizes)
        && (if IsElement(e.receiver, sizes) then ExprOk(e.receiver.index, sizes)
            else e.receiver.Var? && Apart(e.receiver.name, sizes))
      else ExprOk(e, sizes)
    case Put(target, value) => Apart(target, sizes) && ExprOk(value, sizes)
    case If(cond, thenBody, elseBody) => ExprOk(cond, sizes) && StmtsOk(thenBody, sizes) && StmtsOk(elseBody, sizes)
    case Match(scrutinee, arms) => ExprOk(scrutinee, sizes) && ArmsOk(arms, sizes)
  }

  ghost predicate StmtsOk(ss: seq<Stmt>, sizes: Sizes)
    decreases ss
  {
    ss == [] || (StmtOk(ss[0], sizes) && StmtsOk(ss[1..], sizes))
  }

  ghost predicate ArmsOk(arms: seq<Arm>, sizes: Sizes)
    decreases arms
  {
    arms == [] || (StmtsOk(arms[0].body, sizes) && ArmsOk(arms[1..], sizes))
  }

  // ---------------------------------------------------------------------------
  // Scalar ports for elements
  // ---------------------------------------------------------------------------

  function Renamed(r: Ref): Ref {
    match r
    case Scalar(q) => r
    case Element(a, i) => Scalar(ElementName(a, i))
  }

  /** A port the process has: an element within its array, or a scalar whose name is its own. */
  ghost predicate InScope(r: Ref, sizes: Sizes) {
    match r
    case Scalar(q) => Apart(q, sizes)
    case Element(a, i) => a in sizes && i < sizes[a]
  }

  lemma RenamedInjective(r: Ref, t: Ref, sizes: Sizes)
    requires InScope(r, sizes) && InScope(t, sizes) && Renamed(r) == Renamed(t)
    ensures r == t
  {
    if r.Element? && t.Element? {
      NameInjective(r.a, r.i, t.a, t.i);
    }
  }

  /** `flat` holds on scalar ports what `store` holds on array ports. */
  ghost predicate Same(store: Store, flat: Store, sizes: Sizes) {
    && (forall r | r in store :: InScope(r, sizes) && Renamed(r) in flat && flat[Renamed(r)] == store[r])
    && (forall a, i: nat | a in sizes && i < sizes[a] :: Element(a, i) in store)
    && (forall q | Apart(q, sizes) && Scalar(q) in flat :: Scalar(q) in store)
  }

  /** Two runs that end alike. */
  ghost predicate Agree<T>(x: Result<T>, y: Result<T>, sizes: Sizes) {
    match x
    case Blocked => y == Blocked
    case Done(v, store) => y.Done? && y.value == v && Same(store, y.store, sizes)
  }

  lemma UpdateSame(store: Store, flat: Store, sizes: Sizes, r: Ref, words: seq<Value>)
    requires Same(store, flat, sizes) && r in store
    ensures Same(store[r := words], flat[Renamed(r) := words], sizes)
  {
    forall t | t in store && t != r ensures Renamed(t) != Renamed(r) {
      if Renamed(t) == Renamed(r) {
        RenamedInjective(t, r, sizes);
      }
    }
  }

  lemma ReadAgrees(m: Method, r: Ref, store: Store, flat: Store, sizes: Sizes)
    requires IsRead(m) && Same(store, flat, sizes) && InScope(r, sizes)
    ensures Agree(Read(m, r, store), Read(m, Renamed(r), flat), sizes)
  {
    if r in store && store[r] != [] {
      UpdateSame(store, flat, sizes, r, store[r][1..]);
    }
  }

  lemma PutAgrees(r: Ref, v: Result<Value>, v': Result<Value>, env: Env, sizes: Sizes)
    requires InScope(r, sizes) && Agree(v, v', sizes)
    ensures Agree(PutTo(r, v, env), PutTo(Renamed(r), v', env), sizes)
  {
    if v.Done? && r in v.store {
      UpdateSame(v.store, v'.store, sizes, r, v.store[r] + [v.value]);
    }
  }

  lemma {:induction false} ExprAgrees(ops: Ops, e: Expr, env: Env, store: Store, flat: Store, sizes: Sizes)
    requires ExprOk(e, sizes) && Same(store, flat, sizes)
    ensures Agree(Eval(ops, e, env, store), Eval(ops, DesugarExpr(e), env, flat), sizes)
    decreases e
  {
    hide Same, Read, Apart;
    match e
    case Op(op, args) => ExprsAgree(ops, args, env, store, flat, sizes);
    case Index(inner, index) =>
      ExprAgrees(ops, inner, env, store, flat, sizes);
      var x, y := Eval(ops, inner, env, store), Eval(ops, DesugarExpr(inner), env, flat);
      if x.Done? {
        ExprAgrees(ops, index, env, x.store, y.store, sizes);
      }
    case Update(inner, operands) =>
      ExprAgrees(ops, inner, env, store, flat, sizes);
      var x, y := Eval(ops, inner, env, store), Eval(ops, DesugarExpr(inner), env, flat);
      if x.Done? {
        ExprsAgree(ops, operands, env, x.store, y.store, sizes);
      }
    case MethodCall(receiver, m, _) => ReadAgrees(m, Scalar(receiver.name), store, flat, sizes);
    case Take(q) => ReadAgrees(TakeMethod, Scalar(q), store, flat, sizes);
    case TryTake(q) => ReadAgrees(TryTakeMethod, Scalar(q), store, flat, sizes);
    case Peek(q) => ReadAgrees(PeekMethod, Scalar(q), store, flat, sizes);
    case _ =>
  }

  lemma {:induction false} ExprsAgree(ops: Ops, es: seq<Expr>, env: Env, store: Store, flat: Store, sizes: Sizes)
    requires ExprsOk(es, sizes) && Same(store, flat, sizes)
    ensures Agree(EvalAll(ops, es, env, store), EvalAll(ops, DesugarExprs(es), env, flat), sizes)
    decreases es
  {
    if es != [] {
      ExprAgrees(ops, es[0], env, store, flat, sizes);
      var x, y := Eval(ops, es[0], env, store), Eval(ops, DesugarExpr(es[0]), env, flat);
      if x.Done? {
        ExprsAgree(ops, es[1..], env, x.store, y.store, sizes);
      }
    }
  }


  // ---------------------------------------------------------------------------
  // Indexed reads that bind nothing
  // ---------------------------------------------------------------------------

  predicate IsIndexedRead(s: Stmt, sizes: Sizes) {
    s.Let? && s.value.MethodCall? && IsRead(s.value.m) && IsElement(s.value.receiver, sizes)
  }

  /** The same program with every indexed read made, and its word dropped. */
  function DiscardStmt(s: Stmt, sizes: Sizes): Stmt
    decreases s
  {
    match s
    case Let(p, value) => if IsIndexedRead(s, sizes) then Let(Wildcard, value) else s
    case If(cond, thenBody, elseBody) => If(cond, DiscardStmts(thenBody, sizes), DiscardStmts(elseBody, sizes))
    case Match(scrutinee, arms) => Match(scrutinee, DiscardArms(arms, sizes))
    case _ => s
  }

  function DiscardStmts(ss: seq<Stmt>, sizes: Sizes): (r: seq<Stmt>)
    ensures |r| == |ss|
    decreases ss
  {
    if ss == [] then [] else [DiscardStmt(ss[0], sizes)] + DiscardStmts(ss[1..], sizes)
  }

  function DiscardArms(arms: seq<Arm>, sizes: Sizes): (r: seq<Arm>)
    ensures |r| == |arms|
    decreases arms
  {
    if arms == [] then []
    else [Arm(arms[0].pattern, DiscardStmts(arms[0].body, sizes))] + DiscardArms(arms[1..], sizes)
  }

  // ---------------------------------------------------------------------------
  // The expansion means what it stands for
  // ---------------------------------------------------------------------------

  /** Of arms numbered from `from`, the one with the scrutinee's number runs, or none. */
  lemma {:induction false} NumberedArms(ops: Ops, arms: seq<Arm>, from: nat, v: Value, env: Env, store: Store)
    requires forall i | 0 <= i < |arms| :: arms[i].pattern == LitPattern(from + i)
    ensures ExecArms(ops, arms, v, env, store)
            == if v.Num? && from <= v.n < from + |arms| then ExecAll(ops, arms[v.n - from].body, env, store) else Done(env, store)
    decreases arms
  {
    if arms != [] {
      NumberedArms(ops, arms[1..], from + 1, v, env, store);
    }
  }

  lemma SelectedIff(a: string, v: Value, store: Store, flat: Store, sizes: Sizes)
    requires a in sizes && Same(store, flat, sizes)
    ensures Selected(a, v, store) == if v.Num? && v.n < sizes[a] then Some(Element(a, v.n)) else None
  {
  }

  /** Running the match that stands for an indexed read: the name it binds ends with the arm. */
  lemma ExpandedLetRuns(ops: Ops, a: string, size: nat, index: Expr, m: Method, p: Pattern, env: Env, store: Store)
    requires IsRead(m)
    ensures var x := Eval(ops, index, env, store);
            Exec(ops, ExpandIndexedLet(a, size, index, m, p), env, store)
            == if x.Blocked? then Blocked
               else if x.value.Num? && x.value.n < size then
                 Assign(Wildcard, Read(m, Scalar(ElementName(a, x.value.n)), x.store), env)
               else Done(env, x.store)
  {
    hide Read, ElementName, ExecAll, Assign, Leave;
    var x := Eval(ops, index, env, store);
    if x.Done? {
      var arms := ExpandIndexedLet(a, size, index, m, p).arms;
      NumberedArms(ops, arms, 0, x.value, env, x.store);
      NothingLeft(env, x.store);
      if x.value.Num? && x.value.n < size {
        ScalarLet(ops, ElementName(a, x.value.n), m, p, env, x.store);
      }
    }
  }

  lemma NothingLeft(env: Env, store: Store)
    ensures Leave(Done(env, store), env) == Done(env, store)
  {
  }

  lemma ScalarLet(ops: Ops, q: string, m: Method, p: Pattern, env: Env, store: Store)
    requires IsRead(m)
    ensures Leave(ExecAll(ops, [Let(p, ReadOf(m, q))], env, store), env) == Assign(Wildcard, Read(m, Scalar(q), store), env)
  {
  }

  lemma ScalarPut(ops: Ops, q: string, value: Expr, env: Env, store: Store)
    ensures Leave(ExecAll(ops, [Put(q, value)], env, store), env) == PutTo(Scalar(q), Eval(ops, value, env, store), env)
  {
  }

  lemma IndexedLetAgrees(ops: Ops, a: string, index: Expr, m: Method, args: seq<Expr>, p: Pattern, env: Env, store: Store, flat: Store, sizes: Sizes)
    requires a in sizes && IsRead(m) && ExprOk(index, sizes) && Same(store, flat, sizes)
    ensures Agree(Exec(ops, Let(Wildcard, MethodCall(Index(Var(a), index), m, args)), env, store),
                  Exec(ops, ExpandIndexedLet(a, sizes[a], DesugarExpr(index), m, p), env, flat), sizes)
  {
    hide Read, Same, Apart, ExpandIndexedLet;
    ExprAgrees(ops, index, env, store, flat, sizes);
    ExpandedLetRuns(ops, a, sizes[a], DesugarExpr(index), m, p, env, flat);
    var x, y := Eval(ops, index, env, store), Eval(ops, DesugarExpr(index), env, flat);
    if x.Done? {
      SelectedIff(a, x.value, x.store, y.store, sizes);
      if x.value.Num? && x.value.n < sizes[a] {
        ReadAgrees(m, Element(a, x.value.n), x.store, y.store, sizes);
      }
    }
  }

  lemma ExpandedPutRuns(ops: Ops, a: string, size: nat, index: Expr, value: Expr, env: Env, store: Store)
    ensures var x := Eval(ops, index, env, store);
            Exec(ops, ExpandIndexedPut(a, size, index, value), env, store)
            == if x.Blocked? then Blocked
               else if x.value.Num? && x.value.n < size then
                 PutTo(Scalar(ElementName(a, x.value.n)), Eval(ops, value, env, x.store), env)
               else Done(env, x.store)
  {
    hide ElementName, ExecAll, PutTo, Leave;
    var x := Eval(ops, index, env, store);
    if x.Done? {
      var arms := ExpandIndexedPut(a, size, index, value).arms;
      NumberedArms(ops, arms, 0, x.value, env, x.store);
      NothingLeft(env, x.store);
      if x.value.Num? && x.value.n < size {
        ScalarPut(ops, ElementName(a, x.value.n), value, env, x.store);
      }
    }
  }

  lemma IndexedPutAgrees(ops: Ops, a: string, index: Expr, value: Expr, env: Env, store: Store, flat: Store, sizes: Sizes)
    requires a in sizes && ExprOk(index, sizes) && ExprOk(value, sizes) && Same(store, flat, sizes)
    ensures Agree(Exec(ops, ExprStmt(MethodCall(Index(Var(a), index), PutMethod, [value])), env, store),
                  Exec(ops, ExpandIndexedPut(a, sizes[a], DesugarExpr(index), DesugarExpr(value)), env, flat), sizes)
  {
    hide Same, Apart, ExpandIndexedPut;
    ExprAgrees(ops, index, env, store, flat, sizes);
    ExpandedPutRuns(ops, a, sizes[a], DesugarExpr(index), DesugarExpr(value), env, flat);
    var x, y := Eval(ops, index, env, store), Eval(ops, DesugarExpr(index), env, flat);
    if x.Done? {
      SelectedIff(a, x.value, x.store, y.store, sizes);
      if x.value.Num? && x.value.n < sizes[a] {
        ExprAgrees(ops, value, env, x.store, y.store, sizes);
        PutAgrees(Element(a, x.value.n), Eval(ops, value, env, x.store), Eval(ops, DesugarExpr(value), env, y.store), env, sizes);
      }
    }
  }

  lemma NoCallLeft(e: Expr, sizes: Sizes)
    requires ExprOk(e, sizes)
    ensures !DesugarExpr(e).MethodCall?
  {
  }

  lemma {:induction false} StmtAgrees(ops: Ops, s: Stmt, env: Env, store: Store, flat: Store, sizes: Sizes)
    requires StmtOk(s, sizes) && Same(store, flat, sizes)
    ensures Agree(Exec(ops, DiscardStmt(s, sizes), env, store), Exec(ops, DesugarStmt(s, sizes), env, flat), sizes)
    decreases s
  {
    hide Same, Apart, Leave, ExecAll, ExecArms, Read, Write;
    match s
    case Let(p, value) =>
      if value.MethodCall? && IsElement(value.receiver, sizes) {
        IndexedLetAgrees(ops, value.receiver.inner.name, value.receiver.index, value.m, value.args, p, env, store, flat, sizes);
      } else {
        NoCallLeft(value, sizes);
        ExprAgrees(ops, value, env, store, flat, sizes);
      }
    case ExprStmt(e) => ExprStmtAgrees(ops, e, env, store, flat, sizes);
    case Put(target, value) =>
      ExprAgrees(ops, value, env, store, flat, sizes);
      PutAgrees(Scalar(target), Eval(ops, value, env, store), Eval(ops, DesugarExpr(value), env, flat), env, sizes);
    case If(cond, thenBody, elseBody) =>
      ExprAgrees(ops, cond, env, store, flat, sizes);
      var x, y := Eval(ops, cond, env, store), Eval(ops, DesugarExpr(cond), env, flat);
      if x.Done? {
        var body := if x.value != Num(0) then thenBody else elseBody;
        StmtsAgree(ops, body, env, x.store, y.store, sizes);
        LeavesAgree(ExecAll(ops, DiscardStmts(body, sizes), env, x.store), ExecAll(ops, DesugarStmts(body, sizes), env, y.store), env, sizes);
      }
    case Match(scrutinee, arms) =>
      ExprAgrees(ops, scrutinee, env, store, flat, sizes);
      var x, y := Eval(ops, scrutinee, env, store), Eval(ops, DesugarExpr(scrutinee), env, flat);
      if x.Done? {
        ArmsAgree(ops, arms, x.value, env, x.store, y.store, sizes);
        LeavesAgree(ExecArms(ops, DiscardArms(arms, sizes), x.value, env, x.store),
                    ExecArms(ops, DesugarArms(arms, sizes), y.value, env, y.store), env, sizes);
      }
  }

  lemma LeavesAgree(x: Result<Env>, y: Result<Env>, env: Env, sizes: Sizes)
    requires Agree(x, y, sizes)
    ensures Agree(Leave(x, env), Leave(y, env), sizes)
  {
  }

  lemma PlainPut(e: Expr, sizes: Sizes)
    requires e.MethodCall? && e.m == PutMethod && e.receiver.Var? && |e.args| == 1
    ensures DesugarStmt(ExprStmt(e), sizes) == Put(e.receiver.name, DesugarExpr(e.args[0]))
  {
    DesugarExprTwice(e.args[0]);
    assert DesugarExprs(e.args) == [DesugarExpr(e.args[0])];
    assert DesugarExpr(e) == MethodCall(e.receiver, PutMethod, DesugarExprs(e.args));
  }

  lemma ExprStmtAgrees(ops: Ops, e: Expr, env: Env, store: Store, flat: Store, sizes: Sizes)
    requires StmtOk(ExprStmt(e), sizes) && Same(store, flat, sizes)
    ensures Agree(Exec(ops, ExprStmt(e), env, store), Exec(ops, DesugarStmt(ExprStmt(e), sizes), env, flat), sizes)
  {
    hide Same, Apart;
    if e.MethodCall? && e.m == PutMethod {
      if IsElement(e.receiver, sizes) {
        IndexedPutAgrees(ops, e.receiver.inner.name, e.receiver.index, e.args[0], env, store, flat, sizes);
      } else {
        PlainPut(e, sizes);
        ExprAgrees(ops, e.args[0], env, store, flat, sizes);
        PutAgrees(Scalar(e.receiver.name), Eval(ops, e.args[0], env, store), Eval(ops, DesugarExpr(e.args[0]), env, flat), env, sizes);
      }
    } else {
      NoCallLeft(e, sizes);
      ExprAgrees(ops, e, env, store, flat, sizes);
    }
  }

  lemma {:induction false} StmtsAgree(ops: Ops, ss: seq<Stmt>, env: Env, store: Store, flat: Store, sizes: Sizes)
    requires StmtsOk(ss, sizes) && Same(store, flat, sizes)
    ensures Agree(ExecAll(ops, DiscardStmts(ss, sizes), env, store), ExecAll(ops, DesugarStmts(ss, sizes), env, flat), sizes)
    decreases ss
  {
    hide Same, Apart;
    if ss != [] {
      StmtAgrees(ops, ss[0], env, store, flat, sizes);
      var x, y := Exec(ops, DiscardStmt(ss[0], sizes), env, store), Exec(ops, DesugarStmt(ss[0], sizes), env, flat);
      if x.Done? {
        StmtsAgree(ops, ss[1..], x.value, x.store, y.store, sizes);
      }
    }
  }

  lemma {:induction false} ArmsAgree(ops: Ops, arms: seq<Arm>, v: Value, env: Env, store: Store, flat: Store, sizes: Sizes)
    requires ArmsOk(arms, sizes) && Same(store, flat, sizes)
    ensures Agree(ExecArms(ops, DiscardArms(arms, sizes), v, env, store), ExecArms(ops, DesugarArms(arms, sizes), v, env, flat), sizes)
    decreases arms
  {
    hide Same, Apart;
    if arms != [] {
      match Try(arms[0].pattern, v, env)
      case Bound(env') => StmtsAgree(ops, arms[0].body, env', store, flat, sizes);
      case NoMatch => ArmsAgree(ops, arms[1..], v, env, store, flat, sizes);
    }
  }

  /** The ports of a process: every element of every array, and scalars that are apart from them. */
  ghost predicate Declared(store: Store, sizes: Sizes) {
    && (forall r | r in store :: InScope(r, sizes))
    && (forall a, i: nat | a in sizes && i < sizes[a] :: Element(a, i) in store)
  }

  lemma PortsApart(store: Store, sizes: Sizes)
    requires Declared(store, sizes)
    ensures forall r, t | r in store && t in store && Renamed(r) == Renamed(t) :: r == t
  {
    forall r, t | r in store && t in store && Renamed(r) == Renamed(t) ensures r == t {
      RenamedInjective(r, t, sizes);
    }
  }

  /** The same words on scalar ports. */
  ghost function Flatten(store: Store, sizes: Sizes): (flat: Store)
    requires Declared(store, sizes)
    ensures Same(store, flat, sizes)
  {
    PortsApart(store, sizes);
    map r | r in store :: Renamed(r) := store[r]
  }

  /** What the expansion means, exactly. For every program whose indexed accesses are statements of their
      own, every array size and every content of the ports: the expanded program on scalar ports does
      what the indexed program does when every indexed read is made and binds nothing. */
  lemma ExpansionIsDiscarding(ops: Ops, body: seq<Stmt>, env: Env, store: Store, sizes: Sizes)
    requires StmtsOk(body, sizes) && Declared(store, sizes)
    ensures Agree(ExecAll(ops, DiscardStmts(body, sizes), env, store), ExecAll(ops, DesugarStmts(body, sizes), env, Flatten(store, sizes)), sizes)
  {
    StmtsAgree(ops, body, env, store, Flatten(store, sizes), sizes);
  }

  /** The generated names are unambiguous exactly when no scalar port already has one of them, which nothing
      in the transformation checks. */
  lemma NamesUnambiguousIff(scalars: set<string>, sizes: Sizes)
    ensures (forall r, t | IsPort(r, scalars, sizes) && IsPort(t, scalars, sizes) && Renamed(r) == Renamed(t) :: r == t)
            <==> (forall q | q in scalars :: Apart(q, sizes))
  {
    if forall q | q in scalars :: Apart(q, sizes) {
      forall r, t | IsPort(r, scalars, sizes) && IsPort(t, scalars, sizes) && Renamed(r) == Renamed(t) ensures r == t {
        RenamedInjective(r, t, sizes);
      }
    } else {
      var q :| q in scalars && !Apart(q, sizes);
      var a, i: nat :| a in sizes && i < sizes[a] && ElementName(a, i) == q;
      assert IsPort(Scalar(q), scalars, sizes) && IsPort(Element(a, i), scalars, sizes);
      assert Renamed(Scalar(q)) == Renamed(Element(a, i));
    }
  }

  predicate IsPort(r: Ref, scalars: set<string>, sizes: Sizes) {
    match r
    case Scalar(q) => q in scalars
    case Element(a, i) => a in sizes && i < sizes[a]
  }
}
