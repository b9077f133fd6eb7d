/** One emitted clock cycle against the rules it fires, run one at a time. Rules are peek-free, with
    their takes and puts at the top level. */
module Firing {
  import opened Grouping
  import opened SyncFifo

  type Word = int
  type Env = map<string, Word>

  /** The steps of a rule body; `value` stands for any expression over the names bound so far. */
  datatype Op =
    | Take(bind: string, edge: nat)
    | Let(bind: string, value: Env -> Word)
    | Put(edge: nat, value: Env -> Word)

  type Rule = seq<Op>

  datatype EdgeKind = Queue(depth: nat) | Cell

  datatype Network = Network(kinds: seq<EdgeKind>, processes: seq<seq<Rule>>)

  datatype RuleId = RuleId(process: nat, rule: nat)

  /** What every edge holds. In the language a cell is a queue of one place that is never left empty. */
  type State = seq<seq<Word>>

  predicate Takes(rule: Rule, e: nat) {
    exists i | 0 <= i < |rule| :: rule[i].Take? && rule[i].edge == e
  }

  predicate Puts(rule: Rule, e: nat) {
    exists i | 0 <= i < |rule| :: rule[i].Put? && rule[i].edge == e
  }

  function MutableEdges(rule: Rule): set<nat> {
    set i | 0 <= i < |rule| && !rule[i].Let? :: rule[i].edge
  }

  /** At most one take and one put of an edge in a rule. */
  ghost predicate AtMostOnce(rule: Rule) {
    forall i, j | 0 <= i < j < |rule| && !rule[i].Let? && !rule[j].Let? ::
      (rule[i].Take? <==> rule[j].Take?) ==> rule[i].edge != rule[j].edge
  }

  ghost predicate WellFormedRule(kinds: seq<EdgeKind>, rule: Rule) {
    && (forall i | 0 <= i < |rule| && !rule[i].Let? :: rule[i].edge < |kinds|)
    && AtMostOnce(rule)
    && (forall e: nat | e < |kinds| && kinds[e].Cell? :: Takes(rule, e) <==> Puts(rule, e))
  }

  predicate IsRule(net: Network, id: RuleId) {
    id.process < |net.processes| && id.rule < |net.processes[id.process]|
  }

  function RuleOf(net: Network, id: RuleId): Rule
    requires IsRule(net, id)
  {
    net.processes[id.process][id.rule]
  }

  /** Every edge has at most one writing and one reading process. */
  ghost predicate SingleWriterSingleReader(net: Network) {
    forall a, b, e: nat | IsRule(net, a) && IsRule(net, b) && e < |net.kinds| && a.process != b.process ::
      && !(Puts(RuleOf(net, a), e) && Puts(RuleOf(net, b), e))
      && !(Takes(RuleOf(net, a), e) && Takes(RuleOf(net, b), e))
  }

  ghost predicate WellFormed(net: Network) {
    && (forall id | IsRule(net, id) :: WellFormedRule(net.kinds, RuleOf(net, id)))
    && SingleWriterSingleReader(net)
  }

  ghost predicate ValidState(net: Network, s: State) {
    && |s| == |net.kinds|
    && forall e | 0 <= e < |s| :: if net.kinds[e].Cell? then |s[e]| == 1 else |s[e]| <= net.kinds[e].depth
  }

  // ---------------------------------------------------------------------------
  // Enables
  // ---------------------------------------------------------------------------

  /** The conjunction of the `deq_valid` and `enq_ready` conditions of a rule. */
  predicate CanFire(kinds: seq<EdgeKind>, s: State, rule: Rule)
    requires |s| == |kinds|
  {
    forall i | 0 <= i < |rule| && !rule[i].Let? && rule[i].edge < |kinds| && kinds[rule[i].edge].Queue? ::
      if rule[i].Take? then s[rule[i].edge] != [] else |s[rule[i].edge]| < kinds[rule[i].edge].depth
  }

  /** No rule of an earlier slot is enabled. */
  predicate Unsuppressed(conflicts: Conflicts, canFire: seq<bool>, r: nat) {
    forall x: nat | x < |canFire| && Slot(conflicts, x) < Slot(conflicts, r) :: !canFire[x]
  }

  predicate WillFire(conflicts: Conflicts, canFire: seq<bool>, r: nat) {
    r < |canFire| && canFire[r] && Unsuppressed(conflicts, canFire, r)
  }

  /** If a rule is enabled, then some rule of its own or an earlier slot fires. */
  lemma {:induction false} SomeRuleFires(conflicts: Conflicts, canFire: seq<bool>, x: nat) returns (y: nat)
    requires x < |canFire| && canFire[x]
    ensures WillFire(conflicts, canFire, y) && Slot(conflicts, y) <= Slot(conflicts, x)
    decreases Slot(conflicts, x)
  {
    if Unsuppressed(conflicts, canFire, x) {
      y := x;
    } else {
      var z: nat :| z < |canFire| && Slot(conflicts, z) < Slot(conflicts, x) && canFire[z];
      y := SomeRuleFires(conflicts, canFire, z);
    }
  }

  /** Two rules of a process that fire together do not conflict. */
  lemma FiredRulesAgree(conflicts: Conflicts, canFire: seq<bool>, i: nat, j: nat)
    requires i < j && WillFire(conflicts, canFire, i) && WillFire(conflicts, canFire, j)
    ensures !Conflict(conflicts, i, j)
  {
  }

  /** Whatever rules are enabled, the first of them in declaration order fires. */
  ghost predicate FirstEnabledFires(conflicts: Conflicts, n: nat) {
    forall canFire: seq<bool>, r: nat | |canFire| == n && IsFirst(canFire, r) :: WillFire(conflicts, canFire, r)
  }

  predicate IsFirst(canFire: seq<bool>, r: nat) {
    r < |canFire| && canFire[r] && forall x | 0 <= x < r :: !canFire[x]
  }

  /** Declaration order decides the priority among all rules of a process exactly when every rule conflicts
      with an earlier rule of each block before its own. Otherwise a later rule can suppress one that it
      does not even conflict with. */
  lemma FirstEnabledFiresIff(conflicts: Conflicts, n: nat)
    ensures FirstEnabledFires(conflicts, n) <==> BlocksHold(conflicts, n)
  {
    hide Slot, Block, BlocksHold;
    SlotsInOrderIff(conflicts, n);
    if FirstEnabledFires(conflicts, n) {
      forall i: nat, j: nat | i < j < n ensures Slot(conflicts, i) <= Slot(conflicts, j) {
        var canFire := seq(n, x => x == i || x == j);
        assert IsFirst(canFire, i) && canFire[j];
        assert WillFire(conflicts, canFire, i);
      }
    }
    if SlotsInOrder(conflicts, n) {
      forall canFire: seq<bool>, r: nat | |canFire| == n && IsFirst(canFire, r) ensures WillFire(conflicts, canFire, r) {
      }
    }
  }

  /** Three rules of which only 0 and 1 conflict: enabled together, rule 2 fires and rule 1, which it does not
      conflict with, does not. */
  lemma LaterRuleSuppresses()
    ensures var c: Conflicts := {(0, 1)};
            && DeclarationOrderIsPriority(c, 3) && !Conflict(c, 1, 2) && !FirstEnabledFires(c, 3)
            && WillFire(c, [false, true, true], 2) && !WillFire(c, [false, true, true], 1)
  {
    var c: Conflicts := {(0, 1)};
    var canFire := [false, true, true];
    SlotIs(c, 0, 0);
    assert Slot(c, 0) == 0 && Conflict(c, 0, 1);
    assert Blocked(c, 1, 0);
    SlotIs(c, 1, 1);
    SlotIs(c, 2, 0);
    hide Slot;
    assert IsFirst(canFire, 1) && canFire[2];
  }

  /** The chained `will_fire` equations: a rule is suppressed by the `will_fire` of every rule in
      the slots before its own. Together they fire the enabled rules of the first slot that has one. */
  method RuleEnables(conflicts: Conflicts, canFire: seq<bool>) returns (willFire: seq<bool>)
    ensures |willFire| == |canFire|
    ensures forall r: nat | r < |canFire| :: willFire[r] <==> WillFire(conflicts, canFire, r)
  {
    hide Slot, Unsuppressed;
    var n := |canFire|;
    var groups := GroupRules(n, conflicts);
    willFire := seq(n, _ => false);
    var higher: set<nat> := {};
    SlotsAreCounted(conflicts, n);
    for k := 0 to |groups|
      invariant |willFire| == n
      invariant forall r: nat :: r in higher <==> r < n && Slot(conflicts, r) < k
      invariant forall r: nat | r in higher :: willFire[r] <==> WillFire(conflicts, canFire, r)
    {
      GroupMembers(conflicts, n, k);
      willFire := SlotEnables(conflicts, canFire, k, groups[k], higher, willFire);
      higher := higher + set r | r in groups[k];
    }
  }

  method SlotEnables(conflicts: Conflicts, canFire: seq<bool>, k: nat, group: seq<nat>, higher: set<nat>,
                     before: seq<bool>) returns (willFire: seq<bool>)
    requires |before| == |canFire|
    requires forall r: nat :: r in group <==> r < |canFire| && Slot(conflicts, r) == k
    requires forall r: nat :: r in higher <==> r < |canFire| && Slot(conflicts, r) < k
    requires forall r: nat | r in higher :: before[r] <==> WillFire(conflicts, canFire, r)
    ensures |willFire| == |canFire|
    ensures forall r: nat | r in higher || r in group :: willFire[r] <==> WillFire(conflicts, canFire, r)
  {
    hide Slot, Unsuppressed;
    var suppressed := exists h | h in higher :: before[h];
    forall r: nat | r in group ensures Unsuppressed(conflicts, canFire, r) <==> !suppressed {
      Suppression(conflicts, canFire, r);
    }
    willFire := before;
    assert forall b | 0 <= b < |group| :: group[b] in group;
    for a := 0 to |group|
      invariant |willFire| == |canFire|
      invariant forall r: nat | r in higher :: willFire[r] == before[r]
      invariant forall b | 0 <= b < a :: willFire[group[b]] <==> WillFire(conflicts, canFire, group[b])
    {
      var rule := group[a];
      assert rule in group;
      willFire := willFire[rule := canFire[rule] && !suppressed];
    }
  }

  lemma Suppression(conflicts: Conflicts, canFire: seq<bool>, r: nat)
    ensures Unsuppressed(conflicts, canFire, r) <==>
            forall h: nat | h < |canFire| && Slot(conflicts, h) < Slot(conflicts, r) :: !WillFire(conflicts, canFire, h)
  {
    if !Unsuppressed(conflicts, canFire, r) {
      var x: nat :| x < |canFire| && Slot(conflicts, x) < Slot(conflicts, r) && canFire[x];
      var y := SomeRuleFires(conflicts, canFire, x);
    }
  }

  // ---------------------------------------------------------------------------
  // Atomic execution
  // ---------------------------------------------------------------------------

  function Head(q: seq<Word>): Word {
    if q == [] then 0 else q[0]
  }

  /** A rule body run step by step: a take removes the head, a put appends at the tail. */
  function Exec(ops: Rule, s: State, env: Env): (s': State)
    ensures |s'| == |s|
    decreases ops
  {
    if ops == [] then s
    else
      match ops[0]
      case Let(bind, value) => Exec(ops[1..], s, env[bind := value(env)])
      case Take(bind, e) =>
        if e < |s| && s[e] != [] then Exec(ops[1..], s[e := s[e][1..]], env[bind := s[e][0]])
        else Exec(ops[1..], s, env)
      case Put(e, value) =>
        if e < |s| then Exec(ops[1..], s[e := s[e] + [value(env)]], env)
        else Exec(ops[1..], s, env)
  }

  /** What the same body drives in the circuit, where every take reads the head its queue has at
      the start of the cycle. The last assignment to an edge stands. */
  function Drive(ops: Rule, s: State, env: Env): map<nat, Word>
    decreases ops
  {
    if ops == [] then map[]
    else
      match ops[0]
      case Let(bind, value) => Drive(ops[1..], s, env[bind := value(env)])
      case Take(bind, e) => Drive(ops[1..], s, if e < |s| then env[bind := Head(s[e])] else env)
      case Put(e, value) => map[e := value(env)] + Drive(ops[1..], s, env)
  }

  lemma {:induction false} DrivesItsPuts(ops: Rule, s: State, env: Env)
    ensures forall e :: e in Drive(ops, s, env) <==> Puts(ops, e)
    decreases ops
  {
    if ops != [] {
      var op, rest := ops[0], ops[1..];
      forall e: nat ensures Puts(ops, e) <==> Puts(rest, e) || (op.Put? && op.edge == e) {
        UsesOfRest(ops, e);
      }
      match op
      case Let(bind, value) => DrivesItsPuts(rest, s, env[bind := value(env)]);
      case Take(bind, e) => DrivesItsPuts(rest, s, if e < |s| then env[bind := Head(s[e])] else env);
      case Put(e, value) => DrivesItsPuts(rest, s, env);
    }
  }

  lemma UsesOfRest(ops: Rule, e: nat)
    requires ops != []
    ensures Puts(ops, e) <==> Puts(ops[1..], e) || (ops[0].Put? && ops[0].edge == e)
    ensures Takes(ops, e) <==> Takes(ops[1..], e) || (ops[0].Take? && ops[0].edge == e)
    ensures AtMostOnce(ops) ==> AtMostOnce(ops[1..])
    ensures AtMostOnce(ops) && ops[0].Take? && ops[0].edge == e ==> !Takes(ops[1..], e)
    ensures AtMostOnce(ops) && ops[0].Put? && ops[0].edge == e ==> !Puts(ops[1..], e)
  {
  }

  /** One edge after a rule: its head is gone if the rule takes it, and a value is appended if the
      rule puts it. */
  function After(q: seq<Word>, takes: bool, puts: bool, value: Word): seq<Word> {
    (if takes && q != [] then q[1..] else q) + if puts then [value] else []
  }

  /** Step by step or all at once: a rule whose takes all find a word changes every edge by its own
      take and put, with the value the circuit drives, as long as the heads are those the circuit reads. */
  lemma {:induction false} ExecIsDrive(ops: Rule, s: State, src: State, env: Env, e: nat)
    requires AtMostOnce(ops) && |src| == |s| && e < |s|
    requires forall x: nat | Takes(ops, x) :: x < |s| && s[x] != [] && Head(s[x]) == Head(src[x])
    requires forall x: nat | Puts(ops, x) :: x < |s|
    ensures Puts(ops, e) ==> e in Drive(ops, src, env)
    ensures Exec(ops, s, env)[e] ==
            After(s[e], Takes(ops, e), Puts(ops, e), if Puts(ops, e) then Drive(ops, src, env)[e] else 0)
    decreases ops
  {
    DrivesItsPuts(ops, src, env);
    if ops != [] {
      var op, rest := ops[0], ops[1..];
      forall x: nat { UsesOfRest(ops, x); }
      match op
      case Let(bind, value) =>
        ExecIsDrive(rest, s, src, env[bind := value(env)], e);
      case Take(bind, x) =>
        assert Takes(ops, x);
        ExecIsDrive(rest, s[x := s[x][1..]], src, env[bind := s[x][0]], e);
      case Put(x, value) =>
        assert Puts(ops, x);
        ExecIsDrive(rest, s[x := s[x] + [value(env)]], src, env, e);
        DrivesItsPuts(rest, src, env);
    }
  }

  // ---------------------------------------------------------------------------
  // The circuit
  // ---------------------------------------------------------------------------

  /** `can_fire` of every rule of a process. */
  function Enabled(net: Network, s: State, p: nat): seq<bool>
    requires |s| == |net.kinds| && p < |net.processes|
  {
    seq(|net.processes[p]|, r requires 0 <= r < |net.processes[p]| => CanFire(net.kinds, s, net.processes[p][r]))
  }

  /** The conflict sets the scheduler computed, one per process. */
  ghost predicate Scheduled(net: Network, conflicts: seq<Conflicts>) {
    && |conflicts| == |net.processes|
    && forall p | 0 <= p < |conflicts| :: IsConflictSet(conflicts[p], EdgesOfRules(net.processes[p]))
  }

  function EdgesOfRules(rules: seq<Rule>): seq<set<nat>> {
    seq(|rules|, r requires 0 <= r < |rules| => MutableEdges(rules[r]))
  }

  predicate Fires(net: Network, conflicts: seq<Conflicts>, s: State, id: RuleId)
    requires |s| == |net.kinds| && |conflicts| == |net.processes|
  {
    IsRule(net, id) && WillFire(conflicts[id.process], Enabled(net, s, id.process), id.rule)
  }

  function Fired(net: Network, conflicts: seq<Conflicts>, s: State): set<RuleId>
    requires |s| == |net.kinds| && |conflicts| == |net.processes|
  {
    set p: nat, r: nat | p < |net.processes| && r < |net.processes[p]| && Fires(net, conflicts, s, RuleId(p, r)) ::
      RuleId(p, r)
  }

  /** The queues a rule uses show what it needs: a head where it takes, room where it puts. */
  ghost predicate Ready(kinds: seq<EdgeKind>, s: State, rule: Rule)
    requires |s| == |kinds|
  {
    forall e: nat | e < |kinds| && kinds[e].Queue? ::
      && (Takes(rule, e) ==> QueueShow(kinds[e].depth, s[e]).head.Some?)
      && (Puts(rule, e) ==> QueueShow(kinds[e].depth, s[e]).enqReady)
  }

  /** `can_fire` asks exactly that. */
  lemma CanFireIff(kinds: seq<EdgeKind>, s: State, rule: Rule)
    requires |s| == |kinds|
    ensures CanFire(kinds, s, rule) <==> Ready(kinds, s, rule)
  {
    if Ready(kinds, s, rule) {
      forall i | 0 <= i < |rule| && !rule[i].Let? && rule[i].edge < |kinds| && kinds[rule[i].edge].Queue?
        ensures if rule[i].Take? then s[rule[i].edge] != [] else |s[rule[i].edge]| < kinds[rule[i].edge].depth
      {
        assert if rule[i].Take? then Takes(rule, rule[i].edge) else Puts(rule, rule[i].edge);
      }
    }
  }

  ghost predicate IsReady(net: Network, s: State, id: RuleId)
    requires |s| == |net.kinds|
  {
    IsRule(net, id) && Ready(net.kinds, s, RuleOf(net, id))
  }

  /** A cycle fires exactly the rules whose queues show what they need while no rule of an earlier slot of their
      process has its queues so. */
  lemma FiredIff(net: Network, conflicts: seq<Conflicts>, s: State, id: RuleId)
    requires |s| == |net.kinds| && |conflicts| == |net.processes|
    ensures id in Fired(net, conflicts, s) <==>
            && IsReady(net, s, id)
            && forall x: nat | x < |net.processes[id.process]| && Slot(conflicts[id.process], x) < Slot(conflicts[id.process], id.rule) ::
                 !IsReady(net, s, RuleId(id.process, x))
  {
    hide CanFire, Ready, Slot;
    if IsRule(net, id) {
      var canFire := Enabled(net, s, id.process);
      forall x: nat | x < |canFire| ensures canFire[x] <==> IsReady(net, s, RuleId(id.process, x)) {
        CanFireIff(net.kinds, s, net.processes[id.process][x]);
      }
      FiresIff(net, conflicts, s, id);
    }
  }

  lemma FiresIff(net: Network, conflicts: seq<Conflicts>, s: State, id: RuleId)
    requires |s| == |net.kinds| && |conflicts| == |net.processes|
    ensures id in Fired(net, conflicts, s) <==> Fires(net, conflicts, s, id)
  {
    hide WillFire, Enabled;
  }

  /** And so every process with such a rule fires one. */
  lemma ReadyProcessFires(net: Network, conflicts: seq<Conflicts>, s: State, id: RuleId) returns (other: RuleId)
    requires |s| == |net.kinds| && |conflicts| == |net.processes| && IsReady(net, s, id)
    ensures other in Fired(net, conflicts, s) && other.process == id.process
    ensures Slot(conflicts[id.process], other.rule) <= Slot(conflicts[id.process], id.rule)
  {
    hide CanFire, Ready, Slot, WillFire;
    CanFireIff(net.kinds, s, RuleOf(net, id));
    var rule := SomeRuleFires(conflicts[id.process], Enabled(net, s, id.process), id.rule);
    other := RuleId(id.process, rule);
    assert IsRule(net, other) by { FiringIsRule(conflicts[id.process], Enabled(net, s, id.process), rule); }
    FiresIff(net, conflicts, s, other);
  }

  lemma FiringIsRule(conflicts: Conflicts, canFire: seq<bool>, r: nat)
    requires WillFire(conflicts, canFire, r)
    ensures r < |canFire|
  {
  }

  ghost predicate AreRules(net: Network, ids: seq<RuleId>) {
    forall i | 0 <= i < |ids| :: IsRule(net, ids[i])
  }

  /** The combinational block: rules write their data in emission order, later ones over earlier ones. */
  function Comb(net: Network, s: State, order: seq<RuleId>, fired: set<RuleId>): map<nat, Word>
    requires AreRules(net, order)
  {
    if order == [] then map[]
    else
      (if order[0] in fired then Drive(RuleOf(net, order[0]), s, map[]) else map[])
      + Comb(net, s, order[1..], fired)
  }

  /** `deq_ready`: the disjunction of the reading rules' `will_fire`. */
  predicate DeqReady(net: Network, fired: set<RuleId>, e: nat)
    requires forall id | id in fired :: IsRule(net, id)
  {
    exists id | id in fired :: Takes(RuleOf(net, id), e)
  }

  /** One clock edge: every FIFO does its own put and take, every cell register loads if enabled. */
  function Cycle(net: Network, s: State, order: seq<RuleId>, fired: set<RuleId>): (s': State)
    requires |s| == |net.kinds| && AreRules(net, order)
    requires forall id | id in fired :: IsRule(net, id)
    ensures |s'| == |s|
  {
    var comb := Comb(net, s, order, fired);
    seq(|s|, e requires 0 <= e < |s| =>
      match net.kinds[e]
      case Queue(depth) =>
        QueueStep(depth, s[e], SyncFifo.Cycle(e in comb, if e in comb then comb[e] else 0, DeqReady(net, fired, e)))
      case Cell => if e in comb then [comb[e]] else s[e])
  }

  // ---------------------------------------------------------------------------
  // One cycle is its fired rules in any order
  // ---------------------------------------------------------------------------

  /** Running rules one at a time. */
  function Serial(net: Network, s: State, turns: seq<RuleId>): (s': State)
    requires AreRules(net, turns)
    ensures |s'| == |s|
    decreases turns
  {
    if turns == [] then s else Serial(net, Exec(RuleOf(net, turns[0]), s, map[]), turns[1..])
  }

  /** Every rule's guard holds when its turn comes. */
  ghost predicate Allowed(net: Network, s: State, turns: seq<RuleId>)
    requires AreRules(net, turns) && |s| == |net.kinds|
    decreases turns
  {
    turns != [] ==>
      && CanFire(net.kinds, s, RuleOf(net, turns[0]))
      && Allowed(net, Exec(RuleOf(net, turns[0]), s, map[]), turns[1..])
  }

  /** The rules that may run together from `s`: each is enabled, no two take or put the same edge. */
  ghost predicate Compatible(net: Network, s: State, ids: set<RuleId>)
    requires ValidState(net, s)
  {
    && (forall id | id in ids :: IsRule(net, id) && CanFire(net.kinds, s, RuleOf(net, id)))
    && forall a, b, e: nat | a in ids && b in ids && a != b ::
         && !(Takes(RuleOf(net, a), e) && Takes(RuleOf(net, b), e))
         && !(Puts(RuleOf(net, a), e) && Puts(RuleOf(net, b), e))
  }

  lemma UsedEdgesAreMutable(rule: Rule, e: nat)
    requires Takes(rule, e) || Puts(rule, e)
    ensures e in MutableEdges(rule)
  {
  }

  lemma FiredInOneProcess(net: Network, conflicts: seq<Conflicts>, canFire: seq<bool>, p: nat, i: nat, j: nat)
    requires Scheduled(net, conflicts) && p < |net.processes| && i < j < |net.processes[p]| == |canFire|
    requires WillFire(conflicts[p], canFire, i) && WillFire(conflicts[p], canFire, j)
    ensures MutableEdges(net.processes[p][i]) !! MutableEdges(net.processes[p][j])
  {
    FiredRulesAgree(conflicts[p], canFire, i, j);
    var edges := EdgesOfRules(net.processes[p]);
    assert IsConflictSet(conflicts[p], edges) && (i, j) !in conflicts[p];
    var shared: set<nat> := edges[i] * edges[j];
    assert shared == {};
    assert edges[i] == MutableEdges(net.processes[p][i]) && edges[j] == MutableEdges(net.processes[p][j]);
    assert forall e | e in edges[i] && e in edges[j] :: e in shared;
  }

  lemma FiredAreCompatible(net: Network, conflicts: seq<Conflicts>, s: State)
    requires WellFormed(net) && Scheduled(net, conflicts) && ValidState(net, s)
    ensures Compatible(net, s, Fired(net, conflicts, s))
  {
    var ids := Fired(net, conflicts, s);
    forall a, b, e: nat | a in ids && b in ids && a != b
      ensures !(Takes(RuleOf(net, a), e) && Takes(RuleOf(net, b), e))
      ensures !(Puts(RuleOf(net, a), e) && Puts(RuleOf(net, b), e))
    {
      if a.process == b.process {
        var lo, hi := if a.rule < b.rule then a else b, if a.rule < b.rule then b else a;
        FiredInOneProcess(net, conflicts, Enabled(net, s, a.process), a.process, lo.rule, hi.rule);
        DisjointRulesShareNothing(RuleOf(net, lo), RuleOf(net, hi), e);
      } else {
        assert WellFormedRule(net.kinds, RuleOf(net, a));
      }
    }
  }

  lemma DisjointRulesShareNothing(a: Rule, b: Rule, e: nat)
    requires MutableEdges(a) !! MutableEdges(b)
    ensures !((Takes(a, e) || Puts(a, e)) && (Takes(b, e) || Puts(b, e)))
  {
    if (Takes(a, e) || Puts(a, e)) && (Takes(b, e) || Puts(b, e)) {
      UsedEdgesAreMutable(a, e);
      UsedEdgesAreMutable(b, e);
    }
  }

  /** What the edges hold when some of the fired rules have run. */
  ghost predicate Between(net: Network, s: State, done: set<RuleId>, cur: State)
    requires forall id | id in done :: IsRule(net, id)
  {
    |cur| == |s| && forall e: nat | e < |s| :: EdgeBetween(net, s, done, cur, e)
  }

  ghost predicate EdgeBetween(net: Network, s: State, done: set<RuleId>, cur: State, e: nat)
    requires forall id | id in done :: IsRule(net, id)
    requires |cur| == |s| && e < |s|
  {
    var base := After(s[e], DeqReady(net, done, e), false, 0);
    && (forall id | id in done && Puts(RuleOf(net, id), e) :: cur[e] == base + [Driven(net, s, id, e)])
    && ((forall id | id in done :: !Puts(RuleOf(net, id), e)) ==> cur[e] == base)
  }

  function Driven(net: Network, s: State, id: RuleId, e: nat): Word
    requires IsRule(net, id)
  {
    var driven := Drive(RuleOf(net, id), s, map[]);
    if e in driven then driven[e] else 0
  }

  /** A rule whose turn comes after compatible ones finds the heads it saw at the start of the cycle,
      and room for its puts. */
  lemma TurnComes(net: Network, s: State, done: set<RuleId>, cur: State, id: RuleId)
    requires WellFormed(net) && ValidState(net, s) && Compatible(net, s, done + {id}) && id !in done
    requires Between(net, s, done, cur)
    ensures CanFire(net.kinds, cur, RuleOf(net, id))
    ensures forall e: nat | Takes(RuleOf(net, id), e) ::
              e < |s| && s[e] != [] && cur[e] != [] && Head(cur[e]) == Head(s[e])
    ensures forall e: nat | Puts(RuleOf(net, id), e) :: e < |s|
  {
    var rule := RuleOf(net, id);
    assert id in done + {id} && WellFormedRule(net.kinds, rule);
    forall e: nat | Takes(rule, e)
      ensures e < |s| && s[e] != [] && cur[e] != [] && Head(cur[e]) == Head(s[e])
    {
      assert !DeqReady(net, done, e);
      assert EdgeBetween(net, s, done, cur, e);
    }
    forall e: nat | Puts(rule, e)
      ensures e < |s|
      ensures net.kinds[e].Queue? ==> |cur[e]| < net.kinds[e].depth
    {
      assert EdgeBetween(net, s, done, cur, e);
    }
    forall i | 0 <= i < |rule| && !rule[i].Let? && net.kinds[rule[i].edge].Queue?
      ensures if rule[i].Take? then cur[rule[i].edge] != [] else |cur[rule[i].edge]| < net.kinds[rule[i].edge].depth
    {
      assert if rule[i].Take? then Takes(rule, rule[i].edge) else Puts(rule, rule[i].edge);
    }
  }

  lemma TurnTaken(net: Network, s: State, done: set<RuleId>, cur: State, id: RuleId)
    requires WellFormed(net) && ValidState(net, s) && Compatible(net, s, done + {id}) && id !in done
    requires Between(net, s, done, cur)
    ensures Between(net, s, done + {id}, Exec(RuleOf(net, id), cur, map[]))
  {
    var rule := RuleOf(net, id);
    var next := Exec(rule, cur, map[]);
    TurnComes(net, s, done, cur, id);
    assert WellFormedRule(net.kinds, rule);
    forall e: nat | e < |s| ensures EdgeBetween(net, s, done + {id}, next, e) {
      ExecIsDrive(rule, cur, s, map[], e);
      TurnTakenAt(net, s, done, cur, id, next, e);
    }
  }

  lemma TurnTakenAt(net: Network, s: State, done: set<RuleId>, cur: State, id: RuleId, next: State, e: nat)
    requires ValidState(net, s) && Compatible(net, s, done + {id}) && id !in done
    requires |cur| == |s| == |next| && e < |s| && EdgeBetween(net, s, done, cur, e)
    requires Takes(RuleOf(net, id), e) ==> s[e] != [] && cur[e] != []
    requires var rule := RuleOf(net, id);
             next[e] == After(cur[e], Takes(rule, e), Puts(rule, e), Driven(net, s, id, e))
    ensures EdgeBetween(net, s, done + {id}, next, e)
  {
    hide CanFire, Drive, Takes, Puts;
    assert id in done + {id};
    var takes, puts := Takes(RuleOf(net, id), e), Puts(RuleOf(net, id), e);
    assert DeqReady(net, done + {id}, e) <==> DeqReady(net, done, e) || takes;
    assert takes ==> !DeqReady(net, done, e);
    assert puts ==> forall x | x in done :: !Puts(RuleOf(net, x), e);
    var base, base' := After(s[e], DeqReady(net, done, e), false, 0), After(s[e], DeqReady(net, done + {id}, e), false, 0);
    assert takes ==> base == s[e] && base' == s[e][1..];
    assert !takes ==> base' == base;
    forall x | x in done + {id} && Puts(RuleOf(net, x), e) ensures next[e] == base' + [Driven(net, s, x, e)] {
      if x == id {
        assert cur[e] == base;
      } else {
        assert cur[e] == base + [Driven(net, s, x, e)];
      }
    }
  }

  lemma {:induction false} CombIsDriven(net: Network, s: State, order: seq<RuleId>, fired: set<RuleId>, e: nat)
    requires ValidState(net, s) && Compatible(net, s, fired) && AreRules(net, order)
    ensures e in Comb(net, s, order, fired) <==>
            exists i :: 0 <= i < |order| && order[i] in fired && Puts(RuleOf(net, order[i]), e)
    ensures forall id | id in fired && Puts(RuleOf(net, id), e) && e in Comb(net, s, order, fired) ::
              Comb(net, s, order, fired)[e] == Driven(net, s, id, e)
  {
    hide CanFire, Drive, Puts, Takes;
    if order != [] {
      var rest := order[1..];
      CombIsDriven(net, s, rest, fired, e);
      DrivesItsPuts(RuleOf(net, order[0]), s, map[]);
      assert forall i | 0 <= i < |rest| :: rest[i] == order[i + 1];
      if exists i :: 0 <= i < |rest| && rest[i] in fired && Puts(RuleOf(net, rest[i]), e) {
        var i :| 0 <= i < |rest| && rest[i] in fired && Puts(RuleOf(net, rest[i]), e);
        assert order[i + 1] in fired && Puts(RuleOf(net, order[i + 1]), e);
      }
    }
  }

  /** When every fired rule has run, the edges hold what the clock edge stores. */
  lemma AllTurnsAreTheCycle(net: Network, s: State, order: seq<RuleId>, fired: set<RuleId>, cur: State)
    requires WellFormed(net) && ValidState(net, s) && Compatible(net, s, fired) && AreRules(net, order)
    requires forall id | id in fired :: id in order
    requires Between(net, s, fired, cur)
    ensures cur == Cycle(net, s, order, fired)
    ensures ValidState(net, cur)
  {
    forall e: nat | e < |s|
      ensures cur[e] == Cycle(net, s, order, fired)[e]
      ensures if net.kinds[e].Cell? then |cur[e]| == 1 else |cur[e]| <= net.kinds[e].depth
    {
      CombIsDriven(net, s, order, fired, e);
      assert EdgeBetween(net, s, fired, cur, e);
      EdgeAfterCycle(net, s, order, fired, cur, e);
    }
  }

  lemma EdgeAfterCycle(net: Network, s: State, order: seq<RuleId>, fired: set<RuleId>, cur: State, e: nat)
    requires WellFormed(net) && ValidState(net, s) && Compatible(net, s, fired) && AreRules(net, order)
    requires |cur| == |s| && e < |s| && EdgeBetween(net, s, fired, cur, e)
    requires forall id | id in fired :: id in order
    requires var comb := Comb(net, s, order, fired);
             && (e in comb <==> exists i :: 0 <= i < |order| && order[i] in fired && Puts(RuleOf(net, order[i]), e))
             && forall id | id in fired && Puts(RuleOf(net, id), e) && e in comb :: comb[e] == Driven(net, s, id, e)
    ensures cur[e] == Cycle(net, s, order, fired)[e]
    ensures if net.kinds[e].Cell? then |cur[e]| == 1 else |cur[e]| <= net.kinds[e].depth
  {
    hide Drive, Comb, Takes, Puts, CanFire;
    var comb := Comb(net, s, order, fired);
    if e in comb {
      var i :| 0 <= i < |order| && order[i] in fired && Puts(RuleOf(net, order[i]), e);
      GuardHolds(net, s, order[i], e);
    } else {
      forall id | id in fired ensures !Puts(RuleOf(net, id), e) {
        assert id in order;
      }
    }
    if DeqReady(net, fired, e) {
      var id :| id in fired && Takes(RuleOf(net, id), e);
      GuardHolds(net, s, id, e);
    }
    CellsTakenAndPut(net, s, fired, e);
  }

  /** What `can_fire` says of one edge. */
  lemma GuardHolds(net: Network, s: State, id: RuleId, e: nat)
    requires WellFormed(net) && ValidState(net, s) && IsRule(net, id) && e < |s|
    requires CanFire(net.kinds, s, RuleOf(net, id))
    ensures Takes(RuleOf(net, id), e) ==> s[e] != []
    ensures Puts(RuleOf(net, id), e) && net.kinds[e].Queue? ==> |s[e]| < net.kinds[e].depth
  {
  }

  lemma CellsTakenAndPut(net: Network, s: State, fired: set<RuleId>, e: nat)
    requires WellFormed(net) && ValidState(net, s) && Compatible(net, s, fired) && e < |s|
    ensures net.kinds[e].Cell? ==>
              (DeqReady(net, fired, e) <==> exists id :: id in fired && Puts(RuleOf(net, id), e))
  {
  }

  ghost predicate IsOrderOf(turns: seq<RuleId>, ids: set<RuleId>) {
    && (forall id :: id in turns <==> id in ids)
    && forall i, j | 0 <= i < j < |turns| :: turns[i] != turns[j]
  }

  lemma {:induction false} TurnsFrom(net: Network, s: State, done: set<RuleId>, cur: State, turns: seq<RuleId>)
    requires WellFormed(net) && ValidState(net, s) && AreRules(net, turns)
    requires Compatible(net, s, done + (set id | id in turns))
    requires forall id | id in turns :: id !in done
    requires forall i, j | 0 <= i < j < |turns| :: turns[i] != turns[j]
    requires Between(net, s, done, cur)
    ensures Allowed(net, cur, turns)
    ensures Between(net, s, done + (set id | id in turns), Serial(net, cur, turns))
    decreases turns
  {
    hide Between, CanFire, Exec, WellFormed, ValidState;
    if turns == [] {
      assert done + (set id | id in turns) == done;
    } else {
      var id, rest := turns[0], turns[1..];
      assert Compatible(net, s, done + {id});
      TurnComes(net, s, done, cur, id);
      TurnTaken(net, s, done, cur, id);
      assert done + {id} + (set x | x in rest) == done + (set x | x in turns);
      TurnsFrom(net, s, done + {id}, Exec(RuleOf(net, id), cur, map[]), rest);
    }
  }

  /** Main result. An emitted cycle is its fired rules run one at a time, in any order: every guard
      still holds when its rule's turn comes, and the queues and cells end up the same. */
  lemma CycleIsSerial(net: Network, conflicts: seq<Conflicts>, s: State, order: seq<RuleId>, turns: seq<RuleId>)
    requires WellFormed(net) && Scheduled(net, conflicts) && ValidState(net, s)
    requires AreRules(net, order) && forall id | IsRule(net, id) :: id in order
    requires IsOrderOf(turns, Fired(net, conflicts, s))
    ensures AreRules(net, turns) && Allowed(net, s, turns)
    ensures Serial(net, s, turns) == Cycle(net, s, order, Fired(net, conflicts, s))
    ensures ValidState(net, Cycle(net, s, order, Fired(net, conflicts, s)))
  {
    var fired := Fired(net, conflicts, s);
    FiredAreCompatible(net, conflicts, s);
    assert fired == {} + (set id | id in turns);
    assert AreRules(net, turns) by {
      forall i | 0 <= i < |turns| ensures IsRule(net, turns[i]) {
        assert turns[i] in turns;
      }
    }
    assert Between(net, s, {}, s);
    TurnsFrom(net, s, {}, s, turns);
    AllTurnsAreTheCycle(net, s, order, fired, Serial(net, s, turns));
  }

  // ---------------------------------------------------------------------------
  // Whole runs
  // ---------------------------------------------------------------------------

  /** The state after `n` clock cycles. */
  function Cycles(net: Network, conflicts: seq<Conflicts>, s: State, order: seq<RuleId>, n: nat): (s': State)
    requires |s| == |net.kinds| && |conflicts| == |net.processes| && AreRules(net, order)
    ensures |s'| == |s|
  {
    if n == 0 then s
    else
      var s1 := Cycles(net, conflicts, s, order, n - 1);
      Cycle(net, s1, order, Fired(net, conflicts, s1))
  }

  lemma {:induction false} SomeOrder(ids: set<RuleId>) returns (turns: seq<RuleId>)
    ensures IsOrderOf(turns, ids)
  {
    if ids == {} {
      turns := [];
    } else {
      var id :| id in ids;
      var rest := SomeOrder(ids - {id});
      turns := [id] + rest;
    }
  }

  lemma {:induction false} SerialThen(net: Network, s: State, a: seq<RuleId>, b: seq<RuleId>)
    requires |s| == |net.kinds| && AreRules(net, a) && AreRules(net, b)
    requires Allowed(net, s, a) && Allowed(net, Serial(net, s, a), b)
    ensures AreRules(net, a + b)
    ensures Allowed(net, s, a + b) && Serial(net, s, a + b) == Serial(net, Serial(net, s, a), b)
    decreases a
  {
    if a == [] {
      assert a + b == b;
    } else {
      assert (a + b)[0] == a[0] && (a + b)[1..] == a[1..] + b;
      SerialThen(net, Exec(RuleOf(net, a[0]), s, map[]), a[1..], b);
    }
  }

  ghost predicate SomeReady(net: Network, s: State)
    requires |s| == |net.kinds|
  {
    exists id :: IsReady(net, s, id)
  }

  /** In each of the first `n` cycles some rule's queues show what it needs. */
  ghost predicate Busy(net: Network, conflicts: seq<Conflicts>, s: State, order: seq<RuleId>, n: nat)
    requires |s| == |net.kinds| && |conflicts| == |net.processes| && AreRules(net, order)
  {
    forall m: nat | m < n :: SomeReady(net, Cycles(net, conflicts, s, order, m))
  }

  /** Every run of the circuit is a run of atomic rules: whatever it reaches, they reach; and it takes at least one
      turn in every cycle in which some rule can be run. */
  lemma {:induction false} RunIsSerial(net: Network, conflicts: seq<Conflicts>, s: State, order: seq<RuleId>, n: nat)
    returns (turns: seq<RuleId>)
    requires WellFormed(net) && Scheduled(net, conflicts) && ValidState(net, s)
    requires AreRules(net, order) && forall id | IsRule(net, id) :: id in order
    ensures AreRules(net, turns) && Allowed(net, s, turns)
    ensures Serial(net, s, turns) == Cycles(net, conflicts, s, order, n)
    ensures ValidState(net, Cycles(net, conflicts, s, order, n))
    ensures Busy(net, conflicts, s, order, n) ==> |turns| >= n
  {
    hide CanFire, Exec, Comb, WellFormed, Fired, Cycle, IsReady, SomeReady;
    turns := [];
    if n > 0 {
      turns := RunIsSerial(net, conflicts, s, order, n - 1);
      assert Busy(net, conflicts, s, order, n) ==> SomeReady(net, Cycles(net, conflicts, s, order, n - 1));
      turns := OneMoreCycle(net, conflicts, s, Cycles(net, conflicts, s, order, n - 1), order, turns);
    }
  }

  lemma OneMoreCycle(net: Network, conflicts: seq<Conflicts>, s: State, s1: State, order: seq<RuleId>, before: seq<RuleId>)
    returns (turns: seq<RuleId>)
    requires WellFormed(net) && Scheduled(net, conflicts) && ValidState(net, s) && ValidState(net, s1)
    requires AreRules(net, order) && forall id | IsRule(net, id) :: id in order
    requires AreRules(net, before) && Allowed(net, s, before) && Serial(net, s, before) == s1
    ensures AreRules(net, turns) && Allowed(net, s, turns)
    ensures Serial(net, s, turns) == Cycle(net, s1, order, Fired(net, conflicts, s1))
    ensures ValidState(net, Cycle(net, s1, order, Fired(net, conflicts, s1)))
    ensures |turns| >= |before| && (SomeReady(net, s1) ==> |turns| > |before|)
  {
    var now := SomeOrder(Fired(net, conflicts, s1));
    if SomeReady(net, s1) {
      var id :| IsReady(net, s1, id);
      var other := ReadyProcessFires(net, conflicts, s1, id);
      assert other in now;
    }
    hide WellFormed, Serial, Allowed, Cycle, IsOrderOf, IsReady, SomeReady, Fired;
    CycleIsSerial(net, conflicts, s1, order, now);
    SerialThen(net, s, before, now);
    turns := before + now;
  }
}
