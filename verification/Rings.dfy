/** What the deadlock check's verdict means on a ring of processes, each taking from the queue before it and
    putting to the queue after it. */
module Rings {
  import opened Options
  import opened RingCount
  import opened Deadlock

  // ---------------------------------------------------------------------------
  // The ring in motion
  // ---------------------------------------------------------------------------

  /** Queue `i` runs from process `Prev(i)` to process `i`. */
  function Prev(n: nat, i: nat): (j: nat)
    requires i < n
    ensures j < n
  {
    if i == 0 then n - 1 else i - 1
  }

  function SumTo(s: seq<nat>, n: nat): nat
    requires n <= |s|
  {
    if n == 0 then 0 else SumTo(s, n - 1) + s[n - 1]
  }

  function Sum(s: seq<nat>): nat {
    SumTo(s, |s|)
  }

  /** What the queues hold: no more than their depths. */
  predicate Marking(tokens: seq<nat>, depth: seq<nat>) {
    |tokens| == |depth| > 0 && (forall i | 0 <= i < |tokens| :: tokens[i] <= depth[i]) && (forall i | 0 <= i < |depth| :: depth[i] > 0)
  }

  /** The guard of process `i`: a word to take and room to put it. */
  predicate CanFire(tokens: seq<nat>, depth: seq<nat>, i: nat)
    requires Marking(tokens, depth) && i < |tokens|
  {
    tokens[i] > 0 && tokens[Succ(|tokens|, i)] < depth[Succ(|tokens|, i)]
  }

  predicate CanAllFire(tokens: seq<nat>, depth: seq<nat>, fired: set<nat>)
    requires Marking(tokens, depth)
  {
    forall i: nat | i in fired :: i < |tokens| && CanFire(tokens, depth, i)
  }

  /** One cycle, in which any set of enabled processes fires. */
  function Fire(tokens: seq<nat>, depth: seq<nat>, fired: set<nat>): (next: seq<nat>)
    requires Marking(tokens, depth) && CanAllFire(tokens, depth, fired)
    ensures Marking(next, depth)
  {
    seq(|tokens|, i requires 0 <= i < |tokens| => Moved(tokens, depth, fired, i))
  }

  function Moved(tokens: seq<nat>, depth: seq<nat>, fired: set<nat>, i: nat): (t: nat)
    requires Marking(tokens, depth) && CanAllFire(tokens, depth, fired) && i < |tokens|
    ensures t <= depth[i]
  {
    assert Prev(|tokens|, i) in fired ==> CanFire(tokens, depth, Prev(|tokens|, i)) && Succ(|tokens|, Prev(|tokens|, i)) == i;
    tokens[i] - (if i in fired then 1 else 0) + if Prev(|tokens|, i) in fired then 1 else 0
  }

  function CountTo(s: set<nat>, n: nat): nat {
    if n == 0 then 0 else CountTo(s, n - 1) + if n - 1 in s then 1 else 0
  }

  lemma {:induction false} SumMoves(tokens: seq<nat>, depth: seq<nat>, fired: set<nat>, k: nat)
    requires Marking(tokens, depth) && CanAllFire(tokens, depth, fired) && 0 < k <= |tokens|
    ensures SumTo(Fire(tokens, depth, fired), k) + CountTo(fired, k)
            == SumTo(tokens, k) + CountTo(fired, k - 1) + if |tokens| - 1 in fired then 1 else 0
  {
    if k > 1 {
      SumMoves(tokens, depth, fired, k - 1);
    }
  }

  /** No cycle makes or loses a token, whichever processes fire. */
  lemma TokensAreConserved(tokens: seq<nat>, depth: seq<nat>, fired: set<nat>)
    requires Marking(tokens, depth) && CanAllFire(tokens, depth, fired)
    ensures Sum(Fire(tokens, depth, fired)) == Sum(tokens)
  {
    SumMoves(tokens, depth, fired, |tokens|);
  }

  // ---------------------------------------------------------------------------
  // Stuck and moving
  // ---------------------------------------------------------------------------

  predicate SomeCanFire(tokens: seq<nat>, depth: seq<nat>)
    requires Marking(tokens, depth)
  {
    exists i: nat :: i < |tokens| && CanFire(tokens, depth, i)
  }

  lemma {:induction false} SumOrder(s: seq<nat>, t: seq<nat>, n: nat)
    requires |s| == |t| && n <= |s| && (forall i | 0 <= i < n :: s[i] <= t[i])
    ensures SumTo(s, n) <= SumTo(t, n)
    ensures SumTo(s, n) == SumTo(t, n) <==> forall i | 0 <= i < n :: s[i] == t[i]
    ensures SumTo(s, n) == 0 <==> forall i | 0 <= i < n :: s[i] == 0
  {
    if n > 0 {
      SumOrder(s, t, n - 1);
    }
  }

  /** When no process can fire, a queue that holds anything is followed by full queues only. */
  lemma {:induction false} FullAfter(tokens: seq<nat>, depth: seq<nat>, i: nat, j: nat)
    requires Marking(tokens, depth) && !SomeCanFire(tokens, depth)
    requires i < j < |tokens| && tokens[i] > 0
    ensures tokens[j] == depth[j]
  {
    if i + 1 < j {
      FullAfter(tokens, depth, i, j - 1);
    }
    assert !CanFire(tokens, depth, j - 1);
  }

  lemma AllFull(tokens: seq<nat>, depth: seq<nat>, i: nat)
    requires Marking(tokens, depth) && !SomeCanFire(tokens, depth)
    requires i < |tokens| && tokens[i] > 0
    ensures forall j | 0 <= j < |tokens| :: tokens[j] == depth[j]
  {
    var last := |tokens| - 1;
    if i < last {
      FullAfter(tokens, depth, i, last);
    }
    assert !CanFire(tokens, depth, last);
    forall j | 0 < j < |tokens| ensures tokens[j] == depth[j] {
      FullAfter(tokens, depth, 0, j);
    }
  }

  /** A ring can move exactly when it holds a token and has room for one more. */
  lemma MovesIff(tokens: seq<nat>, depth: seq<nat>)
    requires Marking(tokens, depth)
    ensures SomeCanFire(tokens, depth) <==> 0 < Sum(tokens) < Sum(depth)
  {
    SumOrder(tokens, depth, |tokens|);
    if SomeCanFire(tokens, depth) {
      var i: nat :| i < |tokens| && CanFire(tokens, depth, i);
      assert tokens[i] > 0;
    } else if Sum(tokens) > 0 {
      var i :| 0 <= i < |tokens| && tokens[i] != 0;
      AllFull(tokens, depth, i);
    }
  }

  // ---------------------------------------------------------------------------
  // Whole runs
  // ---------------------------------------------------------------------------

  predicate LegalRun(tokens: seq<nat>, depth: seq<nat>, run: seq<set<nat>>)
    requires Marking(tokens, depth)
    decreases run
  {
    run == [] || (CanAllFire(tokens, depth, run[0]) && LegalRun(Fire(tokens, depth, run[0]), depth, run[1..]))
  }

  function RunRing(tokens: seq<nat>, depth: seq<nat>, run: seq<set<nat>>): (end: seq<nat>)
    requires Marking(tokens, depth) && LegalRun(tokens, depth, run)
    ensures Marking(end, depth)
    decreases run
  {
    if run == [] then tokens else RunRing(Fire(tokens, depth, run[0]), depth, run[1..])
  }

  /** How often process `i` fires in a run. */
  function Firings(run: seq<set<nat>>, i: nat): nat {
    if run == [] then 0 else (if i in run[0] then 1 else 0) + Firings(run[1..], i)
  }

  /** Over a run: the tokens are conserved, and each queue has gained what its writer put and lost what
      its reader took, so neighbours never fire more than a queue's depth apart. */
  lemma {:induction false} RunConserves(tokens: seq<nat>, depth: seq<nat>, run: seq<set<nat>>)
    requires Marking(tokens, depth) && LegalRun(tokens, depth, run)
    ensures Sum(RunRing(tokens, depth, run)) == Sum(tokens)
    ensures forall i | 0 <= i < |tokens| ::
              RunRing(tokens, depth, run)[i] + Firings(run, i) == tokens[i] + Firings(run, Prev(|tokens|, i))
    decreases run
  {
    if run != [] {
      TokensAreConserved(tokens, depth, run[0]);
      RunConserves(Fire(tokens, depth, run[0]), depth, run[1..]);
    }
  }

  // ---------------------------------------------------------------------------
  // The ring as a network
  // ---------------------------------------------------------------------------

  /** A state cell of one process, with or without an initial value. */
  datatype StateCell = StateCell(owner: nat, init: Option<nat>)

  /** Queue `i` has `init[i]` and `depth[i]`; the processes hold any number of cells. */
  datatype Ring = Ring(init: seq<nat>, depth: seq<nat>, cells: seq<StateCell>) {
    predicate Valid() {
      && |init| == |depth| > 0 && (forall i | 0 <= i < |depth| :: depth[i] > 0)
      && (forall k | 0 <= k < |cells| :: cells[k].owner < |init|)
    }
  }

  function CellPort(k: nat): string {
    seq(k + 1, _ => 'c')
  }

  /** The ports of process `i`: the queue it takes from, the one it puts to, and its cells among the first `k`. */
  function PortsOf(ring: Ring, i: nat, k: nat): map<string, nat>
    requires ring.Valid() && i < |ring.init| && k <= |ring.cells|
  {
    if k == 0 then map["inp" := i, "out" := Succ(|ring.init|, i)]
    else if ring.cells[k - 1].owner == i then PortsOf(ring, i, k - 1)[CellPort(k - 1) := |ring.init| + (k - 1)]
    else PortsOf(ring, i, k - 1)
  }

  /** Process `i` takes from its queue, puts to the next, and takes and puts back each of its cells. */
  function RingNode(ring: Ring, i: nat): Node
    requires ring.Valid() && i < |ring.init|
  {
    var ports := PortsOf(ring, i, |ring.cells|);
    Node(false, ports, [Resources(ports.Keys - {"out"}, {}, ports.Keys - {"inp"})])
  }

  function RingEdge(ring: Ring, e: nat): Edge
    requires ring.Valid() && e < |ring.init| + |ring.cells|
  {
    var n := |ring.init|;
    if e < n then Edge(Prev(n, e), e, Queue(ring.init[e]), ring.depth[e])
    else Edge(ring.cells[e - n].owner, ring.cells[e - n].owner, Cell(ring.cells[e - n].init), 1)
  }

  function RingNetwork(ring: Ring): (net: Network)
    requires ring.Valid()
    ensures |net.nodes| == |ring.init| && |net.edges| == |ring.init| + |ring.cells|
    ensures forall i | 0 <= i < |net.nodes| :: net.nodes[i] == RingNode(ring, i)
    ensures forall e | 0 <= e < |net.edges| :: net.edges[e] == RingEdge(ring, e)
    ensures net.Typed()
  {
    Network(seq(|ring.init|, i requires 0 <= i < |ring.init| => RingNode(ring, i)),
            seq(|ring.init| + |ring.cells|, e requires 0 <= e < |ring.init| + |ring.cells| => RingEdge(ring, e)))
  }

  /** Every port leads to its own edge; only the two queue ports lead to queues. */
  lemma {:induction false} PortsLead(ring: Ring, i: nat, k: nat)
    requires ring.Valid() && i < |ring.init| && k <= |ring.cells|
    ensures var ports, n := PortsOf(ring, i, k), |ring.init|;
            && "inp" in ports && ports["inp"] == i && "out" in ports && ports["out"] == Succ(n, i)
            && (forall c | 0 <= c < k && ring.cells[c].owner == i :: CellPort(c) in ports && ports[CellPort(c)] == n + c)
            && (forall p | p in ports && p != "inp" && p != "out" :: n <= ports[p] < n + k)
  {
    if k > 0 {
      PortsLead(ring, i, k - 1);
      NamesApart(k - 1);
    }
  }

  lemma NamesApart(k: nat)
    ensures CellPort(k) != "inp" && CellPort(k) != "out"
    ensures forall c: nat | c < k :: CellPort(c) != CellPort(k)
  {
    assert CellPort(k)[0] == 'c';
    forall c: nat | c < k ensures CellPort(c) != CellPort(k) {
      assert |CellPort(c)| == c + 1;
    }
  }

  /** The network's guards are the ring's, whatever the cells hold. */
  lemma GuardIsCanFire(ring: Ring, tokens: seq<nat>, cells: seq<nat>, i: nat)
    requires ring.Valid() && Marking(tokens, ring.depth) && |cells| == |ring.cells| && i < |tokens|
    ensures var net := RingNetwork(ring);
            GuardHolds(net, net.nodes[i], net.nodes[i].rules[0], tokens + cells) <==> CanFire(tokens, ring.depth, i)
  {
    hide PortsOf;
    PortsLead(ring, i, |ring.cells|);
    var net := RingNetwork(ring);
    var node := net.nodes[i];
    assert "inp" in node.rules[0].takes && "out" in node.rules[0].puts;
    assert node.ports["inp"] == i && node.ports["out"] == Succ(|tokens|, i);
    assert !net.edges[i].kind.Cell? && !net.edges[Succ(|tokens|, i)].kind.Cell?;
  }

  // ---------------------------------------------------------------------------
  // The check on a ring
  // ---------------------------------------------------------------------------

  /** What the emitted queues hold at reset: an `init` other than 0 is the value of one token. */
  function AtReset(init: seq<nat>): (tokens: seq<nat>)
    ensures |tokens| == |init|
  {
    seq(|init|, i requires 0 <= i < |init| => if init[i] > 0 then 1 else 0)
  }

  predicate WholeRing(scc: seq<nat>, n: nat) {
    Within(scc, n) && Distinct(scc) && |scc| == n > 0 && forall i: nat | i < n :: i in scc
  }

  predicate SomeCellHasInit(cells: seq<StateCell>) {
    exists k :: 0 <= k < |cells| && cells[k].init.Some?
  }

  /** The initialised ones of the first `k` cells. */
  function CellTokens(cells: seq<StateCell>, k: nat): nat
    requires k <= |cells|
  {
    if k == 0 then 0 else CellTokens(cells, k - 1) + if cells[k - 1].init.Some? then 1 else 0
  }

  lemma {:induction false} CellTokensZero(cells: seq<StateCell>, k: nat)
    requires k <= |cells|
    ensures CellTokens(cells, k) == 0 <==> forall c | 0 <= c < k :: cells[c].init.None?
  {
    if k > 0 {
      CellTokensZero(cells, k - 1);
    }
  }

  /** Every edge of the ring is one at which some rule can wait, the cells included. */
  lemma RingBlocks(ring: Ring, e: nat)
    requires ring.Valid() && e < |ring.init| + |ring.cells|
    ensures Blocking(RingNetwork(ring), e)
  {
    hide PortsOf;
    var net, n := RingNetwork(ring), |ring.init|;
    var i := if e < n then e else ring.cells[e - n].owner;
    var p := if e < n then "inp" else CellPort(e - n);
    PortsLead(ring, i, |ring.cells|);
    if e >= n {
      NamesApart(e - n);
    }
    assert p in BlockingPorts(net.nodes[i].rules[0]);
    assert RuleBlocks(net.nodes[i].ports, net.nodes[i].rules[0], e);
    assert NodeBlocks(net.nodes[i], e);
  }

  lemma {:induction false} RingSums(ring: Ring, s: set<nat>, m: nat)
    requires ring.Valid() && m <= |ring.init| + |ring.cells| && (forall e: nat | e < |ring.init| + |ring.cells| :: e in s)
    ensures var edges, n := RingNetwork(ring).edges, |ring.init|;
            && SumOver(edges, false, s, m) == (if m <= n then SumTo(ring.init, m) else Sum(ring.init) + CellTokens(ring.cells, m - n))
            && SumOver(edges, true, s, m) == if m <= n then SumTo(ring.depth, m) else Sum(ring.depth) + (m - n)
  {
    if m > 0 {
      RingSums(ring, s, m - 1);
      assert RingNetwork(ring).edges[m - 1] == RingEdge(ring, m - 1);
    }
  }

  lemma {:induction false} NoStubs(ring: Ring, scc: seq<nat>)
    requires ring.Valid() && Within(scc, |ring.init|)
    ensures NonStubs(RingNetwork(ring), scc) == |scc|
    decreases |scc|
  {
    hide RingNetwork;
    if scc != [] {
      NoStubs(ring, scc[..|scc| - 1]);
    }
  }

  lemma {:induction false} DepthsAtLeastOne(depth: seq<nat>, n: nat)
    requires n <= |depth| && (forall i | 0 <= i < |depth| :: depth[i] > 0)
    ensures SumTo(depth, n) >= n
  {
    if n > 0 {
      DepthsAtLeastOne(depth, n - 1);
    }
  }

  lemma {:induction false} SameZeroTo(init: seq<nat>, n: nat)
    requires n <= |init|
    ensures SumTo(init, n) == 0 <==> SumTo(AtReset(init), n) == 0
  {
    if n > 0 {
      SameZeroTo(init, n - 1);
    }
  }

  /** The token check rejects a ring exactly when no queue and no cell has an initial token; the capacity
      check rejects none. */
  lemma RingVerdict(ring: Ring, scc: seq<nat>)
    requires ring.Valid() && WholeRing(scc, |ring.init|)
    ensures var net := RingNetwork(ring);
            && IsComponent(net, scc) && !IsTooShallow(net, scc)
            && (HasNoTokens(net, scc) <==> Sum(AtReset(ring.init)) == 0 && !SomeCellHasInit(ring.cells))
  {
    hide Blocking, SumTo, NonStubs, SumOver, RingNetwork, AtReset, CellTokens, RingEdge;
    var net, n, k := RingNetwork(ring), |ring.init|, |ring.cells|;
    var cycle := CycleEdges(net, scc);
    forall e: nat | e < n + k ensures e in cycle {
      RingBlocks(ring, e);
      EndsInRing(ring, e);
    }
    assert 0 in cycle;
    RingSums(ring, cycle, n + k);
    NoStubs(ring, scc);
    DepthsAtLeastOne(ring.depth, n);
    SameZeroTo(ring.init, n);
    CellTokensZero(ring.cells, k);
    NoCells(ring.cells);
  }

  lemma EndsInRing(ring: Ring, e: nat)
    requires ring.Valid() && e < |ring.init| + |ring.cells|
    ensures var edge := RingNetwork(ring).edges[e];
            edge.src < |ring.init| && edge.dst < |ring.init|
  {
  }

  lemma NoCells(cells: seq<StateCell>)
    ensures CellTokens(cells, 0) == 0
  {
  }

  ghost predicate NeverStuck(tokens: seq<nat>, depth: seq<nat>)
    requires Marking(tokens, depth)
  {
    forall run | LegalRun(tokens, depth, run) :: SomeCanFire(RunRing(tokens, depth, run), depth)
  }

  lemma NeverStuckIff(tokens: seq<nat>, depth: seq<nat>)
    requires Marking(tokens, depth)
    ensures NeverStuck(tokens, depth) <==> 0 < Sum(tokens) < Sum(depth)
  {
    forall run | LegalRun(tokens, depth, run)
      ensures SomeCanFire(RunRing(tokens, depth, run), depth) <==> 0 < Sum(tokens) < Sum(depth)
    {
      RunConserves(tokens, depth, run);
      MovesIff(RunRing(tokens, depth, run), depth);
    }
    assert LegalRun(tokens, depth, []);
  }

  /** The check reports nothing on the ring. */
  predicate Accepted(ring: Ring, scc: seq<nat>)
    requires ring.Valid() && WholeRing(scc, |ring.init|)
  {
    RingVerdict(ring, scc);
    !HasNoTokens(RingNetwork(ring), scc) && !IsTooShallow(RingNetwork(ring), scc)
  }

  /** Main result. Whatever cells its processes hold, a ring never gets stuck exactly when its queues start with a
      token and with room for one more, and otherwise nothing in it ever moves. The check accepts it
      exactly when a queue or a cell starts with a token. So the accepted rings that deadlock are exactly
      the full ones and those whose only tokens are the cells'. */
  lemma AcceptedRingRuns(ring: Ring, scc: seq<nat>)
    requires ring.Valid() && WholeRing(scc, |ring.init|)
    ensures var tokens, depth := AtReset(ring.init), ring.depth;
            && Marking(tokens, depth)
            && (Accepted(ring, scc) <==> Sum(tokens) > 0 || SomeCellHasInit(ring.cells))
            && (NeverStuck(tokens, depth) <==> 0 < Sum(tokens) < Sum(depth))
            && (!NeverStuck(tokens, depth) ==> !SomeCanFire(tokens, depth))
            && (Accepted(ring, scc) && !NeverStuck(tokens, depth)
                <==> Sum(tokens) == Sum(depth) || (Sum(tokens) == 0 && SomeCellHasInit(ring.cells)))
  {
    hide HasNoTokens, IsTooShallow, SumTo, SomeCellHasInit, SomeCanFire, NeverStuck;
    var tokens, depth := AtReset(ring.init), ring.depth;
    RingVerdict(ring, scc);
    NeverStuckIff(tokens, depth);
    MovesIff(tokens, depth);
    SumsOrdered(tokens, depth);
  }

  lemma SumsOrdered(tokens: seq<nat>, depth: seq<nat>)
    requires Marking(tokens, depth)
    ensures Sum(tokens) <= Sum(depth) && Sum(depth) > 0
  {
    SumOrder(tokens, depth, |tokens|);
    DepthsAtLeastOne(depth, |depth|);
  }

  /** The full ring: one process, one queue of depth 1, one token. */
  lemma AcceptedButFull()
    ensures var ring := Ring([1], [1], []);
            WholeRing([0], 1) && Accepted(ring, [0]) && !NeverStuck(AtReset(ring.init), ring.depth)
  {
    var ring := Ring([1], [1], []);
    AcceptedRingRuns(ring, [0]);
    assert SumTo([1], 1) == 1 && SumTo(AtReset([1]), 1) == 1;
  }

  /** Two processes and two empty queues: the token of one initialised cell makes the check accept them. */
  lemma CellTokenHidesDeadlock()
    ensures var ring := Ring([0, 0], [1, 1], [StateCell(0, Some(0))]);
            WholeRing([0, 1], 2) && Accepted(ring, [0, 1]) && !NeverStuck(AtReset(ring.init), ring.depth)
  {
    var ring := Ring([0, 0], [1, 1], [StateCell(0, Some(0))]);
    assert ring.cells[0].init.Some?;
    AcceptedRingRuns(ring, [0, 1]);
    assert SumTo(AtReset([0, 0]), 1) == 0 && SumTo(AtReset([0, 0]), 2) == 0;
  }
}
