/** The deadlock check: which edges can block, and what it concludes from tokens and capacity on a cycle. */
module Deadlock {
  import opened Options

  datatype Kind = Queue(initTokens: nat) | Cell(init: Option<nat>) | AsyncQueue

  datatype Edge = Edge(src: nat, dst: nat, kind: Kind, depth: nat)

  datatype Resources = Resources(takes: set<string>, tryTakes: set<string>, puts: set<string>)

  datatype Node = Node(isStub: bool, ports: map<string, nat>, rules: seq<Resources>)

  datatype Network = Network(nodes: seq<Node>, edges: seq<Edge>) {
    predicate Typed() {
      forall e | e in edges :: e.src < |nodes| && e.dst < |nodes|
    }
  }

  // ---------------------------------------------------------------------------
  // Blocking edges
  // ---------------------------------------------------------------------------

  /** The ports a rule takes from and never tries, and the ports it puts to. */
  function BlockingPorts(r: Resources): set<string> {
    (r.takes - r.tryTakes) + r.puts
  }

  predicate Exempt(net: Network, e: nat)
    requires net.Typed() && e < |net.edges|
  {
    var edge := net.edges[e];
    assert edge in net.edges;
    edge.kind == AsyncQueue || net.nodes[edge.src].isStub || net.nodes[edge.dst].isStub
  }

  predicate RuleBlocks(ports: map<string, nat>, r: Resources, e: nat) {
    exists p :: p in BlockingPorts(r) && p in ports && ports[p] == e
  }

  predicate NodeBlocks(node: Node, e: nat) {
    SomeRuleBlocks(node.ports, node.rules, e)
  }

  /** Some rule can wait at the edge. */
  predicate Blocking(net: Network, e: nat)
    requires net.Typed()
  {
    e < |net.edges| && !Exempt(net, e) && SomeNodeBlocks(net.nodes, e)
  }

  predicate SomeNodeBlocks(nodes: seq<Node>, e: nat) {
    exists n :: 0 <= n < |nodes| && NodeBlocks(nodes[n], e)
  }

  predicate SomeRuleBlocks(ports: map<string, nat>, rules: seq<Resources>, e: nat) {
    exists r :: 0 <= r < |rules| && RuleBlocks(ports, rules[r], e)
  }

  function Indices(n: nat): (s: set<nat>)
    ensures forall i: nat :: i in s <==> i < n
  {
    if n == 0 then {} else Indices(n - 1) + {n - 1}
  }

  method ClassifyNonBlocking(net: Network) returns (nonBlocking: set<nat>)
    requires net.Typed()
    ensures forall e: nat :: e in nonBlocking <==> e < |net.edges| && !Blocking(net, e)
  {
    var all := Indices(|net.edges|);
    var exempt := set e: nat | e in all && Exempt(net, e);
    nonBlocking := all;
    for n := 0 to |net.nodes|
      invariant forall e: nat :: e in nonBlocking <==> e in all && (e in exempt || !SomeNodeBlocks(net.nodes[..n], e))
    {
      var node := net.nodes[n];
      for r := 0 to |node.rules|
        invariant forall e: nat :: e in nonBlocking <==>
                                     e in all && (e in exempt || (!SomeNodeBlocks(net.nodes[..n], e)
                                                                  && !SomeRuleBlocks(node.ports, node.rules[..r], e)))
      {
        var blocked := set p | p in BlockingPorts(node.rules[r]) && p in node.ports :: node.ports[p];
        nonBlocking := nonBlocking - (blocked - exempt);
        forall e: nat ensures SomeRuleBlocks(node.ports, node.rules[..r + 1], e)
                              <==> SomeRuleBlocks(node.ports, node.rules[..r], e) || e in blocked
        {
          OneMoreRule(node.ports, node.rules, r, e);
        }
      }
      assert node.rules[..|node.rules|] == node.rules;
      forall e: nat ensures SomeNodeBlocks(net.nodes[..n + 1], e)
                            <==> SomeNodeBlocks(net.nodes[..n], e) || SomeRuleBlocks(node.ports, node.rules, e)
      {
        OneMoreNode(net.nodes, n, e);
      }
    }
    assert net.nodes[..|net.nodes|] == net.nodes;
  }

  lemma OneMoreRule(ports: map<string, nat>, rules: seq<Resources>, r: nat, e: nat)
    requires r < |rules|
    ensures SomeRuleBlocks(ports, rules[..r + 1], e) <==> SomeRuleBlocks(ports, rules[..r], e) || RuleBlocks(ports, rules[r], e)
  {
  }

  lemma OneMoreNode(nodes: seq<Node>, n: nat, e: nat)
    requires n < |nodes|
    ensures SomeNodeBlocks(nodes[..n + 1], e) <==> SomeNodeBlocks(nodes[..n], e) || NodeBlocks(nodes[n], e)
  {
  }

  // ---------------------------------------------------------------------------
  // The two checks
  // ---------------------------------------------------------------------------

  /** An edge's weight in the token sum. */
  function TokensOf(e: Edge): nat {
    match e.kind
    case Cell(Some(_)) => 1
    case Queue(tokens) => tokens
    case _ => 0
  }

  function Weight(e: Edge, depth: bool): nat {
    if depth then e.depth else TokensOf(e)
  }

  /** The sum over the edges of a set, among the first `n`. */
  function SumOver(edges: seq<Edge>, depth: bool, s: set<nat>, n: nat): nat
    requires n <= |edges|
  {
    if n == 0 then 0
    else SumOver(edges, depth, s, n - 1) + if n - 1 in s then Weight(edges[n - 1], depth) else 0
  }

  lemma {:induction false} SumOverAdds(edges: seq<Edge>, depth: bool, s: set<nat>, x: nat, n: nat)
    requires n <= |edges| && x !in s && x < |edges|
    ensures SumOver(edges, depth, s + {x}, n) == SumOver(edges, depth, s, n) + if x < n then Weight(edges[x], depth) else 0
  {
    if n > 0 {
      SumOverAdds(edges, depth, s, x, n - 1);
    }
  }

  lemma {:induction false} SumOverNone(edges: seq<Edge>, depth: bool, n: nat)
    requires n <= |edges|
    ensures SumOver(edges, depth, {}, n) == 0
  {
    if n > 0 {
      SumOverNone(edges, depth, n - 1);
    }
  }

  /** The blocking edges inside a component. */
  function CycleEdges(net: Network, scc: seq<nat>): (s: set<nat>)
    requires net.Typed()
    ensures forall e: nat :: e in s <==> Blocking(net, e) && net.edges[e].src in scc && net.edges[e].dst in scc
  {
    set e: nat | e < |net.edges| && Blocking(net, e) && net.edges[e].src in scc && net.edges[e].dst in scc
  }

  function Total(net: Network, scc: seq<nat>, depth: bool): nat
    requires net.Typed()
  {
    SumOver(net.edges, depth, CycleEdges(net, scc), |net.edges|)
  }

  predicate Within(s: seq<nat>, n: nat) {
    forall i | 0 <= i < |s| :: s[i] < n
  }

  predicate Distinct(s: seq<nat>) {
    forall i, j | 0 <= i < j < |s| :: s[i] != s[j]
  }

  function Elements(s: seq<nat>): set<nat> {
    set e | e in s
  }

  function NonStubs(net: Network, scc: seq<nat>): nat
    requires Within(scc, |net.nodes|)
  {
    if scc == [] then 0
    else NonStubs(net, scc[..|scc| - 1]) + if net.nodes[scc[|scc| - 1]].isStub then 0 else 1
  }

  predicate Examined(net: Network, scc: seq<nat>)
    requires net.Typed() && Within(scc, |net.nodes|)
  {
    CycleEdges(net, scc) != {} && NonStubs(net, scc) > 0
  }

  predicate IsComponent(net: Network, scc: seq<nat>) {
    |scc| > 0 && Within(scc, |net.nodes|) && Distinct(scc)
  }

  predicate HasNoTokens(net: Network, scc: seq<nat>)
    requires net.Typed() && IsComponent(net, scc)
  {
    Examined(net, scc) && Total(net, scc, false) == 0
  }

  predicate IsTooShallow(net: Network, scc: seq<nat>)
    requires net.Typed() && IsComponent(net, scc)
  {
    Examined(net, scc) && Total(net, scc, true) < NonStubs(net, scc)
  }

  predicate AreComponents(net: Network, sccs: seq<seq<nat>>) {
    forall i | 0 <= i < |sccs| :: IsComponent(net, sccs[i])
  }

  datatype Diagnostic = NoTokens(scc: nat) | TooShallow(scc: nat)

  /** The blocking edges of a component, each once, in the order the walk meets them. */
  method CollectEdges(net: Network, scc: seq<nat>, nonBlocking: set<nat>) returns (cycle: seq<nat>)
    requires net.Typed() && IsComponent(net, scc)
    requires forall e: nat :: e in nonBlocking <==> e < |net.edges| && !Blocking(net, e)
    ensures Elements(cycle) == CycleEdges(net, scc) && Distinct(cycle) && Within(cycle, |net.edges|)
  {
    cycle := [];
    for i := 0 to |scc|
      invariant forall e: nat :: e in cycle <==> e in CycleEdges(net, scc) && net.edges[e].src in scc[..i]
      invariant Distinct(cycle)
    {
      assert scc[i] !in scc[..i] && scc[..i + 1] == scc[..i] + [scc[i]];
      for e := 0 to |net.edges|
        invariant forall d: nat :: d in cycle <==> d in CycleEdges(net, scc)
                                                   && (net.edges[d].src in scc[..i] || (net.edges[d].src == scc[i] && d < e))
        invariant Distinct(cycle)
      {
        if net.edges[e].src == scc[i] && net.edges[e].dst in scc && e !in nonBlocking {
          cycle := cycle + [e];
        }
      }
    }
    assert scc[..|scc|] == scc;
    assert Elements(cycle) == CycleEdges(net, scc);
    forall i | 0 <= i < |cycle| ensures cycle[i] < |net.edges| {
      assert cycle[i] in Elements(cycle);
    }
  }

  method Sum(net: Network, cycle: seq<nat>, depth: bool) returns (total: nat)
    requires Within(cycle, |net.edges|) && Distinct(cycle)
    ensures total == SumOver(net.edges, depth, Elements(cycle), |net.edges|)
  {
    total := 0;
    assert Elements(cycle[..0]) == {};
    SumOverNone(net.edges, depth, |net.edges|);
    for i := 0 to |cycle|
      invariant total == SumOver(net.edges, depth, Elements(cycle[..i]), |net.edges|)
    {
      SumOverAdds(net.edges, depth, Elements(cycle[..i]), cycle[i], |net.edges|);
      total := total + Weight(net.edges[cycle[i]], depth);
      assert Elements(cycle[..i + 1]) == Elements(cycle[..i]) + {cycle[i]};
    }
    assert cycle[..|cycle|] == cycle;
  }

  method CountNonStubs(net: Network, scc: seq<nat>) returns (count: nat)
    requires Within(scc, |net.nodes|)
    ensures count == NonStubs(net, scc)
  {
    count := 0;
    for i := 0 to |scc|
      invariant count == NonStubs(net, scc[..i])
    {
      assert scc[..i + 1][..i] == scc[..i];
      if !net.nodes[scc[i]].isStub {
        count := count + 1;
      }
    }
    assert scc[..|scc|] == scc;
  }

  /** One component. */
  method AnalyzeComponent(net: Network, scc: seq<nat>, nonBlocking: set<nat>) returns (noTokens: bool, tooShallow: bool)
    requires net.Typed() && IsComponent(net, scc)
    requires forall e: nat :: e in nonBlocking <==> e < |net.edges| && !Blocking(net, e)
    ensures noTokens <==> HasNoTokens(net, scc)
    ensures tooShallow <==> IsTooShallow(net, scc)
  {
    noTokens, tooShallow := false, false;
    if |scc| == 1 {
      var selfLoop := exists e: nat :: e < |net.edges| && net.edges[e].src == scc[0] && net.edges[e].dst == scc[0] && e !in nonBlocking;
      if !selfLoop {
        assert CycleEdges(net, scc) == {};
        return;
      }
    }
    var cycle := CollectEdges(net, scc, nonBlocking);
    if |cycle| == 0 {
      assert CycleEdges(net, scc) == {};
      return;
    }
    assert cycle[0] in CycleEdges(net, scc);
    var nonStubs := CountNonStubs(net, scc);
    if nonStubs == 0 {
      return;
    }
    var totalTokens := Sum(net, cycle, false);
    noTokens := totalTokens == 0;
    var totalDepth := Sum(net, cycle, true);
    tooShallow := totalDepth < nonStubs;
  }

  /** The check reports exactly the components without tokens and those shallower than they are long. */
  method Analyze(net: Network, sccs: seq<seq<nat>>) returns (diags: seq<Diagnostic>)
    requires net.Typed() && AreComponents(net, sccs)
    ensures forall i: nat :: NoTokens(i) in diags <==> i < |sccs| && HasNoTokens(net, sccs[i])
    ensures forall i: nat :: TooShallow(i) in diags <==> i < |sccs| && IsTooShallow(net, sccs[i])
  {
    var nonBlocking := ClassifyNonBlocking(net);
    diags := [];
    hide HasNoTokens, IsTooShallow, Blocking, IsComponent;
    for i := 0 to |sccs|
      invariant forall j: nat :: NoTokens(j) in diags <==> j < i && HasNoTokens(net, sccs[j])
      invariant forall j: nat :: TooShallow(j) in diags <==> j < i && IsTooShallow(net, sccs[j])
    {
      var noTokens, tooShallow := AnalyzeComponent(net, sccs[i], nonBlocking);
      if noTokens {
        diags := diags + [NoTokens(i)];
      }
      if tooShallow {
        diags := diags + [TooShallow(i)];
      }
    }
  }

  // ---------------------------------------------------------------------------
  // What the capacity check sees
  // ---------------------------------------------------------------------------

  lemma {:induction false} DepthsCount(edges: seq<Edge>, s: set<nat>, n: nat)
    requires n <= |edges|
    ensures (forall e | e in s && e < n :: edges[e].depth >= 1) ==> SumOver(edges, true, s, n) >= |set e | e in s && e < n|
    ensures (forall e | e in s && e < n :: edges[e].depth == 1) ==> SumOver(edges, true, s, n) == |set e | e in s && e < n|
  {
    if n > 0 {
      DepthsCount(edges, s, n - 1);
      var below, here := set e | e in s && e < n - 1, set e | e in s && e < n;
      assert here == if n - 1 in s then below + {n - 1} else below;
    } else {
      assert (set e | e in s && e < 0) == {};
    }
  }

  /** With queues of at least one place a component is too shallow only if it has fewer blocking edges than processes;
      with queues of one place exactly then. */
  lemma TooShallowIsTooFew(net: Network, scc: seq<nat>)
    requires net.Typed() && IsComponent(net, scc) && Examined(net, scc)
    requires forall e | e in net.edges :: e.depth >= 1
    ensures IsTooShallow(net, scc) ==> |CycleEdges(net, scc)| < NonStubs(net, scc)
    ensures (forall e | e in net.edges :: e.depth == 1) && |CycleEdges(net, scc)| < NonStubs(net, scc) ==> IsTooShallow(net, scc)
  {
    hide Blocking, NonStubs;
    var cycle, n := CycleEdges(net, scc), |net.edges|;
    DepthsCount(net.edges, cycle, n);
    forall e | e in cycle && e < n ensures net.edges[e] in net.edges {
    }
    assert (set e | e in cycle && e < n) == cycle by {
      forall e | e in cycle ensures e < n {
        assert Blocking(net, e);
        BlockingIsEdge(net, e);
      }
    }
  }

  lemma BlockingIsEdge(net: Network, e: nat)
    requires net.Typed() && Blocking(net, e)
    ensures e < |net.edges|
  {
  }

  // ---------------------------------------------------------------------------
  // What blocking means
  // ---------------------------------------------------------------------------

  /** A rule's guard: each queue it takes from and never tries holds a word, each queue it puts to has room. A cell
      never blocks. */
  predicate GuardHolds(net: Network, node: Node, r: Resources, tokens: seq<nat>)
    requires |tokens| == |net.edges|
  {
    forall p | p in node.ports && node.ports[p] < |net.edges| && !net.edges[node.ports[p]].kind.Cell? ::
      var e := node.ports[p];
      && (p in r.takes && p !in r.tryTakes ==> tokens[e] > 0)
      && (p in r.puts ==> tokens[e] < net.edges[e].depth)
  }

  ghost predicate IsRule(net: Network, n: nat, k: nat) {
    n < |net.nodes| && k < |net.nodes[n].rules|
  }

  /** Rule `k` of process `n` stands still while edge `e` holds `t`, whatever the others hold. */
  ghost predicate Stands(net: Network, n: nat, k: nat, e: nat, t: nat)
    requires IsRule(net, n, k) && e < |net.edges|
  {
    forall tokens: seq<nat> | |tokens| == |net.edges| && tokens[e] == t :: !GuardHolds(net, net.nodes[n], net.nodes[n].rules[k], tokens)
  }

  predicate SameBut(tokens: seq<nat>, other: seq<nat>, e: nat, n: nat) {
    |tokens| == |other| == n && forall i | 0 <= i < n && i != e :: tokens[i] == other[i]
  }

  /** What edge `e` holds makes no difference to any rule. */
  ghost predicate Indifferent(net: Network, e: nat)
    requires e < |net.edges|
  {
    forall n: nat, k: nat, tokens: seq<nat>, other: seq<nat> | IsRule(net, n, k) && SameBut(tokens, other, e, |net.edges|) ::
      GuardHolds(net, net.nodes[n], net.nodes[n].rules[k], tokens) <==> GuardHolds(net, net.nodes[n], net.nodes[n].rules[k], other)
  }

  /** Of the queues that are not exempt, a blocking one stops some rule when it is empty or when it is full, and what a
      non-blocking one holds makes no difference to any rule. */
  lemma BlockingStops(net: Network, e: nat)
    requires net.Typed() && e < |net.edges| && !Exempt(net, e) && !net.edges[e].kind.Cell?
    ensures !Blocking(net, e) ==> Indifferent(net, e)
    ensures Blocking(net, e) ==>
              exists n: nat, k: nat :: IsRule(net, n, k) && (Stands(net, n, k, e, 0) || Stands(net, n, k, e, net.edges[e].depth))
  {
    if Blocking(net, e) {
      var n: nat :| n < |net.nodes| && NodeBlocks(net.nodes[n], e);
      var node := net.nodes[n];
      var k: nat :| k < |node.rules| && RuleBlocks(node.ports, node.rules[k], e);
      assert IsRule(net, n, k);
      WaitsAt(net, n, k, e);
    } else {
      DoesNotWait(net, e);
    }
  }

  lemma WaitsAt(net: Network, n: nat, k: nat, e: nat)
    requires IsRule(net, n, k) && RuleBlocks(net.nodes[n].ports, net.nodes[n].rules[k], e)
    requires e < |net.edges| && !net.edges[e].kind.Cell?
    ensures Stands(net, n, k, e, 0) || Stands(net, n, k, e, net.edges[e].depth)
  {
    var ports, r := net.nodes[n].ports, net.nodes[n].rules[k];
    var p :| p in BlockingPorts(r) && p in ports && ports[p] == e;
    var t := if p in r.puts then net.edges[e].depth else 0;
    forall tokens: seq<nat> | |tokens| == |net.edges| && tokens[e] == t ensures !GuardHolds(net, net.nodes[n], r, tokens) {
      assert p in ports && ports[p] == e;
    }
    assert Stands(net, n, k, e, t);
  }

  lemma DoesNotWait(net: Network, e: nat)
    requires net.Typed() && e < |net.edges| && !Exempt(net, e) && !Blocking(net, e)
    ensures Indifferent(net, e)
  {
    forall n: nat, k: nat, tokens: seq<nat>, other: seq<nat> | IsRule(net, n, k) && SameBut(tokens, other, e, |net.edges|)
      ensures GuardHolds(net, net.nodes[n], net.nodes[n].rules[k], tokens) <==> GuardHolds(net, net.nodes[n], net.nodes[n].rules[k], other)
    {
      var ports, r := net.nodes[n].ports, net.nodes[n].rules[k];
      assert !NodeBlocks(net.nodes[n], e);
      assert !RuleBlocks(ports, r, e);
      assert forall p | p in ports && p in BlockingPorts(r) :: ports[p] != e;
    }
  }

  /** Two processes, each waiting for the other's word, over two queues between their clocks. */
  function AsyncRing(): (net: Network)
    ensures net.Typed()
  {
    Network([Node(false, map["inp" := 0, "out" := 1], [Resources({"inp"}, {}, {"out"})]),
             Node(false, map["inp" := 1, "out" := 0], [Resources({"inp"}, {}, {"out"})])],
            [Edge(1, 0, AsyncQueue, 4), Edge(0, 1, AsyncQueue, 4)])
  }

  /** Queues between clocks are left out of the check, so a cycle of them passes although neither process can ever start. */
  lemma AsyncRingPasses(scc: seq<nat>)
    requires IsComponent(AsyncRing(), scc)
    ensures !HasNoTokens(AsyncRing(), scc) && !IsTooShallow(AsyncRing(), scc)
    ensures forall n | 0 <= n < 2 :: !GuardHolds(AsyncRing(), AsyncRing().nodes[n], AsyncRing().nodes[n].rules[0], [0, 0])
  {
    var net := AsyncRing();
    assert CycleEdges(net, scc) == {};
    assert "inp" in net.nodes[0].ports && "inp" in net.nodes[1].ports;
  }

  /** A process and its memory. */
  function MemoryLoop(): (net: Network)
    ensures net.Typed()
  {
    Network([Node(false, map["req" := 0, "resp" := 1], [Resources({"resp"}, {}, {"req"})]), Node(true, map[], [])],
            [Edge(0, 1, Queue(0), 1), Edge(1, 0, Queue(0), 1)])
  }

  /** The queues to and from a memory are left out as well: a process that asks it and waits is not reported. */
  lemma MemoryLoopPasses(scc: seq<nat>)
    requires IsComponent(MemoryLoop(), scc)
    ensures !HasNoTokens(MemoryLoop(), scc) && !IsTooShallow(MemoryLoop(), scc)
  {
    assert CycleEdges(MemoryLoop(), scc) == {};
  }
}
