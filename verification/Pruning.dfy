/** Pruning of the edges that cross-pipe substitution replaced: a graph numbers its edges densely, so every
    removal renumbers one survivor, and the ports and the queue map have to follow. */
module Pruning {
  import opened Options

  datatype Edge<W> = Edge(name: string, data: W)

  /** Edge removal: the last edge takes the removed one's place. */
  function SwapRemove<T>(s: seq<T>, i: nat): (r: seq<T>)
    requires i < |s|
    ensures |r| == |s| - 1 && forall k | 0 <= k < |r| :: r[k] == s[if k == i then |s| - 1 else k]
  {
    var last := |s| - 1;
    if i < last then s[..last][i := s[last]] else s[..last]
  }

  function Follow(r: nat, last: nat, ei: nat): nat {
    if r == last then ei else r
  }

  function FollowPort(p: Option<nat>, last: nat, ei: nat): Option<nat> {
    if p == Some(last) then Some(ei) else p
  }

  // ---------------------------------------------------------------------------
  // Where the surviving edges come from
  // ---------------------------------------------------------------------------

  /** `origin[k]` is the number that edge `k` had before: every edge but the removed ones has one place. */
  predicate Renumbers(origin: seq<nat>, n: nat, removed: set<nat>) {
    && (forall k | 0 <= k < |origin| :: origin[k] < n && origin[k] !in removed)
    && (forall i, j | 0 <= i < j < |origin| :: origin[i] != origin[j])
    && (forall e: nat :: e < n && e !in removed ==> e in origin)
  }

  /** Below the removed edges nothing has moved yet; that is what the descending order is for. */
  predicate Unmoved(origin: seq<nat>, below: nat) {
    below <= |origin| && forall k | 0 <= k < below :: origin[k] == k
  }

  /** A reference that names the same edge as before. */
  predicate Denotes(origin: seq<nat>, before: nat, after: nat) {
    after < |origin| && origin[after] == before
  }

  /** Every port is bound as before, or to the same edge under its new number. */
  ghost predicate PortsDenote(origin: seq<nat>, before: seq<seq<Option<nat>>>, after: seq<seq<Option<nat>>>) {
    && |after| == |before| && (forall n | 0 <= n < |after| :: |after[n]| == |before[n]|)
    && (forall n, p | 0 <= n < |after| && 0 <= p < |after[n]| ::
          match before[n][p]
          case None => after[n][p] == None
          case Some(e) => after[n][p].Some? && Denotes(origin, e, after[n][p].value))
  }

  ghost predicate QueuesDenote(origin: seq<nat>, before: map<string, nat>, after: map<string, nat>) {
    after.Keys == before.Keys && forall q | q in after :: Denotes(origin, before[q], after[q])
  }

  ghost predicate PortsFollow(before: seq<seq<Option<nat>>>, after: seq<seq<Option<nat>>>, last: nat, ei: nat) {
    && |after| == |before| && (forall n | 0 <= n < |after| :: |after[n]| == |before[n]|)
    && (forall n, p | 0 <= n < |after| && 0 <= p < |after[n]| :: after[n][p] == FollowPort(before[n][p], last, ei))
  }

  ghost predicate QueuesFollow(before: map<string, nat>, after: map<string, nat>, last: nat, ei: nat) {
    after.Keys == before.Keys && forall q | q in after :: after[q] == Follow(before[q], last, ei)
  }

  ghost predicate NoSharing(queues: map<string, nat>) {
    forall q, r | q in queues && r in queues && q != r :: queues[q] != queues[r]
  }

  ghost predicate PortTo(nodes: seq<seq<Option<nat>>>, e: nat) {
    exists n, p :: 0 <= n < |nodes| && 0 <= p < |nodes[n]| && nodes[n][p] == Some(e)
  }

  lemma PortsStillDenote(origin: seq<nat>, before: seq<seq<Option<nat>>>, ports: seq<seq<Option<nat>>>,
                         after: seq<seq<Option<nat>>>, ei: nat)
    requires ei < |origin| && origin[ei] == ei && !PortTo(before, ei)
    requires PortsDenote(origin, before, ports) && PortsFollow(ports, after, |origin| - 1, ei)
    ensures PortsDenote(SwapRemove(origin, ei), before, after)
  {
  }

  lemma QueuesStillDenote(origin: seq<nat>, before: map<string, nat>, queues: map<string, nat>, after: map<string, nat>, ei: nat)
    requires ei < |origin| && origin[ei] == ei && (forall q | q in before :: before[q] != ei)
    requires QueuesDenote(origin, before, queues) && QueuesFollow(queues, after, |origin| - 1, ei)
    ensures QueuesDenote(SwapRemove(origin, ei), before, after)
  {
  }

  lemma StartsDenoting(nodes: seq<seq<Option<nat>>>, queues: map<string, nat>, n: nat)
    requires forall e: nat | PortTo(nodes, e) :: e < n
    requires forall q | q in queues :: queues[q] < n
    ensures PortsDenote(Numbers(n), nodes, nodes) && QueuesDenote(Numbers(n), queues, queues)
  {
    forall m, p | 0 <= m < |nodes| && 0 <= p < |nodes[m]| && nodes[m][p].Some?
      ensures Denotes(Numbers(n), nodes[m][p].value, nodes[m][p].value)
    {
      assert PortTo(nodes, nodes[m][p].value);
    }
  }

  lemma StillNoSharing(origin: seq<nat>, before: map<string, nat>, after: map<string, nat>)
    requires NoSharing(before) && QueuesDenote(origin, before, after)
    ensures NoSharing(after)
  {
  }

  lemma RemovalRenumbers(origin: seq<nat>, n: nat, removed: set<nat>, ei: nat, below: nat)
    requires Renumbers(origin, n, removed) && Unmoved(origin, below) && ei < below
    ensures Renumbers(SwapRemove(origin, ei), n, removed + {ei}) && Unmoved(SwapRemove(origin, ei), ei)
  {
    hide SwapRemove;
    var next := SwapRemove(origin, ei);
    RemovalCovers(origin, n, removed, ei);
    forall k | 0 <= k < |next| ensures next[k] < n && next[k] !in removed + {ei} {
      assert origin[ei] == ei;
    }
  }

  lemma RemovalCovers(origin: seq<nat>, n: nat, removed: set<nat>, ei: nat)
    requires Renumbers(origin, n, removed) && ei < |origin| && origin[ei] == ei
    ensures forall e: nat :: e < n && e !in removed + {ei} ==> e in SwapRemove(origin, ei)
  {
  }

  /** A reference to a survivor, followed through one removal, still names the same edge. */
  lemma ReferenceFollows(origin: seq<nat>, before: nat, after: nat, ei: nat)
    requires ei < |origin| && origin[ei] == ei && before != ei && Denotes(origin, before, after)
    ensures Denotes(SwapRemove(origin, ei), before, Follow(after, |origin| - 1, ei))
  {
  }

  function Elements(s: seq<nat>): set<nat> {
    set e | e in s
  }

  function Numbers(n: nat): seq<nat> {
    seq(n, i => i)
  }

  lemma Identity(n: nat)
    ensures Renumbers(Numbers(n), n, {}) && Unmoved(Numbers(n), n)
  {
    forall e: nat | e < n ensures e in Numbers(n) {
      assert Numbers(n)[e] == e;
    }
  }

  /** A renumbering is a bijection, so the survivors are counted right. */
  lemma {:induction false} SurvivorCount(origin: seq<nat>, n: nat, removed: set<nat>)
    requires Renumbers(origin, n, removed) && (forall e | e in removed :: e < n)
    ensures |origin| + |removed| == n
    decreases n
  {
    assert removed == {} || n > 0;
    if |origin| > 0 {
      assert origin[0] < n;
    }
    if n > 0 {
      hide Renumbers;
      if n - 1 in removed {
        ForgetRemoved(origin, n, removed);
        SurvivorCount(origin, n - 1, removed - {n - 1});
      } else {
        var k := HasOrigin(origin, n, removed);
        DropOne(origin, n, removed, k);
        SurvivorCount(origin[..k] + origin[k + 1..], n - 1, removed);
      }
    }
  }

  lemma ForgetRemoved(origin: seq<nat>, n: nat, removed: set<nat>)
    requires n > 0 && Renumbers(origin, n, removed) && n - 1 in removed
    ensures Renumbers(origin, n - 1, removed - {n - 1})
  {
  }

  lemma HasOrigin(origin: seq<nat>, n: nat, removed: set<nat>) returns (k: nat)
    requires n > 0 && Renumbers(origin, n, removed) && n - 1 !in removed
    ensures k < |origin| && origin[k] == n - 1
  {
    k :| 0 <= k < |origin| && origin[k] == n - 1;
  }

  lemma DropOne(origin: seq<nat>, n: nat, removed: set<nat>, k: nat)
    requires n > 0 && Renumbers(origin, n, removed) && k < |origin| && origin[k] == n - 1
    ensures Renumbers(origin[..k] + origin[k + 1..], n - 1, removed)
  {
  }

  // ---------------------------------------------------------------------------
  // The graph
  // ---------------------------------------------------------------------------

  class Graph<W(==)> {
    var edges: seq<Edge<W>>
    /** For each node, the edge each of its ports is bound to. */
    var nodes: seq<seq<Option<nat>>>
    var queueEdgeMap: map<string, nat>

    constructor (edges: seq<Edge<W>>, nodes: seq<seq<Option<nat>>>, queueEdgeMap: map<string, nat>)
      ensures this.edges == edges && this.nodes == nodes && this.queueEdgeMap == queueEdgeMap
    {
      this.edges, this.nodes, this.queueEdgeMap := edges, nodes, queueEdgeMap;
    }

    /** The edges that were substituted and that no port is bound to. */
    ghost predicate Dead(e: nat, deadNames: set<string>)
      reads this
    {
      e < |edges| && edges[e].name in deadNames && !PortTo(nodes, e)
    }

    ghost function DeadSet(deadNames: set<string>): (d: set<nat>)
      reads this
      ensures forall e: nat :: e in d <==> Dead(e, deadNames)
    {
      set e: nat | e < |edges| && Dead(e, deadNames)
    }

    /** Every reference has its edge; each queue of the map has one of its own, and not a dead one. */
    ghost predicate Consistent(deadNames: set<string>)
      reads this
    {
      && (forall e: nat | PortTo(nodes, e) :: e < |edges|)
      && (forall q | q in queueEdgeMap :: queueEdgeMap[q] < |edges| && !Dead(queueEdgeMap[q], deadNames))
      && NoSharing(queueEdgeMap)
    }

    method ReferencedEdges() returns (referenced: set<nat>)
      ensures forall e: nat :: e in referenced <==> PortTo(nodes, e)
    {
      referenced := {};
      for n := 0 to |nodes|
        invariant forall e: nat :: e in referenced <==> exists m, p :: 0 <= m < n && 0 <= p < |nodes[m]| && nodes[m][p] == Some(e)
      {
        for p := 0 to |nodes[n]|
          invariant forall e: nat :: e in referenced <==>
                                (exists m, q :: 0 <= m < n && 0 <= q < |nodes[m]| && nodes[m][q] == Some(e))
                                || (exists q :: 0 <= q < p && nodes[n][q] == Some(e))
        {
          if nodes[n][p].Some? {
            referenced := referenced + {nodes[n][p].value};
          }
        }
      }
    }

    /** The dead edges, highest number first. */
    method DeadEdges(deadNames: set<string>) returns (dead: seq<nat>)
      ensures Elements(dead) == DeadSet(deadNames)
      ensures forall i, j | 0 <= i < j < |dead| :: dead[i] > dead[j]
    {
      var referenced := ReferencedEdges();
      dead := [];
      for e := 0 to |edges|
        invariant forall d: nat :: d in dead <==> d < e && Dead(d, deadNames)
        invariant forall i, j | 0 <= i < j < |dead| :: dead[i] > dead[j]
      {
        if edges[e].name in deadNames && e !in referenced {
          assert forall j | 0 <= j < |dead| :: dead[j] in dead;
          dead := [e] + dead;
        }
      }
      assert forall e: nat :: e in dead <==> e in DeadSet(deadNames);
    }

    method Rebind(last: nat, ei: nat)
      modifies this`nodes
      ensures PortsFollow(old(nodes), nodes, last, ei)
    {
      for n := 0 to |nodes|
        invariant |nodes| == |old(nodes)| && forall m | n <= m < |nodes| :: nodes[m] == old(nodes)[m]
        invariant forall m | 0 <= m < n :: |nodes[m]| == |old(nodes)[m]|
        invariant forall m, q | 0 <= m < n && 0 <= q < |nodes[m]| :: nodes[m][q] == FollowPort(old(nodes)[m][q], last, ei)
      {
        ghost var was := nodes;
        for p := 0 to |nodes[n]|
          invariant |nodes| == |was| && |nodes[n]| == |was[n]| && forall m | 0 <= m < |nodes| && m != n :: nodes[m] == was[m]
          invariant forall q | 0 <= q < p :: nodes[n][q] == FollowPort(was[n][q], last, ei)
          invariant forall q | p <= q < |nodes[n]| :: nodes[n][q] == was[n][q]
        {
          if nodes[n][p] == Some(last) {
            nodes := nodes[n := nodes[n][p := Some(ei)]];
          }
        }
      }
    }

    /** The first queue found that is bound to the last edge; which one is left to the map. */
    method FixMap(last: nat, ei: nat)
      requires NoSharing(queueEdgeMap)
      modifies this`queueEdgeMap
      ensures QueuesFollow(old(queueEdgeMap), queueEdgeMap, last, ei)
    {
      if exists q :: q in queueEdgeMap && queueEdgeMap[q] == last {
        var name :| name in queueEdgeMap && queueEdgeMap[name] == last;
        queueEdgeMap := queueEdgeMap[name := ei];
      }
    }

    method RemoveEdge(ei: nat)
      requires ei < |edges| && NoSharing(queueEdgeMap)
      modifies this
      ensures edges == SwapRemove(old(edges), ei)
      ensures PortsFollow(old(nodes), nodes, |old(edges)| - 1, ei)
      ensures QueuesFollow(old(queueEdgeMap), queueEdgeMap, |old(edges)| - 1, ei)
    {
      var last := |edges| - 1;
      edges := SwapRemove(edges, ei);
      if ei < last {
        Rebind(last, ei);
        FixMap(last, ei);
      }
    }

    /** The edges `gone` are removed, those from `below` on may have moved, and nothing else has changed
        since the graph was as given. */
    ghost predicate Pruned(origin: seq<nat>, gone: set<nat>, below: nat,
                           edges0: seq<Edge<W>>, nodes0: seq<seq<Option<nat>>>, queues0: map<string, nat>)
      reads this
    {
      && Renumbers(origin, |edges0|, gone) && Unmoved(origin, below)
      && |edges| == |origin| && (forall k | 0 <= k < |edges| :: edges[k] == edges0[origin[k]])
      && PortsDenote(origin, nodes0, nodes) && QueuesDenote(origin, queues0, queueEdgeMap)
    }

    method RemoveDead(ei: nat, ghost origin: seq<nat>, ghost gone: set<nat>, ghost below: nat,
                      ghost edges0: seq<Edge<W>>, ghost nodes0: seq<seq<Option<nat>>>, ghost queues0: map<string, nat>)
      requires Pruned(origin, gone, below, edges0, nodes0, queues0) && ei < below && NoSharing(queues0)
      requires !PortTo(nodes0, ei) && forall q | q in queues0 :: queues0[q] != ei
      modifies this
      ensures ei < |origin| && Pruned(SwapRemove(origin, ei), gone + {ei}, ei, edges0, nodes0, queues0)
    {
      hide PortsDenote, QueuesDenote, PortsFollow, QueuesFollow, Renumbers, NoSharing, PortTo;
      ghost var ports, queues := nodes, queueEdgeMap;
      StillNoSharing(origin, queues0, queueEdgeMap);
      RemovalRenumbers(origin, |edges0|, gone, ei, below);
      RemoveEdge(ei);
      PortsStillDenote(origin, nodes0, ports, nodes, ei);
      QueuesStillDenote(origin, queues0, queues, queueEdgeMap, ei);
    }

    method RemoveAll(removed: seq<nat>) returns (ghost origin: seq<nat>, ghost below: nat)
      requires forall i, j | 0 <= i < j < |removed| :: removed[i] > removed[j]
      requires forall i | 0 <= i < |removed| :: removed[i] < |edges| && !PortTo(nodes, removed[i])
      requires forall i, q | 0 <= i < |removed| && q in queueEdgeMap :: queueEdgeMap[q] != removed[i]
      requires NoSharing(queueEdgeMap) && Pruned(Numbers(|edges|), {}, |edges|, edges, nodes, queueEdgeMap)
      modifies this
      ensures Pruned(origin, Elements(removed), below, old(edges), old(nodes), old(queueEdgeMap))
    {
      hide Pruned, NoSharing, PortTo, Numbers;
      ghost var edges0, nodes0, queues0 := edges, nodes, queueEdgeMap;
      origin, below := Numbers(|edges|), |edges|;
      assert Elements(removed[..0]) == {};
      for i := 0 to |removed|
        invariant Pruned(origin, Elements(removed[..i]), below, edges0, nodes0, queues0)
        invariant forall j | i <= j < |removed| :: removed[j] < below
      {
        RemoveDead(removed[i], origin, Elements(removed[..i]), below, edges0, nodes0, queues0);
        origin, below := SwapRemove(origin, removed[i]), removed[i];
        assert Elements(removed[..i + 1]) == Elements(removed[..i]) + {removed[i]};
      }
      assert removed[..|removed|] == removed;
    }

    /** Exactly the dead edges go. The survivors are renumbered by `origin`, and every port and every
        queue still names the edge it named before. */
    method Prune(deadNames: set<string>) returns (ghost origin: seq<nat>)
      requires Consistent(deadNames)
      modifies this
      ensures Renumbers(origin, |old(edges)|, old(DeadSet(deadNames)))
      ensures |edges| == |origin| && forall k | 0 <= k < |edges| :: edges[k] == old(edges)[origin[k]]
      ensures PortsDenote(origin, old(nodes), nodes) && QueuesDenote(origin, old(queueEdgeMap), queueEdgeMap)
    {
      hide PortsDenote, QueuesDenote, NoSharing, PortTo;
      var removed := DeadEdges(deadNames);
      assert forall j | 0 <= j < |removed| :: removed[j] in Elements(removed);
      Identity(|edges|);
      StartsDenoting(nodes, queueEdgeMap, |edges|);
      ghost var below;
      origin, below := RemoveAll(removed);
    }
  }
}
