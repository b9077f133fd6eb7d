/** First-fit grouping of a process's rules into slots. */
module Grouping {

  type Conflicts = set<(nat, nat)>

  predicate Conflict(conflicts: Conflicts, i: nat, j: nat) {
    (if i < j then (i, j) else (j, i)) in conflicts
  }

  /** Pairs `i < j` of rules with a mutable edge in common. */
  ghost predicate IsConflictSet(conflicts: Conflicts, edges: seq<set<nat>>) {
    forall i: nat, j: nat :: (i, j) in conflicts <==> i < j < |edges| && edges[i] * edges[j] != {}
  }

  method BuildConflictPairs(edges: seq<set<nat>>) returns (conflicts: Conflicts)
    ensures IsConflictSet(conflicts, edges)
  {
    conflicts := {};
    for i := 0 to |edges|
      invariant forall a: nat, b: nat :: (a, b) in conflicts <==>
                  a < b < |edges| && a < i && edges[a] * edges[b] != {}
    {
      for j := i + 1 to |edges|
        invariant forall a: nat, b: nat :: (a, b) in conflicts <==>
                    a < b < |edges| && (a < i || (a == i && b < j)) && edges[a] * edges[b] != {}
      {
        if edges[i] * edges[j] != {} {
          conflicts := conflicts + {(i, j)};
        }
      }
    }
  }

  /** A rule declared before `r` and conflicting with it sits in slot `k`. */
  predicate Blocked(conflicts: Conflicts, r: nat, k: nat)
    decreases r, 0
  {
    exists x | 0 <= x < r :: Slot(conflicts, x) == k && Conflict(conflicts, x, r)
  }

  /** The slot first-fit gives rule `r`: the first one in which nothing blocks it. */
  function Slot(conflicts: Conflicts, r: nat): (k: nat)
    ensures k <= r
    decreases r, r + 2
  {
    FirstFree(conflicts, r, 0)
  }

  function FirstFree(conflicts: Conflicts, r: nat, from: nat): (k: nat)
    requires from <= r
    ensures from <= k <= r
    ensures !Blocked(conflicts, r, k)
    ensures forall h | from <= h < k :: Blocked(conflicts, r, h)
    decreases r, r - from + 1
  {
    if Blocked(conflicts, r, from) then FirstFree(conflicts, r, from + 1) else from
  }

  /** The rules below `n` in slot `k`, in declaration order. */
  function Group(conflicts: Conflicts, n: nat, k: nat): seq<nat> {
    if n == 0 then []
    else Group(conflicts, n - 1, k) + if Slot(conflicts, n - 1) == k then [n - 1] else []
  }

  function SlotCount(conflicts: Conflicts, n: nat): nat {
    if n == 0 then 0
    else if Slot(conflicts, n - 1) < SlotCount(conflicts, n - 1) then SlotCount(conflicts, n - 1)
    else Slot(conflicts, n - 1) + 1
  }

  lemma {:induction false} GroupMembers(conflicts: Conflicts, n: nat, k: nat)
    ensures forall x: nat :: x in Group(conflicts, n, k) <==> x < n && Slot(conflicts, x) == k
  {
    if n > 0 {
      GroupMembers(conflicts, n - 1, k);
    }
  }

  lemma {:induction false} GroupAscends(conflicts: Conflicts, n: nat, k: nat)
    ensures Ascends(Group(conflicts, n, k))
  {
    hide Slot;
    if n > 0 {
      GroupAscends(conflicts, n - 1, k);
      GroupMembers(conflicts, n - 1, k);
      var front := Group(conflicts, n - 1, k);
      assert forall a | 0 <= a < |front| :: front[a] in front;
    }
  }

  predicate Ascends(group: seq<nat>) {
    forall a, b | 0 <= a < b < |group| :: group[a] < group[b]
  }

  /** Every rule is in exactly one group, its slot's, and there once; and every group is in declaration order. */
  lemma EveryRuleIsGroupedOnce(conflicts: Conflicts, n: nat, r: nat) returns (a: nat)
    requires r < n
    ensures Slot(conflicts, r) < SlotCount(conflicts, n) && a < |Group(conflicts, n, Slot(conflicts, r))|
    ensures forall k: nat, b: nat | b < |Group(conflicts, n, k)| ::
              Group(conflicts, n, k)[b] == r <==> k == Slot(conflicts, r) && b == a
    ensures forall k: nat :: Ascends(Group(conflicts, n, k))
  {
    hide Slot, Group;
    SlotsAreCounted(conflicts, n);
    forall k: nat
      ensures Ascends(Group(conflicts, n, k))
      ensures forall x: nat :: x in Group(conflicts, n, k) <==> x < n && Slot(conflicts, x) == k
    {
      GroupAscends(conflicts, n, k);
      GroupMembers(conflicts, n, k);
    }
    var group := Group(conflicts, n, Slot(conflicts, r));
    assert r in group;
    a :| a < |group| && group[a] == r;
    forall k: nat, b: nat | b < |Group(conflicts, n, k)| && Group(conflicts, n, k)[b] == r ensures k == Slot(conflicts, r) && b == a {
      assert Group(conflicts, n, k)[b] in Group(conflicts, n, k);
    }
  }

  lemma {:induction false} SlotsAreCounted(conflicts: Conflicts, n: nat)
    ensures forall x: nat | x < n :: Slot(conflicts, x) < SlotCount(conflicts, n)
    ensures forall k | SlotCount(conflicts, n) <= k :: Group(conflicts, n, k) == []
  {
    if n > 0 {
      SlotsAreCounted(conflicts, n - 1);
    }
  }

  lemma SlotIs(conflicts: Conflicts, r: nat, k: nat)
    requires !Blocked(conflicts, r, k) && forall h | 0 <= h < k :: Blocked(conflicts, r, h)
    ensures Slot(conflicts, r) == k
  {
  }

  method AnyConflict(group: seq<nat>, rule: nat, conflicts: Conflicts) returns (any: bool)
    requires forall x | x in group :: x < rule
    ensures any <==> exists x :: x in group && Conflict(conflicts, x, rule)
  {
    any := false;
    for a := 0 to |group|
      invariant any <==> exists b | 0 <= b < a :: Conflict(conflicts, group[b], rule)
    {
      assert group[a] in group;
      if (group[a], rule) in conflicts {
        any := true;
      }
    }
  }

  method GroupRules(n: nat, conflicts: Conflicts) returns (groups: seq<seq<nat>>)
    ensures |groups| == SlotCount(conflicts, n)
    ensures forall k | 0 <= k < |groups| :: groups[k] == Group(conflicts, n, k)
  {
    groups := [];
    for rule := 0 to n
      invariant |groups| == SlotCount(conflicts, rule)
      invariant forall k | 0 <= k < |groups| :: groups[k] == Group(conflicts, rule, k)
    {
      var g := 0;
      var placed := false;
      SlotsAreCounted(conflicts, rule);
      while g < |groups| && !placed
        invariant g <= |groups|
        invariant forall h | 0 <= h < g :: Blocked(conflicts, rule, h)
        invariant placed ==> g < |groups| && !Blocked(conflicts, rule, g)
        decreases |groups| - g, !placed
      {
        GroupMembers(conflicts, rule, g);
        var any := AnyConflict(groups[g], rule, conflicts);
        if any {
          g := g + 1;
        } else {
          placed := true;
        }
      }
      SlotIs(conflicts, rule, g);
      if placed {
        groups := groups[g := groups[g] + [rule]];
      } else {
        groups := groups + [[rule]];
      }
    }
  }

  // ---------------------------------------------------------------------------
  // First-fit facts
  // ---------------------------------------------------------------------------

  /** Rules that share a slot do not conflict; a rule sits behind an earlier conflicting rule of
      every earlier slot. */
  lemma FirstFitFacts(conflicts: Conflicts, i: nat, j: nat)
    requires i < j
    ensures Slot(conflicts, i) == Slot(conflicts, j) ==> !Conflict(conflicts, i, j)
    ensures forall h | 0 <= h < Slot(conflicts, j) :: Blocked(conflicts, j, h)
  {
  }

  ghost predicate BlockedIn(slot: nat -> nat, conflicts: Conflicts, r: nat, k: nat) {
    exists x: nat :: x < r && slot(x) == k && Conflict(conflicts, x, r)
  }

  /** These facts leave no other grouping: slots that satisfy them are the first-fit slots. */
  lemma {:induction false} FirstFitIsUnique(conflicts: Conflicts, slot: nat -> nat, n: nat)
    requires forall i: nat, j: nat | i < j < n && slot(i) == slot(j) :: !Conflict(conflicts, i, j)
    requires forall j: nat, h: nat | j < n && h < slot(j) :: BlockedIn(slot, conflicts, j, h)
    ensures forall r: nat | r < n :: slot(r) == Slot(conflicts, r)
  {
    if n > 0 {
      FirstFitIsUnique(conflicts, slot, n - 1);
      var r := n - 1;
      forall h | 0 <= h < slot(r) ensures Blocked(conflicts, r, h) {
        assert BlockedIn(slot, conflicts, r, h);
        var x: nat :| x < r && slot(x) == h && Conflict(conflicts, x, r);
        assert Slot(conflicts, x) == h;
      }
      SlotIs(conflicts, r, slot(r));
    }
  }

  /** The rules below `n` that conflict with `r`. */
  function Rivals(conflicts: Conflicts, n: nat, r: nat): set<nat> {
    set x: nat | x < n && Conflict(conflicts, x, r)
  }

  /** A slot's number is at most the number of rules conflicting with its members. */
  lemma {:induction false} SlotBelowDegree(conflicts: Conflicts, n: nat, r: nat, k: nat) returns (found: set<nat>)
    requires r < n && k <= Slot(conflicts, r)
    ensures found <= Rivals(conflicts, n, r) && |found| == k
    ensures forall x | x in found :: Slot(conflicts, x) < k
  {
    if k == 0 {
      found := {};
    } else {
      found := SlotBelowDegree(conflicts, n, r, k - 1);
      assert Blocked(conflicts, r, k - 1);
      var x :| 0 <= x < r && Slot(conflicts, x) == k - 1 && Conflict(conflicts, x, r);
      found := found + {x};
    }
  }

  lemma SubsetCardinality(a: set<nat>, b: set<nat>)
    requires a <= b
    ensures |a| <= |b|
  {
    if a != {} {
      var x :| x in a;
      SubsetCardinality(a - {x}, b - {x});
    }
  }

  /** At most one slot more than the largest number of rules any rule conflicts with. */
  lemma {:induction false} SlotCountBound(conflicts: Conflicts, n: nat, degree: nat)
    requires forall r: nat | r < n :: |Rivals(conflicts, n, r)| <= degree
    ensures SlotCount(conflicts, n) <= degree + 1
  {
    if n > 0 {
      HighestSlotIsUsed(conflicts, n);
      var r :| 0 <= r < n && Slot(conflicts, r) + 1 == SlotCount(conflicts, n);
      var found := SlotBelowDegree(conflicts, n, r, Slot(conflicts, r));
      SubsetCardinality(found, Rivals(conflicts, n, r));
    }
  }

  lemma {:induction false} HighestSlotIsUsed(conflicts: Conflicts, n: nat)
    requires n > 0
    ensures exists r :: 0 <= r < n && Slot(conflicts, r) + 1 == SlotCount(conflicts, n)
  {
    if SlotCount(conflicts, n) == Slot(conflicts, n - 1) + 1 {
      assert n - 1 < n;
    } else {
      assert Slot(conflicts, n - 1) < SlotCount(conflicts, n - 1);
      HighestSlotIsUsed(conflicts, n - 1);
    }
  }

  // ---------------------------------------------------------------------------
  // Declaration order
  // ---------------------------------------------------------------------------

  /** Of two conflicting rules the one declared first is served first. */
  ghost predicate DeclarationOrderIsPriority(conflicts: Conflicts, n: nat) {
    forall i: nat, j: nat | i < j < n && Conflict(conflicts, i, j) :: Slot(conflicts, i) < Slot(conflicts, j)
  }

  /** With 0-1 and 1-2 in conflict but not 0-2, rule 2 joins rule 0 and outranks rule 1. */
  lemma LaterRuleOutranks()
    ensures var c: Conflicts := {(0, 1), (1, 2)};
            Slot(c, 2) < Slot(c, 1) && Conflict(c, 1, 2) && !DeclarationOrderIsPriority(c, 3)
  {
    var c: Conflicts := {(0, 1), (1, 2)};
    SlotIs(c, 0, 0);
    assert Blocked(c, 1, 0);
    SlotIs(c, 1, 1);
    SlotIs(c, 2, 0);
  }

  /** The longest chain of conflicts `x < y < ... < r` that ends at `r`, counted in its steps. */
  function Depth(conflicts: Conflicts, r: nat): nat
    decreases r, r + 1
  {
    DepthOver(conflicts, r, r)
  }

  /** The same, with the last step coming from a rule below `m`. */
  function DepthOver(conflicts: Conflicts, r: nat, m: nat): nat
    requires m <= r
    decreases r, m
  {
    if m == 0 then 0
    else
      var rest := DepthOver(conflicts, r, m - 1);
      if Conflict(conflicts, m - 1, r) && rest <= Depth(conflicts, m - 1) then Depth(conflicts, m - 1) + 1 else rest
  }

  lemma {:induction false} DepthOverIsMax(conflicts: Conflicts, r: nat, m: nat)
    requires m <= r
    ensures forall x: nat | x < m && Conflict(conflicts, x, r) :: Depth(conflicts, x) < DepthOver(conflicts, r, m)
    ensures DepthOver(conflicts, r, m) > 0 ==>
              exists x: nat :: x < m && Conflict(conflicts, x, r) && Depth(conflicts, x) + 1 == DepthOver(conflicts, r, m)
  {
    if m > 0 {
      DepthOverIsMax(conflicts, r, m - 1);
      if Conflict(conflicts, m - 1, r) && DepthOver(conflicts, r, m - 1) <= Depth(conflicts, m - 1) {
        assert Depth(conflicts, m - 1) + 1 == DepthOver(conflicts, r, m);
      }
    }
  }

  /** At every smaller depth there is an earlier rule in conflict with `j`. */
  ghost predicate ChainsMeet(conflicts: Conflicts, j: nat) {
    forall h: nat | h < Depth(conflicts, j) :: MeetsAt(conflicts, j, h)
  }

  ghost predicate MeetsAt(conflicts: Conflicts, j: nat, h: nat) {
    exists x: nat :: x < j && Depth(conflicts, x) == h && Conflict(conflicts, x, j)
  }

  /** With such rules everywhere, the depths are first-fit slots. */
  lemma DepthsAreSlots(conflicts: Conflicts, n: nat)
    requires forall j: nat | j < n :: ChainsMeet(conflicts, j)
    ensures forall r: nat | r < n :: Slot(conflicts, r) == Depth(conflicts, r)
  {
    hide Slot, Depth;
    var depth := (r: nat) => Depth(conflicts, r);
    forall i: nat, j: nat | i < j < n && depth(i) == depth(j) ensures !Conflict(conflicts, i, j) {
      if Conflict(conflicts, i, j) {
        DeeperThan(conflicts, i, j);
      }
    }
    forall j: nat, h: nat | j < n && h < depth(j) ensures BlockedIn(depth, conflicts, j, h) {
      assert ChainsMeet(conflicts, j) && MeetsAt(conflicts, j, h);
      var x: nat :| x < j && Depth(conflicts, x) == h && Conflict(conflicts, x, j);
      assert depth(x) == h;
    }
    FirstFitIsUnique(conflicts, depth, n);
  }

  lemma DeeperThan(conflicts: Conflicts, i: nat, j: nat)
    requires i < j && Conflict(conflicts, i, j)
    ensures Depth(conflicts, i) < Depth(conflicts, j)
  {
    DepthOverIsMax(conflicts, j, j);
  }

  /** When declaration order decides priority, the slots are the depths. */
  lemma {:induction false} PrioritySlotsAreDepths(conflicts: Conflicts, n: nat, r: nat)
    requires DeclarationOrderIsPriority(conflicts, n) && r < n
    ensures Slot(conflicts, r) == Depth(conflicts, r)
    decreases r
  {
    hide Slot, Depth, DepthOver;
    forall x: nat | x < r && Conflict(conflicts, x, r) ensures Slot(conflicts, x) == Depth(conflicts, x) < Slot(conflicts, r) {
      PrioritySlotsAreDepths(conflicts, n, x);
    }
    DepthOf(conflicts, r);
    if Depth(conflicts, r) < Slot(conflicts, r) {
      var x := BlockerAt(conflicts, r, Depth(conflicts, r));
      DeeperThan(conflicts, x, r);
    }
  }

  lemma DepthOf(conflicts: Conflicts, r: nat)
    ensures Depth(conflicts, r) > 0 ==>
              exists x: nat :: x < r && Conflict(conflicts, x, r) && Depth(conflicts, x) + 1 == Depth(conflicts, r)
  {
    DepthOverIsMax(conflicts, r, r);
  }

  lemma BlockerAt(conflicts: Conflicts, r: nat, h: nat) returns (x: nat)
    requires h < Slot(conflicts, r)
    ensures x < r && Slot(conflicts, x) == h && Conflict(conflicts, x, r)
  {
    assert Blocked(conflicts, r, h);
    x :| 0 <= x < r && Slot(conflicts, x) == h && Conflict(conflicts, x, r);
  }

  /** Declaration order decides between conflicting rules of a process exactly when each rule has, for every
      smaller depth than its own, an earlier conflicting rule of that depth. */
  lemma OrderIsPriorityIff(conflicts: Conflicts, n: nat)
    ensures DeclarationOrderIsPriority(conflicts, n) <==> forall j: nat | j < n :: ChainsMeet(conflicts, j)
  {
    hide Slot, Depth;
    if forall j: nat | j < n :: ChainsMeet(conflicts, j) {
      DepthsAreSlots(conflicts, n);
      forall i: nat, j: nat | i < j < n && Conflict(conflicts, i, j) ensures Slot(conflicts, i) < Slot(conflicts, j) {
        DeeperThan(conflicts, i, j);
      }
    }
    if DeclarationOrderIsPriority(conflicts, n) {
      forall j: nat, h: nat | j < n && h < Depth(conflicts, j) ensures MeetsAt(conflicts, j, h) {
        PrioritySlotsAreDepths(conflicts, n, j);
        var x := BlockerAt(conflicts, j, h);
        PrioritySlotsAreDepths(conflicts, n, x);
      }
    }
  }

  /** No rule sits between two others in conflict with both while those two are compatible. */
  ghost predicate NoWedge(conflicts: Conflicts, n: nat) {
    forall x: nat, i: nat, j: nat | x < i < j < n && Conflict(conflicts, x, i) && Conflict(conflicts, i, j) ::
      Conflict(conflicts, x, j)
  }

  lemma NoWedgeKeepsOrder(conflicts: Conflicts, n: nat)
    requires NoWedge(conflicts, n)
    ensures DeclarationOrderIsPriority(conflicts, n)
  {
    forall i: nat, j: nat | i < j < n && Conflict(conflicts, i, j)
      ensures Slot(conflicts, i) < Slot(conflicts, j)
    {
      var k := Slot(conflicts, j);
      FirstFitFacts(conflicts, i, j);
      forall x: nat | x < i && Slot(conflicts, x) == k ensures !Conflict(conflicts, x, i) {
        FirstFitFacts(conflicts, x, j);
      }
      assert !Blocked(conflicts, i, k);
    }
  }

  /** Some of the rules of a process, in their order. */
  ghost predicate IsSelection(keep: seq<nat>, n: nat) {
    && (forall a, b | 0 <= a < b < |keep| :: keep[a] < keep[b])
    && (forall a | 0 <= a < |keep| :: keep[a] < n)
  }

  /** The conflicts that remain when only those rules are declared. */
  function Restrict(conflicts: Conflicts, keep: seq<nat>): Conflicts {
    set a: nat, b: nat | a < b < |keep| && Conflict(conflicts, keep[a], keep[b]) :: (a, b)
  }

  /** Declaration order decides between conflicting rules, and goes on doing so whichever rules are dropped, exactly
      when there is no such wedge. For the process as it stands that is more than is needed. */
  lemma OrderIsPriorityIffNoWedge(conflicts: Conflicts, n: nat)
    ensures (forall keep | IsSelection(keep, n) :: DeclarationOrderIsPriority(Restrict(conflicts, keep), |keep|))
            <==> NoWedge(conflicts, n)
  {
    if NoWedge(conflicts, n) {
      forall keep | IsSelection(keep, n) ensures DeclarationOrderIsPriority(Restrict(conflicts, keep), |keep|) {
        NoWedgeKeepsOrder(Restrict(conflicts, keep), |keep|);
      }
    } else {
      var x: nat, i: nat, j: nat :| x < i < j < n && Conflict(conflicts, x, i) && Conflict(conflicts, i, j)
                                    && !Conflict(conflicts, x, j);
      var keep := [x, i, j];
      assert IsSelection(keep, n);
      assert Restrict(conflicts, keep) == {(0, 1), (1, 2)};
      LaterRuleOutranks();
    }
  }

  /** A wedge that does no harm: rule 3 waits behind 0 and 2 alike. */
  lemma WedgeWithoutHarm()
    ensures var c: Conflicts := {(1, 2), (2, 3), (0, 3)};
            DeclarationOrderIsPriority(c, 4) && !NoWedge(c, 4)
  {
    var c: Conflicts := {(1, 2), (2, 3), (0, 3)};
    SlotIs(c, 0, 0);
    SlotIs(c, 1, 0);
    assert Slot(c, 1) == 0 && Conflict(c, 1, 2);
    assert Blocked(c, 2, 0);
    SlotIs(c, 2, 1);
    assert Slot(c, 0) == 0 && Conflict(c, 0, 3) && Slot(c, 2) == 1 && Conflict(c, 2, 3);
    assert Blocked(c, 3, 0) && Blocked(c, 3, 1);
    SlotIs(c, 3, 2);
    hide Slot;
    assert Conflict(c, 1, 2) && Conflict(c, 2, 3) && !Conflict(c, 1, 3);
  }

  // ---------------------------------------------------------------------------
  // Slots in declaration order
  // ---------------------------------------------------------------------------

  /** No rule is declared after a rule of a later slot. */
  ghost predicate SlotsInOrder(conflicts: Conflicts, n: nat) {
    forall i: nat, j: nat | i < j < n :: Slot(conflicts, i) <= Slot(conflicts, j)
  }

  /** Grouping in one sweep: a rule joins the current block, or starts a new one when it conflicts with a
      rule in it. */
  function Block(conflicts: Conflicts, r: nat): nat
    decreases r, 0
  {
    if r == 0 then 0
    else if exists x: nat | x < r :: Block(conflicts, x) == Block(conflicts, r - 1) && Conflict(conflicts, x, r)
      then Block(conflicts, r - 1) + 1
    else Block(conflicts, r - 1)
  }

  lemma {:induction false} BlocksInOrder(conflicts: Conflicts, i: nat, j: nat)
    requires i <= j
    ensures Block(conflicts, i) <= Block(conflicts, j)
  {
    if i < j {
      BlocksInOrder(conflicts, i, j - 1);
    }
  }

  lemma BlockStep(conflicts: Conflicts, r: nat)
    requires r > 0
    ensures Block(conflicts, r) == Block(conflicts, r - 1) || Block(conflicts, r) == Block(conflicts, r - 1) + 1
    ensures Block(conflicts, r) == Block(conflicts, r - 1) + 1 <==> BlockHolds(conflicts, r, Block(conflicts, r - 1))
  {
  }

  /** A rule declared before `r` and conflicting with it is in block `h`. */
  ghost predicate BlockHolds(conflicts: Conflicts, r: nat, h: nat) {
    exists x: nat :: x < r && Block(conflicts, x) == h && Conflict(conflicts, x, r)
  }

  /** Every rule conflicts with an earlier rule of each block before its own. */
  ghost predicate BlocksHold(conflicts: Conflicts, n: nat) {
    forall r: nat, h: nat | r < n && h < Block(conflicts, r) :: BlockHolds(conflicts, r, h)
  }

  lemma ConflictStartsBlock(conflicts: Conflicts, i: nat, j: nat)
    requires i < j && Conflict(conflicts, i, j)
    ensures Block(conflicts, i) < Block(conflicts, j)
  {
    hide Block;
    BlocksInOrder(conflicts, i, j - 1);
    BlockStep(conflicts, j);
    if Block(conflicts, i) == Block(conflicts, j - 1) {
      assert BlockHolds(conflicts, j, Block(conflicts, j - 1));
    }
  }

  /** Two rules of one block do not conflict. */
  lemma BlockMates(conflicts: Conflicts, i: nat, j: nat)
    requires i < j && Block(conflicts, i) == Block(conflicts, j)
    ensures !Conflict(conflicts, i, j)
  {
    hide Block;
    if Conflict(conflicts, i, j) {
      ConflictStartsBlock(conflicts, i, j);
    }
  }

  lemma BlocksAreSlots(conflicts: Conflicts, n: nat)
    requires BlocksHold(conflicts, n)
    ensures forall r: nat | r < n :: Slot(conflicts, r) == Block(conflicts, r)
  {
    hide Slot, Block;
    var block := (r: nat) => Block(conflicts, r);
    forall i: nat, j: nat | i < j < n && block(i) == block(j) ensures !Conflict(conflicts, i, j) {
      BlockMates(conflicts, i, j);
    }
    forall j: nat, h: nat | j < n && h < block(j) ensures BlockedIn(block, conflicts, j, h) {
      assert BlockHolds(conflicts, j, h);
      var x: nat :| x < j && Block(conflicts, x) == h && Conflict(conflicts, x, j);
      assert block(x) == h;
    }
    FirstFitIsUnique(conflicts, block, n);
  }

  /** Slots in declaration order are blocks. */
  lemma {:induction false} OrderedSlotsAreBlocks(conflicts: Conflicts, n: nat, r: nat)
    requires SlotsInOrder(conflicts, n) && r < n
    ensures Slot(conflicts, r) == Block(conflicts, r)
    decreases r
  {
    if r == 0 {
      SlotIs(conflicts, 0, 0);
      return;
    }
    hide Slot, Block;
    forall x: nat | x < r ensures Slot(conflicts, x) == Block(conflicts, x) <= Block(conflicts, r - 1) {
      OrderedSlotsAreBlocks(conflicts, n, x);
      BlocksInOrder(conflicts, x, r - 1);
    }
    var k := Block(conflicts, r - 1);
    assert k <= Slot(conflicts, r);
    BlockStep(conflicts, r);
    if BlockHolds(conflicts, r, k) {
      var x: nat :| x < r && Block(conflicts, x) == k && Conflict(conflicts, x, r);
      FirstFitFacts(conflicts, x, r);
      assert !Blocked(conflicts, r, k + 1);
    } else {
      assert !Blocked(conflicts, r, k);
    }
  }

  /** The slots follow declaration order exactly when every rule conflicts with an earlier rule of each block
      before its own. */
  lemma SlotsInOrderIff(conflicts: Conflicts, n: nat)
    ensures SlotsInOrder(conflicts, n) <==> BlocksHold(conflicts, n)
  {
    hide Slot, Block;
    if BlocksHold(conflicts, n) {
      BlocksAreSlots(conflicts, n);
      forall i: nat, j: nat | i < j < n ensures Slot(conflicts, i) <= Slot(conflicts, j) {
        BlocksInOrder(conflicts, i, j);
      }
    }
    if SlotsInOrder(conflicts, n) {
      forall r: nat, h: nat | r < n && h < Block(conflicts, r) ensures BlockHolds(conflicts, r, h) {
        OrderedSlotsAreBlocks(conflicts, n, r);
        var x := BlockerAt(conflicts, r, h);
        OrderedSlotsAreBlocks(conflicts, n, x);
      }
    }
  }
}
