/** The single-clock FIFO: a ring buffer with an optional initial token. */
module SyncFifo {
  import opened Options
  import opened PowersOfTwo
  import opened RingCount

  /** What the two interfaces drive in one cycle. */
  datatype Cycle<T> = Cycle(enqValid: bool, data: T, deqReady: bool)

  /** What the two interfaces show in that cycle; the data only while it is valid. */
  datatype Shown<T> = Shown(enqReady: bool, head: Option<T>)

  /** AWIDTH, the width of the two pointers. */
  function AWidth(depth: nat): nat {
    if depth < 2 then 1 else CeilLog2(depth)
  }

  /** The registers; `storage` has DEPTH words. */
  datatype Regs<T> = Regs(storage: seq<T>, rdPtr: nat, wrPtr: nat, count: nat) {
    predicate Typed() {
      rdPtr < |storage|
    }

    function Show(): Shown<T>
      requires Typed()
    {
      Shown(count < |storage|, if count != 0 then Some(storage[rdPtr]) else None)
    }

    predicate DoEnq(c: Cycle<T>) {
      c.enqValid && count < |storage|
    }

    predicate DoDeq(c: Cycle<T>) {
      c.deqReady && count != 0
    }
  }

  /** The write pointer's step. It wraps after the last place, and in its AWIDTH bits. */
  function Bump(depth: nat, ptr: nat): nat {
    if ptr + 1 == depth || ptr + 1 == Pow2(AWidth(depth)) then 0 else ptr + 1
  }

  /** One clock edge. A write outside the storage has no effect. */
  function Clock<T>(r: Regs<T>, c: Cycle<T>): (r': Regs<T>)
    requires r.Typed()
    ensures r'.Typed() && |r'.storage| == |r.storage|
  {
    var enq, deq := r.DoEnq(c), r.DoDeq(c);
    Regs(
      if enq && r.wrPtr < |r.storage| then r.storage[r.wrPtr := c.data] else r.storage,
      if deq then Succ(|r.storage|, r.rdPtr) else r.rdPtr,
      if enq then Bump(|r.storage|, r.wrPtr) else r.wrPtr,
      if enq && !deq then r.count + 1 else if deq && !enq then r.count - 1 else r.count)
  }

  /** Reset: `storage` is whatever was there, and an initial token is stored at place 0. */
  function Reset<T>(storage: seq<T>, init: Option<T>): (r: Regs<T>)
    requires |storage| > 0
    ensures r.Typed()
  {
    match init
    case None => Regs(storage, 0, 0, 0)
    case Some(v) => Regs(storage[0 := v], 0, 1, 1)
  }

  /** The `count` words from the read pointer on, around the end of the storage. */
  function Contents<T>(r: Regs<T>): (q: seq<T>)
    requires r.Typed() && r.count <= |r.storage|
    ensures |q| == r.count
  {
    seq(r.count, i requires 0 <= i < r.count => r.storage[Around(|r.storage|, r.rdPtr + i)])
  }

  function Around(depth: nat, i: nat): (j: nat)
    requires i < 2 * depth
    ensures j < depth
  {
    if i < depth then i else i - depth
  }

  /** The write pointer stands `count` places after the read pointer. */
  predicate Valid<T>(r: Regs<T>) {
    r.Typed() && r.count <= |r.storage| && r.wrPtr == Around(|r.storage|, r.rdPtr + r.count)
  }

  /** The emitted module. */
  class OneClockFifo<T(0)> {
    const storage: array<T>
    var rdPtr: nat
    var wrPtr: nat
    var count: nat

    function Registers(): Regs<T>
      reads this, storage
    {
      Regs(storage[..], rdPtr, wrPtr, count)
    }

    constructor (depth: nat, init: Option<T>)
      requires depth > 0
      ensures fresh(storage) && storage.Length == depth && Registers().Typed()
      ensures exists s: seq<T> :: |s| == depth && Registers() == Reset(s, init)
    {
      var s := new T[depth];
      storage := s;
      rdPtr := 0;
      count := if init.Some? then 1 else 0;
      wrPtr := if init.Some? then 1 else 0;
      new;
      ghost var before := storage[..];
      if init.Some? {
        storage[0] := init.value;
      }
      assert Registers() == Reset(before, init);
    }

    method OnClk(enqValid: bool, enqData: T, deqReady: bool) returns (doEnq: bool, doDeq: bool)
      requires Registers().Typed()
      modifies this, storage
      ensures var c := Cycle(enqValid, enqData, deqReady);
              && doEnq == old(Registers()).DoEnq(c) && doDeq == old(Registers()).DoDeq(c)
              && Registers() == Clock(old(Registers()), c)
    {
      var depth := storage.Length;
      doEnq := enqValid && count < depth;
      doDeq := deqReady && count != 0;
      if doEnq {
        if wrPtr < depth {
          storage[wrPtr] := enqData;
        }
        wrPtr := Bump(depth, wrPtr);
      }
      if doDeq {
        rdPtr := Succ(depth, rdPtr);
      }
      if doEnq && !doDeq {
        count := count + 1;
      } else if doDeq && !doEnq {
        count := count - 1;
      }
    }
  }

  /** The bounded queue the FIFO stands for: put at the tail unless full, take at the head unless empty. */
  function QueueShow<T>(depth: nat, q: seq<T>): Shown<T> {
    Shown(|q| < depth, if q == [] then None else Some(q[0]))
  }

  function QueueStep<T>(depth: nat, q: seq<T>, c: Cycle<T>): seq<T> {
    (if c.deqReady && q != [] then q[1..] else q) + (if c.enqValid && |q| < depth then [c.data] else [])
  }

  lemma HeadIsShown<T>(r: Regs<T>)
    requires Valid(r)
    ensures r.Show() == QueueShow(|r.storage|, Contents(r))
  {
    if r.count != 0 {
      assert Contents(r)[0] == r.storage[Around(|r.storage|, r.rdPtr + 0)];
    }
  }

  lemma ClockKeepsValid<T>(r: Regs<T>, c: Cycle<T>)
    requires Valid(r)
    ensures Valid(Clock(r, c))
  {
  }

  /** One edge of the circuit is one step of the queue, simultaneous put and take included. */
  lemma ClockRefinesQueue<T>(r: Regs<T>, c: Cycle<T>)
    requires Valid(r)
    ensures Valid(Clock(r, c))
    ensures Contents(Clock(r, c)) == QueueStep(|r.storage|, Contents(r), c)
  {
    ClockKeepsValid(r, c);
    hide Bump;
    var depth, q, r' := |r.storage|, Contents(r), Clock(r, c);
    var q' := QueueStep(depth, q, c);
    var skip := if r.DoDeq(c) then 1 else 0;
    assert q' == q[skip..] + if r.DoEnq(c) then [c.data] else [];
    forall i | 0 <= i < r'.count ensures Contents(r')[i] == q'[i] {
      var slot := Around(depth, r.rdPtr + skip + i);
      assert Around(depth, r'.rdPtr + i) == slot;
      if skip + i < r.count {
        assert q[skip + i] == r.storage[slot];
        assert r.DoEnq(c) ==> slot != r.wrPtr;
      }
    }
  }

  /** What a run shows, cycle by cycle. */
  function CircuitTrace<T>(r: Regs<T>, cs: seq<Cycle<T>>): seq<Shown<T>>
    requires r.Typed()
    decreases cs
  {
    if cs == [] then [r.Show()] else [r.Show()] + CircuitTrace(Clock(r, cs[0]), cs[1..])
  }

  function QueueTrace<T>(depth: nat, q: seq<T>, cs: seq<Cycle<T>>): seq<Shown<T>>
    decreases cs
  {
    if cs == [] then [QueueShow(depth, q)] else [QueueShow(depth, q)] + QueueTrace(depth, QueueStep(depth, q, cs[0]), cs[1..])
  }

  lemma {:induction false} RunRefinesQueue<T>(r: Regs<T>, cs: seq<Cycle<T>>)
    requires Valid(r)
    ensures CircuitTrace(r, cs) == QueueTrace(|r.storage|, Contents(r), cs)
    decreases cs
  {
    HeadIsShown(r);
    if cs != [] {
      ClockRefinesQueue(r, cs[0]);
      RunRefinesQueue(Clock(r, cs[0]), cs[1..]);
    }
  }

  function InitialQueue<T>(init: Option<T>): seq<T> {
    if init.Some? then [init.value] else []
  }

  ghost predicate BehavesAsQueue<T(!new)>(storage: seq<T>, init: Option<T>)
    requires |storage| > 0
  {
    forall cs: seq<Cycle<T>> ::
      CircuitTrace(Reset(storage, init), cs) == QueueTrace(|storage|, InitialQueue(init), cs)
  }

  /** With DEPTH = 1 and an initial token the first word put after it is lost: the write pointer
      leaves reset outside the storage, and the reader gets the initial token a second time. */
  lemma InitialTokenInOnePlace<T(!new)>(storage: seq<T>, token: T, word: T)
    requires |storage| == 1 && token != word
    ensures !BehavesAsQueue(storage, Some(token))
  {
    var take, put := Cycle(false, word, true), Cycle(true, word, false);
    var cs := [take, put];
    assert cs[1..] == [put] && [put][1..] == [];
    var r := Reset(storage, Some(token));
    var r1 := Clock(r, take);
    var r2 := Clock(r1, put);
    assert r1 == Regs([token], 0, 1, 0);
    assert r2.storage == [token] && r2.count == 1;
    assert CircuitTrace(r2, []) == [r2.Show()];
    assert CircuitTrace(r1, [put]) == [r1.Show()] + CircuitTrace(r2, []);
    assert CircuitTrace(r, cs) == [r.Show()] + CircuitTrace(r1, [put]);
    var q := InitialQueue(Some(token));
    assert QueueStep(1, q, take) == [] && QueueStep(1, [], put) == [word];
    assert QueueTrace(1, [word], []) == [QueueShow(1, [word])];
    assert QueueTrace(1, [], [put]) == [QueueShow(1, [])] + QueueTrace(1, [word], []);
    assert QueueTrace(1, q, cs) == [QueueShow(1, q)] + QueueTrace(1, [], [put]);
    assert CircuitTrace(r, cs)[2] == r2.Show() && QueueTrace(1, q, cs)[2] == QueueShow(1, [word]);
  }

  /** Main result: for every depth and every traffic the FIFO is the bounded queue, except exactly
      when the one place of a depth-1 FIFO is given an initial token. */
  lemma FifoIsBoundedQueue<T(!new)>(storage: seq<T>, init: Option<T>, word: T)
    requires |storage| > 0
    requires init.Some? ==> init.value != word
    ensures BehavesAsQueue(storage, init) <==> (init.None? || |storage| >= 2)
  {
    if init.None? || |storage| >= 2 {
      var r := Reset(storage, init);
      assert Valid(r);
      HeadIsShown(r);
      assert Contents(r) == InitialQueue(init);
      forall cs: seq<Cycle<T>> ensures CircuitTrace(r, cs) == QueueTrace(|storage|, InitialQueue(init), cs) {
        RunRefinesQueue(r, cs);
      }
    } else {
      InitialTokenInOnePlace(storage, init.value, word);
    }
  }
}
