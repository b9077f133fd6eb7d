/** The Gray-code two-clock FIFO: two clocks, two synchroniser stages each way, stale pointers. */
module AsyncFifo {
  import opened Gray
  import opened PowersOfTwo
  import opened RingCount

  /** `ptr[AWIDTH-1:0]` of an AWIDTH+1 bit pointer. */
  function Slot(aw: nat, x: nat): (i: nat)
    requires x < Pow2(aw + 1)
    ensures i < Pow2(aw)
  {
    if x < Pow2(aw) then x else x - Pow2(aw)
  }

  /** The registers of both clock domains. `aw` is AWIDTH; the depth is `Pow2(aw)`. */
  datatype Regs<T> = Regs(
    aw: nat,
    storage: seq<T>,
    wrBin: nat, rdSync1: seq<bool>, rdSync2: seq<bool>,
    rdBin: nat, wrSync1: seq<bool>, wrSync2: seq<bool>)
  {
    /** The register widths. The emitted full test slices `[AWIDTH-2:0]`, so AWIDTH is at least 2. */
    predicate Typed() {
      && aw >= 2 && |storage| == Pow2(aw)
      && wrBin < Pow2(aw + 1) && rdBin < Pow2(aw + 1)
      && |rdSync1| == |rdSync2| == |wrSync1| == |wrSync2| == aw + 1
    }

    function Full(): bool
      requires Typed()
    {
      FullTest(Encode(aw + 1, wrBin), rdSync2)
    }

    function Empty(): bool {
      Encode(aw + 1, rdBin) == wrSync2
    }

    function DeqData(): T
      requires Typed()
    {
      storage[Slot(aw, rdBin)]
    }
  }

  /** One or two coinciding clock edges. On a coincidence each side may capture some bits of the
      other side's pointer before and some after that pointer's own move. */
  datatype Edge<T> =
    | WrEdge(enqValid: bool, data: T)
    | RdEdge(deqReady: bool)
    | BothEdges(enqValid: bool, data: T, deqReady: bool, lateRd: set<nat>, lateWr: set<nat>)

  predicate DoEnq<T>(r: Regs<T>, e: Edge<T>)
    requires r.Typed()
  {
    !e.RdEdge? && e.enqValid && !r.Full()
  }

  predicate DoDeq<T>(r: Regs<T>, e: Edge<T>)
    requires r.Typed()
  {
    !e.WrEdge? && e.deqReady && !r.Empty()
  }

  /** The write-side block of one edge, given what its synchroniser captures. */
  function WrSide<T>(r: Regs<T>, enq: bool, data: T, captured: seq<bool>): (r': Regs<T>)
    requires r.Typed() && |captured| == r.aw + 1
    ensures r'.Typed()
  {
    var s := r.(rdSync1 := captured, rdSync2 := r.rdSync1);
    if enq then
      s.(storage := s.storage[Slot(s.aw, s.wrBin) := data], wrBin := Succ(Pow2(s.aw + 1), s.wrBin))
    else s
  }

  /** The read-side block of one edge. */
  function RdSide<T>(r: Regs<T>, deq: bool, captured: seq<bool>): (r': Regs<T>)
    requires r.Typed() && |captured| == r.aw + 1
    ensures r'.Typed()
  {
    var s := r.(wrSync1 := captured, wrSync2 := r.wrSync1);
    if deq then s.(rdBin := Succ(Pow2(s.aw + 1), s.rdBin)) else s
  }

  function Clock<T>(r: Regs<T>, e: Edge<T>): (r': Regs<T>)
    requires r.Typed()
    ensures r'.Typed()
  {
    var w := r.aw + 1;
    match e
    case WrEdge(_, data) => WrSide(r, DoEnq(r, e), data, Encode(w, r.rdBin))
    case RdEdge(_) => RdSide(r, DoDeq(r, e), Encode(w, r.wrBin))
    case BothEdges(_, data, _, lateRd, lateWr) =>
      var wr' := if DoEnq(r, e) then Succ(Pow2(w), r.wrBin) else r.wrBin;
      var rd' := if DoDeq(r, e) then Succ(Pow2(w), r.rdBin) else r.rdBin;
      var captureRd := Sample(Encode(w, r.rdBin), Encode(w, rd'), lateRd);
      var captureWr := Sample(Encode(w, r.wrBin), Encode(w, wr'), lateWr);
      RdSide(WrSide(r, DoEnq(r, e), data, captureRd), DoDeq(r, e), captureWr)
  }

  /** Both domains leave reset together, whatever the storage holds. */
  function Reset<T>(aw: nat, storage: seq<T>): (r: Regs<T>)
    requires aw >= 2 && |storage| == Pow2(aw)
    ensures r.Typed()
  {
    var z := Encode(aw + 1, 0);
    Regs(aw, storage, 0, z, z, 0, z, z)
  }

  /** The emitted module: the always_ff blocks update the registers in place. */
  class TwoClockFifo<T(0)> {
    const aw: nat
    const storage: array<T>
    var wrPtrBin: nat
    var rdPtrGraySync1: seq<bool>
    var rdPtrGraySync2: seq<bool>
    var rdPtrBin: nat
    var wrPtrGraySync1: seq<bool>
    var wrPtrGraySync2: seq<bool>

    function Registers(): Regs<T>
      reads this, storage
    {
      Regs(aw, storage[..], wrPtrBin, rdPtrGraySync1, rdPtrGraySync2, rdPtrBin, wrPtrGraySync1, wrPtrGraySync2)
    }

    constructor (aw: nat)
      requires aw >= 2
      ensures fresh(storage) && this.aw == aw && storage.Length == Pow2(aw)
      ensures Registers() == Reset(aw, storage[..])
    {
      this.aw := aw;
      storage := new T[Pow2(aw)];
      wrPtrBin, rdPtrBin := 0, 0;
      rdPtrGraySync1, rdPtrGraySync2 := Encode(aw + 1, 0), Encode(aw + 1, 0);
      wrPtrGraySync1, wrPtrGraySync2 := Encode(aw + 1, 0), Encode(aw + 1, 0);
    }

    method OnWrClk(enqValid: bool, enqData: T) returns (doEnq: bool)
      requires Registers().Typed()
      modifies this, storage
      ensures doEnq == DoEnq(old(Registers()), WrEdge(enqValid, enqData))
      ensures Registers() == Clock(old(Registers()), WrEdge(enqValid, enqData))
    {
      doEnq := enqValid && !Registers().Full();
      WriteBlock(doEnq, enqData, Encode(aw + 1, rdPtrBin));
    }

    method OnRdClk(deqReady: bool) returns (doDeq: bool, deqData: T)
      requires Registers().Typed()
      modifies this
      ensures doDeq == DoDeq(old(Registers()), RdEdge(deqReady)) && deqData == old(Registers().DeqData())
      ensures Registers() == Clock(old(Registers()), RdEdge(deqReady))
    {
      doDeq := deqReady && !Registers().Empty();
      deqData := storage[Slot(aw, rdPtrBin)];
      ReadBlock(doDeq, Encode(aw + 1, wrPtrBin));
    }

    method OnBothClks(enqValid: bool, enqData: T, deqReady: bool, lateRd: set<nat>, lateWr: set<nat>)
      returns (doEnq: bool, doDeq: bool, deqData: T)
      requires Registers().Typed()
      modifies this, storage
      ensures var e := BothEdges(enqValid, enqData, deqReady, lateRd, lateWr);
              && doEnq == DoEnq(old(Registers()), e) && doDeq == DoDeq(old(Registers()), e)
              && deqData == old(Registers().DeqData())
              && Registers() == Clock(old(Registers()), e)
    {
      doEnq := enqValid && !Registers().Full();
      doDeq := deqReady && !Registers().Empty();
      deqData := storage[Slot(aw, rdPtrBin)];
      var wr, rd := wrPtrBin, rdPtrBin;
      var wr' := if doEnq then Succ(Pow2(aw + 1), wr) else wr;
      var rd' := if doDeq then Succ(Pow2(aw + 1), rd) else rd;
      WriteBlock(doEnq, enqData, Sample(Encode(aw + 1, rd), Encode(aw + 1, rd'), lateRd));
      ReadBlock(doDeq, Sample(Encode(aw + 1, wr), Encode(aw + 1, wr'), lateWr));
    }

    method WriteBlock(doEnq: bool, enqData: T, captured: seq<bool>)
      requires Registers().Typed() && |captured| == aw + 1
      modifies this`rdPtrGraySync1, this`rdPtrGraySync2, this`wrPtrBin, storage
      ensures Registers() == WrSide(old(Registers()), doEnq, enqData, captured)
    {
      rdPtrGraySync1, rdPtrGraySync2 := captured, rdPtrGraySync1;
      if doEnq {
        storage[Slot(aw, wrPtrBin)] := enqData;
        wrPtrBin := Succ(Pow2(aw + 1), wrPtrBin);
      }
    }

    method ReadBlock(doDeq: bool, captured: seq<bool>)
      requires Registers().Typed() && |captured| == aw + 1
      modifies this`wrPtrGraySync1, this`wrPtrGraySync2, this`rdPtrBin
      ensures Registers() == RdSide(old(Registers()), doDeq, captured)
    {
      wrPtrGraySync1, wrPtrGraySync2 := captured, wrPtrGraySync1;
      if doDeq {
        rdPtrBin := Succ(Pow2(aw + 1), rdPtrBin);
      }
    }
  }

  /** A run so far: the registers, every word accepted and every word delivered. */
  datatype Run<T> = Run(regs: Regs<T>, written: seq<T>, read: seq<T>)

  function Advance<T>(s: Run<T>, e: Edge<T>): (s': Run<T>)
    requires s.regs.Typed()
    ensures s'.regs.Typed()
  {
    Run(Clock(s.regs, e),
        if DoEnq(s.regs, e) then s.written + [e.data] else s.written,
        if DoDeq(s.regs, e) then s.read + [s.regs.DeqData()] else s.read)
  }

  function AdvanceAll<T>(s: Run<T>, es: seq<Edge<T>>): (s': Run<T>)
    requires s.regs.Typed()
    ensures s'.regs.Typed()
    decreases es
  {
    if es == [] then s else AdvanceAll(Advance(s, es[0]), es[1..])
  }

  /** The unbounded counts behind the four synchroniser registers. */
  datatype Seen = Seen(rd1: nat, rd2: nat, wr1: nat, wr2: nat)

  /** A pointer of `count` increments as a `w`-bit Gray word. */
  function Word(w: nat, count: nat): seq<bool> {
    Encode(w, Place(Pow2(w), count))
  }

  ghost predicate InvAt<T>(s: Run<T>, k: Seen) {
    var r, w := s.regs, s.regs.aw + 1;
    && r.Typed()
    && |s.read| <= |s.written| && s.read == s.written[..|s.read|]
    && r.wrBin == Place(Pow2(w), |s.written|) && r.rdBin == Place(Pow2(w), |s.read|)
    && k.rd2 <= k.rd1 <= |s.read| <= k.wr2 <= k.wr1 <= |s.written| <= k.rd2 + Pow2(r.aw)
    && r.rdSync1 == Word(w, k.rd1) && r.rdSync2 == Word(w, k.rd2)
    && r.wrSync1 == Word(w, k.wr1) && r.wrSync2 == Word(w, k.wr2)
    && Intact(s)
  }

  /** Every unread word is still where it was written. */
  ghost predicate Intact<T>(s: Run<T>)
    requires s.regs.Typed()
  {
    forall i | |s.read| <= i < |s.written| :: s.regs.storage[Place(Pow2(s.regs.aw), i)] == s.written[i]
  }

  /** Pointers less than a lap apart have equal Gray words only when they are equal, and the full
      test holds only at the distance of a whole buffer. */
  lemma WordsCompare(w: nat, a: nat, d: nat)
    requires w >= 2 && d <= Pow2(w - 1)
    ensures Word(w, a) == Word(w, a + d) <==> d == 0
    ensures FullTest(Word(w, a + d), Word(w, a)) <==> d == Pow2(w - 1)
  {
    var m := Pow2(w);
    PlaceAhead(m, a, d);
    if Word(w, a) == Word(w, a + d) {
      EncodeInjective(w, Place(m, a), Place(m, a + d));
    }
    FullTestIsHalfLap(w, Place(m, a + d), Place(m, a));
  }

  lemma SlotOfPlace(aw: nat, count: nat)
    ensures Slot(aw, Place(Pow2(aw + 1), count)) == Place(Pow2(aw), count)
  {
    PlaceInHalf(Pow2(aw), count);
  }

  lemma EmptyIsCaughtUp<T>(s: Run<T>, k: Seen)
    requires InvAt(s, k)
    ensures s.regs.Empty() <==> |s.read| == k.wr2
    ensures !s.regs.Empty() ==> |s.read| < |s.written| && s.regs.DeqData() == s.written[|s.read|]
  {
    hide FullTest, Encode;
    WordsCompare(s.regs.aw + 1, |s.read|, k.wr2 - |s.read|);
    SlotOfPlace(s.regs.aw, |s.read|);
  }

  lemma FullIsWholeBuffer<T>(s: Run<T>, k: Seen)
    requires InvAt(s, k)
    ensures s.regs.Full() <==> |s.written| == k.rd2 + Pow2(s.regs.aw)
  {
    hide FullTest, Encode, Intact;
    WordsCompare(s.regs.aw + 1, k.rd2, |s.written| - k.rd2);
  }

  function Below(n: nat): (s: set<nat>)
    ensures forall i: nat :: i in s <==> i < n
  {
    if n == 0 then {} else Below(n - 1) + {n - 1}
  }

  /** What a side captures of a pointer that counts up by at most one during the edge. */
  lemma CapturedCount(w: nat, count: nat, moves: bool, late: set<nat>) returns (seen: nat)
    requires w > 0
    ensures count <= seen <= count + (if moves then 1 else 0)
    ensures var x := Place(Pow2(w), count);
            Sample(Encode(w, x), Encode(w, if moves then Succ(Pow2(w), x) else x), late) == Word(w, seen)
    ensures late == {} ==> seen == count
    ensures late == Below(w) && moves ==> seen == count + 1
  {
    var x := Place(Pow2(w), count);
    seen := count;
    if moves {
      SampleIsOldOrNew(w, x, late);
      WholeSample(w, x, late);
      if Sample(Encode(w, x), Encode(w, Succ(Pow2(w), x)), late) != Encode(w, x) {
        seen := count + 1;
      }
    } else {
      assert Sample(Encode(w, x), Encode(w, x), late) == Encode(w, x);
    }
  }

  lemma WholeSample(w: nat, x: nat, late: set<nat>)
    requires w > 0 && x < Pow2(w)
    ensures var s := Sample(Encode(w, x), Encode(w, Succ(Pow2(w), x)), late);
            (late == {} ==> s == Encode(w, x)) && (late == Below(w) ==> s != Encode(w, x))
  {
    var i := NextIsAdjacent(w, x);
    hide Encode;
    assert late == {} ==> Sample(Encode(w, x), Encode(w, Succ(Pow2(w), x)), late) == Encode(w, x);
  }

  /** A write goes to a slot that holds no unread word. */
  lemma UnreadIsKept<T>(s: Run<T>, e: Edge<T>, k: Seen)
    requires InvAt(s, k)
    ensures Intact(Advance(s, e))
  {
    hide FullTest, Encode, Word;
    var n, d, s' := |s.written|, Pow2(s.regs.aw), Advance(s, e);
    FullIsWholeBuffer(s, k);
    SlotOfPlace(s.regs.aw, n);
    forall i | |s'.read| <= i < |s'.written| ensures s'.regs.storage[Place(d, i)] == s'.written[i] {
      if DoEnq(s.regs, e) && i < n {
        PlacesDiffer(d, i, n);
      }
    }
  }

  /** The histories stay within the windows the synchronisers have seen. */
  lemma WithinWindows<T>(s: Run<T>, e: Edge<T>, k: Seen)
    requires InvAt(s, k)
    ensures |Advance(s, e).read| <= k.wr2 && |Advance(s, e).written| <= k.rd2 + Pow2(s.regs.aw)
    ensures Advance(s, e).read == Advance(s, e).written[..|Advance(s, e).read|]
  {
    hide FullTest, Encode, Word, Intact, Clock, Regs.Full, Regs.Empty, Regs.DeqData;
    EmptyIsCaughtUp(s, k);
    FullIsWholeBuffer(s, k);
  }

  /** One edge, of either clock or of both, keeps the invariant; each synchroniser moves one stage. */
  lemma StepKeepsInv<T>(s: Run<T>, e: Edge<T>, k: Seen) returns (k': Seen)
    requires InvAt(s, k)
    ensures InvAt(Advance(s, e), k')
    ensures if e.WrEdge? then k'.wr1 == k.wr1 && k'.wr2 == k.wr2 else k'.wr2 == k.wr1 && k'.wr1 >= |s.written|
    ensures if e.RdEdge? then k'.rd1 == k.rd1 && k'.rd2 == k.rd2 else k'.rd2 == k.rd1 && k'.rd1 >= |s.read|
    ensures e.BothEdges? ==>
              && (e.lateRd == {} ==> k'.rd1 == |s.read|) && (e.lateRd == Below(s.regs.aw + 1) ==> k'.rd1 == |Advance(s, e).read|)
              && (e.lateWr == {} ==> k'.wr1 == |s.written|) && (e.lateWr == Below(s.regs.aw + 1) ==> k'.wr1 == |Advance(s, e).written|)
  {
    hide FullTest, Encode, Sample, Intact, Succ, Slot, Regs.Full, Regs.Empty, Regs.DeqData;
    var w := s.regs.aw + 1;
    UnreadIsKept(s, e, k);
    WithinWindows(s, e, k);
    match e
    case WrEdge(_, _) =>
      k' := k.(rd1 := |s.read|, rd2 := k.rd1);
    case RdEdge(_) =>
      k' := k.(wr1 := |s.written|, wr2 := k.wr1);
    case BothEdges(_, _, _, lateRd, lateWr) =>
      var rd1 := CapturedCount(w, |s.read|, DoDeq(s.regs, e), lateRd);
      var wr1 := CapturedCount(w, |s.written|, DoEnq(s.regs, e), lateWr);
      k' := Seen(rd1, k.rd1, wr1, k.wr1);
  }

  lemma ResetInv<T>(aw: nat, storage: seq<T>) returns (k: Seen)
    requires aw >= 2 && |storage| == Pow2(aw)
    ensures InvAt(Run(Reset(aw, storage), [], []), k) && k == Seen(0, 0, 0, 0)
  {
    k := Seen(0, 0, 0, 0);
  }

  lemma {:induction false} RunKeepsInv<T>(s: Run<T>, es: seq<Edge<T>>, k: Seen) returns (k': Seen)
    requires InvAt(s, k)
    ensures InvAt(AdvanceAll(s, es), k')
    decreases es
  {
    if es == [] {
      k' := k;
    } else {
      var k1 := StepKeepsInv(s, es[0], k);
      k' := RunKeepsInv(Advance(s, es[0]), es[1..], k1);
    }
  }

  /** Main result. From joint reset, under every interleaving and coincidence of the two clocks:
      what was delivered is a prefix of what was accepted, at most a buffer behind it; no unread
      word has been overwritten; a word is offered only when there is one, and it is the oldest. */
  lemma ExactFifo<T>(aw: nat, storage: seq<T>, es: seq<Edge<T>>)
    requires aw >= 2 && |storage| == Pow2(aw)
    ensures var s := AdvanceAll(Run(Reset(aw, storage), [], []), es);
            && s.regs.aw == aw && s.read <= s.written && |s.written| <= |s.read| + Pow2(aw)
            && Intact(s)
            && (!s.regs.Empty() ==> |s.read| < |s.written| && s.regs.DeqData() == s.written[|s.read|])
            && (!s.regs.Full() ==> |s.written| < |s.read| + Pow2(aw))
  {
    var start := Run(Reset(aw, storage), [], []);
    var k := ResetInv(aw, storage);
    var k' := RunKeepsInv(start, es, k);
    KeepsWidth(start, es);
    EmptyIsCaughtUp(AdvanceAll(start, es), k');
    FullIsWholeBuffer(AdvanceAll(start, es), k');
  }

  lemma {:induction false} KeepsWidth<T>(s: Run<T>, es: seq<Edge<T>>)
    requires s.regs.Typed()
    ensures AdvanceAll(s, es).regs.aw == s.regs.aw
    decreases es
  {
    if es != [] {
      KeepsWidth(Advance(s, es[0]), es[1..]);
    }
  }

  // ---------------------------------------------------------------------------
  // What the two interfaces see
  // ---------------------------------------------------------------------------

  /** The FIFO without its registers: all the words accepted and delivered, and how many of them each side
      has counted so far. */
  datatype View<T> = View(written: seq<T>, read: seq<T>, seen: Seen) {
    predicate Room(depth: nat) {
      |written| < seen.rd2 + depth
    }

    predicate Waiting() {
      |read| < seen.wr2 && |read| < |written|
    }
  }

  /** One edge. A word offered on a write edge is accepted exactly when the writer counts room, the oldest word
      is delivered on a read edge exactly when it is asked for and the reader counts one, and each side's counts
      move on by its own clock alone: two edges behind the other side's, give or take a move on the same edge. */
  predicate Moves<T(==)>(depth: nat, v: View<T>, e: Edge<T>, v': View<T>) {
    var k, k' := v.seen, v'.seen;
    && v'.written == v.written + (if !e.RdEdge? && e.enqValid && v.Room(depth) then [e.data] else [])
    && v'.read == v.read + (if !e.WrEdge? && e.deqReady && v.Waiting() then [v.written[|v.read|]] else [])
    && (if e.RdEdge? then k'.rd1 == k.rd1 && k'.rd2 == k.rd2 else k'.rd2 == k.rd1 && |v.read| <= k'.rd1 <= |v'.read|)
    && (if e.WrEdge? then k'.wr1 == k.wr1 && k'.wr2 == k.wr2 else k'.wr2 == k.wr1 && |v.written| <= k'.wr1 <= |v'.written|)
  }

  /** The registers show the interfaces exactly this. */
  predicate Shows<T(==)>(s: Run<T>, v: View<T>)
    requires s.regs.Typed()
  {
    && s.written == v.written && s.read == v.read
    && (s.regs.Full() <==> !v.Room(Pow2(s.regs.aw)))
    && (s.regs.Empty() <==> !v.Waiting())
    && (v.Waiting() ==> s.regs.DeqData() == v.written[|v.read|])
  }

  lemma InvShows<T>(s: Run<T>, k: Seen)
    requires InvAt(s, k)
    ensures Shows(s, View(s.written, s.read, k))
  {
    EmptyIsCaughtUp(s, k);
    FullIsWholeBuffer(s, k);
    hide Regs.Full, Regs.Empty, Regs.DeqData, Intact;
  }

  lemma EdgeMoves<T>(s: Run<T>, e: Edge<T>, k: Seen) returns (k': Seen)
    requires InvAt(s, k)
    ensures InvAt(Advance(s, e), k') && Advance(s, e).regs.aw == s.regs.aw
    ensures Moves(Pow2(s.regs.aw), View(s.written, s.read, k), e, View(Advance(s, e).written, Advance(s, e).read, k'))
  {
    k' := StepKeepsInv(s, e, k);
    InvShows(s, k);
    hide Clock, Regs.Full, Regs.Empty, Regs.DeqData, Intact;
    CountsStayBehind(Advance(s, e), k');
    KeepsWidth(s, [e]);
  }

  lemma CountsStayBehind<T>(s: Run<T>, k: Seen)
    requires InvAt(s, k)
    ensures k.rd1 <= |s.read| && k.wr1 <= |s.written|
  {
  }

  /** And on coinciding edges each side may count the other's move on the same edge or not, as it happens. */
  lemma EitherCountHappens<T>(s: Run<T>, k: Seen, enqValid: bool, data: T, deqReady: bool, newRd: bool, newWr: bool)
    returns (e: Edge<T>, k': Seen)
    requires InvAt(s, k)
    ensures e.BothEdges? && e.enqValid == enqValid && e.data == data && e.deqReady == deqReady
    ensures InvAt(Advance(s, e), k')
    ensures k'.rd1 == |if newRd then Advance(s, e).read else s.read|
    ensures k'.wr1 == |if newWr then Advance(s, e).written else s.written|
  {
    var all := Below(s.regs.aw + 1);
    e := BothEdges(enqValid, data, deqReady, if newRd then all else {}, if newWr then all else {});
    k' := StepKeepsInv(s, e, k);
    hide Clock, Intact, Regs.Full, Regs.Empty, Regs.DeqData, Encode, Sample, Succ;
    assert 0 in all;
  }

  lemma {:induction false} RunMoves<T>(s: Run<T>, es: seq<Edge<T>>, k: Seen) returns (views: seq<View<T>>)
    requires InvAt(s, k)
    ensures |views| == |es| + 1 && views[0] == View(s.written, s.read, k)
    ensures forall i | 0 <= i < |es| :: Moves(Pow2(s.regs.aw), views[i], es[i], views[i + 1])
    ensures forall i | 0 <= i <= |es| :: Shows(AdvanceAll(s, es[..i]), views[i])
    decreases es
  {
    assert s.regs.Typed();
    hide InvAt, Moves, Shows, Advance;
    InvShows(s, k);
    views := [View(s.written, s.read, k)];
    if es != [] {
      var k' := EdgeMoves(s, es[0], k);
      var rest := RunMoves(Advance(s, es[0]), es[1..], k');
      views := views + rest;
      forall i | 0 <= i <= |es| ensures Shows(AdvanceAll(s, es[..i]), views[i]) {
        if i > 0 {
          assert es[..i][1..] == es[1..][..i - 1];
        }
      }
    }
  }

  /** Main result, seen from outside. In every run, at every edge: a word is accepted exactly when it is offered on
      a write edge with room counted, and delivered exactly when it is asked for on a read edge with a word counted;
      the ready and valid outputs say just that. */
  lemma InterfacesAreExact<T>(aw: nat, storage: seq<T>, es: seq<Edge<T>>) returns (views: seq<View<T>>)
    requires aw >= 2 && |storage| == Pow2(aw)
    ensures |views| == |es| + 1 && views[0] == View([], [], Seen(0, 0, 0, 0))
    ensures forall i | 0 <= i < |es| :: Moves(Pow2(aw), views[i], es[i], views[i + 1])
    ensures forall i | 0 <= i <= |es| :: Shows(AdvanceAll(Run(Reset(aw, storage), [], []), es[..i]), views[i])
  {
    var k := ResetInv(aw, storage);
    views := RunMoves(Run(Reset(aw, storage), [], []), es, k);
  }

  function RdEdges<T>(es: seq<Edge<T>>): nat {
    if es == [] then 0 else (if es[0].WrEdge? then 0 else 1) + RdEdges(es[1..])
  }

  function WrEdges<T>(es: seq<Edge<T>>): nat {
    if es == [] then 0 else (if es[0].RdEdge? then 0 else 1) + WrEdges(es[1..])
  }

  /** How far writes have travelled towards the reader after some edges. */
  lemma {:induction false} WritesArrive<T>(s: Run<T>, es: seq<Edge<T>>, k: Seen, n: nat) returns (k': Seen)
    requires InvAt(s, k) && n <= |s.written|
    ensures InvAt(AdvanceAll(s, es), k')
    ensures RdEdges(es) + (if n <= k.wr2 then 2 else if n <= k.wr1 then 1 else 0) >= 2 ==> n <= k'.wr2
    decreases es
  {
    if es == [] {
      k' := k;
    } else {
      var k1 := StepKeepsInv(s, es[0], k);
      k' := WritesArrive(Advance(s, es[0]), es[1..], k1, n);
    }
  }

  /** How far reads have travelled towards the writer after some edges. */
  lemma {:induction false} ReadsArrive<T>(s: Run<T>, es: seq<Edge<T>>, k: Seen, n: nat) returns (k': Seen)
    requires InvAt(s, k) && n <= |s.read|
    ensures InvAt(AdvanceAll(s, es), k')
    ensures WrEdges(es) + (if n <= k.rd2 then 2 else if n <= k.rd1 then 1 else 0) >= 2 ==> n <= k'.rd2
    decreases es
  {
    if es == [] {
      k' := k;
    } else {
      var k1 := StepKeepsInv(s, es[0], k);
      k' := ReadsArrive(Advance(s, es[0]), es[1..], k1, n);
    }
  }

  /** Every word accepted so far is offered, or already delivered, after two further read edges. */
  lemma PendingWordIsOffered<T>(aw: nat, storage: seq<T>, before: seq<Edge<T>>, es: seq<Edge<T>>)
    requires aw >= 2 && |storage| == Pow2(aw)
    requires RdEdges(es) >= 2
    ensures var s := AdvanceAll(Run(Reset(aw, storage), [], []), before);
            var s' := AdvanceAll(s, es);
            |s'.read| < |s.written| ==> !s'.regs.Empty()
  {
    var k := ResetInv(aw, storage);
    var start := Run(Reset(aw, storage), [], []);
    k := RunKeepsInv(start, before, k);
    var s := AdvanceAll(start, before);
    k := WritesArrive(s, es, k, |s.written|);
    EmptyIsCaughtUp(AdvanceAll(s, es), k);
  }

  /** Every slot freed so far is usable after two further write edges. */
  lemma FreedSlotIsUsable<T>(aw: nat, storage: seq<T>, before: seq<Edge<T>>, es: seq<Edge<T>>)
    requires aw >= 2 && |storage| == Pow2(aw)
    requires WrEdges(es) >= 2
    ensures var s := AdvanceAll(Run(Reset(aw, storage), [], []), before);
            var s' := AdvanceAll(s, es);
            |s'.written| < |s.read| + Pow2(aw) ==> !s'.regs.Full()
  {
    var k := ResetInv(aw, storage);
    var start := Run(Reset(aw, storage), [], []);
    k := RunKeepsInv(start, before, k);
    var s := AdvanceAll(start, before);
    KeepsWidth(start, before);
    KeepsWidth(s, es);
    k := ReadsArrive(s, es, k, |s.read|);
    FullIsWholeBuffer(AdvanceAll(s, es), k);
  }
}
