/** Two FIFOs in opposite directions between the same two clocks: what seeing a word of one tells about the
    room in the other, and the delaying queue of the bus as a view of the FIFO. */
module Crossing {
  import opened Options
  import opened PowersOfTwo
  import opened AsyncFifo
  import BusFabric

  // ---------------------------------------------------------------------------
  // A pair of FIFOs
  // ---------------------------------------------------------------------------

  /** Edges of the same clocks: where one FIFO is written the other is read. */
  datatype Edges<T, U> = Edges(forth: Edge<T>, back: Edge<U>) {
    predicate SameClocks() {
      (forth.WrEdge? <==> back.RdEdge?) && (forth.RdEdge? <==> back.WrEdge?)
    }
  }

  /** A run of both. `backMarks[k]` is how many words have been taken from the one FIFO, the edge itself included,
      when word `k` is put into the other; `forthMarks` the same the other way round. */
  datatype Pair<T, U> = Pair(forth: Run<T>, back: Run<U>, forthMarks: seq<nat>, backMarks: seq<nat>)

  function AdvancePair<T, U>(p: Pair<T, U>, e: Edges<T, U>): (p': Pair<T, U>)
    requires p.forth.regs.Typed() && p.back.regs.Typed()
    ensures p'.forth.regs.Typed() && p'.back.regs.Typed()
  {
    var forth, back := Advance(p.forth, e.forth), Advance(p.back, e.back);
    Pair(forth, back,
         if DoEnq(p.forth.regs, e.forth) then p.forthMarks + [|back.read|] else p.forthMarks,
         if DoEnq(p.back.regs, e.back) then p.backMarks + [|forth.read|] else p.backMarks)
  }

  /** What a side has seen of the words put to it is never ahead, by more than one take, of what it has seen of
      the takes made before them: both pointers pass two flops of its clock. */
  ghost predicate Told(marks: seq<nat>, taken: nat, own: Seen, other: Seen) {
    && (forall k | 0 <= k < |marks| :: marks[k] <= taken)
    && (forall k | 0 <= k < |marks| && k < other.wr1 :: marks[k] <= own.rd1 + 1)
    && (forall k | 0 <= k < |marks| && k < other.wr2 :: marks[k] <= own.rd2 + 1)
  }

  ghost predicate PairInv<T, U>(p: Pair<T, U>, f: Seen, b: Seen) {
    && InvAt(p.forth, f) && InvAt(p.back, b)
    && |p.forthMarks| == |p.forth.written| && |p.backMarks| == |p.back.written|
    && Told(p.backMarks, |p.forth.read|, f, b) && Told(p.forthMarks, |p.back.read|, b, f)
  }

  lemma ToldKeeps(marks: seq<nat>, taken: nat, own: Seen, other: Seen,
                  marks': seq<nat>, taken': nat, own': Seen, other': Seen, ticks: bool)
    requires Told(marks, taken, own, other) && other.wr2 <= other.wr1 <= |marks|
    requires taken <= taken' <= taken + 1 && (marks' == marks || marks' == marks + [taken'])
    requires if ticks then own'.rd2 == own.rd1 && own'.rd1 >= taken && other'.wr2 == other.wr1
             else own'.rd2 == own.rd2 && own'.rd1 == own.rd1 && other'.wr2 == other.wr2 && other'.wr1 == other.wr1
    ensures Told(marks', taken', own', other')
  {
  }

  lemma PairKeepsInv<T, U>(p: Pair<T, U>, e: Edges<T, U>, f: Seen, b: Seen) returns (f': Seen, b': Seen)
    requires PairInv(p, f, b) && e.SameClocks()
    ensures PairInv(AdvancePair(p, e), f', b')
  {
    hide Clock, Regs.Full, Regs.Empty, Regs.DeqData;
    f' := StepKeepsInv(p.forth, e.forth, f);
    b' := StepKeepsInv(p.back, e.back, b);
    Logs(p.forth, e.forth);
    Logs(p.back, e.back);
    InOrder(p.forth, f);
    InOrder(p.back, b);
    hide InvAt, Advance, DoEnq, DoDeq, Told;
    var p' := AdvancePair(p, e);
    ToldKeeps(p.backMarks, |p.forth.read|, f, b, p'.backMarks, |p'.forth.read|, f', b', !e.forth.RdEdge?);
    ToldKeeps(p.forthMarks, |p.back.read|, b, f, p'.forthMarks, |p'.back.read|, b', f', !e.forth.WrEdge?);
  }

  lemma Logs<T>(s: Run<T>, e: Edge<T>)
    requires s.regs.Typed()
    ensures Advance(s, e).written == s.written + if DoEnq(s.regs, e) then [e.data] else []
    ensures Advance(s, e).read == s.read + if DoDeq(s.regs, e) then [s.regs.DeqData()] else []
    ensures e.WrEdge? ==> !DoDeq(s.regs, e)
    ensures e.RdEdge? ==> !DoEnq(s.regs, e)
  {
  }

  lemma InOrder<T>(s: Run<T>, k: Seen)
    requires InvAt(s, k)
    ensures k.rd2 <= k.rd1 <= |s.read| <= k.wr2 <= k.wr1 <= |s.written|
  {
  }

  predicate AllSameClocks<T, U>(es: seq<Edges<T, U>>) {
    forall i | 0 <= i < |es| :: es[i].SameClocks()
  }

  function AdvancePairAll<T, U>(p: Pair<T, U>, es: seq<Edges<T, U>>): (p': Pair<T, U>)
    requires p.forth.regs.Typed() && p.back.regs.Typed()
    ensures p'.forth.regs.Typed() && p'.back.regs.Typed()
    decreases es
  {
    if es == [] then p else AdvancePairAll(AdvancePair(p, es[0]), es[1..])
  }

  lemma {:induction false} PairRunKeepsInv<T, U>(p: Pair<T, U>, es: seq<Edges<T, U>>, f: Seen, b: Seen) returns (f': Seen, b': Seen)
    requires PairInv(p, f, b) && AllSameClocks(es)
    ensures PairInv(AdvancePairAll(p, es), f', b')
    decreases es
  {
    f', b' := f, b;
    if es != [] {
      assert es[0].SameClocks();
      f', b' := PairKeepsInv(p, es[0], f, b);
      hide PairInv, AdvancePair;
      f', b' := PairRunKeepsInv(AdvancePair(p, es[0]), es[1..], f', b');
    }
  }

  /** Both FIFOs at reset. */
  function StartPair<T, U>(aw: nat, forth: seq<T>, back: seq<U>): Pair<T, U>
    requires aw >= 2 && |forth| == |back| == Pow2(aw)
  {
    Pair(Run(Reset(aw, forth), [], []), Run(Reset(aw, back), [], []), [], [])
  }

  // ---------------------------------------------------------------------------
  // The delaying queue
  // ---------------------------------------------------------------------------

  /** The FIFO as the bus sees it: its unread words with their marks, and the takes its writer has not seen. */
  function AsQueue<T>(s: Run<T>, k: Seen, marks: seq<nat>, lost: nat): BusFabric.Queue<T>
    requires |s.read| <= |s.written| == |marks| && k.rd2 <= |s.read|
  {
    BusFabric.Queue(s.written[|s.read|..], marks[|s.read|..], |s.read|, |s.read| - k.rd2, lost)
  }

  ghost predicate Counted<T, U>(p: Pair<T, U>, f: Seen, b: Seen) {
    && InvAt(p.forth, f) && |p.forth.read| <= |p.forth.written| == |p.forthMarks| && f.rd2 <= |p.forth.read|
    && InvAt(p.back, b) && |p.back.read| <= |p.back.written| == |p.backMarks| && b.rd2 <= |p.back.read|
  }

  /** In every run of two such FIFOs a side that is offered a word has seen the room of all but at most one of
      the words it had put that were taken before: the bus's condition, in both directions. */
  lemma AnswerShowsRoom<T, U>(aw: nat, forth: seq<T>, back: seq<U>, es: seq<Edges<T, U>>) returns (f: Seen, b: Seen)
    requires aw >= 2 && |forth| == |back| == Pow2(aw) && AllSameClocks(es)
    ensures var p := AdvancePairAll(StartPair(aw, forth, back), es);
            && Counted(p, f, b)
            && var req, resp := AsQueue(p.forth, f, p.forthMarks, 0), AsQueue(p.back, b, p.backMarks, 0);
            (!p.back.regs.Empty() ==> resp.Shows(req)) && (!p.forth.regs.Empty() ==> req.Shows(resp))
  {
    var start := StartPair(aw, forth, back);
    f := ResetInv(aw, forth);
    b := ResetInv(aw, back);
    StartsTold(start, f, b);
    f, b := PairRunKeepsInv(start, es, f, b);
    var p := AdvancePairAll(start, es);
    hide AdvancePairAll;
    OffersTold(p, f, b);
  }

  lemma StartsTold<T, U>(p: Pair<T, U>, f: Seen, b: Seen)
    requires InvAt(p.forth, f) && InvAt(p.back, b)
    requires p.forthMarks == [] && p.backMarks == [] && p.forth.written == [] && p.back.written == []
    ensures PairInv(p, f, b)
  {
  }

  lemma OffersTold<T, U>(p: Pair<T, U>, f: Seen, b: Seen)
    requires PairInv(p, f, b)
    ensures Counted(p, f, b)
    ensures var req, resp := AsQueue(p.forth, f, p.forthMarks, 0), AsQueue(p.back, b, p.backMarks, 0);
            (!p.back.regs.Empty() ==> resp.Shows(req)) && (!p.forth.regs.Empty() ==> req.Shows(resp))
  {
    EmptyIsCaughtUp(p.forth, f);
    EmptyIsCaughtUp(p.back, b);
    InOrder(p.forth, f);
    InOrder(p.back, b);
    hide InvAt, Regs.Empty;
  }

  /** A put of the queue loses its word exactly when the FIFO is full, and what the FIFO offers is the queue's front. */
  lemma QueueIsFifo<T>(s: Run<T>, k: Seen, marks: seq<nat>, lost: nat, x: T, mark: nat)
    requires InvAt(s, k) && s.regs.aw == 2 && |marks| == |s.written|
    ensures k.rd2 <= |s.read| <= |s.written|
    ensures var q := AsQueue(s, k, marks, lost);
            && (q.Put(x, mark).lost != q.lost <==> s.regs.Full())
            && (!s.regs.Empty() ==> q.Front(true) == Some(s.regs.DeqData()))
  {
    FullIsWholeBuffer(s, k);
    EmptyIsCaughtUp(s, k);
    InOrder(s, k);
    hide InvAt, Regs.Full, Regs.Empty, Regs.DeqData;
    assert Pow2(2) == 4;
  }

  /** A take and then a put, after which the writer may see more room. */
  predicate IsStep<T(==)>(q: BusFabric.Queue<T>, q': BusFabric.Queue<T>, takes: bool, put: Option<T>, mark: nat) {
    var taken := BusFabric.TakeIf(q, takes);
    && q'.words == taken.words + ToSeq(put) && q'.marks == taken.marks + (if put.Some? then [mark] else [])
    && q'.taken == taken.taken && q'.unseen <= taken.unseen
  }

  /** What an edge puts into the queue and takes from it, as its interfaces show it. */
  function Offered<T>(q: BusFabric.Queue<T>, e: Edge<T>): Option<T> {
    if !e.RdEdge? && e.enqValid && |q.words| + q.unseen < BusFabric.QUEUE_DEPTH then Some(e.data) else None
  }

  predicate Asked<T>(s: Run<T>, e: Edge<T>) {
    !e.WrEdge? && e.deqReady && !s.regs.Empty()
  }

  /** An edge of the FIFO is a take and a put of the queue, and its writer sees no less room than before. */
  lemma EdgeIsQueueStep<T>(s: Run<T>, e: Edge<T>, k: Seen, marks: seq<nat>, lost: nat, mark: nat) returns (k': Seen)
    requires InvAt(s, k) && s.regs.aw == 2 && |marks| == |s.written|
    ensures InvAt(Advance(s, e), k') && k.rd2 <= |s.read| <= |s.written|
    ensures k'.rd2 <= |Advance(s, e).read| <= |Advance(s, e).written|
    ensures var q := AsQueue(s, k, marks, lost);
            var put := Offered(q, e);
            var marks' := marks + (if put.Some? then [mark] else []);
            && |Advance(s, e).written| == |marks'|
            && IsStep(q, AsQueue(Advance(s, e), k', marks', lost), Asked(s, e), put, mark)
  {
    hide InvAt, Advance, IsStep;
    k' := EdgeCounts(s, e, k);
    StepOfQueue(s.written, marks, |s.read|, |s.read| - k.rd2, lost, Asked(s, e), Offered(AsQueue(s, k, marks, lost), e), mark,
                |Advance(s, e).read| - k'.rd2);
  }

  lemma EdgeCounts<T>(s: Run<T>, e: Edge<T>, k: Seen) returns (k': Seen)
    requires InvAt(s, k) && s.regs.aw == 2
    ensures InvAt(Advance(s, e), k') && k.rd2 <= k'.rd2 <= |Advance(s, e).read| <= |Advance(s, e).written|
    ensures s.regs.Typed() && k.rd2 <= |s.read| <= |s.written| && (Asked(s, e) ==> |s.read| < |s.written|)
    ensures Advance(s, e).written
            == s.written + if !e.RdEdge? && e.enqValid && |s.written| - k.rd2 < BusFabric.QUEUE_DEPTH then [e.data] else []
    ensures |Advance(s, e).read| == |s.read| + if Asked(s, e) then 1 else 0
  {
    assert Pow2(2) == 4;
    InOrder(s, k);
    InvShows(s, k);
    k' := EdgeMoves(s, e, k);
    InOrder(Advance(s, e), k');
    hide InvAt, Advance, Regs.Full, Regs.Empty, Regs.DeqData;
  }

  lemma StepOfQueue<T>(written: seq<T>, marks: seq<nat>, r: nat, unseen: nat, lost: nat, takes: bool, put: Option<T>, mark: nat,
                       unseen': nat)
    requires r <= |written| == |marks| && (takes ==> r < |written|) && unseen' <= unseen + if takes then 1 else 0
    ensures var r' := if takes then r + 1 else r;
            var written', marks' := written + ToSeq(put), marks + (if put.Some? then [mark] else []);
            IsStep(BusFabric.Queue(written[r..], marks[r..], r, unseen, lost),
                   BusFabric.Queue(written'[r'..], marks'[r'..], r', unseen', lost), takes, put, mark)
  {
    WordsMove(written, r, takes, ToSeq(put));
    WordsMove(marks, r, takes, if put.Some? then [mark] else []);
  }

  lemma WordsMove<T>(written: seq<T>, r: nat, takes: bool, put: seq<T>)
    requires r <= |written| && (takes ==> r < |written|)
    ensures (written + put)[if takes then r + 1 else r..] == (if takes then written[r..][1..] else written[r..]) + put
  {
  }
}
