/** The SPI bridge's read path: 128-bit words to bytes to bits, and bits to bytes at the other end. */
module Serial {
  import opened Options
  import opened Shifts

  const WORD_BYTES := 16
  const QUEUE_DEPTH := 16

  // ---------------------------------------------------------------------------
  // The three processes
  // ---------------------------------------------------------------------------

  /** `w[7:0]` */
  function Low(w: nat): Byte {
    w % 256
  }

  datatype Deserializer = Deserializer(buf: nat, idx: nat)

  /** The cells after a tick, whether it takes the word it saw, and the byte it puts. */
  function DeserTick(d: Deserializer, word: Option<nat>): (Deserializer, bool, Option<Byte>) {
    if d.idx == 0 then
      match word
      case Some(w) => (Deserializer(w / 256, 1), true, Some(Low(w)))
      case None => (Deserializer(0, 0), false, None)
    else
      (if d.idx == 15 then Deserializer(0, 0) else Deserializer(d.buf / 256, d.idx + 1), false, Some(Low(d.buf)))
  }

  class SpiBulkDeserializer {
    var wordBuf: nat
    var byteIdx: nat

    function State(): Deserializer
      reads this
    {
      Deserializer(wordBuf, byteIdx)
    }

    constructor ()
      ensures State() == Deserializer(0, 0)
    {
      wordBuf, byteIdx := 0, 0;
    }

    method Tick(word: Option<nat>) returns (takes: bool, byte: Option<Byte>)
      modifies this
      ensures (State(), takes, byte) == DeserTick(old(State()), word)
    {
      takes, byte := false, None;
      if byteIdx == 0 {
        match word
        case Some(w) =>
          takes, byte := true, Some(Low(w));
          wordBuf, byteIdx := w / 256, 1;
        case None =>
          wordBuf := 0;
      } else {
        byte := Some(Low(wordBuf));
        if byteIdx == 15 {
          wordBuf, byteIdx := 0, 0;
        } else {
          wordBuf, byteIdx := wordBuf / 256, byteIdx + 1;
        }
      }
    }
  }

  datatype Shifter = Shifter(sr: bv8, count: nat)

  function Top(sr: bv8): bool {
    sr & 0x80 != 0
  }

  /** The cells after a tick, whether it takes the byte it saw, and the bit on the pin; an idle tick puts
      a 0. */
  function ShifterTick(s: Shifter, byte: Option<bv8>): (Shifter, bool, bool) {
    if s.count == 0 then
      match byte
      case Some(b) => (Shifter(b << 1, 7), true, Top(b))
      case None => (Shifter(0, 0), false, false)
    else
      (Shifter(s.sr << 1, s.count - 1), false, Top(s.sr))
  }

  class SpiMisoShifter {
    var sr: bv8
    var count: nat

    function State(): Shifter
      reads this
    {
      Shifter(sr, count)
    }

    constructor ()
      ensures State() == Shifter(0, 0)
    {
      sr, count := 0, 0;
    }

    method Tick(byte: Option<bv8>) returns (takes: bool, pin: bool)
      modifies this
      ensures (State(), takes, pin) == ShifterTick(old(State()), byte)
    {
      takes, pin := false, false;
      if count == 0 {
        match byte
        case Some(b) =>
          takes, pin := true, Top(b);
          sr, count := b << 1, 7;
        case None =>
          sr := 0;
      } else {
        pin := Top(sr);
        sr, count := sr << 1, count - 1;
      }
    }
  }

  datatype Assembler = Assembler(sr: bv8, count: nat)

  function ShiftIn(sr: bv8, bit: bool): bv8 {
    (sr << 1) | if bit then 1 else 0
  }

  function AssemblerTick(a: Assembler, bit: bool): (Assembler, Option<bv8>) {
    if a.count == 7 then (Assembler(0, 0), Some(ShiftIn(a.sr, bit))) else (Assembler(ShiftIn(a.sr, bit), a.count + 1), None)
  }

  class SpiByteAssembler {
    var sr: bv8
    var count: nat

    function State(): Assembler
      reads this
    {
      Assembler(sr, count)
    }

    constructor ()
      ensures State() == Assembler(0, 0)
    {
      sr, count := 0, 0;
    }

    method Tick(bit: bool) returns (byte: Option<bv8>)
      modifies this
      ensures (State(), byte) == AssemblerTick(old(State()), bit)
    {
      var next := ShiftIn(sr, bit);
      if count == 7 {
        byte := Some(next);
        sr, count := 0, 0;
      } else {
        byte := None;
        sr, count := next, count + 1;
      }
    }
  }

  // ---------------------------------------------------------------------------
  // Bytes of words, bits of bytes
  // ---------------------------------------------------------------------------

  /** The first `n` bytes of a number, the lowest first. */
  function Bytes(w: nat, n: nat): (bs: seq<Byte>)
    ensures |bs| == n
  {
    if n == 0 then [] else [Low(w)] + Bytes(w / 256, n - 1)
  }

  function Number(bytes: seq<Byte>): nat {
    if bytes == [] then 0 else bytes[0] + 256 * Number(bytes[1..])
  }

  function Power256(n: nat): nat {
    if n == 0 then 1 else 256 * Power256(n - 1)
  }

  /** They are its little-endian bytes. */
  lemma {:induction false} BytesAreLittleEndian(w: nat, n: nat)
    requires w < Power256(n)
    ensures Number(Bytes(w, n)) == w
  {
    if n > 0 {
      BytesAreLittleEndian(w / 256, n - 1);
      assert Bytes(w, n)[1..] == Bytes(w / 256, n - 1);
    }
  }

  /** The bytes of a sequence of words. */
  function AllBytes(words: seq<nat>): seq<Byte> {
    if words == [] then [] else AllBytes(words[..|words| - 1]) + Bytes(words[|words| - 1], WORD_BYTES)
  }

  /** The shift register `k` bits into a byte, and what has been gathered from them. */
  function ShiftedOut(b: bv8, k: nat): bv8 {
    if k == 0 then b else ShiftedOut(b, k - 1) << 1
  }

  function Gathered(b: bv8, k: nat): bv8 {
    if k == 0 then 0 else ShiftIn(Gathered(b, k - 1), Top(ShiftedOut(b, k - 1)))
  }

  lemma OneMoreBit(b: bv8, k: nat)
    requires k > 0
    ensures ShiftedOut(b, k) == ShiftedOut(b, k - 1) << 1
    ensures Gathered(b, k) == ShiftIn(Gathered(b, k - 1), Top(ShiftedOut(b, k - 1)))
    ensures ShiftedOut(b, 0) == b && Gathered(b, 0) == 0
  {
  }

  lemma FourBits(b: bv8)
    ensures ShiftedOut(b, 4) == b << 4 && Gathered(b, 4) == b >> 4
  {
    hide ShiftedOut, Gathered;
    OneMoreBit(b, 1);
    assert ShiftedOut(b, 1) == b << 1 && Gathered(b, 1) == b >> 7;
    OneMoreBit(b, 2);
    assert ShiftedOut(b, 2) == b << 2 && Gathered(b, 2) == b >> 6;
    OneMoreBit(b, 3);
    assert ShiftedOut(b, 3) == b << 3 && Gathered(b, 3) == b >> 5;
    OneMoreBit(b, 4);
  }

  /** After eight bits the byte is back. */
  lemma EightBitsAreTheByte(b: bv8)
    ensures Gathered(b, 8) == b
  {
    hide ShiftedOut, Gathered;
    FourBits(b);
    OneMoreBit(b, 5);
    assert ShiftedOut(b, 5) == b << 5 && Gathered(b, 5) == b >> 3;
    OneMoreBit(b, 6);
    assert ShiftedOut(b, 6) == b << 6 && Gathered(b, 6) == b >> 2;
    OneMoreBit(b, 7);
    assert ShiftedOut(b, 7) == b << 7 && Gathered(b, 7) == b >> 1;
    OneMoreBit(b, 8);
  }

  // ---------------------------------------------------------------------------
  // The path
  // ---------------------------------------------------------------------------

  /** The processes, the byte queue between the first two, and the logs: words taken, bytes put, bytes
      the shifter took, bytes at the far end. `lost` counts bytes put into a full queue; `clocks` is how many
      bits of a word the far end has still to clock, and `begun` how many words it has begun. */
  datatype State = State(deser: Deserializer, queue: seq<Byte>, lost: nat, shifter: Shifter, assembler: Assembler,
                         clocks: nat, begun: nat,
                         words: seq<nat>, sent: seq<Byte>, taken: seq<Byte>, got: seq<bv8>)

  const RESET: State := State(Deserializer(0, 0), [], 0, Shifter(0, 0), Assembler(0, 0), 0, 0, [], [], [], [])

  function ToBits(b: Byte): bv8 {
    b as bv8
  }

  const WORD_BITS := 128

  /** One cycle of the SPI clock, every process on what the queues held before it. The far end waits for the
      first bit of a word and from there clocks 128 bits in, whatever the shifter does. */
  function Tick(s: State, word: Option<nat>): State {
    var (deser, takesWord, byte) := DeserTick(s.deser, word);
    var front := if s.queue != [] then Some(ToBits(s.queue[0])) else None;
    var (shifter, takesByte, pin) := ShifterTick(s.shifter, front);
    var begins := s.clocks == 0 && (s.shifter.count != 0 || takesByte);
    var (assembler, got) := if s.clocks > 0 || begins then AssemblerTick(s.assembler, pin) else (s.assembler, None);
    var left := if takesByte && s.queue != [] then s.queue[1..] else s.queue;
    var room := |s.queue| < QUEUE_DEPTH;
    State(deser,
          if room then left + ToSeq(byte) else left,
          if room || byte.None? then s.lost else s.lost + 1,
          shifter, assembler,
          if s.clocks > 0 then s.clocks - 1 else if begins then WORD_BITS - 1 else 0,
          if begins then s.begun + 1 else s.begun,
          if takesWord then s.words + ToSeq(word) else s.words,
          s.sent + ToSeq(byte),
          if takesByte && s.queue != [] then s.taken + [s.queue[0]] else s.taken,
          s.got + ToSeq(got))
  }

  function Run(s: State, words: seq<Option<nat>>): State
    decreases words
  {
    if words == [] then s else Run(Tick(s, words[0]), words[1..])
  }

  function AsBytes(bs: seq<Byte>): seq<bv8> {
    seq(|bs|, i requires 0 <= i < |bs| => ToBits(bs[i]))
  }

  /** The bytes put are those of the words taken, but for the rest of the last word. */
  predicate DeserInv(d: Deserializer, words: seq<nat>, sent: seq<Byte>) {
    && d.idx < WORD_BYTES && (d.idx > 0 ==> words != [])
    && AllBytes(words) == sent + Bytes(d.buf, if d.idx == 0 then 0 else WORD_BYTES - d.idx)
  }

  /** The two ends are at the same bit of the same byte. */
  predicate LineInv(s: Shifter, a: Assembler, taken: seq<Byte>, got: seq<bv8>) {
    if s.count == 0 then a == Assembler(0, 0) && got == AsBytes(taken)
    else
      && s.count < 8 && taken != [] && got == AsBytes(taken[..|taken| - 1])
      && var b, k := ToBits(taken[|taken| - 1]), 8 - s.count;
      s.sr == ShiftedOut(b, k) && a == Assembler(Gathered(b, k), k)
  }

  /** The far end counts the bits of the words it has begun; while a word is being put, its bytes wait in
      the queue. */
  predicate WordInv(s: State) {
    && |s.taken| <= WORD_BYTES * s.begun && s.begun <= |s.words|
    && s.clocks == 8 * (WORD_BYTES * s.begun - |s.taken|) + s.shifter.count
    && (s.deser.idx > 0 ==> s.queue != [])
  }

  predicate Inv(s: State) {
    && DeserInv(s.deser, s.words, s.sent)
    && (s.lost == 0 ==> s.sent == s.taken + s.queue && LineInv(s.shifter, s.assembler, s.taken, s.got) && WordInv(s))
  }

  lemma {:induction false} BytesOfWords(words: seq<nat>)
    ensures |AllBytes(words)| == WORD_BYTES * |words|
  {
    if words != [] {
      BytesOfWords(words[..|words| - 1]);
    }
  }

  /** Within a word the shifter never idles: it takes a byte every eight ticks, and the deserialiser puts one
      every tick. */
  lemma ShifterKeepsUp(s: State)
    requires Inv(s) && s.lost == 0 && s.clocks > 0
    ensures s.shifter.count != 0 || s.queue != []
  {
    BytesOfWords(s.words);
    hide LineInv, AllBytes;
  }

  lemma DeserKeeps(d: Deserializer, words: seq<nat>, sent: seq<Byte>, word: Option<nat>)
    requires DeserInv(d, words, sent)
    ensures var (d', takes, byte) := DeserTick(d, word);
            DeserInv(d', if takes then words + ToSeq(word) else words, sent + ToSeq(byte))
  {
  }

  /** A tick of the line: a byte is begun, is under way, or is complete at the far end. */
  lemma LineKeeps(s: Shifter, a: Assembler, taken: seq<Byte>, got: seq<bv8>, front: Option<Byte>)
    requires LineInv(s, a, taken, got)
    ensures var (s', takes, pin) := ShifterTick(s, if front.Some? then Some(ToBits(front.value)) else None);
            var (a', byte) := if s.count != 0 || takes then AssemblerTick(a, pin) else (a, None);
            LineInv(s', a', if takes then taken + ToSeq(front) else taken, got + ToSeq(byte))
            && (takes ==> front.Some?)
  {
    hide ShiftedOut, Gathered;
    if s.count == 0 {
      if front.Some? {
        OneMoreBit(ToBits(front.value), 1);
        assert (taken + [front.value])[..|taken|] == taken;
      }
    } else {
      var b := ToBits(taken[|taken| - 1]);
      OneMoreBit(b, 8 - s.count + 1);
      EightBitsAreTheByte(b);
      assert AsBytes(taken) == AsBytes(taken[..|taken| - 1]) + [b];
    }
  }

  lemma WordKeeps(s: State, word: Option<nat>)
    requires Inv(s) && Tick(s, word).lost == 0
    ensures WordInv(Tick(s, word))
  {
    hide LineInv, AllBytes, Bytes, AssemblerTick;
    BytesOfWords(s.words);
    if s.clocks > 0 {
      ShifterKeepsUp(s);
    }
  }

  lemma TickKeeps(s: State, word: Option<nat>)
    requires Inv(s)
    ensures Inv(Tick(s, word))
  {
    hide DeserInv, LineInv, WordInv;
    DeserKeeps(s.deser, s.words, s.sent, word);
    if Tick(s, word).lost == 0 {
      WordKeeps(s, word);
      if s.clocks > 0 {
        ShifterKeepsUp(s);
      }
      LineKeeps(s.shifter, s.assembler, s.taken, s.got, if s.queue != [] then Some(s.queue[0]) else None);
      QueueKeeps(s.taken, s.queue);
    }
  }

  lemma QueueKeeps(taken: seq<Byte>, queue: seq<Byte>)
    ensures queue != [] ==> taken + queue == (taken + [queue[0]]) + queue[1..]
    ensures forall more: seq<Byte> :: (taken + queue) + more == taken + (queue + more)
    ensures queue != [] ==>
              forall more: seq<Byte> :: (taken + queue) + more == (taken + [queue[0]]) + (queue[1..] + more)
  {
  }

  lemma {:induction false} RunKeeps(s: State, words: seq<Option<nat>>)
    requires Inv(s)
    ensures Inv(Run(s, words))
    decreases words
  {
    if words != [] {
      hide Inv, Tick;
      TickKeeps(s, words[0]);
      RunKeeps(Tick(s, words[0]), words[1..]);
    }
  }

  lemma Starts()
    ensures Inv(RESET)
  {
  }

  /** Main result. As long as no byte meets a full queue, the far end gathers the little-endian bytes of the
      words, in order; and once the path is at rest, all of them. */
  lemma SerialRoundTrip(words: seq<Option<nat>>)
    requires Run(RESET, words).lost == 0
    ensures var s := Run(RESET, words);
            && s.got <= AsBytes(AllBytes(s.words))
            && (s.deser.idx == 0 && s.queue == [] && s.shifter.count == 0 ==> s.got == AsBytes(AllBytes(s.words)))
  {
    hide Tick;
    Starts();
    RunKeeps(RESET, words);
    var s := Run(RESET, words);
    var rest := Bytes(s.deser.buf, if s.deser.idx == 0 then 0 else WORD_BYTES - s.deser.idx);
    assert AllBytes(s.words) == s.taken + (s.queue + rest);
    var done := if s.shifter.count == 0 then s.taken else s.taken[..|s.taken| - 1];
    assert AsBytes(done) <= AsBytes(AllBytes(s.words));
    if s.deser.idx == 0 && s.queue == [] {
      assert AllBytes(s.words) == s.taken;
    }
  }

  // ---------------------------------------------------------------------------
  // When nothing is lost
  // ---------------------------------------------------------------------------

  /** How long the byte queue may be when a word is taken: the shifter takes two bytes in the next fifteen
      ticks, or one when it has just begun a byte. */
  function Allowance(count: nat): nat {
    if count == 7 then 1 else 2
  }

  /** Words come only when the byte queue is that short. */
  predicate Fed(s: State, words: seq<Option<nat>>)
    decreases words
  {
    words == []
    || ((words[0].Some? && s.deser.idx == 0 ==> |s.queue| <= Allowance(s.shifter.count)) && Fed(Tick(s, words[0]), words[1..]))
  }

  /** The bytes the shifter takes from a queue that does not run dry, in so many ticks, at most fifteen. */
  function TakenIn(count: nat, ticks: nat): nat {
    (if count < ticks then 1 else 0) + (if count + 8 < ticks then 1 else 0)
  }

  predicate Bounded(s: State) {
    && s.deser.idx < WORD_BYTES && s.shifter.count < 8 && |s.queue| <= QUEUE_DEPTH
    && (s.deser.idx > 0 ==> s.queue != [])
  }

  /** How long the queue would be, were there room, when the last byte of the word is put. */
  function AtLastByte(s: State): int
    requires s.deser.idx < WORD_BYTES
  {
    |s.queue| + (15 - s.deser.idx) - TakenIn(s.shifter.count, 15 - s.deser.idx)
  }

  /** A byte is lost, or will be before the word is put. */
  predicate Overfull(s: State) {
    s.lost > 0 || (0 < s.deser.idx < WORD_BYTES && AtLastByte(s) >= QUEUE_DEPTH)
  }

  lemma TickKeepsLength(s: State, word: Option<nat>)
    requires Bounded(s)
    ensures Bounded(Tick(s, word))
    ensures Overfull(Tick(s, word)) <==>
            Overfull(s) || (s.deser.idx == 0 && word.Some? && |s.queue| > Allowance(s.shifter.count))
  {
    hide Bytes, AssemblerTick;
  }

  lemma {:induction false} RunIsOverfull(s: State, words: seq<Option<nat>>)
    requires Bounded(s)
    ensures Bounded(Run(s, words))
    ensures Overfull(Run(s, words)) <==> Overfull(s) || !Fed(s, words)
    decreases words
  {
    if words != [] {
      hide Tick, Overfull, Bounded;
      TickKeepsLength(s, words[0]);
      RunIsOverfull(Tick(s, words[0]), words[1..]);
    }
  }

  /** Between words, no byte has been lost exactly when every word came to a queue of at most two bytes, or of
      at most one when the shifter had just begun a byte; and then none is lost within a word either. */
  lemma LosesNothingIffFed(words: seq<Option<nat>>)
    ensures var s := Run(RESET, words);
            && (Fed(RESET, words) ==> s.lost == 0)
            && (s.deser.idx == 0 ==> (s.lost == 0 <==> Fed(RESET, words)))
  {
    RunIsOverfull(RESET, words);
  }

  /** A word that is seen between words is taken in that tick, and no other is. */
  lemma WordIsTaken(s: State, word: Option<nat>)
    ensures Tick(s, word).words == s.words + if s.deser.idx == 0 then ToSeq(word) else []
  {
    hide AssemblerTick;
  }

  /** The ticks until the path is at rest: eight for each byte still to be shifted. */
  function TicksLeft(s: State): nat
    requires Bounded(s)
  {
    8 * (|s.queue| + if s.deser.idx == 0 then 0 else WORD_BYTES - s.deser.idx) + s.shifter.count
  }

  lemma TickRunsDown(s: State)
    requires Bounded(s)
    ensures Bounded(Tick(s, None))
    ensures TicksLeft(Tick(s, None)) <= if TicksLeft(s) == 0 then 0 else TicksLeft(s) - 1
  {
    hide Bytes, AssemblerTick;
  }

  /** `n` ticks without a word. */
  function NoWords(n: nat): (words: seq<Option<nat>>)
    ensures |words| == n
  {
    if n == 0 then [] else [None] + NoWords(n - 1)
  }

  lemma {:induction false} RunsDown(s: State, n: nat)
    requires Bounded(s) && TicksLeft(s) <= n
    ensures Bounded(Run(s, NoWords(n))) && TicksLeft(Run(s, NoWords(n))) == 0
    ensures Run(s, NoWords(n)).words == s.words && Fed(s, NoWords(n))
    decreases n
  {
    if n > 0 {
      hide Tick, Bounded, TicksLeft;
      TickRunsDown(s);
      WordIsTaken(s, None);
      assert NoWords(n)[0] == None && NoWords(n)[1..] == NoWords(n - 1);
      RunsDown(Tick(s, None), n - 1);
    }
  }

  lemma {:induction false} RunThen(s: State, before: seq<Option<nat>>, after: seq<Option<nat>>)
    ensures Run(s, before + after) == Run(Run(s, before), after)
    ensures Fed(s, before + after) <==> Fed(s, before) && Fed(Run(s, before), after)
    decreases before
  {
    if before == [] {
      assert before + after == after;
    } else {
      hide Tick;
      assert (before + after)[0] == before[0] && (before + after)[1..] == before[1..] + after;
      RunThen(Tick(s, before[0]), before[1..], after);
    }
  }

  /** Main result, progress. After any words that come no faster than that, at most 255 ticks without one bring all the
      bytes of all of them to the far end. */
  lemma EveryByteArrives(words: seq<Option<nat>>) returns (n: nat)
    requires Fed(RESET, words)
    ensures n <= 255
    ensures Run(Run(RESET, words), NoWords(n)).got == AsBytes(AllBytes(Run(RESET, words).words))
  {
    hide Tick, Fed;
    RunIsOverfull(RESET, words);
    var s := Run(RESET, words);
    n := TicksLeft(s);
    RunsDown(s, n);
    RunThen(RESET, words, NoWords(n));
    LosesNothingIffFed(words + NoWords(n));
    SerialRoundTrip(words + NoWords(n));
  }
}
