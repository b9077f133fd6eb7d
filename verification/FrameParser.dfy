/** The SPI bridge's frame parser: a seven-byte header becomes a descriptor, and a write's payload follows. */
module FrameParser {
  import opened Options
  import opened Shifts

  const OP_READ := 1
  const OP_WRITE := 2

  datatype Desc = Desc(op: nat, addr: nat, len: nat)

  /** The cells. Phases 0 to 6 take the header, 7 emits the descriptor, 8 streams the payload, 9 waits
      for the chip select's reset. */
  datatype Cells = Cells(phase: nat, op: nat, addr: nat, len: nat, remain: nat)

  const RESET := Cells(0, 0, 0, 0, 0)

  /** What a tick does: the cells it leaves, whether it takes the byte it saw, and what it puts. */
  datatype Does = Does(cells: Cells, takes: bool, desc: Option<Desc>, data: Option<Byte>)

  function ParserTick(c: Cells, byte: Option<Byte>): Does {
    if c.phase == 7 then
      Does(if c.op == OP_WRITE then c.(phase := 8, remain := (c.len + 1) * 16) else c.(phase := 9, remain := 0),
           false, Some(Desc(c.op, c.addr, c.len)), None)
    else if c.phase == 8 then
      if c.remain == 0 then Does(c.(phase := 9), false, None, None)
      else if byte.Some? then Does(c.(remain := c.remain - 1), true, None, byte)
      else Does(c, false, None, None)
    else if c.phase == 9 then
      Does(c.(remain := 0), false, None, None)
    else if byte.Some? then
      Does(TakeHeader(c, byte.value), true, None, None)
    else
      Does(c, false, None, None)
  }

  /** One byte of the header. The length register is 16 bits wide. */
  function TakeHeader(c: Cells, byte: Byte): Cells {
    if c.phase == 0 then Cells(1, byte, 0, 0, 0)
    else if c.phase == 1 then Cells(2, c.op, Left(byte, 24), 0, 0)
    else if c.phase == 2 then Cells(3, c.op, Or(c.addr, Left(byte, 16)), 0, 0)
    else if c.phase == 3 then Cells(4, c.op, Or(c.addr, Left(byte, 8)), 0, 0)
    else if c.phase == 4 then Cells(5, c.op, Or(c.addr, byte), 0, 0)
    else if c.phase == 5 then Cells(6, c.op, c.addr, Left(byte, 8) % 0x1_0000, 0)
    else Cells(7, c.op, c.addr, Or(c.len, byte), 0)
  }

  class SpiFrameParser {
    var phase: nat
    var opReg: nat
    var addrReg: nat
    var lenReg: nat
    var wrRemain: nat

    function State(): Cells
      reads this
    {
      Cells(phase, opReg, addrReg, lenReg, wrRemain)
    }

    constructor ()
      ensures State() == RESET
    {
      phase, opReg, addrReg, lenReg, wrRemain := 0, 0, 0, 0, 0;
    }

    method Tick(byte: Option<Byte>) returns (takes: bool, desc: Option<Desc>, data: Option<Byte>)
      modifies this
      ensures Does(State(), takes, desc, data) == ParserTick(old(State()), byte)
    {
      hide Left, Or;
      takes, desc, data := false, None, None;
      if phase == 7 {
        desc := Some(Desc(opReg, addrReg, lenReg));
        if opReg == OP_WRITE {
          phase, wrRemain := 8, (lenReg + 1) * 16;
        } else {
          phase, wrRemain := 9, 0;
        }
      } else if phase == 8 {
        if wrRemain == 0 {
          phase := 9;
        } else {
          match byte
          case Some(b) => takes, data, wrRemain := true, Some(b), wrRemain - 1;
          case None =>
        }
      } else if phase == 9 {
        wrRemain := 0;
      } else {
        match byte
        case Some(b) =>
          takes := true;
          if phase == 0 {
            phase, opReg, addrReg, lenReg := 1, b, 0, 0;
          } else if phase == 1 {
            phase, addrReg, lenReg := 2, Left(b, 24), 0;
          } else if phase == 2 {
            phase, addrReg, lenReg := 3, Or(addrReg, Left(b, 16)), 0;
          } else if phase == 3 {
            phase, addrReg, lenReg := 4, Or(addrReg, Left(b, 8)), 0;
          } else if phase == 4 {
            phase, addrReg, lenReg := 5, Or(addrReg, b), 0;
          } else if phase == 5 {
            phase, lenReg := 6, Left(b, 8) % 0x1_0000;
          } else {
            phase, lenReg := 7, Or(lenReg, b);
          }
          wrRemain := 0;
        case None =>
      }
    }
  }

  // ---------------------------------------------------------------------------
  // The frame
  // ---------------------------------------------------------------------------

  function BigEndian(bytes: seq<Byte>): nat {
    if bytes == [] then 0 else 256 * BigEndian(bytes[..|bytes| - 1]) + bytes[|bytes| - 1]
  }

  function DescOf(header: seq<Byte>): Desc
    requires |header| == 7
  {
    Desc(header[0], BigEndian(header[1..5]), BigEndian(header[5..]))
  }

  /** The payload a frame announces. */
  function PayloadSize(d: Desc): nat {
    if d.op == OP_WRITE then 16 * (d.len + 1) else 0
  }

  /** The parser and what it has taken and put since reset. */
  datatype History = History(cells: Cells, taken: seq<Byte>, descs: seq<Desc>, sent: seq<Byte>)

  const START := History(RESET, [], [], [])

  function Step(h: History, byte: Option<Byte>): History {
    var does := ParserTick(h.cells, byte);
    History(does.cells, if does.takes then h.taken + ToSeq(byte) else h.taken,
            h.descs + ToSeq(does.desc), h.sent + ToSeq(does.data))
  }

  function Run(h: History, bytes: seq<Option<Byte>>): History
    decreases bytes
  {
    if bytes == [] then h else Run(Step(h, bytes[0]), bytes[1..])
  }

  /** The registers hold the header bytes taken so far, each in its place. */
  predicate InHeader(c: Cells, taken: seq<Byte>) {
    var n := |taken|;
    && n <= 7 && c.phase == n
    && (n > 0 ==> c.op == taken[0])
    && (n == 2 ==> c.addr == Left(BigEndian(taken[1..2]), 24))
    && (n == 3 ==> c.addr == Left(BigEndian(taken[1..3]), 16))
    && (n == 4 ==> c.addr == Left(BigEndian(taken[1..4]), 8))
    && (n >= 5 ==> c.addr == BigEndian(taken[1..5]))
    && (n == 6 ==> c.len == Left(BigEndian(taken[5..6]), 8))
    && (n == 7 ==> c.len == BigEndian(taken[5..7]))
  }

  predicate InPayload(c: Cells, taken: seq<Byte>, descs: seq<Desc>, sent: seq<Byte>) {
    && |taken| >= 7
    && var d := DescOf(taken[..7]);
    && descs == [d] && sent == taken[7..] && |sent| <= PayloadSize(d)
    && (c.phase == 8 || c.phase == 9)
    && (c.phase == 8 ==> d.op == OP_WRITE && c.remain == PayloadSize(d) - |sent|)
    && (c.phase == 9 ==> |sent| == PayloadSize(d))
  }

  predicate Parsed(h: History) {
    if h.descs == [] then InHeader(h.cells, h.taken) && h.sent == []
    else InPayload(h.cells, h.taken, h.descs, h.sent)
  }

  lemma BigEndianMore(bytes: seq<Byte>, byte: Byte)
    ensures BigEndian(bytes + [byte]) == 256 * BigEndian(bytes) + byte
  {
  }

  lemma ByteAt(taken: seq<Byte>, byte: Byte, from: nat, k: nat)
    requires from <= |taken|
    ensures BigEndian((taken + [byte])[from..|taken| + 1]) == 256 * BigEndian(taken[from..]) + byte
    ensures Or(Left(BigEndian(taken[from..]), k + 8), Left(byte, k))
            == Left(BigEndian((taken + [byte])[from..|taken| + 1]), k)
  {
    hide Left, Or;
    assert (taken + [byte])[from..|taken| + 1] == taken[from..] + [byte];
    BigEndianMore(taken[from..], byte);
    AppendByte(BigEndian(taken[from..]), byte, k);
  }

  lemma HeaderByte(c: Cells, taken: seq<Byte>, byte: Byte)
    requires InHeader(c, taken) && |taken| < 7
    ensures InHeader(TakeHeader(c, byte), taken + [byte])
  {
    hide Left, Or, BigEndian;
    var more, n := taken + [byte], |taken|;
    assert (n >= 1 ==> taken[1..n] == taken[1..]) && (n >= 5 ==> taken[5..n] == taken[5..]);
    if n == 1 {
      FirstByte(byte, 24);
      assert more[1..2] == [byte];
    } else if n == 2 {
      ByteAt(taken, byte, 1, 16);
    } else if n == 3 {
      ByteAt(taken, byte, 1, 8);
    } else if n == 4 {
      ByteAt(taken, byte, 1, 0);
      NoPlaces(byte);
      NoPlaces(BigEndian(more[1..5]));
    } else if n == 5 {
      FirstByte(byte, 8);
      FourPlaces(byte, 4);
      FourPlaces(16 * byte, 0);
      NoPlaces(256 * byte);
      assert more[5..6] == [byte] && more[1..5] == taken[1..5];
    } else if n == 6 {
      ByteAt(taken, byte, 5, 0);
      NoPlaces(byte);
      NoPlaces(BigEndian(more[5..7]));
      assert more[1..5] == taken[1..5];
    }
  }

  lemma FirstByte(byte: Byte, k: nat)
    ensures BigEndian([byte]) == byte
  {
  }

  lemma StepKeeps(h: History, byte: Option<Byte>)
    requires Parsed(h)
    ensures Parsed(Step(h, byte))
  {
    hide BigEndian, TakeHeader;
    if h.descs == [] {
      if h.cells.phase < 7 && byte.Some? {
        HeaderByte(h.cells, h.taken, byte.value);
      } else if h.cells.phase == 7 {
        assert h.taken[..7] == h.taken && h.taken[5..7] == h.taken[5..];
      }
    } else if byte.Some? {
      assert (h.taken + [byte.value])[..7] == h.taken[..7];
    }
  }

  lemma {:induction false} RunKeeps(h: History, bytes: seq<Option<Byte>>)
    requires Parsed(h)
    ensures Parsed(Run(h, bytes))
    decreases bytes
  {
    if bytes != [] {
      StepKeeps(h, bytes[0]);
      RunKeeps(Step(h, bytes[0]), bytes[1..]);
    }
  }

  /** Main result. Once the parser has put a descriptor, it is the only one and spells the seven bytes of
      the header, big-endian; the bytes after them have been passed on in order, never more than a
      write announces and none otherwise, and exactly that many when the parser is done. */
  lemma FrameIsParsed(bytes: seq<Option<Byte>>)
    ensures var end := Run(START, bytes);
            if end.descs == [] then |end.taken| <= 7 && end.sent == []
            else
              && |end.taken| >= 7 && end.descs == [DescOf(end.taken[..7])] && end.sent == end.taken[7..]
              && |end.sent| <= PayloadSize(end.descs[0])
              && (end.cells.phase == 9 ==> |end.sent| == PayloadSize(end.descs[0]))
  {
    hide DescOf, PayloadSize;
    RunKeeps(START, bytes);
  }

  // ---------------------------------------------------------------------------
  // Progress
  // ---------------------------------------------------------------------------

  /** The ticks in which a byte waits. */
  function Waiting(bytes: seq<Option<Byte>>): nat {
    if bytes == [] then 0 else (if bytes[0].Some? then 1 else 0) + Waiting(bytes[1..])
  }

  /** After `n` such ticks the parser is at least that far. */
  predicate Reached(h: History, n: nat) {
    || h.cells.phase == 9
    || (h.cells.phase == 8 && n <= 8 + |h.sent|)
    || n <= h.cells.phase <= 7
  }

  lemma StepReaches(h: History, byte: Option<Byte>, n: nat)
    requires Parsed(h) && Reached(h, n)
    ensures Reached(Step(h, byte), if byte.Some? then n + 1 else n)
  {
    hide BigEndian, DescOf;
  }

  lemma {:induction false} RunReaches(h: History, bytes: seq<Option<Byte>>, n: nat)
    requires Parsed(h) && Reached(h, n)
    ensures Reached(Run(h, bytes), n + Waiting(bytes))
    decreases bytes
  {
    if bytes != [] {
      hide Parsed, Reached, Step;
      StepKeeps(h, bytes[0]);
      StepReaches(h, bytes[0], n);
      RunReaches(Step(h, bytes[0]), bytes[1..], if bytes[0].Some? then n + 1 else n);
    }
  }

  /** Whatever the gaps: once a byte has waited in eight ticks there is a descriptor, and once one has waited in nine more
      than the payload it announces the frame is done, with exactly that payload passed on. */
  lemma FrameCompletes(bytes: seq<Option<Byte>>)
    requires Waiting(bytes) >= 8
    ensures var end := Run(START, bytes);
            && |end.taken| >= 7 && end.descs == [DescOf(end.taken[..7])]
            && (Waiting(bytes) >= 9 + PayloadSize(end.descs[0]) ==>
                  end.cells.phase == 9 && |end.sent| == PayloadSize(end.descs[0]) && end.sent == end.taken[7..])
  {
    hide DescOf, PayloadSize;
    RunKeeps(START, bytes);
    RunReaches(START, bytes, 0);
    FrameIsParsed(bytes);
  }
}
