/** The serial link: the transmitter's frames, sampled by the receiver. */
module Uart {
  import opened Options

  // ---------------------------------------------------------------------------
  // Transmitter
  // ---------------------------------------------------------------------------

  /** What the 16-bit counters hold of the divisor, and of half of it. */
  function Full(baudDiv: nat): nat {
    baudDiv % 0x1_0000
  }

  function Half(baudDiv: nat): nat {
    baudDiv / 2 % 0x1_0000
  }

  datatype Tx = Tx(sr: bv10, baudCnt: nat, bitCnt: nat)

  /** What a tick finds: a clear-to-send sample, active low, and a byte waiting to be sent. */
  datatype TxInput = TxInput(cts: Option<bool>, txData: Option<bv8>)

  const TX_RESET := Tx(0x3FF, 0, 0)

  function Pin(tx: Tx): bool {
    tx.sr & 1 == 1
  }

  /** The byte a tick takes, if it takes one. */
  function Loads(tx: Tx, input: TxInput): Option<bv8> {
    if tx.bitCnt == 0 && (input.cts.None? || !input.cts.value) then input.txData else None
  }

  function Frame(byte: bv8): bv10 {
    0x200 | ((byte as bv10) << 1)
  }

  /** One bit further; ones follow the frame. */
  function Shift(sr: bv10): bv10 {
    (sr >> 1) | 0x200
  }

  function TxStep(div: nat, tx: Tx, input: TxInput): Tx {
    if tx.bitCnt == 0 then
      match Loads(tx, input)
      case Some(byte) => Tx(Frame(byte), div, 10)
      case None => Tx(tx.sr, 0, 0)
    else if tx.baudCnt == 0 then
      Tx(Shift(tx.sr), div, tx.bitCnt - 1)
    else
      Tx(tx.sr, tx.baudCnt - 1, tx.bitCnt)
  }

  class UartTx {
    const baudDiv: nat
    var sr: bv10
    var baudCnt: nat
    var bitCnt: nat

    function Cells(): Tx
      reads this
    {
      Tx(sr, baudCnt, bitCnt)
    }

    constructor (baudDiv: nat)
      ensures this.baudDiv == baudDiv && Cells() == TX_RESET
    {
      this.baudDiv := baudDiv;
      sr, baudCnt, bitCnt := 0x3FF, 0, 0;
    }

    method Tick(cts: Option<bool>, txData: Option<bv8>) returns (pin: bool, taken: Option<bv8>)
      modifies this
      ensures pin == Pin(old(Cells()))
      ensures taken == Loads(old(Cells()), TxInput(cts, txData))
      ensures Cells() == TxStep(Full(baudDiv), old(Cells()), TxInput(cts, txData))
    {
      pin, taken := sr & 1 == 1, None;
      if bitCnt == 0 {
        baudCnt := 0;
        if cts.None? || !cts.value {
          match txData
          case Some(byte) =>
            taken := txData;
            sr, baudCnt, bitCnt := Frame(byte), Full(baudDiv), 10;
          case None =>
        }
      } else if baudCnt == 0 {
        sr, baudCnt, bitCnt := Shift(sr), Full(baudDiv), bitCnt - 1;
      } else {
        baudCnt := baudCnt - 1;
      }
    }
  }

  // ---------------------------------------------------------------------------
  // Receiver
  // ---------------------------------------------------------------------------

  /** Phases: 0 idle, 1 start, 2 data, 3 stop. */
  datatype Rx = Rx(ph: nat, sr: bv8, bc: nat, bn: nat)

  const RX_IDLE := Rx(0, 0, 0, 0)

  function ShiftIn(sr: bv8, bit: bool): bv8 {
    (sr >> 1) | (if bit then 0x80 else 0)
  }

  function RxStep(div: nat, half: nat, rx: Rx, pin: Option<bool>): Rx {
    match pin
    case None => rx
    case Some(bit) =>
      if rx.ph == 0 then
        if !bit then Rx(1, 0, half, 0) else RX_IDLE
      else if rx.bc != 0 then
        rx.(bc := rx.bc - 1)
      else if rx.ph == 1 then
        if !bit then Rx(2, 0, div, 0) else RX_IDLE
      else if rx.ph == 2 then
        if rx.bn == 7 then Rx(3, 0, div, 0) else Rx(2, ShiftIn(rx.sr, bit), div, rx.bn + 1)
      else
        RX_IDLE
  }

  /** The byte a tick puts, if it puts one. */
  function Puts(rx: Rx, pin: Option<bool>): Option<bv8> {
    if pin.Some? && rx.bc == 0 && rx.ph == 2 && rx.bn == 7 then Some(ShiftIn(rx.sr, pin.value)) else None
  }

  class UartRx {
    const baudDiv: nat
    var ph: nat
    var sr: bv8
    var bc: nat
    var bn: nat

    function Cells(): Rx
      reads this
    {
      Rx(ph, sr, bc, bn)
    }

    constructor (baudDiv: nat)
      ensures this.baudDiv == baudDiv && Cells() == RX_IDLE
    {
      this.baudDiv := baudDiv;
      ph, sr, bc, bn := 0, 0, 0, 0;
    }

    method Tick(pin: Option<bool>) returns (put: Option<bv8>)
      modifies this
      ensures put == Puts(old(Cells()), pin)
      ensures Cells() == RxStep(Full(baudDiv), Half(baudDiv), old(Cells()), pin)
    {
      put := None;
      match pin
      case None =>
      case Some(bit) =>
        if ph == 0 {
          if !bit {
            ph, bc, bn, sr := 1, Half(baudDiv), 0, 0;
          } else {
            ph, bc, bn, sr := 0, 0, 0, 0;
          }
        } else if bc == 0 {
          if ph == 1 {
            if !bit {
              ph, bc, bn, sr := 2, Full(baudDiv), 0, 0;
            } else {
              ph, bc, bn, sr := 0, 0, 0, 0;
            }
          } else if ph == 2 {
            if bn == 7 {
              put := Some(ShiftIn(sr, bit));
              ph, bc, bn, sr := 3, Full(baudDiv), 0, 0;
            } else {
              ph, bc, bn, sr := 2, Full(baudDiv), bn + 1, ShiftIn(sr, bit);
            }
          } else {
            ph, bc, bn, sr := 0, 0, 0, 0;
          }
        } else {
          bc := bc - 1;
        }
    }
  }

  // ---------------------------------------------------------------------------
  // The link
  // ---------------------------------------------------------------------------

  function TxAll(div: nat, tx: Tx, inputs: seq<TxInput>): Tx
    decreases inputs
  {
    if inputs == [] then tx else TxAll(div, TxStep(div, tx, inputs[0]), inputs[1..])
  }

  /** The line level in each tick. */
  function Line(div: nat, tx: Tx, inputs: seq<TxInput>): seq<bool>
    decreases inputs
  {
    if inputs == [] then [] else [Pin(tx)] + Line(div, TxStep(div, tx, inputs[0]), inputs[1..])
  }

  /** The bytes the transmitter takes. */
  function Sent(div: nat, tx: Tx, inputs: seq<TxInput>): seq<bv8>
    decreases inputs
  {
    if inputs == [] then [] else ToSeq(Loads(tx, inputs[0])) + Sent(div, TxStep(div, tx, inputs[0]), inputs[1..])
  }

  /** The bytes the receiver puts. */
  function Received(div: nat, half: nat, rx: Rx, pins: seq<Option<bool>>): seq<bv8>
    decreases pins
  {
    if pins == [] then [] else ToSeq(Puts(rx, pins[0])) + Received(div, half, RxStep(div, half, rx, pins[0]), pins[1..])
  }

  /** The samples that do arrive. */
  function Samples(pins: seq<Option<bool>>): seq<bool> {
    if pins == [] then [] else ToSeq(pins[0]) + Samples(pins[1..])
  }

  /** The transmit register when `i` bits of the frame have been shifted out. */
  function TxSr(byte: bv8, i: nat): bv10 {
    if i == 0 then Frame(byte) else Shift(TxSr(byte, i - 1))
  }

  /** The receive register when the `i` low bits have been shifted in. */
  function RxSr(byte: bv8, i: nat): bv8 {
    if i == 0 then 0 else ShiftIn(RxSr(byte, i - 1), Pin(Tx(TxSr(byte, i), 0, 0)))
  }

  predicate DataBit(byte: bv8, i: nat)
    requires 1 <= i <= 8
  {
    (byte >> (i - 1)) & 1 == 1
  }

  /** The line carries a start bit, the byte from its low bit up, and a stop bit. */
  lemma {:induction false} ShiftedFrame(byte: bv8, i: nat)
    requires i <= 10
    ensures TxSr(byte, i) == (Frame(byte) >> i) | !(0x3FF >> i)
    ensures TxSr(byte, i) & 1 == 1 <==> i > 8 || (i > 0 && DataBit(byte, i))
  {
    if i > 0 {
      ShiftedFrame(byte, i - 1);
    }
  }

  lemma NothingShiftedIn(byte: bv8)
    ensures RxSr(byte, 0) == 0
  {
  }

  lemma ShiftedIn(byte: bv8, i: nat)
    requires 1 <= i <= 8
    ensures RxSr(byte, i) == ShiftIn(RxSr(byte, i - 1), DataBit(byte, i))
  {
    ShiftedFrame(byte, i);
  }

  /** Bits shifted in fill the receive register from the top; after eight it holds the byte. */
  lemma EightBitsAreTheByte(byte: bv8)
    ensures RxSr(byte, 8) == byte
  {
    hide RxSr, TxSr;
    NothingShiftedIn(byte);
    ShiftedIn(byte, 1);
    assert RxSr(byte, 1) == byte << 7;
    ShiftedIn(byte, 2);
    assert RxSr(byte, 2) == byte << 6;
    ShiftedIn(byte, 3);
    assert RxSr(byte, 3) == byte << 5;
    ShiftedIn(byte, 4);
    assert RxSr(byte, 4) == byte << 4;
    ShiftedIn(byte, 5);
    assert RxSr(byte, 5) == byte << 3;
    ShiftedIn(byte, 6);
    assert RxSr(byte, 6) == byte << 2;
    ShiftedIn(byte, 7);
    assert RxSr(byte, 7) == byte << 1;
    ShiftedIn(byte, 8);
    assert RxSr(byte, 8) == byte << 0;
  }

  /** The tick, counted from a sampling point's own bit cell, in which the receiver samples. */
  function SampleAt(half: nat): nat {
    half + 1
  }

  /** Where the receiver stands when the transmitter is in tick `o` of bit cell `i` of a frame: cell 0
      is the start bit, 1 to 8 the data bits, 9 the stop bit. */
  function RxAt(div: nat, half: nat, byte: bv8, i: nat, o: nat): Rx
    requires o <= div
  {
    var waitsFor := if o <= SampleAt(half) then i else i + 1;
    var bc := if o <= SampleAt(half) then SampleAt(half) - o else SampleAt(half) + div + 1 - o;
    if i == 0 && o == 0 then RX_IDLE
    else if waitsFor == 0 then Rx(1, 0, bc, 0)
    else if waitsFor <= 8 then Rx(2, RxSr(byte, waitsFor - 1), bc, waitsFor - 1)
    else if waitsFor == 9 then Rx(3, 0, bc, 0)
    else RX_IDLE
  }

  /** The two ends of the link belong together. `byte` is the one in the current or last frame, and it
      is owed from the tick it is taken until the tick it is put. */
  ghost predicate Linked(div: nat, half: nat, tx: Tx, rx: Rx, byte: bv8) {
    if tx.bitCnt == 0 then
      tx.sr == 0x3FF && rx == RX_IDLE
    else
      && tx.bitCnt <= 10 && tx.baudCnt <= div
      && tx.sr == TxSr(byte, 10 - tx.bitCnt)
      && rx == RxAt(div, half, byte, 10 - tx.bitCnt, div - tx.baudCnt)
  }

  function Owed(div: nat, half: nat, tx: Tx, byte: bv8): seq<bv8> {
    if tx.bitCnt > 2 || (tx.bitCnt == 2 && div - tx.baudCnt <= SampleAt(half)) then [byte] else []
  }

  /** One tick of both ends. Every sample falls inside the bit cell it is meant for. */
  lemma TickKeepsLink(div: nat, half: nat, tx: Tx, rx: Rx, byte: bv8, input: TxInput) returns (byte': bv8)
    requires half < div && Linked(div, half, tx, rx, byte)
    ensures Linked(div, half, TxStep(div, tx, input), RxStep(div, half, rx, Some(Pin(tx))), byte')
    ensures Owed(div, half, tx, byte) + ToSeq(Loads(tx, input)) ==
            ToSeq(Puts(rx, Some(Pin(tx)))) + Owed(div, half, TxStep(div, tx, input), byte')
  {
    if tx.bitCnt == 0 {
      byte' := if Loads(tx, input).Some? then Loads(tx, input).value else byte;
    } else {
      byte' := byte;
      FrameTick(div, half, tx, rx, byte, input);
    }
  }

  lemma FrameTick(div: nat, half: nat, tx: Tx, rx: Rx, byte: bv8, input: TxInput)
    requires half < div && tx.bitCnt > 0 && Linked(div, half, tx, rx, byte)
    ensures Linked(div, half, TxStep(div, tx, input), RxStep(div, half, rx, Some(Pin(tx))), byte)
    ensures Owed(div, half, tx, byte) == ToSeq(Puts(rx, Some(Pin(tx)))) + Owed(div, half, TxStep(div, tx, input), byte)
  {
    hide TxSr, Frame, Shift, ShiftIn, DataBit, RxStep, RxAt, RxSr, Puts;
    var i := 10 - tx.bitCnt;
    ShiftedFrame(byte, i);
    TxFollows(byte, i);
    RxFollows(div, half, byte, i, div - tx.baudCnt, Pin(tx));
    RxEnds(div, half, byte);
  }

  lemma TxFollows(byte: bv8, i: nat)
    requires i <= 9
    ensures TxSr(byte, i + 1) == Shift(TxSr(byte, i))
    ensures TxSr(byte, 10) == 0x3FF
  {
    ShiftedFrame(byte, 10);
  }

  lemma RxEnds(div: nat, half: nat, byte: bv8)
    ensures RxAt(div, half, byte, 10, 0) == RX_IDLE && RxSr(byte, 8) == byte
  {
    EightBitsAreTheByte(byte);
  }

  /** The receiver's next state within a frame. */
  lemma RxFollows(div: nat, half: nat, byte: bv8, i: nat, o: nat, pin: bool)
    requires half < div && i <= 9 && o <= div
    requires pin <==> i > 8 || (i > 0 && DataBit(byte, i))
    ensures var rx := RxAt(div, half, byte, i, o);
            && RxStep(div, half, rx, Some(pin)) == (if o == div then RxAt(div, half, byte, i + 1, 0) else RxAt(div, half, byte, i, o + 1))
            && Puts(rx, Some(pin)) == if i == 8 && o == SampleAt(half) then Some(RxSr(byte, 8)) else None
  {
    hide TxSr, Frame, Shift, ShiftIn, DataBit;
    if 1 <= i <= 8 && o == SampleAt(half) {
      ShiftedFrame(byte, i);
      assert RxSr(byte, i) == ShiftIn(RxSr(byte, i - 1), pin);
    }
  }

  lemma {:induction false} SilentLine(div: nat, half: nat, rx: Rx, pins: seq<Option<bool>>)
    requires Samples(pins) == []
    ensures Received(div, half, rx, pins) == []
    decreases pins
  {
    if pins != [] {
      SilentLine(div, half, rx, pins[1..]);
    }
  }

  /** What the receiver owes when the transmitter stops: nothing once the last frame is out. */
  lemma {:induction false} LinkRuns(div: nat, half: nat, tx: Tx, rx: Rx, byte: bv8, inputs: seq<TxInput>, pins: seq<Option<bool>>)
    returns (byte': bv8)
    requires half < div && Linked(div, half, tx, rx, byte)
    requires Samples(pins) == Line(div, tx, inputs)
    ensures Owed(div, half, tx, byte) + Sent(div, tx, inputs) == Received(div, half, rx, pins) + Owed(div, half, TxAll(div, tx, inputs), byte')
    decreases |inputs| + |pins|
  {
    if pins != [] && pins[0] == None {
      byte' := LinkRuns(div, half, tx, rx, byte, inputs, pins[1..]);
    } else if inputs == [] {
      SilentLine(div, half, rx, pins);
      byte' := byte;
    } else {
      hide Linked, RxStep, TxStep, Puts, Loads, Pin, Owed, Samples;
      byte' := LinkTick(div, half, tx, rx, byte, inputs, pins);
    }
  }

  lemma {:induction false} LinkTick(div: nat, half: nat, tx: Tx, rx: Rx, byte: bv8, inputs: seq<TxInput>, pins: seq<Option<bool>>)
    returns (byte': bv8)
    requires half < div && Linked(div, half, tx, rx, byte)
    requires Samples(pins) == Line(div, tx, inputs) && inputs != [] && (pins == [] || pins[0].Some?)
    ensures Owed(div, half, tx, byte) + Sent(div, tx, inputs) == Received(div, half, rx, pins) + Owed(div, half, TxAll(div, tx, inputs), byte')
    decreases |inputs| + |pins|, 0
  {
    hide Linked, RxStep, TxStep, Puts, Loads, Pin, Owed;
    assert Line(div, tx, inputs)[0] == Pin(tx);
    var next := TickKeepsLink(div, half, tx, rx, byte, inputs[0]);
    var tx', rx' := TxStep(div, tx, inputs[0]), RxStep(div, half, rx, pins[0]);
    assert Line(div, tx, inputs)[1..] == Line(div, tx', inputs[1..]);
    assert Samples(pins)[1..] == Samples(pins[1..]);
    byte' := LinkRuns(div, half, tx', rx', next, inputs[1..], pins[1..]);
    Regroup(Owed(div, half, tx, byte), ToSeq(Loads(tx, inputs[0])), Sent(div, tx', inputs[1..]), ToSeq(Puts(rx, pins[0])),
            Owed(div, half, tx', next), Received(div, half, rx', pins[1..]), Owed(div, half, TxAll(div, tx, inputs), byte'));
  }

  lemma Regroup(owed: seq<bv8>, loaded: seq<bv8>, sent: seq<bv8>, put: seq<bv8>, next: seq<bv8>, got: seq<bv8>, last: seq<bv8>)
    requires owed + loaded == put + next && next + sent == got + last
    ensures owed + (loaded + sent) == (put + got) + last
  {
    assert owed + (loaded + sent) == (put + next) + sent == put + (got + last);
  }

  /** On this traffic the receiver puts the bytes the transmitter took, in order, all but at most the one in
      flight; and all of them once the transmitter is idle. */
  predicate Delivered(div: nat, half: nat, inputs: seq<TxInput>, pins: seq<Option<bool>>) {
    var sent, got := Sent(div, TX_RESET, inputs), Received(div, half, RX_IDLE, pins);
    && got <= sent && |sent| <= |got| + 1
    && (TxAll(div, TX_RESET, inputs).bitCnt == 0 ==> got == sent)
  }

  /** When half a bit cell is shorter than the cell: for every byte sequence, every gap and clear-to-send
      pattern, and every delay on a line that loses no level. */
  lemma LoopbackDelivers(div: nat, half: nat, inputs: seq<TxInput>, pins: seq<Option<bool>>)
    requires half < div && Samples(pins) == Line(div, TX_RESET, inputs)
    ensures Delivered(div, half, inputs, pins)
  {
    var byte := LinkRuns(div, half, TX_RESET, RX_IDLE, 0, inputs, pins);
    var sent, got := Sent(div, TX_RESET, inputs), Received(div, half, RX_IDLE, pins);
    assert sent == got + Owed(div, half, TxAll(div, TX_RESET, inputs), byte);
  }

  // ---------------------------------------------------------------------------
  // When a byte is taken, and how long its frame is
  // ---------------------------------------------------------------------------

  /** Sixteen bits: a divisor below 65536 as it is, any other without its higher bits. */
  lemma CountersHold(baudDiv: nat)
    ensures baudDiv < 0x1_0000 ==> Full(baudDiv) == baudDiv && Half(baudDiv) == baudDiv / 2
    ensures Full(baudDiv + 0x1_0000) == Full(baudDiv) && Half(baudDiv + 0x2_0000) == Half(baudDiv)
  {
  }

  lemma {:induction false} TxAllThen(div: nat, tx: Tx, inputs: seq<TxInput>, input: TxInput)
    ensures TxAll(div, tx, inputs + [input]) == TxStep(div, TxAll(div, tx, inputs), input)
    ensures Sent(div, tx, inputs + [input]) == Sent(div, tx, inputs) + ToSeq(Loads(TxAll(div, tx, inputs), input))
    decreases inputs
  {
    hide TxStep, Loads;
    if inputs == [] {
      assert ([] + [input])[1..] == [];
    } else {
      assert (inputs + [input])[0] == inputs[0] && (inputs + [input])[1..] == inputs[1..] + [input];
      TxAllThen(div, TxStep(div, tx, inputs[0]), inputs[1..], input);
    }
  }

  /** Flow control. In every run a tick sends the byte that waits exactly when the transmitter is idle and the
      clear-to-send sample is not high. */
  lemma TakenWhenClear(div: nat, inputs: seq<TxInput>, i: nat)
    requires i < |inputs|
    ensures Sent(div, TX_RESET, inputs[..i + 1]) ==
            Sent(div, TX_RESET, inputs[..i])
            + (if TxAll(div, TX_RESET, inputs[..i]).bitCnt == 0 && inputs[i].cts != Some(true) then ToSeq(inputs[i].txData) else [])
  {
    assert inputs[..i + 1] == inputs[..i] + [inputs[i]];
    TxAllThen(div, TX_RESET, inputs[..i], inputs[i]);
  }

  /** The level of bit cell `i` of a frame: a start bit, the byte from its low bit up, a stop bit. */
  function Level(byte: bv8, i: nat): bool {
    i > 8 || (i > 0 && DataBit(byte, i))
  }

  /** The frame from bit cell `i` on, each cell `div + 1` ticks long. */
  function Waveform(div: nat, byte: bv8, i: nat): seq<bool>
    decreases 10 - i
  {
    if i >= 10 then [] else seq(div + 1, _ => Level(byte, i)) + Waveform(div, byte, i + 1)
  }

  /** The rest of the frame in tick `o` of cell `i`. */
  function Rest(div: nat, byte: bv8, i: nat, o: nat): seq<bool>
    requires o <= div + 1
  {
    seq(div + 1 - o, _ => Level(byte, i)) + Waveform(div, byte, i + 1)
  }

  lemma RestIs(div: nat, byte: bv8, i: nat, o: nat)
    requires o <= div && i <= 9
    ensures Rest(div, byte, i, o) == [Level(byte, i)] + Rest(div, byte, i, o + 1)
    ensures Rest(div, byte, i, div + 1) == if i == 9 then [] else Rest(div, byte, i + 1, 0)
  {
    assert seq(div + 1 - o, _ => Level(byte, i)) == [Level(byte, i)] + seq(div - o, _ => Level(byte, i));
  }

  /** The transmitter in tick `o` of cell `i`. */
  function TxAt(div: nat, byte: bv8, i: nat, o: nat): Tx
    requires i <= 10 && o <= div
  {
    Tx(TxSr(byte, i), if i == 10 then 0 else div - o, 10 - i)
  }

  lemma FrameTicks(div: nat, byte: bv8, i: nat, o: nat, input: TxInput)
    requires i <= 9 && o <= div
    ensures var tx := TxAt(div, byte, i, o);
            && Pin(tx) == Level(byte, i) && Loads(tx, input) == None
            && (i < 9 || o < div ==>
                  TxStep(div, tx, input) == if o < div then TxAt(div, byte, i, o + 1) else TxAt(div, byte, i + 1, 0))
            && (i == 9 && o == div ==> TxStep(div, tx, input) == Tx(0x3FF, div, 0))
  {
    ShiftedFrame(byte, i);
    TxFollows(byte, i);
    hide TxSr, Shift, DataBit;
  }

  lemma {:induction false} RestOfFrame(div: nat, byte: bv8, i: nat, o: nat, inputs: seq<TxInput>)
    requires i <= 9 && o <= div && |inputs| == |Rest(div, byte, i, o)|
    ensures var tx := TxAt(div, byte, i, o);
            && Line(div, tx, inputs) == Rest(div, byte, i, o) && Sent(div, tx, inputs) == []
            && TxAll(div, tx, inputs) == Tx(0x3FF, div, 0)
    decreases |inputs|
  {
    RestIs(div, byte, i, o);
    FrameTicks(div, byte, i, o, inputs[0]);
    hide Rest, TxAt, TxStep, Pin, Level, Loads;
    if o < div {
      RestOfFrame(div, byte, i, o + 1, inputs[1..]);
    } else if i < 9 {
      RestOfFrame(div, byte, i + 1, 0, inputs[1..]);
    } else {
      assert inputs[1..] == [];
    }
  }

  lemma {:induction false} WaveformLength(div: nat, byte: bv8, i: nat)
    requires i <= 10
    ensures |Waveform(div, byte, i)| == (10 - i) * (div + 1)
    decreases 10 - i
  {
    if i < 10 {
      WaveformLength(div, byte, i + 1);
      assert (10 - i) * (div + 1) == (9 - i) * (div + 1) + (div + 1);
    }
  }

  /** The frame on the line. After the tick that takes a byte the line carries its ten bit cells, of `div + 1` ticks
      each; nothing is taken meanwhile, and then the transmitter is idle again with the line high. */
  lemma FrameOnTheLine(div: nat, tx: Tx, load: TxInput, inputs: seq<TxInput>)
    requires tx.bitCnt == 0 && load.cts != Some(true) && load.txData.Some? && |inputs| == 10 * (div + 1)
    ensures var loaded := TxStep(div, tx, load);
            && Line(div, loaded, inputs) == Waveform(div, load.txData.value, 0) && Sent(div, loaded, inputs) == []
            && TxAll(div, loaded, inputs).bitCnt == 0 && Pin(TxAll(div, loaded, inputs))
  {
    var byte := load.txData.value;
    WaveformLength(div, byte, 0);
    assert Rest(div, byte, 0, 0) == Waveform(div, byte, 0);
    assert TxSr(byte, 0) == Frame(byte);
    RestOfFrame(div, byte, 0, 0, inputs);
  }

  /** The ticks until a transmitter is idle. */
  function TicksLeft(div: nat, tx: Tx): nat {
    if tx.bitCnt == 0 then 0 else (tx.bitCnt - 1) * (div + 1) + tx.baudCnt + 1
  }

  predicate Counting(div: nat, tx: Tx) {
    tx.bitCnt <= 10 && tx.baudCnt <= div
  }

  lemma CountsDown(div: nat, tx: Tx, input: TxInput)
    requires Counting(div, tx)
    ensures Counting(div, TxStep(div, tx, input))
    ensures tx.bitCnt > 0 ==> TicksLeft(div, TxStep(div, tx, input)) == TicksLeft(div, tx) - 1
    ensures TicksLeft(div, tx) <= 10 * (div + 1)
  {
    if tx.bitCnt > 0 {
      Product(tx.bitCnt - 1, 9, div + 1);
      if tx.bitCnt > 1 {
        assert (tx.bitCnt - 1) * (div + 1) == (tx.bitCnt - 2) * (div + 1) + (div + 1);
      }
    }
  }

  lemma {:induction false} Product(a: nat, b: nat, c: nat)
    requires a <= b
    ensures a * c <= b * c
    decreases b
  {
    if a < b {
      Product(a, b - 1, c);
    }
  }

  lemma {:induction false} AlwaysCounting(div: nat, tx: Tx, inputs: seq<TxInput>)
    requires Counting(div, tx)
    ensures Counting(div, TxAll(div, tx, inputs))
    decreases inputs
  {
    if inputs != [] {
      CountsDown(div, tx, inputs[0]);
      AlwaysCounting(div, TxStep(div, tx, inputs[0]), inputs[1..]);
    }
  }

  lemma {:induction false} WaitsForIdle(div: nat, tx: Tx, waiting: seq<TxInput>, byte: bv8)
    requires Counting(div, tx) && |waiting| == TicksLeft(div, tx) + 1
    requires forall w | w in waiting :: w.txData == Some(byte) && w.cts != Some(true)
    ensures Sent(div, tx, waiting) == [byte]
    decreases |waiting|
  {
    CountsDown(div, tx, waiting[0]);
    assert waiting[0] in waiting;
    if tx.bitCnt == 0 {
      assert waiting[1..] == [];
    } else {
      WaitsForIdle(div, TxStep(div, tx, waiting[0]), waiting[1..], byte);
    }
  }

  /** Progress. After any run, a byte that waits while clear-to-send stays low or absent is taken, once the frame under
      way is out, within ten bit cells of the divisor. */
  lemma WaitingByteIsSent(baudDiv: nat, before: seq<TxInput>, waiting: seq<TxInput>, byte: bv8)
    requires baudDiv < 0x1_0000
    requires |waiting| == TicksLeft(Full(baudDiv), TxAll(Full(baudDiv), TX_RESET, before)) + 1
    requires forall w | w in waiting :: w.txData == Some(byte) && w.cts != Some(true)
    ensures |waiting| <= 10 * (baudDiv + 1) + 1
    ensures Sent(Full(baudDiv), TxAll(Full(baudDiv), TX_RESET, before), waiting) == [byte]
  {
    var div := Full(baudDiv);
    CountersHold(baudDiv);
    AlwaysCounting(div, TX_RESET, before);
    CountsDown(div, TxAll(div, TX_RESET, before), QUIET);
    hide TicksLeft;
    WaitsForIdle(div, TxAll(div, TX_RESET, before), waiting, byte);
  }

  // ---------------------------------------------------------------------------
  // When the first sample misses the start bit
  // ---------------------------------------------------------------------------

  const QUIET := TxInput(None, None)

  /** `k` ticks in which nothing is waiting to be sent. */
  function Quiet(k: nat): (inputs: seq<TxInput>)
    ensures |inputs| == k
  {
    if k == 0 then [] else [QUIET] + Quiet(k - 1)
  }

  /** A line without delay. */
  function AsPins(levels: seq<bool>): seq<Option<bool>> {
    if levels == [] then [] else [Some(levels[0])] + AsPins(levels[1..])
  }

  lemma {:induction false} PinsOfLevels(levels: seq<bool>)
    ensures Samples(AsPins(levels)) == levels
  {
    if levels != [] {
      PinsOfLevels(levels[1..]);
      assert AsPins(levels)[1..] == AsPins(levels[1..]);
    }
  }

  /** A frame of ones, when the start bit is over before the receiver looks at it: the receiver takes it
      for a false start and puts nothing. */
  predicate Missed(tx: Tx, rx: Rx) {
    || (tx.sr == 0x3FE && tx.bitCnt == 10 && rx.ph == 1 && tx.baudCnt < rx.bc)
    || (tx.sr == 0x3FF && (rx == RX_IDLE || rx.ph == 1))
  }

  lemma {:induction false} MissedFrameIsSilent(div: nat, half: nat, tx: Tx, rx: Rx, k: nat)
    requires Missed(tx, rx)
    ensures Received(div, half, rx, AsPins(Line(div, tx, Quiet(k)))) == []
    decreases k
  {
    if k > 0 {
      var tx', rx' := TxStep(div, tx, QUIET), RxStep(div, half, rx, Some(Pin(tx)));
      assert Shift(0x3FE) == 0x3FF && Shift(0x3FF) == 0x3FF;
      assert Pin(tx) <==> tx.sr == 0x3FF;
      assert Quiet(k)[0] == QUIET && Quiet(k)[1..] == Quiet(k - 1);
      var line, rest := Line(div, tx, Quiet(k)), Line(div, tx', Quiet(k - 1));
      assert line == [Pin(tx)] + rest && line[1..] == rest;
      assert AsPins(line) == [Some(Pin(tx))] + AsPins(rest) && AsPins(line)[1..] == AsPins(rest);
      MissedFrameIsSilent(div, half, tx', rx', k - 1);
    }
  }

  /** The transmitter comes to rest. */
  lemma {:induction false} FrameEnds(div: nat, tx: Tx) returns (k: nat)
    ensures TxAll(div, tx, Quiet(k)).bitCnt == 0 && Sent(div, tx, Quiet(k)) == []
    decreases tx.bitCnt, tx.baudCnt
  {
    k := 0;
    if tx.bitCnt > 0 {
      var m := FrameEnds(div, TxStep(div, tx, QUIET));
      k := m + 1;
      assert Quiet(k)[0] == QUIET && Quiet(k)[1..] == Quiet(m);
    }
  }

  lemma LoopbackMisses(div: nat, half: nat) returns (inputs: seq<TxInput>, pins: seq<Option<bool>>)
    requires div <= half
    ensures Samples(pins) == Line(div, TX_RESET, inputs) && !Delivered(div, half, inputs, pins)
  {
    var load := TxInput(None, Some(0xFF));
    var loaded := TxStep(div, TX_RESET, load);
    assert loaded == Tx(0x3FE, div, 10) && Pin(TX_RESET) && !Pin(loaded);
    var k := FrameEnds(div, loaded);
    inputs := [load] + Quiet(k);
    assert inputs[1..] == Quiet(k);
    pins := AsPins(Line(div, TX_RESET, inputs));
    PinsOfLevels(Line(div, TX_RESET, inputs));
    var line, rest := Line(div, TX_RESET, inputs), Line(div, loaded, Quiet(k));
    assert line == [true] + rest && line[1..] == rest && pins == [Some(true)] + AsPins(rest) && pins[1..] == AsPins(rest);
    assert Received(div, half, RX_IDLE, pins) == Received(div, half, RX_IDLE, AsPins(rest));
    StartIsMissed(div, half, k);
    assert Sent(div, TX_RESET, inputs) == [0xFF];
  }

  lemma StartIsMissed(div: nat, half: nat, k: nat)
    requires div <= half
    ensures Received(div, half, RX_IDLE, AsPins(Line(div, Tx(0x3FE, div, 10), Quiet(k)))) == []
  {
    var tx := Tx(0x3FE, div, 10);
    if k > 0 {
      assert !Pin(tx) && Shift(0x3FE) == 0x3FF;
      var tx' := TxStep(div, tx, QUIET);
      assert Quiet(k)[0] == QUIET && Quiet(k)[1..] == Quiet(k - 1);
      var line, rest := Line(div, tx, Quiet(k)), Line(div, tx', Quiet(k - 1));
      assert line == [false] + rest && line[1..] == rest;
      assert AsPins(line) == [Some(false)] + AsPins(rest) && AsPins(line)[1..] == AsPins(rest);
      MissedFrameIsSilent(div, half, tx', Rx(1, 0, half, 0), k - 1);
    }
  }

  /** Main result. The loopback is the identity on every byte stream, over every gap, clear-to-send pattern
      and delay, exactly when the counters hold less for half a bit cell than for a whole one; every divisor
      from 1 to 65535 does. */
  lemma LoopbackIsIdentityIff(baudDiv: nat)
    ensures (forall inputs, pins | Samples(pins) == Line(Full(baudDiv), TX_RESET, inputs) ::
               Delivered(Full(baudDiv), Half(baudDiv), inputs, pins))
            <==> Half(baudDiv) < Full(baudDiv)
    ensures 1 <= baudDiv < 0x1_0000 ==> Half(baudDiv) < Full(baudDiv)
  {
    hide Delivered, Line, Samples;
    var div, half := Full(baudDiv), Half(baudDiv);
    if half < div {
      forall inputs, pins | Samples(pins) == Line(div, TX_RESET, inputs) ensures Delivered(div, half, inputs, pins) {
        LoopbackDelivers(div, half, inputs, pins);
      }
    } else {
      var inputs, pins := LoopbackMisses(div, half);
    }
  }
}
