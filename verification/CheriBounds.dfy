/** Compressed capability bounds: the encoder, the decoder, and what survives between them. Words are
    unsigned numbers; every slice, shift and truncation of the package is written out. */
module CheriBounds {
  import opened PowersOfTwo
  import opened Shifts

  const WORD := 0x1_0000_0000
  const MW := 10
  const CAP_MAX_E := 24

  /** The fields of the packed word that carry bounds: EF, TE (10 bits), BE (7 bits) and the address
      (32 bits). The other fields pass through unchanged. */
  datatype Cap = Cap(ef: bool, te: nat, be: nat, addr: nat) {
    predicate Typed() {
      te < 1024 && be < 128 && addr < WORD
    }
  }

  // ---------------------------------------------------------------------------
  // Decoder
  // ---------------------------------------------------------------------------

  /** `{TE[1:0], BE[2:0]}` */
  function DecodeE(cap: Cap): nat {
    if cap.ef then 0 else cap.te % 4 * 8 + cap.be % 8
  }

  /** `e + 5'd10`, a 5-bit sum */
  function WindowShift(e: nat): nat {
    (e + MW) % 32
  }

  /** `{BE, 3'b0}`, or `{BE[6:3], 6'b0}` when the low bits of BE hold exponent bits */
  function BaseMantissa(cap: Cap): nat {
    if cap.ef then cap.be * 8 else cap.be / 8 * 64
  }

  /** `TE`, or `{TE[9:2], 2'b0}` when its low bits hold exponent bits */
  function TopMantissa(cap: Cap): nat {
    if cap.ef then cap.te else cap.te / 4 * 4
  }

  function GetBase(cap: Cap): nat {
    if cap.ef then cap.addr / 1024 * 1024 + BaseMantissa(cap)
    else
      var e, s := DecodeE(cap), WindowShift(DecodeE(cap));
      Or(Left(Right(cap.addr, s), s) % WORD, Left(BaseMantissa(cap), e) % WORD)
  }

  /** A 33-bit result. */
  function GetTop(cap: Cap): nat {
    var carry := if TopMantissa(cap) < BaseMantissa(cap) then 1 else 0;
    if cap.ef then (cap.addr / 1024 * 1024 + TopMantissa(cap) + carry * 1024) % (2 * WORD)
    else
      var e, s := DecodeE(cap), WindowShift(DecodeE(cap));
      (Or(Left(Right(cap.addr, s), s) % WORD, Left(TopMantissa(cap), e) % (2 * WORD)) + Left(carry, s) % (4 * WORD)) % (2 * WORD)
  }

  function SetAddr(cap: Cap, addr: nat): Cap {
    cap.(addr := addr)
  }

  // ---------------------------------------------------------------------------
  // Encoder
  // ---------------------------------------------------------------------------

  /** The least exponent that brings the length into the mantissa. */
  function Exponent(length: nat): (e: nat)
    ensures length < Pow2(e + MW)
    ensures e > 0 ==> Pow2(e - 1 + MW) <= length
  {
    ExponentFrom(length, 0)
  }

  function ExponentFrom(length: nat, from: nat): (e: nat)
    requires from > 0 ==> Pow2(from - 1 + MW) <= length
    ensures length < Pow2(e + MW)
    ensures e > 0 ==> Pow2(e - 1 + MW) <= length
    decreases length - Pow2(from + MW)
  {
    if length < Pow2(from + MW) then from else ExponentFrom(length, from + 1)
  }

  function Encode(cap: Cap, length: nat, e: nat): Cap {
    var topAddr := (cap.addr + length) % WORD;
    if e == 0 then
      Cap(true, topAddr % 1024, cap.addr / 8 % 128, cap.addr)
    else
      var bHi, tHi := Right(cap.addr, e) / 8 % 128, Right(topAddr, e) / 4 % 256;
      Cap(false, tHi * 4 + e / 8 % 4, bHi / 8 * 8 + e % 8, cap.addr)
  }

  /** The loop keeps the last `i + 1` for which `length >> (i + MW)` is not zero. */
  method FindExponent(length: nat) returns (e: nat)
    requires length < WORD
    ensures e == Exponent(length)
  {
    hide Pow2, Right;
    e := 0;
    for i := 0 to CAP_MAX_E
      invariant e <= i
      invariant length < Pow2(e + MW) || e == i
      invariant e > 0 ==> Pow2(e - 1 + MW) <= length
    {
      RightIsZero(length, i + MW);
      if Right(length, i + MW) != 0 {
        PowersGrow(e + MW, i + MW);
        e := i + 1;
      }
    }
    PowerValues();
    ExponentIs(length, e);
  }

  method SetBounds(cap: Cap, length: nat) returns (result: Cap)
    requires cap.Typed() && length < WORD
    ensures result == Encode(cap, length, Exponent(length))
  {
    hide Exponent, Right;
    var e := FindExponent(length);
    var topAddr := (cap.addr + length) % WORD;
    result := cap;
    if e == 0 {
      result := result.(ef := true, te := topAddr % 1024, be := cap.addr / 8 % 128);
    } else {
      var shiftedAddr, shiftedTop := Right(cap.addr, e), Right(topAddr, e);
      result := result.(ef := false, te := shiftedTop / 4 % 256 * 4 + e / 8 % 4, be := shiftedAddr / 8 % 128);
      result := result.(be := result.be / 8 * 8 + e % 8);
    }
  }

  lemma RightIsZero(x: nat, k: nat)
    ensures Right(x, k) == 0 <==> x < Pow2(k)
  {
    FloorToIsFloor(x, k);
    LeftOrder(0, Right(x, k), k);
  }

  lemma {:induction false} PowersGrow(m: nat, n: nat)
    requires m <= n
    ensures Pow2(m) <= Pow2(n)
  {
    if m < n {
      PowersGrow(m, n - 1);
    }
  }

  lemma PowerValues()
    ensures Pow2(10) == 1024 && Pow2(31) == 0x8000_0000 && Pow2(32) == WORD && Pow2(34) == 4 * WORD
  {
    assert Pow2(4) == 16;
    assert Pow2(8) == 256;
    assert Pow2(10) == 1024;
    assert Pow2(14) == 0x4000;
    assert Pow2(18) == 0x4_0000;
    assert Pow2(22) == 0x40_0000;
    assert Pow2(26) == 0x400_0000;
    assert Pow2(30) == 0x4000_0000;
  }

  lemma ExponentIs(length: nat, e: nat)
    requires length < Pow2(e + MW) && (e > 0 ==> Pow2(e - 1 + MW) <= length)
    ensures Exponent(length) == e
  {
    var d := Exponent(length);
    if d < e {
      PowersGrow(d + MW, e - 1 + MW);
    } else if e < d {
      PowersGrow(e + MW, d - 1 + MW);
    }
  }

  // ---------------------------------------------------------------------------
  // In units of the exponent
  // ---------------------------------------------------------------------------

  /** Further places are a constant factor. */
  lemma MorePlaces(x: nat, k: nat)
    ensures Left(x, k + 2) == Left(4 * x, k) && Right(x, k + 2) == Right(x, k) / 4
    ensures Left(x, k + 6) == Left(64 * x, k) && Right(x, k + 6) == Right(x, k) / 64
    ensures Left(x, k + 10) == Left(1024 * x, k) && Right(x, k + 10) == Right(x, k) / 1024
    ensures Pow2(k + 10) == 1024 * Pow2(k)
  {
    TwoPlaces(x, k);
    TwoPlaces(x, k + 2);
    TwoPlaces(4 * x, k);
    TwoPlaces(x, k + 4);
    TwoPlaces(16 * x, k);
    TwoPlaces(x, k + 6);
    TwoPlaces(64 * x, k);
    TwoPlaces(x, k + 8);
    TwoPlaces(256 * x, k);
    FourPlaces(x, k);
    FourPlaces(4 * x, k);
  }

  lemma SmallShift(x: nat, e: nat)
    requires x <= 2048 && e <= 21
    ensures Left(x, e) <= WORD && (x <= 1024 ==> Left(x, e) <= WORD / 2)
  {
    hide Left, Right, Pow2;
    PowerValues();
    MorePlaces(1, e);
    LeftOrder(1, 0, e + 10);
    PowersGrow(e + 10, 31);
    LeftAdd(1024, 1024, e);
    LeftOrder(x, 2048, e);
    LeftOrder(x, 1024, e);
  }

  lemma LeftOfTen(x: nat)
    ensures Left(x, 10) == 1024 * x
  {
    MorePlaces(x, 0);
  }

  /** The window of an address and a mantissa below it, side by side. */
  lemma WindowOr(w: nat, m: nat, e: nat)
    requires m < 1024
    ensures Or(Left(1024 * w, e), Left(m, e)) == Left(1024 * w + m, e)
  {
    OrOfLefts(1024 * w, m, e);
    LeftOfTen(w);
    PowerValues();
    OrIsSum(w, m, 10);
    hide Left, Or, Pow2;
  }

  /** The decoded base in units of `Pow2(e)`: the mantissa within the address's window. */
  lemma BaseInUnits(cap: Cap)
    requires cap.Typed() && !cap.ef && DecodeE(cap) <= 21
    ensures var e := DecodeE(cap);
            GetBase(cap) == Left(Right(cap.addr, e + MW) * 1024 + BaseMantissa(cap), e)
  {
    hide Left, Right, Or;
    var e := DecodeE(cap);
    var w := Right(cap.addr, e + MW);
    MorePlaces(w, e);
    FloorToIsFloor(cap.addr, e + MW);
    SmallShift(BaseMantissa(cap), e);
    WindowOr(w, BaseMantissa(cap), e);
  }

  /** The decoded top in the same units, one window further when the mantissa has wrapped. */
  lemma TopInUnits(cap: Cap)
    requires cap.Typed() && !cap.ef && DecodeE(cap) <= 21
    ensures var e := DecodeE(cap);
            var carry := if TopMantissa(cap) < BaseMantissa(cap) then 1 else 0;
            GetTop(cap) == Left((Right(cap.addr, e + MW) + carry) * 1024 + TopMantissa(cap), e)
  {
    hide Left, Right, Or, TopMantissa, BaseMantissa;
    var e := DecodeE(cap);
    var w, t := Right(cap.addr, e + MW), TopMantissa(cap);
    var carry := if t < BaseMantissa(cap) then 1 else 0;
    MorePlaces(w, e);
    MorePlaces(carry, e);
    FloorToIsFloor(cap.addr, e + MW);
    TopFits(cap);
    SmallShift(t + 1024 * carry, e);
    LeftAdd(t, 1024 * carry, e);
    WindowOr(w, t, e);
    LeftAdd(1024 * w, t, e);
    NothingTruncated(Left(1024 * w, e), Left(t, e), Left(1024 * carry, e));
    LeftAdd(1024 * w + t, 1024 * carry, e);
  }

  lemma NothingTruncated(window: nat, top: nat, carry: nat)
    requires window < WORD && top + carry <= WORD
    ensures window % WORD == window && top % (2 * WORD) == top && carry % (4 * WORD) == carry
    ensures (window + top + carry) % (2 * WORD) == window + top + carry
  {
  }

  lemma TopFits(cap: Cap)
    requires cap.Typed()
    ensures TopMantissa(cap) < 1024
  {
  }

  // ---------------------------------------------------------------------------
  // What the encoder stores
  // ---------------------------------------------------------------------------

  lemma {:induction false} PowerProduct(m: nat, k: nat)
    ensures Left(Pow2(m), k) == Pow2(m + k)
  {
    if k > 0 {
      PowerProduct(m, k - 1);
    }
  }

  lemma SmallExponent(length: nat)
    requires length < WORD / 2
    ensures Exponent(length) <= 21
  {
    hide Pow2, Exponent;
    PowerValues();
    if Exponent(length) > 21 {
      PowersGrow(31, Exponent(length) - 1 + MW);
    }
  }

  /** Dropping the carry out of the 32-bit sum does not reach the stored bits. */
  lemma WrapIsHarmless(x: nat, e: nat)
    requires x < 2 * WORD && e <= 21
    ensures Right(x % WORD, e) % 1024 == Right(x, e) % 1024
  {
    hide Right, Left, Pow2;
    if x >= WORD {
      var p := Pow2(22 - e);
      PowerValues();
      PowerProduct(22 - e, e + 10);
      MorePlaces(p, e);
      RightShiftsMultiples(x - WORD, 1024 * p, e);
    }
  }

  lemma BaseField(a: nat, e: nat)
    ensures var be := a / 8 % 128 / 8 * 8 + e % 8;
            be < 128 && be % 8 == e % 8 && be / 8 * 64 == a % 1024 / 64 * 64
  {
    var r := a % 1024;
    assert a / 8 == a / 1024 * 128 + r / 8;
    assert a / 8 % 128 == r / 8;
    BaseBits(r / 64, e);
  }

  lemma BaseBits(h: nat, e: nat)
    requires h < 16
    ensures (h * 8 + e % 8) % 8 == e % 8 && (h * 8 + e % 8) / 8 == h
  {
  }

  lemma TopField(s: nat, e: nat)
    requires e <= 31
    ensures var te := s / 4 % 256 * 4 + e / 8 % 4;
            te < 1024 && te % 4 == e / 8 && te / 4 * 4 == s % 1024 / 4 * 4
  {
    assert s / 4 % 256 == s % 1024 / 4;
  }

  lemma StoredFields(cap: Cap, length: nat, e: nat)
    requires cap.Typed() && length < WORD && 0 < e <= 21
    ensures var c := Encode(cap, length, e);
            c.Typed() && !c.ef && DecodeE(c) == e && c.addr == cap.addr
            && BaseMantissa(c) == Right(cap.addr, e) % 1024 / 64 * 64
            && TopMantissa(c) == Right(cap.addr + length, e) % 1024 / 4 * 4
  {
    hide Right;
    var s := Right((cap.addr + length) % WORD, e);
    BaseField(Right(cap.addr, e), e);
    TopField(s, e);
    WrapIsHarmless(cap.addr + length, e);
  }

  // ---------------------------------------------------------------------------
  // Decoding what was encoded
  // ---------------------------------------------------------------------------

  /** The places that rounding clears in the base and in the top. */
  function BasePlaces(e: nat): nat {
    if e == 0 then 3 else e + 6
  }

  function TopPlaces(e: nat): nat {
    if e == 0 then 0 else e + 2
  }

  predicate BaseRounds(cap: Cap, length: nat) {
    GetBase(Encode(cap, length, Exponent(length))) == FloorTo(cap.addr, BasePlaces(Exponent(length)))
  }

  predicate TopRounds(cap: Cap, length: nat) {
    GetTop(Encode(cap, length, Exponent(length))) == FloorTo(cap.addr + length, TopPlaces(Exponent(length)))
  }

  /** The rounded region is shorter than a window. */
  predicate RegionFits(addr: nat, length: nat) {
    var e := Exponent(length);
    FloorTo(addr + length, TopPlaces(e)) < FloorTo(addr, BasePlaces(e)) + Pow2(e + MW)
  }

  /** The length leaves room for the base's rounding wherever the address is. */
  predicate LengthFits(length: nat) {
    var e := Exponent(length);
    length <= if e == 0 then 1016 else Left(960, e)
  }

  /** In units: the two mantissas and the carry give the rounded values back exactly when these are less
      than a window apart. */
  lemma UnitBounds(a: nat, s: nat)
    requires a <= s <= a + 1024
    ensures var b, t := a % 1024 / 64 * 64, s % 1024 / 4 * 4;
            a / 1024 * 1024 + b == a / 64 * 64
            && ((a / 1024 + if t < b then 1 else 0) * 1024 + t == s / 4 * 4 <==> s / 4 * 4 < a / 64 * 64 + 1024)
  {
    assert a / 64 * 64 == a / 1024 * 1024 + a % 1024 / 64 * 64;
    assert s / 4 * 4 == s / 1024 * 1024 + s % 1024 / 4 * 4;
    assert s / 1024 == a / 1024 || s / 1024 == a / 1024 + 1;
  }

  /** Where the end of the range lies, in units. */
  lemma EndInUnits(addr: nat, length: nat, room: nat, e: nat)
    ensures Right(addr, e) <= Right(addr + length, e)
    ensures length <= Left(room, e) ==> Right(addr + length, e) <= Right(addr, e) + room
    ensures length > Left(room, e) && addr + 1 == Left(Right(addr, e) + 1, e) ==> Right(addr + length, e) > Right(addr, e) + room
  {
    hide Left, Right, Pow2;
    var a, s := Right(addr, e), Right(addr + length, e);
    FloorToIsFloor(addr, e);
    FloorToIsFloor(addr + length, e);
    LeftOrder(s, a, e);
    LeftOrder(a + room, s, e);
    LeftAdd(a, room, e);
    LeftAdd(a + 1, room, e);
    LeftAdd(a, 1, e);
    LeftOrder(1, 0, e);
    LeftAdd(a, room, e);
    LeftOrder(s, a + room + 1, e);
  }

  lemma LeftOrderIff(x: nat, y: nat, k: nat)
    ensures Left(x, k) < Left(y, k) <==> x < y
    ensures Left(x, k) == Left(y, k) <==> x == y
  {
  }

  /** With a positive exponent. */
  lemma InexactRounds(cap: Cap, length: nat, e: nat)
    requires cap.Typed() && length < WORD && 0 < e <= 21 && length < Pow2(e + MW)
    ensures var c := Encode(cap, length, e);
            GetBase(c) == FloorTo(cap.addr, e + 6)
            && (GetTop(c) == FloorTo(cap.addr + length, e + 2)
                <==> FloorTo(cap.addr + length, e + 2) < FloorTo(cap.addr, e + 6) + Pow2(e + MW))
  {
    hide Left, Right, Pow2, Encode, DecodeE, GetBase, GetTop, BaseMantissa, TopMantissa;
    var c := Encode(cap, length, e);
    var a, s := Right(cap.addr, e), Right(cap.addr + length, e);
    StoredFields(cap, length, e);
    BaseInUnits(c);
    TopInUnits(c);
    RoundedInUnits(cap.addr, e);
    RoundedInUnits(cap.addr + length, e);
    RegionInUnits(cap.addr, length, e);
    MorePlaces(1, e);
    LeftOrder(1, 0, e + 10);
    EndInUnits(cap.addr, length, 1024, e);
    UnitBounds(a, s);
    var carry := if TopMantissa(c) < BaseMantissa(c) then 1 else 0;
    LeftOrderIff((a / 1024 + carry) * 1024 + TopMantissa(c), s / 4 * 4, e);
  }

  lemma RoundedInUnits(x: nat, e: nat)
    ensures var a := Right(x, e);
            Right(x, e + MW) == a / 1024
            && FloorTo(x, e + 6) == Left(a / 64 * 64, e) && FloorTo(x, e + 2) == Left(a / 4 * 4, e)
  {
    hide Left, Right;
    MorePlaces(x, e);
    MorePlaces(Right(x, e) / 64, e);
    MorePlaces(Right(x, e) / 4, e);
  }

  /** With exponent zero. */
  lemma ExactRounds(cap: Cap, length: nat)
    requires cap.Typed() && length < 1024
    ensures var c := Encode(cap, length, 0);
            GetBase(c) == FloorTo(cap.addr, 3)
            && (GetTop(c) == FloorTo(cap.addr + length, 0)
                <==> FloorTo(cap.addr + length, 0) < FloorTo(cap.addr, 3) + 1024)
  {
    hide FloorTo, Encode, GetBase, GetTop;
    var a, s := cap.addr, cap.addr + length;
    FloorOfEight(a);
    FloorOfEight(s);
    ExactFields(cap, length);
    ExactUnits(a, s);
  }

  lemma ExactFields(cap: Cap, length: nat)
    requires cap.Typed() && length < 1024
    ensures var c, b, t, w := Encode(cap, length, 0), cap.addr / 8 % 128 * 8, (cap.addr + length) % 1024, cap.addr / 1024 * 1024;
            GetBase(c) == w + b && GetTop(c) == w + t + (if t < b then 1 else 0) * 1024
  {
    var c := Encode(cap, length, 0);
    assert TopMantissa(c) == (cap.addr + length) % 1024 && BaseMantissa(c) == cap.addr / 8 % 128 * 8 by {
      WrapTen(cap.addr + length);
    }
    hide Or, Left, Right, TopMantissa, BaseMantissa;
    assert c.addr == cap.addr && c.ef;
    hide Encode;
    ExactSum(cap.addr / 1024, (cap.addr + length) % 1024);
  }

  lemma WrapTen(x: nat)
    ensures x % WORD % 1024 == x % 1024
  {
  }

  lemma ExactSum(w: nat, t: nat)
    requires w < 0x40_0000 && t < 1024
    ensures (w * 1024 + t) % (2 * WORD) == w * 1024 + t
    ensures (w * 1024 + t + 1024) % (2 * WORD) == w * 1024 + t + 1024
  {
  }

  lemma ExactUnits(a: nat, s: nat)
    requires a <= s < a + 1024
    ensures var b, t := a / 8 % 128 * 8, s % 1024;
            a / 1024 * 1024 + b == a / 8 * 8
            && (a / 1024 * 1024 + t + (if t < b then 1 else 0) * 1024 == s <==> s < a / 8 * 8 + 1024)
  {
    assert a / 8 * 8 == a / 1024 * 1024 + a / 8 % 128 * 8;
    assert s == s / 1024 * 1024 + s % 1024;
    assert s / 1024 == a / 1024 || s / 1024 == a / 1024 + 1;
  }

  /** Below 2^31 the base always comes back rounded down, and the top comes back rounded down exactly
      when the rounded region is shorter than a window. */
  lemma BoundsRoundTrip(cap: Cap, length: nat)
    requires cap.Typed() && length < WORD / 2
    ensures BaseRounds(cap, length)
    ensures TopRounds(cap, length) <==> RegionFits(cap.addr, length)
  {
    hide Exponent, Encode, GetBase, GetTop, FloorTo, Pow2;
    PowerValues();
    SmallExponent(length);
    if Exponent(length) == 0 {
      ExactRounds(cap, length);
    } else {
      InexactRounds(cap, length, Exponent(length));
    }
  }

  lemma ShortLengthFits(addr: nat, length: nat)
    requires LengthFits(length)
    ensures RegionFits(addr, length)
  {
    hide Exponent, Left, Right, Pow2, FloorTo;
    var e := Exponent(length);
    PowerValues();
    if e > 0 {
      RegionInUnits(addr, length, e);
      EndInUnits(addr, length, 960, e);
    } else {
      FloorOfEight(addr);
      FloorOfEight(addr + length);
    }
  }

  lemma FloorOfEight(x: nat)
    ensures FloorTo(x, 3) == x / 8 * 8 && FloorTo(x, 0) == x
  {
    NoPlaces(x);
    TwoPlaces(x, 0);
    assert Right(x, 3) == Right(x, 2) / 2;
    ThreePlaces(x / 8);
    hide Left, Right;
    assert x / 4 / 2 == x / 8;
  }

  lemma RegionInUnits(addr: nat, length: nat, e: nat)
    ensures FloorTo(addr + length, e + 2) < FloorTo(addr, e + 6) + Pow2(e + MW)
            <==> Right(addr + length, e) / 4 * 4 < Right(addr, e) / 64 * 64 + 1024
  {
    hide Left, Right, Pow2;
    var a, s := Right(addr, e), Right(addr + length, e);
    RoundedInUnits(addr, e);
    RoundedInUnits(addr + length, e);
    MorePlaces(1, e);
    LeftOrder(1, 0, e);
    LeftOrder(1, 0, e + 10);
    LeftAdd(a / 64 * 64, 1024, e);
    LeftOrderIff(s / 4 * 4, a / 64 * 64 + 1024, e);
  }

  /** The last address of the first window, from which any longer range wraps too far. */
  function LastOfWindow(length: nat): nat {
    Pow2(Exponent(length) + MW) - 1
  }

  lemma LongLengthFails(length: nat)
    requires length < WORD / 2 && !LengthFits(length)
    ensures LastOfWindow(length) < WORD && !RegionFits(LastOfWindow(length), length)
  {
    hide Exponent, Left, Right, Pow2;
    var e, addr := Exponent(length), LastOfWindow(length);
    PowerValues();
    SmallExponent(length);
    PowersGrow(e + MW, 31);
    if e > 0 {
      LeftOrder(1, 0, e + MW);
      MorePlaces(1, e);
      LeftAdd(1023, 1, e);
      LeftOrder(1, 0, e);
      RightOfSum(1023, Pow2(e) - 1, e);
      RegionInUnits(addr, length, e);
      EndInUnits(addr, length, 960, e);
    } else {
      FloorOfEight(addr);
      FloorOfEight(addr + length);
    }
  }

  lemma HugeLengthFails(cap: Cap, length: nat)
    requires WORD / 2 <= length < WORD && cap.Typed() && cap.addr == 1
    ensures !BaseRounds(cap, length)
  {
    hide Exponent, Pow2, GetBase, Encode, DecodeE, Left, Right;
    HugeExponent(length);
    FirstUnits();
    SecondByteFields(cap, length);
    SecondByte(Encode(cap, length, 22));
  }

  lemma SecondByteFields(cap: Cap, length: nat)
    requires cap.Typed() && cap.addr == 1
    ensures var c := Encode(cap, length, 22);
            c.addr == 1 && !c.ef && c.be / 8 == 0 && DecodeE(c) == 22
  {
    FirstUnits();
    hide Right, Left;
  }

  lemma FirstUnits()
    ensures Right(1, 22) == 0 && FloorTo(1, 28) == 0
  {
    assert Pow2(1) == 2;
    hide Pow2, Left, Right;
    PowersGrow(1, 22);
    PowersGrow(1, 28);
    RightIsZero(1, 22);
    RightIsZero(1, 28);
    LeftOrder(0, 0, 28);
  }

  lemma ZeroUnits()
    ensures Left(0, 22) == 0 && Left(Right(1, 0), 0) == 1 && Or(1, 0) == 1
  {
    LeftOrder(0, 0, 22);
    NoPlaces(1);
    hide Left, Right;
  }

  /** With exponent 22 the window shift is 0, and the whole address shows through. */
  lemma SecondByte(c: Cap)
    requires c.addr == 1 && !c.ef && c.be / 8 == 0 && DecodeE(c) == 22
    ensures GetBase(c) == 1
  {
    ZeroUnits();
    hide Left, Right, Or, DecodeE;
    assert WindowShift(22) == 0;
    assert BaseMantissa(c) == 0;
  }

  lemma HugeExponent(length: nat)
    requires WORD / 2 <= length < WORD
    ensures Exponent(length) == 22
  {
    hide Pow2, Exponent;
    PowerValues();
    ExponentIs(length, 22);
  }

  /** The lengths that can be used at every address: shorter than 2^31 and with room for the rounding. */
  lemma UsableLengths(length: nat)
    requires length < WORD
    ensures (forall cap: Cap :: cap.Typed() ==> BaseRounds(cap, length) && TopRounds(cap, length))
            <==> length < WORD / 2 && LengthFits(length)
  {
    hide Exponent, BaseRounds, TopRounds, LengthFits, RegionFits, LastOfWindow;
    if length >= WORD / 2 {
      HugeLengthFails(Cap(false, 0, 0, 1), length);
    } else {
      forall cap: Cap | cap.Typed()
        ensures BaseRounds(cap, length)
        ensures LengthFits(length) ==> TopRounds(cap, length)
      {
        BoundsRoundTrip(cap, length);
        if LengthFits(length) {
          ShortLengthFits(cap.addr, length);
        }
      }
      if !LengthFits(length) {
        LongLengthFails(length);
        BoundsRoundTrip(Cap(false, 0, 0, LastOfWindow(length)), length);
      }
    }
  }

  // ---------------------------------------------------------------------------
  // Moving the address
  // ---------------------------------------------------------------------------

  /** The bounds stay exactly as long as the address stays in its window of 2^(e+10) bytes. */
  lemma MoveKeepsBounds(cap: Cap, addr: nat)
    requires cap.Typed() && addr < WORD && DecodeE(cap) <= 21
    ensures var same := Right(addr, DecodeE(cap) + MW) == Right(cap.addr, DecodeE(cap) + MW);
            (GetBase(SetAddr(cap, addr)) == GetBase(cap) <==> same)
            && (GetTop(SetAddr(cap, addr)) == GetTop(cap) <==> same)
  {
    if cap.ef {
      ExactMove(cap, addr);
    } else {
      InexactMove(cap, addr);
    }
  }

  lemma ExactMove(cap: Cap, addr: nat)
    requires cap.Typed() && addr < WORD && cap.ef
    ensures Right(addr, MW) == addr / 1024 && Right(cap.addr, MW) == cap.addr / 1024
    ensures GetBase(SetAddr(cap, addr)) == GetBase(cap) <==> addr / 1024 == cap.addr / 1024
    ensures GetTop(SetAddr(cap, addr)) == GetTop(cap) <==> addr / 1024 == cap.addr / 1024
  {
    hide Left, Right, Or;
    MorePlaces(addr, 0);
    MorePlaces(cap.addr, 0);
    NoPlaces(addr);
    NoPlaces(cap.addr);
  }

  lemma InexactMove(cap: Cap, addr: nat)
    requires cap.Typed() && addr < WORD && !cap.ef && DecodeE(cap) <= 21
    ensures var same := Right(addr, DecodeE(cap) + MW) == Right(cap.addr, DecodeE(cap) + MW);
            (GetBase(SetAddr(cap, addr)) == GetBase(cap) <==> same)
            && (GetTop(SetAddr(cap, addr)) == GetTop(cap) <==> same)
  {
    hide Left, Right, GetBase, GetTop, Or;
    var moved, e := SetAddr(cap, addr), DecodeE(cap);
    var w, v, b, t := Right(cap.addr, e + MW), Right(addr, e + MW), BaseMantissa(cap), TopMantissa(cap);
    var carry := if t < b then 1 else 0;
    BaseInUnits(cap);
    BaseInUnits(moved);
    TopInUnits(cap);
    TopInUnits(moved);
    hide BaseMantissa, TopMantissa;
    LeftOrderIff(w * 1024 + b, v * 1024 + b, e);
    LeftOrderIff((w + carry) * 1024 + t, (v + carry) * 1024 + t, e);
  }

  // ---------------------------------------------------------------------------
  // Exponents the shift amount cannot hold
  // ---------------------------------------------------------------------------

  /** From exponent 22 on the 5-bit sum wraps: the window is 2^(e-22) bytes, and all but the lowest bits of the
      address show through in the base. From 26 on the mantissa is shifted out altogether. */
  lemma BaseBeyondRange(cap: Cap)
    requires cap.Typed() && !cap.ef && DecodeE(cap) >= 22
    ensures var e := DecodeE(cap);
            && GetBase(cap) == Or(FloorTo(cap.addr, e - 22), Left(BaseMantissa(cap), e) % WORD)
            && (e >= 26 || BaseMantissa(cap) == 0 ==> GetBase(cap) == FloorTo(cap.addr, e - 22))
  {
    hide Left, Right, Or, BaseMantissa;
    var e := DecodeE(cap);
    var window := FloorTo(cap.addr, e - 22);
    FloorToIsFloor(cap.addr, e - 22);
    assert WindowShift(e) == e - 22 && window < WORD;
    OrZero(window);
    if e >= 26 {
      MantissaShiftedOut(cap);
    } else if BaseMantissa(cap) == 0 {
      LeftOrder(0, 0, e);
    }
  }

  lemma MantissaShiftedOut(cap: Cap)
    requires !cap.ef && DecodeE(cap) >= 26
    ensures Left(BaseMantissa(cap), DecodeE(cap)) % WORD == 0
  {
    hide Left, Right;
    var h, e := cap.be / 8, DecodeE(cap);
    MorePlaces(h, e);
    var high := Left(h, e - 26);
    LeftLeft(h, e - 26, 32);
    LeftOf32(high);
  }

  /** The two addresses have the same bits from `e - 22` up, but for those the mantissa sets. */
  predicate SameOutside(x: nat, y: nat, mantissa: nat, e: nat)
    requires e >= 22
  {
    forall k: nat | e - 22 <= k < 32 && !(k >= e && IsSet(mantissa, k - e)) :: IsSet(x, k) <==> IsSet(y, k)
  }

  /** There moving the address keeps the base, and the top, exactly when it changes no bit from `e - 22` up but
      those the mantissa sets. */
  lemma MoveBeyondRange(cap: Cap, addr: nat)
    requires cap.Typed() && addr < WORD && !cap.ef && DecodeE(cap) >= 22
    ensures GetBase(SetAddr(cap, addr)) == GetBase(cap) <==> SameOutside(addr, cap.addr, BaseMantissa(cap), DecodeE(cap))
    ensures GetTop(SetAddr(cap, addr)) == GetTop(cap) <==> SameOutside(addr, cap.addr, TopMantissa(cap), DecodeE(cap))
  {
    BaseMoves(cap, addr);
    TopMoves(cap, addr);
  }

  lemma BaseMoves(cap: Cap, addr: nat)
    requires cap.Typed() && addr < WORD && !cap.ef && DecodeE(cap) >= 22
    ensures GetBase(SetAddr(cap, addr)) == GetBase(cap) <==> SameOutside(addr, cap.addr, BaseMantissa(cap), DecodeE(cap))
  {
    hide Left, Right, Or, BaseMantissa, SameOutside, GetBase, FloorTo;
    BaseBeyondRange(cap);
    BaseBeyondRange(SetAddr(cap, addr));
    SameMantissas(cap, addr);
    OrsStay(addr, cap.addr, BaseMantissa(cap), DecodeE(cap), 32);
  }

  lemma TopBeyondRange(cap: Cap)
    requires cap.Typed() && !cap.ef && DecodeE(cap) >= 22
    ensures var e := DecodeE(cap);
            var carry := if TopMantissa(cap) < BaseMantissa(cap) then 1 else 0;
            GetTop(cap) == (Or(FloorTo(cap.addr, e - 22), Left(TopMantissa(cap), e) % (2 * WORD)) + Left(carry, e - 22) % (4 * WORD))
                           % (2 * WORD)
  {
    hide Left, Right, Or, BaseMantissa, TopMantissa;
    var e := DecodeE(cap);
    FloorToIsFloor(cap.addr, e - 22);
    assert WindowShift(e) == e - 22 && FloorTo(cap.addr, e - 22) < WORD;
  }

  lemma TopMoves(cap: Cap, addr: nat)
    requires cap.Typed() && addr < WORD && !cap.ef && DecodeE(cap) >= 22
    ensures GetTop(SetAddr(cap, addr)) == GetTop(cap) <==> SameOutside(addr, cap.addr, TopMantissa(cap), DecodeE(cap))
  {
    hide Left, Right, Or, BaseMantissa, TopMantissa, SameOutside, GetTop, FloorTo;
    var s := DecodeE(cap) - 22;
    TopBeyondRange(cap);
    TopBeyondRange(SetAddr(cap, addr));
    SameMantissas(cap, addr);
    OrsStay(addr, cap.addr, TopMantissa(cap), DecodeE(cap), 33);
    var carry := if TopMantissa(cap) < BaseMantissa(cap) then 1 else 0;
    var top := Left(TopMantissa(cap), DecodeE(cap)) % (2 * WORD);
    CarryStays(Or(FloorTo(addr, s), top), Or(FloorTo(cap.addr, s), top), Left(carry, s) % (4 * WORD));
  }

  lemma CarryStays(x: nat, y: nat, carry: nat)
    requires x < 2 * WORD && y < 2 * WORD
    ensures (x + carry) % (2 * WORD) == (y + carry) % (2 * WORD) <==> x == y
  {
  }

  lemma SameMantissas(cap: Cap, addr: nat)
    ensures BaseMantissa(SetAddr(cap, addr)) == BaseMantissa(cap) && TopMantissa(SetAddr(cap, addr)) == TopMantissa(cap)
  {
  }

  function Truncated(x: nat, n: nat): nat {
    x % (if n == 32 then WORD else 2 * WORD)
  }

  lemma BoundBits(x: nat, mantissa: nat, e: nat, n: nat, k: nat)
    requires x < WORD && 22 <= e < 32 && 32 <= n <= 33 && k < n
    ensures IsSet(Truncated(Left(mantissa, e), n), k) <==> k >= e && IsSet(mantissa, k - e)
    ensures IsSet(FloorTo(x, e - 22), k) <==> e - 22 <= k < 32 && IsSet(x, k)
  {
    hide Left, Right, IsSet, FloorTo;
    TruncatedBit(Left(mantissa, e), k);
    LeftBit(mantissa, e, k);
    FloorBit(x, e - 22, k);
    HighBitClear(x, k);
  }

  lemma OrsBelow(x: nat, mantissa: nat, e: nat, n: nat)
    requires x < WORD && 22 <= e < 32 && 32 <= n <= 33
    ensures FloorTo(x, e - 22) < WORD < Pow2(n) + 1 && Truncated(Left(mantissa, e), n) < Pow2(n) <= 2 * WORD
    ensures Or(FloorTo(x, e - 22), Truncated(Left(mantissa, e), n)) < 2 * WORD
  {
    PowerValues();
    assert Pow2(33) == 2 * WORD;
    hide Left, Or, Pow2, FloorTo;
    FloorBelow(x, e - 22);
    OrBelow(FloorTo(x, e - 22), Truncated(Left(mantissa, e), n), n);
  }

  /** Both bounds are such an or, in 32 bits and in 33. */
  lemma OrsStay(x: nat, y: nat, mantissa: nat, e: nat, n: nat)
    requires x < WORD && y < WORD && 22 <= e < 32 && 32 <= n <= 33
    ensures var mask := Truncated(Left(mantissa, e), n);
            && Or(FloorTo(x, e - 22), mask) < 2 * WORD && Or(FloorTo(y, e - 22), mask) < 2 * WORD
            && (Or(FloorTo(x, e - 22), mask) == Or(FloorTo(y, e - 22), mask) <==> SameOutside(x, y, mantissa, e))
  {
    hide Left, Right, Or, Pow2, IsSet, FloorTo, Truncated;
    var s := e - 22;
    var mask := Truncated(Left(mantissa, e), n);
    OrsBelow(x, mantissa, e, n);
    OrsBelow(y, mantissa, e, n);
    OrSameIff(FloorTo(x, s), FloorTo(y, s), mask, n);
    forall k: nat | k < n
      ensures IsSet(mask, k) <==> k >= e && IsSet(mantissa, k - e)
      ensures IsSet(FloorTo(x, s), k) <==> s <= k < 32 && IsSet(x, k)
      ensures IsSet(FloorTo(y, s), k) <==> s <= k < 32 && IsSet(y, k)
    {
      BoundBits(x, mantissa, e, n, k);
      BoundBits(y, mantissa, e, n, k);
    }
  }

  lemma FloorBelow(x: nat, k: nat)
    ensures FloorTo(x, k) <= x
  {
    FloorToIsFloor(x, k);
  }

  lemma HighBitClear(x: nat, k: nat)
    requires x < WORD
    ensures k >= 32 ==> !IsSet(x, k)
  {
    hide Pow2, Right;
    if k >= 32 {
      PowerValues();
      PowersGrow(32, k);
      RightIsZero(x, k);
    }
  }

  /** The root capability: exponent 24, base mantissa 0, top mantissa 256. */
  function Root(addr: nat): Cap {
    Cap(false, 0x103, 0, addr)
  }

  /** Meant to reach from 0 to 2^32, the root follows its address instead: it is right for the first four addresses only. */
  lemma RootFollowsAddress(addr: nat)
    requires addr < WORD
    ensures DecodeE(Root(addr)) == 24
    ensures GetBase(Root(addr)) == addr / 4 * 4 && GetTop(Root(addr)) == WORD + addr / 4 * 4
    ensures GetBase(Root(addr)) == 0 && GetTop(Root(addr)) == WORD <==> addr < 4
  {
    hide Left, Right, Or;
    var root := Root(addr);
    BaseBeyondRange(root);
    FloorOfFour(addr);
    assert TopMantissa(root) == 256 && BaseMantissa(root) == 0;
    RootTop(addr);
  }

  lemma FloorOfFour(x: nat)
    ensures FloorTo(x, 2) == x / 4 * 4
  {
    hide Left, Right;
    NoPlaces(x);
    NoPlaces(4 * (x / 4));
    TwoPlaces(x, 0);
    TwoPlaces(x / 4, 0);
  }

  /** The top mantissa lands just above the address. */
  lemma RootTop(addr: nat)
    requires addr < WORD
    ensures Left(256, 24) == WORD && Left(0, 2) == 0 && Or(addr / 4 * 4, WORD) == addr / 4 * 4 + WORD
  {
    hide Left, Right, Or;
    LeftOf32(1);
    MorePlaces(64, 24);
    MorePlaces(1, 26);
    FourPlaces(16, 24);
    FourPlaces(1, 28);
    LeftOrder(0, 0, 2);
    PowerValues();
    OrCommutes(addr / 4 * 4, WORD);
    OrIsSum(1, addr / 4 * 4, 32);
  }
}
