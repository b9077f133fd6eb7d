/** Shifts and bitwise or on unsigned numbers. */
module Shifts {
  import opened PowersOfTwo

  type Byte = x: nat | x < 256

  /** `x << k`, before any truncation */
  function Left(x: nat, k: nat): nat {
    if k == 0 then x else 2 * Left(x, k - 1)
  }

  /** `x >> k` */
  function Right(x: nat, k: nat): nat {
    if k == 0 then x else Right(x, k - 1) / 2
  }

  function Or(x: nat, y: nat): nat {
    if x == 0 then y
    else if y == 0 then x
    else 2 * Or(x / 2, y / 2) + if x % 2 == 1 || y % 2 == 1 then 1 else 0
  }

  /** `x` with its `k` low bits cleared */
  function FloorTo(x: nat, k: nat): nat {
    Left(Right(x, k), k)
  }

  lemma {:induction false} LeftAdd(x: nat, y: nat, k: nat)
    ensures Left(x + y, k) == Left(x, k) + Left(y, k)
  {
    if k > 0 {
      LeftAdd(x, y, k - 1);
    }
  }

  lemma {:induction false} LeftOrder(x: nat, y: nat, k: nat)
    ensures x < y ==> Left(x, k) + Pow2(k) <= Left(y, k)
    ensures x == 0 ==> Left(x, k) == 0
    ensures Left(1, k) == Pow2(k)
  {
    if k > 0 {
      LeftOrder(x, y, k - 1);
    }
  }

  /** The quotient and remainder of a shift. */
  lemma {:induction false} RightOfSum(q: nat, r: nat, k: nat)
    requires r < Pow2(k)
    ensures Right(Left(q, k) + r, k) == q
    decreases k
  {
    if k > 0 {
      RightHalf(Left(q, k) + r, k);
      assert (Left(q, k) + r) / 2 == Left(q, k - 1) + r / 2;
      RightOfSum(q, r / 2, k - 1);
    }
  }

  lemma {:induction false} RightHalf(x: nat, k: nat)
    requires k > 0
    ensures Right(x, k) == Right(x / 2, k - 1)
  {
    if k > 1 {
      RightHalf(x, k - 1);
    }
  }

  lemma {:induction false} FloorToIsFloor(x: nat, k: nat)
    ensures FloorTo(x, k) <= x < FloorTo(x, k) + Pow2(k)
  {
    if k > 0 {
      RightHalf(x, k);
      FloorToIsFloor(x / 2, k - 1);
    }
  }

  /** A multiple of `Pow2(k)` passes through a right shift on its own. */
  lemma RightShiftsMultiples(x: nat, q: nat, k: nat)
    ensures Right(x + Left(q, k), k) == Right(x, k) + q
  {
    FloorToIsFloor(x, k);
    LeftAdd(Right(x, k), q, k);
    RightOfSum(Right(x, k) + q, x - FloorTo(x, k), k);
  }

  lemma {:induction false} OrOfLefts(x: nat, y: nat, k: nat)
    ensures Or(Left(x, k), Left(y, k)) == Left(Or(x, y), k)
  {
    if k > 0 {
      OrOfLefts(x, y, k - 1);
      OrDoubles(Left(x, k - 1), Left(y, k - 1));
    }
  }

  lemma OrDoubles(x: nat, y: nat)
    ensures Or(2 * x, 2 * y) == 2 * Or(x, y)
  {
  }

  /** Words that do not overlap add up. */
  lemma {:induction false} OrIsSum(q: nat, y: nat, k: nat)
    requires y < Pow2(k)
    ensures Or(Left(q, k), y) == Left(q, k) + y
    decreases k
  {
    if k > 0 {
      OrIsSum(q, y / 2, k - 1);
    }
  }

  lemma TwoPlaces(x: nat, k: nat)
    ensures Left(x, k + 2) == Left(4 * x, k) && Right(x, k + 2) == Right(x, k) / 4 && Pow2(k + 2) == 4 * Pow2(k)
  {
    LeftAdd(x, x, k);
    LeftAdd(2 * x, 2 * x, k);
    assert Left(x, k + 2) == 2 * Left(x, k + 1);
    assert Right(x, k + 2) == Right(x, k + 1) / 2;
    assert Pow2(k + 2) == 2 * Pow2(k + 1);
  }

  lemma FourPlaces(x: nat, k: nat)
    ensures Left(x, k + 4) == Left(16 * x, k)
  {
    TwoPlaces(x, k + 2);
    TwoPlaces(4 * x, k);
  }

  lemma NoPlaces(x: nat)
    ensures Right(x, 0) == x && Left(x, 0) == x
  {
  }

  lemma ThreePlaces(q: nat)
    ensures Left(q, 3) == 8 * q
  {
    NoPlaces(4 * q);
    TwoPlaces(q, 0);
    assert Left(q, 3) == 2 * Left(q, 2);
  }

  /** A byte placed in the free bits below a number. */
  lemma AppendByte(x: nat, byte: nat, k: nat)
    requires byte < 256
    ensures Or(Left(x, k + 8), Left(byte, k)) == Left(256 * x + byte, k)
  {
    FourPlaces(x, k);
    FourPlaces(x, k + 4);
    FourPlaces(16 * x, k);
    NoPlaces(256 * x);
    FourPlaces(16 * x, 0);
    FourPlaces(x, 4);
    assert Pow2(8) == 256;
    hide Left, Pow2;
    OrIsSum(x, byte, 8);
    OrOfLefts(256 * x, byte, k);
  }

  lemma {:induction false} OrCommutes(x: nat, y: nat)
    ensures Or(x, y) == Or(y, x)
  {
    if x != 0 && y != 0 {
      OrCommutes(x / 2, y / 2);
    }
  }

  lemma {:induction false} LeftLeft(x: nat, j: nat, k: nat)
    ensures Left(Left(x, j), k) == Left(x, j + k)
  {
    if k > 0 {
      LeftLeft(x, j, k - 1);
    }
  }

  lemma LeftOf8(x: nat)
    ensures Left(x, 8) == 256 * x
  {
    NoPlaces(256 * x);
    FourPlaces(x, 4);
    FourPlaces(16 * x, 0);
  }

  lemma LeftOf32(x: nat)
    ensures Left(x, 8) == 256 * x && Left(x, 32) == 0x1_0000_0000 * x
  {
    LeftOf8(x);
    LeftOf8(256 * x);
    LeftLeft(x, 8, 8);
    LeftOf8(65536 * x);
    LeftOf8(256 * (65536 * x));
    LeftLeft(65536 * x, 8, 8);
    LeftLeft(x, 16, 16);
  }

  lemma OrZero(x: nat)
    ensures Or(x, 0) == x
  {
  }

  // ---------------------------------------------------------------------------
  // Bit by bit
  // ---------------------------------------------------------------------------

  /** `x[k]` */
  predicate IsSet(x: nat, k: nat) {
    Right(x, k) % 2 == 1
  }

  /** Dropping the lowest bit renumbers the others. */
  lemma NextBit(x: nat, k: nat)
    ensures k > 0 ==> (IsSet(x, k) <==> IsSet(x / 2, k - 1))
    ensures IsSet(x, 0) <==> x % 2 == 1
  {
    if k > 0 {
      RightHalf(x, k);
    }
  }

  lemma {:induction false} OrBit(x: nat, y: nat, k: nat)
    ensures IsSet(Or(x, y), k) <==> IsSet(x, k) || IsSet(y, k)
    decreases k
  {
    NextBit(x, k);
    NextBit(y, k);
    NextBit(Or(x, y), k);
    hide IsSet;
    if k > 0 {
      OrBit(x / 2, y / 2, k - 1);
      assert Or(x, y) / 2 == Or(x / 2, y / 2);
      NextBit(0, k);
    }
  }

  lemma {:induction false} LeftBit(x: nat, n: nat, k: nat)
    ensures IsSet(Left(x, n), k) <==> k >= n && IsSet(x, k - n)
    decreases n
  {
    if n > 0 {
      NextBit(Left(x, n), k);
      hide IsSet;
      if k > 0 {
        LeftBit(x, n - 1, k - 1);
      }
    }
  }

  lemma {:induction false} RightBit(x: nat, n: nat, k: nat)
    ensures IsSet(Right(x, n), k) <==> IsSet(x, k + n)
    decreases k
  {
    if k > 0 {
      NextBit(Right(x, n), k);
      assert Right(x, n) / 2 == Right(x, n + 1);
      hide IsSet, Right;
      RightBit(x, n + 1, k - 1);
    }
  }

  lemma FloorBit(x: nat, n: nat, k: nat)
    ensures IsSet(FloorTo(x, n), k) <==> k >= n && IsSet(x, k)
  {
    LeftBit(Right(x, n), n, k);
    hide IsSet, Left, Right;
    if k >= n {
      RightBit(x, n, k - n);
    }
  }

  lemma {:induction false} ZeroBit(k: nat)
    ensures !IsSet(0, k)
  {
    if k > 0 {
      NextBit(0, k);
      ZeroBit(k - 1);
    }
  }

  /** The bits below `n` are what is left of a number without its floor. */
  lemma {:induction false} RestBit(x: nat, n: nat, k: nat)
    ensures FloorTo(x, n) <= x
    ensures IsSet(x - FloorTo(x, n), k) <==> k < n && IsSet(x, k)
    decreases n
  {
    FloorToIsFloor(x, n);
    if n == 0 {
      ZeroBit(k);
    } else {
      RightHalf(x, n);
      var rest := x - FloorTo(x, n);
      FloorToIsFloor(x / 2, n - 1);
      assert FloorTo(x, n) == 2 * FloorTo(x / 2, n - 1);
      NextBit(rest, k);
      NextBit(x, k);
      hide IsSet, FloorTo;
      if k > 0 {
        RestBit(x / 2, n - 1, k - 1);
      }
    }
  }

  /** Truncation to 32 or 33 bits. */
  lemma TruncatedBit(x: nat, k: nat)
    ensures IsSet(x % 0x1_0000_0000, k) <==> k < 32 && IsSet(x, k)
    ensures IsSet(x % 0x2_0000_0000, k) <==> k < 33 && IsSet(x, k)
  {
    hide IsSet, FloorTo;
    RestBit(x, 32, k);
    RestBit(x, 33, k);
    Truncated32(x);
    Truncated33(x);
  }

  lemma Truncated32(x: nat)
    ensures FloorTo(x, 32) <= x && x - FloorTo(x, 32) == x % 0x1_0000_0000
  {
    FloorToIsFloor(x, 32);
    LeftOf32(Right(x, 32));
    LeftOf32(1);
    LeftOrder(1, 0, 32);
    hide Left, Right, Pow2;
    RestOf32(x, Right(x, 32));
  }

  lemma RestOf32(x: nat, q: nat)
    requires 0x1_0000_0000 * q <= x < 0x1_0000_0000 * q + 0x1_0000_0000
    ensures x - 0x1_0000_0000 * q == x % 0x1_0000_0000
  {
  }

  lemma Truncated33(x: nat)
    ensures FloorTo(x, 33) <= x && x - FloorTo(x, 33) == x % 0x2_0000_0000
  {
    FloorToIsFloor(x, 33);
    LeftOf32(Right(x, 33));
    DoubleIs(Right(x, 33), 32);
    LeftOf32(1);
    DoubleIs(1, 32);
    LeftOrder(1, 0, 33);
    hide Left, Right, Pow2;
    RestOf33(x, Right(x, 33));
  }

  lemma RestOf33(x: nat, q: nat)
    requires 0x2_0000_0000 * q <= x < 0x2_0000_0000 * q + 0x2_0000_0000
    ensures x - 0x2_0000_0000 * q == x % 0x2_0000_0000
  {
  }

  lemma DoubleIs(x: nat, n: nat)
    ensures Left(x, n + 1) == 2 * Left(x, n)
  {
  }

  lemma {:induction false} OrBelow(x: nat, y: nat, n: nat)
    requires x < Pow2(n) && y < Pow2(n)
    ensures Or(x, y) < Pow2(n)
    decreases n
  {
    if n > 0 {
      OrBelow(x / 2, y / 2, n - 1);
    }
  }

  /** Numbers of `n` bits are equal when their bits are. */
  lemma {:induction false} BitsDecide(x: nat, y: nat, n: nat)
    requires x < Pow2(n) && y < Pow2(n)
    requires forall k: nat | k < n :: IsSet(x, k) <==> IsSet(y, k)
    ensures x == y
    decreases n
  {
    if n > 0 {
      hide IsSet;
      NextBit(x, 0);
      NextBit(y, 0);
      forall k: nat | k < n - 1 ensures IsSet(x / 2, k) <==> IsSet(y / 2, k) {
        NextBit(x, k + 1);
        NextBit(y, k + 1);
        assert IsSet(x, k + 1) <==> IsSet(y, k + 1);
      }
      BitsDecide(x / 2, y / 2, n - 1);
    }
  }

  /** An or with the same word tells two words apart only by the bits that word leaves clear. */
  lemma OrSameIff(x: nat, y: nat, mask: nat, n: nat)
    requires x < Pow2(n) && y < Pow2(n) && mask < Pow2(n)
    ensures Or(x, mask) == Or(y, mask) <==> forall k: nat | k < n && !IsSet(mask, k) :: IsSet(x, k) <==> IsSet(y, k)
  {
    hide Or, Pow2, IsSet;
    forall k: nat | k < n
      ensures IsSet(Or(x, mask), k) <==> IsSet(x, k) || IsSet(mask, k)
      ensures IsSet(Or(y, mask), k) <==> IsSet(y, k) || IsSet(mask, k)
    {
      OrBit(x, mask, k);
      OrBit(y, mask, k);
    }
    if forall k: nat | k < n && !IsSet(mask, k) :: IsSet(x, k) <==> IsSet(y, k) {
      OrBelow(x, mask, n);
      OrBelow(y, mask, n);
      BitsDecide(Or(x, mask), Or(y, mask), n);
    }
  }
}
