/** Pointers of the two-clock FIFO as bit vectors, and their Gray encoding. */
module Gray {
  import opened PowersOfTwo
  import opened RingCount

  /** The `w` low bits of `x`, least significant first. */
  function Bits(w: nat, x: nat): (b: seq<bool>)
    ensures |b| == w
  {
    if w == 0 then [] else [x % 2 == 1] + Bits(w - 1, x / 2)
  }

  /** `b ^ (b >> 1)`: each bit is compared with the next more significant one. */
  function GrayOf(b: seq<bool>): (g: seq<bool>)
    ensures |g| == |b|
  {
    seq(|b|, i requires 0 <= i < |b| => b[i] != (i + 1 < |b| && b[i + 1]))
  }

  /** The Gray word a `w`-bit register holding `x` drives. */
  function Encode(w: nat, x: nat): (g: seq<bool>)
    ensures |g| == w
  {
    GrayOf(Bits(w, x))
  }

  /** What a register may capture from `before` while it is turning into `after`: the bits in
      `late` arrive new, the others old. */
  function Sample(before: seq<bool>, after: seq<bool>, late: set<nat>): (s: seq<bool>)
    requires |before| == |after|
    ensures |s| == |before|
  {
    seq(|before|, i requires 0 <= i < |before| => if i in late then after[i] else before[i])
  }

  /** A sample is any mixture of old and new bits, and every mixture is one. */
  lemma SampleIsAnyMixture(before: seq<bool>, after: seq<bool>, s: seq<bool>)
    requires |before| == |after| == |s|
    ensures (exists late :: Sample(before, after, late) == s) <==> (forall i | 0 <= i < |s| :: s[i] == before[i] || s[i] == after[i])
  {
    if forall i | 0 <= i < |s| :: s[i] == before[i] || s[i] == after[i] {
      var late := set i: nat | i < |s| && s[i] == after[i];
      assert Sample(before, after, late) == s;
    }
  }

  ghost predicate DifferAt(a: seq<bool>, b: seq<bool>, i: nat)
    requires |a| == |b|
  {
    i < |a| && a[i] != b[i] && forall j | 0 <= j < |a| && j != i :: a[j] == b[j]
  }

  /** The emitted full test on two Gray words: the two top bits differ, the rest agree. */
  predicate FullTest(wr: seq<bool>, rd: seq<bool>)
    requires |wr| == |rd| >= 2
  {
    var top := |wr| - 1;
    wr[top] != rd[top] && wr[top - 1] != rd[top - 1] && wr[..top - 1] == rd[..top - 1]
  }

  /** Dropping the least significant bit commutes with the encoding. */
  lemma EncodeTail(w: nat, x: nat)
    requires w > 0
    ensures Encode(w, x)[1..] == Encode(w - 1, x / 2)
    ensures Encode(w, x)[0] == ((x % 2 == 1) != (w > 1 && x / 2 % 2 == 1))
  {
  }

  /** `x >> i` */
  function Halved(x: nat, i: nat): nat {
    if i == 0 then x else Halved(x / 2, i - 1)
  }

  /** Bit by bit the encoding is `x ^ (x >> 1)`; so the reset value, zero, is its own code. */
  lemma {:induction false} EncodeIsXor(w: nat, x: nat, i: nat)
    requires i < w && x < Pow2(w)
    ensures Encode(w, x)[i] <==> Halved(x, i) % 2 != Halved(x, i + 1) % 2
    ensures x == 0 ==> !Encode(w, x)[i]
  {
    EncodeTail(w, x);
    if i == 0 {
      assert Halved(x, 1) == Halved(x / 2, 0);
      if w == 1 {
        assert x / 2 == 0;
      }
    } else {
      EncodeIsXor(w - 1, x / 2, i - 1);
      assert Encode(w, x)[i] == Encode(w, x)[1..][i - 1];
    }
  }

  lemma {:induction false} EncodeInjective(w: nat, x: nat, y: nat)
    requires x < Pow2(w) && y < Pow2(w)
    requires Encode(w, x) == Encode(w, y)
    ensures x == y
  {
    if w > 0 {
      EncodeTail(w, x);
      EncodeTail(w, y);
      EncodeInjective(w - 1, x / 2, y / 2);
    }
  }

  /** Two words that agree at bit 0 differ exactly where their tails do. */
  lemma DifferInTail(a: seq<bool>, b: seq<bool>, k: nat)
    requires |a| == |b| > 0 && a[0] == b[0]
    requires DifferAt(a[1..], b[1..], k)
    ensures DifferAt(a, b, k + 1)
  {
  }

  lemma {:induction false} NextIsAdjacent(w: nat, x: nat) returns (i: nat)
    requires w > 0 && x < Pow2(w)
    ensures DifferAt(Encode(w, x), Encode(w, Succ(Pow2(w), x)), i)
  {
    var y := Succ(Pow2(w), x);
    EncodeTail(w, x);
    EncodeTail(w, y);
    var g, h := Encode(w, x), Encode(w, y);
    if x % 2 == 0 || w == 1 {
      assert x / 2 == y / 2;
      assert forall j | 0 < j < w :: g[j] == g[1..][j - 1] && h[j] == h[1..][j - 1];
      i := 0;
    } else {
      assert y / 2 == Succ(Pow2(w - 1), x / 2);
      var k := NextIsAdjacent(w - 1, x / 2);
      assert Pow2(w - 1) == 2 * Pow2(w - 2);
      assert (y / 2) % 2 != (x / 2) % 2;
      DifferInTail(g, h, k);
      i := k + 1;
    }
  }

  /** Only one bit moves, so a torn sample is still the old or the new pointer. */
  lemma SampleIsOldOrNew(w: nat, x: nat, late: set<nat>)
    requires w > 0 && x < Pow2(w)
    ensures var s := Sample(Encode(w, x), Encode(w, Succ(Pow2(w), x)), late);
            s == Encode(w, x) || s == Encode(w, Succ(Pow2(w), x))
  {
    var i := NextIsAdjacent(w, x);
    var s := Sample(Encode(w, x), Encode(w, Succ(Pow2(w), x)), late);
    if i in late {
      assert s == Encode(w, Succ(Pow2(w), x));
    } else {
      assert s == Encode(w, x);
    }
  }

  lemma FullTestTail(g: seq<bool>, h: seq<bool>)
    requires |g| == |h| >= 3
    ensures FullTest(g, h) <==> FullTest(g[1..], h[1..]) && g[0] == h[0]
  {
  }

  ghost predicate HalfLap(w: nat, x: nat, y: nat)
    requires w > 0
  {
    x == y + Pow2(w - 1) || y == x + Pow2(w - 1)
  }

  lemma HalfLapTail(w: nat, x: nat, y: nat)
    requires w >= 3
    ensures HalfLap(w, x, y) <==> HalfLap(w - 1, x / 2, y / 2) && x % 2 == y % 2
    ensures HalfLap(w - 1, x / 2, y / 2) ==> x / 2 % 2 == y / 2 % 2
  {
  }

  lemma FullTestTwoBits(x: nat, y: nat)
    requires x < 4 && y < 4
    ensures FullTest(Encode(2, x), Encode(2, y)) <==> HalfLap(2, x, y)
  {
  }

  /** The full test on Gray words holds exactly when the binary pointers are half a lap apart. */
  lemma {:induction false} FullTestIsHalfLap(w: nat, x: nat, y: nat)
    requires w >= 2 && x < Pow2(w) && y < Pow2(w)
    ensures FullTest(Encode(w, x), Encode(w, y)) <==> HalfLap(w, x, y)
  {
    if w == 2 {
      assert Pow2(1) == 2 && Pow2(2) == 4;
      FullTestTwoBits(x, y);
    } else {
      EncodeTail(w, x);
      EncodeTail(w, y);
      FullTestIsHalfLap(w - 1, x / 2, y / 2);
      FullTestTail(Encode(w, x), Encode(w, y));
      HalfLapTail(w, x, y);
    }
  }
}
