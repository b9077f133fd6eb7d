/** A pointer that counts around a ring of `m` places. */
module RingCount {

  /** The place after `x`. */
  function Succ(m: nat, x: nat): (y: nat)
    requires x < m
    ensures y < m
  {
    if x + 1 == m then 0 else x + 1
  }

  /** Where the pointer stands after `k` steps from place 0. */
  function Place(m: nat, k: nat): (x: nat)
    requires m > 0
    ensures x < m
  {
    if k == 0 then 0 else Succ(m, Place(m, k - 1))
  }

  /** `d` steps further on, for any distance shorter than a lap, and a lap exactly. */
  lemma {:induction false} PlaceAhead(m: nat, k: nat, d: nat)
    requires 0 < m && d <= m
    ensures Place(m, k + d) == if Place(m, k) + d < m then Place(m, k) + d else Place(m, k) + d - m
    decreases d
  {
    if d > 0 {
      PlaceAhead(m, k, d - 1);
    }
  }

  lemma PlacesDiffer(m: nat, i: nat, j: nat)
    requires i < j < i + m
    ensures Place(m, i) != Place(m, j)
  {
    PlaceAhead(m, i, j - i);
  }

  /** A ring twice as long passes over the same places twice. */
  lemma {:induction false} PlaceInHalf(m: nat, k: nat)
    requires m > 0
    ensures Place(m, k) == if Place(2 * m, k) < m then Place(2 * m, k) else Place(2 * m, k) - m
  {
    if k > 0 {
      PlaceInHalf(m, k - 1);
    }
  }
}
