/**
 How a slot's address leads to its block: blocks are aligned to the least power of two that
 is no less than their size, so clearing the low bits of any address inside one gives its start.
 Addresses and sizes are of `bits` bits, whatever the width of the machine.
 */
module BlockAddress {

  function Pow2(k: nat): (p: nat)
    ensures p >= 1
  {
    if k == 0 then 1 else 2 * Pow2(k - 1)
  }

  lemma {:induction false} Pow2Grows(j: nat, k: nat)
    requires j <= k
    ensures Pow2(j) <= Pow2(k)
    decreases k
  {
    if j < k { Pow2Grows(j, k - 1); }
  }

  /** next_power_of_two__: doubling from one. A shift loses the top bit of a word. */
  method NextPowerOfTwo(bits: nat, value: nat) returns (result: nat, ghost k: nat)
    requires bits > 0 && value <= Pow2(bits - 1)
    ensures k < bits && result == Pow2(k) && value <= result
    ensures forall j: nat | value <= Pow2(j) :: k <= j
  {
    result, k := 1, 0;
    while result < value
      invariant k < bits && result == Pow2(k)
      invariant forall j: nat | j < k :: Pow2(j) < value
      decreases bits - k
    {
      Doubles(bits, k, value);
      result := result * 2 % Pow2(bits);
      k := k + 1;
    }
  }

  lemma Doubles(bits: nat, k: nat, value: nat)
    requires bits > 0 && k < bits && Pow2(k) < value <= Pow2(bits - 1)
    ensures k + 1 < bits && Pow2(k) * 2 % Pow2(bits) == Pow2(k + 1)
  {
    assert k != bits - 1;
    Pow2Grows(k + 1, bits - 1);
    assert Pow2(k) * 2 == Pow2(k + 1) < Pow2(bits) by { assert Pow2(bits) == 2 * Pow2(bits - 1); }
    SmallRemainder(Pow2(k + 1), Pow2(bits));
  }

  lemma SmallRemainder(x: nat, d: nat)
    requires x < d
    ensures x % d == x
  {
  }

  /** Bitwise and of the low `bits` bits. */
  function And(x: nat, y: nat, bits: nat): nat {
    if bits == 0 then 0 else 2 * And(x / 2, y / 2, bits - 1) + (x % 2) * (y % 2)
  }

  function Not(x: nat, bits: nat): nat
    requires x < Pow2(bits)
  {
    Pow2(bits) - 1 - x
  }

  /** The low `k` bits. */
  function Low(x: nat, k: nat): nat {
    if k == 0 then 0 else 2 * Low(x / 2, k - 1) + x % 2
  }

  lemma {:induction false} LowIsRemainder(x: nat, k: nat)
    ensures Low(x, k) == x % Pow2(k)
    decreases k
  {
    if k > 0 {
      LowIsRemainder(x / 2, k - 1);
      HalfRemainder(x, Pow2(k - 1));
    }
  }

  /** Ones from bit `k` up. */
  function Ones(k: nat, bits: nat): nat
    requires k <= bits
  {
    if bits == 0 then 0 else if k == 0 then 2 * Ones(0, bits - 1) + 1 else 2 * Ones(k - 1, bits - 1)
  }

  lemma {:induction false} OnesAreTheMask(k: nat, bits: nat)
    requires k <= bits
    ensures Ones(k, bits) + Pow2(k) == Pow2(bits)
    decreases bits
  {
    if bits > 0 { OnesAreTheMask(if k == 0 then 0 else k - 1, bits - 1); }
  }

  /** Masking with ones from bit `k` up clears what is below. */
  lemma {:induction false} MaskClears(x: nat, k: nat, bits: nat)
    requires k <= bits && x < Pow2(bits)
    ensures And(x, Ones(k, bits), bits) + Low(x, k) == x
    decreases bits
  {
    if bits > 0 {
      var m := if k == 0 then Ones(0, bits - 1) else Ones(k - 1, bits - 1);
      assert (2 * m + 1) / 2 == m && (2 * m + 1) % 2 == 1 && (2 * m) / 2 == m && (2 * m) % 2 == 0;
      MaskClears(x / 2, if k == 0 then 0 else k - 1, bits - 1);
    }
  }

  lemma HalfRemainder(x: nat, p: nat)
    requires p > 0
    ensures x % (2 * p) == 2 * ((x / 2) % p) + x % 2
  {
    var h, r, b := x / 2 / p, x / 2 % p, x % 2;
    assert x / 2 == h * p + r;
    assert x == (2 * p) * h + (2 * r + b);
    RemainderOf(x, 2 * p, h, 2 * r + b);
  }

  lemma MulAtLeast(d: nat, m: int)
    ensures m >= 1 ==> d * m >= d
    ensures m <= -1 ==> d * m <= -(d as int)
  {
    assert d * m == d + d * (m - 1);
    assert d * m == d * (m + 1) - d;
  }

  lemma RemainderOf(x: nat, d: nat, q: nat, r: nat)
    requires d > 0 && x == d * q + r && r < d
    ensures x % d == r
  {
    assert x == d * (x / d) + x % d;
    assert d * (x / d - q) == r - x % d;
    MulAtLeast(d, x / d - q);
  }

  /** unsafe_block_from_slot: the mask recovers the block from any address inside it. */
  lemma SlotFindsBlock(bits: nat, size: nat, k: nat, number: nat, offset: nat)
    requires size <= Pow2(k) && k <= bits && offset < size
    requires Pow2(k) * number + Pow2(k) <= Pow2(bits)
    ensures Pow2(k) <= Pow2(bits)
    ensures var base := Pow2(k) * number; And(base + offset, Not(Pow2(k) - 1, bits), bits) == base
  {
    OnesAreTheMask(k, bits);
    MaskClears(Pow2(k) * number + offset, k, bits);
    LowIsRemainder(Pow2(k) * number + offset, k);
    RemainderOf(Pow2(k) * number + offset, Pow2(k), number, offset);
  }
}
