/** Python's bitwise operators on non-negative integers.
    Python integers are unbounded, so a mask is a `nat` and bit i of it is
    `Bit(t, i)`. Each operator is specified by what it does to every bit. */
module Bits {

  /** 2 to the power k. */
  function Pow2(k: nat): (r: nat)
    ensures r >= 1
  {
    if k == 0 then 1 else 2 * Pow2(k - 1)
  }

  /** Bit i of t (bit 0 is the least significant). */
  predicate Bit(t: nat, i: nat) {
    if i == 0 then t % 2 == 1 else Bit(t / 2, i - 1)
  }

  /** Zero has no bit set. */
  lemma {:induction false} BitOfZero(i: nat)
    ensures !Bit(0, i)
  {
    if i > 0 {
      BitOfZero(i - 1);
    }
  }

  lemma BitsOfZero()
    ensures forall i: nat :: !Bit(0, i)
  {
    forall i: nat ensures !Bit(0, i) {
      BitOfZero(i);
    }
  }

  /** Bits of 2 * x + c, for a single bit c. */
  lemma BitOfDouble(x: nat, c: nat, i: nat)
    requires c < 2
    ensures Bit(2 * x + c, i) == if i == 0 then c == 1 else Bit(x, i - 1)
  {
  }

  /** Two integers with the same bits are equal. */
  lemma {:induction false} BitExtensionality(a: nat, b: nat)
    requires forall i: nat :: Bit(a, i) == Bit(b, i)
    ensures a == b
    decreases a + b
  {
    if a != b {
      assert Bit(a, 0) == Bit(b, 0);
      forall i: nat ensures Bit(a / 2, i) == Bit(b / 2, i) {
        assert Bit(a, i + 1) == Bit(b, i + 1);
      }
      BitExtensionality(a / 2, b / 2);
    }
  }

  /** An integer below 2^n has no bit at or above position n. */
  lemma {:induction false} BitsAboveWidth(t: nat, n: nat)
    requires t < Pow2(n)
    ensures forall i: nat :: n <= i ==> !Bit(t, i)
  {
    if n == 0 {
      BitsOfZero();
    } else {
      BitsAboveWidth(t / 2, n - 1);
    }
  }

  /** Python `a & b`. */
  function And(a: nat, b: nat): (r: nat)
    ensures forall i: nat :: Bit(r, i) == (Bit(a, i) && Bit(b, i))
    decreases a
  {
    if a == 0 || b == 0 then
      BitsOfZero();
      0
    else
      var r := 2 * And(a / 2, b / 2) + (if a % 2 == 1 && b % 2 == 1 then 1 else 0);
      assert forall i: nat :: Bit(r, i) == (Bit(a, i) && Bit(b, i)) by {
        forall i: nat ensures Bit(r, i) == (Bit(a, i) && Bit(b, i)) {
          BitOfDouble(And(a / 2, b / 2), if a % 2 == 1 && b % 2 == 1 then 1 else 0, i);
        }
      }
      r
  }

  /** Python `a | b`. */
  function Or(a: nat, b: nat): (r: nat)
    ensures forall i: nat :: Bit(r, i) == (Bit(a, i) || Bit(b, i))
    decreases a
  {
    if a == 0 then
      BitsOfZero();
      b
    else if b == 0 then
      BitsOfZero();
      a
    else
      var r := 2 * Or(a / 2, b / 2) + (if a % 2 == 1 || b % 2 == 1 then 1 else 0);
      assert forall i: nat :: Bit(r, i) == (Bit(a, i) || Bit(b, i)) by {
        forall i: nat ensures Bit(r, i) == (Bit(a, i) || Bit(b, i)) {
          BitOfDouble(Or(a / 2, b / 2), if a % 2 == 1 || b % 2 == 1 then 1 else 0, i);
        }
      }
      r
  }

  /** Python `a ^ b`. */
  function Xor(a: nat, b: nat): (r: nat)
    ensures forall i: nat :: Bit(r, i) == (Bit(a, i) != Bit(b, i))
    decreases a
  {
    if a == 0 then
      BitsOfZero();
      b
    else if b == 0 then
      BitsOfZero();
      a
    else
      var r := 2 * Xor(a / 2, b / 2) + (if a % 2 != b % 2 then 1 else 0);
      assert forall i: nat :: Bit(r, i) == (Bit(a, i) != Bit(b, i)) by {
        forall i: nat ensures Bit(r, i) == (Bit(a, i) != Bit(b, i)) {
          BitOfDouble(Xor(a / 2, b / 2), if a % 2 != b % 2 then 1 else 0, i);
        }
      }
      r
  }

  /** Python `a << k`, that is a * 2^k. */
  function ShiftLeft(a: nat, k: nat): (r: nat)
    ensures forall i: nat :: Bit(r, i) == (k <= i && Bit(a, i - k))
    ensures r == a * Pow2(k)
  {
    if k == 0 then
      a
    else
      var r := 2 * ShiftLeft(a, k - 1);
      assert forall i: nat :: Bit(r, i) == (k <= i && Bit(a, i - k)) by {
        forall i: nat ensures Bit(r, i) == (k <= i && Bit(a, i - k)) {
          BitOfDouble(ShiftLeft(a, k - 1), 0, i);
        }
      }
      r
  }

  /** Python `a >> k`, that is floor(a / 2^k). */
  function ShiftRight(a: nat, k: nat): (r: nat)
    ensures forall i: nat :: Bit(r, i) == Bit(a, i + k)
    ensures r * Pow2(k) <= a < (r + 1) * Pow2(k)
  {
    if k == 0 then
      a
    else
      var r := ShiftRight(a / 2, k - 1);
      HalvingBounds(a, r, Pow2(k - 1));
      r
  }

  /** If r * p <= a / 2 < (r + 1) * p then r * 2p <= a < (r + 1) * 2p. */
  lemma HalvingBounds(a: nat, r: nat, p: nat)
    requires r * p <= a / 2 < (r + 1) * p
    ensures r * (2 * p) <= a < (r + 1) * (2 * p)
  {
    var q := a / 2;
    assert a == 2 * q + a % 2;
    assert r * (2 * p) == 2 * (r * p);
    assert (r + 1) * (2 * p) == 2 * ((r + 1) * p);
  }

  /** The bits of a power of two: `1 << k` has exactly bit k set. */
  lemma PowerOfTwoBits(k: nat)
    ensures Pow2(k) == ShiftLeft(1, k)
    ensures forall i: nat :: Bit(Pow2(k), i) == (i == k)
  {
    assert Bit(1, 0);
    forall i: nat ensures Bit(1, i) == (i == 0) {
      if i > 0 {
        BitOfZero(i - 1);
      }
    }
  }

  /** `a & (1 << k)` is non-zero exactly when bit k of a is set. */
  lemma AndPowerOfTwo(a: nat, k: nat)
    ensures (And(a, Pow2(k)) != 0) == Bit(a, k)
  {
    PowerOfTwoBits(k);
    BitsOfZero();
    if !Bit(a, k) {
      BitExtensionality(And(a, Pow2(k)), 0);
    }
  }
}
