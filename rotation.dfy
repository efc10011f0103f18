/** The reference meaning of one tag-cycling step: an n-bit tag mask read as a
    little-endian sequence of n bits, rotated by one position. Also the
    bit-level description of the step as the source computes it, for every
    input, and the proof that the two agree on masks below 2^n. */
module Rotation {
  import opened Bits

  /** The low n bits of t, least significant first. */
  function ToBits(t: nat, n: nat): (s: seq<bool>)
    ensures |s| == n
    ensures forall i :: 0 <= i < n ==> s[i] == Bit(t, i)
  {
    seq(n, i requires 0 <= i => Bit(t, i))
  }

  /** The integer whose bits, least significant first, are s. */
  function FromBits(s: seq<bool>): (r: nat) {
    if s == [] then 0 else (if s[0] then 1 else 0) + 2 * FromBits(s[1..])
  }

  lemma {:induction false} BitOfFromBits(s: seq<bool>, i: nat)
    ensures Bit(FromBits(s), i) == (i < |s| && s[i])
  {
    if s == [] {
      BitOfZero(i);
    } else {
      BitOfDouble(FromBits(s[1..]), if s[0] then 1 else 0, i);
      if i > 0 {
        BitOfFromBits(s[1..], i - 1);
      }
    }
  }

  lemma {:induction false} FromBitsBound(s: seq<bool>)
    ensures FromBits(s) < Pow2(|s|)
  {
    if s != [] {
      FromBitsBound(s[1..]);
    }
  }

  /** Reading the low n bits of a mask below 2^n and reassembling them gives the mask back. */
  lemma FromBitsToBits(t: nat, n: nat)
    requires t < Pow2(n)
    ensures FromBits(ToBits(t, n)) == t
  {
    BitsAboveWidth(t, n);
    forall i: nat ensures Bit(FromBits(ToBits(t, n)), i) == Bit(t, i) {
      BitOfFromBits(ToBits(t, n), i);
    }
    BitExtensionality(FromBits(ToBits(t, n)), t);
  }

  /** Splitting an integer into n bits recovers the n-bit sequence it was built from. */
  lemma ToBitsFromBits(s: seq<bool>)
    ensures ToBits(FromBits(s), |s|) == s
  {
    forall i | 0 <= i < |s| ensures ToBits(FromBits(s), |s|)[i] == s[i] {
      BitOfFromBits(s, i);
    }
  }

  /** The sequence rotation that moves every element one place up, the top one to the bottom. */
  function RotateSeqUp(s: seq<bool>): (r: seq<bool>)
    requires |s| >= 1
    ensures |r| == |s|
    ensures r[0] == s[|s| - 1]
    ensures forall i :: 0 <= i < |s| - 1 ==> r[i + 1] == s[i]
  {
    [s[|s| - 1]] + s[..|s| - 1]
  }

  /** The sequence rotation that moves every element one place down, the bottom one to the top. */
  function RotateSeqDown(s: seq<bool>): (r: seq<bool>)
    requires |s| >= 1
    ensures |r| == |s|
    ensures r[|s| - 1] == s[0]
    ensures forall i :: 0 <= i < |s| - 1 ==> r[i] == s[i + 1]
  {
    s[1..] + [s[0]]
  }

  /** The n-bit cyclic left rotation of t: tag i becomes tag i + 1, the last tag becomes the first. */
  function RotateLeft(t: nat, n: nat): (r: nat)
    requires n >= 1
  {
    FromBits(RotateSeqUp(ToBits(t, n)))
  }

  /** The n-bit cyclic right rotation of t: tag i + 1 becomes tag i, the first tag becomes the last. */
  function RotateRight(t: nat, n: nat): (r: nat)
    requires n >= 1
  {
    FromBits(RotateSeqDown(ToBits(t, n)))
  }

  /** Number of set bits (Hamming weight) of t. */
  function PopCount(t: nat): (r: nat)
    decreases t
  {
    if t == 0 then 0 else t % 2 + PopCount(t / 2)
  }

  /** The number of set bits of an assembled integer is the number of `true`s in its bits. */
  lemma {:induction false} PopCountFromBits(s: seq<bool>)
    ensures PopCount(FromBits(s)) == multiset(s)[true]
  {
    if s != [] {
      assert s == [s[0]] + s[1..];
      PopCountFromBits(s[1..]);
      FromBitsBound(s[1..]);
    }
  }

  /** Every tag of a mask below 2^n moves up by one, the last tag wraps to the first,
      and nothing lands at or above bit n. */
  lemma RotateLeftBits(t: nat, n: nat)
    requires n >= 1 && t < Pow2(n)
    ensures forall i: nat :: i < n ==> Bit(RotateLeft(t, n), if i + 1 < n then i + 1 else 0) == Bit(t, i)
    ensures forall i: nat :: n <= i ==> !Bit(RotateLeft(t, n), i)
  {
    var s := RotateSeqUp(ToBits(t, n));
    forall i: nat ensures Bit(FromBits(s), i) == (i < n && s[i]) {
      BitOfFromBits(s, i);
    }
  }

  /** Every tag of a mask below 2^n moves down by one, the first tag wraps to the last,
      and nothing lands at or above bit n. */
  lemma RotateRightBits(t: nat, n: nat)
    requires n >= 1 && t < Pow2(n)
    ensures forall i: nat :: i < n ==> Bit(RotateRight(t, n), if i == 0 then n - 1 else i - 1) == Bit(t, i)
    ensures forall i: nat :: n <= i ==> !Bit(RotateRight(t, n), i)
  {
    var s := RotateSeqDown(ToBits(t, n));
    forall i: nat ensures Bit(FromBits(s), i) == (i < n && s[i]) {
      BitOfFromBits(s, i);
    }
  }

  /** Both rotations keep a mask inside n bits and keep its number of set tags. */
  lemma RotationPreservesWidthAndCount(t: nat, n: nat)
    requires n >= 1 && t < Pow2(n)
    ensures RotateLeft(t, n) < Pow2(n) && RotateRight(t, n) < Pow2(n)
    ensures PopCount(RotateLeft(t, n)) == PopCount(t)
    ensures PopCount(RotateRight(t, n)) == PopCount(t)
  {
    var b := ToBits(t, n);
    FromBitsBound(RotateSeqUp(b));
    FromBitsBound(RotateSeqDown(b));
    assert b == b[..n - 1] + [b[n - 1]];
    assert b == [b[0]] + b[1..];
    PopCountFromBits(RotateSeqUp(b));
    PopCountFromBits(RotateSeqDown(b));
    PopCountFromBits(b);
    FromBitsToBits(t, n);
  }

  /** Cycling backward undoes cycling forward, and forward undoes backward. */
  lemma RotationsAreInverse(t: nat, n: nat)
    requires n >= 1 && t < Pow2(n)
    ensures RotateRight(RotateLeft(t, n), n) == t
    ensures RotateLeft(RotateRight(t, n), n) == t
  {
    var b := ToBits(t, n);
    ToBitsFromBits(RotateSeqUp(b));
    ToBitsFromBits(RotateSeqDown(b));
    assert RotateSeqDown(RotateSeqUp(b)) == b;
    assert RotateSeqUp(RotateSeqDown(b)) == b;
    FromBitsToBits(t, n);
  }

  /** What the forward step of the source yields for ANY mask t: bit n - 1 wraps to
      bit 0, every other bit i moves to i + 1, including bits at or above n, which
      are never masked off; bit n of the result is clear. */
  ghost predicate ForwardStep(t: nat, n: nat, r: nat)
    requires n >= 1
  {
    forall i: nat :: Bit(r, i) == if i == 0 then Bit(t, n - 1) else i != n && Bit(t, i - 1)
  }

  /** What the backward step of the source yields for ANY mask t: bit 0 wraps to
      bit n - 1, every other bit i + 1 moves to i; bit n moves to n - 1 too, where
      it merges with the wrapped bit. */
  ghost predicate BackwardStep(t: nat, n: nat, r: nat)
    requires n >= 1
  {
    forall i: nat :: Bit(r, i) == if i == n - 1 then Bit(t, 0) || Bit(t, n) else Bit(t, i + 1)
  }

  /** On a mask below 2^n the forward step is the n-bit left rotation. */
  lemma ForwardStepIsRotateLeft(t: nat, n: nat, r: nat)
    requires n >= 1 && t < Pow2(n) && ForwardStep(t, n, r)
    ensures r == RotateLeft(t, n)
  {
    BitsAboveWidth(t, n);
    RotateLeftBits(t, n);
    forall i: nat ensures Bit(r, i) == Bit(RotateLeft(t, n), i) {
      if 0 < i < n {
        assert Bit(RotateLeft(t, n), i) == Bit(t, i - 1);
      } else if i == 0 {
        assert Bit(RotateLeft(t, n), 0) == Bit(t, n - 1);
      }
    }
    BitExtensionality(r, RotateLeft(t, n));
  }

  /** On a mask below 2^n the backward step is the n-bit right rotation. */
  lemma BackwardStepIsRotateRight(t: nat, n: nat, r: nat)
    requires n >= 1 && t < Pow2(n) && BackwardStep(t, n, r)
    ensures r == RotateRight(t, n)
  {
    BitsAboveWidth(t, n);
    RotateRightBits(t, n);
    forall i: nat ensures Bit(r, i) == Bit(RotateRight(t, n), i) {
      if i + 1 < n {
        assert Bit(RotateRight(t, n), i) == Bit(t, i + 1);
      } else if i + 1 == n {
        assert Bit(RotateRight(t, n), n - 1) == Bit(t, 0);
      }
    }
    BitExtensionality(r, RotateRight(t, n));
  }
}
