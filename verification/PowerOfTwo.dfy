/** Rounding up to a power of two: the bit-propagation loop, its unrolled and
    early-exit variants, and the bit-length form they must all agree with. */
module PowerOfTwo {
  import opened Common
  import opened Words

  /** r is the least power of two that is at least x. */
  ghost predicate LeastPower(r: nat, x: nat) {
    && x <= r
    && (exists k: nat :: r == Pow2(k))
    && (forall k: nat :: x <= Pow2(k) ==> r <= Pow2(k))
  }

  /** The contract shared by all ports for a word of `width` bits. */
  ghost predicate RoundsUp(r: nat, x: nat, width: nat)
    requires width > 0
  {
    if x <= Pow2(width - 1) then LeastPower(r, x) else r == Pow2(width - 1)
  }

  lemma RoundsUpUnique(r: nat, s: nat, x: nat, width: nat)
    requires width > 0 && RoundsUp(r, x, width) && RoundsUp(s, x, width)
    ensures r == s
  {
    if x <= Pow2(width - 1) {
      var k: nat :| r == Pow2(k);
      var l: nat :| s == Pow2(l);
    }
  }

  /** y has a set bit among the `span` positions starting at i. */
  ghost predicate AnyBit(y: nat, i: nat, span: nat)
    decreases span
  {
    span > 0 && (Bit(y, i) || AnyBit(y, i + 1, span - 1))
  }

  lemma {:induction false} AnyBitSplit(y: nat, i: nat, s: nat, t: nat)
    ensures AnyBit(y, i, s + t) <==> AnyBit(y, i, s) || AnyBit(y, i + s, t)
    decreases s
  {
    if s > 0 {
      AnyBitSplit(y, i + 1, s - 1, t);
    }
  }

  /** Every bit of v says whether y has a set bit in the window starting there. */
  ghost predicate Smeared(v: nat, y: nat, span: nat) {
    forall i: nat :: Bit(v, i) <==> AnyBit(y, i, span)
  }

  lemma SmearedStart(y: nat)
    ensures Smeared(y, y, 1)
  {
    forall i: nat ensures Bit(y, i) <==> AnyBit(y, i, 1) {
      assert !AnyBit(y, i + 1, 0);
    }
  }

  /** One propagation step doubles the span. */
  lemma SmearStep(v: nat, y: nat, span: nat)
    requires Smeared(v, y, span)
    ensures Smeared(Or(v, Shr(v, span)), y, 2 * span)
  {
    forall i: nat ensures Bit(Or(v, Shr(v, span)), i) <==> AnyBit(y, i, 2 * span) {
      BitOr(v, Shr(v, span), i);
      BitShr(v, span, i);
      AnyBitSplit(y, i, span, span);
      assert Bit(v, i + span) <==> AnyBit(y, i + span, span);
    }
  }

  /** A shift that wraps to zero changes nothing. */
  lemma SmearIdle(v: nat)
    ensures Or(v, Shr(v, 0)) == v
  {
    forall i: nat ensures Bit(Or(v, v), i) <==> Bit(v, i) {
      BitOr(v, v, i);
    }
    SameBits(Or(v, v), v);
  }

  lemma {:induction false} AnyBitReaches(y: nat, i: nat, span: nat, j: nat)
    requires i <= j < i + span && Bit(y, j)
    ensures AnyBit(y, i, span)
    decreases span
  {
    if i < j {
      AnyBitReaches(y, i + 1, span - 1, j);
    }
  }

  lemma {:induction false} NoBitAbove(y: nat, i: nat, span: nat, n: nat)
    requires y < Pow2(n) && n <= i
    ensures !AnyBit(y, i, span)
    decreases span
  {
    if span > 0 {
      BelowPow2(y, n, i);
      NoBitAbove(y, i + 1, span - 1, n);
    }
  }

  /** Once the span covers the word, all bits below the top one are set. */
  lemma SmearedIsOnes(v: nat, y: nat, width: nat)
    requires y < Pow2(width) && Smeared(v, y, width)
    ensures v == Pow2(BitLength(y)) - 1
  {
    BitLengthBounds(y);
    var n := BitLength(y);
    if width < n { BelowPow2(y, width, n - 1); }
    forall i: nat ensures Bit(v, i) <==> Bit(Pow2(n) - 1, i) {
      BitOfOnes(n, i);
      if i < n {
        AnyBitReaches(y, i, width, n - 1);
      } else {
        NoBitAbove(y, i, width, n);
      }
    }
    SameBits(v, Pow2(n) - 1);
  }

  /** What v + 1 is once v is a block of ones. */
  lemma CarryIsPower(x: nat, width: nat)
    requires width > 0 && 0 < x < Pow2(width)
    ensures var p := Pow2(BitLength(x - 1));
            && p <= Pow2(width)
            && (p == Pow2(width) <==> x > Pow2(width - 1))
            && LeastPower(p, x)
  {
    var n := BitLength(x - 1);
    BitLengthBounds(x - 1);
    forall k: nat | x <= Pow2(k) ensures Pow2(n) <= Pow2(k) {
      if n > 0 {
        Pow2Monotone(n - 1, k);
        Pow2Monotone(k, n - 1);
      }
      Pow2Monotone(n, k);
    }
    if n < width { Pow2Monotone(n, width - 1); }
    if n > width { Pow2Monotone(width, n - 1); }
  }

  /** Adding one to a `width`-bit word wraps around. */
  function Increment(v: nat, width: nat): nat {
    if v + 1 < Pow2(width) then v + 1 else 0
  }

  /** A covered word, incremented and saturated, meets the contract. */
  lemma CarryRoundsUp(v: nat, x: nat, span: nat, width: nat)
    requires 0 < width <= span && 0 < x < Pow2(width)
    requires Smeared(v, x - 1, span)
    ensures var r := Increment(v, width);
            RoundsUp(if r == 0 then Pow2(width - 1) else r, x, width)
  {
    Pow2Monotone(width, span);
    SmearedIsOnes(v, x - 1, span);
    CarryIsPower(x, width);
  }

  lemma PowerOfZero(width: nat)
    requires width > 0
    ensures RoundsUp(1, 0, width)
  {
    assert Pow2(0) == 1;
  }

  /** The generic loop of the C++ template, for any unsigned width. */
  method RoundUpLoop(x: nat, width: nat) returns (r: nat)
    requires width > 0 && x < Pow2(width)
    ensures RoundsUp(r, x, width)
  {
    if x == 0 {
      PowerOfZero(width);
      return 1;
    }
    var v: nat := x - 1;
    ghost var y := v;
    SmearedStart(v);
    var shift := 1;
    while shift < width
      invariant shift >= 1
      invariant Smeared(v, y, shift)
    {
      SmearStep(v, y, shift);
      v := Or(v, Shr(v, shift));
      shift := 2 * shift;
    }
    CarryRoundsUp(v, x, shift, width);
    v := Increment(v, width);
    if v == 0 {
      v := Pow2(width - 1);
    }
    r := v;
  }

  /** Go's early exit: x & (x - 1) vanishes exactly on powers of two. */
  lemma {:induction false} SingleBit(x: nat)
    requires x > 0
    ensures And(x, x - 1) == 0 <==> x == Pow2(BitLength(x) - 1)
  {
    if x % 2 == 1 {
      AndSelf(x / 2);
      assert (x - 1) / 2 == x / 2;
      if x == 1 {
      } else {
        assert Pow2(BitLength(x) - 1) % 2 == 0;
      }
    } else {
      assert (x - 1) / 2 == x / 2 - 1;
      SingleBit(x / 2);
      BitLengthBounds(x / 2);
      assert And(x, x - 1) == 2 * And(x / 2, x / 2 - 1);
    }
  }

  lemma {:induction false} AndSelf(v: nat)
    ensures And(v, v) == v
  {
    if v > 0 {
      AndSelf(v / 2);
    }
  }

  lemma SingleBitRoundsUp(x: nat, width: nat)
    requires width > 0 && 0 < x < Pow2(width) && And(x, x - 1) == 0
    ensures RoundsUp(x, x, width)
  {
    SingleBit(x);
    BitLengthBounds(x);
    Pow2Monotone(width, BitLength(x) - 1);
    Pow2Monotone(BitLength(x) - 1, width - 1);
  }

  /** The Go form, for the 64-bit word and every other width. */
  method RoundUpEarlyExit(x: nat, width: nat) returns (r: nat)
    requires width > 0 && x < Pow2(width)
    ensures RoundsUp(r, x, width)
  {
    if x == 0 {
      PowerOfZero(width);
      return 1;
    }
    if And(x, x - 1) == 0 {
      SingleBitRoundsUp(x, width);
      return x;
    }
    var v: nat := x - 1;
    ghost var y := v;
    SmearedStart(v);
    var shift := 1;
    while shift < width
      invariant shift >= 1
      invariant Smeared(v, y, shift)
    {
      SmearStep(v, y, shift);
      v := Or(v, Shr(v, shift));
      shift := 2 * shift;
    }
    CarryRoundsUp(v, x, shift, width);
    v := Increment(v, width);
    if v == 0 {
      return Pow2(width - 1);
    }
    r := v;
  }

  /** Rust's wrapping_shr reduces the shift modulo the width. */
  function WrappingShr(v: nat, s: nat, width: nat): nat
    requires width > 0
  {
    Shr(v, s % width)
  }

  lemma WrappedAmount(s: nat, width: nat)
    requires width in {8, 16, 32, 64, 128} && s in {1, 2, 4, 8, 16, 32, 64}
    ensures s % width == if s < width then s else 0
  {
  }

  /** `v |= v.wrapping_shr(s)`: it widens the span until the word is covered, then does nothing. */
  method Propagate(v: nat, s: nat, width: nat, ghost y: nat) returns (w: nat)
    requires width in {8, 16, 32, 64, 128} && s in {1, 2, 4, 8, 16, 32, 64}
    requires Smeared(v, y, Min(s, width))
    ensures Smeared(w, y, Min(2 * s, width))
  {
    WrappedAmount(s, width);
    w := Or(v, WrappingShr(v, s, width));
    if s < width {
      SmearStep(v, y, s);
    } else {
      SmearIdle(v);
    }
  }

  /** The seven unrolled shifts that the Rust macro emits for every width. */
  method RoundUpUnrolled(x: nat, width: nat) returns (res: nat)
    requires width in {8, 16, 32, 64, 128} && x < Pow2(width)
    ensures RoundsUp(res, x, width)
  {
    if x == 0 {
      PowerOfZero(width);
      return 1;
    }
    var v: nat := x - 1;
    ghost var y := v;
    SmearedStart(v);
    v := Propagate(v, 1, width, y);
    v := Propagate(v, 2, width, y);
    v := Propagate(v, 4, width, y);
    v := Propagate(v, 8, width, y);
    v := Propagate(v, 16, width, y);
    v := Propagate(v, 32, width, y);
    v := Propagate(v, 64, width, y);
    CarryRoundsUp(v, x, width, width);
    res := Increment(v, width);
    if res == 0 {
      res := Pow2(width - 1);
    }
  }

  /** Python's form on unbounded integers: one shift by the bit length. */
  function RoundUpByLength(x: int, maxBits: nat): nat
    requires maxBits > 0
  {
    if x <= 0 then 1
    else
      var target := BitLength(x - 1);
      if target >= maxBits then Pow2(maxBits - 1) else Pow2(target)
  }

  /** The bit-length form keeps the same contract for every integer, also far beyond the word. */
  lemma ByLengthRoundsUp(x: int, maxBits: nat)
    requires maxBits > 0
    ensures RoundsUp(RoundUpByLength(x, maxBits), if x < 0 then 0 else x, maxBits)
  {
    if x <= 0 {
      PowerOfZero(maxBits);
    } else {
      var n := BitLength(x - 1);
      BitLengthBounds(x - 1);
      Pow2Monotone(x, x);
      if n >= maxBits {
        Pow2Monotone(maxBits - 1, n - 1);
      } else {
        Pow2Monotone(n, maxBits - 1);
        Pow2Monotone(n, maxBits);
        CarryIsPower(x, maxBits);
      }
    }
  }

  /** All ports agree: the contract has exactly one answer, the bit-length form. */
  lemma FormsAgree(r: nat, x: nat, width: nat)
    requires width > 0
    ensures RoundsUp(r, x, width) <==> r == RoundUpByLength(x, width)
  {
    ByLengthRoundsUp(x, width);
    if RoundsUp(r, x, width) {
      RoundsUpUnique(r, RoundUpByLength(x, width), x, width);
    }
  }
}
