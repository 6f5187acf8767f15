/** next_pow2 and the buffers that grow by it. */
module GrowBuffer {
  import opened Words

  // ----- Bits of a size -----

  function Pow2(k: nat): (p: nat)
    ensures p >= 1
  {
    if k == 0 then 1 else 2 * Pow2(k - 1)
  }

  function Shr(x: nat, k: nat): nat {
    if k == 0 then x else Shr(x / 2, k - 1)
  }

  function Or(a: nat, b: nat): (r: nat)
    ensures r >= a && r >= b
    decreases a + b
  {
    if a == 0 then b else if b == 0 then a
    else 2 * Or(a / 2, b / 2) + if a % 2 == 1 || b % 2 == 1 then 1 else 0
  }

  predicate Bit(x: nat, k: nat) {
    if k == 0 then x % 2 == 1 else Bit(x / 2, k - 1)
  }

  lemma {:induction false} ZeroHasNoBits(k: nat)
    ensures !Bit(0, k)
  {
    if k > 0 {
      ZeroHasNoBits(k - 1);
    }
  }

  lemma {:induction false} BitOfOr(a: nat, b: nat, k: nat)
    ensures Bit(Or(a, b), k) <==> Bit(a, k) || Bit(b, k)
    decreases k
  {
    ZeroHasNoBits(k);
    if a != 0 && b != 0 && k > 0 {
      BitOfOr(a / 2, b / 2, k - 1);
    }
  }

  lemma {:induction false} BitOfShr(x: nat, n: nat, k: nat)
    ensures Bit(Shr(x, n), k) <==> Bit(x, n + k)
    decreases n
  {
    if n > 0 {
      BitOfShr(x / 2, n - 1, k);
    }
  }

  /** How many bits a size takes. */
  function Width(x: nat): nat {
    if x == 0 then 0 else 1 + Width(x / 2)
  }

  lemma {:induction false} WidthBounds(x: nat)
    ensures x < Pow2(Width(x))
    ensures x > 0 ==> Pow2(Width(x) - 1) <= x && Bit(x, Width(x) - 1)
  {
    if x > 0 {
      WidthBounds(x / 2);
    }
  }

  lemma {:induction false} NoBitPastWidth(x: nat, k: nat)
    requires k >= Width(x)
    ensures !Bit(x, k)
  {
    if x == 0 {
      ZeroHasNoBits(k);
    } else {
      NoBitPastWidth(x / 2, k - 1);
    }
  }

  ghost predicate OnesBelow(x: nat, p: nat) {
    forall k: nat :: Bit(x, k) <==> k < p
  }

  lemma OnesOfHalf(x: nat, p: nat)
    requires p > 0
    ensures OnesBelow(x, p) <==> x % 2 == 1 && OnesBelow(x / 2, p - 1)
  {
    if OnesBelow(x, p) {
      assert Bit(x, 0);
      forall k: nat
        ensures Bit(x / 2, k) <==> k < p - 1
      {
        assert Bit(x, k + 1) <==> k + 1 < p;
      }
    }
    if x % 2 == 1 && OnesBelow(x / 2, p - 1) {
      forall k: nat
        ensures Bit(x, k) <==> k < p
      {
        if k > 0 {
          assert Bit(x / 2, k - 1) <==> k - 1 < p - 1;
        }
      }
    }
  }

  /** A size with exactly its low `p` bits set is one less than a power of two, and the other way round. */
  lemma {:induction false} AllOnes(x: nat, p: nat)
    ensures x + 1 == Pow2(p) <==> OnesBelow(x, p)
    decreases p
  {
    if p == 0 {
      if x > 0 {
        WidthBounds(x);
      } else {
        forall k: nat
          ensures !Bit(x, k)
        {
          ZeroHasNoBits(k);
        }
      }
    } else {
      AllOnes(x / 2, p - 1);
      OnesOfHalf(x, p);
    }
  }

  lemma {:induction false} Pow2Above(b: nat, a: nat)
    requires b <= a
    ensures Pow2(b) <= Pow2(a)
    decreases a
  {
    if b < a {
      Pow2Above(b, a - 1);
    }
  }

  lemma {:induction false} Pow2Grows(a: nat, b: nat)
    ensures a < b ==> 2 * Pow2(a) <= Pow2(b)
    ensures Pow2(a) < Pow2(b) ==> a < b
    decreases b
  {
    if a < b {
      if a < b - 1 {
        Pow2Grows(a, b - 1);
      }
    } else if b < a {
      Pow2Above(b, a);
    }
  }

  // ----- next_pow2 -----

  /** Some of the `n` bits from `b` up is set. */
  ghost predicate Window(x: nat, b: nat, n: nat) {
    exists k :: b <= k < b + n && Bit(x, k)
  }

  ghost predicate Smeared(x: nat, y: nat, n: nat) {
    forall b: nat :: Bit(y, b) <==> Window(x, b, n)
  }

  /** Or-ing in what is shifted by the width smeared so far doubles it. */
  lemma SmearDoubles(x: nat, y: nat, n: nat)
    requires Smeared(x, y, n)
    ensures Smeared(x, Or(y, Shr(y, n)), 2 * n)
  {
    var z := Or(y, Shr(y, n));
    forall b: nat
      ensures Bit(z, b) <==> Window(x, b, 2 * n)
    {
      BitOfOr(y, Shr(y, n), b);
      BitOfShr(y, n, b);
      assert Bit(z, b) <==> Window(x, b, n) || Window(x, n + b, n);
    }
  }

  function Smear(x: nat): (y: nat)
    ensures y >= x
  {
    var a := Or(x, Shr(x, 1));
    var b := Or(a, Shr(a, 2));
    var c := Or(b, Shr(b, 4));
    var d := Or(c, Shr(c, 8));
    Or(d, Shr(d, 16))
  }

  lemma StartSmear(x: nat)
    ensures Smeared(x, x, 1)
  {
  }

  lemma SmearCoversWindows(x: nat)
    ensures Smeared(x, Smear(x), 32)
  {
    hide Or, Shr, Bit, Smeared;
    StartSmear(x);
    var a := Or(x, Shr(x, 1));
    SmearDoubles(x, x, 1);
    var b := Or(a, Shr(a, 2));
    SmearDoubles(x, a, 2);
    var c := Or(b, Shr(b, 4));
    SmearDoubles(x, b, 4);
    SmearDoubles(x, c, 8);
    var d := Or(c, Shr(c, 8));
    SmearDoubles(x, d, 16);
  }

  /** 32 clear bits in a row below a set one. */
  ghost predicate Gap(x: nat, b: nat) {
    b < Width(x) && !Window(x, b, 32)
  }

  ghost predicate HasGap(x: nat) {
    exists b: nat :: Gap(x, b)
  }

  lemma NothingAbove(x: nat, b: nat)
    requires b >= Width(x)
    ensures !Window(x, b, 32)
  {
    forall k | b <= k < b + 32
      ensures !Bit(x, k)
    {
      NoBitPastWidth(x, k);
    }
  }

  /** Smearing by 31 places fills everything below the top bit exactly when there is no such gap. */
  lemma SmearFills(x: nat)
    ensures Smear(x) + 1 == Pow2(Width(x)) <==> !HasGap(x)
  {
    hide Smear, Bit;
    SmearCoversWindows(x);
    var y, w := Smear(x), Width(x);
    AllOnes(y, w);
    if !HasGap(x) {
      forall k: nat
        ensures Bit(y, k) <==> k < w
      {
        if k < w {
          assert !Gap(x, k);
        } else {
          NothingAbove(x, k);
        }
      }
    } else {
      var b: nat :| Gap(x, b);
      assert !Bit(y, b);
    }
  }

  /** The power of two the function is named for: the least that is no smaller than `n`. */
  ghost predicate IsLeastPower(n: nat, p: nat) {
    n <= Pow2(p) && forall q: nat :: n <= Pow2(q) ==> p <= q
  }

  lemma WidthIsLeastPower(n: nat)
    requires n >= 1
    ensures IsLeastPower(n, Width(n - 1))
  {
    WidthBounds(n - 1);
    forall q: nat | n <= Pow2(q)
      ensures Width(n - 1) <= q
    {
      if q < Width(n - 1) {
        Pow2Above(q, Width(n - 1) - 1);
      }
    }
  }

  /** next_pow2, in 64-bit arithmetic. */
  function NextPow2(n: nat): (r: nat)
    requires n < 0x1_0000_0000_0000_0000
    ensures r < 0x1_0000_0000_0000_0000
  {
    Wrap64(Smear(if n == 0 then 0xFFFF_FFFF_FFFF_FFFF else n - 1) + 1)
  }

  lemma {:induction false} OrStaysBelow(a: nat, b: nat, p: nat)
    requires a < Pow2(p) && b < Pow2(p)
    ensures Or(a, b) < Pow2(p)
    decreases p
  {
    if p > 0 && a > 0 && b > 0 {
      OrStaysBelow(a / 2, b / 2, p - 1);
    }
  }

  lemma {:induction false} ShrShrinks(x: nat, k: nat)
    ensures Shr(x, k) <= x
    decreases k
  {
    if k > 0 {
      ShrShrinks(x / 2, k - 1);
    }
  }

  lemma StepStaysBelow(x: nat, k: nat, p: nat)
    requires x < Pow2(p)
    ensures Or(x, Shr(x, k)) < Pow2(p)
  {
    ShrShrinks(x, k);
    OrStaysBelow(x, Shr(x, k), p);
  }

  lemma SmearStaysBelow(x: nat, p: nat)
    requires x < Pow2(p)
    ensures Smear(x) < Pow2(p)
  {
    hide Or, Shr, Pow2;
    StepStaysBelow(x, 1, p);
    var a := Or(x, Shr(x, 1));
    StepStaysBelow(a, 2, p);
    var b := Or(a, Shr(a, 2));
    StepStaysBelow(b, 4, p);
    var c := Or(b, Shr(b, 4));
    StepStaysBelow(c, 8, p);
    var d := Or(c, Shr(c, 8));
    StepStaysBelow(d, 16, p);
  }

  lemma {:induction false} Pow2Adds(a: nat, b: nat)
    ensures Pow2(a + b) == Pow2(a) * Pow2(b)
    decreases a
  {
    if a > 0 {
      Pow2Adds(a - 1, b);
      assert a - 1 + b == a + b - 1;
    }
  }

  lemma SizesFit()
    ensures Pow2(64) == 0x1_0000_0000_0000_0000 && Pow2(32) == 0x1_0000_0000 && Pow2(6) == 64
  {
    assert Pow2(2) == 4;
    hide Pow2;
    Pow2Adds(2, 2);
    Pow2Adds(2, 4);
    Pow2Adds(4, 4);
    Pow2Adds(8, 8);
    Pow2Adds(16, 16);
    Pow2Adds(32, 32);
  }

  lemma WidthFits(x: nat, p: nat)
    requires x < Pow2(p)
    ensures Width(x) <= p && Pow2(Width(x)) <= Pow2(p)
  {
    WidthBounds(x);
    if Width(x) > p {
      Pow2Above(p, Width(x) - 1);
    }
    Pow2Above(Width(x), p);
  }

  lemma WrapIsInjective(a: nat, b: nat)
    requires 1 <= a <= 0x1_0000_0000_0000_0000 && 1 <= b <= 0x1_0000_0000_0000_0000
    ensures Wrap64(a) == Wrap64(b) <==> a == b
  {
  }

  /**
   * The result is the least power of two that is no smaller than `n`, or 0 where that is 2^64, exactly
   * when `n - 1` has no 32 clear bits in a row below its top bit.
   */
  lemma NextPow2IsLeastPower(n: nat)
    requires 1 <= n < 0x1_0000_0000_0000_0000
    ensures IsLeastPower(n, Width(n - 1)) && Pow2(Width(n - 1)) <= 0x1_0000_0000_0000_0000
    ensures NextPow2(n) == Wrap64(Pow2(Width(n - 1))) <==> !HasGap(n - 1)
  {
    hide Smear, HasGap, Pow2, Width, IsLeastPower;
    SizesFit();
    WidthIsLeastPower(n);
    WidthFits(n - 1, 64);
    SmearStaysBelow(n - 1, 64);
    SmearFills(n - 1);
    WrapIsInjective(Smear(n - 1) + 1, Pow2(Width(n - 1)));
  }

  lemma NoGapUpTo32Bits(n: nat)
    requires 1 <= n <= 0x1_0000_0000
    ensures !HasGap(n - 1)
  {
    var x := n - 1;
    SizesFit();
    hide Pow2;
    WidthFits(x, 32);
    WidthBounds(x);
    forall b: nat | b < Width(x)
      ensures Window(x, b, 32)
    {
      assert Bit(x, Width(x) - 1);
    }
  }

  lemma {:induction false} BitOfPow2(p: nat, k: nat)
    ensures Bit(Pow2(p), k) <==> k == p
    decreases k
  {
    if p > 0 {
      assert Pow2(p) / 2 == Pow2(p - 1);
      if k > 0 {
        BitOfPow2(p - 1, k - 1);
      }
    } else {
      if k > 0 {
        ZeroHasNoBits(k - 1);
      }
    }
  }

  lemma OneBit()
    ensures Pow2(1) == 2
  {
  }

  /** One above 2^33 there is such a gap, and the result is not the power it should be. */
  lemma GapAt33Bits()
    ensures NextPow2(0x2_0000_0001) != Wrap64(Pow2(Width(0x2_0000_0000)))
  {
    hide NextPow2, Pow2;
    SizesFit();
    Pow2Adds(1, 32);
    OneBit();
    var x := Pow2(33);
    WidthBounds(x);
    forall k: nat
      ensures Bit(x, k) <==> k == 33
    {
      BitOfPow2(33, k);
    }
    if Width(x) <= 33 {
      NoBitPastWidth(x, 33);
    }
    assert Gap(x, 0);
    NextPow2IsLeastPower(x + 1);
  }

  /** Never too small: the size asked for, or 0 for a size that does not fit. */
  lemma NextPow2Suffices(n: nat)
    requires n < 0x1_0000_0000_0000_0000
    ensures NextPow2(n) == 0 || NextPow2(n) >= n
  {
    hide Smear, Pow2;
    SizesFit();
    var x := if n == 0 then 0xFFFF_FFFF_FFFF_FFFF else n - 1;
    SmearStaysBelow(x, 64);
  }

  /** `ret` is the least power of two that is no smaller than `n`. */
  ghost predicate IsPowerAtLeast(n: nat, ret: nat) {
    exists p: nat :: ret == Pow2(p) && IsLeastPower(n, p)
  }

  lemma OneIsPow2()
    ensures Pow2(0) == 1 && Pow2(1) == 2
  {
  }

  lemma HalfOfAll()
    ensures Pow2(63) == 0x8000_0000_0000_0000
  {
    SizesFit();
  }

  /** A power of two below 2^63 is at most half of it. */
  lemma HalfSize(val: nat, ret: nat, p: nat)
    requires ret == Pow2(p) && ret < val <= 0x8000_0000_0000_0000
    ensures 2 * ret <= 0x8000_0000_0000_0000
  {
    HalfOfAll();
    hide Pow2;
    Pow2Grows(p, 63);
  }

  lemma LeastOfAll(val: nat, p: nat)
    requires val <= Pow2(p) && (p > 0 ==> Pow2(p - 1) < val)
    ensures IsLeastPower(val, p)
  {
    hide Pow2;
    forall q: nat | val <= Pow2(q)
      ensures p <= q
    {
      if q < p {
        Pow2Above(q, p - 1);
      }
    }
  }

  /** next_p2, by a loop instead; past 2^63 its shift would wrap and the loop would not end. */
  method NextP2(val: nat) returns (ret: nat)
    requires val <= 0x8000_0000_0000_0000
    ensures IsPowerAtLeast(val, ret)
  {
    hide Pow2, IsLeastPower;
    ghost var p: nat := 0;
    ret := 1;
    OneIsPow2();
    while val > ret
      invariant ret == Pow2(p) && 1 <= ret <= 0x8000_0000_0000_0000
      invariant p > 0 ==> Pow2(p - 1) < val
      decreases 0x1_0000_0000_0000_0000 - ret
    {
      Pow2Adds(1, p);
      OneIsPow2();
      HalfSize(val, ret, p);
      ret := Wrap64(2 * ret);
      p := p + 1;
    }
    LeastOfAll(val, p);
  }

  // ----- afl_realloc -----

  /** What is asked for next: the first size, or the next power of two, or the size itself. */
  function NextSize(needed: nat): nat
    requires needed < 0x1_0000_0000_0000_0000
  {
    if needed < 64 then 64 else if NextPow2(needed) == 0 then needed else NextPow2(needed)
  }

  /** What a buffer's complete size is while every request had no gap: nothing yet, or a power of two from 64 on. */
  ghost predicate RoundSize(size: nat) {
    size == 0 || exists q: nat :: q >= 6 && size == Pow2(q)
  }

  lemma HalfOf64()
    ensures Pow2(5) == 32
  {
  }

  lemma DoublesFrom64(current: nat, needed: nat)
    requires current < needed && 64 <= needed <= 0x8000_0000_0000_0000 && RoundSize(current) && !HasGap(needed - 1)
    ensures RoundSize(NextPow2(needed)) && NextPow2(needed) >= 2 * current && NextPow2(needed) != 0
  {
    hide NextPow2, HasGap, Pow2, Width;
    SizesFit();
    HalfOfAll();
    var p := Width(needed - 1);
    NextPow2IsLeastPower(needed);
    WidthFits(needed - 1, 63);
    assert NextPow2(needed) == Pow2(p);
    Pow2Grows(5, p);
    HalfOf64();
    if current != 0 {
      var q: nat :| q >= 6 && current == Pow2(q);
      Pow2Grows(q, p);
    }
  }

  /** The next size suffices; where powers of two come out it is at least twice the last one. */
  lemma NextSizeDoubles(current: nat, needed: nat)
    requires current < needed < 0x1_0000_0000_0000_0000
    ensures needed <= NextSize(needed) < 0x1_0000_0000_0000_0000 && NextSize(needed) >= 64
    ensures RoundSize(current) && !HasGap(needed - 1) && needed <= 0x8000_0000_0000_0000 ==>
              RoundSize(NextSize(needed)) && NextSize(needed) >= 2 * current
  {
    hide NextPow2, HasGap, Pow2, Width;
    NextPow2Suffices(needed);
    SizesFit();
    if RoundSize(current) && !HasGap(needed - 1) && needed <= 0x8000_0000_0000_0000 {
      if needed < 64 {
        assert NextSize(needed) == Pow2(6);
        if current != 0 {
          var q: nat :| q >= 6 && current == Pow2(q);
          Pow2Above(6, q);
        }
      } else {
        DoublesFrom64(current, needed);
      }
    }
  }

  /** A pointer to a buffer: none, or the bytes behind the stored complete size, which counts its own eight bytes. */
  class Buffer {
    var block: array?<byte>
    var completeSize: nat

    ghost predicate Valid()
      reads this
    {
      && completeSize < 0x1_0000_0000_0000_0000
      && completeSize == if block == null then 0 else block.Length + 8
    }

    constructor ()
      ensures Valid() && block == null
    {
      block, completeSize := null, 0;
    }

    /**
     * afl_realloc. Unless adding the eight bytes wraps, success means the bytes asked for are there; in the
     * other case the buffer is always too small. What was in the buffer stays, what is added is zero.
     */
    method Realloc(need: nat, failed: bool) returns (ok: bool)
      requires Valid() && need < 0x1_0000_0000_0000_0000
      modifies this
      ensures Valid()
      ensures ok ==> block != null && (block.Length >= need <==> need + 8 < 0x1_0000_0000_0000_0000)
      ensures !ok ==> block == null
      ensures need + 8 < 0x1_0000_0000_0000_0000 ==> (!ok <==> failed && old(completeSize) < need + 8)
      ensures need + 8 <= old(completeSize) ==> block == old(block)
      ensures ok && block != old(block) ==> fresh(block)
      ensures ok && old(block) != null ==> old(block.Length) <= block.Length && block[..old(block.Length)] == old(block[..])
      ensures ok && block != old(block) ==>
                forall k :: (if old(block) == null then 0 else old(block.Length)) <= k < block.Length ==> block[k] == 0
      ensures ok && block != old(block) && need + 8 < 0x1_0000_0000_0000_0000
                && RoundSize(old(completeSize)) && !HasGap(need + 7) && need + 8 <= 0x8000_0000_0000_0000 ==>
                RoundSize(completeSize) && completeSize >= 2 * old(completeSize)
    {
      hide NextSize, RoundSize, HasGap;
      var needed := Wrap64(need + 8);
      if completeSize >= needed {
        return block != null;
      }
      NextSizeDoubles(completeSize, needed);
      var next := NextSize(needed);
      if failed {
        block, completeSize := null, 0;
        return false;
      }
      var newer := new byte[next - 8];
      var size := if block == null then 0 else block.Length;
      var i := 0;
      while i < newer.Length
        modifies newer
        invariant 0 <= i <= newer.Length
        invariant forall k :: 0 <= k < i ==> newer[k] == if k < size then block[k] else 0
      {
        newer[i] := if i < size then block[i] else 0;
        i := i + 1;
      }
      block, completeSize := newer, next;
      ok := true;
    }
  }
}
