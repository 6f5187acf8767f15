/**
 * XXH3 over whole stripes, for any pair of stripe functions.
 *
 * The reference takes one 64-byte stripe at a time: accumulate it under the key of its slot in the
 * block, and scramble after the last slot. The library's loops work in runs and whole blocks; every
 * one of them is measured against the reference. Since the accumulator type is arbitrary it may be
 * a log of the calls, so agreement includes the number and the placement of the scrambles.
 */
module Xxh3Stripes {
  import opened Words

  const SECRET_SIZE_MIN: nat := 136

  type Stripe = s: seq<byte> | |s| == 64 witness seq(64, _ => 0)
  type Secret = s: seq<byte> | |s| >= 136 witness seq(136, _ => 0)

  /** `accumulate512` and `scramble`, the functions the library passes as pointers. */
  datatype Kernel<!A(!new)> = Kernel(accumulate512: (A, Stripe, Stripe) -> A, scramble: (A, Stripe) -> A)

  function SlotsPerBlock(secret: Secret): (n: nat)
    ensures n >= 9 && 8 * n + 64 <= |secret|
  {
    (|secret| - 64) / 8
  }

  function KeyAt(secret: Secret, at: nat): Stripe
    requires at + 64 <= |secret|
  {
    secret[at..at + 64]
  }

  function StripeAt(input: seq<byte>, at: nat): Stripe
    requires at + 64 <= |input|
  {
    input[at..at + 64]
  }

  /** Accumulators, and how many stripes of the current block they have seen. */
  datatype Cursor<A> = Cursor(acc: A, slot: nat)

  ghost predicate Inside<A(!new)>(secret: Secret, c: Cursor<A>) {
    c.slot < SlotsPerBlock(secret)
  }

  /** One stripe. */
  ghost function Absorb1<A(!new)>(k: Kernel<A>, secret: Secret, c: Cursor<A>, stripe: Stripe): (r: Cursor<A>)
    requires Inside(secret, c)
    ensures Inside(secret, r)
  {
    var acc := k.accumulate512(c.acc, stripe, KeyAt(secret, 8 * c.slot));
    if c.slot + 1 == SlotsPerBlock(secret)
    then Cursor(k.scramble(acc, KeyAt(secret, |secret| - 64)), 0)
    else Cursor(acc, c.slot + 1)
  }

  /** `n` stripes of `input` from offset `at`, one after the other. */
  ghost function Absorb<A(!new)>(k: Kernel<A>, secret: Secret, c: Cursor<A>, input: seq<byte>, at: nat, n: nat): (r: Cursor<A>)
    requires Inside(secret, c) && at + 64 * n <= |input|
    ensures Inside(secret, r)
    decreases n
  {
    if n == 0 then c
    else Absorb(k, secret, Absorb1(k, secret, c, StripeAt(input, at)), input, at + 64, n - 1)
  }

  lemma AbsorbNothing<A(!new)>(k: Kernel<A>, secret: Secret, c: Cursor<A>, input: seq<byte>, at: nat)
    requires Inside(secret, c) && at <= |input|
    ensures Absorb(k, secret, c, input, at, 0) == c
  {
  }

  lemma {:induction false} AbsorbAppend<A(!new)>(k: Kernel<A>, secret: Secret, c: Cursor<A>, input: seq<byte>, at: nat, n: nat, m: nat)
    requires Inside(secret, c) && at + 64 * (n + m) <= |input|
    ensures Absorb(k, secret, c, input, at, n + m)
         == Absorb(k, secret, Absorb(k, secret, c, input, at, n), input, at + 64 * n, m)
    decreases n
  {
    if n > 0 {
      AbsorbAppend(k, secret, Absorb1(k, secret, c, StripeAt(input, at)), input, at + 64, n - 1, m);
    }
  }

  lemma FirstStripe(a: seq<byte>, i: nat, n: nat)
    requires n > 0 && i + 64 * n <= |a|
    ensures StripeAt(a, i) == a[i..i + 64 * n][..64]
    ensures a[i + 64..i + 64 * n] == a[i..i + 64 * n][64..]
  {
  }

  /** Only the bytes of the stripes matter, not where they are kept. */
  lemma {:induction false} AbsorbCopy<A(!new)>(k: Kernel<A>, secret: Secret, c: Cursor<A>, a: seq<byte>, i: nat, b: seq<byte>, j: nat, n: nat)
    requires Inside(secret, c) && i + 64 * n <= |a| && j + 64 * n <= |b|
    requires a[i..i + 64 * n] == b[j..j + 64 * n]
    ensures Absorb(k, secret, c, a, i, n) == Absorb(k, secret, c, b, j, n)
    decreases n
  {
    if n > 0 {
      FirstStripe(a, i, n);
      FirstStripe(b, j, n);
      AbsorbCopy(k, secret, Absorb1(k, secret, c, StripeAt(a, i)), a, i + 64, b, j + 64, n - 1);
    }
  }

  /** Stripe functions that only count the scrambles. */
  function ScrambleCounter(): Kernel<int> {
    Kernel((n: int, stripe: Stripe, key: Stripe) => n, (n: int, key: Stripe) => n + 1)
  }

  /** One scramble for every full block, whatever slot the absorption starts in, and the slot is the rest. */
  lemma {:induction false} ScramblesAreBlocks(secret: Secret, c: Cursor<int>, input: seq<byte>, at: nat, n: nat)
    requires Inside(secret, c) && at + 64 * n <= |input|
    ensures var r := Absorb(ScrambleCounter(), secret, c, input, at, n);
            r.acc >= c.acc && c.slot + n == (r.acc - c.acc) * SlotsPerBlock(secret) + r.slot
    decreases n
  {
    hide SlotsPerBlock;
    if n > 0 {
      var d := Absorb1(ScrambleCounter(), secret, c, StripeAt(input, at));
      ScramblesAreBlocks(secret, d, input, at + 64, n - 1);
      var r := Absorb(ScrambleCounter(), secret, d, input, at + 64, n - 1);
      var slots := SlotsPerBlock(secret);
      assert d.acc == c.acc + 1 ==> (r.acc - c.acc) * slots == (r.acc - d.acc) * slots + slots;
    }
  }

  /** A run of stripes inside one block: accumulate only. */
  ghost function Run<A(!new)>(k: Kernel<A>, secret: Secret, c: Cursor<A>, input: seq<byte>, at: nat, n: nat): A
    requires c.slot + n <= SlotsPerBlock(secret) && at + 64 * n <= |input|
    decreases n
  {
    if n == 0 then c.acc
    else Run(k, secret, Cursor(k.accumulate512(c.acc, StripeAt(input, at), KeyAt(secret, 8 * c.slot)), c.slot + 1), input, at + 64, n - 1)
  }

  /** A run that ends before the block does needs no scramble; one that ends it is scrambled once. */
  lemma {:induction false} AbsorbRun<A(!new)>(k: Kernel<A>, secret: Secret, c: Cursor<A>, input: seq<byte>, at: nat, n: nat)
    requires Inside(secret, c) && c.slot + n <= SlotsPerBlock(secret) && at + 64 * n <= |input|
    ensures Absorb(k, secret, c, input, at, n) ==
            if c.slot + n < SlotsPerBlock(secret) then Cursor(Run(k, secret, c, input, at, n), c.slot + n)
            else Cursor(k.scramble(Run(k, secret, c, input, at, n), KeyAt(secret, |secret| - 64)), 0)
    decreases n
  {
    if n > 0 {
      var acc := k.accumulate512(c.acc, StripeAt(input, at), KeyAt(secret, 8 * c.slot));
      if c.slot + 1 < SlotsPerBlock(secret) {
        AbsorbRun(k, secret, Cursor(acc, c.slot + 1), input, at + 64, n - 1);
      } else {
        assert n == 1;
      }
    }
  }

  lemma {:induction false} RunStep<A(!new)>(k: Kernel<A>, secret: Secret, c: Cursor<A>, input: seq<byte>, at: nat, n: nat)
    requires c.slot + n < SlotsPerBlock(secret) && at + 64 * n + 64 <= |input|
    ensures Run(k, secret, c, input, at, n + 1)
         == k.accumulate512(Run(k, secret, c, input, at, n), StripeAt(input, at + 64 * n), KeyAt(secret, 8 * (c.slot + n)))
    decreases n
  {
    if n > 0 {
      var acc := k.accumulate512(c.acc, StripeAt(input, at), KeyAt(secret, 8 * c.slot));
      RunStep(k, secret, Cursor(acc, c.slot + 1), input, at + 64, n - 1);
    }
  }

  /** The accumulate loop every implementation shares. */
  method Accumulate<A(!new)>(k: Kernel<A>, secret: Secret, acc: A, slot: nat, input: seq<byte>, at: nat, nbStripes: nat) returns (r: A)
    requires slot + nbStripes <= SlotsPerBlock(secret) && at + 64 * nbStripes <= |input|
    ensures r == Run(k, secret, Cursor(acc, slot), input, at, nbStripes)
  {
    r := acc;
    for n := 0 to nbStripes
      invariant r == Run(k, secret, Cursor(acc, slot), input, at, n)
    {
      RunStep(k, secret, Cursor(acc, slot), input, at, n);
      r := k.accumulate512(r, StripeAt(input, at + 64 * n), KeyAt(secret, 8 * (slot + n)));
    }
  }

  /** XXH3_consumeStripes: any number of stripes from anywhere inside a block. */
  method ConsumeStripes<A(!new)>(k: Kernel<A>, secret: Secret, acc: A, nbStripesSoFar: nat, input: seq<byte>, at: nat, nbStripes: nat,
                                 nbStripesPerBlock: nat, secretLimit: nat)
    returns (r: A, soFar: nat, end: nat)
    requires nbStripesPerBlock == SlotsPerBlock(secret) && secretLimit == |secret| - 64
    requires nbStripesSoFar < SlotsPerBlock(secret) && at + 64 * nbStripes <= |input|
    ensures Inside(secret, Cursor(r, soFar)) && end == at + 64 * nbStripes
    ensures Cursor(r, soFar) == Absorb(k, secret, Cursor(acc, nbStripesSoFar), input, at, nbStripes)
  {
    hide Absorb, Absorb1, Run, SlotsPerBlock, KeyAt;
    ghost var start := Cursor(acc, nbStripesSoFar);
    var slot: nat, left: nat := nbStripesSoFar, nbStripes;
    r, soFar, end := acc, nbStripesSoFar, at;
    assert Absorb(k, secret, start, input, at, 0) == start by {
      AbsorbNothing(k, secret, start, input, at);
    }
    if left >= nbStripesPerBlock - soFar {
      var thisIter := nbStripesPerBlock - soFar;
      while left >= thisIter
        invariant left <= nbStripes && end == at + 64 * (nbStripes - left)
        invariant slot < nbStripesPerBlock && thisIter == nbStripesPerBlock - slot
        invariant Cursor(r, slot) == Absorb(k, secret, start, input, at, nbStripes - left)
        invariant left < nbStripes ==> slot == 0
        decreases left
      {
        AbsorbRun(k, secret, Cursor(r, slot), input, end, thisIter);
        AbsorbAppend(k, secret, start, input, at, nbStripes - left, thisIter);
        r := Accumulate(k, secret, r, slot, input, end, thisIter);
        r := k.scramble(r, KeyAt(secret, secretLimit));
        end, left := end + 64 * thisIter, left - thisIter;
        thisIter, slot := nbStripesPerBlock, 0;
      }
      soFar := 0;
    }
    if left > 0 {
      AbsorbRun(k, secret, Cursor(r, slot), input, end, left);
      AbsorbAppend(k, secret, start, input, at, nbStripes - left, left);
      r := Accumulate(k, secret, r, slot, input, end, left);
      end, soFar := end + 64 * left, soFar + left;
    }
  }

  /** What a long input leaves in the accumulators: all stripes that end before the last byte, then the last 64 bytes. */
  ghost function LongAcc<A(!new)>(k: Kernel<A>, secret: Secret, init: A, input: seq<byte>): A
    requires |input| > 64
  {
    var c := Absorb(k, secret, Cursor(init, 0), input, 0, (|input| - 1) / 64);
    k.accumulate512(c.acc, StripeAt(input, |input| - 64), KeyAt(secret, |secret| - 64 - 7))
  }

  /** Whole blocks in front of the last byte of an input of length `len`, and whole stripes after them. */
  function NbBlocks(len: nat, slots: nat): nat
    requires len > 0 && slots > 0
  {
    QuotientIsNat(len - 1, 64 * slots);
    (len - 1) / (64 * slots)
  }

  function Slots(n: nat, slots: nat): nat {
    n * slots
  }

  function NbStripes(len: nat, slots: nat): (n: nat)
    requires len > 0 && slots > 0
    ensures n < slots && (len - 1) / 64 == Slots(NbBlocks(len, slots), slots) + n
  {
    var block := 64 * slots;
    var blocks := NbBlocks(len, slots);
    var rest := (len - 1) - block * blocks;
    assert rest == (len - 1) % block;
    assert block * blocks == 64 * Slots(blocks, slots);
    RemainderIsUnique(len - 1, 64, Slots(blocks, slots) + rest / 64, rest % 64);
    rest / 64
  }

  lemma NextBlock(n: nat, nbBlocks: nat, slots: nat)
    ensures Slots(0, slots) == 0
    ensures Slots(n + 1, slots) == Slots(n, slots) + slots
    ensures n < nbBlocks ==> Slots(n + 1, slots) <= Slots(nbBlocks, slots)
  {
  }

  /** One whole block on top of `done` stripes. */
  method HashBlock<A(!new)>(k: Kernel<A>, secret: Secret, ghost start: Cursor<A>, acc: A, input: seq<byte>, ghost done: nat, at: nat) returns (r: A)
    requires start.slot == 0 && at == 64 * done && at + 64 * SlotsPerBlock(secret) <= |input|
    requires Cursor(acc, 0) == Absorb(k, secret, start, input, 0, done)
    ensures Cursor(r, 0) == Absorb(k, secret, start, input, 0, done + SlotsPerBlock(secret))
  {
    AbsorbRun(k, secret, Cursor(acc, 0), input, at, SlotsPerBlock(secret));
    AbsorbAppend(k, secret, start, input, 0, done, SlotsPerBlock(secret));
    r := Accumulate(k, secret, acc, 0, input, at, SlotsPerBlock(secret));
    r := k.scramble(r, KeyAt(secret, |secret| - 64));
  }

  /** XXH3_hashLong_internal_loop: whole blocks first, then what is left of the last one. */
  method HashLongLoop<A(!new)>(k: Kernel<A>, secret: Secret, init: A, input: seq<byte>) returns (acc: A)
    requires |input| > 64
    ensures acc == LongAcc(k, secret, init, input)
  {
    hide Absorb, Absorb1, Run, SlotsPerBlock, KeyAt, StripeAt, NbBlocks, NbStripes, Slots;
    ghost var start := Cursor(init, 0);
    var slots := SlotsPerBlock(secret);
    var nbBlocks := NbBlocks(|input|, slots);
    var nbStripes := NbStripes(|input|, slots);
    var at: nat := 0;
    ghost var done: nat := 0;
    acc := init;
    AbsorbNothing(k, secret, start, input, 0);
    NextBlock(0, nbBlocks, slots);
    for n := 0 to nbBlocks
      invariant done == Slots(n, slots) <= (|input| - 1) / 64 && at == 64 * done
      invariant Cursor(acc, 0) == Absorb(k, secret, start, input, 0, done)
    {
      NextBlock(n, nbBlocks, slots);
      acc := HashBlock(k, secret, start, acc, input, done, at);
      at, done := at + 64 * slots, done + slots;
    }
    AbsorbRun(k, secret, Cursor(acc, 0), input, at, nbStripes);
    AbsorbAppend(k, secret, start, input, 0, done, nbStripes);
    acc := Accumulate(k, secret, acc, 0, input, at, nbStripes);
    acc := k.accumulate512(acc, StripeAt(input, |input| - 64), KeyAt(secret, |secret| - 64 - 7));
  }
}
