/** The eight XXH3 accumulator lanes: the formula of the vector forms, and the scalar code in place. */
module Xxh3Lanes {
  import opened Words
  import opened Multiply
  import opened Xxh3Stripes

  type Acc = s: seq<u64> | |s| == 8 witness seq(8, _ => 0)

  /** `lane ^ 1`. */
  function Partner(lane: nat): (r: nat)
    requires lane < 8
    ensures r < 8
  {
    if lane % 2 == 0 then lane + 1 else lane - 1
  }

  function Data(input: Stripe, lane: nat): u64
    requires lane < 8
  {
    ReadLE64(input, 8 * lane)
  }

  function Halves(k: u64): u64 {
    (k & 0xFFFFFFFF) * ((k >> 32) & 0xFFFFFFFF)
  }

  /** The product of the two halves of the keyed input word. */
  function Product(input: Stripe, key: Stripe, lane: nat): u64
    requires lane < 8
  {
    Halves(Data(input, lane) ^ ReadLE64(key, 8 * lane))
  }

  function Plus(x: u64, y: u64): u64 {
    x + y
  }

  /** All lanes at once: each takes its partner's input word and its own product. */
  function LaneAccumulate(acc: Acc, input: Stripe, key: Stripe): Acc {
    seq(8, i requires 0 <= i < 8 => Plus(Product(input, key, i), Plus(acc[i], Data(input, Partner(i)))))
  }

  /** A lane may take its own product before or after its partner's word. */
  lemma EitherOrder(product: u64, lane: u64, word: u64)
    ensures Plus(product, lane + word) == Plus(product + lane, word)
  {
  }

  lemma PlusOrder(product: u64, lane: u64, word: u64)
    ensures Plus(product, Plus(lane, word)) == Plus(Plus(product, lane), word)
  {
    EitherOrder(product, lane, word);
  }

  /** What lane `j` holds once the scalar loop has done the lanes below `i`. */
  function Partly(acc: Acc, input: Stripe, key: Stripe, i: nat, j: nat): u64
    requires j < 8
  {
    var taken := if Partner(j) < i then Plus(acc[j], Data(input, Partner(j))) else acc[j];
    if j < i then Plus(Product(input, key, j), taken) else taken
  }

  /** One round touches two lanes. */
  lemma Advance(acc: Acc, input: Stripe, key: Stripe, i: nat, j: nat)
    requires i < 8 && j < 8
    ensures Partly(acc, input, key, i + 1, j) ==
            if j == i then Plus(Product(input, key, i), Partly(acc, input, key, i, i))
            else if j == Partner(i) then Plus(Partly(acc, input, key, i, j), Data(input, i))
            else Partly(acc, input, key, i, j)
  {
    hide Plus, Data, Product;
    assert Partner(Partner(j)) == j;
    if j == Partner(i) {
      PlusOrder(Product(input, key, j), acc[j], Data(input, i));
    }
  }

  /** XXH3_scalarRound on lane after lane, each writing its partner too. */
  method AccumulateScalar(acc: array<u64>, input: Stripe, key: Stripe)
    requires acc.Length == 8
    modifies acc
    ensures acc[..] == LaneAccumulate(old(acc[..]), input, key)
  {
    hide Plus, Data, Product;
    ghost var was: Acc := acc[..];
    for i := 0 to 8
      invariant forall j :: 0 <= j < 8 ==> acc[j] == Partly(was, input, key, i, j)
    {
      hide Partly;
      forall j: nat | j < 8 {
        Advance(was, input, key, i, j);
      }
      acc[Partner(i)] := Plus(acc[Partner(i)], Data(input, i));
      acc[i] := Plus(Product(input, key, i), acc[i]);
    }
  }

  function Whiten(x: u64, key: u64): u64 {
    (x ^ (x >> 47)) ^ key
  }

  /** The multiplication by PRIME32_1 as the vector forms do it, and as the scalar form does. */
  function VectorTimes(x: u64): u64 {
    FromWord(SplitTimes(ToWord(x), 0x9E3779B1))
  }

  function ScalarTimes(x: u64): u64 {
    FromWord(Times(ToWord(x), 0x9E3779B1))
  }

  function LaneScramble(acc: Acc, key: Stripe): Acc {
    seq(8, i requires 0 <= i < 8 => VectorTimes(Whiten(acc[i], ReadLE64(key, 8 * i))))
  }

  method ScrambleScalar(acc: array<u64>, key: Stripe)
    requires acc.Length == 8
    modifies acc
    ensures acc[..] == LaneScramble(old(acc[..]), key)
  {
    hide Whiten, FromWord, ToWord, SplitTimes, Times, ReadLE64;
    for i := 0 to 8
      invariant forall j :: 0 <= j < 8 ==>
        acc[j] == if j < i then VectorTimes(Whiten(old(acc[j]), ReadLE64(key, 8 * j))) else old(acc[j])
    {
      TimesByHalves(ToWord(Whiten(acc[i], ReadLE64(key, 8 * i))), 0x9E3779B1);
      acc[i] := ScalarTimes(Whiten(acc[i], ReadLE64(key, 8 * i)));
    }
  }

  /** The pair of stripe functions the hash uses. */
  function Lanes(): Kernel<Acc> {
    Kernel(LaneAccumulate, LaneScramble)
  }
}
