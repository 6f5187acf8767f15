/** What one stripe does to the XXH3 lanes, byte by byte and without the functions the code shares with its formula. */
module Xxh3LaneLaws {
  import opened Words
  import opened Multiply
  import opened Xxh3Stripes
  import opened Xxh3Lanes

  /** Eight bytes, least significant first. */
  function Spelled(s: seq<byte>, at: nat): u64
    requires at + 8 <= |s|
  {
    s[at] as u64 | (s[at + 1] as u64 << 8) | (s[at + 2] as u64 << 16) | (s[at + 3] as u64 << 24)
    | (s[at + 4] as u64 << 32) | (s[at + 5] as u64 << 40) | (s[at + 6] as u64 << 48) | (s[at + 7] as u64 << 56)
  }

  lemma EightBytes(a: byte, b: byte, c: byte, d: byte, e: byte, f: byte, g: byte, h: byte)
    ensures ((a as u32 | (b as u32 << 8) | (c as u32 << 16) | (d as u32 << 24)) as u64)
            | ((e as u32 | (f as u32 << 8) | (g as u32 << 16) | (h as u32 << 24)) as u64 << 32)
         == a as u64 | (b as u64 << 8) | (c as u64 << 16) | (d as u64 << 24)
            | (e as u64 << 32) | (f as u64 << 40) | (g as u64 << 48) | (h as u64 << 56)
  {
  }

  lemma ReadIsSpelled(s: seq<byte>, at: nat)
    requires at + 8 <= |s|
    ensures ReadLE64(s, at) == Spelled(s, at)
  {
    EightBytes(s[at], s[at + 1], s[at + 2], s[at + 3], s[at + 4], s[at + 5], s[at + 6], s[at + 7]);
  }

  /** Where the input word added to each lane is: in the other half of the lane's 16 bytes. */
  const OTHER_HALF: seq<nat> := [8, 0, 24, 16, 40, 32, 56, 48]

  /** What a lane becomes from its own keyed word and the word of the other half. */
  function Grown(lane: u64, keyed: u64, other: u64): u64 {
    (keyed & 0xFFFFFFFF) * (keyed >> 32) + (lane + other)
  }

  lemma OtherHalf(i: nat)
    requires i < 8
    ensures OTHER_HALF[i] == 8 * Partner(i)
  {
    assert i == 0 || i == 1 || i == 2 || i == 3 || i == 4 || i == 5 || i == 6 || i == 7;
  }

  lemma HighHalf(x: u64)
    ensures (x >> 32) & 0xFFFFFFFF == x >> 32
  {
  }

  lemma SumsNest(a: u64, b: u64, c: u64)
    ensures Plus(a, b + c) == a + (b + c)
  {
  }

  lemma GrownStep(lane: u64, keyed: u64, other: u64)
    ensures Plus(Halves(keyed), Plus(lane, other)) == Grown(lane, keyed, other)
  {
    HighHalf(keyed);
    assert Plus(lane, other) == lane + other;
    assert Halves(keyed) == (keyed & 0xFFFFFFFF) * (keyed >> 32);
    hide Plus, Halves;
    SumsNest((keyed & 0xFFFFFFFF) * (keyed >> 32), lane, other);
  }

  lemma CrosswiseWord(input: Stripe, i: nat)
    requires i < 8
    ensures OTHER_HALF[i] + 8 <= 64 && Data(input, Partner(i)) == Spelled(input, OTHER_HALF[i])
  {
    hide ReadLE64, Spelled;
    OtherHalf(i);
    ReadIsSpelled(input, OTHER_HALF[i]);
  }

  /** Every lane gains the word of the other half of its 16 bytes, and the product of the halves of its own keyed word. */
  lemma AccumulateSpelledOut(acc: Acc, input: Stripe, key: Stripe, i: nat)
    requires i < 8
    ensures OTHER_HALF[i] + 8 <= 64
    ensures LaneAccumulate(acc, input, key)[i]
         == Grown(acc[i], Spelled(input, 8 * i) ^ Spelled(key, 8 * i), Spelled(input, OTHER_HALF[i]))
  {
    hide ReadLE64, Spelled, Halves, Plus, Grown;
    CrosswiseWord(input, i);
    ReadIsSpelled(input, 8 * i);
    ReadIsSpelled(key, 8 * i);
    GrownStep(acc[i], Spelled(input, 8 * i) ^ Spelled(key, 8 * i), Spelled(input, OTHER_HALF[i]));
  }

  lemma NothingKeyed(x: u64, y: u64)
    ensures Grown(0, x ^ x, y) == y
  {
  }

  /** With a key equal to the stripe and empty lanes, only the crosswise words are left. */
  lemma CrosswiseWords(input: Stripe, i: nat)
    requires i < 8
    ensures OTHER_HALF[i] + 8 <= 64
    ensures LaneAccumulate(seq(8, _ => 0), input, input)[i] == Spelled(input, OTHER_HALF[i])
  {
    hide Spelled, Grown, LaneAccumulate;
    AccumulateSpelledOut(seq(8, _ => 0), input, input, i);
    NothingKeyed(Spelled(input, 8 * i), Spelled(input, OTHER_HALF[i]));
  }

  lemma SameSpelled(a: seq<byte>, b: seq<byte>, lo: nat, at: nat)
    requires lo <= at && at + 8 <= lo + 16 <= |a| && lo + 16 <= |b| && a[lo..lo + 16] == b[lo..lo + 16]
    ensures Spelled(a, at) == Spelled(b, at)
  {
    assert forall j :: lo <= j < lo + 16 ==> a[j] == a[lo..lo + 16][j - lo] && b[j] == b[lo..lo + 16][j - lo];
  }

  /** What a lane of the pair `k` takes in lies in the 16 bytes of that pair. */
  lemma PairPlaces(k: nat, i: nat)
    requires k < 4 && (i == 2 * k || i == 2 * k + 1)
    ensures 16 * k <= OTHER_HALF[i] && OTHER_HALF[i] + 8 <= 16 * k + 16 <= 64
  {
    OtherHalf(i);
  }

  /** A pair of lanes depends on its own 16 bytes of stripe and key only. */
  lemma PairsAreApart(acc: Acc, acc2: Acc, input: Stripe, input2: Stripe, key: Stripe, key2: Stripe, k: nat, i: nat)
    requires k < 4 && (i == 2 * k || i == 2 * k + 1)
    requires input[16 * k..16 * k + 16] == input2[16 * k..16 * k + 16] && key[16 * k..16 * k + 16] == key2[16 * k..16 * k + 16]
    requires acc[i] == acc2[i]
    ensures LaneAccumulate(acc, input, key)[i] == LaneAccumulate(acc2, input2, key2)[i]
  {
    hide Spelled, LaneAccumulate, Grown;
    PairPlaces(k, i);
    AccumulateSpelledOut(acc, input, key, i);
    AccumulateSpelledOut(acc2, input2, key2, i);
    SameSpelled(input, input2, 16 * k, OTHER_HALF[i]);
    SameSpelled(input, input2, 16 * k, 8 * i);
    SameSpelled(key, key2, 16 * k, 8 * i);
  }

  /** A scrambled lane is the folded and keyed lane times PRIME32_1, modulo 2^64. */
  lemma ScrambleSpelledOut(acc: Acc, key: Stripe, i: nat)
    requires i < 8
    ensures var whitened: u64 := (acc[i] ^ (acc[i] >> 47)) ^ Spelled(key, 8 * i);
            LaneScramble(acc, key)[i] == (whitened as nat * 0x9E3779B1 % 0x1_0000_0000_0000_0000) as u64
  {
    hide ReadLE64, Spelled, SplitTimes;
    ReadIsSpelled(key, 8 * i);
    var x := (acc[i] ^ (acc[i] >> 47)) ^ Spelled(key, 8 * i);
    TimesByHalves(ToWord(x), 0x9E3779B1);
  }
}
