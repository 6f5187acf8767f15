/** What the parts of XXH3 compute, told without the functions they are written with. */
module Xxh3Laws {
  import opened Words
  import opened Multiply
  import opened Xxh3Stripes
  import opened Xxh3Lanes
  import opened Xxh3Short
  import opened Xxh3
  import Xxh64

  lemma BackToWord(x: u64)
    ensures FromWord(ToWord(x)) == x
  {
  }

  /** The two halves of the exact 128-bit product, xored. */
  lemma MulFoldIsExact(lhs: u64, rhs: u64, low: u64, high: u64)
    requires ToWord(lhs) * ToWord(rhs) == ToWord(high) * 0x1_0000_0000_0000_0000 + ToWord(low)
    ensures MulFold64(lhs, rhs) == low ^ high
  {
    var p := Mult64To128(ToWord(lhs), ToWord(rhs));
    hide ToWord, FromWord, Mult64To128;
    ExactProduct(ToWord(lhs), ToWord(rhs));
    RemainderIsUnique(ToWord(lhs) * ToWord(rhs), 0x1_0000_0000_0000_0000, ToWord(high), ToWord(low));
    RemainderIsUnique(ToWord(lhs) * ToWord(rhs), 0x1_0000_0000_0000_0000, p.high64, p.low64);
    BackToWord(low);
    BackToWord(high);
  }

  lemma NothingTimes(x: u64)
    ensures MulFold64(0, x) == 0 && MulFold64(x, 0) == 0
  {
    hide MulFold64;
    MulFoldIsExact(0, x, 0, 0);
    MulFoldIsExact(x, 0, 0, 0);
  }

  lemma FlippedAway(x: u64)
    ensures Flipped(x, x) == 0
  {
  }

  // ----- Which 16 bytes meet which part of the secret -----

  /** One of the two words at `at` is the word of the secret it is keyed with. */
  predicate Matched(input: seq<byte>, at: nat, secret: Secret, key: nat, seed: u64)
    requires at + 16 <= |input| && key + 16 <= |secret|
  {
    ReadLE64(input, at) == Xxh64.Plus(ReadLE64(secret, key), seed) || ReadLE64(input, at + 8) == Less(ReadLE64(secret, key + 8), seed)
  }

  lemma MatchedMixesToZero(input: seq<byte>, at: nat, secret: Secret, key: nat, seed: u64)
    requires at + 16 <= |input| && key + 16 <= |secret| && Matched(input, at, secret, key, seed)
    ensures Mix16B(input, at, secret, key, seed) == 0
  {
    hide ReadLE64, Flipped, MulFold64, Xxh64.Plus, Less;
    FlippedAway(ReadLE64(input, at));
    FlippedAway(ReadLE64(input, at + 8));
    NothingTimes(Flipped(ReadLE64(input, at), LowKey(secret, key, seed)));
    NothingTimes(Flipped(ReadLE64(input, at + 8), HighKey(secret, key, seed)));
  }

  lemma NothingAdded(x: u64)
    ensures Xxh64.Plus(x, 0) == x && Xxh64.Plus(0, x) == x
  {
  }

  lemma MatchedPair(acc: u64, input: seq<byte>, secret: Secret, seed: u64, i: nat)
    requires i < 4 && 32 * i < |input| && 16 * (i + 1) <= |input|
    requires Matched(input, 16 * i, secret, 32 * i, seed)
    requires Matched(input, |input| - 16 * (i + 1), secret, 32 * i + 16, seed)
    ensures MixPair(acc, input, secret, seed, i) == acc
  {
    hide Matched, Mix16B, Xxh64.Plus;
    MatchedMixesToZero(input, 16 * i, secret, 32 * i, seed);
    MatchedMixesToZero(input, |input| - 16 * (i + 1), secret, 32 * i + 16, seed);
    NothingAdded(acc);
  }

  /** 17 to 128 bytes, 16 from the front and 16 from the back in turn: where all are matched only the length is left. */
  lemma MatchedMiddle(input: seq<byte>, secret: Secret, seed: u64)
    requires 17 <= |input| <= 128
    requires forall i: nat :: 32 * i < |input| ==>
               && 16 * i + 16 <= |input| && Matched(input, 16 * i, secret, 32 * i, seed)
               && Matched(input, |input| - 16 * i - 16, secret, 32 * i + 16, seed)
    ensures Short(input, secret, seed) == Avalanche(StartAcc(|input|))
  {
    hide Matched, MixPair, Avalanche, StartAcc;
    var acc := StartAcc(|input|);
    forall i: nat | i < 4 && 32 * i < |input|
      ensures MixPair(acc, input, secret, seed, i) == acc
    {
      MatchedPair(acc, input, secret, seed, i);
    }
  }

  lemma {:induction false} MatchedRounds(acc: u64, input: seq<byte>, secret: Secret, seed: u64, i: nat, n: nat, shift: int)
    requires i <= n && 16 * n <= |input| && (i < n ==> 16 * i + shift >= 0 && 16 * n + shift <= |secret|)
    requires forall j: nat :: i <= j < n ==> Matched(input, 16 * j, secret, 16 * j + shift, seed)
    ensures MixRounds(acc, input, secret, seed, i, n, shift) == acc
    decreases n - i
  {
    hide Matched, Mix16B, Xxh64.Plus;
    if i < n {
      MatchedMixesToZero(input, 16 * i, secret, 16 * i + shift, seed);
      NothingAdded(acc);
      MatchedRounds(acc, input, secret, seed, i + 1, n, shift);
    }
  }

  /** 129 to 240 bytes: eight blocks under the secret from its start, the others from its fourth byte, the last 16 bytes under byte 119. */
  lemma MatchedLongMiddle(input: seq<byte>, secret: Secret, seed: u64)
    requires 129 <= |input| <= 240
    requires forall i: nat :: i < 8 ==> Matched(input, 16 * i, secret, 16 * i, seed)
    requires forall i: nat :: 8 <= i < |input| / 16 ==> Matched(input, 16 * i, secret, 16 * i - 125, seed)
    requires Matched(input, |input| - 16, secret, 119, seed)
    ensures Short(input, secret, seed) == Avalanche(Avalanche(StartAcc(|input|)))
  {
    hide Matched, MixRounds, Mix16B, Avalanche, StartAcc, Xxh64.Plus;
    MatchedRounds(StartAcc(|input|), input, secret, seed, 0, 8, 0);
    MatchedMixesToZero(input, |input| - 16, secret, 119, seed);
    MatchedRounds(0, input, secret, seed, 8, |input| / 16, 3 - 128);
    NothingAdded(Avalanche(StartAcc(|input|)));
  }

  // ----- The secret a seed makes -----

  lemma Byte0(x: u64)
    ensures ByteOf(x, 0) == (x & 0xFF) as byte
  {
  }

  lemma Byte1(x: u64)
    ensures ByteOf(x, 1) == ((x >> 8) & 0xFF) as byte
  {
  }

  lemma Byte2(x: u64)
    ensures ByteOf(x, 2) == ((x >> 16) & 0xFF) as byte
  {
  }

  lemma Byte3(x: u64)
    ensures ByteOf(x, 3) == ((x >> 24) & 0xFF) as byte
  {
  }

  lemma Byte4(x: u64)
    ensures ByteOf(x, 4) == ((x >> 32) & 0xFF) as byte
  {
  }

  lemma Byte5(x: u64)
    ensures ByteOf(x, 5) == ((x >> 40) & 0xFF) as byte
  {
  }

  lemma Byte6(x: u64)
    ensures ByteOf(x, 6) == ((x >> 48) & 0xFF) as byte
  {
  }

  lemma Byte7(x: u64)
    ensures ByteOf(x, 7) == ((x >> 56) & 0xFF) as byte
  {
  }

  lemma LowJoined(x: u64)
    ensures Joined32((x & 0xFF) as byte, ((x >> 8) & 0xFF) as byte, ((x >> 16) & 0xFF) as byte, ((x >> 24) & 0xFF) as byte)
         == (x & 0xFFFFFFFF) as u32
  {
  }

  lemma HighJoined(x: u64)
    ensures Joined32(((x >> 32) & 0xFF) as byte, ((x >> 40) & 0xFF) as byte, ((x >> 48) & 0xFF) as byte, ((x >> 56) & 0xFF) as byte)
         == (x >> 32) as u32
  {
  }

  lemma LowHalfOfBytes(x: u64)
    ensures Joined32(ByteOf(x, 0), ByteOf(x, 1), ByteOf(x, 2), ByteOf(x, 3)) == (x & 0xFFFFFFFF) as u32
  {
    hide ByteOf, Joined32;
    Byte0(x);
    Byte1(x);
    Byte2(x);
    Byte3(x);
    LowJoined(x);
  }

  lemma HighHalfOfBytes(x: u64)
    ensures Joined32(ByteOf(x, 4), ByteOf(x, 5), ByteOf(x, 6), ByteOf(x, 7)) == (x >> 32) as u32
  {
    hide ByteOf, Joined32;
    Byte4(x);
    Byte5(x);
    Byte6(x);
    Byte7(x);
    HighJoined(x);
  }

  lemma HalvesOf(x: u64)
    ensures JoinedHalves((x & 0xFFFFFFFF) as u32, (x >> 32) as u32) == x
  {
  }

  lemma WordFromBytes(s: seq<byte>, at: nat, x: u64)
    requires at + 8 <= |s| && forall j :: 0 <= j < 8 ==> s[at + j] == ByteOf(x, j)
    ensures ReadLE64(s, at) == x
  {
    hide ByteOf, ReadLE32, ReadLE64, Joined32, JoinedHalves;
    ReadInHalves(s, at);
    JoinedBytes(s, at);
    JoinedBytes(s, at + 4);
    assert s[at + 0] == ByteOf(x, 0) && s[at + 1] == ByteOf(x, 1) && s[at + 2] == ByteOf(x, 2) && s[at + 3] == ByteOf(x, 3);
    assert s[at + 4] == ByteOf(x, 4) && s[at + 5] == ByteOf(x, 5) && s[at + 6] == ByteOf(x, 6) && s[at + 7] == ByteOf(x, 7);
    LowHalfOfBytes(x);
    HighHalfOfBytes(x);
    HalvesOf(x);
  }

  lemma SecretWords(seed: u64, i: nat)
    requires i < 12
    ensures SecretWord(seed, 2 * i) == Xxh64.Plus(ReadLE64(KSecret(), 8 * (2 * i)), seed)
    ensures SecretWord(seed, 2 * i + 1) == Less(ReadLE64(KSecret(), 8 * (2 * i + 1)), seed)
  {
    hide KSecret, ReadLE64, Xxh64.Plus, Less;
  }

  lemma CustomWord(seed: u64, w: nat)
    requires w < 24
    ensures ReadLE64(CustomSecret(seed), 8 * w) == SecretWord(seed, w)
  {
    hide SecretWord, ReadLE64, ByteOf;
    WordFromBytes(CustomSecret(seed), 8 * w, SecretWord(seed, w));
  }

  /** The words of the default secret with the seed added and taken away in turn. */
  lemma CustomWords(seed: u64, i: nat)
    requires i < 12
    ensures ReadLE64(CustomSecret(seed), 16 * i) == Xxh64.Plus(ReadLE64(KSecret(), 16 * i), seed)
    ensures ReadLE64(CustomSecret(seed), 16 * i + 8) == Less(ReadLE64(KSecret(), 16 * i + 8), seed)
  {
    hide KSecret, CustomSecret, ReadLE64, SecretWord, Xxh64.Plus, Less;
    CustomWord(seed, 2 * i);
    CustomWord(seed, 2 * i + 1);
    SecretWords(seed, i);
  }

  lemma NoSeed(x: u64)
    ensures Xxh64.Plus(x, 0) == x && Less(x, 0) == x
  {
  }

  lemma KeysOfSeed(seed: u64, i: nat)
    requires i < 12
    ensures LowKey(KSecret(), 16 * i, seed) == LowKey(CustomSecret(seed), 16 * i, 0)
    ensures HighKey(KSecret(), 16 * i, seed) == HighKey(CustomSecret(seed), 16 * i, 0)
  {
    hide KSecret, CustomSecret, ReadLE64, Xxh64.Plus, Less;
    CustomWords(seed, i);
    NoSeed(ReadLE64(CustomSecret(seed), 16 * i));
    NoSeed(ReadLE64(CustomSecret(seed), 16 * i + 8));
  }

  lemma MiddleOfSeed(input: seq<byte>, seed: u64)
    requires 17 <= |input| <= 128
    ensures Len17To128(input, KSecret(), seed) == Len17To128(input, CustomSecret(seed), 0)
  {
    hide KSecret, CustomSecret, ReadLE64, LowKey, HighKey, Flipped, MulFold64, Xxh64.Plus, StartAcc, Avalanche;
    forall at: nat, key: nat | at + 16 <= |input| && key < 128 && key % 16 == 0
      ensures Mix16B(input, at, KSecret(), key, seed) == Mix16B(input, at, CustomSecret(seed), key, 0)
    {
      KeysOfSeed(seed, key / 16);
    }
    hide Mix16B;
    forall i: nat | i < 4 && 32 * i < |input| && 16 * (i + 1) <= |input|
      ensures forall acc :: MixPair(acc, input, KSecret(), seed, i) == MixPair(acc, input, CustomSecret(seed), 0, i)
    {
      var at, key := |input| - 16 * (i + 1), 32 * i + 16;
      assert Mix16B(input, 16 * i, KSecret(), 32 * i, seed) == Mix16B(input, 16 * i, CustomSecret(seed), 32 * i, 0);
      assert Mix16B(input, at, KSecret(), key, seed) == Mix16B(input, at, CustomSecret(seed), key, 0);
    }
    hide MixPair;
  }

  /** For 17 to 128 bytes hashing under a seed is hashing under the secret derived from it, as it is for long inputs. */
  lemma SeedIsASecret(input: seq<byte>, seed: u64)
    requires 17 <= |input| <= 128
    ensures Hash(Seeded(seed), input) == Hash(WithSecret(CustomSecret(seed)), input)
  {
    hide KSecret, CustomSecret, Len17To128;
    MiddleOfSeed(input, seed);
  }

  /** Without a seed the three ways of asking for the default secret agree. */
  lemma SeedZeroIsDefault(input: seq<byte>)
    ensures Hash(Seeded(0), input) == Hash(Default, input) == Hash(WithSecret(KSecret()), input)
  {
    hide KSecret, Short, MergeAccs, TimesPrime, LongAcc, Lanes, InitAcc;
  }

  /** A secret with a seed is that seed for short inputs and that secret for long ones. */
  lemma SecretOrSeed(secret: Secret, seed: u64, len: nat)
    ensures SameKeys(WithSecretAndSeed(secret, seed), if len <= 240 then Seeded(seed) else WithSecret(secret), len)
  {
    hide KSecret;
  }

  lemma SameByWords(a: seq<byte>, b: seq<byte>)
    requires |a| == |b| == 192 && forall w: nat :: w < 24 ==> ReadLE64(a, 8 * w) == ReadLE64(b, 8 * w)
    ensures a == b
  {
    hide ReadLE64;
    forall k: nat | k < 192
      ensures a[k] == b[k]
    {
      var w := k / 8;
      SameWord64(a, b, 8 * w);
      assert a[k] == a[8 * w..8 * w + 8][k - 8 * w] && b[k] == b[8 * w..8 * w + 8][k - 8 * w];
    }
  }

  /** A seed of zero leaves the default secret as it is. */
  lemma CustomOfZero()
    ensures CustomSecret(0) == KSecret()
  {
    hide KSecret, CustomSecret, ReadLE64, Xxh64.Plus, Less;
    forall w: nat | w < 24
      ensures ReadLE64(CustomSecret(0), 8 * w) == ReadLE64(KSecret(), 8 * w)
    {
      CustomWords(0, w / 2);
      NoSeed(ReadLE64(KSecret(), 8 * w));
      assert w == 2 * (w / 2) || w == 2 * (w / 2) + 1;
    }
    SameByWords(CustomSecret(0), KSecret());
  }

  /** The secret made from a seed, given together with that seed, hashes as the seed alone does. */
  lemma DerivedSecretIsTheSeed(seed: u64, len: nat)
    ensures SameKeys(WithSecretAndSeed(CustomSecret(seed), seed), Seeded(seed), len)
  {
    if seed == 0 {
      CustomOfZero();
    }
    hide KSecret, CustomSecret;
  }

  // ----- Merging -----

  /** The lanes before the first stripe. */
  lemma FirstLanes()
    ensures InitAcc() == [0xC2B2AE3D, 0x9E3779B185EBCA87, 0xC2B2AE3D27D4EB4F, 0x165667B19E3779F9,
                          0x85EBCA77C2B2AE63, 0x85EBCA77, 0x27D4EB2F165667C5, 0x9E3779B1]
  {
  }

  lemma PairCancels(result: u64, acc: Acc, secret: Secret, i: nat)
    requires i < 4 && (acc[2 * i] == ReadLE64(secret, 11 + 16 * i) || acc[2 * i + 1] == ReadLE64(secret, 19 + 16 * i))
    ensures Mix2Accs(result, acc, secret, i) == result
  {
    hide ReadLE64, Flipped, MulFold64;
    FlippedAway(acc[2 * i]);
    FlippedAway(acc[2 * i + 1]);
    NothingTimes(Flipped(acc[2 * i], ReadLE64(secret, 11 + 16 * i)));
    NothingTimes(Flipped(acc[2 * i + 1], ReadLE64(secret, 19 + 16 * i)));
  }

  /** Where one lane of every pair is the word of the secret it is merged with, only the start is left. */
  lemma MergeCancels(acc: Acc, secret: Secret, start: u64)
    requires acc[0] == ReadLE64(secret, 11) || acc[1] == ReadLE64(secret, 19)
    requires acc[2] == ReadLE64(secret, 27) || acc[3] == ReadLE64(secret, 35)
    requires acc[4] == ReadLE64(secret, 43) || acc[5] == ReadLE64(secret, 51)
    requires acc[6] == ReadLE64(secret, 59) || acc[7] == ReadLE64(secret, 67)
    ensures MergeAccs(acc, secret, start) == Avalanche(start)
  {
    hide ReadLE64, Mix2Accs, Avalanche;
    PairCancels(start, acc, secret, 0);
    PairCancels(start, acc, secret, 1);
    PairCancels(start, acc, secret, 2);
    PairCancels(start, acc, secret, 3);
  }
}
