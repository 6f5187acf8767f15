/** XXH3, 64 bits: the four one-shot entry points, and the streaming state with its four resets. */
module Xxh3 {
  import opened Words
  import opened Xxh3Stripes
  import opened Xxh3Lanes
  import opened Xxh3Short
  import Xxh32
  import Xxh64

  function InitAcc(): Acc {
    [Xxh32.PRIME32_3 as u64, Xxh64.PRIME64_1, Xxh64.PRIME64_2, Xxh64.PRIME64_3,
     Xxh64.PRIME64_4, Xxh32.PRIME32_2 as u64, Xxh64.PRIME64_5, Xxh32.PRIME32_1 as u64]
  }

  function Mix2Accs(result: u64, acc: Acc, secret: Secret, i: nat): u64
    requires i < 4
  {
    Xxh64.Plus(result, MulFold64(Flipped(acc[2 * i], ReadLE64(secret, 11 + 16 * i)),
                                 Flipped(acc[2 * i + 1], ReadLE64(secret, 11 + 16 * i + 8))))
  }

  function WordTimesPrime(n: nat): u64
    requires n < 0x1_0000_0000_0000_0000
  {
    n as u64 * Xxh64.PRIME64_1
  }

  function TimesPrime(len: nat): u64 {
    WordTimesPrime(Wrap64(len))
  }

  /** The wrapped length starts the merge as the true one does. */
  lemma WrappedLength(len: nat)
    ensures TimesPrime(Wrap64(len)) == TimesPrime(len)
  {
    hide WordTimesPrime;
    assert Wrap64(Wrap64(len)) == Wrap64(len);
  }

  /** XXH3_mergeAccs. */
  function MergeAccs(acc: Acc, secret: Secret, start: u64): u64 {
    Avalanche(Mix2Accs(Mix2Accs(Mix2Accs(Mix2Accs(start, acc, secret, 0), acc, secret, 1), acc, secret, 2), acc, secret, 3))
  }

  /** A secret derived from a seed: the default secret, its words moved up and down in turn. */
  function SecretWord(seed: u64, i: nat): u64
    requires i < 24
  {
    if i % 2 == 0 then Xxh64.Plus(ReadLE64(KSecret(), 8 * i), seed) else Less(ReadLE64(KSecret(), 8 * i), seed)
  }

  function ByteOf(x: u64, j: nat): byte
    requires j < 8
  {
    var moved := if j == 0 then x else if j == 1 then x >> 8 else if j == 2 then x >> 16 else if j == 3 then x >> 24
                 else if j == 4 then x >> 32 else if j == 5 then x >> 40 else if j == 6 then x >> 48 else x >> 56;
    (moved & 0xFF) as byte
  }

  function CustomSecret(seed: u64): (s: Secret)
    ensures |s| == 192
  {
    seq(192, i requires 0 <= i < 192 => ByteOf(SecretWord(seed, i / 8), i % 8))
  }

  method WriteLE64(dst: array<byte>, word: nat, x: u64)
    requires 8 * word + 8 <= dst.Length
    modifies dst
    ensures forall k :: 0 <= k < dst.Length ==> dst[k] == if k / 8 == word then ByteOf(x, k % 8) else old(dst[k])
  {
    hide ByteOf;
    forall j | 0 <= j < 8 {
      dst[8 * word + j] := ByteOf(x, j);
    }
  }

  /** XXH3_initCustomSecret, two words a round. */
  method InitCustomSecret(dst: array<byte>, seed: u64)
    requires dst.Length == 192
    modifies dst
    ensures dst[..] == CustomSecret(seed)
  {
    hide SecretWord, ByteOf;
    for i := 0 to 12
      invariant forall k :: 0 <= k < 16 * i ==> dst[k] == ByteOf(SecretWord(seed, k / 8), k % 8)
    {
      WriteLE64(dst, 2 * i, SecretWord(seed, 2 * i));
      WriteLE64(dst, 2 * i + 1, SecretWord(seed, 2 * i + 1));
    }
  }

  /** How the hash is keyed; one constructor for each entry point. */
  datatype Mode = Default | Seeded(seed: u64) | WithSecret(secret: Secret) | WithSecretAndSeed(secret: Secret, seed: u64)

  /** The secret and the seed of inputs of at most 240 bytes. */
  function ShortSecret(mode: Mode): Secret {
    match mode
    case WithSecret(secret) => secret
    case _ => KSecret()
  }

  function ShortSeed(mode: Mode): u64 {
    match mode
    case Default => 0
    case Seeded(seed) => seed
    case WithSecret(_) => 0
    case WithSecretAndSeed(_, seed) => seed
  }

  /** The secret the stripes of a long input are accumulated under. */
  function LongSecret(mode: Mode): Secret {
    match mode
    case Default => KSecret()
    case Seeded(seed) => if seed == 0 then KSecret() else CustomSecret(seed)
    case WithSecret(secret) => secret
    case WithSecretAndSeed(secret, _) => secret
  }

  /** The hash of a byte string. */
  ghost function Hash(mode: Mode, input: seq<byte>): u64 {
    if |input| <= 240 then Short(input, ShortSecret(mode), ShortSeed(mode))
    else MergeAccs(LongAcc(Lanes(), LongSecret(mode), InitAcc(), input), LongSecret(mode), TimesPrime(|input|))
  }

  /** The two modes key inputs of length `len` alike. */
  predicate SameKeys(a: Mode, b: Mode, len: nat) {
    if len <= 240 then ShortSecret(a) == ShortSecret(b) && ShortSeed(a) == ShortSeed(b) else LongSecret(a) == LongSecret(b)
  }

  lemma SameKeysSameHash(a: Mode, b: Mode, input: seq<byte>)
    requires SameKeys(a, b, |input|)
    ensures Hash(a, input) == Hash(b, input)
  {
    hide Short, ShortSecret, ShortSeed, LongSecret, MergeAccs, TimesPrime, LongAcc, Lanes, InitAcc;
  }

  method OneShot(mode: Mode, input: seq<byte>) returns (h: u64)
    ensures h == Hash(mode, input)
  {
    hide Short, ShortSecret, ShortSeed, MergeAccs, TimesPrime, LongSecret, LongAcc, Lanes, InitAcc;
    if |input| <= 240 {
      return Short(input, ShortSecret(mode), ShortSeed(mode));
    }
    var acc := HashLongLoop(Lanes(), LongSecret(mode), InitAcc(), input);
    h := MergeAccs(acc, LongSecret(mode), TimesPrime(|input|));
  }

  /** The accumulators and the slot are those of the first `m` stripes of `data`. */
  ghost predicate Taken(secret: Secret, acc: Acc, soFar: nat, data: seq<byte>, m: nat) {
    && 64 * m <= |data|
    && Cursor(acc, soFar) == Absorb(Lanes(), secret, Cursor(InitAcc(), 0), data, 0, m)
  }

  lemma TakenIsInside(secret: Secret, acc: Acc, soFar: nat, data: seq<byte>, m: nat)
    requires Taken(secret, acc, soFar, data, m)
    ensures soFar < SlotsPerBlock(secret)
  {
  }

  /** Stripes consumed from wherever they are kept. */
  lemma TakeMore(secret: Secret, acc: Acc, soFar: nat, data: seq<byte>, m: nat, acc2: Acc, soFar2: nat, src: seq<byte>, at: nat, n: nat)
    requires Taken(secret, acc, soFar, data, m)
    requires soFar < SlotsPerBlock(secret)
    requires at + 64 * n <= |src| && 64 * (m + n) <= |data|
    requires src[at..at + 64 * n] == data[64 * m..64 * m + 64 * n]
    requires Cursor(acc2, soFar2) == Absorb(Lanes(), secret, Cursor(acc, soFar), src, at, n)
    ensures Taken(secret, acc2, soFar2, data, m + n)
  {
    hide Lanes, InitAcc, Absorb, SlotsPerBlock;
    AbsorbCopy(Lanes(), secret, Cursor(acc, soFar), src, at, data, 64 * m, n);
    AbsorbAppend(Lanes(), secret, Cursor(InitAcc(), 0), data, 0, m, n);
  }

  lemma TakenInPrefix(secret: Secret, acc: Acc, soFar: nat, data: seq<byte>, all: seq<byte>, m: nat)
    requires Taken(secret, acc, soFar, data, m) && data <= all
    ensures Taken(secret, acc, soFar, all, m)
  {
    hide Lanes, InitAcc, Absorb;
    AbsorbCopy(Lanes(), secret, Cursor(InitAcc(), 0), data, 0, all, 0, m);
  }
}
