/** XXH3, 64 bits, on inputs of at most 240 bytes. */
module Xxh3Short {
  import opened Words
  import opened Multiply
  import opened Xxh3Stripes
  import Xxh64

  const PRIME_MX1: u64 := 0x165667919E3779F9

  const MIDSIZE_MAX: nat := 240

  /** Row `r` of the default secret, 16 bytes. */
  function SecretRow(r: nat): (s: seq<byte>)
    requires r < 12
    ensures |s| == 16
  {
    if r == 0 then [0xb8, 0xfe, 0x6c, 0x39, 0x23, 0xa4, 0x4b, 0xbe, 0x7c, 0x01, 0x81, 0x2c, 0xf7, 0x21, 0xad, 0x1c]
    else if r == 1 then [0xde, 0xd4, 0x6d, 0xe9, 0x83, 0x90, 0x97, 0xdb, 0x72, 0x40, 0xa4, 0xa4, 0xb7, 0xb3, 0x67, 0x1f]
    else if r == 2 then [0xcb, 0x79, 0xe6, 0x4e, 0xcc, 0xc0, 0xe5, 0x78, 0x82, 0x5a, 0xd0, 0x7d, 0xcc, 0xff, 0x72, 0x21]
    else if r == 3 then [0xb8, 0x08, 0x46, 0x74, 0xf7, 0x43, 0x24, 0x8e, 0xe0, 0x35, 0x90, 0xe6, 0x81, 0x3a, 0x26, 0x4c]
    else if r == 4 then [0x3c, 0x28, 0x52, 0xbb, 0x91, 0xc3, 0x00, 0xcb, 0x88, 0xd0, 0x65, 0x8b, 0x1b, 0x53, 0x2e, 0xa3]
    else if r == 5 then [0x71, 0x64, 0x48, 0x97, 0xa2, 0x0d, 0xf9, 0x4e, 0x38, 0x19, 0xef, 0x46, 0xa9, 0xde, 0xac, 0xd8]
    else if r == 6 then [0xa8, 0xfa, 0x76, 0x3f, 0xe3, 0x9c, 0x34, 0x3f, 0xf9, 0xdc, 0xbb, 0xc7, 0xc7, 0x0b, 0x4f, 0x1d]
    else if r == 7 then [0x8a, 0x51, 0xe0, 0x4b, 0xcd, 0xb4, 0x59, 0x31, 0xc8, 0x9f, 0x7e, 0xc9, 0xd9, 0x78, 0x73, 0x64]
    else if r == 8 then [0xea, 0xc5, 0xac, 0x83, 0x34, 0xd3, 0xeb, 0xc3, 0xc5, 0x81, 0xa0, 0xff, 0xfa, 0x13, 0x63, 0xeb]
    else if r == 9 then [0x17, 0x0d, 0xdd, 0x51, 0xb7, 0xf0, 0xda, 0x49, 0xd3, 0x16, 0x55, 0x26, 0x29, 0xd4, 0x68, 0x9e]
    else if r == 10 then [0x2b, 0x16, 0xbe, 0x58, 0x7d, 0x47, 0xa1, 0xfc, 0x8f, 0xf8, 0xb8, 0xd1, 0x7a, 0xd0, 0x31, 0xce]
    else [0x45, 0xcb, 0x3a, 0x8f, 0x95, 0x16, 0x04, 0x28, 0xaf, 0xd7, 0xfb, 0xca, 0xbb, 0x4b, 0x40, 0x7e]
  }

  /** The default secret. */
  function KSecret(): (s: Secret)
    ensures |s| == 192
  {
    seq(192, i requires 0 <= i < 192 => SecretRow(i / 16)[i % 16])
  }

  function Swap64(x: u64): u64 {
    (Swap32((x & 0xFFFFFFFF) as u32) as u64 << 32) | Swap32((x >> 32) as u32) as u64
  }

  /** The 128-bit product, its halves xored. */
  function MulFold64(lhs: u64, rhs: u64): u64 {
    var p := Mult64To128(ToWord(lhs), ToWord(rhs));
    FromWord(p.low64) ^ FromWord(p.high64)
  }

  function XorShift(x: u64, shift: u64): u64
    requires shift < 64
  {
    x ^ (x >> shift)
  }

  /** XXH3_avalanche. */
  function Avalanche(h: u64): u64 {
    XorShift(XorShift(h, 37) * PRIME_MX1, 32)
  }

  function Xor3(a: u64, b: u64, c: u64): u64 {
    a ^ b ^ c
  }

  function Spread(h: u64): u64 {
    Xor3(h, Rotl64(h, 49), Rotl64(h, 24))
  }

  /** The product with PRIME_MX2. */
  function TimesMx2(h: u64): u64 {
    h * 0x9FB21C651E98DF25
  }

  function Flipped(x: u64, bitflip: u64): u64 {
    x ^ bitflip
  }

  function Top(h: u64, len: u64): u64 {
    (h >> 35) + len
  }

  function AddTop(h: u64, len: u64): u64 {
    Flipped(h, Top(h, len))
  }

  /** XXH3_rrmxmx. */
  function Rrmxmx(h: u64, len: u64): u64 {
    XorShift(TimesMx2(AddTop(TimesMx2(Spread(h)), len)), 28)
  }

  function Combined1To3(input: seq<byte>): u32
    requires 1 <= |input| <= 3
  {
    var c1, c2, c3 := input[0], input[|input| / 2], input[|input| - 1];
    (c1 as u32 << 16) | (c2 as u32 << 24) | c3 as u32 | (|input| as u32 << 8)
  }

  function Keyed(x: u32, bitflip: u64): u64 {
    x as u64 ^ bitflip
  }

  function Bitflip1To3(secret: Secret, seed: u64): u64 {
    (ReadLE32(secret, 0) ^ ReadLE32(secret, 4)) as u64 + seed
  }

  function Len1To3(input: seq<byte>, secret: Secret, seed: u64): u64
    requires 1 <= |input| <= 3
  {
    Xxh64.Avalanche(Keyed(Combined1To3(input), Bitflip1To3(secret, seed)))
  }

  function Bitflip4To8(secret: Secret, seed: u64): u64 {
    var seed2 := seed ^ (Swap32((seed & 0xFFFFFFFF) as u32) as u64 << 32);
    (ReadLE64(secret, 8) ^ ReadLE64(secret, 16)) - seed2
  }

  function Combined4To8(input1: u32, input2: u32): u64 {
    input2 as u64 + (input1 as u64 << 32)
  }

  function Len4To8(input: seq<byte>, secret: Secret, seed: u64): u64
    requires 4 <= |input| <= 8
  {
    var input1, input2 := ReadLE32(input, 0), ReadLE32(input, |input| - 4);
    Rrmxmx(Flipped(Combined4To8(input1, input2), Bitflip4To8(secret, seed)), |input| as u64)
  }

  function Len9To16(input: seq<byte>, secret: Secret, seed: u64): u64
    requires 9 <= |input| <= 16
  {
    var bitflip1 := (ReadLE64(secret, 24) ^ ReadLE64(secret, 32)) + seed;
    var bitflip2 := (ReadLE64(secret, 40) ^ ReadLE64(secret, 48)) - seed;
    var lo := ReadLE64(input, 0) ^ bitflip1;
    var hi := ReadLE64(input, |input| - 8) ^ bitflip2;
    Avalanche(|input| as u64 + Swap64(lo) + hi + MulFold64(lo, hi))
  }

  function Len0To16(input: seq<byte>, secret: Secret, seed: u64): u64
    requires |input| <= 16
  {
    if |input| > 8 then Len9To16(input, secret, seed)
    else if |input| >= 4 then Len4To8(input, secret, seed)
    else if |input| > 0 then Len1To3(input, secret, seed)
    else Xxh64.Avalanche(seed ^ (ReadLE64(secret, 56) ^ ReadLE64(secret, 64)))
  }

  function Less(x: u64, y: u64): u64 {
    x - y
  }

  function LowKey(secret: Secret, key: nat, seed: u64): u64
    requires key + 16 <= |secret|
  {
    Xxh64.Plus(ReadLE64(secret, key), seed)
  }

  function HighKey(secret: Secret, key: nat, seed: u64): u64
    requires key + 16 <= |secret|
  {
    Less(ReadLE64(secret, key + 8), seed)
  }

  function Mix16B(input: seq<byte>, at: nat, secret: Secret, key: nat, seed: u64): u64
    requires at + 16 <= |input| && key + 16 <= |secret|
  {
    MulFold64(Flipped(ReadLE64(input, at), LowKey(secret, key, seed)),
              Flipped(ReadLE64(input, at + 8), HighKey(secret, key, seed)))
  }

  /** Round `i` of the middle lengths: 16 bytes from the front, 16 from the back. */
  function MixPair(acc: u64, input: seq<byte>, secret: Secret, seed: u64, i: nat): u64
    requires i < 4 && 32 * i < |input| && 16 * (i + 1) <= |input|
  {
    Xxh64.Plus(Xxh64.Plus(acc, Mix16B(input, 16 * i, secret, 32 * i, seed)),
               Mix16B(input, |input| - 16 * (i + 1), secret, 32 * i + 16, seed))
  }

  function StartAcc(len: nat): u64
    requires len < 0x1_0000_0000_0000_0000
  {
    len as u64 * Xxh64.PRIME64_1
  }

  /** The unrolled form. */
  function Len17To128(input: seq<byte>, secret: Secret, seed: u64): u64
    requires 17 <= |input| <= 128
  {
    var a0 := StartAcc(|input|);
    var a1 := if |input| > 96 then MixPair(a0, input, secret, seed, 3) else a0;
    var a2 := if |input| > 64 then MixPair(a1, input, secret, seed, 2) else a1;
    var a3 := if |input| > 32 then MixPair(a2, input, secret, seed, 1) else a2;
    Avalanche(MixPair(a3, input, secret, seed, 0))
  }

  /** The small-code form of the same lengths, a counting-down loop, computes the same hash. */
  method Len17To128Loop(input: seq<byte>, secret: Secret, seed: u64) returns (h: u64)
    requires 17 <= |input| <= 128
    ensures h == Len17To128(input, secret, seed)
  {
    hide MixPair, StartAcc, Avalanche;
    var acc := StartAcc(|input|);
    var i := (|input| - 1) / 32;
    while i > 0
      invariant i <= 3 && 32 * i < |input|
      invariant Len17To128(input, secret, seed) ==
                (var b2 := if i >= 2 then MixPair(if i >= 3 then MixPair(acc, input, secret, seed, 3) else acc, input, secret, seed, 2) else acc;
                 var b1 := if i >= 1 then MixPair(b2, input, secret, seed, 1) else b2;
                 Avalanche(MixPair(b1, input, secret, seed, 0)))
    {
      acc := MixPair(acc, input, secret, seed, i);
      i := i - 1;
    }
    acc := MixPair(acc, input, secret, seed, 0);
    h := Avalanche(acc);
  }

  function MixRound(acc: u64, input: seq<byte>, at: nat, secret: Secret, key: nat, seed: u64): u64
    requires at + 16 <= |input| && key + 16 <= |secret|
  {
    Xxh64.Plus(acc, Mix16B(input, at, secret, key, seed))
  }

  function Close(acc: u64, accEnd: u64): u64 {
    Avalanche(Xxh64.Plus(Avalanche(acc), accEnd))
  }

  /** Rounds `i`, `i + 1`, ... below `n`, each with the next 16 bytes of input and of secret. */
  function MixRounds(acc: u64, input: seq<byte>, secret: Secret, seed: u64, i: nat, n: nat, shift: int): u64
    requires i <= n && 16 * n <= |input|
    requires i < n ==> 16 * i + shift >= 0 && 16 * n + shift <= |secret|
    decreases n - i
  {
    if i == n then acc
    else MixRounds(MixRound(acc, input, 16 * i, secret, 16 * i + shift, seed), input, secret, seed, i + 1, n, shift)
  }

  function Len129To240(input: seq<byte>, secret: Secret, seed: u64): u64
    requires 129 <= |input| <= 240
  {
    var acc := MixRounds(StartAcc(|input|), input, secret, seed, 0, 8, 0);
    var last := Mix16B(input, |input| - 16, secret, SECRET_SIZE_MIN - 17, seed);
    var accEnd := MixRounds(last, input, secret, seed, 8, |input| / 16, 3 - 128);
    Close(acc, accEnd)
  }

  method Len129To240Loop(input: seq<byte>, secret: Secret, seed: u64) returns (h: u64)
    requires 129 <= |input| <= 240
    ensures h == Len129To240(input, secret, seed)
  {
    hide Mix16B, MixRound, StartAcc, Close;
    var nbRounds := |input| / 16;
    var acc := StartAcc(|input|);
    for i := 0 to 8
      invariant MixRounds(acc, input, secret, seed, i, 8, 0) == MixRounds(StartAcc(|input|), input, secret, seed, 0, 8, 0)
    {
      acc := MixRound(acc, input, 16 * i, secret, 16 * i, seed);
    }
    var last := Mix16B(input, |input| - 16, secret, SECRET_SIZE_MIN - 17, seed);
    var accEnd := last;
    for i := 8 to nbRounds
      invariant MixRounds(accEnd, input, secret, seed, i, nbRounds, 3 - 128) == MixRounds(last, input, secret, seed, 8, nbRounds, 3 - 128)
    {
      accEnd := MixRound(accEnd, input, 16 * i, secret, 16 * (i - 8) + 3, seed);
    }
    h := Close(acc, accEnd);
  }

  /** The dispatch on the length that every entry point shares. */
  function Short(input: seq<byte>, secret: Secret, seed: u64): u64
    requires |input| <= 240
  {
    if |input| <= 16 then Len0To16(input, secret, seed)
    else if |input| <= 128 then Len17To128(input, secret, seed)
    else Len129To240(input, secret, seed)
  }
}
