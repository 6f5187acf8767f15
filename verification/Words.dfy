/** Machine words and the little-endian reads the hash family is built on. */
module Words {
  type byte = bv8
  type u32 = bv32
  type u64 = bv64

  function ReadLE32(s: seq<byte>, at: nat): u32
    requires at + 4 <= |s|
  {
    s[at] as u32 | (s[at + 1] as u32 << 8) | (s[at + 2] as u32 << 16) | (s[at + 3] as u32 << 24)
  }

  /** A word as it is put together from memory. */
  function Joined32(a: byte, b: byte, c: byte, d: byte): u32 {
    a as u32 | (b as u32 << 8) | (c as u32 << 16) | (d as u32 << 24)
  }

  function ReadLE64(s: seq<byte>, at: nat): u64
    requires at + 8 <= |s|
  {
    (ReadLE32(s, at) as u64) | (ReadLE32(s, at + 4) as u64 << 32)
  }

  function Rotl32(x: u32, r: u32): u32
    requires 0 < r < 32
  {
    (x << r) | (x >> (32 - r))
  }

  function Rotl64(x: u64, r: u64): u64
    requires 0 < r < 64
  {
    (x << r) | (x >> (64 - r))
  }

  /** The bytes of a word in the opposite order. */
  function Swap32(x: u32): u32 {
    (x << 24) | (x >> 24) | ((x << 8) & 0x00FF0000) | ((x >> 8) & 0x0000FF00)
  }

  lemma JoinedBytes(s: seq<byte>, at: nat)
    requires at + 4 <= |s|
    ensures ReadLE32(s, at) == Joined32(s[at], s[at + 1], s[at + 2], s[at + 3])
  {
  }

  lemma FourBytes(a: byte, b: byte, c: byte, d: byte, e: byte, f: byte, g: byte, h: byte)
    requires Joined32(a, b, c, d) == Joined32(e, f, g, h)
    ensures a == e && b == f && c == g && d == h
  {
  }

  lemma BytesOfWord(a: seq<byte>, b: seq<byte>, at: nat)
    requires at + 4 <= |a| && at + 4 <= |b| && ReadLE32(a, at) == ReadLE32(b, at)
    ensures a[at..at + 4] == b[at..at + 4]
  {
    JoinedBytes(a, at);
    JoinedBytes(b, at);
    hide ReadLE32, Joined32;
    FourBytes(a[at], a[at + 1], a[at + 2], a[at + 3], b[at], b[at + 1], b[at + 2], b[at + 3]);
  }

  lemma WordOfBytes(a: seq<byte>, b: seq<byte>, at: nat)
    requires at + 4 <= |a| && at + 4 <= |b| && a[at..at + 4] == b[at..at + 4]
    ensures ReadLE32(a, at) == ReadLE32(b, at)
  {
    JoinedBytes(a, at);
    JoinedBytes(b, at);
    hide ReadLE32, Joined32;
    var x, y := a[at..at + 4], b[at..at + 4];
    assert a[at] == x[0] && a[at + 1] == x[1] && a[at + 2] == x[2] && a[at + 3] == x[3];
    assert b[at] == y[0] && b[at + 1] == y[1] && b[at + 2] == y[2] && b[at + 3] == y[3];
  }

  /** A word is as good as its bytes. */
  lemma SameWord32(a: seq<byte>, b: seq<byte>, at: nat)
    requires at + 4 <= |a| && at + 4 <= |b|
    ensures ReadLE32(a, at) == ReadLE32(b, at) <==> a[at..at + 4] == b[at..at + 4]
  {
    hide ReadLE32;
    if ReadLE32(a, at) == ReadLE32(b, at) {
      BytesOfWord(a, b, at);
    } else if a[at..at + 4] == b[at..at + 4] {
      WordOfBytes(a, b, at);
    }
  }

  function JoinedHalves(low: u32, high: u32): u64 {
    low as u64 | (high as u64 << 32)
  }

  lemma HalvesOfWord(a: u32, b: u32, c: u32, d: u32)
    requires JoinedHalves(a, b) == JoinedHalves(c, d)
    ensures a == c && b == d
  {
  }

  lemma ReadInHalves(s: seq<byte>, at: nat)
    requires at + 8 <= |s|
    ensures ReadLE64(s, at) == JoinedHalves(ReadLE32(s, at), ReadLE32(s, at + 4))
  {
    hide ReadLE32;
  }

  lemma SameHalves(a: seq<byte>, b: seq<byte>, at: nat)
    requires at + 8 <= |a| && at + 8 <= |b|
    ensures a[at..at + 8] == b[at..at + 8] <==> a[at..at + 4] == b[at..at + 4] && a[at + 4..at + 4 + 4] == b[at + 4..at + 4 + 4]
  {
    assert a[at..at + 8] == a[at..at + 4] + a[at + 4..at + 4 + 4] && b[at..at + 8] == b[at..at + 4] + b[at + 4..at + 4 + 4];
    assert a[at..at + 8][..4] == a[at..at + 4] && b[at..at + 8][..4] == b[at..at + 4];
    assert a[at..at + 8][4..] == a[at + 4..at + 4 + 4] && b[at..at + 8][4..] == b[at + 4..at + 4 + 4];
  }

  lemma SameWord64(a: seq<byte>, b: seq<byte>, at: nat)
    requires at + 8 <= |a| && at + 8 <= |b|
    ensures ReadLE64(a, at) == ReadLE64(b, at) <==> a[at..at + 8] == b[at..at + 8]
  {
    hide ReadLE32, ReadLE64, JoinedHalves;
    ReadInHalves(a, at);
    ReadInHalves(b, at);
    SameHalves(a, b, at);
    SameWord32(a, b, at);
    SameWord32(a, b, at + 4);
    if ReadLE64(a, at) == ReadLE64(b, at) {
      HalvesOfWord(ReadLE32(a, at), ReadLE32(a, at + 4), ReadLE32(b, at), ReadLE32(b, at + 4));
    }
  }

  lemma WordOfFront(s: seq<byte>, n: nat, at: nat)
    requires at + 8 <= n <= |s|
    ensures ReadLE64(s[..n], at) == ReadLE64(s, at)
  {
    assert s[..n][at..at + 8] == s[at..at + 8];
    SameWord64(s[..n], s, at);
  }

  /** What an unsigned 32-bit or 64-bit counter holds. */
  function Wrap32(n: nat): nat {
    n % 0x1_0000_0000
  }

  function Wrap64(n: nat): nat {
    n % 0x1_0000_0000_0000_0000
  }

  lemma RemainderIsUnique(n: int, m: int, q: int, r: int)
    requires m > 0 && n == q * m + r && 0 <= r < m
    ensures n % m == r && n / m == q
  {
    var d := n / m - q;
    assert d * m == r - n % m;
    assert d >= 1 ==> d * m >= m;
    assert d <= -1 ==> d * m <= -m;
  }

  lemma ReduceEarly(a: nat, b: nat, m: nat)
    requires m > 0
    ensures (a % m + b) % m == (a + b) % m
  {
    var x := a % m + b;
    var q := a / m + x / m;
    assert a + b == q * m + x % m by {
      assert a == a / m * m + a % m;
      assert x == x / m * m + x % m;
    }
    RemainderIsUnique(a + b, m, q, x % m);
  }

  /** Reducing a counter early changes nothing. */
  lemma WrapAdd32(a: nat, b: nat)
    ensures Wrap32(Wrap32(a) + b) == Wrap32(a + b)
  {
    ReduceEarly(a, b, 0x1_0000_0000);
  }

  lemma WrapAdd64(a: nat, b: nat)
    ensures Wrap64(Wrap64(a) + b) == Wrap64(a + b)
  {
    ReduceEarly(a, b, 0x1_0000_0000_0000_0000);
  }

  lemma QuotientIsNat(n: int, m: int)
    requires n >= 0 && m > 0
    ensures n / m >= 0
  {
  }

  /** A window of the rest of a sequence is a window of the sequence. */
  lemma Window<T>(all: seq<T>, before: nat, rest: seq<T>, i: nat, j: nat)
    requires before <= |all| && all[before..] == rest && i <= j <= |rest|
    ensures rest[i..j] == all[before + i..before + j]
  {
  }

  lemma Rejoined<T>(s: seq<T>, i: nat)
    requires i <= |s|
    ensures s[..i] + s[i..] == s && |s[..i]| == i
  {
  }

  lemma FrontSlice<T>(a: seq<T>, b: seq<T>, i: nat)
    requires i <= |a|
    ensures (a + b)[i..|a|] == a[i..] && (a + b)[|a|..] == b
  {
  }

  lemma SliceJoin<T>(s: seq<T>, i: nat, j: nat)
    requires i <= j <= |s|
    ensures s[i..] == s[i..j] + s[j..]
  {
  }

  lemma WrapRemainder(n: nat)
    ensures Wrap64(n) % 32 == n % 32
    ensures Wrap64(n) <= n && (n < 0x1_0000_0000_0000_0000 ==> Wrap64(n) == n)
    ensures Wrap32(n) <= n && (n < 0x1_0000_0000 ==> Wrap32(n) == n)
  {
    var q := n / 0x1_0000_0000_0000_0000;
    RemainderIsUnique(n, 32, 0x800_0000_0000_0000 * q + Wrap64(n) / 32, Wrap64(n) % 32);
  }

  /** memcpy into part of a fixed buffer. */
  method MemCpy(dst: array<byte>, at: nat, src: seq<byte>)
    requires at + |src| <= dst.Length
    modifies dst
    ensures dst[..] == old(dst[..at]) + src + old(dst[at + |src|..])
  {
    forall i | 0 <= i < |src| {
      dst[at + i] := src[i];
    }
  }

  /** The pieces of an input, joined. */
  function Join(chunks: seq<seq<byte>>): seq<byte> {
    if chunks == [] then [] else Join(chunks[..|chunks| - 1]) + chunks[|chunks| - 1]
  }

  lemma JoinPrefix(chunks: seq<seq<byte>>, i: nat)
    requires i < |chunks|
    ensures Join(chunks[..i + 1]) == Join(chunks[..i]) + chunks[i]
  {
    assert chunks[..i + 1][..i] == chunks[..i];
  }
}
