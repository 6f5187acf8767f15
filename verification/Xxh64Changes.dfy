/** Every step of the tail of XXH64 is a bijection in the word it takes in, so no change there goes unnoticed. */
module Xxh64Changes {
  import opened Words
  import Striping
  import opened Alike
  import opened AvalancheBijection
  import opened Xxh64

  // ----- The steps, backwards -----

  function Over1(x: u64): u64 { x * 0x0887493432BADB37 }

  lemma Inverse1(x: u64)
    ensures Over1(x * 0x9E3779B185EBCA87) == x
  {
  }

  lemma Divided1(x: u64)
    ensures Over1(Scale1(x)) == x
  {
    Inverse1(x);
  }

  function Over2(x: u64): u64 { x * 0x0BA79078168D4BAF }

  lemma Inverse2(x: u64)
    ensures Over2(x * 0xC2B2AE3D27D4EB4F) == x
  {
  }

  lemma Divided2(x: u64)
    ensures Over2(Scale2(x)) == x
  {
    Inverse2(x);
  }

  function Over5(x: u64): u64 { x * 0xC592C09FDFBA7F0D }

  lemma Inverse5(x: u64)
    ensures Over5(x * 0x27D4EB2F165667C5) == x
  {
  }

  lemma Divided5(x: u64)
    ensures Over5(Scale5(x)) == x
  {
    Inverse5(x);
  }

  function Back11(x: u64): u64 { (x >> 11) | (x << 53) }

  lemma Turned11(x: u64)
    ensures Back11(Rotl64(x, 11)) == x
  {
  }

  function Back23(x: u64): u64 { (x >> 23) | (x << 41) }

  lemma Turned23(x: u64)
    ensures Back23(Rotl64(x, 23)) == x
  {
  }

  function Back27(x: u64): u64 { (x >> 27) | (x << 37) }

  lemma Turned27(x: u64)
    ensures Back27(Rotl64(x, 27)) == x
  {
  }

  function Back31(x: u64): u64 { (x >> 31) | (x << 33) }

  lemma Turned31(x: u64)
    ensures Back31(Rotl64(x, 31)) == x
  {
  }

  function Minus(x: u64, y: u64): u64 { x - y }

  lemma Taken(x: u64, a: u64)
    ensures Minus(x + a, a) == x && Minus(x + a, x) == a
  {
  }

  lemma TakenBack(x: u64, a: u64)
    ensures Minus(Plus(x, a), a) == x && Minus(Plus(x, a), x) == a
  {
    Taken(x, a);
  }

  lemma SameSum(x: u64, y: u64, a: u64, b: u64)
    requires Plus(x, a) == Plus(y, b)
    ensures x == y <==> a == b
  {
    hide Plus, Minus;
    TakenBack(x, a);
    TakenBack(y, b);
  }

  lemma FlippedBack(x: u64, a: u64)
    ensures Xor(x ^ a, a) == x && Xor(x ^ a, x) == a
  {
  }

  lemma XorBack(x: u64, a: u64)
    ensures Xor(Xor(x, a), a) == x && Xor(Xor(x, a), x) == a
  {
    FlippedBack(x, a);
  }

  lemma SameXor(x: u64, y: u64, a: u64, b: u64)
    requires Xor(x, a) == Xor(y, b)
    ensures x == y <==> a == b
  {
    hide Xor;
    XorBack(x, a);
    XorBack(y, b);
  }

  // ----- No step forgets what it had or what it takes in -----

  lemma RoundKeeps(v: u64, w: u64, x: u64, y: u64)
    requires Round(v, x) == Round(w, y)
    ensures v == w <==> x == y
  {
    hide Plus, Scale1, Scale2, Over1, Over2, Rotl64, Back31;
    Divided1(Rotl64(Plus(v, Scale2(x)), 31));
    Divided1(Rotl64(Plus(w, Scale2(y)), 31));
    Turned31(Plus(v, Scale2(x)));
    Turned31(Plus(w, Scale2(y)));
    SameSum(v, w, Scale2(x), Scale2(y));
    Divided2(x);
    Divided2(y);
  }

  lemma MergeKeeps(h: u64, g: u64, x: u64, y: u64)
    requires MergeRound(h, x) == MergeRound(g, y)
    ensures h == g <==> x == y
  {
    hide Plus, Xor, Scale1, Over1, Round;
    var c, d := Xor(h, Round(0, x)), Xor(g, Round(0, y));
    SameSum(Scale1(c), Scale1(d), PRIME64_4, PRIME64_4);
    Divided1(c);
    Divided1(d);
    SameXor(h, g, Round(0, x), Round(0, y));
    if Round(0, x) == Round(0, y) {
      RoundKeeps(0, 0, x, y);
    }
  }

  lemma Mix8Keeps(h: u64, g: u64, x: u64, y: u64)
    requires Mix8(h, x) == Mix8(g, y)
    ensures h == g <==> x == y
  {
    hide Plus, Xor, Scale1, Over1, Round, Rotl64, Back27;
    var c, d := Xor(h, Round(0, x)), Xor(g, Round(0, y));
    SameSum(Scale1(Rotl64(c, 27)), Scale1(Rotl64(d, 27)), PRIME64_4, PRIME64_4);
    Divided1(Rotl64(c, 27));
    Divided1(Rotl64(d, 27));
    Turned27(c);
    Turned27(d);
    SameXor(h, g, Round(0, x), Round(0, y));
    if Round(0, x) == Round(0, y) {
      RoundKeeps(0, 0, x, y);
    }
  }

  lemma WidenedWord(x: u32, y: u32)
    ensures Wide(x) == Wide(y) ==> x == y
  {
  }

  lemma WidenedByte(x: byte, y: byte)
    ensures x as u64 == y as u64 ==> x == y
  {
  }

  lemma MixWordKeeps(h: u64, g: u64, x: u64, y: u64)
    requires MixWord(h, x) == MixWord(g, y)
    ensures h == g <==> x == y
  {
    hide Plus, Xor, Scale1, Scale2, Over1, Over2, Rotl64, Back23;
    var c, d := Xor(h, Scale1(x)), Xor(g, Scale1(y));
    SameSum(Scale2(Rotl64(c, 23)), Scale2(Rotl64(d, 23)), PRIME64_3, PRIME64_3);
    Divided2(Rotl64(c, 23));
    Divided2(Rotl64(d, 23));
    Turned23(c);
    Turned23(d);
    SameXor(h, g, Scale1(x), Scale1(y));
    Divided1(x);
    Divided1(y);
  }

  lemma MixByteKeeps(h: u64, g: u64, x: u64, y: u64)
    requires MixByte(h, x) == MixByte(g, y)
    ensures h == g <==> x == y
  {
    hide Plus, Xor, Scale1, Scale5, Over1, Over5, Rotl64, Back11;
    var c, d := Xor(h, Scale5(x)), Xor(g, Scale5(y));
    Divided1(Rotl64(c, 11));
    Divided1(Rotl64(d, 11));
    Turned11(c);
    Turned11(d);
    SameXor(h, g, Scale5(x), Scale5(y));
    Divided5(x);
    Divided5(y);
  }

  lemma Mix4Keeps(h: u64, g: u64, x: u32, y: u32)
    requires Mix4(h, x) == Mix4(g, y)
    ensures h == g <==> x == y
  {
    hide MixWord, Wide;
    MixWordKeeps(h, g, Wide(x), Wide(y));
    WidenedWord(x, y);
  }

  lemma Mix1Keeps(h: u64, g: u64, x: byte, y: byte)
    requires Mix1(h, x) == Mix1(g, y)
    ensures h == g <==> x == y
  {
    hide MixByte;
    MixByteKeeps(h, g, x as u64, y as u64);
    WidenedByte(x, y);
  }

  lemma AvalancheKeeps(h: u64, g: u64)
    requires Xxh64.Avalanche(h) == Xxh64.Avalanche(g)
    ensures h == g
  {
    hide Xxh64.Avalanche, Undo;
    AvalancheIsBijection(h);
    AvalancheIsBijection(g);
  }

  // ----- The tail -----

  lemma {:induction false} TailKeeps(h: u64, g: u64, t: seq<byte>, at: nat)
    requires at <= |t| && h != g
    ensures MixTail(h, t, at) != MixTail(g, t, at)
    decreases |t| - at
  {
    hide Mix8, Mix4, Mix1, ReadLE32, ReadLE64;
    if at + 8 <= |t| {
      var k := ReadLE64(t, at);
      if Mix8(h, k) == Mix8(g, k) {
        Mix8Keeps(h, g, k, k);
      }
      TailKeeps(Mix8(h, k), Mix8(g, k), t, at + 8);
    } else if at + 4 <= |t| {
      var k := ReadLE32(t, at);
      if Mix4(h, k) == Mix4(g, k) {
        Mix4Keeps(h, g, k, k);
      }
      TailKeeps(Mix4(h, k), Mix4(g, k), t, at + 4);
    } else if at < |t| {
      if Mix1(h, t[at]) == Mix1(g, t[at]) {
        Mix1Keeps(h, g, t[at], t[at]);
      }
      TailKeeps(Mix1(h, t[at]), Mix1(g, t[at]), t, at + 1);
    }
  }

  /** A step of the tail: an aligned double word as long as there is one, then at most one word, then bytes. */
  predicate IsUnit(len: nat, at: nat, n: nat) {
    || (n == 8 && at % 8 == 0 && at + 8 <= len)
    || (n == 4 && at == len - len % 8 && at + 4 <= len)
    || (n == 1 && len - len % 4 <= at < len)
  }

  lemma {:induction false} SameTail(h: u64, t: seq<byte>, u: seq<byte>, at: nat)
    requires at <= |t| == |u| && t[at..] == u[at..]
    ensures MixTail(h, t, at) == MixTail(h, u, at)
    decreases |t| - at
  {
    hide Mix8, Mix4, Mix1, ReadLE32, ReadLE64;
    if at + 8 <= |t| {
      assert t[at..at + 8] == t[at..][..8] && u[at..at + 8] == u[at..][..8];
      assert t[at + 8..] == t[at..][8..] && u[at + 8..] == u[at..][8..];
      SameWord64(t, u, at);
      SameTail(Mix8(h, ReadLE64(t, at)), t, u, at + 8);
    } else if at + 4 <= |t| {
      assert t[at..at + 4] == t[at..][..4] && u[at..at + 4] == u[at..][..4];
      assert t[at + 4..] == t[at..][4..] && u[at + 4..] == u[at..][4..];
      SameWord32(t, u, at);
      SameTail(Mix4(h, ReadLE32(t, at)), t, u, at + 4);
    } else if at < |t| {
      assert t[at] == t[at..][0] && u[at] == u[at..][0];
      assert t[at + 1..] == t[at..][1..] && u[at + 1..] == u[at..][1..];
      SameTail(Mix1(h, t[at]), t, u, at + 1);
    }
  }

  lemma UnitTells(h: u64, t: seq<byte>, u: seq<byte>, at: nat, n: nat)
    requires IsUnit(|t|, at, n) && AlikeBut(t, u, at, n) && t != u
    ensures MixTail(h, t, at) != MixTail(h, u, at)
  {
    hide Mix8, Mix4, Mix1, ReadLE32, ReadLE64;
    OnlyThere(t, u, at, n);
    if n == 8 {
      var j, k := ReadLE64(t, at), ReadLE64(u, at);
      SameWord64(t, u, at);
      if Mix8(h, j) == Mix8(h, k) {
        Mix8Keeps(h, h, j, k);
      }
      TailKeeps(Mix8(h, j), Mix8(h, k), t, at + 8);
      SameTail(Mix8(h, k), t, u, at + 8);
    } else if n == 4 {
      var j, k := ReadLE32(t, at), ReadLE32(u, at);
      SameWord32(t, u, at);
      if Mix4(h, j) == Mix4(h, k) {
        Mix4Keeps(h, h, j, k);
      }
      TailKeeps(Mix4(h, j), Mix4(h, k), t, at + 4);
      SameTail(Mix4(h, k), t, u, at + 4);
    } else {
      assert t[at..at + 1] == [t[at]] && u[at..at + 1] == [u[at]];
      if Mix1(h, t[at]) == Mix1(h, u[at]) {
        Mix1Keeps(h, h, t[at], u[at]);
      }
      TailKeeps(Mix1(h, t[at]), Mix1(h, u[at]), t, at + 1);
      SameTail(Mix1(h, u[at]), t, u, at + 1);
    }
  }

  /** The places the tail is worked through at. */
  predicate IsStop(len: nat, from: nat) {
    from % 8 == 0 || len - len % 4 <= from
  }

  lemma NextMultiple(j: nat, k: nat, q: nat, r: nat)
    requires j == 8 * q && k == 8 * r && j < k
    ensures j + 8 <= k
  {
  }

  lemma Floors(len: nat)
    ensures len - len % 8 == 8 * (len / 8) && len - len % 4 == 4 * (len / 4)
    ensures len - len % 8 <= len - len % 4 <= len - len % 8 + 4
    ensures len % 8 < 8 && len % 4 < 4
    ensures len % 8 >= 4 ==> len - len % 4 == len - len % 8 + 4
    ensures len % 8 < 4 ==> len - len % 4 == len - len % 8
  {
    var q, r := len / 8, len % 8;
    assert len == 8 * q + r;
    if r >= 4 {
      RemainderIsUnique(len, 4, 2 * q + 1, r - 4);
    } else {
      RemainderIsUnique(len, 4, 2 * q, r);
    }
  }

  lemma EightAhead(len: nat, at: nat, n: nat, from: nat)
    requires IsUnit(len, at, n) && from < at && IsStop(len, from) && from + 8 <= len
    ensures from + 8 <= at && IsStop(len, from + 8)
  {
    Floors(len);
    if n == 8 {
      NextMultiple(from, at, from / 8, at / 8);
    } else {
      if from < 8 * (len / 8) {
        NextMultiple(from, 8 * (len / 8), from / 8, len / 8);
      }
    }
  }

  lemma FourAhead(len: nat, at: nat, n: nat, from: nat)
    requires IsUnit(len, at, n) && from < at && IsStop(len, from) && from + 8 > len && from + 4 <= len
    ensures from + 4 <= at && IsStop(len, from + 4)
  {
    Floors(len);
    RemainderIsUnique(len, 8, from / 8, len - from);
  }

  lemma OneAhead(len: nat, at: nat, n: nat, from: nat)
    requires IsUnit(len, at, n) && from < at && IsStop(len, from) && from + 4 > len
    ensures n == 1 && IsStop(len, from + 1)
  {
    Floors(len);
    if from % 8 == 0 {
      RemainderIsUnique(len, 8, from / 8, len - from);
    }
  }

  lemma {:induction false} TailTells(h: u64, t: seq<byte>, u: seq<byte>, from: nat, at: nat, n: nat)
    requires IsUnit(|t|, at, n) && AlikeBut(t, u, at, n) && t != u
    requires from <= at && IsStop(|t|, from)
    ensures MixTail(h, t, from) != MixTail(h, u, from)
    decreases at - from
  {
    hide Mix8, Mix4, Mix1, ReadLE32, ReadLE64, IsUnit, IsStop;
    if from == at {
      UnitTells(h, t, u, at, n);
    } else {
      if from + 8 <= |t| {
        EightAhead(|t|, at, n, from);
        NotThere(t, u, at, n, from, 8);
        SameWord64(t, u, from);
        TailTells(Mix8(h, ReadLE64(t, from)), t, u, from + 8, at, n);
      } else if from + 4 <= |t| {
        FourAhead(|t|, at, n, from);
        NotThere(t, u, at, n, from, 4);
        SameWord32(t, u, from);
        TailTells(Mix4(h, ReadLE32(t, from)), t, u, from + 4, at, n);
      } else {
        OneAhead(|t|, at, n, from);
        assert t[from] == t[..at][from] == u[from];
        TailTells(Mix1(h, t[from]), t, u, from + 1, at, n);
      }
    }
  }

  // ----- The whole hash -----

  /** What is done once the blocks have gone in. */
  function Finished(h: u64, len: nat, tail: seq<byte>): u64 {
    Xxh64.Avalanche(MixTail(AddLength(h, len), tail, 0))
  }

  ghost function Blocks(seed: u64, len: nat, front: seq<byte>): u64 {
    if len >= 32 then Converge(Striping.Fold(32, RoundBlock, InitLanes(seed), front)) else ShortStart(seed)
  }

  lemma HashInParts(seed: u64, data: seq<byte>, cut: nat)
    requires cut == |data| - |data| % 32
    ensures Hash(seed, data) == Finished(Blocks(seed, |data|, data[..cut]), |data|, data[cut..])
  {
    hide Xxh64.Avalanche, MixTail, AddLength, Converge, RoundBlock, InitLanes, ShortStart, Striping.Fold;
  }

  lemma FinishedTells(h: u64, len: nat, t: seq<byte>, u: seq<byte>, at: nat, n: nat)
    requires IsUnit(|t|, at, n) && AlikeBut(t, u, at, n) && t != u
    ensures Finished(h, len, t) != Finished(h, len, u)
  {
    hide Xxh64.Avalanche, MixTail, AddLength;
    TailTells(AddLength(h, len), t, u, 0, at, n);
    if Finished(h, len, t) == Finished(h, len, u) {
      AvalancheKeeps(MixTail(AddLength(h, len), t, 0), MixTail(AddLength(h, len), u, 0));
    }
  }

  /** Inputs of one length whose whole blocks are the same and whose tails differ in one step never collide. */
  lemma ChangeInTailIsNoticed(seed: u64, a: seq<byte>, b: seq<byte>, at: nat, n: nat)
    requires AlikeBut(a, b, at, n) && a != b && at >= |a| - |a| % 32
    requires IsUnit(|a| % 32, at - (|a| - |a| % 32), n)
    ensures Hash(seed, a) != Hash(seed, b)
  {
    hide Hash, Finished, Blocks, IsUnit, AlikeBut;
    var cut := |a| - |a| % 32;
    SameSize(a, b, at, n);
    HashInParts(seed, a, cut);
    HashInParts(seed, b, cut);
    AlikeBack(a, b, at, n, cut);
    FinishedTells(Blocks(seed, |a|, a[..cut]), |a|, a[cut..], b[cut..], at - cut, n);
  }

  lemma WhichUnit(len: nat, k: nat)
    requires k < len
    ensures k < len - len % 8 ==> IsUnit(len, k - k % 8, 8)
    ensures len - len % 8 <= k < len - len % 4 ==> IsUnit(len, len - len % 8, 4) && k < len - len % 8 + 4
    ensures len - len % 4 <= k ==> IsUnit(len, k, 1)
  {
    Floors(len);
    Floors(k);
    if k < len - len % 8 {
      RemainderIsUnique(k - k % 8, 8, k / 8, 0);
      NextMultiple(k - k % 8, 8 * (len / 8), k / 8, len / 8);
    }
  }

  /** Changing any single byte after the whole blocks, so any byte of an input below 32 bytes, changes the hash. */
  lemma EveryTailByteCounts(seed: u64, s: seq<byte>, i: nat, c: byte)
    requires |s| - |s| % 32 <= i < |s| && s[i] != c
    ensures Hash(seed, s[i := c]) != Hash(seed, s)
  {
    hide Hash;
    var t := s[i := c];
    assert t[i] != s[i];
    var cut, len := |s| - |s| % 32, |s| % 32;
    var k := i - cut;
    WhichUnit(len, k);
    hide IsUnit;
    if k < len - len % 8 {
      ChangeInTailIsNoticed(seed, s, t, i - k % 8, 8);
    } else if k < len - len % 4 {
      ChangeInTailIsNoticed(seed, s, t, cut + (len - len % 8), 4);
    } else {
      ChangeInTailIsNoticed(seed, s, t, i, 1);
    }
  }
}
