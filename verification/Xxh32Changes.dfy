/** Every step of XXH32 is a bijection in each word it takes in, so no change inside one word goes unnoticed. */
module Xxh32Changes {
  import opened Words
  import opened Striping
  import opened Alike
  import opened Xxh32

  // ----- The steps, backwards -----

  function Over1(x: u32): u32 { x * 0x0E8B2F51 }

  function Over2(x: u32): u32 { x * 0xB6C92F47 }

  function Over3(x: u32): u32 { x * 0xA89ED915 }

  function Over4(x: u32): u32 { x * 0xA0FE3BCF }

  function Over5(x: u32): u32 { x * 0xAE398151 }

  lemma Inverse1(x: u32)
    ensures Over1(x * 0x9E3779B1) == x
  {
  }

  lemma Divided1(x: u32)
    ensures Over1(Times1(x)) == x
  {
    Inverse1(x);
  }

  lemma Inverse2(x: u32)
    ensures Over2(x * 0x85EBCA77) == x
  {
  }

  lemma Divided2(x: u32)
    ensures Over2(Times2(x)) == x
  {
    Inverse2(x);
  }

  lemma Inverse3(x: u32)
    ensures Over3(x * 0xC2B2AE3D) == x
  {
  }

  lemma Divided3(x: u32)
    ensures Over3(Times3(x)) == x
  {
    Inverse3(x);
  }

  lemma Inverse4(x: u32)
    ensures Over4(x * 0x27D4EB2F) == x
  {
  }

  lemma Divided4(x: u32)
    ensures Over4(Times4(x)) == x
  {
    Inverse4(x);
  }

  lemma Inverse5(x: u32)
    ensures Over5(x * 0x165667B1) == x
  {
  }

  lemma Divided5(x: u32)
    ensures Over5(Times5(x)) == x
  {
    Inverse5(x);
  }

  function Back1(x: u32): u32 { (x >> 1) | (x << 31) }

  lemma Turned1(x: u32)
    ensures Back1(Rotl32(x, 1)) == x
  {
  }

  function Back7(x: u32): u32 { (x >> 7) | (x << 25) }

  lemma Turned7(x: u32)
    ensures Back7(Rotl32(x, 7)) == x
  {
  }

  function Back11(x: u32): u32 { (x >> 11) | (x << 21) }

  lemma Turned11(x: u32)
    ensures Back11(Rotl32(x, 11)) == x
  {
  }

  function Back12(x: u32): u32 { (x >> 12) | (x << 20) }

  lemma Turned12(x: u32)
    ensures Back12(Rotl32(x, 12)) == x
  {
  }

  function Back13(x: u32): u32 { (x >> 13) | (x << 19) }

  lemma Turned13(x: u32)
    ensures Back13(Rotl32(x, 13)) == x
  {
  }

  function Back17(x: u32): u32 { (x >> 17) | (x << 15) }

  lemma Turned17(x: u32)
    ensures Back17(Rotl32(x, 17)) == x
  {
  }

  function Back18(x: u32): u32 { (x >> 18) | (x << 14) }

  lemma Turned18(x: u32)
    ensures Back18(Rotl32(x, 18)) == x
  {
  }

  function Unfold15(h: u32): u32 { h ^ (h >> 15) ^ (h >> 30) }

  function Unfold13(h: u32): u32 { h ^ (h >> 13) ^ (h >> 26) }

  lemma Shifted15(h: u32)
    ensures Unfold15(h ^ (h >> 15)) == h
  {
  }

  lemma Unfolded15(h: u32)
    ensures Unfold15(Fold15(h)) == h
  {
    assert Fold15(h) == h ^ (h >> 15);
    hide Fold15, Unfold15;
    Shifted15(h);
  }

  lemma Shifted13(h: u32)
    ensures Unfold13(h ^ (h >> 13)) == h
  {
  }

  lemma Unfolded13(h: u32)
    ensures Unfold13(Fold13(h)) == h
  {
    assert Fold13(h) == h ^ (h >> 13);
    hide Fold13, Unfold13;
    Shifted13(h);
  }

  lemma Shifted16(h: u32)
    ensures Fold16(h ^ (h >> 16)) == h
  {
  }

  lemma Unfolded16(h: u32)
    ensures Fold16(Fold16(h)) == h
  {
    assert Fold16(h) == h ^ (h >> 16);
    hide Fold16;
    Shifted16(h);
  }

  // ----- No step forgets what it had or what it takes in -----

  function Minus(x: u32, y: u32): u32 { x - y }

  lemma Taken(x: u32, a: u32)
    ensures Minus(x + a, a) == x && Minus(x + a, x) == a
  {
  }

  lemma TakenBack(x: u32, a: u32)
    ensures Minus(Plus(x, a), a) == x && Minus(Plus(x, a), x) == a
  {
    Taken(x, a);
  }

  lemma SameSum(x: u32, y: u32, a: u32, b: u32)
    requires Plus(x, a) == Plus(y, b)
    ensures x == y <==> a == b
  {
    hide Plus, Minus;
    TakenBack(x, a);
    TakenBack(y, b);
  }

  lemma RoundKeeps(v: u32, w: u32, x: u32, y: u32)
    requires Round(v, x) == Round(w, y)
    ensures v == w ==> x == y
    ensures x == y ==> v == w
  {
    hide Plus, Times1, Times2, Over1, Over2, Rotl32, Back13;
    Divided1(Rotl32(Plus(v, Times2(x)), 13));
    Divided1(Rotl32(Plus(w, Times2(y)), 13));
    Turned13(Plus(v, Times2(x)));
    Turned13(Plus(w, Times2(y)));
    SameSum(v, w, Times2(x), Times2(y));
    Divided2(x);
    Divided2(y);
  }

  lemma Mix4Keeps(h: u32, g: u32, x: u32, y: u32)
    requires Mix4(h, x) == Mix4(g, y)
    ensures h == g ==> x == y
    ensures x == y ==> h == g
  {
    hide Plus, Times3, Times4, Over3, Over4, Rotl32, Back17;
    Divided4(Rotl32(Plus(h, Times3(x)), 17));
    Divided4(Rotl32(Plus(g, Times3(y)), 17));
    Turned17(Plus(h, Times3(x)));
    Turned17(Plus(g, Times3(y)));
    SameSum(h, g, Times3(x), Times3(y));
    Divided3(x);
    Divided3(y);
  }

  lemma Widened(x: byte, y: byte)
    ensures x as u32 == y as u32 ==> x == y
  {
  }

  lemma Mix1Keeps(h: u32, g: u32, x: byte, y: byte)
    requires Mix1(h, x) == Mix1(g, y)
    ensures h == g ==> x == y
    ensures x == y ==> h == g
  {
    hide Plus, Times1, Times5, Over1, Over5, Rotl32, Back11;
    var j, k := x as u32, y as u32;
    Divided1(Rotl32(Plus(h, Times5(j)), 11));
    Divided1(Rotl32(Plus(g, Times5(k)), 11));
    Turned11(Plus(h, Times5(j)));
    Turned11(Plus(g, Times5(k)));
    SameSum(h, g, Times5(j), Times5(k));
    Divided5(j);
    Divided5(k);
    Widened(x, y);
  }

  lemma AvalancheKeeps(h: u32, g: u32)
    requires Avalanche(h) == Avalanche(g)
    ensures h == g
  {
    hide Times2, Times3, Over2, Over3, Fold13, Fold15, Fold16, Unfold13, Unfold15;
    Unfolded16(Times3(Fold13(Times2(Fold15(h)))));
    Unfolded16(Times3(Fold13(Times2(Fold15(g)))));
    Divided3(Fold13(Times2(Fold15(h))));
    Divided3(Fold13(Times2(Fold15(g))));
    Unfolded13(Times2(Fold15(h)));
    Unfolded13(Times2(Fold15(g)));
    Divided2(Fold15(h));
    Divided2(Fold15(g));
    Unfolded15(h);
    Unfolded15(g);
  }

  // ----- One lane apart -----

  function Lane(v: Lanes, j: nat): u32
    requires j < 4
  {
    if j == 0 then v.v1 else if j == 1 then v.v2 else if j == 2 then v.v3 else v.v4
  }

  predicate OneLaneApart(v: Lanes, w: Lanes, j: nat) {
    j < 4 && Lane(v, j) != Lane(w, j) && forall i :: 0 <= i < 4 && i != j ==> Lane(v, i) == Lane(w, i)
  }

  lemma ConvergeKeeps(v: Lanes, w: Lanes, j: nat)
    requires OneLaneApart(v, w, j)
    ensures Converge(v) != Converge(w)
  {
    hide Plus, Rotl32, Back1, Back7, Back12, Back18;
    assert Lane(v, 0) == v.v1 && Lane(v, 1) == v.v2 && Lane(v, 2) == v.v3 && Lane(v, 3) == v.v4;
    Turned1(v.v1);
    Turned1(w.v1);
    Turned7(v.v2);
    Turned7(w.v2);
    Turned12(v.v3);
    Turned12(w.v3);
    Turned18(v.v4);
    Turned18(w.v4);
    var a, b := Plus(Rotl32(v.v1, 1), Rotl32(v.v2, 7)), Plus(Rotl32(w.v1, 1), Rotl32(w.v2, 7));
    var c, d := Plus(a, Rotl32(v.v3, 12)), Plus(b, Rotl32(w.v3, 12));
    if a == b {
      SameSum(Rotl32(v.v1, 1), Rotl32(w.v1, 1), Rotl32(v.v2, 7), Rotl32(w.v2, 7));
    }
    if c == d {
      SameSum(a, b, Rotl32(v.v3, 12), Rotl32(w.v3, 12));
    }
    if Converge(v) == Converge(w) {
      SameSum(c, d, Rotl32(v.v4, 18), Rotl32(w.v4, 18));
    }
  }

  lemma BlockLanes(v: Lanes, b: seq<byte>, j: nat)
    requires |b| == 16 && j < 4
    ensures Lane(RoundBlock(v, b), j) == Round(Lane(v, j), ReadLE32(b, 4 * j))
  {
    hide Round, ReadLE32;
  }

  lemma BlockKeeps(v: Lanes, w: Lanes, b: seq<byte>, j: nat)
    requires |b| == 16 && OneLaneApart(v, w, j)
    ensures OneLaneApart(RoundBlock(v, b), RoundBlock(w, b), j)
  {
    hide Lane, Round, RoundBlock, ReadLE32;
    forall i | 0 <= i < 4
      ensures Lane(RoundBlock(v, b), i) == Lane(RoundBlock(w, b), i) <==> i != j
    {
      BlockLanes(v, b, i);
      BlockLanes(w, b, i);
      if i == j && Lane(RoundBlock(v, b), i) == Lane(RoundBlock(w, b), i) {
        RoundKeeps(Lane(v, j), Lane(w, j), ReadLE32(b, 4 * j), ReadLE32(b, 4 * j));
      }
    }
  }

  lemma BlockTells(v: Lanes, b: seq<byte>, c: seq<byte>, j: nat)
    requires |b| == |c| == 16 && j < 4 && AlikeBut(b, c, 4 * j, 4) && b != c
    ensures OneLaneApart(RoundBlock(v, b), RoundBlock(v, c), j)
  {
    hide Lane, Round, RoundBlock, ReadLE32;
    forall i | 0 <= i < 4
      ensures Lane(RoundBlock(v, b), i) == Lane(RoundBlock(v, c), i) <==> i != j
    {
      BlockLanes(v, b, i);
      BlockLanes(v, c, i);
      SameWord32(b, c, 4 * i);
      if i == j {
        OnlyThere(b, c, 4 * j, 4);
        if Lane(RoundBlock(v, b), i) == Lane(RoundBlock(v, c), i) {
          RoundKeeps(Lane(v, i), Lane(v, i), ReadLE32(b, 4 * i), ReadLE32(c, 4 * i));
        }
      } else {
        NotThere(b, c, 4 * j, 4, 4 * i, 4);
      }
    }
  }

  lemma {:induction false} FoldKeeps(v: Lanes, w: Lanes, data: seq<byte>, j: nat)
    requires OneLaneApart(v, w, j)
    ensures OneLaneApart(Fold(16, RoundBlock, v, data), Fold(16, RoundBlock, w, data), j)
    decreases |data|
  {
    hide OneLaneApart, RoundBlock;
    if |data| >= 16 {
      BlockKeeps(v, w, data[..16], j);
      FoldKeeps(RoundBlock(v, data[..16]), RoundBlock(w, data[..16]), data[16..], j);
    }
  }

  lemma WholeBlocks(len: nat, at: nat)
    requires at % 4 == 0 && at + 4 <= len && len % 16 == 0
    ensures len >= 16 && (len - 16) % 16 == 0
    ensures at < 16 ==> at + 4 <= 16 && at % 16 / 4 == at / 4 && 4 * (at / 4) == at
    ensures at >= 16 ==> (at - 16) % 4 == 0 && (at - 16) % 16 == at % 16
  {
  }

  /** A change inside one aligned word ends up as a change of one lane. */
  lemma {:induction false} FoldTells(v: Lanes, a: seq<byte>, b: seq<byte>, at: nat)
    requires AlikeBut(a, b, at, 4) && a != b && at % 4 == 0 && |a| % 16 == 0
    ensures OneLaneApart(Fold(16, RoundBlock, v, a), Fold(16, RoundBlock, v, b), at % 16 / 4)
    decreases |a|
  {
    hide OneLaneApart, RoundBlock, AlikeBut;
    SameSize(a, b, at, 4);
    WholeBlocks(|a|, at);
    if at < 16 {
      AlikeFront(a, b, at, 4, 16);
      BlockTells(v, a[..16], b[..16], at / 4);
      FoldKeeps(RoundBlock(v, a[..16]), RoundBlock(v, b[..16]), a[16..], at / 4);
    } else {
      AlikeBack(a, b, at, 4, 16);
      FoldTells(RoundBlock(v, a[..16]), a[16..], b[16..], at - 16);
    }
  }

  // ----- The tail -----

  lemma {:induction false} TailKeeps(h: u32, g: u32, t: seq<byte>, at: nat)
    requires at <= |t| && h != g
    ensures MixTail(h, t, at) != MixTail(g, t, at)
    decreases |t| - at
  {
    hide Mix4, Mix1, ReadLE32;
    if at + 4 <= |t| {
      var k := ReadLE32(t, at);
      if Mix4(h, k) == Mix4(g, k) {
        Mix4Keeps(h, g, k, k);
      }
      TailKeeps(Mix4(h, k), Mix4(g, k), t, at + 4);
    } else if at < |t| {
      if Mix1(h, t[at]) == Mix1(g, t[at]) {
        Mix1Keeps(h, g, t[at], t[at]);
      }
      TailKeeps(Mix1(h, t[at]), Mix1(g, t[at]), t, at + 1);
    }
  }

  /** A step of the tail: an aligned word as long as there is one, or a byte after the last of them. */
  predicate IsUnit(len: nat, at: nat, n: nat) {
    (n == 4 && at % 4 == 0 && at + 4 <= len) || (n == 1 && len - len % 4 <= at < len)
  }

  lemma {:induction false} SameTail(h: u32, t: seq<byte>, u: seq<byte>, at: nat)
    requires at <= |t| == |u| && t[at..] == u[at..]
    ensures MixTail(h, t, at) == MixTail(h, u, at)
    decreases |t| - at
  {
    hide Mix4, Mix1, ReadLE32;
    if at + 4 <= |t| {
      assert t[at..at + 4] == t[at..][..4] && u[at..at + 4] == u[at..][..4];
      assert t[at + 4..] == t[at..][4..] && u[at + 4..] == u[at..][4..];
      SameWord32(t, u, at);
      SameTail(Mix4(h, ReadLE32(t, at)), t, u, at + 4);
    } else if at < |t| {
      assert t[at] == t[at..][0] && u[at] == u[at..][0];
      assert t[at + 1..] == t[at..][1..] && u[at + 1..] == u[at..][1..];
      SameTail(Mix1(h, t[at]), t, u, at + 1);
    }
  }

  lemma UnitTells(h: u32, t: seq<byte>, u: seq<byte>, at: nat, n: nat)
    requires IsUnit(|t|, at, n) && AlikeBut(t, u, at, n) && t != u
    ensures MixTail(h, t, at) != MixTail(h, u, at)
  {
    hide Mix4, Mix1, ReadLE32;
    OnlyThere(t, u, at, n);
    if n == 4 {
      var j, k := ReadLE32(t, at), ReadLE32(u, at);
      SameWord32(t, u, at);
      if Mix4(h, j) == Mix4(h, k) {
        Mix4Keeps(h, h, j, k);
      }
      TailKeeps(Mix4(h, j), Mix4(h, k), t, at + 4);
      SameTail(Mix4(h, k), t, u, at + 4);
    } else {
      assert t[at..at + 1] == [t[at]] && u[at..at + 1] == [u[at]];
      if Mix1(h, t[at]) == Mix1(h, u[at]) {
        Mix1Keeps(h, h, t[at], u[at]);
      }
      TailKeeps(Mix1(h, t[at]), Mix1(h, u[at]), t, at + 1);
      SameTail(Mix1(h, u[at]), t, u, at + 1);
    }
  }

  lemma UnitAhead(len: nat, at: nat, n: nat, from: nat)
    requires IsUnit(len, at, n) && from < at && (from % 4 == 0 || len - len % 4 <= from)
    ensures from + 4 <= len ==> from + 4 <= at && (from + 4) % 4 == 0
    ensures from + 4 > len ==> n == 1 && len - len % 4 <= from
  {
  }

  lemma {:induction false} TailTells(h: u32, t: seq<byte>, u: seq<byte>, from: nat, at: nat, n: nat)
    requires IsUnit(|t|, at, n) && AlikeBut(t, u, at, n) && t != u
    requires from <= at && (from % 4 == 0 || |t| - |t| % 4 <= from)
    ensures MixTail(h, t, from) != MixTail(h, u, from)
    decreases at - from
  {
    hide Mix4, Mix1, ReadLE32;
    if from == at {
      UnitTells(h, t, u, at, n);
    } else {
      UnitAhead(|t|, at, n, from);
      if from + 4 <= |t| {
        NotThere(t, u, at, n, from, 4);
        SameWord32(t, u, from);
        TailTells(Mix4(h, ReadLE32(t, from)), t, u, from + 4, at, n);
      } else {
        assert t[from] == t[..at][from] == u[from];
        TailTells(Mix1(h, t[from]), t, u, from + 1, at, n);
      }
    }
  }

  // ----- The whole hash -----

  lemma AddedApart(h: u32, g: u32, n: nat)
    requires h != g && n < 0x1_0000_0000
    ensures AddWord(h, n) != AddWord(g, n)
  {
    hide Plus;
    if AddWord(h, n) == AddWord(g, n) {
      SameSum(h, g, n as u32, n as u32);
    }
  }

  lemma LengthKeeps(h: u32, g: u32, len: nat)
    requires h != g
    ensures AddLength(h, len) != AddLength(g, len)
  {
    hide Plus, AddWord;
    AddedApart(h, g, Wrap32(len));
  }

  /** What is done once the blocks have gone in. */
  function Finished(h: u32, len: nat, tail: seq<byte>): u32 {
    Avalanche(MixTail(AddLength(h, len), tail, 0))
  }

  ghost function Blocks(seed: u32, len: nat, front: seq<byte>): u32 {
    if len >= 16 then Converge(Fold(16, RoundBlock, InitLanes(seed), front)) else ShortStart(seed)
  }

  lemma HashInParts(seed: u32, data: seq<byte>, cut: nat)
    requires cut == |data| - |data| % 16
    ensures Hash(seed, data) == Finished(Blocks(seed, |data|, data[..cut]), |data|, data[cut..])
  {
    hide Avalanche, MixTail, AddLength, Converge, RoundBlock, InitLanes, ShortStart, Fold;
  }

  lemma FinishedKeeps(h: u32, g: u32, len: nat, tail: seq<byte>)
    requires h != g
    ensures Finished(h, len, tail) != Finished(g, len, tail)
  {
    hide Avalanche, MixTail, AddLength;
    LengthKeeps(h, g, len);
    TailKeeps(AddLength(h, len), AddLength(g, len), tail, 0);
    if Finished(h, len, tail) == Finished(g, len, tail) {
      AvalancheKeeps(MixTail(AddLength(h, len), tail, 0), MixTail(AddLength(g, len), tail, 0));
    }
  }

  lemma FinishedTells(h: u32, len: nat, t: seq<byte>, u: seq<byte>, at: nat, n: nat)
    requires IsUnit(|t|, at, n) && AlikeBut(t, u, at, n) && t != u
    ensures Finished(h, len, t) != Finished(h, len, u)
  {
    hide Avalanche, MixTail, AddLength;
    TailTells(AddLength(h, len), t, u, 0, at, n);
    if Finished(h, len, t) == Finished(h, len, u) {
      AvalancheKeeps(MixTail(AddLength(h, len), t, 0), MixTail(AddLength(h, len), u, 0));
    }
  }

  lemma BlocksTell(seed: u32, len: nat, a: seq<byte>, b: seq<byte>, at: nat)
    requires len >= 16 && AlikeBut(a, b, at, 4) && a != b && at % 4 == 0 && |a| % 16 == 0
    ensures Blocks(seed, len, a) != Blocks(seed, len, b)
  {
    hide Converge, RoundBlock, InitLanes, Fold, OneLaneApart;
    FoldTells(InitLanes(seed), a, b, at);
    ConvergeKeeps(Fold(16, RoundBlock, InitLanes(seed), a), Fold(16, RoundBlock, InitLanes(seed), b), at % 16 / 4);
  }

  lemma WhereUnitsAre(len: nat, at: nat, n: nat, cut: nat)
    requires IsUnit(len, at, n) && cut == len - len % 16
    ensures at < cut ==> n == 4 && at % 4 == 0 && at + 4 <= cut && len >= 16
    ensures at >= cut ==> IsUnit(len - cut, at - cut, n)
  {
  }

  /** Inputs of one length that differ inside one aligned word, or in one byte after the last of them, never collide. */
  lemma ChangeIsNoticed(seed: u32, a: seq<byte>, b: seq<byte>, at: nat, n: nat)
    requires IsUnit(|a|, at, n) && AlikeBut(a, b, at, n) && a != b
    ensures Hash(seed, a) != Hash(seed, b)
  {
    hide Hash, Finished, Blocks, IsUnit, AlikeBut;
    var cut := |a| - |a| % 16;
    SameSize(a, b, at, n);
    HashInParts(seed, a, cut);
    HashInParts(seed, b, cut);
    WhereUnitsAre(|a|, at, n, cut);
    if at < cut {
      AlikeFront(a, b, at, n, cut);
      BlocksTell(seed, |a|, a[..cut], b[..cut], at);
      FinishedKeeps(Blocks(seed, |a|, a[..cut]), Blocks(seed, |a|, b[..cut]), |a|, a[cut..]);
    } else {
      AlikeBack(a, b, at, n, cut);
      FinishedTells(Blocks(seed, |a|, a[..cut]), |a|, a[cut..], b[cut..], at - cut, n);
    }
  }

  /** Changing any single byte changes the hash. */
  lemma EveryByteCounts(seed: u32, s: seq<byte>, i: nat, c: byte)
    requires i < |s| && s[i] != c
    ensures Hash(seed, s[i := c]) != Hash(seed, s)
  {
    hide Hash;
    var t := s[i := c];
    assert t[i] != s[i];
    if i < |s| - |s| % 4 {
      ChangeIsNoticed(seed, s, t, i - i % 4, 4);
    } else {
      ChangeIsNoticed(seed, s, t, i, 1);
    }
  }
}
