/** The mixer of XXH3 for four to eight bytes loses nothing, and what follows for those inputs. */
module RrmxmxBijection {
  import opened Words
  import opened Xxh3Stripes
  import opened Xxh3Short

  /** `Spread` done twice and four times: the rotations double. */
  function SpreadTwice(h: u64): u64 {
    h ^ ((h << 34) | (h >> 30)) ^ ((h << 48) | (h >> 16))
  }

  function SpreadFourTimes(h: u64): u64 {
    h ^ ((h << 4) | (h >> 60)) ^ ((h << 32) | (h >> 32))
  }

  function BackEight(h: u64): u64 {
    (h << 56) | (h >> 8)
  }

  /** Eight times is a rotation by eight, so seven times more and eight places back is the inverse. */
  function Gather(h: u64): u64 {
    BackEight(SpreadFourTimes(SpreadTwice(Spread(h))))
  }

  lemma RotatedParts(h: u64)
    ensures Rotl64(h, 49) == (h << 49) | (h >> 15)
    ensures Rotl64(h, 24) == (h << 24) | (h >> 40)
  {
  }

  /** `Spread` with its rotations written out. */
  function SpreadOnce(h: u64): u64 {
    h ^ ((h << 49) | (h >> 15)) ^ ((h << 24) | (h >> 40))
  }

  lemma SpreadIs(h: u64)
    ensures Spread(h) == SpreadOnce(h)
  {
    RotatedParts(h);
    assert Xor3(h, (h << 49) | (h >> 15), (h << 24) | (h >> 40)) == SpreadOnce(h);
    hide Rotl64, Xor3, SpreadOnce;
  }

  lemma DoubledWords(h: u64)
    ensures var g := h ^ ((h << 49) | (h >> 15)) ^ ((h << 24) | (h >> 40));
            g ^ ((g << 49) | (g >> 15)) ^ ((g << 24) | (g >> 40)) == SpreadTwice(h)
  {
  }

  lemma Doubled(h: u64)
    ensures SpreadOnce(h ^ ((h << 49) | (h >> 15)) ^ ((h << 24) | (h >> 40))) == SpreadTwice(h)
  {
    DoubledWords(h);
    hide SpreadTwice;
  }

  lemma SpreadsTwice(h: u64)
    ensures Spread(Spread(h)) == SpreadTwice(h)
  {
    assert SpreadOnce(h) == h ^ ((h << 49) | (h >> 15)) ^ ((h << 24) | (h >> 40));
    hide Spread, SpreadOnce, SpreadTwice;
    SpreadIs(h);
    SpreadIs(SpreadOnce(h));
    Doubled(h);
  }

  lemma TwiceDoubled(h: u64)
    ensures SpreadTwice(h ^ ((h << 34) | (h >> 30)) ^ ((h << 48) | (h >> 16))) == SpreadFourTimes(h)
  {
  }

  lemma SpreadsFourTimes(h: u64)
    ensures SpreadTwice(SpreadTwice(h)) == SpreadFourTimes(h)
  {
    assert SpreadTwice(h) == h ^ ((h << 34) | (h >> 30)) ^ ((h << 48) | (h >> 16));
    hide SpreadTwice, SpreadFourTimes;
    TwiceDoubled(h);
  }

  lemma FourTimesDoubled(h: u64)
    ensures SpreadFourTimes(h ^ ((h << 4) | (h >> 60)) ^ ((h << 32) | (h >> 32))) == (h << 8) | (h >> 56)
  {
  }

  lemma RotatedBack(h: u64)
    ensures BackEight((h << 8) | (h >> 56)) == h
  {
  }

  lemma GatherUndoesSpread(h: u64)
    ensures Gather(Spread(h)) == h
  {
    hide Spread, SpreadTwice, BackEight;
    assert SpreadFourTimes(h) == h ^ ((h << 4) | (h >> 60)) ^ ((h << 32) | (h >> 32));
    hide SpreadFourTimes;
    SpreadsTwice(h);
    SpreadsFourTimes(h);
    FourTimesDoubled(h);
    RotatedBack(h);
  }

  /** The multiplier inverts PRIME_MX2 modulo 2^64. */
  function OverMx2(h: u64): u64 {
    h * 0x02AB9C720D1024AD
  }

  lemma OverUndoesTimes(h: u64)
    ensures OverMx2(h * 0x9FB21C651E98DF25) == h
  {
  }

  /** The 29 bits that are added are not changed by adding them. */
  lemma TopIsKept(h: u64, len: u64)
    requires len <= 8
    ensures (h ^ ((h >> 35) + len)) >> 35 == h >> 35
  {
  }

  lemma TopStays(h: u64, len: u64)
    requires len <= 8
    ensures Top(Flipped(h, Top(h, len)), len) == Top(h, len)
  {
    TopIsKept(h, len);
  }

  lemma FlippedBack(h: u64, w: u64)
    ensures Flipped(h ^ w, w) == h
  {
  }

  lemma FlippedTwice(h: u64, w: u64)
    ensures Flipped(Flipped(h, w), w) == h
  {
    FlippedBack(h, w);
  }

  lemma AddTopTwice(h: u64, len: u64)
    requires len <= 8
    ensures AddTop(AddTop(h, len), len) == h
  {
    hide Top, Flipped;
    TopStays(h, len);
    FlippedTwice(h, Top(h, len));
  }

  function Unfold28(h: u64): u64 {
    h ^ (h >> 28) ^ (h >> 56)
  }

  lemma UnfoldUndoesShift(h: u64)
    ensures Unfold28(h ^ (h >> 28)) == h
  {
  }

  /** XXH3_rrmxmx, backwards. */
  function Undo(y: u64, len: u64): u64 {
    Gather(OverMx2(AddTop(OverMx2(Unfold28(y)), len)))
  }

  lemma TimesUndone(h: u64)
    ensures OverMx2(TimesMx2(h)) == h
  {
    OverUndoesTimes(h);
  }

  lemma ShiftUndone(h: u64)
    ensures Unfold28(XorShift(h, 28)) == h
  {
    assert XorShift(h, 28) == h ^ (h >> 28);
    hide XorShift, Unfold28;
    UnfoldUndoesShift(h);
  }

  lemma RrmxmxIsInjective(h: u64, len: u64)
    requires len <= 8
    ensures Undo(Rrmxmx(h, len), len) == h
  {
    hide Spread, Gather, AddTop, OverMx2, TimesMx2, Unfold28, XorShift;
    GatherUndoesSpread(h);
    var a := Spread(h);
    TimesUndone(a);
    var b := TimesMx2(a);
    AddTopTwice(b, len);
    var c := AddTop(b, len);
    TimesUndone(c);
    ShiftUndone(TimesMx2(c));
  }

  lemma CombinedApart(a1: u32, a2: u32, b1: u32, b2: u32, key: u64)
    requires Flipped(Combined4To8(a1, a2), key) == Flipped(Combined4To8(b1, b2), key)
    ensures a1 == b1 && a2 == b2
  {
  }

  lemma SameMixed(a1: u32, a2: u32, b1: u32, b2: u32, key: u64, len: u64)
    requires len <= 8
    requires Rrmxmx(Flipped(Combined4To8(a1, a2), key), len) == Rrmxmx(Flipped(Combined4To8(b1, b2), key), len)
    ensures a1 == b1 && a2 == b2
  {
    hide Rrmxmx, Undo, Combined4To8, Flipped;
    RrmxmxIsInjective(Flipped(Combined4To8(a1, a2), key), len);
    RrmxmxIsInjective(Flipped(Combined4To8(b1, b2), key), len);
    CombinedApart(a1, a2, b1, b2, key);
  }

  lemma SmallLength(n: nat)
    requires n <= 8
    ensures n as u64 <= 8
  {
  }

  lemma FrontAndEnd(a: seq<byte>, b: seq<byte>)
    requires 4 <= |a| <= 8 && |a| == |b| && a[0..4] == b[0..4] && a[|a| - 4..|a| - 4 + 4] == b[|a| - 4..|a| - 4 + 4]
    ensures a == b
  {
    assert a == a[0..4] + a[|a| - 4..|a| - 4 + 4][8 - |a|..];
    assert b == b[0..4] + b[|b| - 4..|b| - 4 + 4][8 - |b|..];
  }

  /** Under one secret and one seed, different inputs of one length between four and eight bytes never collide. */
  lemma NoCollision4To8(a: seq<byte>, b: seq<byte>, secret: Secret, seed: u64)
    requires 4 <= |a| <= 8 && |a| == |b|
    requires Len4To8(a, secret, seed) == Len4To8(b, secret, seed)
    ensures a == b
  {
    hide Rrmxmx, Combined4To8, Flipped, Bitflip4To8, ReadLE32;
    SmallLength(|a|);
    SameMixed(ReadLE32(a, 0), ReadLE32(a, |a| - 4), ReadLE32(b, 0), ReadLE32(b, |b| - 4), Bitflip4To8(secret, seed), |a| as u64);
    SameWord32(a, b, 0);
    SameWord32(a, b, |a| - 4);
    FrontAndEnd(a, b);
  }
}
