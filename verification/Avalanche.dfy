/** The final mixer of XXH64 loses nothing, and what follows for the shortest XXH3 inputs. */
module AvalancheBijection {
  import opened Words
  import opened Xxh3Stripes
  import opened Xxh3Short
  import opened Xxh64

  /** The multipliers invert PRIME64_2 and PRIME64_3 modulo 2^64. */
  function Unscale2(h: u64): u64 { h * 0x0BA79078168D4BAF }

  function Unscale3(h: u64): u64 { h * 0xE9E9F4C41D6DF849 }

  function Unfold29(h: u64): u64 { h ^ (h >> 29) ^ (h >> 58) }

  /** XXH64_avalanche, backwards. */
  function Undo(y: u64): u64 {
    Fold33(Unscale2(Unfold29(Unscale3(Fold32(y)))))
  }

  lemma EvenFolds(h: u64)
    ensures Fold33(h ^ (h >> 33)) == h && Fold32(h ^ (h >> 32)) == h
  {
  }

  lemma OddFold(h: u64)
    ensures Unfold29(h ^ (h >> 29)) == h && Fold29(h ^ (h >> 29) ^ (h >> 58)) == h
  {
  }

  lemma FoldsUndone(h: u64)
    ensures Fold33(Fold33(h)) == h && Fold32(Fold32(h)) == h
    ensures Unfold29(Fold29(h)) == h && Fold29(Unfold29(h)) == h
  {
    EvenFolds(h);
    OddFold(h);
  }

  lemma TimesInverses(h: u64)
    ensures Unscale2(h * 0xC2B2AE3D27D4EB4F) == h && Scale2(h * 0x0BA79078168D4BAF) == h
    ensures Unscale3(h * 0x165667B19E3779F9) == h && Scale3(h * 0xE9E9F4C41D6DF849) == h
  {
  }

  lemma ScalesUndone(h: u64)
    ensures Unscale2(Scale2(h)) == h && Scale2(Unscale2(h)) == h
    ensures Unscale3(Scale3(h)) == h && Scale3(Unscale3(h)) == h
  {
    TimesInverses(h);
  }

  /** Every word is the image of exactly one word. */
  lemma AvalancheIsBijection(h: u64)
    ensures Undo(Xxh64.Avalanche(h)) == h
    ensures Xxh64.Avalanche(Undo(h)) == h
  {
    hide Fold33, Fold29, Fold32, Unfold29, Scale2, Scale3, Unscale2, Unscale3;
    FoldsUndone(h);
    var a1 := Fold33(h);
    ScalesUndone(a1);
    var a2 := Scale2(a1);
    FoldsUndone(a2);
    var a3 := Fold29(a2);
    ScalesUndone(a3);
    FoldsUndone(Scale3(a3));
    var b1 := Fold32(h);
    ScalesUndone(b1);
    var b2 := Unscale3(b1);
    FoldsUndone(b2);
    var b3 := Unfold29(b2);
    ScalesUndone(b3);
    FoldsUndone(Unscale2(b3));
  }

  lemma CombinedIsInjective(a: seq<byte>, b: seq<byte>)
    requires 1 <= |a| <= 3 && 1 <= |b| <= 3
    requires Combined1To3(a) == Combined1To3(b)
    ensures a == b
  {
    var x, y := Combined1To3(a), Combined1To3(b);
    assert (x >> 8) & 0xFF == |a| as u32 && (y >> 8) & 0xFF == |b| as u32;
  }

  lemma KeyedIsInjective(x: u32, y: u32, key: u64)
    requires Keyed(x, key) == Keyed(y, key)
    ensures x == y
  {
  }

  /** Under one secret and one seed, different inputs of one to three bytes never collide. */
  lemma NoCollision1To3(a: seq<byte>, b: seq<byte>, secret: Secret, seed: u64)
    requires 1 <= |a| <= 3 && 1 <= |b| <= 3
    requires Len1To3(a, secret, seed) == Len1To3(b, secret, seed)
    ensures a == b
  {
    hide Xxh64.Avalanche, Undo, Combined1To3, Keyed, Bitflip1To3;
    var key := Bitflip1To3(secret, seed);
    AvalancheIsBijection(Keyed(Combined1To3(a), key));
    AvalancheIsBijection(Keyed(Combined1To3(b), key));
    KeyedIsInjective(Combined1To3(a), Combined1To3(b), key);
    CombinedIsInjective(a, b);
  }
}
