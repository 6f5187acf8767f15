/**
 * The portable 64x64 to 128 bit multiplication.
 *
 * Words are numbers below 2^64 here; every machine sum is reduced, so that "no sum overflows" is
 * something to prove. `x & 0xFFFFFFFF` is `x % 2^32`, `x >> 32` is `x / 2^32`, `x << 32` multiplies and
 * reduces, and `|` joins a multiple of 2^32 with a number below 2^32, which is their sum.
 */
module Multiply {
  import opened Words

  type word = n: nat | n < 0x1_0000_0000_0000_0000

  datatype Product = Product(low64: word, high64: word)

  function Add64(x: word, y: word): word {
    (x + y) % 0x1_0000_0000_0000_0000
  }

  function Lo(x: word): word {
    x % 0x1_0000_0000
  }

  function Hi(x: word): word {
    x / 0x1_0000_0000
  }

  lemma Split(x: word)
    ensures x == Hi(x) * 0x1_0000_0000 + Lo(x)
    ensures Hi(x) < 0x1_0000_0000 && Lo(x) < 0x1_0000_0000
  {
  }

  lemma AddFits(x: word, y: word)
    requires x + y < 0x1_0000_0000_0000_0000
    ensures Add64(x, y) == x + y
  {
  }

  function Shl32(x: word): (r: word)
    ensures r == Lo(x) * 0x1_0000_0000
  {
    Split(x);
    assert x * 0x1_0000_0000 == Hi(x) * 0x1_0000_0000_0000_0000 + Lo(x) * 0x1_0000_0000;
    x * 0x1_0000_0000 % 0x1_0000_0000_0000_0000
  }

  lemma ProductBound(x: nat, y: nat, a: nat, b: nat)
    requires x <= a && y <= b
    ensures 0 <= x * y <= a * b
  {
  }

  /** The largest product of two halves leaves room for two more halves. */
  lemma HalfProduct(x: nat, y: nat)
    requires x < 0x1_0000_0000 && y < 0x1_0000_0000
    ensures 0 <= x * y <= 0xFFFF_FFFE_0000_0001
  {
    ProductBound(x, y, 0xFFFF_FFFF, 0xFFFF_FFFF);
  }

  function Mult32To64(x: word, y: word): (r: word)
    ensures r <= 0xFFFF_FFFE_0000_0001
    ensures x < 0x1_0000_0000 && y < 0x1_0000_0000 ==> r == x * y
  {
    HalfProduct(Lo(x), Lo(y));
    Lo(x) * Lo(y)
  }

  /** Adding up the four partial products by columns. */
  function AddColumns(loLo: word, hiLo: word, loHi: word, hiHi: word): Product {
    var cross := Add64(Add64(Hi(loLo), Lo(hiLo)), loHi);
    var upper := Add64(Add64(Hi(hiLo), Hi(cross)), hiHi);
    var lower := Shl32(cross) + Lo(loLo);
    Product(lower, upper)
  }

  function Mult64To128(lhs: word, rhs: word): Product {
    AddColumns(Mult32To64(Lo(lhs), Lo(rhs)), Mult32To64(Hi(lhs), Lo(rhs)),
               Mult32To64(Lo(lhs), Hi(rhs)), Mult32To64(Hi(lhs), Hi(rhs)))
  }

  /** Carries between columns move value, they do not lose it. */
  lemma CarryOver(l1: nat, l0: nat, h1: nat, h0: nat, mid: nat, top: nat, c1: nat, c0: nat)
    requires l1 + h0 + mid == c1 * 0x1_0000_0000 + c0
    ensures (h1 + c1 + top) * 0x1_0000_0000_0000_0000 + c0 * 0x1_0000_0000 + l0
         == top * 0x1_0000_0000_0000_0000 + (h1 * 0x1_0000_0000 + h0 + mid) * 0x1_0000_0000 + (l1 * 0x1_0000_0000 + l0)
  {
  }

  /** No sum of the columns is reduced, and nothing is lost. */
  lemma ColumnsFit(loLo: word, hiLo: word, loHi: word, hiHi: word)
    requires loLo <= 0xFFFF_FFFE_0000_0001 && hiLo <= 0xFFFF_FFFE_0000_0001
    requires loHi <= 0xFFFF_FFFE_0000_0001 && hiHi <= 0xFFFF_FFFE_0000_0001
    ensures var cross := Hi(loLo) + Lo(hiLo) + loHi;
            && cross < 0x1_0000_0000_0000_0000
            && Hi(hiLo) + Hi(cross) + hiHi < 0x1_0000_0000_0000_0000
    ensures var p := AddColumns(loLo, hiLo, loHi, hiHi);
            p.high64 * 0x1_0000_0000_0000_0000 + p.low64
            == hiHi * 0x1_0000_0000_0000_0000 + (hiLo + loHi) * 0x1_0000_0000 + loLo
  {
    hide Hi, Lo, Shl32, Add64;
    Split(loLo);
    Split(hiLo);
    var cross: word := Hi(loLo) + Lo(hiLo) + loHi;
    Split(cross);
    AddFits(Hi(loLo), Lo(hiLo));
    AddFits(Hi(loLo) + Lo(hiLo), loHi);
    AddFits(Hi(hiLo), Hi(cross));
    AddFits(Hi(hiLo) + Hi(cross), hiHi);
    CarryOver(Hi(loLo), Lo(loLo), Hi(hiLo), Lo(hiLo), loHi, hiHi, Hi(cross), Lo(cross));
  }

  lemma SchoolBook(a: nat, b: nat, c: nat, d: nat)
    ensures (a * 0x1_0000_0000 + b) * (c * 0x1_0000_0000 + d)
         == (a * c) * 0x1_0000_0000_0000_0000 + (a * d + b * c) * 0x1_0000_0000 + b * d
  {
  }

  /** The two words are the exact 128-bit product. */
  lemma ExactProduct(lhs: word, rhs: word)
    ensures var p := Mult64To128(lhs, rhs);
            p.high64 * 0x1_0000_0000_0000_0000 + p.low64 == lhs * rhs
  {
    hide Hi, Lo, AddColumns, Mult32To64;
    Split(lhs);
    Split(rhs);
    var a, b, c, d := Hi(lhs), Lo(lhs), Hi(rhs), Lo(rhs);
    SchoolBook(a, b, c, d);
    ColumnsFit(Mult32To64(b, d), Mult32To64(a, d), Mult32To64(b, c), Mult32To64(a, c));
  }

  /** One-word multiplication, and the same through the two halves of `x` and a 32-bit `p`. */
  function Times(x: word, p: word): word {
    x * p % 0x1_0000_0000_0000_0000
  }

  function SplitTimes(x: word, p: word): word {
    Add64(Mult32To64(Lo(x), p), Shl32(Mult32To64(Hi(x), p)))
  }

  lemma AddReduced(n: nat, lo: word, rest: word, q: nat)
    requires n == lo + rest + q * 0x1_0000_0000_0000_0000
    ensures Add64(lo, rest) == n % 0x1_0000_0000_0000_0000
  {
  }

  lemma TimesByHalves(x: word, p: word)
    requires p < 0x1_0000_0000
    ensures SplitTimes(x, p) == Times(x, p)
  {
    hide Hi, Lo, Shl32, Add64, Mult32To64;
    Split(x);
    var lo: nat, hi: nat := Mult32To64(Lo(x), p), Mult32To64(Hi(x), p);
    Split(hi);
    assert x * p == lo + hi * 0x1_0000_0000 by {
      assert x * p == Hi(x) * p * 0x1_0000_0000 + Lo(x) * p;
    }
    AddReduced(x * p, lo, Shl32(hi), Hi(hi));
  }

  function ToWord(x: u64): word {
    x as nat
  }

  function FromWord(x: word): u64 {
    x as u64
  }
}
