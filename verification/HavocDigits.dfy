/** The numbers afl_mutate prints, read back: with their sign, cut to seven characters, or by their last digits. */
module HavocDigits {
  import opened Words
  import opened HavocNumber
  import opened HavocEffects

  function Power10(k: nat): (p: nat)
    ensures p >= 1
  {
    if k == 0 then 1 else 10 * Power10(k - 1)
  }

  /** A number without its last `k` digits, and the number those digits make. */
  function Front(n: nat, k: nat): nat {
    QuotientIsNat(n, Power10(k));
    n / Power10(k)
  }

  function Back(n: nat, k: nat): nat {
    n % Power10(k)
  }

  function Shortened(v: int, k: nat): int {
    if v < 0 then -(Front(-v, k) as int) else Front(v, k)
  }

  /** A text of digits, with a minus sign before it or not, stands for `v`. */
  ghost predicate IsNumeral(s: seq<byte>, v: int) {
    if s != [] && s[0] == 45
    then |s| > 1 && AllDigits(s[1..]) && -v == Decimal(s[1..])
    else s != [] && AllDigits(s) && v == Decimal(s)
  }

  /** Digits are the characters '0' to '9'. */
  lemma DigitsAreInOrder(b: byte)
    requires IsDigit(b)
    ensures Digit(b) == b as int - 48
  {
  }

  lemma NoSignInDigits(s: seq<byte>)
    requires s != [] && AllDigits(s)
    ensures s[0] != 45
  {
    assert IsDigit(s[0]);
  }

  /** A printed number reads back, sign included. */
  lemma PrintedReadsBack(v: int)
    ensures IsNumeral(Printed(v), v)
  {
    hide Decimal, Digits, IsDigit;
    if v < 0 {
      DigitsReadBack(-v);
      assert Printed(v)[1..] == Digits(-v);
    } else {
      DigitsReadBack(v);
      NoSignInDigits(Digits(v));
    }
  }

  /** Dividing rounds towards zero. */
  lemma QuotientRoundsToZero(v: int, d: nat)
    requires d > 0
    ensures v >= 0 ==> 0 <= v - d * Quotient(v, d) < d
    ensures v <= 0 ==> 0 <= d * Quotient(v, d) - v < d
  {
    assert v >= 0 ==> v == d * (v / d) + v % d;
    assert v < 0 ==> -v == d * ((-v) / d) + (-v) % d;
  }

  lemma Shifted(n: nat, p: nat)
    requires p > 0
    ensures n / 10 / p == n / (10 * p)
    ensures 10 * (n / 10 % p) + n % 10 == n % (10 * p)
  {
    var q, r := n / 10 / p, n / 10 % p;
    assert n / 10 == q * p + r;
    RemainderIsUnique(n, 10 * p, q, 10 * r + n % 10);
  }

  lemma FrontAndBackStep(n: nat, k: nat)
    requires k > 0
    ensures Front(n, k) == Front(n / 10, k - 1)
    ensures Back(n, k) == 10 * Back(n / 10, k - 1) + n % 10
  {
    Shifted(n, Power10(k - 1));
  }

  /** A number has at most `k` digits exactly when it is below ten to the `k`. */
  lemma {:induction false} CountDigits(n: nat, k: nat)
    requires k >= 1
    ensures |Digits(n)| <= k <==> n < Power10(k)
  {
    if n >= 10 && k > 1 {
      CountDigits(n / 10, k - 1);
    }
  }

  /** Leaving out the last digits divides by a power of ten. */
  lemma {:induction false} CutDigits(n: nat, j: nat)
    requires j < |Digits(n)|
    ensures Digits(n)[..|Digits(n)| - j] == Digits(Front(n, j))
  {
    if j > 0 {
      CutDigits(n / 10, j - 1);
      FrontAndBackStep(n, j);
      var front := Digits(n / 10);
      assert Digits(n)[..|Digits(n)| - j] == front[..|front| - (j - 1)];
    }
  }

  lemma SevenCharacters()
    ensures Power10(6) == 1_000_000 && Power10(7) == 10_000_000
  {
    assert Power10(3) == 1000;
  }

  lemma SignedFront(n: nat, j: nat)
    ensures IsNumeral([45] + Digits(Front(n, j)), -(Front(n, j) as int))
  {
    hide Decimal, Digits, IsDigit, Front;
    DigitsReadBack(Front(n, j));
    assert ([45] + Digits(Front(n, j)))[1..] == Digits(Front(n, j));
  }

  /**
   * The text put into the input stands for the number where seven characters are enough, which is between
   * -999999 and 9999999; otherwise it stands for the number with its last digits left out.
   */
  lemma TextReadsBack(v: int)
    ensures -1_000_000 < v < 10_000_000 ==> IsNumeral(NumberText(v), v)
    ensures v <= -1_000_000 || v >= 10_000_000 ==>
              |NumberText(v)| == 7 && exists j :: j > 0 && IsNumeral(NumberText(v), Shortened(v, j))
  {
    hide Decimal, Digits, IsDigit, Power10, Front, IsNumeral;
    SevenCharacters();
    PrintedReadsBack(v);
    if v >= 0 {
      CountDigits(v, 7);
      if |Digits(v)| > 7 {
        var j := |Digits(v)| - 7;
        CutDigits(v, j);
        PrintedReadsBack(Front(v, j));
        assert NumberText(v) == Digits(Front(v, j));
        assert IsNumeral(NumberText(v), Shortened(v, j));
      }
    } else {
      CountDigits(-v, 6);
      if |Digits(-v)| > 6 {
        var j := |Digits(-v)| - 6;
        CutDigits(-v, j);
        SignedFront(-v, j);
        assert NumberText(v) == [45] + Digits(Front(-v, j));
        assert IsNumeral(NumberText(v), Shortened(v, j));
      }
    }
  }

  lemma DigitAdded(s: seq<byte>, c: byte)
    requires AllDigits(s) && IsDigit(c)
    ensures AllDigits(s + [c]) && Decimal(s + [c]) == 10 * Decimal(s) + Digit(c)
  {
    assert (s + [c])[..|s|] == s;
  }

  lemma TailOfAppended(front: seq<byte>, c: byte, n: nat)
    requires 0 < n <= |front|
    ensures (front + [c])[|front| + 1 - n..] == front[|front| - (n - 1)..] + [c]
  {
  }

  lemma LastIsTail(val: nat, n: nat)
    requires n <= |Digits(val)|
    ensures LastDigits(val, n) == Digits(val)[|Digits(val)| - n..]
  {
    hide Digits;
  }

  lemma LastAppended(val: nat)
    requires val >= 10
    ensures Digits(val) == Digits(val / 10) + [DigitChar(val % 10)]
  {
  }

  lemma OneMoreLast(val: nat, n: nat)
    requires 0 < n < |Digits(val)|
    ensures LastDigits(val, n) == LastDigits(val / 10, n - 1) + [DigitChar(val % 10)]
  {
    assert val >= 10;
    LastAppended(val);
    hide Digits, DigitChar, LastDigits;
    LastIsTail(val, n);
    LastIsTail(val / 10, n - 1);
    TailOfAppended(Digits(val / 10), DigitChar(val % 10), n);
  }

  lemma NothingBefore(n: nat, p: nat)
    requires n < p
    ensures n % p == n
  {
  }

  lemma AllTheDigits(val: nat, n: nat)
    requires n >= |Digits(val)|
    ensures LastDigits(val, n) == Digits(val) && Back(val, n) == val
  {
    hide Digits, Power10;
    CountDigits(val, n);
    NothingBefore(val, Power10(n));
  }

  /** The last `n` digits are what is left over when ten to the `n` divides. */
  lemma {:induction false} LastDigitsReadBack(val: nat, n: nat)
    ensures AllDigits(LastDigits(val, n)) && Decimal(LastDigits(val, n)) == Back(val, n)
  {
    if n >= |Digits(val)| {
      AllTheDigits(val, n);
      DigitsReadBack(val);
    } else if n == 0 {
      EmptyIsZero(LastDigits(val, 0));
    } else {
      hide Digits, LastDigits, Decimal, AllDigits, Back;
      OneMoreLast(val, n);
      LastDigitsReadBack(val / 10, n - 1);
      DigitAdded(LastDigits(val / 10, n - 1), DigitChar(val % 10));
      FrontAndBackStep(val, n);
    }
  }
}
