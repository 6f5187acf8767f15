/** MUT_ASCIINUM: find a decimal number in the text, read it, and change its value. */
module HavocNumber {
  import opened Words

  const MAX64: int := 0x7FFF_FFFF_FFFF_FFFF
  const MIN64: int := -0x8000_0000_0000_0000

  predicate Fits64(v: int) {
    -0x8000_0000_0000_0000 <= v <= 0x7FFF_FFFF_FFFF_FFFF
  }

  predicate IsDigit(b: byte) {
    48 <= b <= 57
  }

  function Digit(b: byte): (d: nat)
    requires IsDigit(b)
    ensures d <= 9
  {
    if b == 48 then 0 else if b == 49 then 1 else if b == 50 then 2 else if b == 51 then 3 else if b == 52 then 4
    else if b == 53 then 5 else if b == 54 then 6 else if b == 55 then 7 else if b == 56 then 8 else 9
  }

  function DigitChar(d: nat): (b: byte)
    requires d <= 9
    ensures IsDigit(b) && Digit(b) == d
  {
    if d == 0 then 48 else if d == 1 then 49 else if d == 2 then 50 else if d == 3 then 51 else if d == 4 then 52
    else if d == 5 then 53 else if d == 6 then 54 else if d == 7 then 55 else if d == 8 then 56 else 57
  }

  ghost predicate AllDigits(s: seq<byte>) {
    forall k :: 0 <= k < |s| ==> IsDigit(s[k])
  }

  /** The value of a run of digits. */
  ghost function Decimal(s: seq<byte>): nat
    requires AllDigits(s)
  {
    if s == [] then 0 else 10 * Decimal(s[..|s| - 1]) + Digit(s[|s| - 1])
  }

  // ----- Finding a digit -----

  /** The first digit from `off` on, or else the first digit of all. */
  ghost predicate IsNextDigit(s: seq<byte>, off: nat, at: nat) {
    && at < |s| && IsDigit(s[at])
    && (at >= off ==> forall k :: off <= k < at ==> !IsDigit(s[k]))
    && (at < off ==> (forall k :: off <= k < |s| ==> !IsDigit(s[k])) && forall k :: 0 <= k < at ==> !IsDigit(s[k]))
  }

  /** A digit is found exactly when there is one. */
  method FindDigit(s: seq<byte>, start: nat) returns (found: bool, at: nat)
    requires start < |s|
    ensures found <==> exists k :: 0 <= k < |s| && IsDigit(s[k])
    ensures found ==> IsNextDigit(s, start, at) && IsDigit(s[at])
  {
    var off2: nat, cnt: nat := start, 0;
    while off2 + cnt < |s| && !IsDigit(s[off2 + cnt])
      invariant off2 + cnt <= |s|
      invariant forall k :: start <= k < start + cnt ==> !IsDigit(s[k])
    {
      cnt := cnt + 1;
    }
    if off2 + cnt == |s| {
      off2, cnt := 0, 0;
      while cnt < start && !IsDigit(s[off2 + cnt])
        invariant cnt <= start
        invariant forall k :: 0 <= k < cnt ==> !IsDigit(s[k])
      {
        cnt := cnt + 1;
      }
      if cnt == start {
        return false, 0;
      }
    }
    return true, off2 + cnt;
  }

  // ----- Reading the number -----

  /** `end` closes the longest run of digits from `off` whose value fits. */
  ghost predicate IsLongestRun(s: seq<byte>, off: nat, end: nat) {
    && off < end <= |s| && AllDigits(s[off..end]) && Decimal(s[off..end]) <= 0x7FFF_FFFF_FFFF_FFFF
    && (end == |s| || !IsDigit(s[end]) || (AllDigits(s[off..end + 1]) && Decimal(s[off..end + 1]) > 0x7FFF_FFFF_FFFF_FFFF))
  }

  lemma OneMoreDigit(s: seq<byte>, off: nat, i: nat)
    requires off <= i < |s| && AllDigits(s[off..i]) && IsDigit(s[i])
    ensures AllDigits(s[off..i + 1]) && Decimal(s[off..i + 1]) == 10 * Decimal(s[off..i]) + Digit(s[i])
  {
    var run := s[off..i + 1];
    assert run[..|run| - 1] == s[off..i] && run[|run| - 1] == s[i];
    assert forall k :: 0 <= k < |run| ==> run[k] == if k < |run| - 1 then s[off..i][k] else s[i];
  }

  lemma EmptyIsZero(s: seq<byte>)
    requires s == []
    ensures AllDigits(s) && Decimal(s) == 0
  {
  }

  /** The longest prefix that fits; no step of the accumulation leaves the 64-bit range. */
  method ReadNumber(s: seq<byte>, off: nat) returns (val: nat, end: nat)
    requires off < |s| && IsDigit(s[off])
    ensures IsLongestRun(s, off, end) && val == Decimal(s[off..end])
  {
    hide Digit, Decimal;
    end := off + 1;
    while end < |s| && IsDigit(s[end])
      invariant off < end <= |s| && forall k :: off <= k < end ==> IsDigit(s[k])
    {
      end := end + 1;
    }
    assert s[off..off] == [];
    EmptyIsZero(s[off..off]);
    OneMoreDigit(s, off, off);
    val := Digit(s[off]);
    var i := off + 1;
    while i < end
      invariant off < i <= end && AllDigits(s[off..i])
      invariant val == Decimal(s[off..i]) <= 0x7FFF_FFFF_FFFF_FFFF
    {
      var digit := Digit(s[i]);
      OneMoreDigit(s, off, i);
      if val > 0x7FFF_FFFF_FFFF_FFFF / 10 || val * 10 > 0x7FFF_FFFF_FFFF_FFFF - digit {
        end := i;
        break;
      }
      val := val * 10 + digit;
      i := i + 1;
    }
  }

  /** A run of at most one digit has a value below ten. */
  lemma LargeNeedsDigits(s: seq<byte>)
    requires AllDigits(s) && Decimal(s) >= 10
    ensures |s| >= 2
  {
  }

  // ----- Changing it -----

  /** C's division of a signed value. */
  function Quotient(v: int, d: nat): int
    requires d > 0
  {
    if v >= 0 then v / d else -((-v) / d)
  }

  /** The results a strategy may have on `val`; `shrinks` when the last digit is given up first. */
  ghost predicate Strategy(strat: nat, val: int, result: int, shrinks: bool) {
    var v := if shrinks then Quotient(val, 10) else val;
    match strat
    case 0 => shrinks == (val == MAX64) && result == v + 1
    case 1 => shrinks == (val == MIN64) && result == v - 1
    case 2 => shrinks == (val > MAX64 / 2 || val < MIN64 / 2) && result == 2 * v
    case 3 => !shrinks && result == Quotient(val, 2)
    case 4 => !shrinks && (if 0 < val < 0x19999999 then 0 <= result < 10 * val else 0 <= result < 256)
    case 5 => shrinks == (val > MAX64 - 256) && v <= result < v + 256
    case 6 => shrinks == (val < MIN64 + 256) && v - 256 < result <= v
    case _ => !shrinks && result == -val - 1
  }

  /** No strategy leaves the 64-bit range, and only values of several digits give one up. */
  lemma StrategyFits(strat: nat, val: int, result: int, shrinks: bool)
    requires Fits64(val) && Strategy(strat, val, result, shrinks)
    ensures Fits64(result) && Fits64(if shrinks then Quotient(val, 10) else val)
    ensures shrinks ==> val >= 10 || -val >= 10
    ensures strat == 1 && val > MIN64 ==> !shrinks
  {
  }

  method RandBelow(limit: nat) returns (r: nat)
    ensures if limit <= 1 then r == 0 else r < limit
  {
    if limit <= 1 {
      return 0;
    }
    r :| r < limit;
  }

  /** The eight strategies. */
  method Change(val0: int, strat: nat) returns (val: int, shrinks: bool)
    requires strat < 8 && Fits64(val0)
    ensures Strategy(strat, val0, val, shrinks)
  {
    val, shrinks := val0, false;
    match strat
    case 0 =>
      if val == MAX64 {
        val, shrinks := Quotient(val, 10), true;
      }
      val := val + 1;
    case 1 =>
      if val == MIN64 {
        val, shrinks := Quotient(val, 10), true;
      }
      val := val - 1;
    case 2 =>
      if val > MAX64 / 2 || val < MIN64 / 2 {
        val, shrinks := Quotient(val, 10), true;
      }
      val := val * 2;
    case 3 =>
      val := Quotient(val, 2);
    case 4 =>
      if 0 < val < 0x19999999 {
        val := RandBelow(val * 10);
      } else {
        val := RandBelow(256);
      }
    case 5 =>
      if val > MAX64 - 256 {
        val, shrinks := Quotient(val, 10), true;
      }
      var more := RandBelow(256);
      val := val + more;
    case 6 =>
      if val < MIN64 + 256 {
        val, shrinks := Quotient(val, 10), true;
      }
      var less := RandBelow(256);
      val := val - less;
    case _ =>
      val := -val - 1;
  }

  // ----- Printing it -----

  function Digits(n: nat): (s: seq<byte>)
    ensures |s| >= 1
  {
    if n < 10 then [DigitChar(n)] else Digits(n / 10) + [DigitChar(n % 10)]
  }

  function Printed(v: int): (s: seq<byte>)
    ensures |s| >= 1
  {
    if v < 0 then [45] + Digits(-v) else Digits(v)
  }

  /** snprintf is told the buffer has as many bytes as a pointer: seven characters at most. */
  function NumberText(v: int): (s: seq<byte>)
    ensures 1 <= |s| <= 7
  {
    if |Printed(v)| <= 7 then Printed(v) else Printed(v)[..7]
  }

  /** Digits print and read back. */
  lemma {:induction false} DigitsReadBack(n: nat)
    ensures AllDigits(Digits(n)) && Decimal(Digits(n)) == n
  {
    if n < 10 {
      var s := Digits(n);
      EmptyIsZero(s[..0]);
    } else {
      DigitsReadBack(n / 10);
      var s := Digits(n);
      assert s[..|s| - 1] == Digits(n / 10);
    }
  }
}
