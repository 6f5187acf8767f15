/** Both word sizes on the same memory. */
module CoverageSizes {
  import opened Words
  import opened CoverageMap
  import C32 = Coverage32
  import C64 = Coverage64

  /** How many words are compared: the real size rounded up. */
  function Compared(realSize: nat, size: nat): (n: nat)
    requires size > 0
  {
    (realSize + size - 1) / size
  }

  lemma RoundedTo4(realSize: nat)
    ensures realSize <= 4 * Compared(realSize, 4) < realSize + 4
  {
  }

  lemma RoundedTo8(realSize: nat)
    ensures realSize <= 8 * Compared(realSize, 8) < realSize + 8
  {
  }

  /** Rounding up to 64-bit words reaches at most four bytes further. */
  lemma RoundedUp(realSize: nat, words: nat)
    requires realSize <= 8 * words
    ensures realSize <= 4 * Compared(realSize, 4) <= 8 * Compared(realSize, 8) <= 4 * Compared(realSize, 4) + 4
    ensures Compared(realSize, 8) <= words && Compared(realSize, 4) <= 2 * words
  {
    RoundedTo4(realSize);
    RoundedTo8(realSize);
    hide Compared;
    var a, b := Compared(realSize, 4), Compared(realSize, 8);
    assert a < 2 * b + 1 && 2 * b < a + 2;
    assert b < words + 1 && a < 2 * words + 1;
  }

  /** Both results in terms of what the bytes between the two rounded sizes add. */
  lemma BothResults(trace: seq<byte>, virgin: seq<byte>, j: nat, k: nat, ret32: nat, now32: seq<byte>, ret64: nat, now64: seq<byte>)
    requires j <= k <= |trace| == |virgin|
    requires C32.Recorded(trace, virgin, j, ret32, now32) && C64.Recorded(trace, virgin, k, ret64, now64)
    ensures var more := Level(Classified(trace)[j..k], virgin[j..k]);
            ret64 == Max(ret32, more) && (now32 == now64 <==> more == 0)
  {
    hide Level, Cleared, Classified;
    LongerFront(Classified(trace), virgin, j, k);
  }

  /** Both word sizes on the same memory, comparing the first `n32` and the first `n64` words. */
  method BothSizes(trace32: array<u32>, virgin32: array<u32>, trace64: array<u64>, virgin64: array<u64>, n32: nat, n64: nat)
    returns (ret32: nat, ret64: nat, classified32: bool, classified64: bool)
    requires trace32 != virgin32 && trace64 != virgin64
    requires n32 <= trace32.Length == virgin32.Length && n64 <= trace64.Length == virgin64.Length
    requires trace32.Length % 4 == 0 && trace64.Length % 4 == 0
    requires C32.Bytes(trace32[..]) == C64.Bytes(trace64[..]) && C32.Bytes(virgin32[..]) == C64.Bytes(virgin64[..])
    modifies trace32, virgin32, trace64, virgin64
    ensures classified32 == classified64 && C32.Bytes(trace32[..]) == C64.Bytes(trace64[..])
    ensures C32.Recorded(old(C64.Bytes(trace64[..])), old(C64.Bytes(virgin64[..])), 4 * n32, ret32, C32.Bytes(virgin32[..]))
    ensures C64.Recorded(old(C64.Bytes(trace64[..])), old(C64.Bytes(virgin64[..])), 8 * n64, ret64, C64.Bytes(virgin64[..]))
  {
    hide C32.Bytes, C64.Bytes, Level, Classified, C32.Recorded, C64.Recorded;
    ret32, classified32 := C32.HasNewBitsUnclassified(trace32, virgin32, n32);
    ret64, classified64 := C64.HasNewBitsUnclassified(trace64, virgin64, n64);
  }

  /**
   * The same bytes read as 32-bit or as 64-bit words. Rounded up to 64-bit words the real size may reach
   * four bytes further; the verdicts then differ exactly when those four bytes say more than all before
   * them, and the virgin maps exactly when they say anything.
   */
  method WordSizesAgree(trace32: array<u32>, virgin32: array<u32>, trace64: array<u64>, virgin64: array<u64>, realSize: nat)
    returns (ret32: nat, ret64: nat, classified32: bool, classified64: bool, ghost more: nat)
    requires trace32 != virgin32 && trace64 != virgin64
    requires trace32.Length == virgin32.Length == 2 * trace64.Length && virgin64.Length == trace64.Length
    requires trace64.Length % 4 == 0 && realSize <= 8 * trace64.Length
    requires C32.Bytes(trace32[..]) == C64.Bytes(trace64[..]) && C32.Bytes(virgin32[..]) == C64.Bytes(virgin64[..])
    modifies trace32, virgin32, trace64, virgin64
    ensures var j, k := 4 * Compared(realSize, 4), 8 * Compared(realSize, 8);
            && realSize <= j <= k <= j + 4
            && more == Level(Classified(old(C64.Bytes(trace64[..])))[j..k], old(C64.Bytes(virgin64[..]))[j..k])
    ensures classified32 == classified64 && C32.Bytes(trace32[..]) == C64.Bytes(trace64[..])
    ensures ret64 == Max(ret32, more)
    ensures ret32 == ret64 <==> more <= ret32
    ensures C32.Bytes(virgin32[..]) == C64.Bytes(virgin64[..]) <==> more == 0
  {
    hide C32.Bytes, C64.Bytes, Level, Classified, C32.Recorded, C64.Recorded, Compared;
    RoundedUp(realSize, trace64.Length);
    ghost var t, v := C64.Bytes(trace64[..]), C64.Bytes(virgin64[..]);
    var n32, n64 := Compared(realSize, 4), Compared(realSize, 8);
    ghost var j, k := 4 * n32, 8 * n64;
    more := Level(Classified(t)[j..k], v[j..k]);
    ret32, ret64, classified32, classified64 := BothSizes(trace32, virgin32, trace64, virgin64, n32, n64);
    BothResults(t, v, j, k, ret32, C32.Bytes(virgin32[..]), ret64, C64.Bytes(virgin64[..]));
  }

  /** Recording a classified trace a second time finds nothing and changes nothing. */
  method SecondRun64(trace: array<u64>, virgin: array<u64>, n: nat) returns (first: nat, second: nat)
    requires trace != virgin && n <= trace.Length == virgin.Length
    modifies virgin
    ensures second == 0
    ensures first == Level(C64.Bytes(trace[..n]), C64.Bytes(old(virgin[..n])))
    ensures C64.Bytes(virgin[..n]) == Cleared(C64.Bytes(trace[..n]), C64.Bytes(old(virgin[..n]))) && virgin[n..] == old(virgin[n..])
  {
    hide C64.Bytes, Level, Cleared;
    ghost var c, v := C64.Bytes(trace[..n]), C64.Bytes(virgin[..n]);
    first := C64.HasNewBits(trace, virgin, n);
    SecondPassFindsNothing(c, v);
    second := C64.HasNewBits(trace, virgin, n);
  }

  method SecondRun32(trace: array<u32>, virgin: array<u32>, n: nat) returns (first: nat, second: nat)
    requires trace != virgin && n <= trace.Length == virgin.Length
    modifies virgin
    ensures second == 0
    ensures first == Level(C32.Bytes(trace[..n]), C32.Bytes(old(virgin[..n])))
    ensures C32.Bytes(virgin[..n]) == Cleared(C32.Bytes(trace[..n]), C32.Bytes(old(virgin[..n]))) && virgin[n..] == old(virgin[n..])
  {
    hide C32.Bytes, Level, Cleared;
    ghost var c, v := C32.Bytes(trace[..n]), C32.Bytes(virgin[..n]);
    first := C32.HasNewBits(trace, virgin, n);
    SecondPassFindsNothing(c, v);
    second := C32.HasNewBits(trace, virgin, n);
  }
}
