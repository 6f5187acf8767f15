/** The coverage fast path in 32-bit words. */
module Coverage32 {
  import opened Words
  import opened CoverageMap

  // ----- One word -----

  function P0(w: u32): bv16 {
    (w & 0xFFFF) as bv16
  }

  function P1(w: u32): bv16 {
    (w >> 16) as bv16
  }

  function FromParts(a: bv16, b: bv16): u32 {
    a as u32 | (b as u32 << 16)
  }

  function View(w: u32): (b: seq<byte>)
    ensures |b| == 4
  {
    Pair(P0(w)) + Pair(P1(w))
  }

  /** classify_word: two table lookups. */
  function ClassifyWord(w: u32): u32 {
    FromParts(Class16(P0(w)), Class16(P1(w)))
  }

  predicate Overlap(c: u32, v: u32) {
    c & v != 0
  }

  function Without(v: u32, c: u32): u32 {
    v & !c
  }

  predicate AnyPristine(c: u32, v: u32) {
    PristinePair(P0(c), P0(v)) || PristinePair(P1(c), P1(v))
  }

  // Each fact about machine words on its own, where it costs next to nothing.

  lemma Clears0(c: u32, v: u32)
    ensures P0(Without(v, c)) == PairWithout(P0(v), P0(c))
  {
  }

  lemma Clears1(c: u32, v: u32)
    ensures P1(Without(v, c)) == PairWithout(P1(v), P1(c))
  {
  }

  lemma PartsMeet(c: u32, v: u32)
    ensures Overlap(c, v) <==> PairOverlap(P0(c), P0(v)) || PairOverlap(P1(c), P1(v))
  {
  }

  lemma Back0(a: bv16, b: bv16)
    ensures P0(FromParts(a, b)) == a
  {
  }

  lemma Back1(a: bv16, b: bv16)
    ensures P1(FromParts(a, b)) == b
  {
  }

  /** The bytes are those of little-endian memory. */
  lemma ViewIsMemory(w: u32)
    ensures ReadLE32(View(w), 0) == w
  {
  }

  lemma SameWord(a: seq<byte>, s: seq<byte>, at: nat)
    requires |a| == 4 && at + 4 <= |s| && s[at..at + 4] == a
    ensures ReadLE32(s, at) == ReadLE32(a, 0)
  {
    assert s[at] == s[at..at + 4][0] && s[at + 1] == s[at..at + 4][1];
    assert s[at + 2] == s[at..at + 4][2] && s[at + 3] == s[at..at + 4][3];
  }

  /** A word means what its four bytes mean. */
  lemma WordMeansBytes(c: u32, v: u32)
    ensures HasLevel(View(c), View(v), AnyPristine(c, v), Overlap(c, v))
    ensures Cleared(View(c), View(v)) == View(Without(v, c))
    ensures Classified(View(c)) == View(ClassifyWord(c))
  {
    hide P0, P1, FromParts, Class16, Pair, PristinePair, HasLevel, Cleared, Classified;
    hide Overlap, Without, PairOverlap, PairWithout;
    PartsMeet(c, v);
    Clears0(c, v);
    Clears1(c, v);
    Back0(Class16(P0(c)), Class16(P1(c)));
    Back1(Class16(P0(c)), Class16(P1(c)));
    PairLevel(P0(c), P0(v));
    PairLevel(P1(c), P1(v));
    LevelInParts(Pair(P0(c)), Pair(P0(v)), PristinePair(P0(c), P0(v)), PairOverlap(P0(c), P0(v)),
                 Pair(P1(c)), Pair(P1(v)), PristinePair(P1(c), P1(v)), PairOverlap(P1(c), P1(v)));
  }

  lemma ZeroWord(v: u32)
    ensures !Overlap(0, v) && Without(v, 0) == v && ClassifyWord(0) == 0
  {
  }

  // ----- Maps of words -----

  /** The bytes of a map. */
  ghost function Bytes(ws: seq<u32>): (b: seq<byte>)
    ensures |b| == 4 * |ws|
  {
    if ws == [] then [] else Bytes(ws[..|ws| - 1]) + View(ws[|ws| - 1])
  }

  lemma {:induction false} BytesAppend(a: seq<u32>, b: seq<u32>)
    ensures Bytes(a + b) == Bytes(a) + Bytes(b)
  {
    hide View;
    if b == [] {
      assert a + b == a;
    } else {
      var n := |b| - 1;
      assert (a + b)[..|a + b| - 1] == a + b[..n];
      BytesAppend(a, b[..n]);
    }
  }

  lemma BytesOfPrefix(ws: seq<u32>, i: nat)
    requires i < |ws|
    ensures Bytes(ws[..i + 1]) == Bytes(ws[..i]) + View(ws[i])
  {
    hide View;
    assert ws[..i + 1][..i] == ws[..i];
  }

  lemma BytesOfBoth(a: seq<u32>, b: seq<u32>)
    ensures Bytes(a + b)[..4 * |a|] == Bytes(a) && Bytes(a + b)[4 * |a|..] == Bytes(b)
  {
    hide Bytes;
    BytesAppend(a, b);
    CutBetween(Bytes(a), Bytes(b));
  }

  lemma BytesInParts(ws: seq<u32>, i: nat)
    requires i <= |ws|
    ensures Bytes(ws)[..4 * i] == Bytes(ws[..i]) && Bytes(ws)[4 * i..] == Bytes(ws[i..])
  {
    hide Bytes;
    Rejoined(ws, i);
    BytesOfBoth(ws[..i], ws[i..]);
  }

  /** One more word, and what it adds to the verdict. */
  lemma OneMoreWord(cur: seq<u32>, vir: seq<u32>, i: nat)
    requires i < |cur| == |vir|
    ensures Level(Bytes(cur[..i + 1]), Bytes(vir[..i + 1])) ==
            Max(Level(Bytes(cur[..i]), Bytes(vir[..i])), Level(View(cur[i]), View(vir[i])))
    ensures Cleared(Bytes(cur[..i + 1]), Bytes(vir[..i + 1])) ==
            Cleared(Bytes(cur[..i]), Bytes(vir[..i])) + Cleared(View(cur[i]), View(vir[i]))
    ensures Classified(Bytes(cur[..i + 1])) == Classified(Bytes(cur[..i])) + Classified(View(cur[i]))
  {
    hide View, Level, Cleared, Classified;
    BytesOfPrefix(cur, i);
    BytesOfPrefix(vir, i);
    InParts(Bytes(cur[..i]), Bytes(vir[..i]), View(cur[i]), View(vir[i]));
  }

  // ----- The slow path -----

  lemma NoBitsNoChange(c: u32, v: u32)
    ensures !Overlap(c, v) ==> Without(v, c) == v
  {
  }

  /** discover_word. */
  method DiscoverWord(ret0: nat, current: u32, virgin: array<u32>, i: nat) returns (ret: nat)
    requires i < virgin.Length
    modifies virgin
    ensures ret == Max(ret0, Level(View(current), View(old(virgin[i]))))
    ensures View(virgin[i]) == Cleared(View(current), View(old(virgin[i])))
    ensures forall k :: 0 <= k < virgin.Length && k != i ==> virgin[k] == old(virgin[k])
  {
    hide View, AnyPristine, Level, Cleared, Classified, Overlap, Without;
    WordMeansBytes(current, virgin[i]);
    NoBitsNoChange(current, virgin[i]);
    ret := ret0;
    if Overlap(current, virgin[i]) {
      if ret < 2 {
        ret := if AnyPristine(current, virgin[i]) then 2 else 1;
      }
      virgin[i] := Without(virgin[i], current);
    }
  }

  lemma NoBytes(cur: seq<u32>, vir: seq<u32>)
    requires cur == [] && vir == []
    ensures Level(Bytes(cur), Bytes(vir)) == 0 && Bytes(vir) == Cleared(Bytes(cur), Bytes(vir))
    ensures Bytes(cur) == Classified(Bytes(cur))
  {
  }

  lemma ZeroIsNothingNew(v: u32)
    ensures Level(View(0), View(v)) == 0 && Cleared(View(0), View(v)) == View(v)
    ensures Classified(View(0)) == View(0)
  {
  }

  /** has_new_bits over the first `n` words. */
  method HasNewBits(current: array<u32>, virgin: array<u32>, n: nat) returns (ret: nat)
    requires current != virgin && n <= current.Length == virgin.Length
    modifies virgin
    ensures ret == Level(Bytes(current[..n]), Bytes(old(virgin[..n])))
    ensures Bytes(virgin[..n]) == Cleared(Bytes(current[..n]), Bytes(old(virgin[..n])))
    ensures virgin[n..] == old(virgin[n..])
  {
    hide View, Level, Cleared, Classified, ClassifyWord, HasLevel, Bytes;
    ghost var cur, vir := current[..], virgin[..];
    ret := 0;
    var i: nat := 0;
    NoBytes(cur[..0], vir[..0]);
    while i < n
      invariant i <= n
      invariant ret == Level(Bytes(cur[..i]), Bytes(vir[..i]))
      invariant Bytes(virgin[..i]) == Cleared(Bytes(cur[..i]), Bytes(vir[..i]))
      invariant forall k :: i <= k < virgin.Length ==> virgin[k] == vir[k]
    {
      ghost var front := virgin[..i];
      OneMoreWord(cur, vir, i);
      if current[i] != 0 {
        ret := DiscoverWord(ret, current[i], virgin, i);
      } else {
        ZeroIsNothingNew(vir[i]);
      }
      BytesOfPrefix(virgin[..], i);
      assert virgin[..][..i + 1] == virgin[..i + 1] && virgin[..][..i] == virgin[..i] == front;
      i := i + 1;
    }
    assert current[..n] == cur[..n];
  }

  /** classify_counts: words of zeros are passed over. */
  method ClassifyCounts(mem: array<u32>)
    modifies mem
    ensures Bytes(mem[..]) == Classified(Bytes(old(mem[..])))
  {
    hide View, Classified, ClassifyWord, HasLevel, Bytes, Level, Cleared;
    ghost var was := mem[..];
    var i: nat := 0;
    NoBytes(was[..0], was[..0]);
    while i < mem.Length
      invariant i <= mem.Length
      invariant Bytes(mem[..i]) == Classified(Bytes(was[..i]))
      invariant forall k :: i <= k < mem.Length ==> mem[k] == was[k]
    {
      ghost var front := mem[..i];
      OneMoreWord(was, was, i);
      if mem[i] != 0 {
        WordMeansBytes(mem[i], 0);
        mem[i] := ClassifyWord(mem[i]);
      } else {
        ZeroIsNothingNew(0);
      }
      BytesOfPrefix(mem[..], i);
      assert mem[..][..i + 1] == mem[..i + 1] && mem[..][..i] == mem[..i] == front;
      i := i + 1;
    }
    assert mem[..i] == mem[..] && was[..i] == was;
  }

  // ----- The fast path -----

  predicate Hit(c: u32, v: u32) {
    c != 0 && Overlap(ClassifyWord(c), v)
  }

  /** Would classifying and comparing find anything new in the first `i` words? */
  ghost predicate Quiet(cur: seq<u32>, vir: seq<u32>, i: nat)
    requires i <= |cur| == |vir|
  {
    Level(Classified(Bytes(cur[..i])), Bytes(vir[..i])) == 0
  }

  lemma NextWordQuiet(cur: seq<u32>, vir: seq<u32>, i: nat)
    requires i < |cur| == |vir|
    ensures Quiet(cur, vir, i + 1) <==> Quiet(cur, vir, i) && !Hit(cur[i], vir[i])
  {
    hide View, Level, Cleared, Classified, ClassifyWord, Bytes, Overlap, Without;
    var c, v := cur[i], vir[i];
    BytesOfPrefix(cur, i);
    BytesOfPrefix(vir, i);
    OneMoreWord(cur, vir, i);
    WordMeansBytes(c, v);
    WordMeansBytes(ClassifyWord(c), v);
    ZeroWord(v);
    InParts(Classified(Bytes(cur[..i])), Bytes(vir[..i]), Classified(View(c)), View(v));
  }

  lemma {:induction false} QuietPrefix(cur: seq<u32>, vir: seq<u32>, i: nat, j: nat)
    requires i <= j <= |cur| == |vir| && Quiet(cur, vir, j)
    ensures Quiet(cur, vir, i)
    decreases j
  {
    hide Quiet, Hit;
    if i < j {
      NextWordQuiet(cur, vir, j - 1);
      QuietPrefix(cur, vir, i, j - 1);
    }
  }

  lemma FourMoreQuiet(cur: seq<u32>, vir: seq<u32>, i: nat)
    requires i + 4 <= |cur| == |vir| && Quiet(cur, vir, i)
    ensures Quiet(cur, vir, i + 4) <==>
            !Hit(cur[i], vir[i]) && !Hit(cur[i + 1], vir[i + 1]) && !Hit(cur[i + 2], vir[i + 2]) && !Hit(cur[i + 3], vir[i + 3])
  {
    hide Quiet, Hit;
    NextWordQuiet(cur, vir, i);
    NextWordQuiet(cur, vir, i + 1);
    NextWordQuiet(cur, vir, i + 2);
    NextWordQuiet(cur, vir, i + 3);
  }

  /** A hit anywhere is something new in the whole map. */
  lemma NotQuiet(cur: seq<u32>, vir: seq<u32>, i: nat)
    requires i <= |cur| == |vir| && !Quiet(cur, vir, i)
    ensures Level(Classified(Bytes(cur)), Bytes(vir)) > 0
  {
    if Quiet(cur, vir, |cur|) {
      QuietPrefix(cur, vir, i, |cur|);
    }
    assert cur[..|cur|] == cur && vir[..|cur|] == vir;
  }

  lemma AllQuiet(cur: seq<u32>, vir: seq<u32>)
    requires |cur| == |vir| && Quiet(cur, vir, |cur|)
    ensures Level(Classified(Bytes(cur)), Bytes(vir)) == 0
  {
    assert cur[..|cur|] == cur && vir[..|cur|] == vir;
  }

  lemma QuietAtFirst(cur: seq<u32>, vir: seq<u32>)
    requires |cur| == |vir|
    ensures Quiet(cur, vir, 0)
  {
  }

  /** skim: four words at a time, without writing anything. */
  method Skim(virgin: array<u32>, current: array<u32>) returns (ret: nat)
    requires current.Length == virgin.Length && current.Length % 4 == 0
    ensures ret == if Level(Classified(Bytes(current[..])), Bytes(virgin[..])) > 0 then 1 else 0
  {
    hide Quiet, Hit, Level, Classified, Bytes;
    ghost var cur, vir := current[..], virgin[..];
    QuietAtFirst(cur, vir);
    var at: nat := 0;
    while at < current.Length
      invariant at <= current.Length && at % 4 == 0 && Quiet(cur, vir, at)
    {
      FourMoreQuiet(cur, vir, at);
      if Hit(current[at], virgin[at]) || Hit(current[at + 1], virgin[at + 1])
         || Hit(current[at + 2], virgin[at + 2]) || Hit(current[at + 3], virgin[at + 3]) {
        NotQuiet(cur, vir, at + 4);
        return 1;
      }
      at := at + 4;
    }
    AllQuiet(cur, vir);
    return 0;
  }

  // ----- Both -----

  /** The verdict, the virgin map and the trace: what they must be after the first `n` words were compared. */
  ghost predicate Recorded(trace: seq<byte>, virgin: seq<byte>, k: nat, ret: nat, virgin2: seq<byte>)
    requires k <= |trace| == |virgin|
  {
    var c := Classified(trace);
    ret == Level(c[..k], virgin[..k]) && virgin2 == Cleared(c[..k], virgin[..k]) + virgin[k..]
  }

  lemma RejoinAt(b: seq<byte>, k: nat)
    requires k <= |b|
    ensures b == b[..k] + b[k..]
  {
  }

  method SlowPath(trace: array<u32>, virgin: array<u32>, n: nat) returns (ret: nat)
    requires trace != virgin && n <= trace.Length == virgin.Length
    modifies trace, virgin
    ensures Recorded(Bytes(old(trace[..])), Bytes(old(virgin[..])), 4 * n, ret, Bytes(virgin[..]))
    ensures Bytes(trace[..]) == Classified(Bytes(old(trace[..])))
  {
    hide Bytes, Level, Cleared, Classified;
    ghost var vir := virgin[..];
    ClassifyCounts(trace);
    ret := HasNewBits(trace, virgin, n);
    BytesInParts(trace[..], n);
    BytesInParts(vir, n);
    BytesInParts(virgin[..], n);
    assert trace[..][..n] == trace[..n] && vir[..n] == old(virgin[..n]) && virgin[..][..n] == virgin[..n];
    assert virgin[..][n..] == virgin[n..] == vir[n..];
    RejoinAt(Bytes(virgin[..]), 4 * n);
  }

  /**
   * has_new_bits_unclassified: the same verdict and the same virgin map as the slow path. The trace is
   * classified exactly when the whole map holds something new, so a verdict of 0 means an untouched
   * trace exactly when the words past the first `n` hold nothing new.
   */
  method HasNewBitsUnclassified(trace: array<u32>, virgin: array<u32>, n: nat) returns (ret: nat, classified: bool)
    requires trace != virgin && n <= trace.Length == virgin.Length && trace.Length % 4 == 0
    modifies trace, virgin
    ensures Recorded(Bytes(old(trace[..])), Bytes(old(virgin[..])), 4 * n, ret, Bytes(virgin[..]))
    ensures classified <==> Level(Classified(Bytes(old(trace[..]))), Bytes(old(virgin[..]))) > 0
    ensures if classified then Bytes(trace[..]) == Classified(Bytes(old(trace[..]))) else trace[..] == old(trace[..])
    ensures ret == 0 ==> (classified <==> Level(Classified(Bytes(old(trace[..])))[4 * n..], Bytes(old(virgin[..]))[4 * n..]) > 0)
  {
    hide Bytes, Level, Cleared, Classified;
    ghost var c, v := Classified(Bytes(trace[..])), Bytes(virgin[..]);
    FrontAndRest(c, v, 4 * n);
    var news := Skim(virgin, trace);
    if news == 0 {
      NothingNew(c[..4 * n], v[..4 * n]);
      RejoinAt(v, 4 * n);
      return 0, false;
    }
    ret := SlowPath(trace, virgin, n);
    classified := true;
  }
}
