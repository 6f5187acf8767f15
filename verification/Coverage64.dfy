/** The coverage fast path in 64-bit words. */
module Coverage64 {
  import opened Words
  import opened CoverageMap
  import C32 = Coverage32

  // ----- One word -----

  function Lo(w: u64): u32 {
    (w & 0xFFFFFFFF) as u32
  }

  function Hi(w: u64): u32 {
    (w >> 32) as u32
  }

  function View(w: u64): (b: seq<byte>)
    ensures |b| == 8
  {
    C32.View(Lo(w)) + C32.View(Hi(w))
  }

  /** classify_word: four table lookups, two in each half. */
  function ClassifyWord(w: u64): u64 {
    var mem0, mem1 := Class16(C32.P0(Lo(w))), Class16(C32.P1(Lo(w)));
    var mem2, mem3 := Class16(C32.P0(Hi(w))), Class16(C32.P1(Hi(w)));
    JoinedHalves(C32.FromParts(mem0, mem1), C32.FromParts(mem2, mem3))
  }

  predicate Overlap(c: u64, v: u64) {
    c & v != 0
  }

  function Without(v: u64, c: u64): u64 {
    v & !c
  }

  predicate AnyPristine(c: u64, v: u64) {
    C32.AnyPristine(Lo(c), Lo(v)) || C32.AnyPristine(Hi(c), Hi(v))
  }

  // Each fact about machine words on its own, where it costs next to nothing.

  lemma ClearsLo(c: u64, v: u64)
    ensures Lo(Without(v, c)) == C32.Without(Lo(v), Lo(c))
  {
  }

  lemma ClearsHi(c: u64, v: u64)
    ensures Hi(Without(v, c)) == C32.Without(Hi(v), Hi(c))
  {
  }

  lemma HalvesMeet(c: u64, v: u64)
    ensures Overlap(c, v) <==> C32.Overlap(Lo(c), Lo(v)) || C32.Overlap(Hi(c), Hi(v))
  {
  }

  lemma BackLo(a: u32, b: u32)
    ensures Lo(JoinedHalves(a, b)) == a
  {
  }

  lemma BackHi(a: u32, b: u32)
    ensures Hi(JoinedHalves(a, b)) == b
  {
  }

  lemma HalvesJoin(w: u64)
    ensures JoinedHalves(Lo(w), Hi(w)) == w
  {
  }

  /** The bytes are those of little-endian memory. */
  lemma ViewIsMemory(w: u64)
    ensures ReadLE64(View(w), 0) == w
  {
    hide Lo, Hi, JoinedHalves, ReadLE32, ReadLE64, C32.View;
    ReadInHalves(View(w), 0);
    HalvesJoin(w);
    C32.ViewIsMemory(Lo(w));
    C32.ViewIsMemory(Hi(w));
    C32.SameWord(C32.View(Lo(w)), View(w), 0);
    C32.SameWord(C32.View(Hi(w)), View(w), 4);
  }

  /** A word means what its eight bytes mean. */
  lemma WordMeansBytes(c: u64, v: u64)
    ensures HasLevel(View(c), View(v), AnyPristine(c, v), Overlap(c, v))
    ensures Cleared(View(c), View(v)) == View(Without(v, c))
    ensures Classified(View(c)) == View(ClassifyWord(c))
  {
    hide Lo, Hi, JoinedHalves, C32.View, C32.AnyPristine, HasLevel, Cleared, Classified, Class16;
    hide Overlap, Without, C32.Overlap, C32.Without, C32.FromParts, C32.P0, C32.P1;
    HalvesMeet(c, v);
    ClearsLo(c, v);
    ClearsHi(c, v);
    BackLo(C32.ClassifyWord(Lo(c)), C32.ClassifyWord(Hi(c)));
    BackHi(C32.ClassifyWord(Lo(c)), C32.ClassifyWord(Hi(c)));
    C32.WordMeansBytes(Lo(c), Lo(v));
    C32.WordMeansBytes(Hi(c), Hi(v));
    LevelInParts(C32.View(Lo(c)), C32.View(Lo(v)), C32.AnyPristine(Lo(c), Lo(v)), C32.Overlap(Lo(c), Lo(v)),
                 C32.View(Hi(c)), C32.View(Hi(v)), C32.AnyPristine(Hi(c), Hi(v)), C32.Overlap(Hi(c), Hi(v)));
  }

  lemma ZeroWord(v: u64)
    ensures !Overlap(0, v) && Without(v, 0) == v && ClassifyWord(0) == 0
  {
  }

  // ----- Maps of words -----

  /** The bytes of a map. */
  ghost function Bytes(ws: seq<u64>): (b: seq<byte>)
    ensures |b| == 8 * |ws|
  {
    if ws == [] then [] else Bytes(ws[..|ws| - 1]) + View(ws[|ws| - 1])
  }

  lemma {:induction false} BytesAppend(a: seq<u64>, b: seq<u64>)
    ensures Bytes(a + b) == Bytes(a) + Bytes(b)
  {
    hide View;
    if b == [] {
      assert a + b == a;
    } else {
      var n := |b| - 1;
      assert (a + b)[..|a + b| - 1] == a + b[..n];
      BytesAppend(a, b[..n]);
    }
  }

  lemma BytesOfPrefix(ws: seq<u64>, i: nat)
    requires i < |ws|
    ensures Bytes(ws[..i + 1]) == Bytes(ws[..i]) + View(ws[i])
  {
    hide View;
    assert ws[..i + 1][..i] == ws[..i];
  }

  lemma BytesOfBoth(a: seq<u64>, b: seq<u64>)
    ensures Bytes(a + b)[..8 * |a|] == Bytes(a) && Bytes(a + b)[8 * |a|..] == Bytes(b)
  {
    hide Bytes;
    BytesAppend(a, b);
    CutBetween(Bytes(a), Bytes(b));
  }

  lemma BytesInParts(ws: seq<u64>, i: nat)
    requires i <= |ws|
    ensures Bytes(ws)[..8 * i] == Bytes(ws[..i]) && Bytes(ws)[8 * i..] == Bytes(ws[i..])
  {
    hide Bytes;
    Rejoined(ws, i);
    BytesOfBoth(ws[..i], ws[i..]);
  }

  /** One more word, and what it adds to the verdict. */
  lemma OneMoreWord(cur: seq<u64>, vir: seq<u64>, i: nat)
    requires i < |cur| == |vir|
    ensures Level(Bytes(cur[..i + 1]), Bytes(vir[..i + 1])) ==
            Max(Level(Bytes(cur[..i]), Bytes(vir[..i])), Level(View(cur[i]), View(vir[i])))
    ensures Cleared(Bytes(cur[..i + 1]), Bytes(vir[..i + 1])) ==
            Cleared(Bytes(cur[..i]), Bytes(vir[..i])) + Cleared(View(cur[i]), View(vir[i]))
    ensures Classified(Bytes(cur[..i + 1])) == Classified(Bytes(cur[..i])) + Classified(View(cur[i]))
  {
    hide View, Level, Cleared, Classified;
    BytesOfPrefix(cur, i);
    BytesOfPrefix(vir, i);
    InParts(Bytes(cur[..i]), Bytes(vir[..i]), View(cur[i]), View(vir[i]));
  }

  // ----- The slow path -----

  lemma NoBitsNoChange(c: u64, v: u64)
    ensures !Overlap(c, v) ==> Without(v, c) == v
  {
  }

  /** discover_word. */
  method DiscoverWord(ret0: nat, current: u64, virgin: array<u64>, i: nat) returns (ret: nat)
    requires i < virgin.Length
    modifies virgin
    ensures ret == Max(ret0, Level(View(current), View(old(virgin[i]))))
    ensures View(virgin[i]) == Cleared(View(current), View(old(virgin[i])))
    ensures forall k :: 0 <= k < virgin.Length && k != i ==> virgin[k] == old(virgin[k])
  {
    hide View, AnyPristine, Level, Cleared, Classified, Overlap, Without;
    WordMeansBytes(current, virgin[i]);
    NoBitsNoChange(current, virgin[i]);
    ret := ret0;
    if Overlap(current, virgin[i]) {
      if ret < 2 {
        ret := if AnyPristine(current, virgin[i]) then 2 else 1;
      }
      virgin[i] := Without(virgin[i], current);
    }
  }

  lemma NoBytes(cur: seq<u64>, vir: seq<u64>)
    requires cur == [] && vir == []
    ensures Level(Bytes(cur), Bytes(vir)) == 0 && Bytes(vir) == Cleared(Bytes(cur), Bytes(vir))
    ensures Bytes(cur) == Classified(Bytes(cur))
  {
  }

  lemma ZeroIsNothingNew(v: u64)
    ensures Level(View(0), View(v)) == 0 && Cleared(View(0), View(v)) == View(v)
    ensures Classified(View(0)) == View(0)
  {
    hide View, Level, Cleared, Classified, ClassifyWord, Overlap, Without;
    WordMeansBytes(0, v);
    ZeroWord(v);
  }

  /** has_new_bits over the first `n` words. */
  method HasNewBits(current: array<u64>, virgin: array<u64>, n: nat) returns (ret: nat)
    requires current != virgin && n <= current.Length == virgin.Length
    modifies virgin
    ensures ret == Level(Bytes(current[..n]), Bytes(old(virgin[..n])))
    ensures Bytes(virgin[..n]) == Cleared(Bytes(current[..n]), Bytes(old(virgin[..n])))
    ensures virgin[n..] == old(virgin[n..])
  {
    hide View, Level, Cleared, Classified, ClassifyWord, HasLevel, Bytes;
    ghost var cur, vir := current[..], virgin[..];
    ret := 0;
    var i: nat := 0;
    NoBytes(cur[..0], vir[..0]);
    while i < n
      invariant i <= n
      invariant ret == Level(Bytes(cur[..i]), Bytes(vir[..i]))
      invariant Bytes(virgin[..i]) == Cleared(Bytes(cur[..i]), Bytes(vir[..i]))
      invariant forall k :: i <= k < virgin.Length ==> virgin[k] == vir[k]
    {
      ghost var front := virgin[..i];
      OneMoreWord(cur, vir, i);
      if current[i] != 0 {
        ret := DiscoverWord(ret, current[i], virgin, i);
      } else {
        ZeroIsNothingNew(vir[i]);
      }
      BytesOfPrefix(virgin[..], i);
      assert virgin[..][..i + 1] == virgin[..i + 1] && virgin[..][..i] == virgin[..i] == front;
      i := i + 1;
    }
    assert current[..n] == cur[..n];
  }

  /** classify_counts: words of zeros are passed over. */
  method ClassifyCounts(mem: array<u64>)
    modifies mem
    ensures Bytes(mem[..]) == Classified(Bytes(old(mem[..])))
  {
    hide View, Classified, ClassifyWord, HasLevel, Bytes, Level, Cleared;
    ghost var was := mem[..];
    var i: nat := 0;
    NoBytes(was[..0], was[..0]);
    while i < mem.Length
      invariant i <= mem.Length
      invariant Bytes(mem[..i]) == Classified(Bytes(was[..i]))
      invariant forall k :: i <= k < mem.Length ==> mem[k] == was[k]
    {
      ghost var front := mem[..i];
      OneMoreWord(was, was, i);
      if mem[i] != 0 {
        WordMeansBytes(mem[i], 0);
        mem[i] := ClassifyWord(mem[i]);
      } else {
        ZeroIsNothingNew(0);
      }
      BytesOfPrefix(mem[..], i);
      assert mem[..][..i + 1] == mem[..i + 1] && mem[..][..i] == mem[..i] == front;
      i := i + 1;
    }
    assert mem[..i] == mem[..] && was[..i] == was;
  }

  // ----- The fast path -----

  predicate Hit(c: u64, v: u64) {
    c != 0 && Overlap(ClassifyWord(c), v)
  }

  /** Would classifying and comparing find anything new in the first `i` words? */
  ghost predicate Quiet(cur: seq<u64>, vir: seq<u64>, i: nat)
    requires i <= |cur| == |vir|
  {
    Level(Classified(Bytes(cur[..i])), Bytes(vir[..i])) == 0
  }

  lemma NextWordQuiet(cur: seq<u64>, vir: seq<u64>, i: nat)
    requires i < |cur| == |vir|
    ensures Quiet(cur, vir, i + 1) <==> Quiet(cur, vir, i) && !Hit(cur[i], vir[i])
  {
    hide View, Level, Cleared, Classified, ClassifyWord, Bytes, Overlap, Without;
    var c, v := cur[i], vir[i];
    BytesOfPrefix(cur, i);
    BytesOfPrefix(vir, i);
    OneMoreWord(cur, vir, i);
    WordMeansBytes(c, v);
    WordMeansBytes(ClassifyWord(c), v);
    ZeroWord(v);
    InParts(Classified(Bytes(cur[..i])), Bytes(vir[..i]), Classified(View(c)), View(v));
  }

  lemma {:induction false} QuietPrefix(cur: seq<u64>, vir: seq<u64>, i: nat, j: nat)
    requires i <= j <= |cur| == |vir| && Quiet(cur, vir, j)
    ensures Quiet(cur, vir, i)
    decreases j
  {
    hide Quiet, Hit;
    if i < j {
      NextWordQuiet(cur, vir, j - 1);
      QuietPrefix(cur, vir, i, j - 1);
    }
  }

  lemma FourMoreQuiet(cur: seq<u64>, vir: seq<u64>, i: nat)
    requires i + 4 <= |cur| == |vir| && Quiet(cur, vir, i)
    ensures Quiet(cur, vir, i + 4) <==>
            !Hit(cur[i], vir[i]) && !Hit(cur[i + 1], vir[i + 1]) && !Hit(cur[i + 2], vir[i + 2]) && !Hit(cur[i + 3], vir[i + 3])
  {
    hide Quiet, Hit;
    NextWordQuiet(cur, vir, i);
    NextWordQuiet(cur, vir, i + 1);
    NextWordQuiet(cur, vir, i + 2);
    NextWordQuiet(cur, vir, i + 3);
  }

  /** A hit anywhere is something new in the whole map. */
  lemma NotQuiet(cur: seq<u64>, vir: seq<u64>, i: nat)
    requires i <= |cur| == |vir| && !Quiet(cur, vir, i)
    ensures Level(Classified(Bytes(cur)), Bytes(vir)) > 0
  {
    if Quiet(cur, vir, |cur|) {
      QuietPrefix(cur, vir, i, |cur|);
    }
    assert cur[..|cur|] == cur && vir[..|cur|] == vir;
  }

  lemma AllQuiet(cur: seq<u64>, vir: seq<u64>)
    requires |cur| == |vir| && Quiet(cur, vir, |cur|)
    ensures Level(Classified(Bytes(cur)), Bytes(vir)) == 0
  {
    assert cur[..|cur|] == cur && vir[..|cur|] == vir;
  }

  lemma QuietAtFirst(cur: seq<u64>, vir: seq<u64>)
    requires |cur| == |vir|
    ensures Quiet(cur, vir, 0)
  {
  }

  /** skim: four words at a time, without writing anything. */
  method Skim(virgin: array<u64>, current: array<u64>) returns (ret: nat)
    requires current.Length == virgin.Length && current.Length % 4 == 0
    ensures ret == if Level(Classified(Bytes(current[..])), Bytes(virgin[..])) > 0 then 1 else 0
  {
    hide Quiet, Hit, Level, Classified, Bytes;
    ghost var cur, vir := current[..], virgin[..];
    QuietAtFirst(cur, vir);
    var at: nat := 0;
    while at < current.Length
      invariant at <= current.Length && at % 4 == 0 && Quiet(cur, vir, at)
    {
      FourMoreQuiet(cur, vir, at);
      if Hit(current[at], virgin[at]) || Hit(current[at + 1], virgin[at + 1])
         || Hit(current[at + 2], virgin[at + 2]) || Hit(current[at + 3], virgin[at + 3]) {
        NotQuiet(cur, vir, at + 4);
        return 1;
      }
      at := at + 4;
    }
    AllQuiet(cur, vir);
    return 0;
  }

  // ----- The vector forms -----

  /** A byte of ones for every lane that is zero. */
  function Mask4(a: bool, b: bool, c: bool, d: bool): u32 {
    (if a then 0xFF else 0) | (if b then 0xFF00 else 0) | (if c then 0xFF0000 else 0) | (if d then 0xFF000000 else 0)
  }

  lemma Mask4Tells(a: bool, b: bool, c: bool, d: bool)
    ensures Mask4(a, b, c, d) & 0xFF != 0 <==> a
    ensures Mask4(a, b, c, d) & 0xFF00 != 0 <==> b
    ensures Mask4(a, b, c, d) & 0xFF0000 != 0 <==> c
    ensures Mask4(a, b, c, d) & 0xFF000000 != 0 <==> d
    ensures Mask4(a, b, c, d) == 0xFFFFFFFF <==> a && b && c && d
  {
  }

  /** A bit for every lane that is zero. */
  function Mask8(z: seq<bool>): byte
    requires |z| == 8
  {
    (if z[0] then 1 else 0) | (if z[1] then 2 else 0) | (if z[2] then 4 else 0) | (if z[3] then 8 else 0)
    | (if z[4] then 16 else 0) | (if z[5] then 32 else 0) | (if z[6] then 64 else 0) | (if z[7] then 128 else 0)
  }

  lemma Mask8Tells(z: seq<bool>)
    requires |z| == 8
    ensures Mask8(z) & 1 != 0 <==> z[0]
    ensures Mask8(z) & 2 != 0 <==> z[1]
    ensures Mask8(z) & 4 != 0 <==> z[2]
    ensures Mask8(z) & 8 != 0 <==> z[3]
    ensures Mask8(z) & 16 != 0 <==> z[4]
    ensures Mask8(z) & 32 != 0 <==> z[5]
    ensures Mask8(z) & 64 != 0 <==> z[6]
    ensures Mask8(z) & 128 != 0 <==> z[7]
    ensures Mask8(z) == 0xFF <==> z[0] && z[1] && z[2] && z[3] && z[4] && z[5] && z[6] && z[7]
  {
  }

  predicate Fresh(c: u64, v: u64) {
    Overlap(ClassifyWord(c), v)
  }

  lemma HitMeansFresh(c: u64, v: u64)
    ensures Hit(c, v) <==> c != 0 && Fresh(c, v)
  {
  }

  method HitAmong4(virgin: array<u64>, current: array<u64>, at: nat) returns (hit: bool)
    requires at + 4 <= current.Length == virgin.Length
    ensures hit <==> Hit(current[at], virgin[at]) || Hit(current[at + 1], virgin[at + 1])
                     || Hit(current[at + 2], virgin[at + 2]) || Hit(current[at + 3], virgin[at + 3])
  {
    hide Hit, Fresh, Mask4;
    var a, b, c, d := current[at] == 0, current[at + 1] == 0, current[at + 2] == 0, current[at + 3] == 0;
    var mask := Mask4(a, b, c, d);
    Mask4Tells(a, b, c, d);
    HitMeansFresh(current[at], virgin[at]);
    HitMeansFresh(current[at + 1], virgin[at + 1]);
    HitMeansFresh(current[at + 2], virgin[at + 2]);
    HitMeansFresh(current[at + 3], virgin[at + 3]);
    if mask == 0xFFFFFFFF {
      return false;
    }
    if mask & 0xFF == 0 && Fresh(current[at], virgin[at]) { return true; }
    if mask & 0xFF00 == 0 && Fresh(current[at + 1], virgin[at + 1]) { return true; }
    if mask & 0xFF0000 == 0 && Fresh(current[at + 2], virgin[at + 2]) { return true; }
    if mask & 0xFF000000 == 0 && Fresh(current[at + 3], virgin[at + 3]) { return true; }
    return false;
  }

  /** skim with 256-bit vectors. */
  method SkimAvx2(virgin: array<u64>, current: array<u64>) returns (ret: nat)
    requires current.Length == virgin.Length && current.Length % 4 == 0
    ensures ret == if Level(Classified(Bytes(current[..])), Bytes(virgin[..])) > 0 then 1 else 0
  {
    hide Quiet, Hit, Level, Classified, Bytes, Fresh, Mask4;
    ghost var cur, vir := current[..], virgin[..];
    QuietAtFirst(cur, vir);
    var at: nat := 0;
    while at < current.Length
      invariant at <= current.Length && at % 4 == 0 && Quiet(cur, vir, at)
    {
      FourMoreQuiet(cur, vir, at);
      var hit := HitAmong4(virgin, current, at);
      if hit {
        NotQuiet(cur, vir, at + 4);
        return 1;
      }
      at := at + 4;
    }
    AllQuiet(cur, vir);
    return 0;
  }

  method HitAmong8(virgin: array<u64>, current: array<u64>, at: nat) returns (hit: bool)
    requires at + 8 <= current.Length == virgin.Length
    ensures hit <==> Hit(current[at], virgin[at]) || Hit(current[at + 1], virgin[at + 1])
                     || Hit(current[at + 2], virgin[at + 2]) || Hit(current[at + 3], virgin[at + 3])
                     || Hit(current[at + 4], virgin[at + 4]) || Hit(current[at + 5], virgin[at + 5])
                     || Hit(current[at + 6], virgin[at + 6]) || Hit(current[at + 7], virgin[at + 7])
  {
    hide Hit, Fresh, Mask8;
    var z := [current[at] == 0, current[at + 1] == 0, current[at + 2] == 0, current[at + 3] == 0,
              current[at + 4] == 0, current[at + 5] == 0, current[at + 6] == 0, current[at + 7] == 0];
    var mask := Mask8(z);
    Mask8Tells(z);
    HitMeansFresh(current[at], virgin[at]);
    HitMeansFresh(current[at + 1], virgin[at + 1]);
    HitMeansFresh(current[at + 2], virgin[at + 2]);
    HitMeansFresh(current[at + 3], virgin[at + 3]);
    HitMeansFresh(current[at + 4], virgin[at + 4]);
    HitMeansFresh(current[at + 5], virgin[at + 5]);
    HitMeansFresh(current[at + 6], virgin[at + 6]);
    HitMeansFresh(current[at + 7], virgin[at + 7]);
    if mask == 0xFF {
      return false;
    }
    if mask & 1 == 0 && Fresh(current[at], virgin[at]) { return true; }
    if mask & 2 == 0 && Fresh(current[at + 1], virgin[at + 1]) { return true; }
    if mask & 4 == 0 && Fresh(current[at + 2], virgin[at + 2]) { return true; }
    if mask & 8 == 0 && Fresh(current[at + 3], virgin[at + 3]) { return true; }
    if mask & 16 == 0 && Fresh(current[at + 4], virgin[at + 4]) { return true; }
    if mask & 32 == 0 && Fresh(current[at + 5], virgin[at + 5]) { return true; }
    if mask & 64 == 0 && Fresh(current[at + 6], virgin[at + 6]) { return true; }
    if mask & 128 == 0 && Fresh(current[at + 7], virgin[at + 7]) { return true; }
    return false;
  }

  /** skim with 512-bit vectors: eight words at a time. */
  method SkimAvx512(virgin: array<u64>, current: array<u64>) returns (ret: nat)
    requires current.Length == virgin.Length && current.Length % 8 == 0
    ensures ret == if Level(Classified(Bytes(current[..])), Bytes(virgin[..])) > 0 then 1 else 0
  {
    hide Quiet, Hit, Level, Classified, Bytes;
    ghost var cur, vir := current[..], virgin[..];
    QuietAtFirst(cur, vir);
    var at: nat := 0;
    while at != current.Length
      invariant at <= current.Length && at % 8 == 0 && Quiet(cur, vir, at)
    {
      var hit := HitAmong8(virgin, current, at);
      if hit {
        if Quiet(cur, vir, at + 8) {
          QuietPrefix(cur, vir, at + 4, at + 8);
        }
        FourMoreQuiet(cur, vir, at);
        if Quiet(cur, vir, at + 4) {
          FourMoreQuiet(cur, vir, at + 4);
        }
        NotQuiet(cur, vir, at + 8);
        return 1;
      }
      FourMoreQuiet(cur, vir, at);
      FourMoreQuiet(cur, vir, at + 4);
      at := at + 8;
    }
    AllQuiet(cur, vir);
    return 0;
  }

  // ----- Both -----

  /** The verdict, the virgin map and the trace: what they must be after the first `n` words were compared. */
  ghost predicate Recorded(trace: seq<byte>, virgin: seq<byte>, k: nat, ret: nat, virgin2: seq<byte>)
    requires k <= |trace| == |virgin|
  {
    var c := Classified(trace);
    ret == Level(c[..k], virgin[..k]) && virgin2 == Cleared(c[..k], virgin[..k]) + virgin[k..]
  }

  lemma RejoinAt(b: seq<byte>, k: nat)
    requires k <= |b|
    ensures b == b[..k] + b[k..]
  {
  }

  method SlowPath(trace: array<u64>, virgin: array<u64>, n: nat) returns (ret: nat)
    requires trace != virgin && n <= trace.Length == virgin.Length
    modifies trace, virgin
    ensures Recorded(Bytes(old(trace[..])), Bytes(old(virgin[..])), 8 * n, ret, Bytes(virgin[..]))
    ensures Bytes(trace[..]) == Classified(Bytes(old(trace[..])))
  {
    hide Bytes, Level, Cleared, Classified;
    ghost var vir := virgin[..];
    ClassifyCounts(trace);
    ret := HasNewBits(trace, virgin, n);
    BytesInParts(trace[..], n);
    BytesInParts(vir, n);
    BytesInParts(virgin[..], n);
    assert trace[..][..n] == trace[..n] && vir[..n] == old(virgin[..n]) && virgin[..][..n] == virgin[..n];
    assert virgin[..][n..] == virgin[n..] == vir[n..];
    RejoinAt(Bytes(virgin[..]), 8 * n);
  }

  /**
   * has_new_bits_unclassified: the same verdict and the same virgin map as the slow path. The trace is
   * classified exactly when the whole map holds something new, so a verdict of 0 means an untouched
   * trace exactly when the words past the first `n` hold nothing new.
   */
  method HasNewBitsUnclassified(trace: array<u64>, virgin: array<u64>, n: nat) returns (ret: nat, classified: bool)
    requires trace != virgin && n <= trace.Length == virgin.Length && trace.Length % 4 == 0
    modifies trace, virgin
    ensures Recorded(Bytes(old(trace[..])), Bytes(old(virgin[..])), 8 * n, ret, Bytes(virgin[..]))
    ensures classified <==> Level(Classified(Bytes(old(trace[..]))), Bytes(old(virgin[..]))) > 0
    ensures if classified then Bytes(trace[..]) == Classified(Bytes(old(trace[..]))) else trace[..] == old(trace[..])
    ensures ret == 0 ==> (classified <==> Level(Classified(Bytes(old(trace[..])))[8 * n..], Bytes(old(virgin[..]))[8 * n..]) > 0)
  {
    hide Bytes, Level, Cleared, Classified;
    ghost var c, v := Classified(Bytes(trace[..])), Bytes(virgin[..]);
    FrontAndRest(c, v, 8 * n);
    var news := Skim(virgin, trace);
    if news == 0 {
      NothingNew(c[..8 * n], v[..8 * n]);
      RejoinAt(v, 8 * n);
      return 0, false;
    }
    ret := SlowPath(trace, virgin, n);
    classified := true;
  }

  lemma ClassifiedFront(b: seq<byte>, k: nat)
    requires k <= |b|
    ensures Classified(b)[..k] == Classified(b[..k])
  {
  }

  lemma OneHits()
    ensures Hit(1, 0xFFFF_FFFF_FFFF_FFFF) && !Hit(0, 0xFFFF_FFFF_FFFF_FFFF)
  {
  }

  lemma FrontQuiet(cur: seq<u64>, vir: seq<u64>, n: nat)
    requires n <= |cur| == |vir| && Quiet(cur, vir, n)
    ensures Level(Classified(Bytes(cur))[..8 * n], Bytes(vir)[..8 * n]) == 0
  {
    hide Bytes, Level, Classified;
    BytesInParts(cur, n);
    BytesInParts(vir, n);
    ClassifiedFront(Bytes(cur), 8 * n);
  }

  /** A map of 64 bytes whose real size is one word, hit in the second one only. */
  method NewOnlyInPadding() returns (ret: nat, classified: bool)
    ensures ret == 0 && classified
  {
    hide Bytes, Level, Cleared, Classified, Hit, Quiet;
    var trace := new u64[8](i => if i == 1 then 1 else 0);
    var virgin := new u64[8](_ => 0xFFFF_FFFF_FFFF_FFFF);
    ghost var cur, vir := trace[..], virgin[..];
    OneHits();
    QuietAtFirst(cur, vir);
    NextWordQuiet(cur, vir, 0);
    NextWordQuiet(cur, vir, 1);
    NotQuiet(cur, vir, 2);
    FrontQuiet(cur, vir, 1);
    ret, classified := HasNewBitsUnclassified(trace, virgin, 1);
  }
}
