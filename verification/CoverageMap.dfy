/** What a coverage map means, byte by byte: the reference both word sizes are measured against. */
module CoverageMap {
  import opened Words

  // ----- Hit-count classes -----

  /** count_class_lookup8: how often a tuple was hit, as one bit. */
  function Class8(hits: byte): byte {
    if hits < 3 then hits else if hits == 3 then 4 else if hits < 8 then 8 else if hits < 16 then 16
    else if hits < 32 then 32 else if hits < 128 then 64 else 128
  }

  /** An entry of count_class_lookup16: the classes of two hit counts side by side. */
  function Class16(pair: bv16): bv16 {
    (Class8((pair >> 8) as byte) as bv16 << 8) | Class8((pair & 0xFF) as byte) as bv16
  }

  // ----- What is new -----

  predicate Meets(c: byte, v: byte) {
    c & v != 0
  }

  /** A byte that was never hit before is still 0xff in the virgin map. */
  ghost predicate NewTuple(cur: seq<byte>, vir: seq<byte>)
    requires |cur| == |vir|
  {
    exists k :: 0 <= k < |cur| && cur[k] != 0 && vir[k] == 0xFF
  }

  ghost predicate NewCount(cur: seq<byte>, vir: seq<byte>)
    requires |cur| == |vir|
  {
    exists k :: 0 <= k < |cur| && Meets(cur[k], vir[k])
  }

  /** 2 for a new tuple, 1 for a new hit count only, 0 for nothing new. */
  ghost function Level(cur: seq<byte>, vir: seq<byte>): nat
    requires |cur| == |vir|
  {
    if NewTuple(cur, vir) then 2 else if NewCount(cur, vir) then 1 else 0
  }

  /** The bits seen now are virgin no more. */
  ghost function Cleared(cur: seq<byte>, vir: seq<byte>): (r: seq<byte>)
    requires |cur| == |vir|
    ensures |r| == |vir|
  {
    seq(|vir|, k requires 0 <= k < |vir| => vir[k] & !cur[k])
  }

  ghost function Classified(b: seq<byte>): (r: seq<byte>)
    ensures |r| == |b|
  {
    seq(|b|, k requires 0 <= k < |b| => Class8(b[k]))
  }

  function Max(a: nat, b: nat): nat {
    if a < b then b else a
  }

  lemma ByteFacts(b: byte, v: byte)
    ensures b != 0 && v == 0xFF ==> Meets(b, v)
    ensures !Meets(b, v & !b)
    ensures (v & !b) & v == v & !b
    ensures !Meets(b, v) <==> v & !b == v
  {
  }

  /** Nothing is new exactly when no bit of the trace is virgin, and then recording it changes nothing. */
  lemma NothingNew(cur: seq<byte>, vir: seq<byte>)
    requires |cur| == |vir|
    ensures Level(cur, vir) == 0 <==> forall k :: 0 <= k < |cur| ==> !Meets(cur[k], vir[k])
    ensures Level(cur, vir) == 0 <==> Cleared(cur, vir) == vir
  {
  }

  /** The same trace finds nothing a second time, and virgin bits are only ever cleared. */
  lemma SecondPassFindsNothing(cur: seq<byte>, vir: seq<byte>)
    requires |cur| == |vir|
    ensures Level(cur, Cleared(cur, vir)) == 0
    ensures Cleared(cur, Cleared(cur, vir)) == Cleared(cur, vir)
    ensures forall k :: 0 <= k < |vir| ==> Cleared(cur, vir)[k] & vir[k] == Cleared(cur, vir)[k]
  {
  }

  /** A map in two parts. */
  lemma InParts(cur: seq<byte>, vir: seq<byte>, cur2: seq<byte>, vir2: seq<byte>)
    requires |cur| == |vir| && |cur2| == |vir2|
    ensures Level(cur + cur2, vir + vir2) == Max(Level(cur, vir), Level(cur2, vir2))
    ensures Cleared(cur + cur2, vir + vir2) == Cleared(cur, vir) + Cleared(cur2, vir2)
    ensures Classified(cur + cur2) == Classified(cur) + Classified(cur2)
  {
    hide Meets, Class8;
    var c, v := cur + cur2, vir + vir2;
    forall k | 0 <= k < |cur2|
      ensures c[|cur| + k] == cur2[k] && v[|cur| + k] == vir2[k]
    {
    }
    forall k | 0 <= k < |cur|
      ensures c[k] == cur[k] && v[k] == vir[k]
    {
    }
    forall k | 0 <= k < |c|
      ensures c[k] == if k < |cur| then cur[k] else cur2[k - |cur|]
      ensures v[k] == if k < |cur| then vir[k] else vir2[k - |cur|]
    {
    }
  }

  // ----- Two bytes -----

  function Low(h: bv16): byte {
    (h & 0xFF) as byte
  }

  function High(h: bv16): byte {
    (h >> 8) as byte
  }

  function Pair(h: bv16): (b: seq<byte>)
    ensures |b| == 2
  {
    [Low(h), High(h)]
  }

  predicate PairOverlap(c: bv16, v: bv16) {
    c & v != 0
  }

  function PairWithout(v: bv16, c: bv16): bv16 {
    v & !c
  }

  predicate PristinePair(c: bv16, v: bv16) {
    (Low(c) != 0 && Low(v) == 0xFF) || (High(c) != 0 && High(v) == 0xFF)
  }

  lemma LowClears(c: bv16, v: bv16)
    ensures Low(PairWithout(v, c)) == Low(v) & !Low(c)
  {
  }

  lemma HighClears(c: bv16, v: bv16)
    ensures High(PairWithout(v, c)) == High(v) & !High(c)
  {
  }

  lemma PairMeets(c: bv16, v: bv16)
    ensures PairOverlap(c, v) <==> Meets(Low(c), Low(v)) || Meets(High(c), High(v))
  {
  }

  /** The class of both counts, and no other bits. */
  lemma ClassPair(h: bv16)
    ensures Low(Class16(h)) == Class8(Low(h)) && High(Class16(h)) == Class8(High(h))
  {
  }

  ghost predicate HasLevel(c: seq<byte>, v: seq<byte>, pristine: bool, meets: bool)
    requires |c| == |v|
  {
    (pristine ==> meets) && Level(c, v) == if pristine then 2 else if meets then 1 else 0
  }

  lemma TwoBytes(c0: byte, c1: byte, v0: byte, v1: byte)
    ensures NewTuple([c0, c1], [v0, v1]) <==> (c0 != 0 && v0 == 0xFF) || (c1 != 0 && v1 == 0xFF)
    ensures NewCount([c0, c1], [v0, v1]) <==> Meets(c0, v0) || Meets(c1, v1)
  {
    hide Meets;
    var c, v := [c0, c1], [v0, v1];
    assert c[0] == c0 && c[1] == c1 && v[0] == v0 && v[1] == v1;
  }

  lemma PairVerdict(c: bv16, v: bv16)
    ensures HasLevel(Pair(c), Pair(v), PristinePair(c, v), PairOverlap(c, v))
  {
    hide Low, High, Meets, PairOverlap, NewTuple, NewCount;
    PairMeets(c, v);
    ByteFacts(Low(c), Low(v));
    ByteFacts(High(c), High(v));
    TwoBytes(Low(c), High(c), Low(v), High(v));
  }

  lemma PairClears(c: bv16, v: bv16)
    ensures Cleared(Pair(c), Pair(v)) == Pair(PairWithout(v, c))
  {
    hide Low, High, PairWithout;
    LowClears(c, v);
    HighClears(c, v);
  }

  lemma PairClass(c: bv16)
    ensures Classified(Pair(c)) == Pair(Class16(c))
  {
    hide Low, High, Class16, Class8;
    ClassPair(c);
  }

  lemma PairLevel(c: bv16, v: bv16)
    ensures HasLevel(Pair(c), Pair(v), PristinePair(c, v), PairOverlap(c, v))
    ensures Cleared(Pair(c), Pair(v)) == Pair(PairWithout(v, c))
    ensures Classified(Pair(c)) == Pair(Class16(c))
  {
    hide HasLevel, Pair, Class16, PristinePair, PairOverlap, PairWithout, Cleared, Classified;
    PairVerdict(c, v);
    PairClears(c, v);
    PairClass(c);
  }

  lemma LevelInParts(c: seq<byte>, v: seq<byte>, p: bool, m: bool, c2: seq<byte>, v2: seq<byte>, p2: bool, m2: bool)
    requires |c| == |v| && |c2| == |v2|
    requires HasLevel(c, v, p, m) && HasLevel(c2, v2, p2, m2)
    ensures HasLevel(c + c2, v + v2, p || p2, m || m2)
    ensures Cleared(c + c2, v + v2) == Cleared(c, v) + Cleared(c2, v2)
    ensures Classified(c + c2) == Classified(c) + Classified(c2)
  {
    hide Level, Cleared, Classified;
    InParts(c, v, c2, v2);
  }

  lemma CutBetween(a: seq<byte>, b: seq<byte>)
    ensures (a + b)[..|a|] == a && (a + b)[|a|..] == b
  {
  }

  /** Nothing new in the whole map is nothing new in its front part, or in the rest. */
  lemma FrontAndRest(cur: seq<byte>, vir: seq<byte>, k: nat)
    requires |cur| == |vir| && k <= |cur|
    ensures Level(cur, vir) == Max(Level(cur[..k], vir[..k]), Level(cur[k..], vir[k..]))
  {
  }

  lemma SameMiddle(front: seq<byte>, a: seq<byte>, b: seq<byte>, rest: seq<byte>)
    requires |a| == |b|
    ensures front + a + rest == front + (b + rest) <==> a == b
  {
    if front + a + rest == front + (b + rest) {
      assert a == (front + a + rest)[|front|..|front| + |a|];
      assert b == (front + (b + rest))[|front|..|front| + |b|];
    } else {
      assert front + b + rest == front + (b + rest);
    }
  }

  /** Comparing a longer front: what its end adds to the verdict, and when it changes the virgin map. */
  lemma LongerFront(cur: seq<byte>, vir: seq<byte>, j: nat, k: nat)
    requires |cur| == |vir| && j <= k <= |cur|
    ensures Level(cur[..k], vir[..k]) == Max(Level(cur[..j], vir[..j]), Level(cur[j..k], vir[j..k]))
    ensures Cleared(cur[..k], vir[..k]) + vir[k..] == Cleared(cur[..j], vir[..j]) + vir[j..] <==> Level(cur[j..k], vir[j..k]) == 0
  {
    hide Level, Cleared;
    InParts(cur[..j], vir[..j], cur[j..k], vir[j..k]);
    assert cur[..j] + cur[j..k] == cur[..k] && vir[..j] + vir[j..k] == vir[..k];
    NothingNew(cur[j..k], vir[j..k]);
    var front, mid, rest := Cleared(cur[..j], vir[..j]), Cleared(cur[j..k], vir[j..k]), vir[k..];
    assert vir[j..] == vir[j..k] + rest;
    SameMiddle(front, mid, vir[j..k], rest);
  }
}
