/** What the hit-count classes are, and what a verdict says about every trace compared before. */
module CoverageHistory {
  import opened Words
  import opened CoverageMap

  /** A count enters a new class at each of these, and nowhere else. */
  predicate IsThreshold(h: byte) {
    h == 1 || h == 2 || h == 3 || h == 4 || h == 8 || h == 16 || h == 32 || h == 128
  }

  /** No threshold lies between the two counts. */
  predicate SameClass(a: byte, b: byte) {
    && (a < 1 <==> b < 1) && (a < 2 <==> b < 2) && (a < 3 <==> b < 3) && (a < 4 <==> b < 4)
    && (a < 8 <==> b < 8) && (a < 16 <==> b < 16) && (a < 32 <==> b < 32) && (a < 128 <==> b < 128)
  }

  /** A class is a single bit, never falls as counts grow, and rises exactly at the thresholds. */
  lemma ClassIsOneBit(h: byte)
    ensures Class8(0) == 0
    ensures h != 0 ==> Class8(h) != 0 && Class8(h) & (Class8(h) - 1) == 0
  {
  }

  lemma ClassRises(h: byte)
    requires h != 0
    ensures Class8(h - 1) <= Class8(h)
    ensures Class8(h - 1) < Class8(h) <==> IsThreshold(h)
  {
  }

  /** Two counts share a class exactly when no threshold is between them, and different classes share no bit. */
  lemma ClassesApart(a: byte, b: byte)
    ensures Meets(Class8(a), Class8(b)) <==> a != 0 && SameClass(a, b)
  {
  }

  // ----- Over a history of traces -----

  predicate AllOfSize(runs: seq<seq<byte>>, size: nat) {
    forall j :: 0 <= j < |runs| ==> |runs[j]| == size
  }

  /** The virgin map once the traces have been classified and compared one after the other. */
  ghost function VirginAfter(runs: seq<seq<byte>>, size: nat): (v: seq<byte>)
    requires AllOfSize(runs, size)
    ensures |v| == size
  {
    if runs == [] then seq(size, _ => 0xFF)
    else Cleared(Classified(runs[|runs| - 1]), VirginAfter(runs[..|runs| - 1], size))
  }

  ghost predicate NeverHit(runs: seq<seq<byte>>, size: nat, k: nat)
    requires AllOfSize(runs, size) && k < size
  {
    forall j :: 0 <= j < |runs| ==> runs[j][k] == 0
  }

  ghost predicate ClassUnseen(runs: seq<seq<byte>>, size: nat, k: nat, hits: byte)
    requires AllOfSize(runs, size) && k < size
  {
    forall j :: 0 <= j < |runs| ==> !SameClass(runs[j][k], hits)
  }

  /** A virgin byte once a count has been compared there. */
  function Spent(v: byte, now: byte): byte {
    v & !Class8(now)
  }

  lemma ClearedByte(hits: byte, now: byte, v: byte)
    requires hits != 0
    ensures Meets(Class8(hits), Spent(v, now)) <==> Meets(Class8(hits), v) && !SameClass(now, hits)
  {
  }

  lemma FullByte(now: byte, v: byte)
    ensures Spent(v, now) == 0xFF <==> v == 0xFF && now == 0
  {
  }

  lemma OneMoreRun(runs: seq<seq<byte>>, size: nat, k: nat, hits: byte)
    requires AllOfSize(runs, size) && k < size && runs != []
    ensures var n := |runs| - 1;
            && (NeverHit(runs, size, k) <==> NeverHit(runs[..n], size, k) && runs[n][k] == 0)
            && (ClassUnseen(runs, size, k, hits) <==> ClassUnseen(runs[..n], size, k, hits) && !SameClass(runs[n][k], hits))
            && VirginAfter(runs, size)[k] == Spent(VirginAfter(runs[..n], size)[k], runs[n][k])
  {
    hide SameClass, Class8;
    var n := |runs| - 1;
    assert forall j :: 0 <= j < n ==> runs[j] == runs[..n][j];
  }

  lemma FreshByte(hits: byte)
    requires hits != 0
    ensures Meets(Class8(hits), 0xFF)
  {
  }

  /** What is left of a virgin byte: the classes never seen there. */
  lemma {:induction false} VirginByte(runs: seq<seq<byte>>, size: nat, k: nat, hits: byte)
    requires AllOfSize(runs, size) && k < size && hits != 0
    ensures Meets(Class8(hits), VirginAfter(runs, size)[k]) <==> ClassUnseen(runs, size, k, hits)
    ensures VirginAfter(runs, size)[k] == 0xFF <==> NeverHit(runs, size, k)
  {
    hide Class8, Meets, Spent, SameClass;
    if runs == [] {
      FreshByte(hits);
    } else {
      var n := |runs| - 1;
      OneMoreRun(runs, size, k, hits);
      VirginByte(runs[..n], size, k, hits);
      ClearedByte(hits, runs[n][k], VirginAfter(runs[..n], size)[k]);
      FullByte(runs[n][k], VirginAfter(runs[..n], size)[k]);
    }
  }

  lemma NothingMeets(v: byte)
    ensures !Meets(0, v)
  {
  }

  /**
   * The verdict on a trace is 2 exactly when it hits a tuple none hit before, and not 0 exactly when a count is
   * in a class not seen there.
   */
  lemma VerdictOverHistory(runs: seq<seq<byte>>, trace: seq<byte>)
    requires AllOfSize(runs, |trace|)
    ensures Level(Classified(trace), VirginAfter(runs, |trace|)) == 2 <==>
            exists k :: 0 <= k < |trace| && trace[k] != 0 && NeverHit(runs, |trace|, k)
    ensures Level(Classified(trace), VirginAfter(runs, |trace|)) != 0 <==>
            exists k :: 0 <= k < |trace| && trace[k] != 0 && ClassUnseen(runs, |trace|, k, trace[k])
  {
    hide Class8, Meets, SameClass, VirginAfter, NeverHit, ClassUnseen;
    var size := |trace|;
    var cur, vir := Classified(trace), VirginAfter(runs, size);
    forall k | 0 <= k < size
      ensures trace[k] != 0 <==> cur[k] != 0
      ensures Meets(cur[k], vir[k]) <==> trace[k] != 0 && ClassUnseen(runs, size, k, trace[k])
      ensures trace[k] != 0 ==> (vir[k] == 0xFF <==> NeverHit(runs, size, k))
    {
      ClassIsOneBit(trace[k]);
      if trace[k] != 0 {
        VirginByte(runs, size, k, trace[k]);
      } else {
        NothingMeets(vir[k]);
      }
    }
    NothingNew(cur, vir);
  }
}
