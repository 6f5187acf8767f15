/** The four strategy tables afl_mutate draws its operators from. */
module HavocTables {
  import opened HavocEffects

  /** The operators in the order the tables hold them. */
  function AllOps(): (ops: seq<Op>)
    ensures |ops| == 37
  {
    [
      FlipBit, Interesting8, Interesting16, Interesting16BE, Interesting32, Interesting32BE, Arith8Minus,
      Arith8, Arith16Minus, Arith16BEMinus, Arith16, Arith16BE, Arith32Minus, Arith32BEMinus, Arith32,
      Arith32BE, Rand8, CloneCopy, CloneFixed, OverwriteCopy, OverwriteFixed, ByteAdd, ByteSub, Flip8,
      Switch, Del, Shuffle, DelOne, InsertOne, AsciiNum, InsertAsciiNum, ExtraOverwrite, ExtraInsert,
      AutoExtraOverwrite, AutoExtraInsert, SpliceOverwrite, SpliceInsert
    ]
  }

  /** How many of the 256 entries of each table an operator has. */
  function Counts(isText: bool, isExploration: bool): (counts: seq<nat>)
    ensures |counts| == 37
  {
    if isText then
      if isExploration then
        [
          6, 5, 5, 5, 5, 5, 6, 6, 6, 6, 6, 6, 6, 6, 6, 6, 6, 13, 10, 9, 8, 6, 6, 8, 8, 7, 8, 7, 6, 8, 8, 8,
          8, 6, 6, 9, 10
        ]
      else
        [
          7, 7, 7, 7, 8, 8, 6, 7, 6, 7, 7, 7, 6, 6, 6, 7, 7, 9, 8, 6, 6, 7, 6, 9, 7, 6, 7, 5, 6, 6, 8, 7, 7,
          7, 7, 7, 9
        ]
    else if isExploration then
      [
        7, 6, 6, 6, 6, 6, 7, 7, 6, 6, 6, 6, 6, 6, 7, 6, 6, 14, 9, 9, 7, 7, 7, 10, 7, 6, 6, 6, 6, 6, 6, 7, 7,
        6, 6, 8, 10
      ]
    else
      [
        7, 7, 7, 7, 8, 8, 6, 7, 6, 7, 7, 7, 6, 7, 7, 7, 7, 9, 8, 6, 6, 7, 6, 10, 7, 6, 6, 5, 6, 5, 7, 7, 7,
        7, 7, 7, 9
      ]
  }

  /** The entries of the first `k` operators. */
  function Entries(counts: seq<nat>, k: nat): seq<Op>
    requires |counts| == 37 && k <= 37
  {
    if k == 0 then [] else Entries(counts, k - 1) + seq(counts[k - 1], _ => AllOps()[k - 1])
  }

  function Table(isText: bool, isExploration: bool): seq<Op> {
    Entries(Counts(isText, isExploration), 37)
  }

  function Sum(counts: seq<nat>, k: nat): nat
    requires k <= |counts|
  {
    if k == 0 then 0 else Sum(counts, k - 1) + counts[k - 1]
  }

  /** The entries of operator `k`, if it never starts over. */
  function Share(counts: seq<nat>, k: nat): nat
    requires |counts| == 37 && k < 37
  {
    if k < 17 || 19 <= k < 28 then counts[k] else 0
  }

  function SteadySum(counts: seq<nat>, k: nat): nat
    requires |counts| == 37 && k <= 37
  {
    if k == 0 then 0 else SteadySum(counts, k - 1) + Share(counts, k - 1)
  }

  lemma WhichAreSteady(k: nat)
    requires k < 37
    ensures NeverRetries(AllOps()[k]) <==> k < 17 || 19 <= k < 28
  {
  }

  /** How many entries of a table hold an operator that never starts over. */
  ghost function Steady(table: seq<Op>): nat {
    if table == [] then 0 else Steady(table[..|table| - 1]) + if NeverRetries(table[|table| - 1]) then 1 else 0
  }

  lemma {:induction false} SteadyAppend(table: seq<Op>, op: Op, n: nat)
    ensures Steady(table + seq(n, _ => op)) == Steady(table) + if NeverRetries(op) then n else 0
    decreases n
  {
    if n == 0 {
      assert table + seq(0, _ => op) == table;
    } else {
      var more := table + seq(n, _ => op);
      assert more[..|more| - 1] == table + seq(n - 1, _ => op);
      SteadyAppend(table, op, n - 1);
    }
  }

  lemma {:induction false} EntriesAdd(counts: seq<nat>, k: nat)
    requires |counts| == 37 && k <= 37
    ensures |Entries(counts, k)| == Sum(counts, k) && Steady(Entries(counts, k)) == SteadySum(counts, k)
    decreases k
  {
    hide AllOps, NeverRetries;
    if k > 0 {
      EntriesAdd(counts, k - 1);
      WhichAreSteady(k - 1);
      SteadyAppend(Entries(counts, k - 1), AllOps()[k - 1], counts[k - 1]);
    }
  }

  lemma NoneYet(counts: seq<nat>)
    requires |counts| == 37
    ensures Sum(counts, 0) == 0 && SteadySum(counts, 0) == 0
  {
  }

  lemma OneMore(counts: seq<nat>, k: nat)
    requires |counts| == 37 && k < 37
    ensures Sum(counts, k + 1) == Sum(counts, k) + counts[k] && SteadySum(counts, k + 1) == SteadySum(counts, k) + Share(counts, k)
  {
  }

  lemma SixMore(counts: seq<nat>, k: nat)
    requires |counts| == 37 && k + 6 <= 37
    ensures Sum(counts, k + 6) ==
            Sum(counts, k) + counts[k] + counts[k + 1] + counts[k + 2] + counts[k + 3] + counts[k + 4] + counts[k + 5]
    ensures SteadySum(counts, k + 6) ==
            SteadySum(counts, k) + Share(counts, k) + Share(counts, k + 1) + Share(counts, k + 2) + Share(counts, k + 3)
            + Share(counts, k + 4) + Share(counts, k + 5)
  {
    hide Sum, SteadySum, Share;
    OneMore(counts, k);
    OneMore(counts, k + 1);
    OneMore(counts, k + 2);
    OneMore(counts, k + 3);
    OneMore(counts, k + 4);
    OneMore(counts, k + 5);
  }

  lemma InFull(counts: seq<nat>)
    requires |counts| == 37
    ensures Sum(counts, 37) ==
            counts[0] + counts[1] + counts[2] + counts[3] + counts[4] + counts[5] + counts[6] + counts[7] +
            counts[8] + counts[9] + counts[10] + counts[11] + counts[12] + counts[13] + counts[14] +
            counts[15] + counts[16] + counts[17] + counts[18] + counts[19] + counts[20] + counts[21] +
            counts[22] + counts[23] + counts[24] + counts[25] + counts[26] + counts[27] + counts[28] +
            counts[29] + counts[30] + counts[31] + counts[32] + counts[33] + counts[34] + counts[35] +
            counts[36]
    ensures SteadySum(counts, 37) ==
            counts[0] + counts[1] + counts[2] + counts[3] + counts[4] + counts[5] + counts[6] + counts[7] +
            counts[8] + counts[9] + counts[10] + counts[11] + counts[12] + counts[13] + counts[14] +
            counts[15] + counts[16] + counts[19] + counts[20] + counts[21] + counts[22] + counts[23] +
            counts[24] + counts[25] + counts[26] + counts[27]
  {
    hide Sum, SteadySum;
    NoneYet(counts);
    SixMore(counts, 0);
    SixMore(counts, 6);
    SixMore(counts, 12);
    SixMore(counts, 18);
    SixMore(counts, 24);
    SixMore(counts, 30);
    OneMore(counts, 36);
  }

  lemma Totals(isText: bool, isExploration: bool)
    ensures Sum(Counts(isText, isExploration), 37) == 256
    ensures SteadySum(Counts(isText, isExploration), 37) ==
            if isText then if isExploration then 164 else 175 else if isExploration then 171 else 177
  {
    hide Sum, SteadySum;
    InFull(Counts(isText, isExploration));
  }

  /** Each table has MUT_STRATEGY_ARRAY_SIZE entries, and most of them never start over. */
  lemma TableSizes(isText: bool, isExploration: bool)
    ensures |Table(isText, isExploration)| == 256
    ensures Steady(Table(isText, isExploration)) ==
            if isText then if isExploration then 164 else 175 else if isExploration then 171 else 177
  {
    EntriesAdd(Counts(isText, isExploration), 37);
    Totals(isText, isExploration);
  }

  /** A table with steady entries has one somewhere. */
  lemma {:induction false} SteadyEntry(table: seq<Op>) returns (k: nat)
    requires Steady(table) > 0
    ensures k < |table| && NeverRetries(table[k])
  {
    hide NeverRetries;
    var n := |table| - 1;
    if NeverRetries(table[n]) {
      k := n;
    } else {
      k := SteadyEntry(table[..n]);
    }
  }
}
