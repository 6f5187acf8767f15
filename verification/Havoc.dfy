/** afl_mutate: 37 operators on one buffer, in place. */
module Havoc {
  import opened Words
  import opened HavocNumber
  import opened HavocShuffle
  import opened HavocEffects
  import opened HavocTables

  function Min(a: nat, b: nat): nat {
    if a < b then a else b
  }

  /** choose_block_len. */
  method ChooseBlockLen(env: Env, limit: nat) returns (n: nat)
    ensures IsBlockLen(limit, n)
    ensures !env.runOver10m ==> n <= 32
  {
    var minValue, maxValue: nat := 1, 32;
    var rlim := if env.runOver10m then Min(env.queueCycle, 3) else 1;
    var r := RandBelow(rlim);
    if r == 1 {
      minValue, maxValue := 32, 128;
    } else if r > 1 {
      var d := RandBelow(10);
      if d != 0 {
        minValue, maxValue := 128, 1500;
      } else {
        minValue, maxValue := 1500, 32768;
      }
    }
    if minValue >= limit {
      minValue := 1;
    }
    var more := RandBelow(Min(maxValue, limit) - minValue + 1);
    n := minValue + more;
  }

  method RandByte() returns (b: byte)
  {
    b :| true;
  }

  predicate IsMask(b: byte) { b != 0 }

  method RandWord() returns (n: nat)
    ensures n < 0x1_0000_0000_0000_0000
  {
    n :| 0 <= n < 0x1_0000_0000_0000_0000;
  }

  /** Draws until the place differs. */
  method OtherThan(len: nat, i: nat) returns (j: nat)
    requires len >= 2 && i < len
    ensures j < len && j != i
  {
    assert 0 != i || 1 != i;
    j :| j < len && j != i;
  }

  method ArithByte(env: Env, op: Op, was: byte) returns (now: byte)
    requires op.Arith8Minus? || op.Arith8?
    ensures ByteStep(env, op, was, now)
  {
    assert IsStep8(1);
    hide IsStep8;
    var item: byte :| IsStep8(item);
    if op.Arith8Minus? {
      now := was - item;
    } else {
      now := was + item;
    }
  }

  lemma MaskMoves(a: byte, b: byte)
    requires b != 0
    ensures a ^ b != a
  {
  }

  method RandomChange(was: byte) returns (now: byte)
    ensures now != was
  {
    assert IsMask(1);
    var mask: byte :| IsMask(mask);
    assert IsMask(mask);
    MaskMoves(was, mask);
    now := was ^ mask;
  }

  method OtherByte(env: Env, op: Op, was: byte) returns (now: byte)
    requires op.Rand8? || op.ByteAdd? || op.ByteSub? || op.Flip8?
    ensures ByteStep(env, op, was, now)
  {
    if op.Rand8? {
      now := RandomChange(was);
    } else if op.ByteAdd? {
      now := was + 1;
    } else if op.ByteSub? {
      now := was - 1;
    } else {
      now := was ^ 0xFF;
    }
  }

  method FlipOneBit(was: byte) returns (now: byte)
    ensures was ^ now in [1, 2, 4, 8, 16, 32, 64, 128]
  {
    var bit := RandBelow(8);
    var masks: seq<byte> := [1, 2, 4, 8, 16, 32, 64, 128];
    now := was ^ masks[bit];
    assert was ^ now == masks[bit];
  }

  method NextByte(env: Env, op: Op, was: byte) returns (now: byte)
    requires env.Ok() && IsByteOp(op)
    ensures ByteStep(env, op, was, now)
  {
    if op.FlipBit? {
      now := FlipOneBit(was);
    } else if op.Interesting8? {
      var item := RandBelow(|env.interesting8|);
      now := env.interesting8[item];
    } else if op.Arith8Minus? || op.Arith8? {
      now := ArithByte(env, op, was);
    } else {
      now := OtherByte(env, op, was);
    }
  }

  method ArithWord16(env: Env, op: Op, was: bv16) returns (now: bv16)
    requires IsWordOp16(op) && !op.Interesting16? && !op.Interesting16BE?
    ensures WordStep16(env, op, was, now)
  {
    assert IsStep16(1);
    hide Swap16, IsStep16;
    var item: bv16 :| IsStep16(item);
    if op.Arith16Minus? {
      now := was - item;
    } else if op.Arith16BEMinus? {
      now := Swap16(Swap16(was) - item);
    } else if op.Arith16? {
      now := was + item;
    } else {
      now := Swap16(Swap16(was) + item);
    }
  }

  method NextWord16(env: Env, op: Op, was: bv16) returns (now: bv16)
    requires env.Ok() && IsWordOp16(op)
    ensures WordStep16(env, op, was, now)
  {
    hide Swap16;
    if op.Interesting16? || op.Interesting16BE? {
      var pick := RandBelow(|env.interesting16|);
      now := if op.Interesting16? then env.interesting16[pick] else Swap16(env.interesting16[pick]);
      SwapTwice16(env.interesting16[pick]);
    } else {
      now := ArithWord16(env, op, was);
    }
  }

  method ArithWord32(env: Env, op: Op, was: u32) returns (now: u32)
    requires IsWordOp32(op) && !op.Interesting32? && !op.Interesting32BE?
    ensures WordStep32(env, op, was, now)
  {
    assert IsStep32(1);
    hide Swap32, IsStep32;
    var item: u32 :| IsStep32(item);
    if op.Arith32Minus? {
      now := was - item;
    } else if op.Arith32BEMinus? {
      now := Swap32(Swap32(was) - item);
    } else if op.Arith32? {
      now := was + item;
    } else {
      now := Swap32(Swap32(was + item));
      SwapTwice32(was + item);
    }
  }

  method NextWord32(env: Env, op: Op, was: u32) returns (now: u32)
    requires env.Ok() && IsWordOp32(op)
    ensures WordStep32(env, op, was, now)
  {
    hide Swap32;
    if op.Interesting32? || op.Interesting32BE? {
      var pick := RandBelow(|env.interesting32|);
      now := if op.Interesting32? then env.interesting32[pick] else Swap32(env.interesting32[pick]);
      SwapTwice32(env.interesting32[pick]);
    } else {
      now := ArithWord32(env, op, was);
    }
  }

  /** Giving up the last digit leaves one. */
  lemma SomethingStays(s: seq<byte>, off: nat, end: nat, strat: nat, val: int, result: int, shrinks: bool)
    requires IsLongestRun(s, off, end) && val == Signed(s, off, end) && Strategy(strat, val, result, shrinks)
    ensures shrinks ==> off < end - 1
  {
    hide Strategy, Decimal;
    StrategyFits(strat, val, result, shrinks);
    if shrinks {
      LargeNeedsDigits(s[off..end]);
    }
  }

  /** The number at `off`, with its sign, and what a randomly chosen strategy makes of it. */
  method PickNumber(s: seq<byte>, off: nat) returns (end: nat, strat: nat, result: int, shrinks: bool)
    requires off < |s| && IsDigit(s[off])
    ensures off < end <= |s| && NumberChanged(s, off, end, if shrinks then end - 1 else end, strat, result)
  {
    hide Strategy, Decimal, AllDigits;
    var size: nat;
    size, end := ReadNumber(s, off);
    var val: int := size;
    if off > 0 && s[off - 1] == 45 {
      val := -val;
    }
    strat := RandBelow(8);
    result, shrinks := Change(val, strat);
    SomethingStays(s, off, end, strat, val, result, shrinks);
  }

  /** memcpy: up to its end the buffer is what it was followed by the copy. */
  method Paste(dst: array<byte>, at: nat, src: seq<byte>)
    requires at + |src| <= dst.Length
    modifies dst
    ensures dst[..at + |src|] == old(dst[..at]) + src
    ensures dst[at + |src|..] == old(dst[at + |src|..])
  {
    MemCpy(dst, at, src);
  }

  method PasteFront(dst: array<byte>, src: seq<byte>)
    requires |src| <= dst.Length
    modifies dst
    ensures dst[..|src|] == src
    ensures dst[|src|..] == old(dst[|src|..])
  {
    ghost var front := dst[..0];
    Paste(dst, 0, src);
    assert front + src == src;
  }

  /** The parts past `i` of a buffer, in terms of the rest after `i`. */
  lemma SplitAt(b: seq<byte>, i: nat, j: nat, k: nat)
    requires i <= j <= k <= |b|
    ensures b[..j] == b[..i] + b[i..][..j - i] && b[k..] == b[i..][k - i..]
  {
  }

  /** The tail first moves to its new place; then the gap is overwritten. */
  lemma GapFilled(was: seq<byte>, mid: seq<byte>, now: seq<byte>, at: nat, x: seq<byte>, len: nat, m: nat)
    requires |was| == |mid| == |now| && at <= len && len + |x| <= m <= |was|
    requires mid[..len + |x|] == was[..at + |x|] + was[at..len] && mid[len + |x|..] == was[len + |x|..]
    requires now[..at + |x|] == mid[..at] + x && now[at + |x|..] == mid[at + |x|..]
    ensures now[..len + |x|] == Replace(was[..len], at, at, x) && now[m..] == was[m..]
  {
    var n := len + |x|;
    SplitAt(was, n, n, m);
    SplitAt(mid, n, n, m);
    SplitAt(now, at + |x|, n, m);
    SplitAt(mid, at + |x|, n, m);
    assert mid[..at] == mid[..n][..at] == was[..at] == was[..len][..at];
    assert now[at + |x|..n] == now[at + |x|..][..len - at] == mid[at + |x|..n] == mid[..n][at + |x|..] == was[at..len];
    assert now[..n] == now[..at + |x|] + now[at + |x|..n];
  }

  lemma SliceOfFront(b: seq<byte>, i: nat, j: nat, len: nat)
    requires i <= j <= len <= |b|
    ensures b[..len][i..j] == b[i..j]
  {
  }

  lemma BlockReplaced(was: seq<byte>, now: seq<byte>, off: nat, n: nat, x: seq<byte>, len: nat, m: nat)
    requires |was| == |now| && off + n <= len <= m <= |was| && |x| == n
    requires now[..off] == was[..off] && now[off..off + n] == x && now[off + n..] == was[off + n..]
    ensures now[..len] == Overwrite(was[..len], off, x) && now[m..] == was[m..]
  {
    SplitAt(was, off + n, len, m);
    SplitAt(now, off + n, len, m);
    assert now[..off + n] == was[..off] + x;
    var tail := was[off + n..][..len - (off + n)];
    assert was[..len] == was[..off + n] + tail;
    assert was[..len][off + n..] == tail && was[..len][..off] == was[..off];
    assert now[..len] == was[..off] + x + tail;
  }

  lemma ByteEffect(env: Env, maxLen: nat, op: Op, s: seq<byte>, t: seq<byte>, off: nat)
    requires IsByteOp(op) && BytePoked(env, op, s, t, off)
    ensures Effect(env, maxLen, op, s, Done(t))
  {
  }

  lemma Word16Effect(env: Env, maxLen: nat, op: Op, s: seq<byte>, t: seq<byte>, pos: nat, now: bv16)
    requires IsWordOp16(op) && Word16Poked(env, op, s, t, pos, now) && |s| >= 2
    ensures Effect(env, maxLen, op, s, Done(t))
  {
    hide Word16Poked;
  }

  lemma Word32Effect(env: Env, maxLen: nat, op: Op, s: seq<byte>, t: seq<byte>, pos: nat, now: u32)
    requires IsWordOp32(op) && Word32Poked(env, op, s, t, pos, now) && |s| >= 4
    ensures Effect(env, maxLen, op, s, Done(t))
  {
    hide Word32Poked;
  }

  lemma ShortEffect(env: Env, maxLen: nat, op: Op, s: seq<byte>)
    requires (IsWordOp16(op) && |s| < 2) || (IsWordOp32(op) && |s| < 4)
    ensures Effect(env, maxLen, op, s, Done(s))
  {
  }

  lemma OverwriteBySelf(s: seq<byte>, from: nat, n: nat)
    requires from + n <= |s|
    ensures Overwrite(s, from, s[from..from + n]) == s
  {
  }

  // ----- Runs -----

  datatype Try = Try(op: Op, before: seq<byte>, outcome: Outcome)

  /** The tries lead from one text to the other; one that gives up leaves the text as it was. */
  ghost predicate IsRun(env: Env, maxLen: nat, strategy: seq<Op>, s: seq<byte>, run: seq<Try>, t: seq<byte>) {
    if run == [] then t == s
    else
      var last := run[|run| - 1];
      && last.op in strategy && Effect(env, maxLen, last.op, last.before, last.outcome)
      && IsRun(env, maxLen, strategy, s, run[..|run| - 1], last.before)
      && t == if last.outcome.Done? then last.outcome.text else last.before
  }

  /** How many tries completed a step. */
  ghost function Completed(run: seq<Try>): (n: nat)
    ensures n <= |run|
  {
    if run == [] then 0 else Completed(run[..|run| - 1]) + if run[|run| - 1].outcome.Done? then 1 else 0
  }

  lemma EmptyRun(env: Env, maxLen: nat, strategy: seq<Op>, s: seq<byte>)
    ensures IsRun(env, maxLen, strategy, s, [], s) && Completed([]) == 0
  {
  }

  lemma OneMoreTry(env: Env, maxLen: nat, strategy: seq<Op>, s: seq<byte>, run: seq<Try>, last: Try, t: seq<byte>)
    requires IsRun(env, maxLen, strategy, s, run, last.before)
    requires last.op in strategy && Effect(env, maxLen, last.op, last.before, last.outcome)
    requires t == if last.outcome.Done? then last.outcome.text else last.before
    ensures IsRun(env, maxLen, strategy, s, run + [last], t)
    ensures Completed(run + [last]) == Completed(run) + if last.outcome.Done? then 1 else 0
  {
  }

  ghost function NeverRetrying(run: seq<Try>): (n: nat) {
    if run == [] then 0 else NeverRetrying(run[..|run| - 1]) + if NeverRetries(run[|run| - 1].op) then 1 else 0
  }

  /** However many steps and whatever is drawn, the text keeps a length between one and the most allowed. */
  lemma {:induction false} RunKeepsLength(env: Env, maxLen: nat, strategy: seq<Op>, s: seq<byte>, run: seq<Try>, t: seq<byte>)
    requires 1 <= |s| <= maxLen && IsRun(env, maxLen, strategy, s, run, t)
    ensures 1 <= |t| <= maxLen
  {
    hide Effect;
    if run != [] {
      var last := run[|run| - 1];
      RunKeepsLength(env, maxLen, strategy, s, run[..|run| - 1], last.before);
      if last.outcome.Done? {
        EffectKeepsLength(env, maxLen, last.op, last.before, last.outcome);
      }
    }
  }

  /** Every draw of an operator that never gives up completes a step, wherever the run stands. */
  lemma {:induction false} ProgressIsMade(env: Env, maxLen: nat, strategy: seq<Op>, s: seq<byte>, run: seq<Try>, t: seq<byte>)
    requires 1 <= |s| <= maxLen && IsRun(env, maxLen, strategy, s, run, t)
    ensures Completed(run) >= NeverRetrying(run)
  {
    hide Effect, NeverRetries;
    if run != [] {
      var last := run[|run| - 1];
      RunKeepsLength(env, maxLen, strategy, s, run[..|run| - 1], last.before);
      ProgressIsMade(env, maxLen, strategy, s, run[..|run| - 1], last.before);
      if last.outcome.Retry? {
        WhoRetries(env, maxLen, last.op, last.before, last.outcome);
      }
    }
  }

  class Mutator {
    const env: Env
    const buf: array<byte>
    const tmp: array<byte>
    const maxLen: nat
    var len: nat

    ghost predicate Valid()
      reads this
    {
      env.Ok() && buf != tmp && 1 <= len <= maxLen <= buf.Length && maxLen <= tmp.Length
    }

    function Text(): (s: seq<byte>)
      requires len <= buf.Length
      reads this, buf
      ensures |s| == len
    {
      buf[..len]
    }

    constructor (env: Env, buf: array<byte>, tmp: array<byte>, len: nat, maxLen: nat)
      requires env.Ok() && buf != tmp && 1 <= len <= maxLen <= buf.Length && maxLen <= tmp.Length
      ensures Valid() && this.env == env && this.buf == buf && this.tmp == tmp && this.len == len && this.maxLen == maxLen
    {
      this.env, this.buf, this.tmp, this.len, this.maxLen := env, buf, tmp, len, maxLen;
    }

    // ----- Moving bytes -----

    /** memcpy or memset into the text; nothing past its end is touched. */
    method Put(at: nat, x: seq<byte>)
      requires Valid() && at + |x| <= len
      modifies buf
      ensures Text() == Overwrite(old(Text()), at, x)
      ensures buf[maxLen..] == old(buf[maxLen..])
    {
      ghost var was := buf[..];
      Paste(buf, at, x);
      SplitAt(was, at + |x|, len, maxLen);
      SplitAt(buf[..], at + |x|, len, maxLen);
    }

    /** Head, new middle and tail are put together in the second buffer. */
    method Assemble(from: nat, to: nat, x: seq<byte>, newLen: nat)
      requires Valid() && from <= to <= len && newLen == len - (to - from) + |x| <= maxLen
      modifies tmp
      ensures tmp[..newLen] == Replace(Text(), from, to, x)
    {
      var text := Text();
      PasteFront(tmp, text[..from]);
      Paste(tmp, from, x);
      assert tmp[..from + |x|] == text[..from] + x;
      Paste(tmp, from + |x|, text[to..]);
    }

    /** What was put together is copied back. */
    method Splice(from: nat, to: nat, x: seq<byte>)
      requires Valid() && from <= to <= len && 1 <= len - (to - from) + |x| <= maxLen
      modifies this`len, buf, tmp
      ensures Valid() && Text() == Replace(old(Text()), from, to, x)
      ensures buf[maxLen..] == old(buf[maxLen..])
    {
      hide Replace;
      var newLen := len - (to - from) + |x|;
      Assemble(from, to, x, newLen);
      ghost var was := buf[..];
      PasteFront(buf, tmp[..newLen]);
      SplitAt(was, newLen, newLen, maxLen);
      SplitAt(buf[..], newLen, newLen, maxLen);
      len := newLen;
    }

    /** The tail moves up inside the buffer, and the new middle goes into the gap. */
    method MakeRoom(at: nat, x: seq<byte>)
      requires Valid() && at <= len && len + |x| <= maxLen
      modifies this`len, buf
      ensures Valid() && Text() == Replace(old(Text()), at, at, x)
      ensures buf[maxLen..] == old(buf[maxLen..])
    {
      ghost var was := buf[..];
      var newLen := len + |x|;
      Paste(buf, at + |x|, buf[at..len]);
      ghost var mid := buf[..];
      Paste(buf, at, x);
      GapFilled(was, mid, buf[..], at, x, len, maxLen);
      len := newLen;
    }

    /** The tail moves down over what is deleted. */
    method Close(from: nat, n: nat)
      requires Valid() && from + n <= len && n < len
      modifies this`len, buf
      ensures Valid() && Text() == Replace(old(Text()), from, from + n, [])
      ensures buf[maxLen..] == old(buf[maxLen..])
    {
      ghost var was := buf[..];
      Paste(buf, from, buf[from + n..len]);
      SplitAt(was, len - n, len - n, maxLen);
      SplitAt(buf[..], len - n, len - n, maxLen);
      len := len - n;
    }

    // ----- The operators -----

    ghost function Result(done: bool): Outcome
      requires len <= buf.Length
      reads this, buf
    {
      if done then Done(Text()) else Retry
    }

    method ByteOp(op: Op)
      requires Valid() && IsByteOp(op)
      modifies buf
      ensures Effect(env, maxLen, op, old(Text()), Done(Text()))
      ensures buf[maxLen..] == old(buf[maxLen..])
    {
      hide Effect, ByteStep;
      var off := RandBelow(len);
      var now := NextByte(env, op, buf[off]);
      ghost var s := Text();
      buf[off] := now;
      ByteEffect(env, maxLen, op, s, Text(), off);
    }

    method WordOp16(op: Op)
      requires Valid() && IsWordOp16(op)
      modifies buf
      ensures Effect(env, maxLen, op, old(Text()), Done(Text()))
      ensures buf[maxLen..] == old(buf[maxLen..])
    {
      hide Effect, WordStep16, Bytes16, Get16, Overwrite;
      if len < 2 {
        ShortEffect(env, maxLen, op, Text());
        return;
      }
      var pos := RandBelow(len - 1);
      ghost var s := Text();
      var now := NextWord16(env, op, Get16(Text(), pos));
      Put(pos, Bytes16(now));
      Word16Effect(env, maxLen, op, s, Text(), pos, now);
    }

    method WordOp32(op: Op)
      requires Valid() && IsWordOp32(op)
      modifies buf
      ensures Effect(env, maxLen, op, old(Text()), Done(Text()))
      ensures buf[maxLen..] == old(buf[maxLen..])
    {
      hide Effect, WordStep32, Bytes32, ReadLE32, Overwrite;
      if len < 4 {
        ShortEffect(env, maxLen, op, Text());
        return;
      }
      var pos := RandBelow(len - 3);
      ghost var s := Text();
      var now := NextWord32(env, op, ReadLE32(Text(), pos));
      Put(pos, Bytes32(now));
      Word32Effect(env, maxLen, op, s, Text(), pos, now);
    }

    /** A random byte or the one before the place. */
    method FillByte(at: nat) returns (b: byte)
      requires Valid() && at <= len
    {
      var strat := RandBelow(2);
      if strat != 0 {
        b := RandByte();
      } else {
        b := buf[if at > 0 then at - 1 else 0];
      }
    }

    method DoCloneCopy() returns (done: bool)
      requires Valid()
      modifies this`len, buf, tmp
      ensures Valid() && Effect(env, maxLen, CloneCopy, old(Text()), Result(done))
      ensures !done ==> Text() == old(Text())
      ensures buf[maxLen..] == old(buf[maxLen..])
    {
      hide Replace;
      if len + 32768 < maxLen {
        ghost var s := Text();
        var n := ChooseBlockLen(env, len);
        var from := RandBelow(len - n + 1);
        var to := RandBelow(len);
        var block := Text()[from..from + n];
        Splice(to, to, block);
        assert BlockInserted(s, Text(), s, from, n, to);
        return true;
      }
      return len < 8;
    }

    method DoCloneFixed() returns (done: bool)
      requires Valid()
      modifies this`len, buf, tmp
      ensures Valid() && Effect(env, maxLen, CloneFixed, old(Text()), Result(done))
      ensures !done ==> Text() == old(Text())
      ensures buf[maxLen..] == old(buf[maxLen..])
    {
      hide Replace, Fill;
      if len + 32768 < maxLen {
        ghost var s := Text();
        var n := ChooseBlockLen(env, 32768);
        var to := RandBelow(len);
        var item := FillByte(to);
        Splice(to, to, Fill(n, item));
        assert FillInserted(s, Text(), n, item, to);
        return true;
      }
      return len < 8;
    }

    method DoOverwriteCopy()
      requires Valid()
      modifies buf
      ensures Effect(env, maxLen, OverwriteCopy, old(Text()), Done(Text()))
      ensures buf[maxLen..] == old(buf[maxLen..])
    {
      hide Overwrite;
      if len < 2 {
        return;
      }
      ghost var s := Text();
      var n := ChooseBlockLen(env, len - 1);
      var from := RandBelow(len - n + 1);
      var to := RandBelow(len - n + 1);
      if from != to {
        var block := Text()[from..from + n];
        Put(to, block);
      } else {
        OverwriteBySelf(s, from, n);
      }
      assert BlockOverwritten(s, Text(), s, from, n, to);
    }

    method DoOverwriteFixed()
      requires Valid()
      modifies buf
      ensures Effect(env, maxLen, OverwriteFixed, old(Text()), Done(Text()))
      ensures buf[maxLen..] == old(buf[maxLen..])
    {
      hide Overwrite, Fill;
      if len < 2 {
        return;
      }
      ghost var s := Text();
      var n := ChooseBlockLen(env, len - 1);
      var to := RandBelow(len - n + 1);
      var item := FillByte(to);
      Put(to, Fill(n, item));
      assert FillOverwritten(s, Text(), n, item, to);
    }

    method SwitchBlocks(i: nat, j: nat, n: nat)
      requires Valid() && i + n <= len && j + n <= len
      modifies buf, tmp
      ensures Text() == Exchange(old(Text()), i, j, n)
      ensures buf[maxLen..] == old(buf[maxLen..])
    {
      hide Overwrite;
      ghost var s := Text();
      var first := Text()[i..i + n];
      PasteFront(tmp, first);
      var block := Text()[j..j + n];
      Put(i, block);
      Put(j, tmp[..n]);
    }

    method DoSwitch()
      requires Valid()
      modifies buf, tmp
      ensures Effect(env, maxLen, Switch, old(Text()), Done(Text()))
      ensures buf[maxLen..] == old(buf[maxLen..])
    {
      hide Exchange;
      if len < 4 {
        return;
      }
      ghost var s := Text();
      var from := RandBelow(len);
      var to := OtherThan(len, from);
      var n, toEnd := if from < to then to - from else from - to, len - if from < to then to else from;
      n := ChooseBlockLen(env, Min(n, toEnd));
      SwitchBlocks(from, to, n);
      assert BlocksSwitched(s, Text(), from, to, n);
    }

    method DoDel(op: Op)
      requires Valid() && (op.Del? || op.DelOne?)
      modifies this`len, buf
      ensures Valid() && Effect(env, maxLen, op, old(Text()), Done(Text()))
      ensures buf[maxLen..] == old(buf[maxLen..])
    {
      hide Replace;
      if len < 2 {
        return;
      }
      ghost var s := Text();
      var n: nat := 1;
      if op.Del? {
        n := ChooseBlockLen(env, len - 1);
      }
      var from := RandBelow(len - n + 1);
      Close(from, n);
      assert BlockDeleted(s, Text(), from, n);
    }

    method ShuffleAt(off: nat, n: nat) returns (ghost p: seq<nat>, ghost c: seq<nat>)
      requires Valid() && 1 <= n < len && off + n <= len
      modifies buf
      ensures BlockShuffled(old(Text()), Text(), off, p, c) && |p| == n
      ensures buf[maxLen..] == old(buf[maxLen..])
    {
      hide SingleCycle, Permuted, Overwrite;
      ghost var s, was := Text(), buf[..];
      p, c := ShuffleBlock(buf, off, n);
      SliceOfFront(was, off, off + n, len);
      BlockReplaced(was, buf[..], off, n, Permuted(s[off..off + n], p), len, maxLen);
    }

    method DoShuffle()
      requires Valid()
      modifies buf
      ensures Effect(env, maxLen, Shuffle, old(Text()), Done(Text()))
      ensures buf[maxLen..] == old(buf[maxLen..])
    {
      hide BlockShuffled;
      if len < 4 {
        return;
      }
      var n := ChooseBlockLen(env, len - 1);
      var off := RandBelow(len - n + 1);
      ghost var p, c := ShuffleAt(off, n);
    }

    method DoInsertOne() returns (done: bool)
      requires Valid()
      modifies this`len, buf, tmp
      ensures Valid() && Effect(env, maxLen, InsertOne, old(Text()), Result(done))
      ensures !done ==> Text() == old(Text())
      ensures buf[maxLen..] == old(buf[maxLen..])
    {
      hide Replace, Fill;
      if len < 2 {
        return true;
      }
      if len + 1 > maxLen {
        return false;
      }
      ghost var s := Text();
      var to := RandBelow(len);
      var item := FillByte(to);
      Splice(to, to, Fill(1, item));
      assert FillInserted(s, Text(), 1, item, to);
      return true;
    }

    /** The number found is replaced by another one, unless that would not fit. */
    method ChangeNumber(ghost start: nat, off: nat) returns (done: bool)
      requires Valid() && IsNextDigit(Text(), start, off) && off < len && IsDigit(Text()[off])
      modifies this`len, buf, tmp
      ensures Valid() && AsciiNumEffect(old(Text()), maxLen, Result(done))
      ensures !done ==> Text() == old(Text())
      ensures buf[maxLen..] == old(buf[maxLen..])
    {
      hide Replace, IsLongestRun, IsNextDigit, Strategy, NumberText, Decimal, AllDigits;
      ghost var s := Text();
      var end, strat, result, shrinks := PickNumber(Text(), off);
      var end2 := if shrinks then end - 1 else end;
      var text := NumberText(result);
      if |text| == end2 - off {
        Put(off, text);
        done := true;
      } else if len - (end2 - off) + |text| > maxLen {
        done := false;
      } else {
        Splice(off, end2, text);
        done := true;
      }
      assert NumberEffect(s, maxLen, Result(done), start, off, end, end2, strat, result);
    }

    method DoAsciiNum() returns (done: bool)
      requires Valid()
      modifies this`len, buf, tmp
      ensures Valid() && Effect(env, maxLen, AsciiNum, old(Text()), Result(done))
      ensures !done ==> Text() == old(Text())
      ensures buf[maxLen..] == old(buf[maxLen..])
    {
      hide AsciiNumEffect, IsNextDigit;
      if len < 4 {
        return true;
      }
      var start := RandBelow(len);
      var found, off := FindDigit(Text(), start);
      if !found {
        return len < 8;
      }
      done := ChangeNumber(start, off);
    }

    method DoInsertAsciiNum() returns (done: bool)
      requires Valid()
      modifies buf
      ensures Effect(env, maxLen, InsertAsciiNum, old(Text()), Result(done))
      ensures !done ==> Text() == old(Text())
      ensures buf[maxLen..] == old(buf[maxLen..])
    {
      hide Overwrite, LastDigits;
      var more := RandBelow(8);
      var n := 1 + more;
      var pos := RandBelow(len);
      if len < pos + n {
        return len < 8;
      }
      ghost var s := Text();
      var val := RandWord();
      Put(pos, LastDigits(val, n));
      assert DigitsPut(s, Text(), pos, n, val);
      return true;
    }

    method UseEntry(op: Op) returns (done: bool)
      requires Valid() && IsExtraOp(op)
      modifies this`len, buf
      ensures Valid() && ExtraEffect(op, Dictionary(env, op), old(Text()), maxLen, Result(done))
      ensures !done ==> Text() == old(Text())
      ensures buf[maxLen..] == old(buf[maxLen..])
    {
      hide Overwrite, Replace, Dictionary;
      var dict := Dictionary(env, op);
      if dict == [] {
        return false;
      }
      ghost var s := Text();
      var use := RandBelow(|dict|);
      var x := dict[use];
      var at: nat;
      if Overwrites(op) {
        if |x| > len {
          return false;
        }
        at := RandBelow(len - |x| + 1);
        Put(at, x);
      } else {
        if len + |x| > maxLen {
          return false;
        }
        at := RandBelow(len + 1);
        MakeRoom(at, x);
      }
      assert ExtraUsed(op, dict[use], s, maxLen, Text(), at);
      return true;
    }

    method DoExtra(op: Op) returns (done: bool)
      requires Valid() && IsExtraOp(op)
      modifies this`len, buf
      ensures Valid() && Effect(env, maxLen, op, old(Text()), Result(done))
      ensures !done ==> Text() == old(Text())
      ensures buf[maxLen..] == old(buf[maxLen..])
    {
      hide ExtraEffect, Text;
      done := UseEntry(op);
    }

    method DoSpliceOverwrite() returns (done: bool)
      requires Valid()
      modifies buf
      ensures Effect(env, maxLen, SpliceOverwrite, old(Text()), Result(done))
      ensures !done ==> Text() == old(Text())
      ensures buf[maxLen..] == old(buf[maxLen..])
    {
      hide Overwrite;
      if env.splice == [] {
        return false;
      }
      ghost var s := Text();
      var n := ChooseBlockLen(env, |env.splice| - 1);
      if n > len {
        n := len;
      }
      var from := RandBelow(|env.splice| - n + 1);
      var to := RandBelow(len - n + 1);
      Put(to, env.splice[from..from + n]);
      assert BlockOverwritten(s, Text(), env.splice, from, n, to);
      return true;
    }

    method DoSpliceInsert() returns (done: bool)
      requires Valid()
      modifies this`len, buf, tmp
      ensures Valid() && Effect(env, maxLen, SpliceInsert, old(Text()), Result(done))
      ensures !done ==> Text() == old(Text())
      ensures buf[maxLen..] == old(buf[maxLen..])
    {
      hide Replace;
      if env.splice == [] || len + 32768 > maxLen {
        return false;
      }
      ghost var s := Text();
      var n := ChooseBlockLen(env, |env.splice|);
      var from := RandBelow(|env.splice| - n + 1);
      var to := RandBelow(len + 1);
      Splice(to, to, env.splice[from..from + n]);
      assert BlockInserted(s, Text(), env.splice, from, n, to);
      return true;
    }

    /** One try at one operator. A try that gives up has changed nothing. */
    method Attempt(op: Op) returns (done: bool)
      requires Valid()
      modifies this`len, buf, tmp
      ensures Valid() && Effect(env, maxLen, op, old(Text()), Result(done))
      ensures !done ==> Text() == old(Text()) && !NeverRetries(op)
      ensures buf[maxLen..] == old(buf[maxLen..])
    {
      ghost var s := Text();
      hide Effect, Text;
      done := true;
      if IsByteOp(op) {
        ByteOp(op);
      } else if IsWordOp16(op) {
        WordOp16(op);
      } else if IsWordOp32(op) {
        WordOp32(op);
      } else if IsExtraOp(op) {
        done := DoExtra(op);
      } else if op.Del? || op.DelOne? {
        DoDel(op);
      } else {
        match op {
          case CloneCopy => done := DoCloneCopy();
          case CloneFixed => done := DoCloneFixed();
          case OverwriteCopy => DoOverwriteCopy();
          case OverwriteFixed => DoOverwriteFixed();
          case Switch => DoSwitch();
          case Shuffle => DoShuffle();
          case InsertOne => done := DoInsertOne();
          case AsciiNum => done := DoAsciiNum();
          case InsertAsciiNum => done := DoInsertAsciiNum();
          case SpliceOverwrite => done := DoSpliceOverwrite();
          case SpliceInsert => done := DoSpliceInsert();
        }
      }
      if !done {
        WhoRetries(env, maxLen, op, s, Retry);
      }
    }

    /** The step loop; `fuel` bounds how often an operator is drawn, retries included. */
    method Steps(strategy: seq<Op>, steps: nat, fuel: nat) returns (finished: bool, ghost run: seq<Try>)
      requires Valid() && strategy != []
      modifies this`len, buf, tmp
      ensures Valid() && IsRun(env, maxLen, strategy, old(Text()), run, Text())
      ensures Completed(run) <= steps && finished == (Completed(run) == steps)
      ensures finished || |run| == fuel
      ensures buf[maxLen..] == old(buf[maxLen..])
    {
      hide Effect, Text, IsRun, Completed;
      run := [];
      EmptyRun(env, maxLen, strategy, Text());
      var step: nat, left: nat := 0, fuel;
      while step < steps && left > 0
        invariant Valid() && left + |run| == fuel && step == Completed(run) <= steps
        invariant IsRun(env, maxLen, strategy, old(Text()), run, Text())
        invariant buf[maxLen..] == old(buf[maxLen..])
      {
        ghost var before := Text();
        var r := RandBelow(|strategy|);
        var done := Attempt(strategy[r]);
        ghost var last := Try(strategy[r], before, Result(done));
        OneMoreTry(env, maxLen, strategy, old(Text()), run, last, Text());
        run := run + [last];
        left := left - 1;
        if done {
          step := step + 1;
        }
      }
      finished := step == steps;
    }
  }

  /** In every state some entry of the table completes the step, whatever else is drawn. */
  lemma SomeDrawCompletes(env: Env, maxLen: nat, s: seq<byte>, isText: bool, isExploration: bool) returns (k: nat)
    requires 1 <= |s| <= maxLen
    ensures k < |Table(isText, isExploration)|
    ensures forall r :: Effect(env, maxLen, Table(isText, isExploration)[k], s, r) ==> r.Done?
  {
    hide Effect, NeverRetries, Table;
    TableSizes(isText, isExploration);
    k := SteadyEntry(Table(isText, isExploration));
    forall r | Effect(env, maxLen, Table(isText, isExploration)[k], s, r)
      ensures r.Done?
    {
      if r.Retry? {
        WhoRetries(env, maxLen, Table(isText, isExploration)[k], s, r);
      }
    }
  }

  /**
   * afl_mutate: no buffer or an empty text is left alone, and so is the text when the second buffer is too
   * small and there is no memory for a larger one. The result is the new length.
   */
  method AflMutate(env: Env, buf: array?<byte>, len: nat, steps: nat, isText: bool, isExploration: bool, maxLen: nat,
                   tmp: array<byte>, noMemory: bool, fuel: nat)
    returns (newLen: nat, newTmp: array<byte>, finished: bool, ghost run: seq<Try>)
    requires env.Ok() && (buf != null ==> len <= maxLen <= buf.Length && buf != tmp)
    modifies if buf == null then {} else {buf, tmp}
    ensures newTmp == tmp || (fresh(newTmp) && newTmp.Length == maxLen > tmp.Length)
    ensures buf == null || len == 0 || (maxLen > tmp.Length && noMemory) ==>
              newLen == 0 && newTmp == tmp && (buf != null ==> buf[..] == old(buf[..]))
    ensures buf != null && len > 0 && (maxLen <= tmp.Length || !noMemory) ==>
              && 1 <= newLen <= maxLen <= newTmp.Length && buf[maxLen..] == old(buf[maxLen..])
              && IsRun(env, maxLen, Table(isText, isExploration), old(buf[..len]), run, buf[..newLen])
              && Completed(run) <= steps && finished == (Completed(run) == steps)
              && (finished || (|run| == fuel && NeverRetrying(run) < steps))
  {
    hide IsRun, Table;
    newLen, newTmp, finished, run := 0, tmp, false, [];
    if buf == null || len == 0 {
      return;
    }
    if maxLen > tmp.Length {
      if noMemory {
        return;
      }
      newTmp := new byte[maxLen];
    }
    TableSizes(isText, isExploration);
    var mutator := new Mutator(env, buf, newTmp, len, maxLen);
    finished, run := mutator.Steps(Table(isText, isExploration), steps, fuel);
    newLen := mutator.len;
    ProgressIsMade(env, maxLen, Table(isText, isExploration), old(buf[..len]), run, buf[..newLen]);
  }
}
