/** What each operator of afl_mutate may do to the text, as a relation between before and after. */
module HavocEffects {
  import opened Words
  import opened HavocNumber
  import opened HavocShuffle

  datatype Op =
    | FlipBit | Interesting8 | Interesting16 | Interesting16BE | Interesting32 | Interesting32BE
    | Arith8Minus | Arith8 | Arith16Minus | Arith16BEMinus | Arith16 | Arith16BE
    | Arith32Minus | Arith32BEMinus | Arith32 | Arith32BE | Rand8
    | CloneCopy | CloneFixed | OverwriteCopy | OverwriteFixed | ByteAdd | ByteSub | Flip8
    | Switch | Del | Shuffle | DelOne | InsertOne | AsciiNum | InsertAsciiNum
    | ExtraOverwrite | ExtraInsert | AutoExtraOverwrite | AutoExtraInsert | SpliceOverwrite | SpliceInsert

  /** Tables, dictionaries and settings the operators read. No splice buffer is an empty one. */
  datatype Env = Env(interesting8: seq<byte>, interesting16: seq<bv16>, interesting32: seq<u32>,
                     extras: seq<seq<byte>>, autoExtras: seq<seq<byte>>, splice: seq<byte>,
                     queueCycle: nat, runOver10m: bool)
  {
    predicate Ok() {
      interesting8 != [] && interesting16 != [] && interesting32 != []
    }
  }

  datatype Outcome = Retry | Done(text: seq<byte>)

  // ----- Words in the text -----

  function Swap16(x: bv16): bv16 {
    (x << 8) | (x >> 8)
  }

  function Get16(s: seq<byte>, pos: nat): bv16
    requires pos + 2 <= |s|
  {
    (s[pos] as bv16) | (s[pos + 1] as bv16 << 8)
  }

  function Bytes16(x: bv16): (b: seq<byte>)
    ensures |b| == 2
  {
    [(x & 0xFF) as byte, ((x >> 8) & 0xFF) as byte]
  }

  function Bytes32(x: u32): (b: seq<byte>)
    ensures |b| == 4
  {
    [(x & 0xFF) as byte, ((x >> 8) & 0xFF) as byte, ((x >> 16) & 0xFF) as byte, ((x >> 24) & 0xFF) as byte]
  }

  /** What is written is what is read. */
  lemma WordsReadBack(x: bv16, y: u32)
    ensures Get16(Bytes16(x), 0) == x && ReadLE32(Bytes32(y), 0) == y
  {
  }

  lemma SwapTwice16(x: bv16)
    ensures Swap16(Swap16(x)) == x
  {
  }

  lemma SwapTwice32(x: u32)
    ensures Swap32(Swap32(x)) == x
  {
  }

  /**
   * The operator named for adding to a big-endian word adds to the little-endian one: it is the
   * big-endian addition only where all 32 bits are set and one is added.
   */
  lemma Arith32BEIsLittleEndian(word: u32, item: u32)
    requires 1 <= item <= 35
    ensures Swap32(Swap32(word + item)) == Swap32(Swap32(word) + item) <==> word == 0xFFFFFFFF && item == 1
  {
  }

  // ----- Blocks of the text -----

  function Replace(s: seq<byte>, i: nat, j: nat, x: seq<byte>): (r: seq<byte>)
    requires i <= j <= |s|
    ensures |r| == |s| - (j - i) + |x|
  {
    s[..i] + x + s[j..]
  }

  function Overwrite(s: seq<byte>, at: nat, x: seq<byte>): (r: seq<byte>)
    requires at + |x| <= |s|
    ensures |r| == |s|
  {
    Replace(s, at, at + |x|, x)
  }

  function Exchange(s: seq<byte>, i: nat, j: nat, n: nat): (r: seq<byte>)
    requires i + n <= |s| && j + n <= |s|
    ensures |r| == |s|
  {
    Overwrite(Overwrite(s, i, s[j..j + n]), j, s[i..i + n])
  }

  function Fill(n: nat, b: byte): (x: seq<byte>)
    ensures |x| == n && forall k :: 0 <= k < n ==> x[k] == b
  {
    seq(n, _ => b)
  }

  /** A block length: at least one, no more than the limit unless that is zero, never above HAVOC_BLK_XL. */
  predicate IsBlockLen(limit: nat, n: nat) {
    1 <= n <= 32768 && (n <= limit || n == 1)
  }

  // ----- The operators -----

  /** The amounts added and subtracted: at most ARITH_MAX. */
  predicate IsStep8(b: byte) { 1 <= b <= 35 }

  predicate IsStep16(w: bv16) { 1 <= w <= 35 }

  predicate IsStep32(w: u32) { 1 <= w <= 35 }

  /** How the byte at the chosen place changes. */
  ghost predicate ByteStep(env: Env, op: Op, was: byte, now: byte) {
    match op
    case FlipBit => was ^ now in [1, 2, 4, 8, 16, 32, 64, 128]
    case Interesting8 => now in env.interesting8
    case Arith8Minus => exists item :: IsStep8(item) && now == was - item
    case Arith8 => exists item :: IsStep8(item) && now == was + item
    case Rand8 => now != was
    case ByteAdd => now == was + 1
    case ByteSub => now == was - 1
    case _ => now == was ^ 0xFF
  }

  /** How the little-endian word at the chosen place changes; the big-endian operators swap it twice. */
  ghost predicate WordStep16(env: Env, op: Op, was: bv16, now: bv16) {
    match op
    case Interesting16 => now in env.interesting16
    case Interesting16BE => Swap16(now) in env.interesting16
    case Arith16Minus => exists item :: IsStep16(item) && now == was - item
    case Arith16BEMinus => exists item :: IsStep16(item) && now == Swap16(Swap16(was) - item)
    case Arith16 => exists item :: IsStep16(item) && now == was + item
    case _ => exists item :: IsStep16(item) && now == Swap16(Swap16(was) + item)
  }

  ghost predicate WordStep32(env: Env, op: Op, was: u32, now: u32) {
    match op
    case Interesting32 => now in env.interesting32
    case Interesting32BE => Swap32(now) in env.interesting32
    case Arith32Minus => exists item :: IsStep32(item) && now == was - item
    case Arith32BEMinus => exists item :: IsStep32(item) && now == Swap32(Swap32(was) - item)
    case Arith32 => exists item :: IsStep32(item) && now == was + item
    case _ => exists item :: IsStep32(item) && now == was + item
  }

  predicate IsByteOp(op: Op) {
    op.FlipBit? || op.Interesting8? || op.Arith8Minus? || op.Arith8? || op.Rand8? || op.ByteAdd? || op.ByteSub? || op.Flip8?
  }

  predicate IsWordOp16(op: Op) {
    op.Interesting16? || op.Interesting16BE? || op.Arith16Minus? || op.Arith16BEMinus? || op.Arith16? || op.Arith16BE?
  }

  predicate IsWordOp32(op: Op) {
    op.Interesting32? || op.Interesting32BE? || op.Arith32Minus? || op.Arith32BEMinus? || op.Arith32? || op.Arith32BE?
  }

  ghost predicate BytePoked(env: Env, op: Op, s: seq<byte>, t: seq<byte>, off: nat) {
    off < |s| && |t| == |s| && t == s[off := t[off]] && ByteStep(env, op, s[off], t[off])
  }

  ghost predicate Word16Poked(env: Env, op: Op, s: seq<byte>, t: seq<byte>, pos: nat, now: bv16) {
    pos + 2 <= |s| && t == Overwrite(s, pos, Bytes16(now)) && WordStep16(env, op, Get16(s, pos), now)
  }

  ghost predicate Word32Poked(env: Env, op: Op, s: seq<byte>, t: seq<byte>, pos: nat, now: u32) {
    pos + 4 <= |s| && t == Overwrite(s, pos, Bytes32(now)) && WordStep32(env, op, ReadLE32(s, pos), now)
  }

  /** A copy of `n` bytes of `src` goes in at `at`. */
  ghost predicate BlockInserted(s: seq<byte>, t: seq<byte>, src: seq<byte>, from: nat, n: nat, at: nat) {
    from + n <= |src| && at <= |s| && t == Replace(s, at, at, src[from..from + n])
  }

  ghost predicate BlockOverwritten(s: seq<byte>, t: seq<byte>, src: seq<byte>, from: nat, n: nat, at: nat) {
    from + n <= |src| && at + n <= |s| && t == Overwrite(s, at, src[from..from + n])
  }

  ghost predicate FillInserted(s: seq<byte>, t: seq<byte>, n: nat, b: byte, at: nat) {
    at < |s| && t == Replace(s, at, at, Fill(n, b))
  }

  ghost predicate FillOverwritten(s: seq<byte>, t: seq<byte>, n: nat, b: byte, at: nat) {
    at + n <= |s| && t == Overwrite(s, at, Fill(n, b))
  }

  ghost predicate BlocksSwitched(s: seq<byte>, t: seq<byte>, i: nat, j: nat, n: nat) {
    n >= 1 && (i + n <= j || j + n <= i) && i + n <= |s| && j + n <= |s| && t == Exchange(s, i, j, n)
  }

  ghost predicate BlockDeleted(s: seq<byte>, t: seq<byte>, from: nat, n: nat) {
    1 <= n < |s| && from + n <= |s| && t == Replace(s, from, from + n, [])
  }

  ghost predicate BlockShuffled(s: seq<byte>, t: seq<byte>, off: nat, p: seq<nat>, c: seq<nat>) {
    && 1 <= |p| < |s| && off + |p| <= |s| && SingleCycle(p, c) && (forall k :: 0 <= k < |p| ==> p[k] < |p|)
    && t == Overwrite(s, off, Permuted(s[off..off + |p|], p))
  }

  ghost function Signed(s: seq<byte>, off: nat, end: nat): (v: int)
    requires IsLongestRun(s, off, end)
    ensures -MAX64 <= v <= MAX64
  {
    var v: int := Decimal(s[off..end]);
    if off > 0 && s[off - 1] == 45 then -v else v
  }

  /** The number at `off` is read up to `end`, changed, and printed over all of it or all but its last digit. */
  ghost predicate NumberChanged(s: seq<byte>, off: nat, end: nat, end2: nat, strat: nat, result: int) {
    && IsLongestRun(s, off, end)
    && strat < 8 && Strategy(strat, Signed(s, off, end), result, end2 < end)
    && (end2 == end || end2 == end - 1) && off < end2
  }

  ghost predicate NumberEffect(s: seq<byte>, maxLen: nat, r: Outcome, start: nat, off: nat, end: nat, end2: nat, strat: nat, result: int) {
    && IsNextDigit(s, start, off) && NumberChanged(s, off, end, end2, strat, result)
    && var text := NumberText(result);
       if |text| != end2 - off && |s| - (end2 - off) + |text| > maxLen then r == Retry
       else r == Done(Replace(s, off, end2, text))
  }

  ghost predicate AsciiNumEffect(s: seq<byte>, maxLen: nat, r: Outcome) {
    exists start, off, end, end2, strat, result :: NumberEffect(s, maxLen, r, start, off, end, end2, strat, result)
  }

  /** The last `n` digits of a number, or all of them. */
  function LastDigits(val: nat, n: nat): (x: seq<byte>)
    ensures |x| <= n
    ensures n >= 1 ==> |x| >= 1
  {
    var text := Digits(val);
    if n > |text| then text else text[|text| - n..]
  }

  /** The last digits of some 64-bit number go over part of the text. */
  ghost predicate DigitsPut(s: seq<byte>, t: seq<byte>, pos: nat, n: nat, val: nat) {
    1 <= n <= 8 && val < 0x1_0000_0000_0000_0000 && pos + n <= |s| && t == Overwrite(s, pos, LastDigits(val, n))
  }

  predicate Overwrites(op: Op) {
    op.ExtraOverwrite? || op.AutoExtraOverwrite?
  }

  ghost predicate SomeDoesNotFit(op: Op, dict: seq<seq<byte>>, len: nat, maxLen: nat) {
    exists k :: 0 <= k < |dict| && if Overwrites(op) then |dict[k]| > len else len + |dict[k]| > maxLen
  }

  ghost predicate ExtraUsed(op: Op, x: seq<byte>, s: seq<byte>, maxLen: nat, t: seq<byte>, at: nat) {
    if Overwrites(op) then at + |x| <= |s| && t == Overwrite(s, at, x)
    else at <= |s| && |s| + |x| <= maxLen && t == Replace(s, at, at, x)
  }

  ghost predicate ExtraEffect(op: Op, dict: seq<seq<byte>>, s: seq<byte>, maxLen: nat, r: Outcome) {
    if dict == [] then r == Retry
    else if r.Retry? then SomeDoesNotFit(op, dict, |s|, maxLen)
    else exists k, at :: 0 <= k < |dict| && ExtraUsed(op, dict[k], s, maxLen, r.text, at)
  }

  predicate IsExtraOp(op: Op) {
    op.ExtraOverwrite? || op.ExtraInsert? || op.AutoExtraOverwrite? || op.AutoExtraInsert?
  }

  function Dictionary(env: Env, op: Op): seq<seq<byte>> {
    if op.ExtraOverwrite? || op.ExtraInsert? then env.extras else env.autoExtras
  }

  ghost predicate SomeClone(s: seq<byte>, t: seq<byte>, src: seq<byte>, last: nat) {
    exists from: nat, n: nat, at: nat :: BlockInserted(s, t, src, from, n, at) && IsBlockLen(|src|, n) && at <= last
  }

  /** When an insertion has no room for the largest block: short texts are left alone, others try again. */
  ghost predicate NoRoom(s: seq<byte>, r: Outcome) {
    r == if |s| < 8 then Done(s) else Retry
  }

  ghost predicate Effect(env: Env, maxLen: nat, op: Op, s: seq<byte>, r: Outcome) {
    if IsByteOp(op) then r.Done? && exists off :: BytePoked(env, op, s, r.text, off)
    else if IsWordOp16(op) then r.Done? && if |s| < 2 then r.text == s else exists pos, now :: Word16Poked(env, op, s, r.text, pos, now)
    else if IsWordOp32(op) then r.Done? && if |s| < 4 then r.text == s else exists pos, now :: Word32Poked(env, op, s, r.text, pos, now)
    else match op
      case CloneCopy =>
        if |s| + 32768 < maxLen then r.Done? && s != [] && SomeClone(s, r.text, s, |s| - 1) else NoRoom(s, r)
      case CloneFixed =>
        if |s| + 32768 < maxLen then r.Done? && exists n: nat, b: byte, at: nat :: FillInserted(s, r.text, n, b, at) && IsBlockLen(32768, n)
        else NoRoom(s, r)
      case OverwriteCopy =>
        r.Done? && if |s| < 2 then r.text == s else exists from: nat, n: nat, at: nat :: BlockOverwritten(s, r.text, s, from, n, at) && IsBlockLen(|s| - 1, n)
      case OverwriteFixed =>
        r.Done? && if |s| < 2 then r.text == s else exists n: nat, b: byte, at: nat :: FillOverwritten(s, r.text, n, b, at) && IsBlockLen(|s| - 1, n)
      case Switch =>
        r.Done? && if |s| < 4 then r.text == s else exists i: nat, j: nat, n: nat :: BlocksSwitched(s, r.text, i, j, n) && n <= 32768
      case Del =>
        r.Done? && if |s| < 2 then r.text == s else exists from: nat, n: nat :: BlockDeleted(s, r.text, from, n) && IsBlockLen(|s| - 1, n)
      case Shuffle =>
        r.Done? && if |s| < 4 then r.text == s else exists off: nat, p: seq<nat>, c: seq<nat> :: BlockShuffled(s, r.text, off, p, c) && IsBlockLen(|s| - 1, |p|)
      case DelOne =>
        r.Done? && if |s| < 2 then r.text == s else exists from :: BlockDeleted(s, r.text, from, 1)
      case InsertOne =>
        if |s| < 2 then r == Done(s)
        else if |s| + 1 > maxLen then r == Retry
        else r.Done? && exists b, at :: FillInserted(s, r.text, 1, b, at)
      case AsciiNum =>
        if |s| < 4 then r == Done(s)
        else if !(exists k :: 0 <= k < |s| && IsDigit(s[k])) then NoRoom(s, r)
        else AsciiNumEffect(s, maxLen, r)
      case InsertAsciiNum =>
        if r.Retry? then |s| >= 8
        else (r.text == s && |s| < 8) || exists pos, n, val :: DigitsPut(s, r.text, pos, n, val)
      case ExtraOverwrite => ExtraEffect(op, env.extras, s, maxLen, r)
      case ExtraInsert => ExtraEffect(op, env.extras, s, maxLen, r)
      case AutoExtraOverwrite => ExtraEffect(op, env.autoExtras, s, maxLen, r)
      case AutoExtraInsert => ExtraEffect(op, env.autoExtras, s, maxLen, r)
      case SpliceOverwrite =>
        if env.splice == [] then r == Retry
        else r.Done? && exists from: nat, n: nat, at: nat :: BlockOverwritten(s, r.text, env.splice, from, n, at) && 1 <= n <= 32768
      case SpliceInsert =>
        if env.splice == [] || |s| + 32768 > maxLen then r == Retry
        else r.Done? && SomeClone(s, r.text, env.splice, |s|)
      case _ => false
  }

  // ----- What follows for every operator -----

  /** The text stays between one byte and the most allowed. */
  lemma EffectKeepsLength(env: Env, maxLen: nat, op: Op, s: seq<byte>, r: Outcome)
    requires 1 <= |s| <= maxLen && Effect(env, maxLen, op, s, r) && r.Done?
    ensures 1 <= |r.text| <= maxLen
  {
    hide ByteStep, WordStep16, WordStep32, Replace, Overwrite, Exchange, Fill, Permuted, SingleCycle;
    hide AllDigits, Decimal, Strategy, IsNextDigit, NumberText, Bytes16, Bytes32, LastDigits;
    if op == AsciiNum && |s| >= 4 && r.text != s {
      if exists k :: 0 <= k < |s| && IsDigit(s[k]) {
        var start, off, end, end2, strat, result :| NumberEffect(s, maxLen, r, start, off, end, end2, strat, result);
      }
    }
  }

  predicate NeverRetries(op: Op) {
    IsByteOp(op) || IsWordOp16(op) || IsWordOp32(op) || op.OverwriteCopy? || op.OverwriteFixed?
    || op.Switch? || op.Del? || op.Shuffle? || op.DelOne?
  }

  /** Most operators always complete; the others give up only for want of room, material or a number. */
  lemma WhoRetries(env: Env, maxLen: nat, op: Op, s: seq<byte>, r: Outcome)
    requires 1 <= |s| <= maxLen && Effect(env, maxLen, op, s, r) && r.Retry?
    ensures !NeverRetries(op)
    ensures op.CloneCopy? || op.CloneFixed? ==> |s| >= 8 && |s| + 32768 >= maxLen
    ensures op.InsertOne? ==> |s| == maxLen
    ensures op.AsciiNum? ==> (|s| >= 8 && forall k :: 0 <= k < |s| ==> !IsDigit(s[k])) || |s| + 6 > maxLen
    ensures IsExtraOp(op) ==> Dictionary(env, op) == [] || SomeDoesNotFit(op, Dictionary(env, op), |s|, maxLen)
    ensures op.InsertAsciiNum? ==> |s| >= 8
    ensures op.SpliceOverwrite? ==> env.splice == []
    ensures op.SpliceInsert? ==> env.splice == [] || |s| + 32768 > maxLen
  {
  }

  lemma ExchangeAt(s: seq<byte>, i: nat, j: nat, n: nat, k: nat)
    requires (i + n <= j || j + n <= i) && i + n <= |s| && j + n <= |s| && k < |s|
    ensures Exchange(s, i, j, n)[k] ==
            if i <= k < i + n then s[j + (k - i)] else if j <= k < j + n then s[i + (k - j)] else s[k]
  {
  }

  /** Switching the same two blocks again restores the text. */
  lemma SwitchUndoes(s: seq<byte>, i: nat, j: nat, n: nat)
    requires (i + n <= j || j + n <= i) && i + n <= |s| && j + n <= |s|
    ensures Exchange(Exchange(s, i, j, n), i, j, n) == s
  {
    var t := Exchange(s, i, j, n);
    forall k: nat | k < |s|
      ensures Exchange(t, i, j, n)[k] == s[k]
    {
      ExchangeAt(t, i, j, n, k);
      if i <= k < i + n {
        ExchangeAt(s, i, j, n, j + (k - i));
      } else if j <= k < j + n {
        ExchangeAt(s, i, j, n, i + (k - j));
      } else {
        ExchangeAt(s, i, j, n, k);
      }
    }
  }

  /** Whatever block an operator inserted, deleting it again is one of the things MUT_DEL may do. */
  lemma DeleteUndoesInsert(env: Env, maxLen: nat, s: seq<byte>, t: seq<byte>, src: seq<byte>, from: nat, n: nat, at: nat)
    requires BlockInserted(s, t, src, from, n, at) && IsBlockLen(|src|, n) && s != []
    ensures Effect(env, maxLen, Del, t, Done(s))
  {
    assert Replace(t, at, at + n, []) == s;
    assert BlockDeleted(t, s, at, n) && IsBlockLen(|t| - 1, n);
  }

  /** After an operator has changed a word, the word is there. */
  lemma WordIsThere(env: Env, op: Op, s: seq<byte>, t: seq<byte>, pos: nat, now: bv16)
    requires Word16Poked(env, op, s, t, pos, now)
    ensures Get16(t, pos) == now
  {
    WordsReadBack(now, 0);
    hide WordStep16, Bytes16;
    assert t[pos] == Bytes16(now)[0] && t[pos + 1] == Bytes16(now)[1];
  }

  /** A shuffled block of at least two bytes takes every byte from another place. */
  lemma ShuffleMovesAll(s: seq<byte>, t: seq<byte>, off: nat, p: seq<nat>, c: seq<nat>, k: nat)
    requires BlockShuffled(s, t, off, p, c) && |p| >= 2 && k < |p|
    ensures p[k] != k && t[off + k] == s[off + p[k]]
    ensures t[..off] == s[..off] && t[off + |p|..] == s[off + |p|..]
  {
    NothingStays(p, c, k);
    assert s[off..off + |p|][p[k]] == s[off + p[k]];
  }
}
