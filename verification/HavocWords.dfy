/** What the word operators of afl_mutate do to the bytes, told without the swaps the code is written with. */
module HavocWords {
  import opened Words
  import opened HavocEffects

  /** The numbers that bytes spell; sums of them wrap around as machine words do. */
  function Number16(low: byte, high: byte): bv16 {
    high as bv16 * 256 + low as bv16
  }

  function Number32(lowest: byte, low: byte, high: byte, highest: byte): u32 {
    highest as u32 * 16777216 + high as u32 * 65536 + low as u32 * 256 + lowest as u32
  }

  function Little16(s: seq<byte>, pos: nat): bv16
    requires pos + 2 <= |s|
  {
    Number16(s[pos], s[pos + 1])
  }

  function Big16(s: seq<byte>, pos: nat): bv16
    requires pos + 2 <= |s|
  {
    Number16(s[pos + 1], s[pos])
  }

  function Little32(s: seq<byte>, pos: nat): u32
    requires pos + 4 <= |s|
  {
    Number32(s[pos], s[pos + 1], s[pos + 2], s[pos + 3])
  }

  function Big32(s: seq<byte>, pos: nat): u32
    requires pos + 4 <= |s|
  {
    Number32(s[pos + 3], s[pos + 2], s[pos + 1], s[pos])
  }

  /** Swapping a word turns its bytes around. */
  lemma SwapTurns16(x: bv16)
    ensures Bytes16(Swap16(x)) == [Bytes16(x)[1], Bytes16(x)[0]]
  {
  }

  lemma SwapTurns32(x: u32)
    ensures Bytes32(Swap32(x)) == [Bytes32(x)[3], Bytes32(x)[2], Bytes32(x)[1], Bytes32(x)[0]]
  {
  }

  /** A word as it is put together from memory. */
  function Joined16(a: byte, b: byte): bv16 {
    a as bv16 | (b as bv16 << 8)
  }

  lemma LittleNumber16(a: byte, b: byte)
    ensures Joined16(a, b) == Number16(a, b)
  {
  }

  lemma BigNumber16(a: byte, b: byte)
    ensures Swap16(Joined16(a, b)) == Number16(b, a)
  {
  }

  lemma LittleNumber32(a: byte, b: byte, c: byte, d: byte)
    ensures Joined32(a, b, c, d) == Number32(a, b, c, d)
  {
  }

  lemma BigNumber32(a: byte, b: byte, c: byte, d: byte)
    ensures Swap32(Joined32(a, b, c, d)) == Number32(d, c, b, a)
  {
  }

  /** The two readings of the bytes are the word and the swapped word. */
  lemma Readings16(s: seq<byte>, pos: nat)
    requires pos + 2 <= |s|
    ensures Little16(s, pos) == Get16(s, pos) && Big16(s, pos) == Swap16(Get16(s, pos))
  {
    assert Get16(s, pos) == Joined16(s[pos], s[pos + 1]);
    hide Get16, Joined16, Swap16, Number16;
    LittleNumber16(s[pos], s[pos + 1]);
    BigNumber16(s[pos], s[pos + 1]);
  }

  lemma Readings32(s: seq<byte>, pos: nat)
    requires pos + 4 <= |s|
    ensures Little32(s, pos) == ReadLE32(s, pos) && Big32(s, pos) == Swap32(ReadLE32(s, pos))
  {
    JoinedBytes(s, pos);
    hide ReadLE32, Joined32, Swap32, Number32;
    LittleNumber32(s[pos], s[pos + 1], s[pos + 2], s[pos + 3]);
    BigNumber32(s[pos], s[pos + 1], s[pos + 2], s[pos + 3]);
  }

  /** What is put over part of a text is there, and nothing else changes. */
  lemma OverwrittenParts(s: seq<byte>, at: nat, x: seq<byte>)
    requires at + |x| <= |s|
    ensures var t := Overwrite(s, at, x);
            t[..at] == s[..at] && t[at..at + |x|] == x && t[at + |x|..] == s[at + |x|..]
  {
  }

  lemma PokedWord16(s: seq<byte>, pos: nat, now: bv16)
    requires pos + 2 <= |s|
    ensures Get16(Overwrite(s, pos, Bytes16(now)), pos) == now
  {
    WordsReadBack(now, 0);
    hide Bytes16;
    var t := Overwrite(s, pos, Bytes16(now));
    assert t[pos] == Bytes16(now)[0] && t[pos + 1] == Bytes16(now)[1];
  }

  lemma PokedWord32(s: seq<byte>, pos: nat, now: u32)
    requires pos + 4 <= |s|
    ensures ReadLE32(Overwrite(s, pos, Bytes32(now)), pos) == now
  {
    WordsReadBack(0, now);
    hide Bytes32;
    var t := Overwrite(s, pos, Bytes32(now));
    assert t[pos] == Bytes32(now)[0] && t[pos + 1] == Bytes32(now)[1];
    assert t[pos + 2] == Bytes32(now)[2] && t[pos + 3] == Bytes32(now)[3];
  }

  ghost predicate Grew16(was: bv16, now: bv16) {
    exists item :: IsStep16(item) && now == was + item
  }

  ghost predicate Shrank16(was: bv16, now: bv16) {
    exists item :: IsStep16(item) && now == was - item
  }

  ghost predicate Grew32(was: u32, now: u32) {
    exists item :: IsStep32(item) && now == was + item
  }

  ghost predicate Shrank32(was: u32, now: u32) {
    exists item :: IsStep32(item) && now == was - item
  }

  /** Two swaps around an addition or a subtraction: the swapped word is what changes. */
  lemma SwappedSum16(env: Env, was: bv16, now: bv16)
    requires WordStep16(env, Arith16BE, was, now)
    ensures Grew16(Swap16(was), Swap16(now))
  {
    hide Swap16, IsStep16;
    var item :| IsStep16(item) && now == Swap16(Swap16(was) + item);
    SwapTwice16(Swap16(was) + item);
  }

  lemma SwappedDifference16(env: Env, was: bv16, now: bv16)
    requires WordStep16(env, Arith16BEMinus, was, now)
    ensures Shrank16(Swap16(was), Swap16(now))
  {
    hide Swap16, IsStep16;
    var item :| IsStep16(item) && now == Swap16(Swap16(was) - item);
    SwapTwice16(Swap16(was) - item);
  }

  lemma SwappedDifference32(env: Env, was: u32, now: u32)
    requires WordStep32(env, Arith32BEMinus, was, now)
    ensures Shrank32(Swap32(was), Swap32(now))
  {
    hide Swap32, IsStep32;
    var item :| IsStep32(item) && now == Swap32(Swap32(was) - item);
    SwapTwice32(Swap32(was) - item);
  }

  /** What an operator does to the number it is named for. */
  ghost predicate NumberStep16(env: Env, op: Op, little: bv16, little2: bv16, big: bv16, big2: bv16) {
    match op
    case Interesting16 => little2 in env.interesting16
    case Interesting16BE => big2 in env.interesting16
    case Arith16 => Grew16(little, little2)
    case Arith16BE => Grew16(big, big2)
    case Arith16Minus => Shrank16(little, little2)
    case _ => Shrank16(big, big2)
  }

  /** The same for 32 bits, where the addition named for big-endian words is little-endian too. */
  ghost predicate NumberStep32(env: Env, op: Op, little: u32, little2: u32, big: u32, big2: u32) {
    match op
    case Interesting32 => little2 in env.interesting32
    case Interesting32BE => big2 in env.interesting32
    case Arith32 => Grew32(little, little2)
    case Arith32BE => Grew32(little, little2)
    case Arith32Minus => Shrank32(little, little2)
    case _ => Shrank32(big, big2)
  }

  lemma PlainStep16(env: Env, op: Op, was: bv16, now: bv16)
    requires IsWordOp16(op) && WordStep16(env, op, was, now) && !op.Arith16BE? && !op.Arith16BEMinus?
    ensures NumberStep16(env, op, was, now, Swap16(was), Swap16(now))
  {
    hide Swap16, IsStep16;
  }

  lemma StepOnNumbers16(env: Env, op: Op, was: bv16, now: bv16)
    requires IsWordOp16(op) && WordStep16(env, op, was, now)
    ensures NumberStep16(env, op, was, now, Swap16(was), Swap16(now))
  {
    hide Swap16, WordStep16, Grew16, Shrank16;
    if op.Arith16BE? {
      SwappedSum16(env, was, now);
    } else if op.Arith16BEMinus? {
      SwappedDifference16(env, was, now);
    } else {
      PlainStep16(env, op, was, now);
    }
  }

  lemma StepOnNumbers32(env: Env, op: Op, was: u32, now: u32)
    requires IsWordOp32(op) && WordStep32(env, op, was, now)
    ensures NumberStep32(env, op, was, now, Swap32(was), Swap32(now))
  {
    hide Swap32, IsStep32;
    if op.Arith32BEMinus? {
      SwappedDifference32(env, was, now);
    }
  }

  /** The 16-bit operators on the two bytes they change: read as a little-endian or a big-endian number. */
  lemma WordOp16OnBytes(env: Env, op: Op, s: seq<byte>, t: seq<byte>, pos: nat, now: bv16)
    requires IsWordOp16(op) && Word16Poked(env, op, s, t, pos, now)
    ensures |t| == |s| && t[..pos] == s[..pos] && t[pos + 2..] == s[pos + 2..]
    ensures NumberStep16(env, op, Little16(s, pos), Little16(t, pos), Big16(s, pos), Big16(t, pos))
  {
    hide Little16, Big16, Get16, Swap16, Bytes16, Overwrite, WordStep16, NumberStep16;
    StepOnNumbers16(env, op, Get16(s, pos), now);
    OverwrittenParts(s, pos, Bytes16(now));
    PokedWord16(s, pos, now);
    Readings16(s, pos);
    Readings16(t, pos);
  }

  lemma WordOp32OnBytes(env: Env, op: Op, s: seq<byte>, t: seq<byte>, pos: nat, now: u32)
    requires IsWordOp32(op) && Word32Poked(env, op, s, t, pos, now)
    ensures |t| == |s| && t[..pos] == s[..pos] && t[pos + 4..] == s[pos + 4..]
    ensures NumberStep32(env, op, Little32(s, pos), Little32(t, pos), Big32(s, pos), Big32(t, pos))
  {
    hide Little32, Big32, ReadLE32, Swap32, Bytes32, Overwrite, WordStep32, NumberStep32;
    StepOnNumbers32(env, op, ReadLE32(s, pos), now);
    OverwrittenParts(s, pos, Bytes32(now));
    PokedWord32(s, pos, now);
    Readings32(s, pos);
    Readings32(t, pos);
  }
}
