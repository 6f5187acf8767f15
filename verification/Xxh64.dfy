/** XXH64: one-shot, and the buffering state that hashes the same bytes in pieces. */
module Xxh64 {
  import opened Words
  import opened Striping

  const PRIME64_1: u64 := 0x9E3779B185EBCA87
  const PRIME64_2: u64 := 0xC2B2AE3D27D4EB4F
  const PRIME64_3: u64 := 0x165667B19E3779F9
  const PRIME64_4: u64 := 0x85EBCA77C2B2AE63
  const PRIME64_5: u64 := 0x27D4EB2F165667C5

  /** The products with four of the primes. */
  function Scale1(h: u64): u64 { h * 0x9E3779B185EBCA87 }

  function Scale2(h: u64): u64 { h * 0xC2B2AE3D27D4EB4F }

  function Scale3(h: u64): u64 { h * 0x165667B19E3779F9 }

  function Scale5(h: u64): u64 { h * 0x27D4EB2F165667C5 }

  function Plus(x: u64, y: u64): u64 { x + y }

  function Xor(x: u64, y: u64): u64 { x ^ y }

  function Round(acc: u64, input: u64): u64 {
    Scale1(Rotl64(Plus(acc, Scale2(input)), 31))
  }

  function MergeRound(acc: u64, val: u64): u64 {
    Plus(Scale1(Xor(acc, Round(0, val))), PRIME64_4)
  }

  function Fold33(h: u64): u64 { h ^ (h >> 33) }

  function Fold29(h: u64): u64 { h ^ (h >> 29) }

  function Fold32(h: u64): u64 { h ^ (h >> 32) }

  function Avalanche(hash: u64): u64 {
    Fold32(Scale3(Fold29(Scale2(Fold33(hash)))))
  }

  datatype Lanes = Lanes(v1: u64, v2: u64, v3: u64, v4: u64)

  function InitLanes(seed: u64): Lanes {
    Lanes(seed + PRIME64_1 + PRIME64_2, seed + PRIME64_2, seed, seed - PRIME64_1)
  }

  function RoundBlock(v: Lanes, b: seq<byte>): Lanes
    requires |b| == 32
  {
    Lanes(Round(v.v1, ReadLE64(b, 0)), Round(v.v2, ReadLE64(b, 8)),
          Round(v.v3, ReadLE64(b, 16)), Round(v.v4, ReadLE64(b, 24)))
  }

  function Converge(v: Lanes): u64 {
    var h := Plus(Plus(Plus(Rotl64(v.v1, 1), Rotl64(v.v2, 7)), Rotl64(v.v3, 12)), Rotl64(v.v4, 18));
    MergeRound(MergeRound(MergeRound(MergeRound(h, v.v1), v.v2), v.v3), v.v4)
  }

  function Mix8(h: u64, k: u64): u64 {
    Plus(Scale1(Rotl64(Xor(h, Round(0, k)), 27)), PRIME64_4)
  }

  function MixWord(h: u64, k: u64): u64 {
    Plus(Scale2(Rotl64(Xor(h, Scale1(k)), 23)), PRIME64_3)
  }

  function Wide(k: u32): u64 {
    k as u64
  }

  function Mix4(h: u64, k: u32): u64 {
    MixWord(h, Wide(k))
  }

  function MixByte(h: u64, k: u64): u64 {
    Scale1(Rotl64(Xor(h, Scale5(k)), 11))
  }

  function Mix1(h: u64, k: byte): u64 {
    MixByte(h, k as u64)
  }

  /** The tail of fewer than 32 bytes, from `at` on: eights, then at most one four, then ones. */
  function MixTail(h: u64, t: seq<byte>, at: nat): u64
    requires at <= |t|
    decreases |t| - at
  {
    if at + 8 <= |t| then MixTail(Mix8(h, ReadLE64(t, at)), t, at + 8)
    else if at + 4 <= |t| then MixTail(Mix4(h, ReadLE32(t, at)), t, at + 4)
    else if at < |t| then MixTail(Mix1(h, t[at]), t, at + 1)
    else h
  }

  function AddWord(h: u64, n: nat): u64
    requires n < 0x1_0000_0000_0000_0000
  {
    Plus(h, n as u64)
  }

  function AddLength(h: u64, len: nat): u64 {
    AddWord(h, Wrap64(len))
  }

  lemma AddWrappedLength(h: u64, len: nat)
    ensures AddLength(h, Wrap64(len)) == AddLength(h, len)
  {
    hide AddWord;
    assert Wrap64(Wrap64(len)) == Wrap64(len);
  }

  function ShortStart(seed: u64): u64 {
    seed + PRIME64_5
  }

  /** The hash of a byte string. */
  ghost function Hash(seed: u64, data: seq<byte>): u64 {
    var cut := |data| - |data| % 32;
    var h := if |data| >= 32 then Converge(Fold(32, RoundBlock, InitLanes(seed), data[..cut]))
             else ShortStart(seed);
    Avalanche(MixTail(AddLength(h, |data|), data[cut..], 0))
  }

  method Finalize(hash: u64, p: seq<byte>, len: nat) returns (h: u64)
    requires |p| >= len % 32
    ensures h == Avalanche(MixTail(hash, p[..len % 32], 0))
  {
    hide Mix8, Mix4, Mix1, ReadLE32, ReadLE64, Avalanche;
    h := hash;
    var t := p[..len % 32];
    var at: nat := 0;
    while at + 8 <= |t|
      invariant at <= |t|
      invariant MixTail(h, t, at) == MixTail(hash, t, 0)
    {
      h := Mix8(h, ReadLE64(t, at));
      at := at + 8;
    }
    if at + 4 <= |t| {
      h := Mix4(h, ReadLE32(t, at));
      at := at + 4;
    }
    while at < |t|
      invariant at <= |t| < at + 4
      invariant MixTail(h, t, at) == MixTail(hash, t, 0)
    {
      h := Mix1(h, t[at]);
      at := at + 1;
    }
    h := Avalanche(h);
  }

  method OneShot(input: seq<byte>, seed: u64) returns (h: u64)
    ensures h == Hash(seed, input)
  {
    hide RoundBlock, Converge, InitLanes, Avalanche, MixTail, AddLength, ShortStart;
    var at: nat := 0;
    if |input| >= 32 {
      var v := InitLanes(seed);
      while at + 32 <= |input|
        invariant at % 32 == 0 && at <= |input|
        invariant v == Fold(32, RoundBlock, InitLanes(seed), input[..at])
      {
        FoldStep(32, RoundBlock, InitLanes(seed), input, at / 32, at);
        v := RoundBlock(v, input[at..at + 32]);
        at := at + 32;
      }
      h := Converge(v);
    } else {
      h := ShortStart(seed);
    }
    var tail := input[at..];
    assert at == |input| - |input| % 32;
    assert tail[..|input| % 32] == tail;
    h := Finalize(AddLength(h, |input|), tail, |input|);
  }

  class State {
    var totalLen: nat
    const v: array<u64>
    const mem: array<byte>
    var memsize: nat

    ghost var seed: u64
    ghost var content: seq<byte>

    function LanesNow(): Lanes
      requires v.Length == 4
      reads v
    {
      Lanes(v[0], v[1], v[2], v[3])
    }

    /** The lanes have taken in exactly the first `q` bytes of `data`, a whole number of blocks. */
    ghost predicate TakenIn(data: seq<byte>, q: nat)
      reads `seed, v
    {
      && v.Length == 4 && q <= |data| && q % 32 == 0
      && LanesNow() == Fold(32, RoundBlock, InitLanes(seed), data[..q])
    }

    /** Whole blocks have gone into the lanes; the rest waits at the front of `mem`. */
    ghost predicate Valid()
      reads this, v, mem
    {
      && v.Length == 4 && mem.Length == 32
      && totalLen == Wrap64(|content|)
      && memsize == |content| % 32
      && mem[..memsize] == content[|content| - memsize..]
      && TakenIn(content, |content| - memsize)
    }

    method Reset(seed: u64)
      requires v.Length == 4 && mem.Length == 32
      modifies this, v, mem
      ensures Valid() && this.seed == seed && content == []
    {
      hide RoundBlock;
      totalLen, memsize := 0, 0;
      forall i | 0 <= i < 32 {
        mem[i] := 0;
      }
      var start := InitLanes(seed);
      v[0], v[1], v[2], v[3] := start.v1, start.v2, start.v3, start.v4;
      this.seed, content := seed, [];
    }

    constructor (seed: u64)
      ensures Valid() && this.seed == seed && content == []
      ensures fresh(v) && fresh(mem)
    {
      v := new u64[4];
      mem := new byte[32];
      totalLen, memsize := 0, 0;
      new;
      Reset(seed);
    }

    method ConsumeBlock(p: seq<byte>, ghost data: seq<byte>, ghost q: nat)
      requires TakenIn(data, q) && q + 32 <= |data| && p == data[q..q + 32]
      modifies v
      ensures TakenIn(data, q + 32)
    {
      hide Round, ReadLE64, InitLanes, Fold;
      FoldStep(32, RoundBlock, InitLanes(seed), data, q / 32, q);
      v[0] := Round(v[0], ReadLE64(p, 0));
      v[1] := Round(v[1], ReadLE64(p, 8));
      v[2] := Round(v[2], ReadLE64(p, 16));
      v[3] := Round(v[3], ReadLE64(p, 24));
    }

    lemma TakenInFromPrefix(data: seq<byte>, all: seq<byte>, q: nat)
      requires TakenIn(data, q) && data <= all
      ensures TakenIn(all, q)
    {
      hide RoundBlock, InitLanes, Fold;
      assert all[..q] == data[..q];
    }

    /** The input completes the waiting block. */
    method TopUp(input: seq<byte>, ghost all: seq<byte>, ghost before: nat) returns (p: nat)
      requires mem.Length == 32 && memsize <= 32 <= memsize + |input|
      requires memsize <= before <= |all| && all[before..] == input
      requires mem[..memsize] == all[before - memsize..before]
      requires TakenIn(all, before - memsize)
      modifies v, mem, `memsize
      ensures p == 32 - old(memsize) && memsize == 0
      ensures TakenIn(all, before + p)
    {
      hide TakenIn;
      p := 32 - memsize;
      MemCpy(mem, memsize, input[..p]);
      assert mem[..] == all[before - memsize..before + p];
      ConsumeBlock(mem[..], all, before - memsize);
      memsize := 0;
    }

    /** Whole blocks are hashed straight from the input. */
    method Drain(input: seq<byte>, start: nat, ghost all: seq<byte>, ghost before: nat) returns (p: nat)
      requires before <= |all| && all[before..] == input && start <= |input|
      requires TakenIn(all, before + start)
      modifies v
      ensures start <= p <= |input| < p + 32
      ensures TakenIn(all, before + p)
    {
      hide TakenIn;
      p := start;
      while p + 32 <= |input|
        invariant start <= p <= |input|
        invariant TakenIn(all, before + p)
      {
        assert input[p..p + 32] == all[before + p..before + p + 32];
        ConsumeBlock(input[p..p + 32], all, before + p);
        p := p + 32;
      }
    }

    /** The last partial block goes to the front of the buffer. */
    method Keep(input: seq<byte>, p: nat, ghost before: nat)
      requires mem.Length == 32 && p <= |input| < p + 32 && before <= |content|
      requires content[before..] == input
      requires p < |input| || memsize == 0
      requires TakenIn(content, before + p)
      requires totalLen == Wrap64(|content|)
      modifies mem, `memsize
      ensures Valid()
    {
      hide RoundBlock, InitLanes, Fold, Wrap64, LanesNow;
      if p < |input| {
        MemCpy(mem, 0, input[p..]);
        memsize := |input| - p;
      }
      assert mem[..memsize] == input[p..] == content[before + p..];
      assert |content| % 32 == memsize;
    }

    /** Too little to complete a block: it only joins the buffer. */
    method Stash(input: seq<byte>, ghost before: nat)
      requires mem.Length == 32 && memsize + |input| < 32 && memsize <= before
      requires before <= |content| && content[before..] == input
      requires mem[..memsize] == content[before - memsize..before]
      requires TakenIn(content, before - memsize) && totalLen == Wrap64(|content|)
      modifies mem, `memsize
      ensures Valid()
    {
      hide RoundBlock, InitLanes, Fold, Wrap64, LanesNow;
      SliceJoin(content, before - memsize, before);
      MemCpy(mem, memsize, input);
      memsize := memsize + |input|;
      assert mem[..memsize] == old(mem[..memsize]) + input;
      assert |content| % 32 == memsize;
    }

    method Update(input: seq<byte>)
      requires Valid()
      modifies this, v, mem
      ensures Valid() && seed == old(seed)
      ensures content == old(content) + input
    {
      hide RoundBlock, InitLanes, Fold, Wrap64, LanesNow, TakenIn;
      ghost var before := |content|;
      WrapAdd64(before, |input|);
      TakenInFromPrefix(content, content + input, before - memsize);
      totalLen := Wrap64(totalLen + |input|);
      content := content + input;
      assert content[before..] == input;
      if memsize + |input| < 32 {
        Stash(input, before);
        return;
      }
      var p: nat := 0;
      if memsize > 0 {
        p := TopUp(input, content, before);
      }
      p := Drain(input, p, content, before);
      Keep(input, p, before);
    }

    /** While no block has been hashed the third lane still is the seed. */
    lemma ShortLane(data: seq<byte>, q: nat)
      requires TakenIn(data, q) && q < 32
      ensures v[2] == seed
    {
    }

    /** Past 2^64 bytes the length test misfires only while the wrapped length is below 32. */
    method Digest() returns (h: u64)
      requires Valid()
      ensures Wrap64(|content|) >= 32 || |content| < 32 ==> h == Hash(seed, content)
    {
      hide RoundBlock, Converge, Avalanche, MixTail, AddLength, InitLanes, Fold, LanesNow, ShortStart, Wrap64;
      WrapRemainder(|content|);
      assert mem[..][..memsize] == mem[..memsize];
      if totalLen >= 32 {
        h := Converge(LanesNow());
      } else {
        h := ShortStart(v[2]);
        if |content| < 32 {
          ShortLane(content, |content| - memsize);
        }
      }
      AddWrappedLength(h, |content|);
      h := Finalize(AddLength(h, totalLen), mem[..], totalLen);
    }
  }

  /** Reset, any sequence of updates, digest: the hash of the joined pieces. */
  method HashPieces(chunks: seq<seq<byte>>, seed: u64) returns (streamed: u64, whole: u64)
    ensures whole == Hash(seed, Join(chunks))
    ensures Wrap64(|Join(chunks)|) >= 32 || |Join(chunks)| < 32 ==> streamed == whole
  {
    hide Hash, Wrap64;
    var state := new State(seed);
    for i := 0 to |chunks|
      invariant state.Valid() && fresh(state) && fresh(state.v) && fresh(state.mem)
      invariant state.seed == seed && state.content == Join(chunks[..i])
    {
      JoinPrefix(chunks, i);
      state.Update(chunks[i]);
    }
    assert chunks[..|chunks|] == chunks;
    streamed := state.Digest();
    whole := OneShot(Join(chunks), seed);
  }
}
