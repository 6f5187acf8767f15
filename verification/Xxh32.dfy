/** XXH32: one-shot, and the buffering state that hashes the same bytes in pieces. */
module Xxh32 {
  import opened Words
  import opened Striping

  const PRIME32_1: u32 := 0x9E3779B1
  const PRIME32_2: u32 := 0x85EBCA77
  const PRIME32_3: u32 := 0xC2B2AE3D
  const PRIME32_5: u32 := 0x165667B1

  /** The products with the five primes. */
  function Times1(x: u32): u32 { x * 0x9E3779B1 }

  function Times2(x: u32): u32 { x * 0x85EBCA77 }

  function Times3(x: u32): u32 { x * 0xC2B2AE3D }

  function Times4(x: u32): u32 { x * 0x27D4EB2F }

  function Times5(x: u32): u32 { x * 0x165667B1 }

  function Plus(x: u32, y: u32): u32 { x + y }

  function Round(acc: u32, input: u32): u32 {
    Times1(Rotl32(Plus(acc, Times2(input)), 13))
  }

  function Fold15(h: u32): u32 { h ^ (h >> 15) }

  function Fold13(h: u32): u32 { h ^ (h >> 13) }

  function Fold16(h: u32): u32 { h ^ (h >> 16) }

  function Avalanche(hash: u32): u32 {
    Fold16(Times3(Fold13(Times2(Fold15(hash)))))
  }

  datatype Lanes = Lanes(v1: u32, v2: u32, v3: u32, v4: u32)

  function InitLanes(seed: u32): Lanes {
    Lanes(seed + PRIME32_1 + PRIME32_2, seed + PRIME32_2, seed, seed - PRIME32_1)
  }

  function RoundBlock(v: Lanes, b: seq<byte>): Lanes
    requires |b| == 16
  {
    Lanes(Round(v.v1, ReadLE32(b, 0)), Round(v.v2, ReadLE32(b, 4)),
          Round(v.v3, ReadLE32(b, 8)), Round(v.v4, ReadLE32(b, 12)))
  }

  function Converge(v: Lanes): u32 {
    Plus(Plus(Plus(Rotl32(v.v1, 1), Rotl32(v.v2, 7)), Rotl32(v.v3, 12)), Rotl32(v.v4, 18))
  }

  function Mix4(h: u32, k: u32): u32 {
    Times4(Rotl32(Plus(h, Times3(k)), 17))
  }

  function Mix1(h: u32, k: byte): u32 {
    Times1(Rotl32(Plus(h, Times5(k as u32)), 11))
  }

  /** The tail of fewer than 16 bytes, from `at` on: fours, then ones. */
  function MixTail(h: u32, t: seq<byte>, at: nat): u32
    requires at <= |t|
    decreases |t| - at
  {
    if at + 4 <= |t| then MixTail(Mix4(h, ReadLE32(t, at)), t, at + 4)
    else if at < |t| then MixTail(Mix1(h, t[at]), t, at + 1)
    else h
  }

  function AddWord(h: u32, n: nat): u32
    requires n < 0x1_0000_0000
  {
    Plus(h, n as u32)
  }

  function AddLength(h: u32, len: nat): u32 {
    AddWord(h, Wrap32(len))
  }

  lemma AddWrappedLength(h: u32, len: nat)
    ensures AddLength(h, Wrap32(len)) == AddLength(h, len)
  {
    hide AddWord;
    assert Wrap32(Wrap32(len)) == Wrap32(len);
  }

  function ShortStart(seed: u32): u32 {
    seed + PRIME32_5
  }

  /** The hash of a byte string. */
  ghost function Hash(seed: u32, data: seq<byte>): u32 {
    var cut := |data| - |data| % 16;
    var h := if |data| >= 16 then Converge(Fold(16, RoundBlock, InitLanes(seed), data[..cut]))
             else ShortStart(seed);
    Avalanche(MixTail(AddLength(h, |data|), data[cut..], 0))
  }

  method Finalize(hash: u32, p: seq<byte>, len: nat) returns (h: u32)
    requires |p| >= len % 16
    ensures h == Avalanche(MixTail(hash, p[..len % 16], 0))
  {
    hide Mix4, Mix1, ReadLE32, Avalanche;
    h := hash;
    var t := p[..len % 16];
    var at: nat := 0;
    while at + 4 <= |t|
      invariant at <= |t|
      invariant MixTail(h, t, at) == MixTail(hash, t, 0)
    {
      h := Mix4(h, ReadLE32(t, at));
      at := at + 4;
    }
    while at < |t|
      invariant at <= |t| < at + 4
      invariant MixTail(h, t, at) == MixTail(hash, t, 0)
    {
      h := Mix1(h, t[at]);
      at := at + 1;
    }
    h := Avalanche(h);
  }

  method OneShot(input: seq<byte>, seed: u32) returns (h: u32)
    ensures h == Hash(seed, input)
  {
    hide RoundBlock, Converge, InitLanes, Avalanche, MixTail, AddLength, ShortStart;
    var at: nat := 0;
    if |input| >= 16 {
      var v := InitLanes(seed);
      while at + 16 <= |input|
        invariant at % 16 == 0 && at <= |input|
        invariant v == Fold(16, RoundBlock, InitLanes(seed), input[..at])
      {
        FoldStep(16, RoundBlock, InitLanes(seed), input, at / 16, at);
        v := RoundBlock(v, input[at..at + 16]);
        at := at + 16;
      }
      h := Converge(v);
    } else {
      h := ShortStart(seed);
    }
    var tail := input[at..];
    assert at == |input| - |input| % 16;
    assert tail[..|input| % 16] == tail;
    h := Finalize(AddLength(h, |input|), tail, |input| % 16);
  }

  /** Wrapping can only follow a length the flag has already seen. */
  lemma CountedLength(total: nat, large: bool, before: nat, more: nat)
    requires total == Wrap32(before) && large == (before >= 16)
    ensures Wrap32(total + more) == Wrap32(before + more)
    ensures (large || more >= 16 || Wrap32(total + more) >= 16) == (before + more >= 16)
  {
    WrapAdd32(before, more);
    WrapRemainder(before + more);
  }

  class State {
    var totalLen32: nat
    var largeLen: bool
    const v: array<u32>
    const mem: array<byte>
    var memsize: nat

    ghost var seed: u32
    ghost var content: seq<byte>

    function LanesNow(): Lanes
      requires v.Length == 4
      reads v
    {
      Lanes(v[0], v[1], v[2], v[3])
    }

    /** The lanes have taken in exactly the first `q` bytes of `data`, a whole number of blocks. */
    ghost predicate TakenIn(data: seq<byte>, q: nat)
      reads `seed, v
    {
      && v.Length == 4 && q <= |data| && q % 16 == 0
      && LanesNow() == Fold(16, RoundBlock, InitLanes(seed), data[..q])
    }

    /** Whole blocks have gone into the lanes; the rest waits at the front of `mem`. */
    ghost predicate Valid()
      reads this, v, mem
    {
      && v.Length == 4 && mem.Length == 16
      && totalLen32 == Wrap32(|content|)
      && largeLen == (|content| >= 16)
      && memsize == |content| % 16
      && mem[..memsize] == content[|content| - memsize..]
      && TakenIn(content, |content| - memsize)
    }

    method Reset(seed: u32)
      requires v.Length == 4 && mem.Length == 16
      modifies this, v, mem
      ensures Valid() && this.seed == seed && content == []
    {
      hide RoundBlock;
      totalLen32, memsize, largeLen := 0, 0, false;
      forall i | 0 <= i < 16 {
        mem[i] := 0;
      }
      var start := InitLanes(seed);
      v[0], v[1], v[2], v[3] := start.v1, start.v2, start.v3, start.v4;
      this.seed, content := seed, [];
    }

    constructor (seed: u32)
      ensures Valid() && this.seed == seed && content == []
      ensures fresh(v) && fresh(mem)
    {
      v := new u32[4];
      mem := new byte[16];
      totalLen32, memsize, largeLen := 0, 0, false;
      new;
      Reset(seed);
    }

    method ConsumeBlock(p: seq<byte>, ghost data: seq<byte>, ghost q: nat)
      requires TakenIn(data, q) && q + 16 <= |data| && p == data[q..q + 16]
      modifies v
      ensures TakenIn(data, q + 16)
    {
      hide Round, ReadLE32, InitLanes, Fold;
      FoldStep(16, RoundBlock, InitLanes(seed), data, q / 16, q);
      v[0] := Round(v[0], ReadLE32(p, 0));
      v[1] := Round(v[1], ReadLE32(p, 4));
      v[2] := Round(v[2], ReadLE32(p, 8));
      v[3] := Round(v[3], ReadLE32(p, 12));
    }

    lemma TakenInFromPrefix(data: seq<byte>, all: seq<byte>, q: nat)
      requires TakenIn(data, q) && data <= all
      ensures TakenIn(all, q)
    {
      hide RoundBlock, InitLanes, Fold;
      assert all[..q] == data[..q];
    }

    /** The input completes the waiting block. */
    method TopUp(input: seq<byte>, ghost all: seq<byte>, ghost before: nat) returns (p: nat)
      requires mem.Length == 16 && memsize <= 16 <= memsize + |input|
      requires memsize <= before <= |all| && all[before..] == input
      requires mem[..memsize] == all[before - memsize..before]
      requires TakenIn(all, before - memsize)
      modifies v, mem, `memsize
      ensures p == 16 - old(memsize) && memsize == 0
      ensures TakenIn(all, before + p)
    {
      hide TakenIn;
      p := 16 - memsize;
      MemCpy(mem, memsize, input[..p]);
      assert mem[..] == all[before - memsize..before + p];
      ConsumeBlock(mem[..], all, before - memsize);
      memsize := 0;
    }

    /** Whole blocks are hashed straight from the input. */
    method Drain(input: seq<byte>, start: nat, ghost all: seq<byte>, ghost before: nat) returns (p: nat)
      requires before <= |all| && all[before..] == input && start <= |input|
      requires TakenIn(all, before + start)
      modifies v
      ensures start <= p <= |input| < p + 16
      ensures TakenIn(all, before + p)
    {
      hide TakenIn;
      p := start;
      while p + 16 <= |input|
        invariant start <= p <= |input|
        invariant TakenIn(all, before + p)
      {
        assert input[p..p + 16] == all[before + p..before + p + 16];
        ConsumeBlock(input[p..p + 16], all, before + p);
        p := p + 16;
      }
    }

    method StoreRest(rest: seq<byte>)
      requires mem.Length == 16 && |rest| < 16 && (rest != [] || memsize == 0)
      modifies mem, `memsize
      ensures memsize == |rest| && mem[..memsize] == rest
    {
      if rest != [] {
        MemCpy(mem, 0, rest);
        memsize := |rest|;
      }
    }

    /** The last partial block goes to the front of the buffer. */
    method Keep(input: seq<byte>, p: nat, ghost before: nat)
      requires mem.Length == 16 && p <= |input| < p + 16 && before <= |content|
      requires content[before..] == input
      requires p < |input| || memsize == 0
      requires TakenIn(content, before + p)
      requires totalLen32 == Wrap32(|content|) && largeLen == (|content| >= 16)
      modifies mem, `memsize
      ensures Valid()
    {
      hide RoundBlock, InitLanes, Fold, Wrap32, LanesNow;
      StoreRest(input[p..]);
      Window(content, before, input, p, |input|);
    }

    /** Too little to complete a block: it only joins the buffer. */
    method Stash(input: seq<byte>, ghost before: nat)
      requires mem.Length == 16 && memsize + |input| < 16 && memsize <= before
      requires before <= |content| && content[before..] == input
      requires mem[..memsize] == content[before - memsize..before]
      requires TakenIn(content, before - memsize) && totalLen32 == Wrap32(|content|)
      requires largeLen == (|content| >= 16)
      modifies mem, `memsize
      ensures Valid()
    {
      hide RoundBlock, InitLanes, Fold, Wrap32, LanesNow;
      SliceJoin(content, before - memsize, before);
      MemCpy(mem, memsize, input);
      memsize := memsize + |input|;
      assert mem[..memsize] == old(mem[..memsize]) + input;
      assert |content| % 16 == memsize;
    }

    /** The buffer holds the bytes in front of position `before` that are not in the lanes. */
    ghost predicate Waiting(before: nat)
      reads this, v, mem
    {
      && mem.Length == 16 && memsize <= 16 && memsize <= before <= |content|
      && mem[..memsize] == content[before - memsize..before]
      && TakenIn(content, before - memsize)
    }

    /** The counters take the new length; what waits is still the end of what came before. */
    method Count(input: seq<byte>)
      requires Valid()
      modifies `totalLen32, `largeLen, `content
      ensures content == old(content) + input
      ensures totalLen32 == Wrap32(|content|) && largeLen == (|content| >= 16)
      ensures memsize < 16 && Waiting(|old(content)|)
    {
      hide RoundBlock, InitLanes, Fold, Wrap32, LanesNow, TakenIn;
      TakenInFromPrefix(content, content + input, |content| - memsize);
      CountedLength(totalLen32, largeLen, |content|, |input|);
      FrontSlice(content, input, |content| - memsize);
      totalLen32 := Wrap32(totalLen32 + |input|);
      largeLen := largeLen || |input| >= 16 || totalLen32 >= 16;
      content := content + input;
    }

    method Update(input: seq<byte>)
      requires Valid()
      modifies this, v, mem
      ensures Valid() && seed == old(seed)
      ensures content == old(content) + input
    {
      hide RoundBlock, InitLanes, Fold, Wrap32, LanesNow, TakenIn, Valid;
      ghost var before := |content|;
      Count(input);
      assert content[before..] == input;
      if memsize + |input| < 16 {
        Stash(input, before);
        return;
      }
      var p: nat := 0;
      if memsize > 0 {
        p := TopUp(input, content, before);
      }
      p := Drain(input, p, content, before);
      Keep(input, p, before);
    }

    /** While no block has been hashed the third lane still is the seed. */
    lemma ShortLane(data: seq<byte>, q: nat)
      requires TakenIn(data, q) && q < 16
      ensures v[2] == seed
    {
    }

    /** The flag remembers a long input after the 32-bit length has wrapped. */
    method Digest() returns (h: u32)
      requires Valid()
      ensures h == Hash(seed, content)
    {
      hide RoundBlock, Converge, Avalanche, MixTail, AddLength, InitLanes, Fold, LanesNow, ShortStart, Wrap32;
      WrapRemainder(|content|);
      assert mem[..][..memsize] == mem[..memsize];
      if largeLen {
        h := Converge(LanesNow());
      } else {
        h := ShortStart(v[2]);
        ShortLane(content, |content| - memsize);
      }
      AddWrappedLength(h, |content|);
      h := Finalize(AddLength(h, totalLen32), mem[..], memsize);
    }
  }

  /** Reset, any sequence of updates, digest: the hash of the joined pieces. */
  method HashPieces(chunks: seq<seq<byte>>, seed: u32) returns (streamed: u32, whole: u32)
    ensures whole == Hash(seed, Join(chunks))
    ensures streamed == whole
  {
    hide Hash, Wrap32;
    var state := new State(seed);
    for i := 0 to |chunks|
      invariant state.Valid() && fresh(state) && fresh(state.v) && fresh(state.mem)
      invariant state.seed == seed && state.content == Join(chunks[..i])
    {
      JoinPrefix(chunks, i);
      state.Update(chunks[i]);
    }
    assert chunks[..|chunks|] == chunks;
    streamed := state.Digest();
    whole := OneShot(Join(chunks), seed);
  }
}
