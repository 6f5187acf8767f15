/** The XXH3 streaming state: four resets, update, and the 64-bit digest. */
module Xxh3Stream {
  import opened Options
  import opened Words
  import opened Xxh3Stripes
  import opened Xxh3Lanes
  import opened Xxh3Short
  import opened Xxh3

  class State {
    var acc: Acc
    const customSecret: array<byte>
    const buffer: array<byte>
    var bufferedSize: nat
    var useSeed: bool
    var nbStripesSoFar: nat
    var totalLen: nat
    var nbStripesPerBlock: nat
    var secretLimit: nat
    var seed: u64
    var extSecret: Option<seq<byte>>

    ghost var mode: Mode
    ghost var content: seq<byte>
    ghost var stripes: nat

    /** True after any history of resets, failed ones included: a seed without an external secret has its secret cached. */
    ghost predicate Valid()
      reads this, customSecret
    {
      && customSecret.Length == 192 && buffer.Length == 256
      && (extSecret.None? && seed != 0 ==> customSecret[..] == CustomSecret(seed))
    }

    function SecretInUse(): seq<byte>
      reads this, customSecret
    {
      if extSecret.None? then customSecret[..] else extSecret.value
    }

    /** The fields say how `mode` keys the hash. */
    ghost predicate KeyedFor(mode: Mode)
      reads `useSeed, `seed, `extSecret
    {
      match mode
      case Default => !useSeed && extSecret == Some(KSecret())
      case Seeded(s) => if s == 0 then !useSeed && extSecret == Some(KSecret()) else useSeed && seed == s && extSecret == None
      case WithSecret(k) => !useSeed && extSecret == Some(k)
      case WithSecretAndSeed(k, s) => useSeed && seed == s && extSecret == Some(k)
    }

    /** Behind the waiting bytes the end of the buffer still holds the end of what was consumed. */
    ghost predicate LastStripeKept(data: seq<byte>, m: nat)
      requires m >= 4 && 64 * m <= |data| && buffer.Length == 256
      reads `bufferedSize, buffer
    {
      forall i :: 192 <= i < 256 && bufferedSize <= i ==> buffer[i] == data[64 * m - 256 + i]
    }

    /** `m` stripes of `data` are in the accumulators and the rest waits in the buffer. */
    ghost predicate Buffered(data: seq<byte>, m: nat)
      reads `bufferedSize, buffer
    {
      && buffer.Length == 256 && bufferedSize <= 256
      && 64 * m + bufferedSize == |data|
      && buffer[..bufferedSize] == data[64 * m..]
      // Something is always withheld, and a short input is all in the buffer.
      && (m == 0 <==> |data| <= 256)
      && (m > 0 ==> bufferedSize > 0 && m >= 4 && LastStripeKept(data, m))
    }

    /** Ready for more input, or for a digest. */
    ghost predicate Streaming()
      reads this, customSecret, buffer
    {
      && Valid() && KeyedFor(mode)
      && totalLen == Wrap64(|content|)
      && secretLimit == |LongSecret(mode)| - 64 && nbStripesPerBlock == SlotsPerBlock(LongSecret(mode))
      && Buffered(content, stripes)
      && Taken(LongSecret(mode), acc, nbStripesSoFar, content, stripes)
    }

    lemma SecretOfMode()
      requires Valid() && KeyedFor(mode)
      ensures SecretInUse() == LongSecret(mode)
    {
      hide KSecret, CustomSecret;
    }

    /** XXH3_createState: the arrays and the other fields start with whatever is in memory. */
    constructor ()
      ensures Valid() && fresh(customSecret) && fresh(buffer)
    {
      customSecret := new byte[192];
      buffer := new byte[256];
      seed, extSecret := 0, None;
    }

    /** XXH3_reset_internal. */
    method ResetInternal(seed: u64, secret: Option<seq<byte>>, secretSize: nat)
      modifies `acc, `bufferedSize, `useSeed, `nbStripesSoFar, `totalLen, `nbStripesPerBlock, `secretLimit, `seed, `extSecret, `content, `stripes
      ensures this.seed == seed && extSecret == secret && useSeed == (seed != 0)
      ensures acc == InitAcc() && bufferedSize == nbStripesSoFar == totalLen == 0
      ensures secretLimit == Wrap64(secretSize + 0xFFFF_FFFF_FFFF_FFC0) && nbStripesPerBlock == secretLimit / 8
      ensures content == [] && stripes == 0
    {
      bufferedSize, nbStripesSoFar, totalLen := 0, 0, 0;
      acc := InitAcc();
      this.seed, useSeed, extSecret := seed, seed != 0, secret;
      secretLimit := Wrap64(secretSize + 0xFFFF_FFFF_FFFF_FFC0);
      nbStripesPerBlock := secretLimit / 8;
      content, stripes := [], 0;
    }

    /** A fresh start under a secret of a legal size. */
    lemma FreshStart(secret: Secret)
      requires Valid() && KeyedFor(mode) && secret == LongSecret(mode) && |secret| < 0x1_0000_0000_0000_0000
      requires acc == InitAcc() && bufferedSize == nbStripesSoFar == totalLen == 0 && content == [] && stripes == 0
      requires secretLimit == Wrap64(|secret| + 0xFFFF_FFFF_FFFF_FFC0) && nbStripesPerBlock == secretLimit / 8
      ensures Streaming()
    {
      hide KSecret, CustomSecret, LongSecret, InitAcc, Lanes, KeyedFor, Absorb;
      assert secretLimit == |secret| - 64;
      assert buffer[..0] == content[0..];
      AbsorbNothing(Lanes(), secret, Cursor(InitAcc(), 0), content, 0);
    }

    /** XXH3_64bits_reset. */
    method Reset()
      requires Valid()
      modifies this
      ensures Valid() && Streaming() && mode == Default && content == []
    {
      hide KSecret, CustomSecret, InitAcc;
      ResetInternal(0, Some(KSecret()), 192);
      mode := Default;
      FreshStart(KSecret());
    }

    /** XXH3_64bits_reset_withSeed: the derived secret is rebuilt only when it may be stale. */
    method ResetWithSeed(seed: u64)
      requires Valid()
      modifies this, customSecret
      ensures Valid() && Streaming() && mode == Seeded(seed) && content == []
    {
      hide KSecret, CustomSecret, InitAcc;
      if seed == 0 {
        Reset();
        mode := Seeded(0);
        FreshStart(KSecret());
        return;
      }
      if seed != this.seed || extSecret.Some? {
        InitCustomSecret(customSecret, seed);
      }
      ResetInternal(seed, None, 192);
      mode := Seeded(seed);
      FreshStart(CustomSecret(seed));
    }

    /** XXH3_64bits_reset_withSecret: reports a missing or short secret, after it has reset the fields. */
    method ResetWithSecret(secret: Option<seq<byte>>, secretSize: nat) returns (ok: bool)
      requires Valid() && (secret.Some? ==> |secret.value| == secretSize) && secretSize < 0x1_0000_0000_0000_0000
      modifies this
      ensures Valid() && ok == (secret.Some? && secretSize >= 136)
      ensures ok ==> Streaming() && mode == WithSecret(secret.value) && content == []
    {
      hide KSecret, CustomSecret, InitAcc;
      ResetInternal(0, secret, secretSize);
      if secret.None? {
        return false;
      }
      if secretSize < 136 {
        return false;
      }
      mode := WithSecret(secret.value);
      FreshStart(secret.value);
      return true;
    }

    /** XXH3_64bits_reset_withSecretandSeed: refuses before it touches anything. */
    method ResetWithSecretAndSeed(secret: Option<seq<byte>>, secretSize: nat, seed64: u64) returns (ok: bool)
      requires Valid() && (secret.Some? ==> |secret.value| == secretSize) && secretSize < 0x1_0000_0000_0000_0000
      modifies this
      ensures Valid() && ok == (secret.Some? && secretSize >= 136)
      ensures ok ==> Streaming() && mode == WithSecretAndSeed(secret.value, seed64) && content == []
      ensures !ok && old(Streaming()) ==> Streaming() && mode == old(mode) && content == old(content)
    {
      hide KSecret, CustomSecret, InitAcc;
      if secret.None? || secretSize < 136 {
        return false;
      }
      ResetInternal(seed64, secret, secretSize);
      useSeed := true;
      mode := WithSecretAndSeed(secret.value, seed64);
      FreshStart(secret.value);
      return true;
    }

    /** The secret, and where `all` continues in `input`. */
    ghost predicate Continues(secret: Secret, input: seq<byte>, all: seq<byte>, before: nat)
      reads `nbStripesPerBlock, `secretLimit
    {
      && nbStripesPerBlock == SlotsPerBlock(secret) && secretLimit == |secret| - 64
      && before <= |all| && all[before..] == input
    }

    /** The input completes the buffer, which is then consumed. */
    method FillBuffer(secret: Secret, input: seq<byte>, ghost all: seq<byte>, ghost before: nat) returns (p: nat)
      requires Continues(secret, input, all, before)
      requires buffer.Length == 256 && bufferedSize <= 256 < bufferedSize + |input|
      requires 64 * stripes + bufferedSize == before && buffer[..bufferedSize] == all[64 * stripes..before]
      requires Taken(secret, acc, nbStripesSoFar, all, stripes)
      modifies buffer, `acc, `nbStripesSoFar, `bufferedSize, `stripes
      ensures p == 256 - old(bufferedSize) && bufferedSize == 0
      ensures stripes == old(stripes) + 4 && 64 * stripes == before + p
      ensures buffer[192..] == all[64 * stripes - 64..64 * stripes]
      ensures Taken(secret, acc, nbStripesSoFar, all, stripes)
    {
      hide Taken, SlotsPerBlock, Lanes, InitAcc, Absorb;
      TakenIsInside(secret, acc, nbStripesSoFar, all, stripes);
      p := 256 - bufferedSize;
      MemCpy(buffer, bufferedSize, input[..p]);
      ghost var at := 64 * stripes;
      Window(all, before, input, 0, p);
      assert buffer[..] == all[at..at + 256];
      var acc2, soFar2, end := ConsumeStripes(Lanes(), secret, acc, nbStripesSoFar, buffer[..], 0, 4, nbStripesPerBlock, secretLimit);
      assert buffer[..][0..256] == all[at..at + 256];
      TakeMore(secret, acc, nbStripesSoFar, all, stripes, acc2, soFar2, buffer[..], 0, 4);
      acc, nbStripesSoFar, bufferedSize := acc2, soFar2, 0;
      stripes := stripes + 4;
      assert buffer[192..] == buffer[..][192..];
    }

    /** All stripes that end before the last byte go straight from the input; the last one is kept. */
    method ConsumeInput(secret: Secret, input: seq<byte>, start: nat, ghost all: seq<byte>, ghost before: nat) returns (p: nat)
      requires Continues(secret, input, all, before)
      requires buffer.Length == 256 && bufferedSize == 0 && start + 256 < |input| && 64 * stripes == before + start
      requires Taken(secret, acc, nbStripesSoFar, all, stripes)
      modifies buffer, `acc, `nbStripesSoFar, `stripes
      ensures p < |input| <= p + 64 && stripes >= old(stripes) + 4 && 64 * stripes == before + p
      ensures buffer[192..] == all[64 * stripes - 64..64 * stripes]
      ensures Taken(secret, acc, nbStripesSoFar, all, stripes)
    {
      hide Taken, SlotsPerBlock, Lanes, InitAcc, Absorb;
      TakenIsInside(secret, acc, nbStripesSoFar, all, stripes);
      var nbStripes := (|input| - 1 - start) / 64;
      var acc2, soFar2, end := ConsumeStripes(Lanes(), secret, acc, nbStripesSoFar, input, start, nbStripes, nbStripesPerBlock, secretLimit);
      Window(all, before, input, start, start + 64 * nbStripes);
      TakeMore(secret, acc, nbStripesSoFar, all, stripes, acc2, soFar2, input, start, nbStripes);
      acc, nbStripesSoFar, p := acc2, soFar2, end;
      stripes := stripes + nbStripes;
      Window(all, before, input, p - 64, p);
      MemCpy(buffer, 192, input[p - 64..p]);
    }

    /** What is left goes to the front of the buffer. */
    method KeepRest(input: seq<byte>, p: nat, ghost all: seq<byte>, ghost before: nat)
      requires before <= |all| && all[before..] == input
      requires buffer.Length == 256 && p < |input| <= p + 256
      requires stripes >= 4 && 64 * stripes == before + p && |all| > 256
      requires buffer[192..] == all[64 * stripes - 64..64 * stripes]
      modifies buffer, `bufferedSize
      ensures Buffered(all, stripes)
    {
      MemCpy(buffer, 0, input[p..]);
      bufferedSize := |input| - p;
      assert input[p..] == all[64 * stripes..];
      forall i | 192 <= i < 256 && bufferedSize <= i
        ensures buffer[i] == all[64 * stripes - 256 + i]
      {
        assert old(buffer[192..])[i - 192] == old(buffer[i]);
        assert all[64 * stripes - 64..64 * stripes][i - 192] == all[64 * stripes - 256 + i];
      }
    }

    /** Too little to fill the buffer: it only joins what waits there. */
    method Stash(input: seq<byte>, ghost data: seq<byte>)
      requires Buffered(data, stripes) && |input| <= 256 - bufferedSize
      modifies buffer, `bufferedSize
      ensures Buffered(data + input, stripes)
    {
      ghost var all := data + input;
      MemCpy(buffer, bufferedSize, input);
      bufferedSize := bufferedSize + |input|;
      assert all[64 * stripes..] == data[64 * stripes..] + input;
      if stripes > 0 {
        forall i | 192 <= i < 256 && bufferedSize <= i
          ensures buffer[i] == all[64 * stripes - 256 + i]
        {
          assert buffer[i] == old(buffer[i]) == data[64 * stripes - 256 + i];
        }
      }
    }

    lemma BufferFacts(data: seq<byte>, m: nat)
      requires Buffered(data, m)
      ensures buffer.Length == 256 && bufferedSize <= 256
      ensures 64 * m + bufferedSize == |data| && buffer[..bufferedSize] == data[64 * m..]
      ensures bufferedSize == 0 ==> m == 0
    {
    }

    /** XXH3_update. */
    method Update(input: seq<byte>)
      requires Streaming()
      modifies this, buffer
      ensures Streaming() && mode == old(mode)
      ensures content == old(content) + input
    {
      hide Taken, LongSecret, KeyedFor, SlotsPerBlock, Wrap64, CustomSecret, KSecret, LastStripeKept, Buffered;
      SecretOfMode();
      BufferFacts(content, stripes);
      var secret: Secret := SecretInUse();
      ghost var all, before := content + input, |content|;
      WrapAdd64(before, |input|);
      TakenInPrefix(secret, acc, nbStripesSoFar, content, all, stripes);
      totalLen := Wrap64(totalLen + |input|);
      if |input| <= 256 - bufferedSize {
        Stash(input, content);
        content := all;
        return;
      }
      content := all;
      assert all[before..] == input;
      var p: nat := 0;
      if bufferedSize > 0 {
        assert buffer[..bufferedSize] == all[64 * stripes..before];
        p := FillBuffer(secret, input, all, before);
      }
      if |input| - p > 256 {
        p := ConsumeInput(secret, input, p, all, before);
      }
      KeepRest(input, p, all, before);
    }

    /** The withheld bytes, and what is left of the last stripe at the end of the buffer, spell the last 64 bytes. */
    lemma LastStripe()
      requires Buffered(content, stripes) && |content| > 256 && bufferedSize < 64
      ensures buffer[192 + bufferedSize..] + buffer[..bufferedSize] == content[|content| - 64..]
    {
    }

    /** The stripes that still wait in the buffer, all but the last, and that last one. */
    method DrainCopy(secret: Secret) returns (r: Acc, ghost soFar: nat, lastStripe: Stripe)
      requires Streaming() && secret == LongSecret(mode) && bufferedSize >= 64
      ensures Taken(secret, r, soFar, content, (|content| - 1) / 64)
      ensures lastStripe == content[|content| - 64..]
    {
      hide LongSecret, KeyedFor, SlotsPerBlock, Taken, LastStripeKept, Valid, Wrap64;
      TakenIsInside(secret, acc, nbStripesSoFar, content, stripes);
      var nbStripes := (bufferedSize - 1) / 64;
      var slot, end;
      r, slot, end := ConsumeStripes(Lanes(), secret, acc, nbStripesSoFar, buffer[..], 0, nbStripes, nbStripesPerBlock, secretLimit);
      soFar := slot;
      assert buffer[..][0..64 * nbStripes] == content[64 * stripes..64 * stripes + 64 * nbStripes];
      TakeMore(secret, acc, nbStripesSoFar, content, stripes, r, slot, buffer[..], 0, nbStripes);
      lastStripe := buffer[bufferedSize - 64..bufferedSize];
      assert (|content| - 1) / 64 == stripes + nbStripes;
    }

    /** XXH3_digest_long, on a copy of the accumulators. */
    method DigestLong(secret: Secret) returns (r: Acc)
      requires Streaming() && secret == LongSecret(mode) && |content| > 240
      ensures r == LongAcc(Lanes(), secret, InitAcc(), content)
    {
      hide LongSecret, KeyedFor, SlotsPerBlock, LastStripeKept, Absorb, InitAcc, KeyAt, Lanes, Wrap64;
      ghost var soFar: nat;
      var lastStripe: Stripe;
      if bufferedSize >= 64 {
        r, soFar, lastStripe := DrainCopy(secret);
      } else {
        r, soFar := acc, nbStripesSoFar;
        var catchupSize := 64 - bufferedSize;
        LastStripe();
        lastStripe := buffer[256 - catchupSize..] + buffer[..bufferedSize];
        assert (|content| - 1) / 64 == stripes;
      }
      assert Taken(secret, r, soFar, content, (|content| - 1) / 64);
      assert lastStripe == StripeAt(content, |content| - 64);
      r := Lanes().accumulate512(r, lastStripe, KeyAt(secret, secretLimit - 7));
    }

    /** XXH3_64bits_digest. The state is only read. */
    method Digest() returns (h: u64)
      requires Streaming()
      ensures Wrap64(|content|) > 240 || |content| <= 240 ==> h == Hash(mode, content)
    {
      hide Taken, LongSecret, SlotsPerBlock, LastStripeKept, Wrap64, CustomSecret, KSecret, MergeAccs, TimesPrime, Short, LongAcc, Lanes, InitAcc;
      SecretOfMode();
      WrapRemainder(|content|);
      var secret: Secret := SecretInUse();
      if totalLen > 240 {
        var r := DigestLong(secret);
        WrappedLength(|content|);
        return MergeAccs(r, secret, TimesPrime(totalLen));
      }
      assert |content| <= 240 ==> buffer[..totalLen] == content;
      if useSeed {
        return Short(buffer[..totalLen], KSecret(), seed);
      }
      assert secret[..secretLimit + 64] == secret;
      return Short(buffer[..totalLen], secret[..secretLimit + 64], 0);
    }
  }

  /** Which reset was called; a seed of zero and a short secret are legal calls. */
  datatype ResetCall =
    | Plain
    | BySeed(seed: u64)
    | BySecret(secret: Option<seq<byte>>, size: nat)
    | BySecretAndSeed(secret: Option<seq<byte>>, size: nat, seed: u64)
  {
    predicate Legal() {
      match this
      case BySecret(s, n) => (s.Some? ==> |s.value| == n) && n < 0x1_0000_0000_0000_0000
      case BySecretAndSeed(s, n, _) => (s.Some? ==> |s.value| == n) && n < 0x1_0000_0000_0000_0000
      case _ => true
    }

    /** The mode a reset that reports success puts the state in. */
    function Outcome(): Option<Mode> {
      match this
      case Plain => Some(Default)
      case BySeed(seed) => Some(Seeded(seed))
      case BySecret(s, n) => if s.Some? && |s.value| >= 136 then Some(WithSecret(s.value)) else None
      case BySecretAndSeed(s, n, seed) => if s.Some? && |s.value| >= 136 then Some(WithSecretAndSeed(s.value, seed)) else None
    }
  }

  method Apply(state: State, call: ResetCall) returns (ok: bool)
    requires state.Valid() && call.Legal()
    modifies state, state.customSecret
    ensures state.Valid() && ok == call.Outcome().Some?
    ensures ok ==> state.Streaming() && state.mode == call.Outcome().value && state.content == []
  {
    ok := true;
    match call
    case Plain => state.Reset();
    case BySeed(seed) => state.ResetWithSeed(seed);
    case BySecret(s, n) => ok := state.ResetWithSecret(s, n);
    case BySecretAndSeed(s, n, seed) => ok := state.ResetWithSecretAndSeed(s, n, seed);
  }

  method Feed(state: State, chunks: seq<seq<byte>>)
    requires state.Streaming()
    modifies state, state.buffer
    ensures state.Valid() && state.Streaming() && state.mode == old(state.mode)
    ensures state.content == old(state.content) + Join(chunks)
  {
    hide State.KeyedFor, State.Buffered, Taken, LongSecret, Wrap64, CustomSecret, SlotsPerBlock;
    for i := 0 to |chunks|
      invariant state.Streaming() && state.mode == old(state.mode)
      invariant state.content == old(state.content) + Join(chunks[..i])
    {
      JoinPrefix(chunks, i);
      state.Update(chunks[i]);
    }
    assert chunks[..|chunks|] == chunks;
  }

  /**
   * After any earlier resets and updates, one reset that succeeds, then the input in any pieces:
   * the digest is the one-shot hash of the joined pieces under the mode of that reset.
   */
  method HashPieces(history: seq<(ResetCall, seq<seq<byte>>)>, last: ResetCall, chunks: seq<seq<byte>>) returns (streamed: u64, whole: u64)
    requires forall i :: 0 <= i < |history| ==> history[i].0.Legal()
    requires last.Legal() && last.Outcome().Some?
    ensures whole == Hash(last.Outcome().value, Join(chunks))
    ensures Wrap64(|Join(chunks)|) > 240 || |Join(chunks)| <= 240 ==> streamed == whole
  {
    hide Hash, Wrap64;
    var state := new State();
    for i := 0 to |history|
      invariant fresh(state) && fresh(state.buffer) && fresh(state.customSecret) && state.Valid()
    {
      var ok := Apply(state, history[i].0);
      if ok {
        Feed(state, history[i].1);
      }
    }
    var done := Apply(state, last);
    Feed(state, chunks);
    assert state.content == Join(chunks);
    streamed := state.Digest();
    whole := OneShot(last.Outcome().value, Join(chunks));
  }
}
