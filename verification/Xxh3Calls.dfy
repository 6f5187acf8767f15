/** Which stripe of a long input meets which part of the secret, and when the lanes are scrambled: a log of the calls. */
module Xxh3Calls {
  import opened Words
  import opened Xxh3Stripes

  datatype Call = Took(stripe: seq<byte>, key: seq<byte>) | Scrambled(key: seq<byte>)

  /** Stripe functions that only write down what they are given. */
  function Logger(): Kernel<seq<Call>> {
    Kernel((log: seq<Call>, stripe: Stripe, key: Stripe) => log + [Took(stripe, key)],
           (log: seq<Call>, key: Stripe) => log + [Scrambled(key)])
  }

  /** Where the call for stripe `j` is in the log, and where the scramble that ends block `b`. */
  function PlaceOf(j: nat, slots: nat): nat
    requires slots > 0
  {
    QuotientIsNat(j, slots);
    j + j / slots
  }

  function PlaceAfter(b: nat, slots: nat): nat {
    (b + 1) * slots + b
  }

  /** The calls for the first `n` stripes. */
  ghost predicate Logged(log: seq<Call>, secret: Secret, input: seq<byte>, n: nat)
    requires 64 * n <= |input|
  {
    var slots := (|secret| - 64) / 8;
    && |log| == PlaceOf(n, slots)
    && (forall j: nat :: j < n ==>
          && PlaceOf(j, slots) < |log| && 8 * (j % slots) + 64 <= |secret|
          && log[PlaceOf(j, slots)] == Took(input[64 * j..64 * j + 64], secret[8 * (j % slots)..8 * (j % slots) + 64]))
    && (forall b: nat :: b < n / slots ==>
          && PlaceAfter(b, slots) < |log| && log[PlaceAfter(b, slots)] == Scrambled(secret[|secret| - 64..]))
  }

  lemma NextPlace(n: nat, slots: nat)
    requires slots > 0
    ensures 0 <= n % slots < slots && n / slots >= 0
    ensures n % slots + 1 < slots ==> (n + 1) % slots == n % slots + 1 && (n + 1) / slots == n / slots
    ensures n % slots + 1 == slots ==> (n + 1) % slots == 0 && (n + 1) / slots == n / slots + 1
    ensures n % slots + 1 == slots ==> PlaceAfter(n / slots, slots) == PlaceOf(n, slots) + 1
  {
    var q, r := n / slots, n % slots;
    assert n == q * slots + r;
    if r + 1 < slots {
      RemainderIsUnique(n + 1, slots, q, r + 1);
    } else {
      assert n + 1 == (q + 1) * slots + 0;
      RemainderIsUnique(n + 1, slots, q + 1, 0);
    }
  }

  lemma LogExtends(log: seq<Call>, more: seq<Call>, secret: Secret, input: seq<byte>, n: nat)
    requires 64 * n + 64 <= |input| && Logged(log, secret, input, n) && log <= more
    requires var slots := SlotsPerBlock(secret);
             && 8 * (n % slots) + 64 <= |secret| && |more| == PlaceOf(n + 1, slots) > PlaceOf(n, slots)
             && more[PlaceOf(n, slots)] == Took(input[64 * n..64 * n + 64], secret[8 * (n % slots)..8 * (n % slots) + 64])
             && (n % slots + 1 == slots ==> more[|more| - 1] == Scrambled(secret[|secret| - 64..]))
    ensures Logged(more, secret, input, n + 1)
  {
    var slots := SlotsPerBlock(secret);
    NextPlace(n, slots);
    hide PlaceAfter;
  }

  lemma StepIsLogged(log: seq<Call>, secret: Secret, input: seq<byte>, at: nat, slot: nat)
    requires at + 64 <= |input| && slot < SlotsPerBlock(secret)
    ensures var took := Took(input[at..at + 64], secret[8 * slot..8 * slot + 64]);
            Absorb1(Logger(), secret, Cursor(log, slot), StripeAt(input, at)) ==
            if slot + 1 == SlotsPerBlock(secret) then Cursor(log + [took] + [Scrambled(secret[|secret| - 64..])], 0)
            else Cursor(log + [took], slot + 1)
  {
    assert KeyAt(secret, |secret| - 64) == secret[|secret| - 64..];
  }

  /** One more stripe, and the scramble if it is the last of its block. */
  lemma LogOneMore(log: seq<Call>, secret: Secret, input: seq<byte>, n: nat, c: Cursor<seq<Call>>)
    requires 64 * n + 64 <= |input| && Logged(log, secret, input, n)
    requires c == Cursor(log, n % SlotsPerBlock(secret)) && Inside(secret, c)
    ensures var d := Absorb1(Logger(), secret, c, StripeAt(input, 64 * n));
            Logged(d.acc, secret, input, n + 1) && d.slot == (n + 1) % SlotsPerBlock(secret)
  {
    var slots := SlotsPerBlock(secret);
    NextPlace(n, slots);
    StepIsLogged(log, secret, input, 64 * n, n % slots);
    var d := Absorb1(Logger(), secret, c, StripeAt(input, 64 * n));
    assert |log| == PlaceOf(n, slots);
    hide Absorb1, Logged, Logger;
    LogExtends(log, d.acc, secret, input, n);
  }

  lemma {:induction false} AbsorbIsLogged(secret: Secret, input: seq<byte>, n: nat)
    requires 64 * n <= |input|
    ensures var c := Absorb(Logger(), secret, Cursor([], 0), input, 0, n);
            Logged(c.acc, secret, input, n) && c.slot == n % SlotsPerBlock(secret)
  {
    if n == 0 {
      AbsorbNothing(Logger(), secret, Cursor([], 0), input, 0);
    } else {
      hide Logged, Logger, Absorb1, SlotsPerBlock;
      AbsorbIsLogged(secret, input, n - 1);
      AbsorbAppend(Logger(), secret, Cursor([], 0), input, 0, n - 1, 1);
      var c := Absorb(Logger(), secret, Cursor([], 0), input, 0, n - 1);
      LogOneMore(c.acc, secret, input, n - 1, c);
    }
  }

  /**
   * Stripe `j` meets the 64 bytes of the secret at eight times its slot, the end of the secret scrambles after
   * each whole block, and the last 64 bytes of the input meet the secret seven bytes before its last 64.
   */
  lemma CallsOfLong(secret: Secret, input: seq<byte>)
    requires |input| > 64
    ensures var log := LongAcc(Logger(), secret, [], input);
            && |log| > 0 && Logged(log[..|log| - 1], secret, input, (|input| - 1) / 64)
            && log[|log| - 1] == Took(input[|input| - 64..], secret[|secret| - 71..|secret| - 7])
  {
    var n := (|input| - 1) / 64;
    AbsorbIsLogged(secret, input, n);
    hide Logged, Absorb;
    var c := Absorb(Logger(), secret, Cursor([], 0), input, 0, n);
    assert LongAcc(Logger(), secret, [], input)[..|c.acc|] == c.acc;
  }
}
