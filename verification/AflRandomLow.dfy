/** rand_below_datalen prefers low values: of the ways the choices can fall, no value has fewer than a higher one. */
module AflRandomLow {
  import opened AflRandom
  import opened Words

  /** How often the values below `n`, each `ways(v)` times, end up as `r` when brought down by the choice `b`. */
  ghost function Times(ways: nat -> nat, n: nat, b: nat, r: nat): nat {
    if n == 0 then 0 else Times(ways, n - 1, b, r) + if Lowered(n - 1, b) == r then ways(n - 1) else 0
  }

  ghost function SumOverChoices(ways: nat -> nat, limit: nat, choices: nat, r: nat): nat {
    if choices == 0 then 0 else SumOverChoices(ways, limit, choices - 1, r) + Times(ways, limit, choices - 1, r)
  }

  /** The pairs of a plain choice and one more that give `r`, and the triples of a plain choice and two more. */
  ghost function WaysOnce(limit: nat, r: nat): nat
    requires limit > 0
  {
    SumOverChoices(v => 1, limit, limit - 1, r)
  }

  ghost function WaysTwice(limit: nat, r: nat): nat
    requires limit > 0
  {
    SumOverChoices(v => WaysOnce(limit, v), limit, limit - 1, r)
  }

  /** No value below `n` has fewer ways than a higher one. */
  ghost predicate Falls(ways: nat -> nat, n: nat) {
    forall u: nat, v: nat :: u <= v < n ==> ways(u) >= ways(v)
  }

  lemma NextLowered(n: nat, b: nat)
    ensures Lowered(0, b) == 0
    ensures Lowered(n + 1, b) == if Lowered(n, b) == b then 0 else Lowered(n, b) + 1
  {
    var q, c := n / (1 + b), n % (1 + b);
    assert n == q * (1 + b) + c;
    if c == b {
      RemainderIsUnique(n + 1, 1 + b, q + 1, 0);
    } else {
      RemainderIsUnique(n + 1, 1 + b, q, c + 1);
    }
  }

  /** Going up, `r` is met before `s` in each round: until `s` catches up it is a whole visit ahead. */
  lemma {:induction false} LowFirst(ways: nat -> nat, n: nat, b: nat, r: nat, s: nat)
    requires Falls(ways, n) && r < s <= b
    ensures Times(ways, n, b, r) >= Times(ways, n, b, s)
    ensures r < Lowered(n, b) <= s ==> Times(ways, n, b, r) >= Times(ways, n, b, s) + ways(n - Lowered(n, b) + r)
  {
    hide Lowered;
    NextLowered(0, b);
    if n > 0 {
      LowFirst(ways, n - 1, b, r, s);
      NextLowered(n - 1, b);
    }
  }

  lemma {:induction false} NeverAbove(ways: nat -> nat, n: nat, b: nat, s: nat)
    requires s > b
    ensures Times(ways, n, b, s) == 0
  {
    if n > 0 {
      NeverAbove(ways, n - 1, b, s);
    }
  }

  lemma {:induction false} LowInSum(ways: nat -> nat, limit: nat, choices: nat, r: nat, s: nat)
    requires Falls(ways, limit) && r <= s
    ensures SumOverChoices(ways, limit, choices, r) >= SumOverChoices(ways, limit, choices, s)
  {
    if choices > 0 {
      LowInSum(ways, limit, choices - 1, r, s);
      if s >= choices {
        NeverAbove(ways, limit, choices - 1, s);
      } else if r < s {
        LowFirst(ways, limit, choices - 1, r, s);
      }
    }
  }

  /** Whichever way the call takes, a value comes at least as often as any higher one. */
  lemma LowIsPreferred(limit: nat, r: nat, s: nat)
    requires r <= s < limit
    ensures WaysOnce(limit, r) >= WaysOnce(limit, s) && WaysTwice(limit, r) >= WaysTwice(limit, s)
  {
    LowInSum(v => 1, limit, limit - 1, r, s);
    forall u: nat, v: nat | u <= v < limit
      ensures WaysOnce(limit, u) >= WaysOnce(limit, v)
    {
      LowInSum(v => 1, limit, limit - 1, u, v);
    }
    LowInSum(v => WaysOnce(limit, v), limit, limit - 1, r, s);
  }

  lemma {:induction false} NoneAtTheTop(ways: nat -> nat, limit: nat, choices: nat, s: nat)
    requires s >= choices
    ensures SumOverChoices(ways, limit, choices, s) == 0
  {
    if choices > 0 {
      NoneAtTheTop(ways, limit, choices - 1, s);
      NeverAbove(ways, limit, choices - 1, s);
    }
  }

  /** Brought down once or twice, the result is never the highest value. */
  lemma HighestIsPlainOnly(limit: nat)
    requires limit > 1
    ensures WaysOnce(limit, limit - 1) == 0 && WaysTwice(limit, limit - 1) == 0
  {
    NoneAtTheTop(v => 1, limit, limit - 1, limit - 1);
    NoneAtTheTop(v => WaysOnce(limit, v), limit, limit - 1, limit - 1);
  }
}
