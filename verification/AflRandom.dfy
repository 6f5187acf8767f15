/** rand_below: how many draws lead to each result. */
module AflRandom {
  import opened Options
  import opened Words

  const DRAWS64: nat := 0x1_0000_0000_0000_0000
  const DRAWS32: nat := 0x1_0000_0000

  /** A draw at or above this is thrown away. */
  function Bound(limit: nat): nat
    requires limit > 0
  {
    0xFFFF_FFFF_FFFF_FFFF - 0xFFFF_FFFF_FFFF_FFFF % limit
  }

  /** How many of the draws below `n` are kept and give `r`. */
  ghost function Hits(limit: nat, n: nat, r: nat): nat
    requires limit > 0
  {
    if n == 0 then 0 else Hits(limit, n - 1, r) + if n - 1 < Bound(limit) && (n - 1) % limit == r then 1 else 0
  }

  /** How many of the draws below `n` are thrown away. */
  ghost function Rejected(limit: nat, n: nat): nat
    requires limit > 0
  {
    if n == 0 then 0 else Rejected(limit, n - 1) + if n - 1 >= Bound(limit) then 1 else 0
  }

  /** Every result below the limit comes from equally many of the possible draws. */
  ghost predicate Unbiased(limit: nat, draws: nat)
    requires limit > 0
  {
    forall r: nat, s: nat :: r < limit && s < limit ==> Hits(limit, draws, r) == Hits(limit, draws, s)
  }

  lemma RemainderIsNoMore(n: nat, m: nat)
    requires m > 0
    ensures n % m <= n && n % m < m
  {
  }

  /** A choice brought below another one. */
  function Lowered(a: nat, b: nat): (r: nat)
    ensures r <= a && r <= b
  {
    RemainderIsNoMore(a, 1 + b);
    a % (1 + b)
  }

  /** `q` whole rounds and the start of another one. */
  lemma {:induction false} HitsByRounds(limit: nat, q: nat, part: nat, r: nat)
    requires r < limit && part <= limit && q * limit + part <= Bound(limit)
    ensures Hits(limit, q * limit + part, r) == q + if r < part then 1 else 0
    decreases q, part
  {
    var n := q * limit + part;
    if part > 0 {
      RemainderIsUnique(n - 1, limit, q, part - 1);
      HitsByRounds(limit, q, part - 1, r);
    } else if q > 0 {
      assert n == (q - 1) * limit + limit;
      HitsByRounds(limit, q - 1, limit, r);
    }
  }

  /** Past the bound nothing is kept and everything is counted as thrown away. */
  lemma {:induction false} PastTheBound(limit: nat, n: nat, r: nat)
    requires limit > 0
    ensures n <= Bound(limit) ==> Rejected(limit, n) == 0
    ensures n > Bound(limit) ==> Rejected(limit, n) == n - Bound(limit) && Hits(limit, n, r) == Hits(limit, Bound(limit), r)
    decreases n
  {
    if n > 0 {
      PastTheBound(limit, n - 1, r);
    }
  }

  lemma BoundIsWholeRounds(limit: nat)
    requires limit > 0
    ensures Bound(limit) == 0xFFFF_FFFF_FFFF_FFFF / limit * limit
    ensures 0xFFFF_FFFF_FFFF_FFFF - limit < Bound(limit) <= 0xFFFF_FFFF_FFFF_FFFF
  {
  }

  /**
   * With 64-bit draws every result has exactly as many draws as any other, and no more than `limit` of
   * the 2^64 draws are thrown away.
   */
  lemma SixtyFourBitsAreUnbiased(limit: nat)
    requires 1 < limit < 0x1_0000_0000
    ensures Unbiased(limit, DRAWS64)
    ensures forall r: nat :: r < limit ==> Hits(limit, DRAWS64, r) == 0xFFFF_FFFF_FFFF_FFFF / limit
    ensures Rejected(limit, DRAWS64) == 0xFFFF_FFFF_FFFF_FFFF % limit + 1 <= limit
  {
    hide Hits, Rejected, Bound;
    BoundIsWholeRounds(limit);
    PastTheBound(limit, DRAWS64, 0);
    forall r: nat | r < limit
      ensures Hits(limit, DRAWS64, r) == 0xFFFF_FFFF_FFFF_FFFF / limit
    {
      PastTheBound(limit, DRAWS64, r);
      HitsByRounds(limit, 0xFFFF_FFFF_FFFF_FFFF / limit, 0, r);
    }
  }

  /** Where a draw has 32 bits only, the same test throws nothing away: it is unbiased just for divisors of 2^32. */
  lemma ThirtyTwoBitsAreUnbiasedForDivisors(limit: nat)
    requires 1 < limit < 0x1_0000_0000
    ensures Rejected(limit, DRAWS32) == 0
    ensures Unbiased(limit, DRAWS32) <==> 0x1_0000_0000 % limit == 0
  {
    hide Hits, Rejected, Bound;
    var q, part := 0x1_0000_0000 / limit, 0x1_0000_0000 % limit;
    BoundIsWholeRounds(limit);
    PastTheBound(limit, DRAWS32, 0);
    assert q * limit + part == DRAWS32;
    forall r: nat | r < limit
      ensures Hits(limit, DRAWS32, r) == q + if r < part then 1 else 0
    {
      HitsByRounds(limit, q, part, r);
    }
    assert Hits(limit, DRAWS32, 0) == q + if 0 < part then 1 else 0;
    assert Hits(limit, DRAWS32, limit - 1) == q;
  }

  // ----- The generator -----

  ghost predicate FirstKept(draws: seq<nat>, limit: nat, k: nat)
    requires limit > 0
  {
    k < |draws| && draws[k] < Bound(limit) && forall j :: 0 <= j < k ==> draws[j] >= Bound(limit)
  }

  /** What a call makes of the draws to come: the result and the draws left, or nothing when they run out. */
  function Chosen(draws: seq<nat>, limit: nat): Option<(nat, seq<nat>)> {
    if limit <= 1 then Some((0, draws))
    else if draws == [] then None
    else if draws[0] < Bound(limit) then Some((draws[0] % limit, draws[1..]))
    else Chosen(draws[1..], limit)
  }

  /** The result comes from the first draw below the bound, and there is none only when all are thrown away. */
  lemma {:induction false} ChosenIsFirstKept(draws: seq<nat>, limit: nat)
    requires limit > 1
    ensures Chosen(draws, limit).None? <==> forall k :: 0 <= k < |draws| ==> draws[k] >= Bound(limit)
    ensures Chosen(draws, limit).Some? ==>
              exists k: nat :: FirstKept(draws, limit, k) && Chosen(draws, limit).value == (draws[k] % limit, draws[k + 1..])
    ensures Chosen(draws, limit).Some? ==> Chosen(draws, limit).value.0 < limit
  {
    hide Bound;
    if draws != [] {
      if draws[0] < Bound(limit) {
        assert FirstKept(draws, limit, 0);
      } else {
        ChosenIsFirstKept(draws[1..], limit);
        if Chosen(draws, limit).Some? {
          var k: nat :| FirstKept(draws[1..], limit, k) && Chosen(draws, limit).value == (draws[1..][k] % limit, draws[1..][k + 1..]);
          assert FirstKept(draws, limit, k + 1);
        }
        assert forall k :: 0 < k < |draws| ==> draws[k] == draws[1..][k - 1];
      }
    }
  }

  /**
   * rand_below_datalen: one choice says how many more are made, the next is the plain one, and the others
   * bring it down.
   */
  function ChosenLow(draws: seq<nat>, limit: nat): Option<(nat, seq<nat>)> {
    if limit <= 1 then Some((0, draws)) else
    match Chosen(draws, 3)
    case None => None
    case Some((which, rest)) =>
      (match Chosen(rest, limit)
       case None => None
       case Some((plain, rest1)) =>
         if which == 0 then Some((plain, rest1)) else
         (match Chosen(rest1, limit - 1)
          case None => None
          case Some((b, rest2)) =>
            if which == 1 then Some((Lowered(plain, b), rest2)) else
            (match Chosen(rest2, limit - 1)
             case None => None
             case Some((c, rest3)) => Some((Lowered(Lowered(plain, b), c), rest3)))))
  }

  /** The draw the plain choice is made of. */
  function Plain(draws: seq<nat>, limit: nat): Option<nat> {
    match Chosen(draws, 3)
    case None => None
    case Some((which, rest)) => (match Chosen(rest, limit) case None => None case Some((plain, _)) => Some(plain))
  }

  /** The result is below the limit and never above the plain choice, so small values come no less often than plainly. */
  lemma LowIsNoHigher(draws: seq<nat>, limit: nat)
    requires limit > 1 && ChosenLow(draws, limit).Some?
    ensures Plain(draws, limit).Some? && ChosenLow(draws, limit).value.0 <= Plain(draws, limit).value < limit
  {
    hide Chosen, Lowered;
    ChosenIsFirstKept(Chosen(draws, 3).value.1, limit);
  }

  lemma BoundAsWritten(limit: nat)
    requires limit > 0
    ensures Bound(limit) == 0xFFFF_FFFF_FFFF_FFFF - 0xFFFF_FFFF_FFFF_FFFF % limit
  {
  }

  /** The generator, with what its next draws will be. */
  class Generator {
    var draws: seq<nat>

    constructor (draws: seq<nat>)
      ensures this.draws == draws
    {
      this.draws := draws;
    }

    /** rand_below. Running out of draws is reported, with none left. */
    method RandBelow(limit: nat) returns (ok: bool, r: nat)
      requires limit < 0x1_0000_0000
      modifies this
      ensures ok <==> Chosen(old(draws), limit).Some?
      ensures ok ==> Chosen(old(draws), limit) == Some((r, draws))
      ensures ok && limit > 0 ==> r < limit
      ensures !ok ==> draws == []
    {
      if limit <= 1 {
        return true, 0;
      }
      hide Bound;
      ChosenIsFirstKept(draws, limit);
      while draws != []
        invariant Chosen(draws, limit) == Chosen(old(draws), limit)
        decreases |draws|
      {
        var unbiased := draws[0];
        draws := draws[1..];
        BoundAsWritten(limit);
        if unbiased < 0xFFFF_FFFF_FFFF_FFFF - 0xFFFF_FFFF_FFFF_FFFF % limit {
          return true, unbiased % limit;
        }
      }
      return false, 0;
    }

    /** rand_below_datalen. */
    method RandBelowDatalen(limit: nat) returns (ok: bool, r: nat)
      requires limit < 0x1_0000_0000
      modifies this
      ensures ok <==> ChosenLow(old(draws), limit).Some?
      ensures ok ==> ChosenLow(old(draws), limit) == Some((r, draws))
    {
      hide Chosen, Lowered;
      if limit <= 1 {
        return true, 0;
      }
      var which, b, c: nat;
      ok, which := RandBelow(3);
      if !ok { return false, 0; }
      ok, r := RandBelow(limit);
      if !ok { return false, 0; }
      if which >= 1 {
        ok, b := RandBelow(limit - 1);
        if !ok { return false, 0; }
        r := Lowered(r, b);
      }
      if which == 2 {
        ok, c := RandBelow(limit - 1);
        if !ok { return false, 0; }
        r := Lowered(r, c);
      }
    }
  }
}
