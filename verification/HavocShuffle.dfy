/** MUT_SHUFFLE: Sattolo's loop moves every byte of the block, along one single cycle. */
module HavocShuffle {
  import opened Words
  import opened HavocNumber

  function Permuted<T>(s: seq<T>, p: seq<nat>): (r: seq<T>)
    requires |p| == |s| && forall k :: 0 <= k < |p| ==> p[k] < |s|
    ensures |r| == |s| && forall k :: 0 <= k < |r| ==> r[k] == s[p[k]]
  {
    seq(|s|, k requires 0 <= k < |s| => s[p[k]])
  }

  function Swap<T>(s: seq<T>, i: nat, j: nat): (r: seq<T>)
    requires i < |s| && j < |s|
    ensures |r| == |s|
  {
    s[i := s[j]][j := s[i]]
  }

  /** Following `p` from the first place of `c` visits `c` in order and comes back. */
  ghost predicate IsOrbit(p: seq<nat>, c: seq<nat>) {
    && c != [] && (forall k :: 0 <= k < |c| ==> c[k] < |p|)
    && (forall k :: 0 < k < |c| ==> p[c[k - 1]] == c[k])
    && p[c[|c| - 1]] == c[0]
  }

  ghost predicate Each(ms: multiset<nat>, n: nat) {
    forall x: nat :: ms[x] == if x < n then 1 else 0
  }

  /** `p` is one cycle: the order `c` visits every place exactly once. */
  ghost predicate SingleCycle(p: seq<nat>, c: seq<nat>) {
    (p == [] && c == []) || (IsOrbit(p, c) && Each(multiset(c), |p|))
  }

  lemma TwiceCounts(c: seq<nat>, i: nat, j: nat)
    requires i < |c| && j < |c| && i != j && c[i] == c[j]
    ensures multiset(c)[c[i]] >= 2
  {
    var lo, hi := if i < j then i else j, if i < j then j else i;
    assert c == c[..hi] + [c[hi]] + c[hi + 1..];
    assert c[..hi][lo] == c[i];
    assert multiset(c[..hi])[c[i]] >= 1;
  }

  /** No place of a longer cycle keeps its own value. */
  lemma NothingStays(p: seq<nat>, c: seq<nat>, k: nat)
    requires SingleCycle(p, c) && |p| >= 2 && k < |p|
    ensures p[k] < |p| && p[k] != k
  {
    assert multiset(c)[k] == 1 && multiset(c)[0] == 1 && multiset(c)[1] == 1;
    assert 0 in c && 1 in c;
    var m :| 0 <= m < |c| && c[m] == k;
    var next := if m + 1 < |c| then m + 1 else 0;
    assert p[k] == c[next];
    if c[next] == k {
      TwiceCounts(c, m, next);
    }
  }

  // ----- A family of orbits, one through each place that is still open -----

  ghost function Total(cycles: seq<seq<nat>>): multiset<nat> {
    if cycles == [] then multiset{} else Total(cycles[..|cycles| - 1]) + multiset(cycles[|cycles| - 1])
  }

  lemma {:induction false} TotalReplaced(cycles: seq<seq<nat>>, j: nat, c: seq<nat>)
    requires j < |cycles|
    ensures Total(cycles[j := c]) == Total(cycles) - multiset(cycles[j]) + multiset(c)
    ensures multiset(cycles[j]) <= Total(cycles)
  {
    var n := |cycles| - 1;
    if j == n {
      assert cycles[j := c][..n] == cycles[..n];
    } else {
      assert cycles[j := c][..n] == cycles[..n][j := c];
      TotalReplaced(cycles[..n], j, c);
    }
  }

  /** Places that occur in two of the orbits would be counted twice. */
  lemma {:induction false} Apart(cycles: seq<seq<nat>>, a: nat, b: nat, x: nat)
    requires a < b < |cycles| && x in cycles[a] && x in cycles[b]
    ensures Total(cycles)[x] >= 2
  {
    var n := |cycles| - 1;
    if b == n {
      TotalReplaced(cycles[..n], a, []);
      assert x in multiset(cycles[..n][a]) && x in multiset(cycles[n]);
    } else {
      Apart(cycles[..n], a, b, x);
    }
  }

  ghost predicate Family(p: seq<nat>, cycles: seq<seq<nat>>) {
    && Each(Total(cycles), |p|)
    && forall r :: 0 <= r < |cycles| ==> IsOrbit(p, cycles[r]) && cycles[r][0] == r
  }

  ghost function Singletons(m: nat): seq<seq<nat>> {
    seq(m, k => [k])
  }

  lemma {:induction false} StartFamily(n: nat, m: nat)
    requires m <= n
    ensures forall x: nat :: Total(Singletons(m))[x] == if x < m then 1 else 0
    decreases m
  {
    if m > 0 {
      StartFamily(n, m - 1);
      assert Singletons(m)[..m - 1] == Singletons(m - 1);
    }
  }

  function Identity(n: nat): (p: seq<nat>)
    ensures |p| == n && forall k :: 0 <= k < n ==> p[k] == k
  {
    seq(n, k => k)
  }

  /** Exchanging the values of two places on different orbits joins the orbits. */
  lemma Join(p: seq<nat>, ci: seq<nat>, cj: seq<nat>, i: nat, j: nat)
    requires IsOrbit(p, ci) && IsOrbit(p, cj) && ci[0] == i && cj[0] == j && i != j
    requires forall k :: 0 < k < |ci| ==> ci[k] != i && ci[k] != j
    requires forall k :: 0 < k < |cj| ==> cj[k] != i && cj[k] != j
    ensures IsOrbit(Swap(p, i, j), [j] + ci[1..] + [i] + cj[1..])
  {
  }

  /** The two orbits meet each other nowhere, and each its own start only once. */
  lemma Separate(p: seq<nat>, cycles: seq<seq<nat>>, i: nat, j: nat)
    requires Family(p, cycles) && i < |cycles| && j < |cycles| && i != j
    ensures forall k :: 0 < k < |cycles[i]| ==> cycles[i][k] != i && cycles[i][k] != j
    ensures i !in cycles[j]
  {
    var c := cycles[i];
    TotalReplaced(cycles, i, []);
    forall k | 0 < k < |c|
      ensures c[k] != i && c[k] != j
    {
      if c[k] == i {
        TwiceCounts(c, 0, k);
      }
      if c[k] == j {
        assert cycles[j][0] == j;
        if i < j { Apart(cycles, i, j, j); } else { Apart(cycles, j, i, j); }
      }
    }
    if i in cycles[j] {
      assert c[0] == i;
      if i < j { Apart(cycles, i, j, i); } else { Apart(cycles, j, i, i); }
    }
  }

  lemma Rearranged(i: nat, j: nat, a: seq<nat>, b: seq<nat>)
    ensures multiset([j] + a + [i] + b) == multiset([i] + a) + multiset([j] + b)
  {
  }

  lemma Regrouped(all: multiset<nat>, a: multiset<nat>, b: multiset<nat>)
    requires b <= all
    ensures all - b + (a + b) == all + a
  {
  }

  lemma JoinedTotal(cycles: seq<seq<nat>>, i: nat, j: nat, c: seq<nat>)
    requires i + 1 == |cycles| && j < i && cycles[i] != [] && cycles[j] != [] && cycles[i][0] == i && cycles[j][0] == j
    requires c == [j] + cycles[i][1..] + [i] + cycles[j][1..]
    ensures Total(cycles[..i][j := c]) == Total(cycles)
  {
    var ci, cj := cycles[i], cycles[j];
    assert ci == [i] + ci[1..] && cj == [j] + cj[1..];
    Rearranged(i, j, ci[1..], cj[1..]);
    TotalReplaced(cycles[..i], j, c);
    Regrouped(Total(cycles[..i]), multiset(ci), multiset(cj));
  }

  lemma Untouched(p: seq<nat>, c: seq<nat>, i: nat, j: nat)
    requires IsOrbit(p, c) && i < |p| && j < |p| && i !in c && j !in c
    ensures IsOrbit(Swap(p, i, j), c)
  {
  }

  /** One round: the last open place is joined to the orbit of an earlier one. */
  lemma RoundKeepsFamily(p: seq<nat>, cycles: seq<seq<nat>>, i: nat, j: nat) returns (next: seq<seq<nat>>)
    requires Family(p, cycles) && i + 1 == |cycles| <= |p| && j < i
    ensures Family(Swap(p, i, j), next) && |next| == i
  {
    var ci, cj := cycles[i], cycles[j];
    var c := [j] + ci[1..] + [i] + cj[1..];
    Separate(p, cycles, i, j);
    Separate(p, cycles, j, i);
    Join(p, ci, cj, i, j);
    next := cycles[..i][j := c];
    JoinedTotal(cycles, i, j, c);
    var q := Swap(p, i, j);
    forall r | 0 <= r < |next|
      ensures IsOrbit(q, next[r]) && next[r][0] == r
    {
      if r != j {
        Separate(p, cycles, i, r);
        Separate(p, cycles, j, r);
        Untouched(p, cycles[r], i, j);
      }
    }
  }

  lemma StartOfFamily(n: nat)
    ensures Family(Identity(n), Singletons(n))
  {
    StartFamily(n, n);
  }

  lemma EndOfFamily(p: seq<nat>, cycles: seq<seq<nat>>)
    requires Family(p, cycles) && |cycles| == 1
    ensures SingleCycle(p, cycles[0])
  {
    assert cycles[..0] == [] && Total(cycles) == multiset(cycles[0]);
  }

  /** Draws below `i + 1` until one differs from `i`. */
  method OtherBelow(i: nat) returns (j: nat)
    requires i > 0
    ensures j < i
  {
    j :| j < i;
  }

  method SwapInBlock(buf: array<byte>, off: nat, blen: nat, i: nat, j: nat)
    requires off + blen <= buf.Length && i < blen && j < blen
    modifies buf
    ensures buf[off + i] == old(buf[off + j]) && buf[off + j] == old(buf[off + i])
    ensures forall k :: 0 <= k < buf.Length && k != off + i && k != off + j ==> buf[k] == old(buf[k])
    ensures multiset(buf[off..off + blen]) == multiset(old(buf[off..off + blen]))
    ensures buf[..off] == old(buf[..off]) && buf[off + blen..] == old(buf[off + blen..])
  {
    ghost var was := buf[off..off + blen];
    var temp := buf[off + i];
    buf[off + i] := buf[off + j];
    buf[off + j] := temp;
    assert buf[off..off + blen] == Swap(was, i, j);
  }

  /** The loop of the operator; `p` and `c` are evidence of what it did. */
  method ShuffleBlock(buf: array<byte>, off: nat, blen: nat) returns (ghost p: seq<nat>, ghost c: seq<nat>)
    requires 1 <= blen && off + blen <= buf.Length
    modifies buf
    ensures |p| == blen && SingleCycle(p, c) && forall k :: 0 <= k < blen ==> p[k] < blen
    ensures buf[off..off + blen] == Permuted(old(buf[off..off + blen]), p)
    ensures multiset(buf[off..off + blen]) == multiset(old(buf[off..off + blen]))
    ensures buf[..off] == old(buf[..off]) && buf[off + blen..] == old(buf[off + blen..])
  {
    hide Family, IsOrbit, SingleCycle;
    p := Identity(blen);
    ghost var cycles := Singletons(blen);
    StartOfFamily(blen);
    var i := blen - 1;
    while i > 0
      invariant 0 <= i < blen && |cycles| == i + 1
      invariant |p| == blen && Family(p, cycles) && forall k :: 0 <= k < blen ==> p[k] < blen
      invariant forall k :: 0 <= k < blen ==> buf[off + k] == old(buf[off + p[k]])
      invariant multiset(buf[off..off + blen]) == multiset(old(buf[off..off + blen]))
      invariant buf[..off] == old(buf[..off]) && buf[off + blen..] == old(buf[off + blen..])
    {
      var j := OtherBelow(i);
      cycles := RoundKeepsFamily(p, cycles, i, j);
      p := Swap(p, i, j);
      SwapInBlock(buf, off, blen, i, j);
      i := i - 1;
    }
    c := cycles[0];
    EndOfFamily(p, cycles);
  }
}
