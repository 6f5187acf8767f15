/** afl-cmin: main merges the workers' tables and saves a small set of files that covers every tuple. */
module CminCover {
  import opened CminTables
  import opened CminSchedule
  import opened CminReplay

  // ----- Merging the tables -----

  ghost function Everyone(files: seq<File>): set<nat> {
    AsSet(Range(0, |files|))
  }

  /** `idx` is the best file for `t` among those seen, or the sentinel when no file can stand for `t`. */
  ghost predicate Represents(cfg: Config, files: seq<File>, seen: set<nat>, t: nat, idx: nat) {
    IsBest(cfg, files, seen, t, idx, if idx < |files| && idx != cfg.sentinel then Key(cfg, files[idx]) else INF_EN)
  }

  ghost function UnionOf(seens: seq<set<nat>>): set<nat> {
    if seens == [] then {} else UnionOf(seens[..|seens| - 1]) + seens[|seens| - 1]
  }

  /** Python's comparison of pairs. */
  predicate Before(e1: nat, m1: nat, e2: nat, m2: nat) {
    e1 < e2 || (e1 == e2 && m1 < m2)
  }

  /** The smaller of two bests is the best of both. */
  lemma MergeBest(cfg: Config, files: seq<File>, a: set<nat>, b: set<nat>, t: nat, m1: nat, e1: nat, m2: nat, e2: nat)
    requires |files| <= cfg.sentinel
    requires IsBest(cfg, files, a, t, m1, e1) && IsBest(cfg, files, b, t, m2, e2)
    ensures if m2 != cfg.sentinel && Before(e2, m2, e1, m1) then IsBest(cfg, files, a + b, t, m2, e2) else IsBest(cfg, files, a + b, t, m1, e1)
  {
  }

  ghost predicate Column(cfg: Config, files: seq<File>, ms: seq<seq<nat>>, es: seq<seq<nat>>, seens: seq<set<nat>>, t: nat) {
    && |ms| == |es| == |seens| > 0 && |files| <= cfg.sentinel
    && forall i :: 0 <= i < |ms| ==> t < |ms[i]| && t < |es[i]| && IsBest(cfg, files, seens[i], t, ms[i][t], es[i][t])
  }

  /** The least index any worker has for the tuple. */
  method Least(ms: seq<seq<nat>>, t: nat) returns (least: nat)
    requires |ms| > 0 && forall i :: 0 <= i < |ms| ==> t < |ms[i]|
    ensures exists i :: 0 <= i < |ms| && least == ms[i][t]
    ensures forall i :: 0 <= i < |ms| ==> least <= ms[i][t]
  {
    least := ms[0][t];
    for i := 1 to |ms|
      invariant exists k :: 0 <= k < i && least == ms[k][t]
      invariant forall k :: 0 <= k < i ==> least <= ms[k][t]
    {
      if ms[i][t] < least {
        least := ms[i][t];
      }
    }
  }

  /** The loop over the workers for one tuple. */
  method BestPair(cfg: Config, ms: seq<seq<nat>>, es: seq<seq<nat>>, t: nat, ghost files: seq<File>, ghost seens: seq<set<nat>>) returns (e: nat, m: nat)
    requires Column(cfg, files, ms, es, seens, t)
    ensures IsBest(cfg, files, UnionOf(seens), t, m, e)
    ensures m == cfg.sentinel || exists i :: 0 <= i < |ms| && m == ms[i][t]
    ensures forall i :: 0 <= i < |ms| ==> ms[i][t] == cfg.sentinel || !Before(es[i][t], ms[i][t], e, m)
  {
    e, m := INF_EN, cfg.sentinel;
    for i := 0 to |ms|
      invariant IsBest(cfg, files, UnionOf(seens[..i]), t, m, e)
      invariant m == cfg.sentinel || exists k :: 0 <= k < i && m == ms[k][t]
      invariant forall k :: 0 <= k < i ==> ms[k][t] == cfg.sentinel || !Before(es[k][t], ms[k][t], e, m)
    {
      var idx, en := ms[i][t], es[i][t];
      MergeBest(cfg, files, UnionOf(seens[..i]), seens[i], t, m, e, idx, en);
      assert seens[..i + 1][..i] == seens[..i];
      if idx != cfg.sentinel && Before(en, idx, e, m) {
        e, m := en, idx;
      }
    }
    assert seens[..|ms|] == seens;
  }

  /** Without energies the fallback picks the same file. */
  lemma SameLeast(cfg: Config, files: seq<File>, ms: seq<seq<nat>>, es: seq<seq<nat>>, seens: seq<set<nat>>, t: nat, m: nat, least: nat)
    requires Column(cfg, files, ms, es, seens, t)
    requires m == cfg.sentinel || exists i :: 0 <= i < |ms| && m == ms[i][t]
    requires forall i :: 0 <= i < |ms| ==> ms[i][t] == cfg.sentinel || !Before(es[i][t], ms[i][t], INF_EN, m)
    requires exists i :: 0 <= i < |ms| && least == ms[i][t]
    requires forall i :: 0 <= i < |ms| ==> least <= ms[i][t]
    ensures least == m
  {
  }

  /** best_idxes[t]. */
  method BestIndex(cfg: Config, ms: seq<seq<nat>>, es: seq<seq<nat>>, t: nat, ghost files: seq<File>, ghost seens: seq<set<nat>>) returns (idx: nat)
    requires Column(cfg, files, ms, es, seens, t)
    ensures Represents(cfg, files, UnionOf(seens), t, idx)
    ensures idx == cfg.sentinel || exists i :: 0 <= i < |ms| && idx == ms[i][t]
  {
    var e, m := BestPair(cfg, ms, es, t, files, seens);
    if e == INF_EN {
      idx := Least(ms, t);
      SameLeast(cfg, files, ms, es, seens, t, m, idx);
    } else {
      idx := m;
    }
  }

  method Merge(cfg: Config, ms: seq<seq<nat>>, es: seq<seq<nat>>, ghost files: seq<File>, ghost seens: seq<set<nat>>) returns (best: seq<nat>)
    requires forall t :: 0 <= t < cfg.tuples ==> Column(cfg, files, ms, es, seens, t)
    ensures |best| == cfg.tuples
    ensures forall t :: 0 <= t < cfg.tuples ==> Represents(cfg, files, UnionOf(seens), t, best[t])
    ensures forall t :: 0 <= t < cfg.tuples ==> best[t] == cfg.sentinel || exists i :: 0 <= i < |ms| && t < |ms[i]| && best[t] == ms[i][t]
  {
    best := [];
    for t := 0 to cfg.tuples
      invariant |best| == t
      invariant forall u :: 0 <= u < t ==> Represents(cfg, files, UnionOf(seens), u, best[u])
      invariant forall u :: 0 <= u < t ==> best[u] == cfg.sentinel || exists i :: 0 <= i < |ms| && u < |ms[i]| && best[u] == ms[i][u]
    {
      var idx := BestIndex(cfg, ms, es, t, files, seens);
      best := best + [idx];
    }
  }

  // ----- The greedy cover -----

  /** Everything some file of `idxs` covers. */
  ghost function CoveredBy(files: seq<File>, idxs: seq<nat>): set<nat>
    requires forall k :: 0 <= k < |idxs| ==> idxs[k] < |files|
  {
    if idxs == [] then {} else CoveredBy(files, idxs[..|idxs| - 1]) + AsSet(files[idxs[|idxs| - 1]].trace)
  }

  lemma {:induction false} CoveredByMember(files: seq<File>, idxs: seq<nat>, t: nat)
    requires forall k :: 0 <= k < |idxs| ==> idxs[k] < |files|
    ensures t in CoveredBy(files, idxs) <==> exists f :: f in idxs && t in files[f].trace
  {
    if idxs != [] {
      var init, last := idxs[..|idxs| - 1], idxs[|idxs| - 1];
      CoveredByMember(files, init, t);
      assert idxs == init + [last];
    }
  }

  /** What main has in hand before it starts to save. */
  datatype Inputs = Inputs(best: seq<nat>, traceInfo: map<nat, Info>, packs: seq<seq<nat>>, allUnique: seq<(nat, nat)>)

  /** The trace of `f` can be read back from the pack its message names. */
  ghost predicate Found(cfg: Config, files: seq<File>, x: Inputs, f: nat) {
    && f < |files| && f in x.traceInfo && x.traceInfo[f].worker < |x.packs|
    && Locates(x.packs[x.traceInfo[f].worker], cfg.itemsize, x.traceInfo[f], files[f].trace)
  }

  /** What most_common gives: counts never rise. */
  ghost predicate MostCommonFirst(order: seq<(nat, nat)>) {
    forall j, k :: 0 <= j < k < |order| ==> order[j].1 >= order[k].1
  }

  ghost predicate Ready(cfg: Config, files: seq<File>, x: Inputs) {
    && cfg.Fits(files) && |x.best| == cfg.tuples && |x.packs| == cfg.workers
    && (forall t :: 0 <= t < cfg.tuples ==> Represents(cfg, files, Everyone(files), t, x.best[t]))
    && (forall t :: 0 <= t < cfg.tuples && x.best[t] != cfg.sentinel ==> x.best[t] in x.traceInfo)
    && (forall f :: f in x.traceInfo ==> Found(cfg, files, x, f))
    && (forall k :: 0 <= k < |x.allUnique| ==> x.allUnique[k].0 < cfg.tuples)
    && (forall j, k :: 0 <= j < k < |x.allUnique| ==> x.allUnique[j].0 != x.allUnique[k].0)
    && MostCommonFirst(x.allUnique)
    // The counts are those of all the traces together.
    && (forall k :: 0 <= k < |x.allUnique| ==> x.allUnique[k].1 == Tuples(files, Range(0, |files|))[x.allUnique[k].0])
    && (forall t :: t in Tuples(files, Range(0, |files|)) ==> exists k :: 0 <= k < |x.allUnique| && x.allUnique[k].0 == t)
  }

  /** A file that stands for some tuple covers it, and every tuple of it has someone to stand for it. */
  lemma SavedFilesAreCovered(cfg: Config, files: seq<File>, x: Inputs, t: nat, u: nat)
    requires Ready(cfg, files, x) && t < cfg.tuples && x.best[t] != cfg.sentinel
    ensures x.best[t] < |files| && t in files[x.best[t]].trace
    ensures u in files[x.best[t]].trace ==> u < cfg.tuples && x.best[u] != cfg.sentinel
  {
  }

  ghost function CoveredNames(x: Inputs): set<nat> {
    set k | 0 <= k < |x.allUnique| :: x.allUnique[k].0
  }

  /** The saved files so far: all different, all standing for some tuple, each the best of a tuple of its own. */
  ghost predicate SavedOk(cfg: Config, files: seq<File>, x: Inputs, saved: seq<nat>, causes: seq<nat>) {
    && |causes| == |saved| && |x.best| == cfg.tuples
    && (forall k :: 0 <= k < |saved| ==> saved[k] < |files| && saved[k] in x.traceInfo)
    && (forall j, k :: 0 <= j < k < |saved| ==> saved[j] != saved[k])
    && (forall k :: 0 <= k < |causes| ==> causes[k] < cfg.tuples && causes[k] in CoveredNames(x) && x.best[causes[k]] == saved[k] != cfg.sentinel)
  }

  /** One file is saved on account of tuple `t`. */
  lemma SaveOne(cfg: Config, files: seq<File>, x: Inputs, saved: seq<nat>, causes: seq<nat>, t: nat)
    requires Ready(cfg, files, x) && SavedOk(cfg, files, x, saved, causes)
    requires t < cfg.tuples && t in CoveredNames(x) && x.best[t] != cfg.sentinel && x.best[t] !in saved
    ensures x.best[t] < |files| && x.best[t] in x.traceInfo
    ensures SavedOk(cfg, files, x, saved + [x.best[t]], causes + [t])
    ensures CoveredBy(files, saved + [x.best[t]]) == CoveredBy(files, saved) + AsSet(files[x.best[t]].trace)
    ensures t in AsSet(files[x.best[t]].trace)
  {
    hide Represents, Everyone, Locates;
    SavedFilesAreCovered(cfg, files, x, t, t);
    var more := saved + [x.best[t]];
    assert more[..|saved|] == saved;
  }

  lemma {:induction false} CountedTwice(files: seq<File>, log: seq<nat>, t: nat, i: nat, j: nat)
    requires (forall k :: 0 <= k < |log| ==> log[k] < |files|) && i < |log| && t in files[log[i]].trace
    ensures Tuples(files, log)[t] >= 1
    ensures i < j < |log| && t in files[log[j]].trace ==> Tuples(files, log)[t] >= 2
    decreases |log|, j
  {
    var n := |log| - 1;
    if i < n {
      CountedTwice(files, log[..n], t, i, if j < n then j else 0);
    }
    assert t in files[log[n]].trace ==> multiset(files[log[n]].trace)[t] >= 1;
  }

  /** A tuple counted once is in one trace only. */
  lemma CountedOnce(files: seq<File>, t: nat, f: nat, g: nat)
    requires Tuples(files, Range(0, |files|))[t] == 1
    requires f < |files| && g < |files| && t in files[f].trace && t in files[g].trace
    ensures f == g
  {
    var all := Range(0, |files|);
    assert all[f] == f && all[g] == g;
    if f < g {
      CountedTwice(files, all, t, f, g);
    } else if g < f {
      CountedTwice(files, all, t, g, f);
    }
  }

  lemma {:induction false} CountedIsTraced(files: seq<File>, log: seq<nat>, t: nat)
    requires forall k :: 0 <= k < |log| ==> log[k] < |files|
    ensures t in Tuples(files, log) <==> t in CoveredBy(files, log)
  {
    if log != [] {
      CountedIsTraced(files, log[..|log| - 1], t);
    }
  }

  /** No tuple left uncovered by `saved` occurs less often than the uncovered `t`. */
  ghost predicate RarestLeft(files: seq<File>, saved: seq<nat>, t: nat)
    requires forall k :: 0 <= k < |saved| ==> saved[k] < |files|
  {
    var counts := Tuples(files, Range(0, |files|));
    && t in counts && t !in CoveredBy(files, saved)
    && forall u :: u in counts && u !in CoveredBy(files, saved) ==> counts[t] <= counts[u]
  }

  /** Each file was saved as the representative of a rarest tuple that the files before it leave uncovered. */
  ghost predicate Chosen(files: seq<File>, best: seq<nat>, saved: seq<nat>, causes: seq<nat>) {
    && |causes| == |saved|
    && (forall k :: 0 <= k < |saved| ==> saved[k] < |files|)
    && (forall k :: 0 <= k < |saved| ==> causes[k] < |best| && best[causes[k]] == saved[k] && causes[k] in files[saved[k]].trace)
    && (forall k :: 0 <= k < |saved| ==> RarestLeft(files, saved[..k], causes[k]))
  }

  lemma ChooseOne(files: seq<File>, best: seq<nat>, saved: seq<nat>, causes: seq<nat>, t: nat)
    requires Chosen(files, best, saved, causes) && RarestLeft(files, saved, t)
    requires t < |best| && best[t] < |files| && t in files[best[t]].trace
    ensures Chosen(files, best, saved + [best[t]], causes + [t])
  {
    hide RarestLeft;
    var more := saved + [best[t]];
    forall k | 0 <= k < |more|
      ensures more[..k] == if k < |saved| then saved[..k] else saved
    {
    }
  }

  /** A tuple that occurs once is uncovered until its one file is saved, and none is rarer. */
  lemma OnceIsRarest(cfg: Config, files: seq<File>, x: Inputs, saved: seq<nat>, k: nat)
    requires Ready(cfg, files, x) && k < |x.allUnique| && x.allUnique[k].1 == 1
    requires forall j :: 0 <= j < |saved| ==> saved[j] < |files|
    requires x.best[x.allUnique[k].0] != cfg.sentinel && x.best[x.allUnique[k].0] !in saved
    ensures RarestLeft(files, saved, x.allUnique[k].0)
  {
    hide Represents, Everyone, Locates, Tuples, CoveredBy, Range, MostCommonFirst;
    var t := x.allUnique[k].0;
    SavedFilesAreCovered(cfg, files, x, t, t);
    CoveredByMember(files, saved, t);
    if g :| g in saved && t in files[g].trace {
      CountedOnce(files, t, g, x.best[t]);
    }
  }

  lemma SaveForOnce(cfg: Config, files: seq<File>, x: Inputs, saved: seq<nat>, causes: seq<nat>, k: nat)
    requires Ready(cfg, files, x) && k < |x.allUnique| && x.allUnique[k].1 == 1
    requires SavedOk(cfg, files, x, saved, causes) && Chosen(files, x.best, saved, causes)
    requires x.best[x.allUnique[k].0] != cfg.sentinel && x.best[x.allUnique[k].0] !in saved
    ensures var t := x.allUnique[k].0;
            && SavedOk(cfg, files, x, saved + [x.best[t]], causes + [t])
            && Chosen(files, x.best, saved + [x.best[t]], causes + [t])
  {
    hide Represents, Everyone, Locates, Tuples, CoveredBy, RarestLeft;
    var t := x.allUnique[k].0;
    assert t in CoveredNames(x);
    SaveOne(cfg, files, x, saved, causes, t);
    OnceIsRarest(cfg, files, x, saved, k);
    ChooseOne(files, x.best, saved, causes, t);
  }

  /** The last uncovered tuple of the list is a rarest one. */
  lemma LastIsRarest(cfg: Config, files: seq<File>, x: Inputs, saved: seq<nat>, k: nat)
    requires Ready(cfg, files, x) && k < |x.allUnique|
    requires forall j :: 0 <= j < |saved| ==> saved[j] < |files|
    requires x.allUnique[k].0 !in CoveredBy(files, saved)
    requires forall j :: k < j < |x.allUnique| ==> x.allUnique[j].0 in CoveredBy(files, saved)
    requires x.best[x.allUnique[k].0] != cfg.sentinel
    ensures RarestLeft(files, saved, x.allUnique[k].0)
  {
    hide Represents, Everyone, Locates, Tuples, CoveredBy;
    var counts := Tuples(files, Range(0, |files|));
    var t := x.allUnique[k].0;
    SavedFilesAreCovered(cfg, files, x, t, t);
    assert Range(0, |files|)[x.best[t]] == x.best[t];
    CoveredByMember(files, Range(0, |files|), t);
    CountedIsTraced(files, Range(0, |files|), t);
    forall u | u in counts && u !in CoveredBy(files, saved)
      ensures counts[x.allUnique[k].0] <= counts[u]
    {
      var i :| 0 <= i < |x.allUnique| && x.allUnique[i].0 == u;
      assert x.allUnique[i].1 >= x.allUnique[k].1;
    }
  }

  /** CombineTraceWorker: the union of some traces of one pack. */
  method CombineTraces(pack: seq<nat>, itemsize: nat, jobs: seq<(nat, nat)>) returns (have: set<nat>)
    requires forall k :: 0 <= k < |jobs| ==> Readable(pack, itemsize, jobs[k].0, jobs[k].1)
    ensures forall t :: t in have <==> exists k :: 0 <= k < |jobs| && t in FromFile(pack, itemsize, jobs[k].0, jobs[k].1)
  {
    have := {};
    for k := 0 to |jobs|
      invariant forall t :: t in have <==> exists j :: 0 <= j < k && t in FromFile(pack, itemsize, jobs[j].0, jobs[j].1)
    {
      var result := FromFile(pack, itemsize, jobs[k].0, jobs[k].1);
      have := have + set t | t in result;
    }
  }

  ghost function Place(x: Inputs, f: nat): (nat, nat)
    requires f in x.traceInfo
  {
    (x.traceInfo[f].pos, x.traceInfo[f].count)
  }

  ghost predicate OfSaved(x: Inputs, saved: seq<nat>, w: nat, job: (nat, nat)) {
    exists f :: f in saved && f in x.traceInfo && x.traceInfo[f].worker == w && job == Place(x, f)
  }

  /** What each worker has to read back: the traces of the saved files it packed. */
  ghost predicate JobsOk(cfg: Config, x: Inputs, saved: seq<nat>, jobs: seq<seq<(nat, nat)>>) {
    && |jobs| == |x.packs|
    && (forall f :: f in saved ==> f in x.traceInfo && x.traceInfo[f].worker < |jobs| && Place(x, f) in jobs[x.traceInfo[f].worker])
    && (forall w, k :: 0 <= w < |jobs| && 0 <= k < |jobs[w]| ==> OfSaved(x, saved, w, jobs[w][k]))
  }

  lemma AddJob(cfg: Config, x: Inputs, saved: seq<nat>, jobs: seq<seq<(nat, nat)>>, f: nat)
    requires JobsOk(cfg, x, saved, jobs) && f in x.traceInfo && x.traceInfo[f].worker < |jobs|
    ensures var w := x.traceInfo[f].worker; JobsOk(cfg, x, saved + [f], jobs[w := jobs[w] + [Place(x, f)]])
  {
  }

  /** The representatives of the tuples counted once, among the first `n` of the list, are saved. */
  ghost predicate OnlyOnceSaved(x: Inputs, saved: seq<nat>, n: nat)
    requires n <= |x.allUnique| && forall k :: 0 <= k < |x.allUnique| ==> x.allUnique[k].0 < |x.best|
  {
    forall k :: 0 <= k < n && x.allUnique[k].1 == 1 ==> x.best[x.allUnique[k].0] in saved
  }

  lemma NothingSaved(cfg: Config, files: seq<File>, x: Inputs)
    requires Ready(cfg, files, x)
    ensures SavedOk(cfg, files, x, [], []) && OnlyOnceSaved(x, [], 0) && Chosen(files, x.best, [], [])
  {
  }

  lemma OneMoreSeen(x: Inputs, saved: seq<nat>, n: nat, more: seq<nat>)
    requires n < |x.allUnique| && forall k :: 0 <= k < |x.allUnique| ==> x.allUnique[k].0 < |x.best|
    requires OnlyOnceSaved(x, saved, n) && saved <= more
    ensures x.allUnique[n].1 != 1 || x.best[x.allUnique[n].0] in more ==> OnlyOnceSaved(x, more, n + 1)
  {
    assert forall f :: f in saved ==> f in more;
  }

  lemma NotAFile(cfg: Config, files: seq<File>, x: Inputs, t: nat)
    requires Ready(cfg, files, x) && t < cfg.tuples && x.best[t] >= |files|
    ensures x.best[t] == cfg.sentinel
  {
  }

  lemma IsAFile(cfg: Config, files: seq<File>, x: Inputs, t: nat)
    requires Ready(cfg, files, x) && t < cfg.tuples && x.best[t] < |files|
    ensures x.best[t] != cfg.sentinel && x.best[t] in x.traceInfo
  {
  }

  /** Phase one: the tuples that occur once. It stops at a tuple nobody stands for. */
  method PhaseOne(cfg: Config, nfiles: nat, x: Inputs, ghost files: seq<File>)
    returns (ok: bool, saved: seq<nat>, jobs: seq<seq<(nat, nat)>>, ghost causes: seq<nat>)
    requires Ready(cfg, files, x) && nfiles == |files|
    ensures SavedOk(cfg, files, x, saved, causes) && JobsOk(cfg, x, saved, jobs)
    ensures Chosen(files, x.best, saved, causes)
    ensures forall k :: 0 <= k < |causes| ==> (causes[k], 1) in x.allUnique
    ensures ok ==> OnlyOnceSaved(x, saved, |x.allUnique|)
    ensures !ok ==> exists k :: 0 <= k < |x.allUnique| && x.best[x.allUnique[k].0] == cfg.sentinel
  {
    hide Represents, Locates, Everyone, Tuples, SavedOk, OnlyOnceSaved, CoveredBy, MostCommonFirst, Chosen;
    saved, causes, jobs, ok := [], [], seq(cfg.workers, _ => []), true;
    NothingSaved(cfg, files, x);
    for k := 0 to |x.allUnique|
      invariant SavedOk(cfg, files, x, saved, causes) && JobsOk(cfg, x, saved, jobs)
      invariant Chosen(files, x.best, saved, causes)
      invariant forall j :: 0 <= j < |causes| ==> (causes[j], 1) in x.allUnique
      invariant OnlyOnceSaved(x, saved, k)
    {
      var (t, c) := x.allUnique[k];
      OneMoreSeen(x, saved, k, saved);
      if c != 1 {
        continue;
      }
      var idx := x.best[t];
      if idx in saved {
        continue;
      }
      if idx >= nfiles {
        NotAFile(cfg, files, x, t);
        return false, saved, jobs, causes;
      }
      IsAFile(cfg, files, x, t);
      SaveForOnce(cfg, files, x, saved, causes, k);
      var info := x.traceInfo[idx];
      assert Found(cfg, files, x, idx);
      AddJob(cfg, x, saved, jobs, idx);
      jobs := jobs[info.worker := jobs[info.worker] + [(info.pos, info.count)]];
      OneMoreSeen(x, saved, k, saved + [idx]);
      saved, causes := saved + [idx], causes + [t];
    }
  }

  lemma ResultOf(cfg: Config, x: Inputs, saved: seq<nat>, jobs: seq<seq<(nat, nat)>>, files: seq<File>, w: nat, result: set<nat>)
    requires Ready(cfg, files, x) && JobsOk(cfg, x, saved, jobs) && w < |jobs|
    requires forall k :: 0 <= k < |jobs[w]| ==> Readable(x.packs[w], cfg.itemsize, jobs[w][k].0, jobs[w][k].1)
    requires forall t :: t in result <==> exists k :: 0 <= k < |jobs[w]| && t in FromFile(x.packs[w], cfg.itemsize, jobs[w][k].0, jobs[w][k].1)
    ensures forall t :: t in result <==> exists f :: f in saved && f in x.traceInfo && x.traceInfo[f].worker == w && t in files[f].trace
  {
  }

  /** The workers of the second round read back exactly what phase one saved. */
  method CombineAll(cfg: Config, x: Inputs, saved: seq<nat>, jobs: seq<seq<(nat, nat)>>, ghost files: seq<File>) returns (have: set<nat>)
    requires Ready(cfg, files, x) && JobsOk(cfg, x, saved, jobs)
    requires forall k :: 0 <= k < |saved| ==> saved[k] < |files|
    ensures have == CoveredBy(files, saved)
  {
    hide Represents, Everyone, Tuples, CoveredBy;
    have := {};
    for w := 0 to |jobs|
      invariant forall t :: t in have <==> exists f :: f in saved && f in x.traceInfo && x.traceInfo[f].worker < w && t in files[f].trace
    {
      forall k | 0 <= k < |jobs[w]|
        ensures Readable(x.packs[w], cfg.itemsize, jobs[w][k].0, jobs[w][k].1)
      {
        assert OfSaved(x, saved, w, jobs[w][k]);
        var f :| f in saved && f in x.traceInfo && x.traceInfo[f].worker == w && jobs[w][k] == Place(x, f);
        assert Found(cfg, files, x, f);
      }
      var result := CombineTraces(x.packs[w], cfg.itemsize, jobs[w]);
      ResultOf(cfg, x, saved, jobs, files, w, result);
      have := have + result;
    }
    forall t
      ensures t in have <==> t in CoveredBy(files, saved)
    {
      CoveredByMember(files, saved, t);
    }
  }

  method ReadBack(cfg: Config, x: Inputs, idx: nat, ghost files: seq<File>) returns (trace: seq<nat>)
    requires Ready(cfg, files, x) && idx in x.traceInfo
    ensures idx < |files| && trace == files[idx].trace
  {
    assert Found(cfg, files, x, idx);
    var info := x.traceInfo[idx];
    trace := FromFile(x.packs[info.worker], cfg.itemsize, info.pos, info.count);
  }

  /** Phase two: the remaining tuples, rarest first; a file is saved without asking whether it already was. */
  method PhaseTwo(cfg: Config, nfiles: nat, x: Inputs, first: seq<nat>, start: set<nat>, ghost files: seq<File>, ghost firstCauses: seq<nat>)
    returns (ok: bool, saved: seq<nat>, ghost causes: seq<nat>)
    requires Ready(cfg, files, x) && nfiles == |files|
    requires SavedOk(cfg, files, x, first, firstCauses) && start == CoveredBy(files, first)
    requires Chosen(files, x.best, first, firstCauses)
    ensures SavedOk(cfg, files, x, saved, causes) && first <= saved
    ensures Chosen(files, x.best, saved, causes)
    ensures ok ==> forall k :: 0 <= k < |x.allUnique| ==> x.allUnique[k].0 in CoveredBy(files, saved)
    ensures !ok ==> exists k :: 0 <= k < |x.allUnique| && x.best[x.allUnique[k].0] == cfg.sentinel
  {
    hide Represents, Locates, Everyone, Tuples, CoveredBy, Chosen, RarestLeft, MostCommonFirst;
    saved, causes, ok := first, firstCauses, true;
    var have := start;
    for k := |x.allUnique| downto 0
      invariant SavedOk(cfg, files, x, saved, causes) && first <= saved
      invariant Chosen(files, x.best, saved, causes)
      invariant have == CoveredBy(files, saved)
      invariant forall j :: k <= j < |x.allUnique| ==> x.allUnique[j].0 in have
    {
      var t := x.allUnique[k].0;
      if t in have {
        continue;
      }
      var idx := x.best[t];
      if idx >= nfiles {
        NotAFile(cfg, files, x, t);
        return false, saved, causes;
      }
      IsAFile(cfg, files, x, t);
      SavedFilesAreCovered(cfg, files, x, t, t);
      CoveredByMember(files, saved, t);
      assert idx !in saved;
      assert t in CoveredNames(x);
      SaveOne(cfg, files, x, saved, causes, t);
      LastIsRarest(cfg, files, x, saved, k);
      ChooseOne(files, x.best, saved, causes, t);
      saved, causes := saved + [idx], causes + [t];
      var result := ReadBack(cfg, x, idx, files);
      have := have + set u | u in result;
    }
  }
}
