/** afl-cmin from the end of any schedule to the saved files. */
module CminMain {
  import opened CminTables
  import opened CminSchedule
  import opened CminReplay
  import opened CminCover

  // ----- The tables of the workers together have seen every file -----

  ghost function Seens(s: System): seq<set<nat>> {
    seq(|s.workers|, i requires 0 <= i < |s.workers| => AsSet(s.workers[i].log))
  }

  lemma {:induction false} UnionMember(seens: seq<set<nat>>, f: nat)
    ensures f in UnionOf(seens) <==> exists i :: 0 <= i < |seens| && f in seens[i]
  {
    if seens != [] {
      UnionMember(seens[..|seens| - 1], f);
    }
  }

  lemma OwnersOf(owner: seq<nat>, workers: nat, f: nat)
    ensures forall i :: 0 <= i < workers ==> (f in Owned(owner, i) <==> f < |owner| && owner[f] == i)
  {
  }

  lemma OwnersInPool(cfg: Config, files: seq<File>, s: System, f: nat)
    requires Inv(cfg, files, s) && f < |s.owner|
    ensures s.owner[f] < cfg.workers
  {
  }

  lemma SeenByOwner(cfg: Config, files: seq<File>, s: System, f: nat)
    requires Inv(cfg, files, s) && |s.owner| == |files| && |s.workers| == cfg.workers
    requires forall i :: 0 <= i < cfg.workers ==> s.workers[i].log == Owned(s.owner, i)
    ensures f in UnionOf(Seens(s)) <==> f in Everyone(files)
  {
    hide Inv, UnionOf, Owned;
    UnionMember(Seens(s), f);
    OwnersOf(s.owner, cfg.workers, f);
    if f < |files| {
      OwnersInPool(cfg, files, s, f);
      assert f in Seens(s)[s.owner[f]];
      assert Range(0, |files|)[f] == f;
    }
  }

  /** Every file was seen by its owner, and by nobody else. */
  lemma AllSeen(cfg: Config, files: seq<File>, s: System)
    requires Inv(cfg, files, s) && Final(cfg, files, s)
    ensures UnionOf(Seens(s)) == Everyone(files)
  {
    AtTheEnd(cfg, files, s);
    forall f: nat
      ensures f in UnionOf(Seens(s)) <==> f in Everyone(files)
    {
      SeenByOwner(cfg, files, s, f);
    }
  }

  lemma ReplayOf(cfg: Config, files: seq<File>, s: System, i: nat)
    requires Inv(cfg, files, s) && i < |s.workers|
    ensures forall k :: 0 <= k < |s.workers[i].log| ==> s.workers[i].log[k] < |files|
    ensures (s.workers[i].data, s.workers[i].infos) == Replay(cfg, files, i, s.workers[i].log)
  {
  }

  /** The files of worker `i`, kept below the number of files. */
  ghost function Logged(files: seq<File>, owner: seq<nat>, i: nat): (log: seq<nat>)
    ensures forall k :: 0 <= k < |log| ==> log[k] < |files|
  {
    if |owner| > |files| then [] else
      OwnedIncreases(owner, i);
      Owned(owner, i)
  }

  /** Each table is the best of what its worker has seen, whatever the schedule was. */
  lemma TablesAtTheEnd(cfg: Config, files: seq<File>, s: System, i: nat)
    requires Inv(cfg, files, s) && Final(cfg, files, s) && i < |s.workers|
    ensures TableIsBest(cfg, files, AsSet(s.workers[i].log), s.workers[i].data.table)
    ensures s.workers[i].data.counter == Tuples(files, Logged(files, s.owner, i))
    ensures PackOk(cfg, files, s.workers[i].data, s.workers[i].infos)
    ensures forall t :: 0 <= t < cfg.tuples ==>
      s.workers[i].data.table.m[t] == cfg.sentinel || s.workers[i].data.table.m[t] in s.workers[i].infos
  {
    AtTheEnd(cfg, files, s);
    var w := s.workers[i];
    OwnedIncreases(s.owner, i);
    ReplayOf(cfg, files, s, i);
    hide Inv, Owned, Replay;
    ReplayIsBest(cfg, files, i, w.log);
    ReplayCounts(cfg, files, i, w.log);
    ReplayPack(cfg, files, i, w.log);
    forall t | 0 <= t < cfg.tuples
      ensures w.data.table.m[t] == cfg.sentinel || w.data.table.m[t] in w.infos
    {
      ReplayReports(cfg, files, i, w.log, t);
    }
  }

  // ----- The counters together count every trace once -----

  ghost function CountsOf(files: seq<File>, owner: seq<nat>, workers: nat): multiset<nat> {
    if workers == 0 then multiset{} else CountsOf(files, owner, workers - 1) + Tuples(files, Logged(files, owner, workers - 1))
  }

  lemma TuplesStep(files: seq<File>, log: seq<nat>, f: nat)
    requires f < |files| && forall k :: 0 <= k < |log| ==> log[k] < |files|
    ensures Tuples(files, log + [f]) == Tuples(files, log) + multiset(files[f].trace)
  {
  }

  lemma LoggedStep(files: seq<File>, owner: seq<nat>, i: nat, w: nat)
    requires |owner| < |files|
    ensures Tuples(files, Logged(files, owner + [i], w)) ==
            Tuples(files, Logged(files, owner, w)) + if i == w then multiset(files[|owner|].trace) else multiset{}
  {
    assert (owner + [i])[..|owner|] == owner;
    if i == w {
      TuplesStep(files, Logged(files, owner, w), |owner|);
    } else {
      assert Logged(files, owner + [i], w) == Logged(files, owner, w);
    }
  }

  lemma {:induction false} OneMoreOwner(files: seq<File>, owner: seq<nat>, i: nat, workers: nat)
    requires |owner| < |files|
    ensures CountsOf(files, owner + [i], workers) ==
            CountsOf(files, owner, workers) + if i < workers then multiset(files[|owner|].trace) else multiset{}
  {
    hide Logged, Tuples;
    if workers > 0 {
      OneMoreOwner(files, owner, i, workers - 1);
      LoggedStep(files, owner, i, workers - 1);
    }
  }

  lemma {:induction false} NoOwner(files: seq<File>, workers: nat)
    ensures CountsOf(files, [], workers) == multiset{}
  {
    if workers > 0 {
      NoOwner(files, workers - 1);
    }
  }

  lemma {:induction false} CountsAreTuples(files: seq<File>, owner: seq<nat>, workers: nat)
    requires |owner| <= |files| && forall k :: 0 <= k < |owner| ==> owner[k] < workers
    ensures CountsOf(files, owner, workers) == Tuples(files, Range(0, |owner|))
  {
    if owner == [] {
      NoOwner(files, workers);
    } else {
      var n := |owner| - 1;
      assert owner == owner[..n] + [owner[n]];
      CountsAreTuples(files, owner[..n], workers);
      OneMoreOwner(files, owner[..n], owner[n], workers);
      assert Range(0, n + 1)[..n] == Range(0, n);
    }
  }

  // ----- Why the saved files are few, and why some of them are needed -----

  lemma {:induction false} DistinctInside(xs: seq<nat>, names: set<nat>)
    requires forall j, k :: 0 <= j < k < |xs| ==> xs[j] != xs[k]
    requires forall k :: 0 <= k < |xs| ==> xs[k] in names
    ensures |xs| <= |names|
  {
    if xs != [] {
      var n := |xs| - 1;
      DistinctInside(xs[..n], names - {xs[n]});
    }
  }

  /** Each saved file has a tuple of its own. */
  lemma AtMostOnePerTuple(cfg: Config, files: seq<File>, x: Inputs, saved: seq<nat>, causes: seq<nat>)
    requires SavedOk(cfg, files, x, saved, causes)
    ensures |saved| <= |CoveredNames(x)|
  {
    assert forall j, k :: 0 <= j < k < |causes| ==> causes[j] != causes[k] by {
      forall j, k | 0 <= j < k < |causes|
        ensures causes[j] != causes[k]
      {
        assert saved[j] != saved[k];
      }
    }
    DistinctInside(causes, CoveredNames(x));
  }

  /** These files cover everything that all the files cover. */
  ghost predicate IsCover(files: seq<File>, idxs: seq<nat>) {
    (forall k :: 0 <= k < |idxs| ==> idxs[k] < |files|) && CoveredBy(files, idxs) == CoveredBy(files, Range(0, |files|))
  }

  /** Every set of files that covers all tuples contains the files of phase one. */
  lemma PhaseOneIsNeeded(cfg: Config, files: seq<File>, x: Inputs, saved: seq<nat>, causes: seq<nat>, others: seq<nat>)
    requires Ready(cfg, files, x) && SavedOk(cfg, files, x, saved, causes)
    requires forall k :: 0 <= k < |causes| ==> (causes[k], 1) in x.allUnique
    requires IsCover(files, others)
    ensures forall k :: 0 <= k < |saved| ==> saved[k] in others
  {
    hide CoveredBy, Represents, Everyone, Locates, Tuples;
    forall k | 0 <= k < |saved|
      ensures saved[k] in others
    {
      var t := causes[k];
      var j :| 0 <= j < |x.allUnique| && x.allUnique[j] == (t, 1);
      SavedFilesAreCovered(cfg, files, x, t, t);
      var all := Range(0, |files|);
      assert all[saved[k]] == saved[k];
      CoveredByMember(files, all, t);
      CoveredByMember(files, others, t);
      var g :| g in others && t in files[g].trace;
      CountedOnce(files, t, saved[k], g);
    }
  }

  // ----- The whole of main after the queues -----

  /** `order` lists a counter the way most_common does. */
  ghost predicate Lists(order: seq<(nat, nat)>, counter: multiset<nat>) {
    && MostCommonFirst(order)
    && (forall j, k :: 0 <= j < k < |order| ==> order[j].0 != order[k].0)
    && (forall k :: 0 <= k < |order| ==> order[k].0 in counter && order[k].1 == counter[order[k].0])
    && (forall t :: t in counter ==> exists k :: 0 <= k < |order| && order[k].0 == t)
  }

  lemma EndSizes(cfg: Config, files: seq<File>, s: System)
    requires Inv(cfg, files, s) && Final(cfg, files, s)
    ensures |s.workers| == cfg.workers && |s.owner| == |files|
    ensures forall k :: 0 <= k < |s.owner| ==> s.owner[k] < cfg.workers
  {
  }

  lemma NamesFit(cfg: Config, files: seq<File>, x: Inputs)
    requires cfg.Fits(files) && Lists(x.allUnique, Tuples(files, Range(0, |files|)))
    ensures forall k :: 0 <= k < |x.allUnique| ==> x.allUnique[k].0 < cfg.tuples
  {
    forall k | 0 <= k < |x.allUnique|
      ensures x.allUnique[k].0 < cfg.tuples
    {
      var t := x.allUnique[k].0;
      CountedIsTraced(files, Range(0, |files|), t);
      CoveredByMember(files, Range(0, |files|), t);
    }
  }

  lemma BestIsReported(cfg: Config, files: seq<File>, s: System, x: Inputs)
    requires Inv(cfg, files, s) && Final(cfg, files, s) && |x.best| == cfg.tuples && x.traceInfo == s.traceInfo
    requires forall t :: 0 <= t < cfg.tuples && x.best[t] != cfg.sentinel ==> exists i :: 0 <= i < |s.workers| && x.best[t] == s.workers[i].data.table.m[t]
    ensures forall t :: 0 <= t < cfg.tuples && x.best[t] != cfg.sentinel ==> x.best[t] in x.traceInfo
  {
    AtTheEnd(cfg, files, s);
    hide Inv;
    forall t | 0 <= t < cfg.tuples && x.best[t] != cfg.sentinel
      ensures x.best[t] in x.traceInfo
    {
      var i :| 0 <= i < |s.workers| && x.best[t] == s.workers[i].data.table.m[t];
      TablesAtTheEnd(cfg, files, s, i);
    }
  }

  lemma TraceSent(s: System, f: nat)
    requires ProgressOk(s.workers, s.progress, s.received, s.traceInfo) && f in s.traceInfo
    ensures s.traceInfo[f].idx == f && Sent(s.workers, s.traceInfo[f])
  {
  }

  lemma TracesAreFound(cfg: Config, files: seq<File>, s: System, x: Inputs)
    requires Inv(cfg, files, s) && Final(cfg, files, s) && x.traceInfo == s.traceInfo && |x.packs| == |s.workers|
    requires forall i :: 0 <= i < |s.workers| ==> x.packs[i] == s.workers[i].data.pack
    ensures forall f :: f in x.traceInfo ==> Found(cfg, files, x, f)
  {
    forall f | f in x.traceInfo
      ensures Found(cfg, files, x, f)
    {
      TraceSent(s, f);
      TablesAtTheEnd(cfg, files, s, s.traceInfo[f].worker);
    }
  }

  lemma ReadyAtTheEnd(cfg: Config, files: seq<File>, s: System, x: Inputs)
    requires cfg.Fits(files) && Inv(cfg, files, s) && Final(cfg, files, s)
    requires |x.best| == cfg.tuples && x.traceInfo == s.traceInfo && |x.packs| == |s.workers|
    requires forall i :: 0 <= i < |s.workers| ==> x.packs[i] == s.workers[i].data.pack
    requires forall t :: 0 <= t < cfg.tuples ==> Represents(cfg, files, Everyone(files), t, x.best[t])
    requires forall t :: 0 <= t < cfg.tuples && x.best[t] != cfg.sentinel ==> exists i :: 0 <= i < |s.workers| && x.best[t] == s.workers[i].data.table.m[t]
    requires Lists(x.allUnique, Tuples(files, Range(0, |files|)))
    ensures Ready(cfg, files, x)
  {
    EndSizes(cfg, files, s);
    BestIsReported(cfg, files, s, x);
    TracesAreFound(cfg, files, s, x);
    NamesFit(cfg, files, x);
    hide Inv, Final, Represents, Found, Tuples, Everyone;
  }

  /** The merged tables of the workers, tuple by tuple. */
  lemma ColumnsAtTheEnd(cfg: Config, files: seq<File>, s: System, ms: seq<seq<nat>>, es: seq<seq<nat>>)
    requires Inv(cfg, files, s) && Final(cfg, files, s) && |ms| == |es| == |s.workers|
    requires forall i :: 0 <= i < |s.workers| ==> ms[i] == s.workers[i].data.table.m && es[i] == s.workers[i].data.table.best
    ensures forall t :: 0 <= t < cfg.tuples ==> Column(cfg, files, ms, es, Seens(s), t)
  {
    AtTheEnd(cfg, files, s);
    assert cfg.Fits(files);
    hide Inv;
    forall t, i | 0 <= t < cfg.tuples && 0 <= i < |ms|
      ensures t < |ms[i]| && t < |es[i]| && IsBest(cfg, files, Seens(s)[i], t, ms[i][t], es[i][t])
    {
      TablesAtTheEnd(cfg, files, s, i);
    }
  }

  /** Some file can stand for tuple `t`. */
  ghost predicate CanBeKept(cfg: Config, files: seq<File>, t: nat) {
    exists f :: 0 <= f < |files| && Covers(cfg, files[f], t)
  }

  /** That is a file with the tuple that is not a crash kept apart, and whose energy, where it ranks, is no larger than 64 bits hold. */
  lemma WhoCanBeKept(cfg: Config, files: seq<File>, t: nat)
    ensures CanBeKept(cfg, files, t) <==>
            exists f :: 0 <= f < |files| && t in files[f].trace && !(files[f].crash && cfg.crashDir)
                        && (cfg.energyFirst ==> files[f].energy <= 0xFFFF_FFFF_FFFF_FFFF)
  {
    forall f | 0 <= f < |files|
      ensures Covers(cfg, files[f], t) <==> t in files[f].trace && !(files[f].crash && cfg.crashDir)
                                            && (cfg.energyFirst ==> files[f].energy <= 0xFFFF_FFFF_FFFF_FFFF)
    {
    }
  }

  /** Some file covers tuple `t`, whether it may be saved for it or not. */
  ghost predicate Traced(files: seq<File>, t: nat) {
    exists i :: 0 <= i < |files| && t in files[i].trace
  }

  /** A tuple has a representative exactly when some file can stand for it. */
  lemma WhoIsRepresented(cfg: Config, files: seq<File>, t: nat, idx: nat)
    requires |files| <= cfg.sentinel && Represents(cfg, files, Everyone(files), t, idx)
    ensures idx != cfg.sentinel <==> CanBeKept(cfg, files, t)
  {
    forall f | 0 <= f < |files|
      ensures f in Everyone(files)
    {
      assert Range(0, |files|)[f] == f;
    }
  }

  /** `first` are exactly the representatives of the tuples that occur once in all the traces together. */
  ghost predicate AreForced(files: seq<File>, best: seq<nat>, first: seq<nat>) {
    forall f :: f in first <==> exists t :: 0 <= t < |best| && Tuples(files, Range(0, |files|))[t] == 1 && best[t] == f
  }

  /** What phase one saves is forced, and nothing forced is left out. */
  lemma ForcedFiles(cfg: Config, files: seq<File>, x: Inputs, saved: seq<nat>, causes: seq<nat>)
    requires Ready(cfg, files, x) && SavedOk(cfg, files, x, saved, causes)
    requires forall k :: 0 <= k < |causes| ==> (causes[k], 1) in x.allUnique
    requires OnlyOnceSaved(x, saved, |x.allUnique|)
    ensures AreForced(files, x.best, saved)
  {
    hide Represents, Everyone, Locates, Tuples, Range;
    var counts := Tuples(files, Range(0, |files|));
    forall f | f in saved
      ensures exists t :: 0 <= t < |x.best| && counts[t] == 1 && x.best[t] == f
    {
      var k :| 0 <= k < |saved| && saved[k] == f;
      var j :| 0 <= j < |x.allUnique| && x.allUnique[j] == (causes[k], 1);
      assert counts[causes[k]] == 1;
    }
    forall t | 0 <= t < |x.best| && counts[t] == 1
      ensures x.best[t] in saved
    {
      assert t in counts;
      var j :| 0 <= j < |x.allUnique| && x.allUnique[j].0 == t;
    }
  }

  lemma SavedFacts(cfg: Config, files: seq<File>, x: Inputs, saved: seq<nat>, causes: seq<nat>)
    requires SavedOk(cfg, files, x, saved, causes)
    ensures forall k :: 0 <= k < |saved| ==> saved[k] < |files|
    ensures forall j, k :: 0 <= j < k < |saved| ==> saved[j] != saved[k]
    ensures |saved| <= |CoveredNames(x)|
  {
    AtMostOnePerTuple(cfg, files, x, saved, causes);
  }

  lemma AllCovered(cfg: Config, files: seq<File>, x: Inputs, saved: seq<nat>, causes: seq<nat>)
    requires Ready(cfg, files, x) && SavedOk(cfg, files, x, saved, causes)
    requires forall k :: 0 <= k < |saved| ==> saved[k] < |files|
    requires forall k :: 0 <= k < |x.allUnique| ==> x.allUnique[k].0 in CoveredBy(files, saved)
    ensures IsCover(files, saved)
    ensures forall k :: 0 <= k < |x.allUnique| ==> x.best[x.allUnique[k].0] != cfg.sentinel
  {
    hide CoveredBy, Represents, Everyone, Locates, Tuples;
    var all := Range(0, |files|);
    forall t
      ensures t in CoveredBy(files, saved) <==> t in CoveredBy(files, all)
    {
      CoveredByMember(files, saved, t);
      CoveredByMember(files, all, t);
      CountedIsTraced(files, all, t);
      if f :| f in saved && t in files[f].trace {
        assert all[f] == f;
      }
    }
    forall k | 0 <= k < |x.allUnique|
      ensures x.best[x.allUnique[k].0] != cfg.sentinel
    {
      var t := x.allUnique[k].0;
      CoveredByMember(files, saved, t);
      var f :| f in saved && t in files[f].trace;
      var j :| 0 <= j < |saved| && saved[j] == f;
      SavedFilesAreCovered(cfg, files, x, causes[j], t);
    }
  }

  /** Both phases. */
  method SaveCover(cfg: Config, nfiles: nat, x: Inputs, ghost files: seq<File>) returns (ok: bool, saved: seq<nat>, forced: nat, ghost causes: seq<nat>)
    requires Ready(cfg, files, x) && nfiles == |files|
    ensures ok <==> forall k :: 0 <= k < |x.allUnique| ==> x.best[x.allUnique[k].0] != cfg.sentinel
    ensures forall k :: 0 <= k < |saved| ==> saved[k] < |files|
    ensures forall j, k :: 0 <= j < k < |saved| ==> saved[j] != saved[k]
    ensures |saved| <= |CoveredNames(x)|
    ensures ok ==> IsCover(files, saved)
    ensures Chosen(files, x.best, saved, causes)
    ensures forced <= |saved|
    ensures ok ==> AreForced(files, x.best, saved[..forced])
    ensures forall others: seq<nat> :: IsCover(files, others) ==> forall k :: 0 <= k < forced ==> saved[k] in others
  {
    hide CoveredBy, Represents, Everyone, Locates, Tuples, SavedOk, JobsOk, OnlyOnceSaved, AreForced, Chosen, MostCommonFirst;
    var jobs: seq<seq<(nat, nat)>>;
    ok, saved, jobs, causes := PhaseOne(cfg, nfiles, x, files);
    SavedFacts(cfg, files, x, saved, causes);
    ghost var first := saved;
    forced := |saved|;
    forall others: seq<nat> | IsCover(files, others)
      ensures forall k :: 0 <= k < |first| ==> first[k] in others
    {
      PhaseOneIsNeeded(cfg, files, x, first, causes, others);
    }
    if ok {
      ForcedFiles(cfg, files, x, saved, causes);
      var have := CombineAll(cfg, x, saved, jobs, files);
      ok, saved, causes := PhaseTwo(cfg, nfiles, x, saved, have, files, causes);
      assert saved[..forced] == first;
      SavedFacts(cfg, files, x, saved, causes);
      if ok {
        AllCovered(cfg, files, x, saved, causes);
      }
    }
  }

  /** What the counters of all workers add up to. */
  ghost function SumCounters(ws: seq<Worker>): multiset<nat> {
    if ws == [] then multiset{} else SumCounters(ws[..|ws| - 1]) + ws[|ws| - 1].data.counter
  }

  lemma {:induction false} CountersAtTheEnd(cfg: Config, files: seq<File>, s: System, n: nat)
    requires Inv(cfg, files, s) && Final(cfg, files, s) && n <= |s.workers|
    ensures SumCounters(s.workers[..n]) == CountsOf(files, s.owner, n)
  {
    hide Inv, Final, Logged, Tuples, PackOk, TableIsBest;
    if n > 0 {
      CountersAtTheEnd(cfg, files, s, n - 1);
      TablesAtTheEnd(cfg, files, s, n - 1);
      assert s.workers[..n][..n - 1] == s.workers[..n - 1];
    }
  }

  lemma EndFacts(cfg: Config, files: seq<File>, s: System)
    requires Inv(cfg, files, s) && Final(cfg, files, s)
    ensures |s.workers| == cfg.workers && UnionOf(Seens(s)) == Everyone(files)
    ensures SumCounters(s.workers) == Tuples(files, Range(0, |files|))
  {
    hide Inv, Final, CountsOf, SumCounters, Tuples, UnionOf, Seens, Everyone;
    EndSizes(cfg, files, s);
    CountersAtTheEnd(cfg, files, s, cfg.workers);
    assert s.workers[..cfg.workers] == s.workers;
    AllSeen(cfg, files, s);
    CountsAreTuples(files, s.owner, cfg.workers);
  }

  lemma NamesAreTuples(files: seq<File>, x: Inputs)
    requires Lists(x.allUnique, Tuples(files, Range(0, |files|)))
    ensures CoveredNames(x) == CoveredBy(files, Range(0, |files|))
  {
    hide Tuples, CoveredBy, Range;
    forall t
      ensures t in CoveredNames(x) <==> t in CoveredBy(files, Range(0, |files|))
    {
      CountedIsTraced(files, Range(0, |files|), t);
    }
  }

  lemma CountedIffTraced(files: seq<File>, t: nat)
    ensures t in Tuples(files, Range(0, |files|)) <==> Traced(files, t)
  {
    var all := Range(0, |files|);
    CountedIsTraced(files, all, t);
    CoveredByMember(files, all, t);
    if i :| 0 <= i < |files| && t in files[i].trace {
      assert all[i] == i;
    }
  }

  lemma WhenItSucceeds(cfg: Config, files: seq<File>, x: Inputs, ok: bool)
    requires cfg.Fits(files) && |x.best| == cfg.tuples && Lists(x.allUnique, Tuples(files, Range(0, |files|)))
    requires forall k :: 0 <= k < |x.allUnique| ==> x.allUnique[k].0 < cfg.tuples
    requires forall t :: 0 <= t < cfg.tuples ==> Represents(cfg, files, Everyone(files), t, x.best[t])
    requires ok <==> forall k :: 0 <= k < |x.allUnique| ==> x.best[x.allUnique[k].0] != cfg.sentinel
    ensures ok <==> forall t :: Traced(files, t) ==> CanBeKept(cfg, files, t)
  {
    hide Represents, Everyone, Tuples, CanBeKept, Traced;
    forall t: nat | t < cfg.tuples
      ensures x.best[t] != cfg.sentinel <==> CanBeKept(cfg, files, t)
    {
      WhoIsRepresented(cfg, files, t, x.best[t]);
    }
    forall t
      ensures t in Tuples(files, Range(0, |files|)) <==> Traced(files, t)
    {
      CountedIffTraced(files, t);
    }
  }

  /**
   * From the end of any schedule: the representatives are the best over all files, so they do not depend
   * on the schedule; the saving succeeds exactly when every tuple of every trace has a file that can stand
   * for it, and then the saved files, all different and no more than there are tuples, cover them all.
   * Each was saved for a rarest of the tuples not covered before it.
   */
  method Minimise(cfg: Config, files: seq<File>, s: System, order: seq<(nat, nat)>)
    returns (best: seq<nat>, ok: bool, saved: seq<nat>, forced: nat, ghost causes: seq<nat>)
    requires cfg.Fits(files) && Inv(cfg, files, s) && Final(cfg, files, s)
    requires Lists(order, SumCounters(s.workers))
    ensures |best| == cfg.tuples && forall t :: 0 <= t < cfg.tuples ==> Represents(cfg, files, Everyone(files), t, best[t])
    ensures ok <==> forall t :: Traced(files, t) ==> CanBeKept(cfg, files, t)
    ensures forall k :: 0 <= k < |saved| ==> saved[k] < |files|
    ensures ok ==> IsCover(files, saved)
    ensures forall j, k :: 0 <= j < k < |saved| ==> saved[j] != saved[k]
    ensures |saved| <= |CoveredBy(files, Range(0, |files|))|
    ensures Chosen(files, best, saved, causes)
    ensures forced <= |saved|
    ensures ok ==> AreForced(files, best, saved[..forced])
    ensures forall others: seq<nat> :: IsCover(files, others) ==> forall k :: 0 <= k < forced ==> saved[k] in others
  {
    hide AreForced, Chosen, Inv, Final, CoveredBy, Represents, Everyone, Tuples, Ready, IsCover, CanBeKept, Traced, Column, SumCounters;
    EndFacts(cfg, files, s);
    var ms := seq(|s.workers|, i requires 0 <= i < |s.workers| => s.workers[i].data.table.m);
    var es := seq(|s.workers|, i requires 0 <= i < |s.workers| => s.workers[i].data.table.best);
    var packs := seq(|s.workers|, i requires 0 <= i < |s.workers| => s.workers[i].data.pack);
    ColumnsAtTheEnd(cfg, files, s, ms, es);
    best := Merge(cfg, ms, es, files, Seens(s));
    var x := Inputs(best, s.traceInfo, packs, order);
    ReadyAtTheEnd(cfg, files, s, x);
    ok, saved, forced, causes := SaveCover(cfg, |files|, x, files);
    NamesAreTuples(files, x);
    NamesFit(cfg, files, x);
    WhenItSucceeds(cfg, files, x, ok);
  }

  /** The only file of this corpus is a crash that goes to its own directory: nobody stands for its tuple. */
  method CrashStopsTheCover(s: System, order: seq<(nat, nat)>) returns (ok: bool)
    requires var cfg := Config(false, true, 1, 255, 4, 1, 1);
             Inv(cfg, [File([0], true, 0)], s) && Final(cfg, [File([0], true, 0)], s) && Lists(order, SumCounters(s.workers))
    ensures !ok
  {
    hide Inv, Final, SumCounters, Lists, IsCover, AreForced, Chosen, Represents;
    var cfg, files := Config(false, true, 1, 255, 4, 1, 1), [File([0], true, 0)];
    assert files[0].trace[0] == 0 && Traced(files, 0);
    assert !CanBeKept(cfg, files, 0);
    var best, saved, forced;
    ghost var causes;
    best, ok, saved, forced, causes := Minimise(cfg, files, s, order);
  }
}
