/** afl-cmin: what a worker that saw its files in increasing order hands to main. */
module CminReplay {
  import opened CminTables
  import opened CminSchedule
  import Words

  ghost predicate Increasing(log: seq<nat>) {
    forall j, k :: 0 <= j < k < |log| ==> log[j] < log[k]
  }

  ghost function AsSet(log: seq<nat>): set<nat> {
    set f | f in log
  }

  lemma {:induction false} ReplayIsBest(cfg: Config, files: seq<File>, worker: nat, log: seq<nat>)
    requires cfg.Fits(files) && Increasing(log) && forall k :: 0 <= k < |log| ==> log[k] < |files|
    ensures TableIsBest(cfg, files, AsSet(log), Replay(cfg, files, worker, log).0.table)
  {
    hide ProcessFile;
    if log == [] {
    } else {
      var n := |log| - 1;
      var earlier := log[..n];
      ReplayIsBest(cfg, files, worker, earlier);
      assert AsSet(log) == AsSet(earlier) + {log[n]} by {
        assert log == earlier + [log[n]];
      }
      ProcessIsBest(cfg, files, AsSet(earlier), worker, Replay(cfg, files, worker, earlier).0, log[n]);
    }
  }

  /** seek and fromfile on a pack file of `itemsize`-byte items. */
  ghost predicate Readable(pack: seq<nat>, itemsize: nat, pos: nat, count: nat) {
    itemsize > 0 && pos % itemsize == 0 && pos / itemsize >= 0 && pos / itemsize + count <= |pack|
  }

  function FromFile(pack: seq<nat>, itemsize: nat, pos: nat, count: nat): seq<nat>
    requires Readable(pack, itemsize, pos, count)
  {
    pack[pos / itemsize..pos / itemsize + count]
  }

  /** The message says where the trace of its file is. */
  ghost predicate Locates(pack: seq<nat>, itemsize: nat, x: Info, trace: seq<nat>) {
    Readable(pack, itemsize, x.pos, x.count) && FromFile(pack, itemsize, x.pos, x.count) == trace
  }

  lemma LocatesAppended(pack: seq<nat>, itemsize: nat, x: Info, trace: seq<nat>)
    requires itemsize > 0 && x.pos == |pack| * itemsize && x.count == |trace|
    ensures Locates(pack + trace, itemsize, x, trace)
  {
    Words.RemainderIsUnique(x.pos, itemsize, |pack|, 0);
  }

  lemma LocatesLonger(pack: seq<nat>, more: seq<nat>, itemsize: nat, x: Info, trace: seq<nat>)
    requires Locates(pack, itemsize, x, trace)
    ensures Locates(pack + more, itemsize, x, trace)
  {
  }

  ghost predicate PackOk(cfg: Config, files: seq<File>, d: Data, infos: map<nat, Info>) {
    && d.packPos == |d.pack| * cfg.itemsize
    && (forall f :: f in infos ==> f < |files| && Locates(d.pack, cfg.itemsize, infos[f], files[f].trace))
  }

  lemma AppendPack(cfg: Config, files: seq<File>, worker: nat, d: Data, infos: map<nat, Info>, idx: nat)
    requires cfg.Fits(files) && TableFits(cfg, d.table) && idx < |files| && PackOk(cfg, files, d, infos)
    ensures var (d2, msg) := ProcessFile(cfg, worker, d, idx, files[idx]);
            PackOk(cfg, files, d2, if msg.Some? then infos[idx := msg.value] else infos)
  {
    hide Locates;
    var trace := files[idx].trace;
    var x := Info(idx, worker, d.packPos, |trace|);
    LocatesAppended(d.pack, cfg.itemsize, x, trace);
    forall f | f in infos
      ensures Locates(d.pack + trace, cfg.itemsize, infos[f], files[f].trace)
    {
      LocatesLonger(d.pack, trace, cfg.itemsize, infos[f], files[f].trace);
    }
  }

  lemma EmptyPack(cfg: Config, files: seq<File>)
    ensures PackOk(cfg, files, EmptyData(cfg), map[])
  {
  }

  lemma {:induction false} ReplayPack(cfg: Config, files: seq<File>, worker: nat, log: seq<nat>)
    requires cfg.Fits(files) && forall k :: 0 <= k < |log| ==> log[k] < |files|
    ensures var (d, infos) := Replay(cfg, files, worker, log); PackOk(cfg, files, d, infos)
  {
    hide ProcessFile, PackOk;
    if log == [] {
      EmptyPack(cfg, files);
    } else {
      var n := |log| - 1;
      ReplayPack(cfg, files, worker, log[..n]);
      var (d, infos) := Replay(cfg, files, worker, log[..n]);
      AppendPack(cfg, files, worker, d, infos, log[n]);
    }
  }

  /** A table entry is old, or the file was used. */
  lemma {:induction false} TouchedOrOld(cfg: Config, tbl: Table, idx: nat, energy: nat, trace: seq<nat>, n: nat, t: nat)
    requires TableFits(cfg, tbl) && n <= |trace| && (forall k :: 0 <= k < n ==> trace[k] < cfg.tuples) && t < cfg.tuples
    ensures var m := TouchAll(cfg, tbl, idx, energy, trace, n).m[t];
            m == tbl.m[t] || (m == idx && Used(cfg, tbl, idx, energy, trace, n))
  {
    if n > 0 {
      TouchedOrOld(cfg, tbl, idx, energy, trace, n - 1, t);
    }
  }

  /** Every file a table names has been reported to main. */
  lemma {:induction false} ReplayReports(cfg: Config, files: seq<File>, worker: nat, log: seq<nat>, t: nat)
    requires cfg.Fits(files) && (forall k :: 0 <= k < |log| ==> log[k] < |files|) && t < cfg.tuples
    ensures var (d, infos) := Replay(cfg, files, worker, log);
            d.table.m[t] == cfg.sentinel || d.table.m[t] in infos
  {
    if log != [] {
      var n := |log| - 1;
      ReplayReports(cfg, files, worker, log[..n], t);
      var d := Replay(cfg, files, worker, log[..n]).0;
      var f := files[log[n]];
      TouchedOrOld(cfg, d.table, log[n], f.energy, f.trace, if Recorded(cfg, f) then |f.trace| else 0, t);
    }
  }

  /** The counter of a worker holds the tuples of all its traces. */
  ghost function Tuples(files: seq<File>, log: seq<nat>): multiset<nat>
    requires forall k :: 0 <= k < |log| ==> log[k] < |files|
  {
    if log == [] then multiset{} else Tuples(files, log[..|log| - 1]) + multiset(files[log[|log| - 1]].trace)
  }

  lemma {:induction false} ReplayCounts(cfg: Config, files: seq<File>, worker: nat, log: seq<nat>)
    requires cfg.Fits(files) && forall k :: 0 <= k < |log| ==> log[k] < |files|
    ensures Replay(cfg, files, worker, log).0.counter == Tuples(files, log)
  {
    hide TouchAll, Used;
    if log != [] {
      ReplayCounts(cfg, files, worker, log[..|log| - 1]);
    }
  }
}
