/** afl-cmin: one worker process, with its tables updated in place. */
module CminWorker {
  import opened Options
  import opened CminTables
  import opened CminSchedule

  class WorkerProcess {
    const cfg: Config
    const id: nat
    const m: array<nat>
    const bestEnergy: array<nat>
    var counter: multiset<nat>
    var crashes: seq<nat>
    var energies: map<nat, nat>
    var pack: seq<nat>
    var packPos: nat

    ghost predicate Valid()
      reads this
    {
      m.Length == cfg.tuples && bestEnergy.Length == cfg.tuples && m != bestEnergy
    }

    ghost function Tables(): (t: Table)
      requires Valid()
      reads this, m, bestEnergy
      ensures TableFits(cfg, t)
    {
      Table(m[..], bestEnergy[..])
    }

    ghost function View(): Data
      requires Valid()
      reads this, m, bestEnergy
    {
      Data(Tables(), counter, crashes, energies, pack, packPos)
    }

    constructor (cfg: Config, id: nat)
      ensures Valid() && fresh(m) && fresh(bestEnergy)
      ensures this.cfg == cfg && this.id == id && View() == EmptyData(cfg)
    {
      this.cfg, this.id := cfg, id;
      m := new nat[cfg.tuples](_ => cfg.sentinel);
      bestEnergy := new nat[cfg.tuples](_ => INF_EN);
      counter, crashes, energies, pack, packPos := multiset{}, [], map[], [], 0;
      new;
      assert m[..] == EmptyTable(cfg).m && bestEnergy[..] == EmptyTable(cfg).best;
    }

    /** The loop over the tuples of one trace. */
    method TouchTuples(idx: nat, energy: nat, trace: seq<nat>) returns (used: bool)
      requires Valid() && forall k :: 0 <= k < |trace| ==> trace[k] < cfg.tuples
      modifies m, bestEnergy
      ensures Tables() == TouchAll(cfg, old(Tables()), idx, energy, trace, |trace|)
      ensures used == Used(cfg, old(Tables()), idx, energy, trace, |trace|)
    {
      used := false;
      ghost var was := Tables();
      for n := 0 to |trace|
        invariant Tables() == TouchAll(cfg, was, idx, energy, trace, n)
        invariant used == Used(cfg, was, idx, energy, trace, n)
      {
        var t := trace[n];
        if cfg.energyFirst && energy > 0 {
          if energy < bestEnergy[t] || (energy == bestEnergy[t] && idx < m[t]) {
            m[t] := idx;
            bestEnergy[t] := energy;
            used := true;
          }
        } else {
          if idx < m[t] {
            m[t] := idx;
            used := true;
          }
        }
      }
    }

    /** What the worker does with one result of afl_showmap. */
    method Handle(idx: nat, f: File) returns (msg: Option<Info>)
      requires Valid() && FileFits(cfg, f)
      modifies this, m, bestEnergy
      ensures Valid() && (View(), msg) == ProcessFile(cfg, id, old(View()), idx, f)
    {
      counter := counter + multiset(f.trace);
      var used := false;
      if f.crash {
        crashes := crashes + [idx];
      }
      energies := energies[idx := f.energy];
      if !f.crash || !cfg.crashDir {
        used := TouchTuples(idx, f.energy, f.trace);
      }
      if used {
        pack := pack + f.trace;
        msg := Some(Info(idx, id, packPos, |f.trace|));
        packPos := packPos + |f.trace| * cfg.itemsize;
      } else {
        msg := None;
      }
    }

    /** The tables, the pack and the messages are those of a worker that has processed `log`. */
    ghost predicate HasRun(files: seq<File>, log: seq<nat>, infos: map<nat, Info>)
      requires cfg.Fits(files)
      reads this, m, bestEnergy
    {
      && Valid() && (forall k :: 0 <= k < |log| ==> log[k] < |files|)
      && (View(), infos) == Replay(cfg, files, id, log)
    }

    /** The files of one batch. */
    method RunBatch(files: seq<File>, batch: seq<nat>, ghost log: seq<nat>, before: map<nat, Info>) returns (infos: map<nat, Info>)
      requires cfg.Fits(files) && HasRun(files, log, before)
      requires forall k :: 0 <= k < |batch| ==> batch[k] < |files|
      modifies this, m, bestEnergy
      ensures HasRun(files, log + batch, infos)
    {
      hide ProcessFile, Replay;
      infos := before;
      assert log + batch[..0] == log;
      for k := 0 to |batch|
        invariant HasRun(files, log + batch[..k], infos)
      {
        var idx := batch[k];
        assert log + batch[..k + 1] == (log + batch[..k]) + [idx];
        ReplayStep(cfg, files, id, log + batch[..k], idx);
        var msg := Handle(idx, files[idx]);
        if msg.Some? {
          infos := infos[idx := msg.value];
        }
      }
      assert batch[..|batch|] == batch;
    }

    /** Worker.run on what it gets from the queue: batches, until the first sentinel. */
    method Run(files: seq<File>, jobs: seq<Job>) returns (infos: map<nat, Info>, n: nat)
      requires Valid() && cfg.Fits(files) && View() == EmptyData(cfg)
      requires forall j, k :: 0 <= j < |jobs| && jobs[j].Batch? && 0 <= k < |jobs[j].files| ==> jobs[j].files[k] < |files|
      modifies this, m, bestEnergy
      ensures n <= |jobs| && (n < |jobs| ==> jobs[n].Stop?) && forall j :: 0 <= j < n ==> jobs[j].Batch?
      ensures HasRun(files, FilesOf(jobs[..n]), infos)
    {
      infos, n := map[], 0;
      assert HasRun(files, FilesOf(jobs[..0]), infos);
      hide HasRun, FilesOf;
      while n < |jobs| && jobs[n].Batch?
        invariant n <= |jobs| && forall j :: 0 <= j < n ==> jobs[j].Batch?
        invariant HasRun(files, FilesOf(jobs[..n]), infos)
      {
        FilesOfNext(jobs, n);
        infos := RunBatch(files, jobs[n].files, FilesOf(jobs[..n]), infos);
        n := n + 1;
      }
    }
  }
}
