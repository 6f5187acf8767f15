/** afl-cmin: every schedule ends, and all schedules take equally many steps. */
module CminTermination {
  import opened CminTables
  import opened CminSchedule

  /**
   * The steps still to come: a job is put and taken, a file is processed and its message received, and a
   * worker's result is received.
   */
  ghost function Work(files: seq<File>, s: System): int {
    2 * |s.pending| + |s.queue| + 2 * (|files| - Done(s.workers)) + |s.progress| + Running(s.workers) + |s.results|
  }

  /** The steps of a whole run. */
  function Total(cfg: Config, files: seq<File>): nat
    requires cfg.chunk > 0
  {
    2 * |Jobs(|files|, cfg.chunk, cfg.workers)| + 2 * |files| + cfg.workers
  }

  lemma OneMoreDone(cfg: Config, files: seq<File>, i: nat, w: Worker)
    requires cfg.Fits(files) && TableFits(cfg, w.data.table)
    requires w.status.Busy? && w.status.rest != [] && w.status.rest[0] < |files|
    ensures var now := ProcessOne(cfg, files, i, w).0; |now.log| == |w.log| + 1 && !now.status.Stopped?
  {
    hide ProcessFile;
  }

  /** Whatever happens next, exactly one step less is left. */
  lemma StepCosts(cfg: Config, files: seq<File>, s: System, a: Action)
    requires cfg.Fits(files) && Enabled(cfg, files, s, a)
    requires a.Process? ==> Workable(cfg, files, s, a.worker)
    ensures Work(files, Next(cfg, files, s, a)) == Work(files, s) - 1
  {
    hide Done, Running, Waiting, ProcessOne;
    match a
    case Take(i) => Replaced(s.workers, i, Next(cfg, files, s, a).workers[i]);
    case Process(i) =>
      OneMoreDone(cfg, files, i, s.workers[i]);
      Replaced(s.workers, i, ProcessOne(cfg, files, i, s.workers[i]).0);
    case _ =>
  }

  lemma WorkAtFirst(cfg: Config, files: seq<File>)
    requires cfg.Fits(files)
    ensures Work(files, Init(cfg, files)) == Total(cfg, files)
  {
    FreshWorkers(cfg, cfg.workers);
  }

  /** After `k` steps of any run, `Total - k` are left. */
  lemma {:induction false} RunCosts(cfg: Config, files: seq<File>, run: seq<System>, k: nat)
    requires cfg.Fits(files) && IsRun(cfg, files, run) && k < |run|
    ensures Work(files, run[k]) == Total(cfg, files) - k
  {
    hide Next, Enabled, Work, Workable;
    if k == 0 {
      WorkAtFirst(cfg, files);
    } else {
      RunCosts(cfg, files, run, k - 1);
      assert Steps(cfg, files, run[k - 1], run[k]);
      var a :| Enabled(cfg, files, run[k - 1], a) && (a.Process? ==> Workable(cfg, files, run[k - 1], a.worker))
               && run[k] == Next(cfg, files, run[k - 1], a);
      StepCosts(cfg, files, run[k - 1], a);
    }
  }

  lemma WorkIsNoDebt(cfg: Config, files: seq<File>, s: System)
    requires Inv(cfg, files, s)
    ensures Work(files, s) >= 0
  {
  }

  lemma EverythingDone(cfg: Config, files: seq<File>, s: System)
    requires Inv(cfg, files, s) && Final(cfg, files, s) && s.progress == multiset{}
    ensures Done(s.workers) == |files|
  {
  }

  lemma NothingLeft(cfg: Config, files: seq<File>, s: System)
    requires Inv(cfg, files, s) && Final(cfg, files, s)
    ensures Work(files, s) == 0
  {
    AtTheEnd(cfg, files, s);
    AllRunning(s.workers);
    hide Done, Waiting, Running;
    EverythingDone(cfg, files, s);
  }

  lemma StepLeavesWork(cfg: Config, files: seq<File>, s: System, a: Action)
    requires Inv(cfg, files, s) && Enabled(cfg, files, s, a)
    ensures Work(files, s) > 0
  {
    assert cfg.Fits(files);
    hide Inv, Work, Next, Enabled, Workable;
    StepInv(cfg, files, s, a);
    StepCosts(cfg, files, s, a);
    WorkIsNoDebt(cfg, files, Next(cfg, files, s, a));
  }

  /** Main has all it waits for exactly when no process can move. */
  lemma FinalIsStuck(cfg: Config, files: seq<File>, s: System)
    requires Inv(cfg, files, s)
    ensures Final(cfg, files, s) <==> forall a :: !Enabled(cfg, files, s, a)
    ensures Final(cfg, files, s) <==> Work(files, s) == 0
  {
    hide Inv, Work, Next, Final, Enabled, Workable;
    if Final(cfg, files, s) {
      NothingLeft(cfg, files, s);
      forall a
        ensures !Enabled(cfg, files, s, a)
      {
        if Enabled(cfg, files, s, a) {
          StepLeavesWork(cfg, files, s, a);
        }
      }
    } else {
      var a := SomethingMoves(cfg, files, s);
      StepLeavesWork(cfg, files, s, a);
    }
  }

  /** No run of any schedule has more than `Total` steps, and it has ended exactly when it has taken them all. */
  lemma RunLength(cfg: Config, files: seq<File>, run: seq<System>, k: nat)
    requires cfg.Fits(files) && IsRun(cfg, files, run) && k < |run|
    ensures |run| <= Total(cfg, files) + 1
    ensures Final(cfg, files, run[k]) <==> k == Total(cfg, files)
  {
    hide IsRun, Inv, Work, Final, Total;
    var last := |run| - 1;
    RunInv(cfg, files, run, last);
    RunCosts(cfg, files, run, last);
    WorkIsNoDebt(cfg, files, run[last]);
    RunInv(cfg, files, run, k);
    RunCosts(cfg, files, run, k);
    FinalIsStuck(cfg, files, run[k]);
  }

  /** A run that cannot go on has ended. */
  lemma StuckRunHasEnded(cfg: Config, files: seq<File>, run: seq<System>, last: System)
    requires cfg.Fits(files) && IsRun(cfg, files, run) && last == run[|run| - 1]
    requires forall t :: !Steps(cfg, files, last, t)
    ensures Final(cfg, files, last) && |run| == Total(cfg, files) + 1
  {
    hide Inv, Final, Total, Enabled, Next, Workable;
    RunInv(cfg, files, run, |run| - 1);
    if !Final(cfg, files, last) {
      var a := SomethingMoves(cfg, files, last);
      StepInv(cfg, files, last, a);
      assert Steps(cfg, files, last, Next(cfg, files, last, a));
    }
    RunLength(cfg, files, run, |run| - 1);
  }

  lemma OneMoreStep(cfg: Config, files: seq<File>, run: seq<System>, a: Action)
    requires cfg.Fits(files) && IsRun(cfg, files, run) && Enabled(cfg, files, run[|run| - 1], a)
    requires a.Process? ==> Workable(cfg, files, run[|run| - 1], a.worker)
    ensures IsRun(cfg, files, run + [Next(cfg, files, run[|run| - 1], a)])
  {
    hide Enabled, Next, Workable;
    var last := run[|run| - 1];
    var more := run + [Next(cfg, files, last, a)];
    assert Steps(cfg, files, last, more[|run|]);
    forall k | 0 < k < |more|
      ensures Steps(cfg, files, more[k - 1], more[k])
    {
      if k < |run| {
        assert Steps(cfg, files, run[k - 1], run[k]);
      }
    }
  }

  /** Every run can go on, step by step, until it ends. */
  lemma {:induction false} RunEnds(cfg: Config, files: seq<File>, run: seq<System>) returns (whole: seq<System>)
    requires cfg.Fits(files) && IsRun(cfg, files, run)
    ensures IsRun(cfg, files, whole) && run <= whole
    ensures |whole| == Total(cfg, files) + 1 && Final(cfg, files, whole[|whole| - 1])
    decreases Total(cfg, files) + 1 - |run|
  {
    hide Inv, Final, Total, Enabled, Next, Workable;
    RunLength(cfg, files, run, |run| - 1);
    if Final(cfg, files, run[|run| - 1]) {
      return run;
    }
    var last := run[|run| - 1];
    RunInv(cfg, files, run, |run| - 1);
    var a := SomethingMoves(cfg, files, last);
    StepInv(cfg, files, last, a);
    var next := run + [Next(cfg, files, last, a)];
    OneMoreStep(cfg, files, run, a);
    RunLength(cfg, files, next, |next| - 1);
    whole := RunEnds(cfg, files, next);
  }
}
