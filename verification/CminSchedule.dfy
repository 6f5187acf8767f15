/**
 * afl-cmin: the dispatcher, the workers and the receiving loop of main, as a step system.
 *
 * Any action that is enabled may happen next, so a run is any interleaving of the processes.
 */
module CminSchedule {
  import opened Options
  import opened CminTables

  datatype Job = Batch(files: seq<nat>) | Stop

  datatype Status = Idle | Busy(rest: seq<nat>) | Stopped

  /** `log` is the files the worker has finished, in order; `infos` the progress messages it has sent. */
  datatype Worker = Worker(status: Status, log: seq<nat>, data: Data, infos: map<nat, Info>)

  /**
   * `pending` is what the dispatcher has not put yet and `queue` the job queue. `progress` and `results`
   * are the messages under way to main; `received`, `traceInfo` and `collected` what main has taken.
   * `owner` records which worker took each file.
   */
  datatype System = System(pending: seq<Job>, queue: seq<Job>, owner: seq<nat>, workers: seq<Worker>,
                           progress: multiset<Option<Info>>, received: nat, traceInfo: map<nat, Info>,
                           results: multiset<nat>, collected: multiset<nat>)

  datatype Action = Dispatch | Take(worker: nat) | Process(worker: nat) | ReceiveProgress(msg: Option<Info>) | ReceiveResult(worker: nat)

  /** Consecutive indexes. */
  function Range(lo: nat, hi: nat): (s: seq<nat>)
    requires lo <= hi
    ensures |s| == hi - lo && forall k :: 0 <= k < |s| ==> s[k] == lo + k
  {
    seq(hi - lo, k requires 0 <= k < hi - lo => lo + k)
  }

  /** Consecutive batches of at most `chunk` indexes. */
  function Batches(lo: nat, n: nat, chunk: nat): (jobs: seq<Job>)
    requires lo <= n && chunk > 0
    decreases n - lo
  {
    if lo == n then [] else
      var hi := if lo + chunk <= n then lo + chunk else n;
      [Batch(Range(lo, hi))] + Batches(hi, n, chunk)
  }

  function Jobs(n: nat, chunk: nat, workers: nat): seq<Job>
    requires chunk > 0
  {
    Batches(0, n, chunk) + seq(workers, _ => Stop)
  }

  function Init(cfg: Config, files: seq<File>): System
    requires cfg.chunk > 0
  {
    System(Jobs(|files|, cfg.chunk, cfg.workers), [], [],
           seq(cfg.workers, _ => Worker(Idle, [], EmptyData(cfg), map[])),
           multiset{}, 0, map[], multiset{}, multiset{})
  }

  predicate Enabled(cfg: Config, files: seq<File>, s: System, a: Action) {
    match a
    case Dispatch => s.pending != []
    case Take(i) => i < |s.workers| && s.workers[i].status.Idle? && s.queue != []
    case Process(i) => i < |s.workers| && s.workers[i].status.Busy? && s.workers[i].status.rest != []
    case ReceiveProgress(msg) => s.received < |files| && msg in s.progress
    case ReceiveResult(i) => s.received == |files| && s.pending == [] && i in s.results
  }

  /** The worker's state fits the tables it was started with. */
  ghost predicate Workable(cfg: Config, files: seq<File>, s: System, i: nat) {
    && i < |s.workers| && TableFits(cfg, s.workers[i].data.table)
    && (s.workers[i].status.Busy? ==> forall k :: 0 <= k < |s.workers[i].status.rest| ==> s.workers[i].status.rest[k] < |files|)
  }

  ghost function ProcessOne(cfg: Config, files: seq<File>, i: nat, w: Worker): (r: (Worker, Option<Info>))
    requires cfg.Fits(files) && TableFits(cfg, w.data.table)
    requires w.status.Busy? && w.status.rest != [] && w.status.rest[0] < |files|
  {
    var idx, rest := w.status.rest[0], w.status.rest[1..];
    var (d, msg) := ProcessFile(cfg, i, w.data, idx, files[idx]);
    (Worker(if rest == [] then Idle else Busy(rest), w.log + [idx], d, if msg.Some? then w.infos[idx := msg.value] else w.infos), msg)
  }

  ghost function Next(cfg: Config, files: seq<File>, s: System, a: Action): System
    requires cfg.Fits(files) && Enabled(cfg, files, s, a)
    requires a.Process? ==> Workable(cfg, files, s, a.worker)
  {
    match a
    case Dispatch => s.(pending := s.pending[1..], queue := s.queue + [s.pending[0]])
    case Take(i) =>
      (match s.queue[0]
       case Batch(fs) => s.(queue := s.queue[1..], owner := s.owner + seq(|fs|, _ => i),
                            workers := s.workers[i := s.workers[i].(status := if fs == [] then Idle else Busy(fs))])
       case Stop => s.(queue := s.queue[1..], workers := s.workers[i := s.workers[i].(status := Stopped)],
                       results := s.results + multiset{i}))
    case Process(i) =>
      var (w, msg) := ProcessOne(cfg, files, i, s.workers[i]);
      s.(workers := s.workers[i := w], progress := s.progress + multiset{msg})
    case ReceiveProgress(msg) =>
      s.(progress := s.progress - multiset{msg}, received := s.received + 1,
         traceInfo := if msg.Some? then s.traceInfo[msg.value.idx := msg.value] else s.traceInfo)
    case ReceiveResult(i) =>
      s.(results := s.results - multiset{i}, collected := s.collected + multiset{i})
  }

  /** Everything main waits for has arrived. */
  predicate Final(cfg: Config, files: seq<File>, s: System) {
    s.received == |files| && |s.collected| == cfg.workers
  }

  // ----- What every run keeps -----

  /** The files in the order of the jobs that hold them. */
  ghost function FilesOf(jobs: seq<Job>): seq<nat> {
    if jobs == [] then []
    else (if jobs[0].Batch? then jobs[0].files else []) + FilesOf(jobs[1..])
  }

  ghost function Stops(jobs: seq<Job>): nat {
    if jobs == [] then 0 else (if jobs[0].Stop? then 1 else 0) + Stops(jobs[1..])
  }

  /** Sentinels come last. */
  ghost predicate StopsLast(jobs: seq<Job>) {
    forall i, j :: 0 <= i < j < |jobs| && jobs[i].Stop? ==> jobs[j].Stop?
  }

  /** The files a worker took, in increasing order. */
  ghost function Owned(owner: seq<nat>, i: nat): seq<nat> {
    if owner == [] then []
    else
      var n := |owner| - 1;
      Owned(owner[..n], i) + if owner[n] == i then [n] else []
  }

  /** The data of a worker that has processed `log`. */
  ghost function Replay(cfg: Config, files: seq<File>, worker: nat, log: seq<nat>): (r: (Data, map<nat, Info>))
    requires cfg.Fits(files) && forall k :: 0 <= k < |log| ==> log[k] < |files|
    ensures TableFits(cfg, r.0.table)
  {
    if log == [] then (EmptyData(cfg), map[])
    else
      var n := |log| - 1;
      var (d, infos) := Replay(cfg, files, worker, log[..n]);
      var (d2, msg) := ProcessFile(cfg, worker, d, log[n], files[log[n]]);
      (d2, if msg.Some? then infos[log[n] := msg.value] else infos)
  }

  ghost function Rest(w: Worker): seq<nat> {
    if w.status.Busy? then w.status.rest else []
  }

  ghost function Running(ws: seq<Worker>): nat {
    if ws == [] then 0 else (if ws[0].status.Stopped? then 0 else 1) + Running(ws[1..])
  }

  ghost function Done(ws: seq<Worker>): nat {
    if ws == [] then 0 else |ws[0].log| + Done(ws[1..])
  }

  ghost function Waiting(ws: seq<Worker>): nat {
    if ws == [] then 0 else |Rest(ws[0])| + Waiting(ws[1..])
  }

  /** The jobs not yet taken, in order. */
  ghost function Line(s: System): seq<Job> {
    s.queue + s.pending
  }

  ghost predicate WorkerOk(cfg: Config, files: seq<File>, owner: seq<nat>, i: nat, w: Worker)
    requires cfg.Fits(files)
  {
    && w.log + Rest(w) == Owned(owner, i)
    && (w.status.Busy? ==> w.status.rest != [])
    && (forall k :: 0 <= k < |w.log| ==> w.log[k] < |files|)
    && (w.data, w.infos) == Replay(cfg, files, i, w.log)
  }

  ghost predicate WorkersOk(cfg: Config, files: seq<File>, owner: seq<nat>, ws: seq<Worker>)
    requires cfg.Fits(files)
  {
    |ws| == cfg.workers && forall i :: 0 <= i < |ws| ==> WorkerOk(cfg, files, owner, i, ws[i])
  }

  ghost predicate OnlyStops(line: seq<Job>) {
    forall k :: 0 <= k < |line| ==> line[k].Stop?
  }

  /** Every batch is handed out once, in order, and the sentinels left are as many as the workers left. */
  ghost predicate LineOk(files: seq<File>, line: seq<Job>, owner: seq<nat>, ws: seq<Worker>) {
    && |owner| <= |files| && FilesOf(line) == Range(|owner|, |files|)
    && (forall k :: 0 <= k < |owner| ==> owner[k] < |ws|)
    && StopsLast(line) && Stops(line) == Running(ws)
    && Done(ws) + Waiting(ws) == |owner|
    && (forall i :: 0 <= i < |ws| && ws[i].status.Stopped? ==> OnlyStops(line))
  }

  ghost predicate Arrives(progress: multiset<Option<Info>>, traceInfo: map<nat, Info>, idx: nat, x: Info) {
    Some(x) in progress || (idx in traceInfo && traceInfo[idx] == x)
  }

  ghost predicate AllArrive(ws: seq<Worker>, progress: multiset<Option<Info>>, traceInfo: map<nat, Info>) {
    forall i, idx :: 0 <= i < |ws| && idx in ws[i].infos ==> Arrives(progress, traceInfo, idx, ws[i].infos[idx])
  }

  ghost predicate Sent(ws: seq<Worker>, x: Info) {
    x.worker < |ws| && x.idx in ws[x.worker].infos && ws[x.worker].infos[x.idx] == x
  }

  ghost predicate Genuine(ws: seq<Worker>, progress: multiset<Option<Info>>, traceInfo: map<nat, Info>) {
    && (forall x :: Some(x) in progress ==> Sent(ws, x))
    && (forall idx :: idx in traceInfo ==> traceInfo[idx].idx == idx && Sent(ws, traceInfo[idx]))
  }

  /** One progress message for every file done, and nothing in them but what the workers sent. */
  ghost predicate ProgressOk(ws: seq<Worker>, progress: multiset<Option<Info>>, received: nat, traceInfo: map<nat, Info>) {
    received + |progress| == Done(ws) && AllArrive(ws, progress, traceInfo) && Genuine(ws, progress, traceInfo)
  }

  /** One result for every worker that has stopped. */
  ghost predicate ResultsOk(ws: seq<Worker>, sent: multiset<nat>) {
    forall i: nat :: sent[i] == if i < |ws| && ws[i].status.Stopped? then 1 else 0
  }

  ghost predicate Inv(cfg: Config, files: seq<File>, s: System) {
    && cfg.Fits(files)
    && WorkersOk(cfg, files, s.owner, s.workers)
    && LineOk(files, Line(s), s.owner, s.workers)
    && ProgressOk(s.workers, s.progress, s.received, s.traceInfo)
    && ResultsOk(s.workers, s.results + s.collected)
  }

  // ----- Small facts about the counts -----

  lemma {:induction false} FilesOfAppend(a: seq<Job>, b: seq<Job>)
    ensures FilesOf(a + b) == FilesOf(a) + FilesOf(b)
    ensures Stops(a + b) == Stops(a) + Stops(b)
  {
    if a == [] {
      assert a + b == b;
    } else {
      assert (a + b)[1..] == a[1..] + b;
      FilesOfAppend(a[1..], b);
    }
  }

  lemma FilesOfNext(jobs: seq<Job>, n: nat)
    requires n < |jobs| && jobs[n].Batch?
    ensures FilesOf(jobs[..n + 1]) == FilesOf(jobs[..n]) + jobs[n].files
  {
    assert jobs[..n + 1] == jobs[..n] + [jobs[n]];
    FilesOfAppend(jobs[..n], [jobs[n]]);
  }

  lemma {:induction false} AllStops(jobs: seq<Job>)
    requires forall k :: 0 <= k < |jobs| ==> jobs[k].Stop?
    ensures Stops(jobs) == |jobs| && FilesOf(jobs) == []
  {
    if jobs != [] {
      AllStops(jobs[1..]);
    }
  }

  lemma {:induction false} OwnedAppend(owner: seq<nat>, i: nat, taker: nat, n: nat)
    ensures Owned(owner + seq(n, _ => taker), i) == Owned(owner, i) + if taker == i then Range(|owner|, |owner| + n) else []
    decreases n
  {
    if n == 0 {
      assert owner + seq(n, _ => taker) == owner;
    } else {
      var more := owner + seq(n, _ => taker);
      assert more[..|more| - 1] == owner + seq(n - 1, _ => taker);
      OwnedAppend(owner, i, taker, n - 1);
    }
  }

  lemma {:induction false} OwnedIncreases(owner: seq<nat>, i: nat)
    ensures forall k :: 0 <= k < |Owned(owner, i)| ==> Owned(owner, i)[k] < |owner|
    ensures forall j, k :: 0 <= j < k < |Owned(owner, i)| ==> Owned(owner, i)[j] < Owned(owner, i)[k]
    ensures forall f :: f in Owned(owner, i) <==> 0 <= f < |owner| && owner[f] == i
  {
    if owner != [] {
      OwnedIncreases(owner[..|owner| - 1], i);
    }
  }

  /** Replacing one worker changes each count by that worker's share. */
  lemma {:induction false} Replaced(ws: seq<Worker>, i: nat, w: Worker)
    requires i < |ws|
    ensures Done(ws[i := w]) == Done(ws) - |ws[i].log| + |w.log|
    ensures Waiting(ws[i := w]) == Waiting(ws) - |Rest(ws[i])| + |Rest(w)|
    ensures Running(ws[i := w]) == Running(ws) - (if ws[i].status.Stopped? then 0 else 1) + (if w.status.Stopped? then 0 else 1)
  {
    if i == 0 {
      assert ws[i := w][1..] == ws[1..];
    } else {
      assert ws[i := w][1..] == ws[1..][i - 1 := w];
      Replaced(ws[1..], i - 1, w);
    }
  }

  // ----- The start -----

  lemma {:induction false} BatchesCover(lo: nat, n: nat, chunk: nat)
    requires lo <= n && chunk > 0
    ensures FilesOf(Batches(lo, n, chunk)) == Range(lo, n) && Stops(Batches(lo, n, chunk)) == 0
    ensures forall k :: 0 <= k < |Batches(lo, n, chunk)| ==> Batches(lo, n, chunk)[k].Batch? && 0 < |Batches(lo, n, chunk)[k].files| <= chunk
    decreases n - lo
  {
    if lo < n {
      var hi := if lo + chunk <= n then lo + chunk else n;
      BatchesCover(hi, n, chunk);
      assert Range(lo, hi) + Range(hi, n) == Range(lo, n);
    }
  }

  lemma {:induction false} FreshWorkers(cfg: Config, n: nat)
    ensures var ws := seq(n, _ => Worker(Idle, [], EmptyData(cfg), map[])); Done(ws) == 0 && Waiting(ws) == 0 && Running(ws) == n
  {
    if n > 0 {
      var ws := seq(n, _ => Worker(Idle, [], EmptyData(cfg), map[]));
      assert ws[1..] == seq(n - 1, _ => Worker(Idle, [], EmptyData(cfg), map[]));
      FreshWorkers(cfg, n - 1);
    }
  }

  lemma InitInv(cfg: Config, files: seq<File>)
    requires cfg.Fits(files)
    ensures Inv(cfg, files, Init(cfg, files))
  {
    hide Batches, FilesOf, Stops, Running, Done, Waiting, Range;
    var s := Init(cfg, files);
    var stops := seq(cfg.workers, _ => Stop);
    BatchesCover(0, |files|, cfg.chunk);
    AllStops(stops);
    FilesOfAppend(Batches(0, |files|, cfg.chunk), stops);
    FreshWorkers(cfg, cfg.workers);
    assert Line(s) == s.pending;
  }

  // ----- The steps -----

  lemma DispatchInv(cfg: Config, files: seq<File>, s: System)
    requires Inv(cfg, files, s) && s.pending != []
    ensures Inv(cfg, files, Next(cfg, files, s, Dispatch))
  {
    hide WorkersOk, LineOk, ProgressOk, ResultsOk;
    assert Line(Next(cfg, files, s, Dispatch)) == Line(s);
  }

  /** A batch is taken: the files it holds are the next ones, and they now have an owner. */
  lemma TakeBatchLine(files: seq<File>, line: seq<Job>, owner: seq<nat>, ws: seq<Worker>, i: nat, w: Worker)
    requires LineOk(files, line, owner, ws) && line != [] && line[0].Batch? && i < |ws|
    requires ws[i].status.Idle? && w.log == ws[i].log
    requires w.status == if line[0].files == [] then Idle else Busy(line[0].files)
    ensures line[0].files == Range(|owner|, |owner| + |line[0].files|)
    ensures LineOk(files, line[1..], owner + seq(|line[0].files|, _ => i), ws[i := w])
  {
    hide Running, Done, Waiting;
    var fs := line[0].files;
    var all := FilesOf(line);
    assert fs == all[..|fs|] && FilesOf(line[1..]) == all[|fs|..];
    Replaced(ws, i, w);
    assert !OnlyStops(line);
  }

  lemma TakeBatchWorkers(cfg: Config, files: seq<File>, owner: seq<nat>, ws: seq<Worker>, i: nat, w: Worker, n: nat)
    requires cfg.Fits(files) && WorkersOk(cfg, files, owner, ws) && i < |ws| && ws[i].status.Idle?
    requires w == ws[i].(status := if n == 0 then Idle else Busy(Range(|owner|, |owner| + n)))
    ensures WorkersOk(cfg, files, owner + seq(n, _ => i), ws[i := w])
  {
    hide Owned, Replay;
    var owner2, ws2 := owner + seq(n, _ => i), ws[i := w];
    forall j | 0 <= j < |ws2|
      ensures WorkerOk(cfg, files, owner2, j, ws2[j])
    {
      OwnedAppend(owner, j, i, n);
      assert WorkerOk(cfg, files, owner, j, ws[j]);
    }
  }

  lemma SameInfos(ws: seq<Worker>, ws2: seq<Worker>, progress: multiset<Option<Info>>, traceInfo: map<nat, Info>)
    requires |ws| == |ws2| && forall i :: 0 <= i < |ws| ==> ws[i].infos == ws2[i].infos
    ensures AllArrive(ws, progress, traceInfo) ==> AllArrive(ws2, progress, traceInfo)
    ensures Genuine(ws, progress, traceInfo) ==> Genuine(ws2, progress, traceInfo)
  {
  }

  /** Changing a worker's status alone says nothing new about messages. */
  lemma StatusProgress(ws: seq<Worker>, i: nat, w: Worker, progress: multiset<Option<Info>>, received: nat, traceInfo: map<nat, Info>)
    requires i < |ws| && ProgressOk(ws, progress, received, traceInfo)
    requires w.log == ws[i].log && w.infos == ws[i].infos
    ensures ProgressOk(ws[i := w], progress, received, traceInfo)
  {
    hide Done, AllArrive, Genuine;
    Replaced(ws, i, w);
    SameInfos(ws, ws[i := w], progress, traceInfo);
  }

  lemma TakeStopLine(files: seq<File>, line: seq<Job>, owner: seq<nat>, ws: seq<Worker>, i: nat, w: Worker)
    requires LineOk(files, line, owner, ws) && line != [] && line[0].Stop? && i < |ws|
    requires ws[i].status.Idle? && w.status.Stopped? && w.log == ws[i].log
    ensures LineOk(files, line[1..], owner, ws[i := w])
  {
    hide Running, Done, Waiting;
    Replaced(ws, i, w);
  }

  lemma StopWorkers(cfg: Config, files: seq<File>, owner: seq<nat>, ws: seq<Worker>, i: nat, w: Worker)
    requires cfg.Fits(files) && WorkersOk(cfg, files, owner, ws) && i < |ws| && ws[i].status.Idle?
    requires w == ws[i].(status := Stopped)
    ensures WorkersOk(cfg, files, owner, ws[i := w])
  {
  }

  lemma SameResults(ws: seq<Worker>, i: nat, w: Worker, sent: multiset<nat>)
    requires i < |ws| && ResultsOk(ws, sent) && w.status.Stopped? == ws[i].status.Stopped?
    ensures ResultsOk(ws[i := w], sent)
  {
  }

  lemma OneMoreResult(ws: seq<Worker>, i: nat, w: Worker, results: multiset<nat>, collected: multiset<nat>)
    requires i < |ws| && ResultsOk(ws, results + collected) && !ws[i].status.Stopped? && w.status.Stopped?
    ensures ResultsOk(ws[i := w], (results + multiset{i}) + collected)
  {
    var ws2, sent := ws[i := w], (results + multiset{i}) + collected;
    forall j: nat
      ensures sent[j] == if j < |ws2| && ws2[j].status.Stopped? then 1 else 0
    {
      assert sent[j] == (results + collected)[j] + if j == i then 1 else 0;
    }
  }

  lemma TakeBatchInv(cfg: Config, files: seq<File>, s: System, i: nat)
    requires Inv(cfg, files, s) && Enabled(cfg, files, s, Take(i)) && s.queue[0].Batch?
    ensures Inv(cfg, files, Next(cfg, files, s, Take(i)))
  {
    hide LineOk, ProgressOk, WorkersOk, ResultsOk;
    var t := Next(cfg, files, s, Take(i));
    var fs := s.queue[0].files;
    assert Line(s)[0] == s.queue[0] && Line(t) == Line(s)[1..];
    SameResults(s.workers, i, t.workers[i], s.results + s.collected);
    StatusProgress(s.workers, i, t.workers[i], s.progress, s.received, s.traceInfo);
    TakeBatchLine(files, Line(s), s.owner, s.workers, i, t.workers[i]);
    assert fs == [] ==> |fs| == 0;
    TakeBatchWorkers(cfg, files, s.owner, s.workers, i, t.workers[i], |fs|);
  }

  lemma TakeStopInv(cfg: Config, files: seq<File>, s: System, i: nat)
    requires Inv(cfg, files, s) && Enabled(cfg, files, s, Take(i)) && s.queue[0].Stop?
    ensures Inv(cfg, files, Next(cfg, files, s, Take(i)))
  {
    hide LineOk, ProgressOk, WorkersOk, ResultsOk;
    var t := Next(cfg, files, s, Take(i));
    assert Line(s)[0] == s.queue[0] && Line(t) == Line(s)[1..];
    OneMoreResult(s.workers, i, t.workers[i], s.results, s.collected);
    StatusProgress(s.workers, i, t.workers[i], s.progress, s.received, s.traceInfo);
    TakeStopLine(files, Line(s), s.owner, s.workers, i, t.workers[i]);
    StopWorkers(cfg, files, s.owner, s.workers, i, t.workers[i]);
  }

  lemma ReplayStep(cfg: Config, files: seq<File>, worker: nat, log: seq<nat>, idx: nat)
    requires cfg.Fits(files) && idx < |files| && forall k :: 0 <= k < |log| ==> log[k] < |files|
    ensures var (d, infos) := Replay(cfg, files, worker, log);
            var (d2, msg) := ProcessFile(cfg, worker, d, idx, files[idx]);
            Replay(cfg, files, worker, log + [idx]) == (d2, if msg.Some? then infos[idx := msg.value] else infos)
  {
  }

  lemma MessageIsAbout(cfg: Config, worker: nat, d: Data, idx: nat, f: File)
    requires TableFits(cfg, d.table) && FileFits(cfg, f)
    ensures var msg := ProcessFile(cfg, worker, d, idx, f).1; msg.Some? ==> msg.value.idx == idx && msg.value.worker == worker
  {
  }

  lemma {:induction false} InfosAreLogged(cfg: Config, files: seq<File>, worker: nat, log: seq<nat>)
    requires cfg.Fits(files) && forall k :: 0 <= k < |log| ==> log[k] < |files|
    ensures var infos := Replay(cfg, files, worker, log).1;
            forall f :: f in infos ==> f in log && infos[f].idx == f && infos[f].worker == worker
  {
    hide ProcessFile;
    if log != [] {
      var n := |log| - 1;
      InfosAreLogged(cfg, files, worker, log[..n]);
      assert log[n] in log && forall f :: f in log[..n] ==> f in log;
      MessageIsAbout(cfg, worker, Replay(cfg, files, worker, log[..n]).0, log[n], files[log[n]]);
    }
  }

  /** A file is finished: it moves from the rest to the log, and one message goes out. */
  lemma ProcessWorkers(cfg: Config, files: seq<File>, owner: seq<nat>, ws: seq<Worker>, i: nat)
    requires cfg.Fits(files) && WorkersOk(cfg, files, owner, ws) && |owner| <= |files|
    requires i < |ws| && ws[i].status.Busy?
    ensures TableFits(cfg, ws[i].data.table) && ws[i].status.rest != [] && ws[i].status.rest[0] < |files|
    ensures WorkersOk(cfg, files, owner, ws[i := ProcessOne(cfg, files, i, ws[i]).0])
    ensures ws[i].status.rest[0] !in ws[i].infos
  {
    hide Owned, Replay;
    var was, idx := ws[i], ws[i].status.rest[0];
    assert WorkerOk(cfg, files, owner, i, was);
    OwnedIncreases(owner, i);
    assert Owned(owner, i)[|was.log|] == idx;
    assert forall k :: 0 <= k < |was.log| ==> was.log[k] == Owned(owner, i)[k];
    InfosAreLogged(cfg, files, i, was.log);
    var w := ProcessOne(cfg, files, i, was).0;
    var ws2 := ws[i := w];
    assert w.log[..|was.log|] == was.log;
    ReplayStep(cfg, files, i, was.log, idx);
    forall j | 0 <= j < |ws2|
      ensures WorkerOk(cfg, files, owner, j, ws2[j])
    {
      assert WorkerOk(cfg, files, owner, j, ws[j]);
    }
  }

  lemma ProcessArrive(ws: seq<Worker>, i: nat, w: Worker, idx: nat, msg: Option<Info>, progress: multiset<Option<Info>>, traceInfo: map<nat, Info>)
    requires i < |ws| && AllArrive(ws, progress, traceInfo)
    requires w.infos == if msg.Some? then ws[i].infos[idx := msg.value] else ws[i].infos
    ensures AllArrive(ws[i := w], progress + multiset{msg}, traceInfo)
  {
  }

  lemma ProcessGenuine(ws: seq<Worker>, i: nat, w: Worker, idx: nat, msg: Option<Info>, progress: multiset<Option<Info>>, traceInfo: map<nat, Info>)
    requires i < |ws| && Genuine(ws, progress, traceInfo) && idx !in ws[i].infos
    requires w.infos == if msg.Some? then ws[i].infos[idx := msg.value] else ws[i].infos
    requires msg.Some? ==> msg.value.idx == idx && msg.value.worker == i
    ensures Genuine(ws[i := w], progress + multiset{msg}, traceInfo)
  {
  }

  lemma ProcessProgress(ws: seq<Worker>, i: nat, w: Worker, idx: nat, msg: Option<Info>,
                        progress: multiset<Option<Info>>, received: nat, traceInfo: map<nat, Info>)
    requires i < |ws| && ProgressOk(ws, progress, received, traceInfo)
    requires idx !in ws[i].infos && |w.log| == |ws[i].log| + 1
    requires w.infos == if msg.Some? then ws[i].infos[idx := msg.value] else ws[i].infos
    requires msg.Some? ==> msg.value.idx == idx && msg.value.worker == i
    ensures ProgressOk(ws[i := w], progress + multiset{msg}, received, traceInfo)
  {
    hide Done, AllArrive, Genuine;
    Replaced(ws, i, w);
    ProcessArrive(ws, i, w, idx, msg, progress, traceInfo);
    ProcessGenuine(ws, i, w, idx, msg, progress, traceInfo);
  }

  lemma LineBounds(files: seq<File>, line: seq<Job>, owner: seq<nat>, ws: seq<Worker>)
    requires LineOk(files, line, owner, ws)
    ensures |owner| <= |files|
  {
  }

  lemma RestBounds(cfg: Config, files: seq<File>, owner: seq<nat>, ws: seq<Worker>, i: nat)
    requires cfg.Fits(files) && WorkersOk(cfg, files, owner, ws) && |owner| <= |files| && i < |ws|
    ensures forall k :: 0 <= k < |Rest(ws[i])| ==> Rest(ws[i])[k] < |files|
  {
    hide Owned, Replay;
    assert WorkerOk(cfg, files, owner, i, ws[i]);
    OwnedIncreases(owner, i);
    assert forall k :: 0 <= k < |Rest(ws[i])| ==> Rest(ws[i])[k] == Owned(owner, i)[|ws[i].log| + k];
  }

  lemma ProcessLine(files: seq<File>, line: seq<Job>, owner: seq<nat>, ws: seq<Worker>, i: nat, w: Worker)
    requires LineOk(files, line, owner, ws) && i < |ws| && !ws[i].status.Stopped? && !w.status.Stopped?
    requires |w.log| + |Rest(w)| == |ws[i].log| + |Rest(ws[i])|
    ensures LineOk(files, line, owner, ws[i := w])
  {
    hide Running, Done, Waiting;
    Replaced(ws, i, w);
  }

  lemma ProcessInv(cfg: Config, files: seq<File>, s: System, i: nat)
    requires Inv(cfg, files, s) && Enabled(cfg, files, s, Process(i))
    ensures Workable(cfg, files, s, i)
    ensures Inv(cfg, files, Next(cfg, files, s, Process(i)))
  {
    hide LineOk, ProgressOk, WorkersOk, ResultsOk, ProcessFile;
    LineBounds(files, Line(s), s.owner, s.workers);
    ProcessWorkers(cfg, files, s.owner, s.workers, i);
    RestBounds(cfg, files, s.owner, s.workers, i);
    assert Rest(s.workers[i]) == s.workers[i].status.rest;
    var w, idx := s.workers[i], s.workers[i].status.rest[0];
    var (w2, msg) := ProcessOne(cfg, files, i, w);
    MessageIsAbout(cfg, i, w.data, idx, files[idx]);
    ProcessProgress(s.workers, i, w2, idx, msg, s.progress, s.received, s.traceInfo);
    SameResults(s.workers, i, w2, s.results + s.collected);
    ProcessLine(files, Line(s), s.owner, s.workers, i, w2);
  }

  /** Different workers speak about different files. */
  lemma OneSender(cfg: Config, files: seq<File>, owner: seq<nat>, ws: seq<Worker>, i: nat, j: nat, f: nat)
    requires cfg.Fits(files) && WorkersOk(cfg, files, owner, ws) && i < |ws| && j < |ws|
    requires f in ws[i].infos && f in ws[j].infos
    ensures i == j && ws[i].infos[f].idx == f && ws[i].infos[f].worker == i
  {
    hide Owned, Replay;
    assert WorkerOk(cfg, files, owner, i, ws[i]) && WorkerOk(cfg, files, owner, j, ws[j]);
    InfosAreLogged(cfg, files, i, ws[i].log);
    InfosAreLogged(cfg, files, j, ws[j].log);
    OwnedIncreases(owner, i);
    OwnedIncreases(owner, j);
    assert f in ws[i].log + Rest(ws[i]) && f in ws[j].log + Rest(ws[j]);
  }

  lemma ReceiveArrive(cfg: Config, files: seq<File>, owner: seq<nat>, ws: seq<Worker>, progress: multiset<Option<Info>>, traceInfo: map<nat, Info>, msg: Option<Info>)
    requires cfg.Fits(files) && WorkersOk(cfg, files, owner, ws)
    requires AllArrive(ws, progress, traceInfo) && Genuine(ws, progress, traceInfo) && msg in progress
    ensures AllArrive(ws, progress - multiset{msg}, if msg.Some? then traceInfo[msg.value.idx := msg.value] else traceInfo)
  {
    hide WorkersOk;
    var left := progress - multiset{msg};
    var info2 := if msg.Some? then traceInfo[msg.value.idx := msg.value] else traceInfo;
    forall i, idx | 0 <= i < |ws| && idx in ws[i].infos
      ensures Arrives(left, info2, idx, ws[i].infos[idx])
    {
      assert Arrives(progress, traceInfo, idx, ws[i].infos[idx]);
      OneSender(cfg, files, owner, ws, i, i, idx);
      if msg.Some? && msg.value.idx == idx {
        assert Sent(ws, msg.value);
        OneSender(cfg, files, owner, ws, i, msg.value.worker, idx);
      }
    }
  }

  lemma ReceiveProgressInv(cfg: Config, files: seq<File>, s: System, msg: Option<Info>)
    requires Inv(cfg, files, s) && Enabled(cfg, files, s, ReceiveProgress(msg))
    ensures Inv(cfg, files, Next(cfg, files, s, ReceiveProgress(msg)))
  {
    hide LineOk, WorkersOk, ResultsOk, AllArrive;
    ReceiveArrive(cfg, files, s.owner, s.workers, s.progress, s.traceInfo, msg);
  }

  lemma ReceiveResultInv(cfg: Config, files: seq<File>, s: System, i: nat)
    requires Inv(cfg, files, s) && Enabled(cfg, files, s, ReceiveResult(i))
    ensures Inv(cfg, files, Next(cfg, files, s, ReceiveResult(i)))
  {
  }

  /** Every step of every process keeps the invariant. */
  lemma StepInv(cfg: Config, files: seq<File>, s: System, a: Action)
    requires Inv(cfg, files, s) && Enabled(cfg, files, s, a)
    ensures a.Process? ==> Workable(cfg, files, s, a.worker)
    ensures Inv(cfg, files, Next(cfg, files, s, a))
  {
    hide Inv, Next;
    match a
    case Dispatch =>
      assert s.pending != [];
      DispatchInv(cfg, files, s);
    case Take(i) =>
      if s.queue[0].Batch? {
        TakeBatchInv(cfg, files, s, i);
      } else {
        TakeStopInv(cfg, files, s, i);
      }
    case Process(i) => ProcessInv(cfg, files, s, i);
    case ReceiveProgress(msg) => ReceiveProgressInv(cfg, files, s, msg);
    case ReceiveResult(i) => ReceiveResultInv(cfg, files, s, i);
  }

  /** `t` follows `s` in some schedule. */
  ghost predicate Steps(cfg: Config, files: seq<File>, s: System, t: System)
    requires cfg.Fits(files)
  {
    exists a :: Enabled(cfg, files, s, a) && (a.Process? ==> Workable(cfg, files, s, a.worker)) && t == Next(cfg, files, s, a)
  }

  /** A run under any schedule: every state follows from the one before by some enabled action. */
  ghost predicate IsRun(cfg: Config, files: seq<File>, run: seq<System>)
    requires cfg.Fits(files)
  {
    && run != [] && run[0] == Init(cfg, files)
    && forall k :: 0 < k < |run| ==> Steps(cfg, files, run[k - 1], run[k])
  }

  lemma {:induction false} RunInv(cfg: Config, files: seq<File>, run: seq<System>, k: nat)
    requires cfg.Fits(files) && IsRun(cfg, files, run) && k < |run|
    ensures Inv(cfg, files, run[k])
  {
    hide Inv, Next, Enabled;
    if k == 0 {
      InitInv(cfg, files);
    } else {
      RunInv(cfg, files, run, k - 1);
      assert Steps(cfg, files, run[k - 1], run[k]);
      var a :| Enabled(cfg, files, run[k - 1], a) && (a.Process? ==> Workable(cfg, files, run[k - 1], a.worker))
               && run[k] == Next(cfg, files, run[k - 1], a);
      StepInv(cfg, files, run[k - 1], a);
    }
  }

  // ----- While main waits, somebody moves -----

  lemma {:induction false} SomeRunning(ws: seq<Worker>) returns (i: nat)
    requires Running(ws) > 0
    ensures i < |ws| && !ws[i].status.Stopped?
  {
    if !ws[0].status.Stopped? {
      return 0;
    }
    i := SomeRunning(ws[1..]);
    i := i + 1;
  }

  lemma {:induction false} NoneRunning(ws: seq<Worker>)
    requires Running(ws) == 0
    ensures forall i :: 0 <= i < |ws| ==> ws[i].status.Stopped?
  {
    if ws != [] {
      NoneRunning(ws[1..]);
    }
  }

  lemma {:induction false} NoneBusy(ws: seq<Worker>)
    requires forall i :: 0 <= i < |ws| ==> !ws[i].status.Busy?
    ensures Waiting(ws) == 0
  {
    if ws != [] {
      NoneBusy(ws[1..]);
    }
  }

  lemma {:induction false} OneOfEach(ms: multiset<nat>, n: nat)
    requires forall i: nat :: ms[i] == if i < n then 1 else 0
    ensures |ms| == n
  {
    if n == 0 {
      assert ms == multiset{};
    } else {
      OneOfEach(ms - multiset{n - 1}, n - 1);
    }
  }

  lemma {:induction false} AtMostOneOfEach(ms: multiset<nat>, n: nat)
    requires forall i: nat :: ms[i] <= if i < n then 1 else 0
    ensures |ms| <= n
    ensures |ms| == n ==> forall i :: 0 <= i < n ==> ms[i] == 1
  {
    if n == 0 {
      assert ms == multiset{};
    } else {
      AtMostOneOfEach(ms - multiset{n - 1}, n - 1);
      assert n - 1 !in ms ==> ms - multiset{n - 1} == ms;
    }
  }

  lemma {:induction false} AllRunning(ws: seq<Worker>)
    requires forall i :: 0 <= i < |ws| ==> ws[i].status.Stopped?
    ensures Running(ws) == 0
  {
    if ws != [] {
      AllRunning(ws[1..]);
    }
  }

  lemma FindIdle(cfg: Config, files: seq<File>, s: System) returns (i: nat)
    requires Inv(cfg, files, s) && s.queue != []
    requires forall i :: 0 <= i < |s.workers| ==> !s.workers[i].status.Busy?
    ensures i < |s.workers| && s.workers[i].status.Idle?
  {
    assert Line(s)[0] == s.queue[0];
    if s.queue[0].Batch? {
      assert !OnlyStops(Line(s));
      i := 0;
    } else {
      i := SomeRunning(s.workers);
    }
  }

  /** When all jobs are gone and nobody is busy, every message main still needs is under way. */
  lemma AllQuiet(cfg: Config, files: seq<File>, s: System)
    requires Inv(cfg, files, s) && Line(s) == []
    requires forall i :: 0 <= i < |s.workers| ==> !s.workers[i].status.Busy?
    ensures |s.owner| == |files| && s.received + |s.progress| == |files|
    ensures forall i :: 0 <= i < |s.workers| ==> s.workers[i].status.Stopped?
    ensures |s.results| + |s.collected| == cfg.workers
  {
    NoneRunning(s.workers);
    NoneBusy(s.workers);
    OneOfEach(s.results + s.collected, |s.workers|);
  }

  /** While main is waiting, some process can move. */
  lemma SomethingMoves(cfg: Config, files: seq<File>, s: System) returns (a: Action)
    requires Inv(cfg, files, s) && !Final(cfg, files, s)
    ensures Enabled(cfg, files, s, a)
  {
    if s.pending != [] {
      return Dispatch;
    }
    if i :| 0 <= i < |s.workers| && s.workers[i].status.Busy? {
      assert WorkerOk(cfg, files, s.owner, i, s.workers[i]);
      return Process(i);
    }
    if s.queue != [] {
      var i := FindIdle(cfg, files, s);
      return Take(i);
    }
    AllQuiet(cfg, files, s);
    if s.received < |files| {
      var msg :| msg in s.progress;
      return ReceiveProgress(msg);
    }
    var i :| i in s.results;
    return ReceiveResult(i);
  }

  lemma EndOfLine(cfg: Config, files: seq<File>, s: System)
    requires Inv(cfg, files, s) && Final(cfg, files, s)
    ensures Line(s) == [] && forall i :: 0 <= i < |s.workers| ==> s.workers[i].status.Stopped?
  {
    var sent := s.results + s.collected;
    AtMostOneOfEach(sent, cfg.workers);
    assert |sent| == cfg.workers;
    assert forall i :: 0 <= i < cfg.workers ==> sent[i] == 1;
    assert OnlyStops(Line(s)) by {
      assert s.workers[0].status.Stopped?;
    }
    AllStops(Line(s));
    AllRunning(s.workers);
  }

  lemma EndOfWorkers(cfg: Config, files: seq<File>, s: System)
    requires Inv(cfg, files, s) && s.progress == multiset{} && s.results == multiset{}
    requires forall i :: 0 <= i < |s.workers| ==> s.workers[i].status.Stopped?
    ensures forall i :: 0 <= i < cfg.workers ==> s.workers[i].log == Owned(s.owner, i)
    ensures forall i :: 0 <= i < cfg.workers ==> s.collected[i] == 1
    ensures forall i, f :: 0 <= i < cfg.workers && f in s.workers[i].infos ==> f in s.traceInfo && s.traceInfo[f] == s.workers[i].infos[f]
  {
    hide LineOk, Replay, Owned;
    assert s.results + s.collected == s.collected;
    forall i | 0 <= i < cfg.workers
      ensures s.workers[i].log == Owned(s.owner, i)
    {
      assert WorkerOk(cfg, files, s.owner, i, s.workers[i]);
      assert s.workers[i].log + [] == s.workers[i].log;
    }
    forall i, f | 0 <= i < cfg.workers && f in s.workers[i].infos
      ensures f in s.traceInfo && s.traceInfo[f] == s.workers[i].infos[f]
    {
      assert Arrives(s.progress, s.traceInfo, f, s.workers[i].infos[f]);
    }
  }

  /**
   * What main holds at the end of any run: each file was processed by exactly one worker, once; every
   * worker stopped on its own sentinel and its result was collected once; no message is left over.
   */
  lemma AtTheEnd(cfg: Config, files: seq<File>, s: System)
    requires Inv(cfg, files, s) && Final(cfg, files, s)
    ensures s.pending == [] && s.queue == [] && s.progress == multiset{} && s.results == multiset{}
    ensures |s.owner| == |files| && |s.workers| == cfg.workers
    ensures forall i :: 0 <= i < cfg.workers ==> s.workers[i].status == Stopped && s.workers[i].log == Owned(s.owner, i)
    ensures forall i :: 0 <= i < cfg.workers ==> s.collected[i] == 1
    ensures forall i, f :: 0 <= i < cfg.workers && f in s.workers[i].infos ==> f in s.traceInfo && s.traceInfo[f] == s.workers[i].infos[f]
  {
    EndOfLine(cfg, files, s);
    AllQuiet(cfg, files, s);
    assert s.progress == multiset{} && s.results == multiset{};
    EndOfWorkers(cfg, files, s);
  }
}
