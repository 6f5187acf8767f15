/** afl-cmin: what one worker learns from the files it is given. */
module CminTables {
  import opened Options

  /** One input as afl-showmap reports it. */
  datatype File = File(trace: seq<nat>, crash: bool, energy: nat)

  /**
   * `tuples` is the size of the tables, `sentinel` the index no file has, `itemsize` the width of a trace
   * item in the pack file, `workers` and `chunk` the size of the pool and of a batch.
   */
  datatype Config = Config(energyFirst: bool, crashDir: bool, tuples: nat, sentinel: nat, itemsize: nat, workers: nat, chunk: nat)
  {
    ghost predicate Fits(files: seq<File>) {
      && |files| <= sentinel && itemsize > 0 && workers > 0 && chunk > 0
      && forall i, k :: 0 <= i < |files| && 0 <= k < |files[i].trace| ==> files[i].trace[k] < tuples
    }
  }

  const INF_EN: nat := 0xFFFF_FFFF_FFFF_FFFF

  /** Crashes are kept out of the tables when they go to a directory of their own. */
  predicate Recorded(cfg: Config, f: File) {
    !f.crash || !cfg.crashDir
  }

  /** What a file is ranked by: its energy, or the largest value when it has none. */
  function Key(cfg: Config, f: File): nat {
    if cfg.energyFirst && f.energy > 0 then f.energy else INF_EN
  }

  /** `f` can stand for tuple `t`. A file whose energy is above the largest value never can. */
  predicate Covers(cfg: Config, f: File, t: nat) {
    Recorded(cfg, f) && Key(cfg, f) <= INF_EN && t in f.trace
  }

  datatype Table = Table(m: seq<nat>, best: seq<nat>)

  predicate TableFits(cfg: Config, tbl: Table) {
    |tbl.m| == |tbl.best| == cfg.tuples
  }

  function EmptyTable(cfg: Config): Table {
    Table(seq(cfg.tuples, _ => cfg.sentinel), seq(cfg.tuples, _ => INF_EN))
  }

  /** Does file `idx` take over tuple `t`? */
  predicate TakesOver(cfg: Config, tbl: Table, idx: nat, energy: nat, t: nat)
    requires TableFits(cfg, tbl) && t < cfg.tuples
  {
    if cfg.energyFirst && energy > 0
    then energy < tbl.best[t] || (energy == tbl.best[t] && idx < tbl.m[t])
    else idx < tbl.m[t]
  }

  function Touch(cfg: Config, tbl: Table, idx: nat, energy: nat, t: nat): (r: Table)
    requires TableFits(cfg, tbl) && t < cfg.tuples
    ensures TableFits(cfg, r)
  {
    if !TakesOver(cfg, tbl, idx, energy, t) then tbl
    else Table(tbl.m[t := idx], if cfg.energyFirst && energy > 0 then tbl.best[t := energy] else tbl.best)
  }

  /** The first `n` tuples of a trace, and whether any of them was taken over. */
  function TouchAll(cfg: Config, tbl: Table, idx: nat, energy: nat, trace: seq<nat>, n: nat): (r: Table)
    requires TableFits(cfg, tbl) && n <= |trace| && forall k :: 0 <= k < n ==> trace[k] < cfg.tuples
    ensures TableFits(cfg, r)
  {
    if n == 0 then tbl else Touch(cfg, TouchAll(cfg, tbl, idx, energy, trace, n - 1), idx, energy, trace[n - 1])
  }

  function Used(cfg: Config, tbl: Table, idx: nat, energy: nat, trace: seq<nat>, n: nat): bool
    requires TableFits(cfg, tbl) && n <= |trace| && forall k :: 0 <= k < n ==> trace[k] < cfg.tuples
  {
    n > 0 && (Used(cfg, tbl, idx, energy, trace, n - 1)
              || TakesOver(cfg, TouchAll(cfg, tbl, idx, energy, trace, n - 1), idx, energy, trace[n - 1]))
  }

  /** Where a trace is in the pack file of a worker: a byte offset and a number of items. */
  datatype Info = Info(idx: nat, worker: nat, pos: nat, count: nat)

  datatype Data = Data(table: Table, counter: multiset<nat>, crashes: seq<nat>, energies: map<nat, nat>, pack: seq<nat>, packPos: nat)

  function EmptyData(cfg: Config): Data {
    Data(EmptyTable(cfg), multiset{}, [], map[], [], 0)
  }

  ghost predicate FileFits(cfg: Config, f: File) {
    forall k :: 0 <= k < |f.trace| ==> f.trace[k] < cfg.tuples
  }

  /** Worker.run on one file: the new data, and the progress message. */
  ghost function ProcessFile(cfg: Config, worker: nat, d: Data, idx: nat, f: File): (r: (Data, Option<Info>))
    requires TableFits(cfg, d.table) && FileFits(cfg, f)
    ensures TableFits(cfg, r.0.table)
  {
    var n := if Recorded(cfg, f) then |f.trace| else 0;
    var used := Used(cfg, d.table, idx, f.energy, f.trace, n);
    var d2 := d.(table := TouchAll(cfg, d.table, idx, f.energy, f.trace, n),
                 counter := d.counter + multiset(f.trace),
                 crashes := if f.crash then d.crashes + [idx] else d.crashes,
                 energies := d.energies[idx := f.energy]);
    if used then (d2.(pack := d.pack + f.trace, packPos := d.packPos + |f.trace| * cfg.itemsize), Some(Info(idx, worker, d.packPos, |f.trace|)))
    else (d2, None)
  }

  /** The best file for tuple `t` among those in `seen`: least key, then least index. */
  ghost predicate IsBest(cfg: Config, files: seq<File>, seen: set<nat>, t: nat, m: nat, e: nat) {
    if m == cfg.sentinel
    then e == INF_EN && forall j :: j in seen && j < |files| ==> !Covers(cfg, files[j], t)
    else
      && m in seen && m < |files| && Covers(cfg, files[m], t) && e == Key(cfg, files[m])
      && forall j :: j in seen && j < |files| && Covers(cfg, files[j], t) ==> e < Key(cfg, files[j]) || (e == Key(cfg, files[j]) && m <= j)
  }

  /** There is at most one best file. */
  lemma BestIsUnique(cfg: Config, files: seq<File>, seen: set<nat>, t: nat, m1: nat, e1: nat, m2: nat, e2: nat)
    requires IsBest(cfg, files, seen, t, m1, e1) && IsBest(cfg, files, seen, t, m2, e2)
    ensures m1 == m2 && e1 == e2
  {
  }

  ghost predicate TableIsBest(cfg: Config, files: seq<File>, seen: set<nat>, tbl: Table) {
    TableFits(cfg, tbl) && forall t :: 0 <= t < cfg.tuples ==> IsBest(cfg, files, seen, t, tbl.m[t], tbl.best[t])
  }

  /** Part way through the trace of file `idx`: the tuples met so far have seen it, the others have not. */
  ghost predicate PartlyBest(cfg: Config, files: seq<File>, seen: set<nat>, idx: nat, n: nat, tbl: Table)
    requires idx < |files| && n <= |files[idx].trace|
  {
    TableFits(cfg, tbl) && forall t :: 0 <= t < cfg.tuples ==>
      IsBest(cfg, files, if t in files[idx].trace[..n] then seen + {idx} else seen, t, tbl.m[t], tbl.best[t])
  }

  /** One tuple of a file that comes after all the files seen. */
  lemma TouchIsBest(cfg: Config, files: seq<File>, seen: set<nat>, idx: nat, t: nat, tbl: Table)
    requires |files| <= cfg.sentinel && idx < |files| && TableFits(cfg, tbl) && t < cfg.tuples
    requires Recorded(cfg, files[idx]) && t in files[idx].trace
    requires forall j :: j in seen ==> j < idx
    requires IsBest(cfg, files, seen, t, tbl.m[t], tbl.best[t]) || IsBest(cfg, files, seen + {idx}, t, tbl.m[t], tbl.best[t])
    ensures var r := Touch(cfg, tbl, idx, files[idx].energy, t);
            IsBest(cfg, files, seen + {idx}, t, r.m[t], r.best[t])
  {
  }

  lemma {:induction false} TouchAllIsBest(cfg: Config, files: seq<File>, seen: set<nat>, idx: nat, n: nat, tbl: Table)
    requires cfg.Fits(files) && idx < |files| && n <= |files[idx].trace|
    requires Recorded(cfg, files[idx]) && TableIsBest(cfg, files, seen, tbl)
    requires forall j :: j in seen ==> j < idx
    ensures PartlyBest(cfg, files, seen, idx, n, TouchAll(cfg, tbl, idx, files[idx].energy, files[idx].trace, n))
  {
    hide IsBest;
    var trace := files[idx].trace;
    if n > 0 {
      TouchAllIsBest(cfg, files, seen, idx, n - 1, tbl);
      var before := TouchAll(cfg, tbl, idx, files[idx].energy, trace, n - 1);
      var after := TouchAll(cfg, tbl, idx, files[idx].energy, trace, n);
      TouchIsBest(cfg, files, seen, idx, trace[n - 1], before);
      assert trace[..n] == trace[..n - 1] + [trace[n - 1]];
      forall t | 0 <= t < cfg.tuples
        ensures IsBest(cfg, files, if t in trace[..n] then seen + {idx} else seen, t, after.m[t], after.best[t])
      {
        assert t != trace[n - 1] ==> after.m[t] == before.m[t] && after.best[t] == before.best[t];
      }
    }
  }

  lemma AddStranger(cfg: Config, files: seq<File>, seen: set<nat>, idx: nat, t: nat, m: nat, e: nat)
    requires IsBest(cfg, files, seen, t, m, e) && idx < |files| && !Covers(cfg, files[idx], t)
    ensures IsBest(cfg, files, seen + {idx}, t, m, e)
  {
  }

  /** A worker's table stays best when a later file is processed, whatever its energy. */
  lemma ProcessIsBest(cfg: Config, files: seq<File>, seen: set<nat>, worker: nat, d: Data, idx: nat)
    requires cfg.Fits(files) && idx < |files| && TableIsBest(cfg, files, seen, d.table)
    requires forall j :: j in seen ==> j < idx
    ensures TableIsBest(cfg, files, seen + {idx}, ProcessFile(cfg, worker, d, idx, files[idx]).0.table)
  {
    if Recorded(cfg, files[idx]) {
      TouchAllIsBest(cfg, files, seen, idx, |files[idx].trace|, d.table);
      assert files[idx].trace[..|files[idx].trace|] == files[idx].trace;
      var tbl := ProcessFile(cfg, worker, d, idx, files[idx]).0.table;
      forall t | 0 <= t < cfg.tuples
        ensures IsBest(cfg, files, seen + {idx}, t, tbl.m[t], tbl.best[t])
      {
        if t !in files[idx].trace {
          AddStranger(cfg, files, seen, idx, t, tbl.m[t], tbl.best[t]);
        }
      }
    } else {
      forall t | 0 <= t < cfg.tuples
        ensures IsBest(cfg, files, seen + {idx}, t, d.table.m[t], d.table.best[t])
      {
        AddStranger(cfg, files, seen, idx, t, d.table.m[t], d.table.best[t]);
      }
    }
  }

  /**
   * The order matters: a file without energy that is processed after a later one with energy takes the
   * tuple over and leaves that file's energy behind. The queue never delivers files in that order.
   */
  lemma OutOfOrder()
    ensures var cfg := Config(true, false, 1, 255, 4, 1, 1);
            var files := [File([0], false, 0), File([0], false, 7)];
            var later := ProcessFile(cfg, 0, EmptyData(cfg), 1, files[1]).0;
            var tbl := ProcessFile(cfg, 0, later, 0, files[0]).0.table;
            cfg.Fits(files) && tbl.m[0] == 0 && tbl.best[0] == 7 && !IsBest(cfg, files, {0, 1}, 0, tbl.m[0], tbl.best[0])
  {
    var cfg := Config(true, false, 1, 255, 4, 1, 1);
    var files := [File([0], false, 0), File([0], false, 7)];
    var t0 := EmptyTable(cfg);
    var t1 := TouchAll(cfg, t0, 1, 7, [0], 1);
    assert TouchAll(cfg, t0, 1, 7, [0], 0) == t0;
    assert t1 == Touch(cfg, t0, 1, 7, 0);
    assert TouchAll(cfg, t1, 0, 0, [0], 0) == t1;
    assert TouchAll(cfg, t1, 0, 0, [0], 1) == Touch(cfg, t1, 0, 0, 0);
  }
}
