/** afl-cmin: the widths, the batches and the sentinels main sets up before the processes start. */
module CminSetup {
  import opened Options
  import opened CminTables
  import opened CminSchedule
  import opened CminCover

  function Power256(w: nat): nat {
    if w == 0 then 1 else 256 * Power256(w - 1)
  }

  /** Item sizes of the array type codes B, H, I, L and Q. */
  const ITEM_SIZES: seq<nat> := [1, 2, 4, 8, 8]

  lemma {:induction false} PowerGrows(v: nat, w: nat)
    requires v <= w
    ensures 0 < Power256(v) <= Power256(w)
    decreases w
  {
    if v < w {
      PowerGrows(v, w - 1);
    } else if w > 0 {
      PowerGrows(w - 1, w - 1);
    }
  }

  /** The width of the narrowest code whose largest value no index below `size` reaches. */
  function TypeCode(size: nat): Option<nat> {
    if size < Power256(1) then Some(1)
    else if size < Power256(2) then Some(2)
    else if size < Power256(4) then Some(4)
    else if size < Power256(8) then Some(8)
    else None
  }

  /** detect_type_code. */
  method DetectTypeCode(size: nat) returns (itemsize: Option<nat>)
    ensures itemsize == TypeCode(size)
    ensures itemsize.Some? ==> itemsize.value in ITEM_SIZES && Power256(itemsize.value) - 1 >= size
    ensures itemsize.Some? ==> forall w :: w in ITEM_SIZES && w < itemsize.value ==> Power256(w) <= size
    ensures itemsize.None? <==> size >= Power256(8)
  {
    hide Power256;
    for k := 0 to |ITEM_SIZES|
      invariant forall j :: 0 <= j < k ==> Power256(ITEM_SIZES[j]) <= size
    {
      if Power256(ITEM_SIZES[k]) > size {
        PowerGrows(ITEM_SIZES[k], 8);
        assert ITEM_SIZES[0] == 1 && ITEM_SIZES[1] == 2 && ITEM_SIZES[2] == 4 && ITEM_SIZES[3] == 8;
        return Some(ITEM_SIZES[k]);
      }
    }
    assert Power256(ITEM_SIZES[0]) <= size && Power256(ITEM_SIZES[1]) <= size && Power256(ITEM_SIZES[2]) <= size && Power256(ITEM_SIZES[3]) <= size;
    return None;
  }

  /** The largest value of that code is no file's index. */
  lemma SentinelIsNoIndex(size: nat, idx: nat)
    requires TypeCode(size).Some? && idx < size
    ensures idx != Power256(TypeCode(size).value) - 1
  {
  }

  /** _batched: the next `n` items, until there are none; `n` below one is an error. */
  method Batched(files: nat, n: int) returns (jobs: Option<seq<Job>>)
    ensures jobs.None? <==> n < 1
    ensures jobs.Some? ==> jobs.value == Batches(0, files, n)
  {
    if n < 1 {
      return None;
    }
    var result: seq<Job> := [];
    var lo := 0;
    while lo < files
      invariant 0 <= lo <= files && result + Batches(lo, files, n) == Batches(0, files, n)
    {
      var hi := if lo + n <= files then lo + n else files;
      assert result + ([Batch(Range(lo, hi))] + Batches(hi, files, n)) == result + [Batch(Range(lo, hi))] + Batches(hi, files, n);
      result := result + [Batch(Range(lo, hi))];
      lo := hi;
    }
    return Some(result);
  }

  lemma FairShare(files: nat, workers: nat, share: nat)
    requires workers > 0 && share == files / workers
    ensures share * workers <= files < (share + 1) * workers
    ensures forall n: nat :: n <= share ==> n * workers <= files
  {
    forall n: nat | n <= share
      ensures n * workers <= files
    {
      assert n * workers <= share * workers;
    }
  }

  /** One file at a time without batching, otherwise a fair share of at most 128 and at least one. */
  function ChunkSize(noBatch: bool, files: nat, workers: nat): (n: nat)
    requires workers > 0
    ensures 1 <= n <= 128 && (noBatch ==> n == 1)
    ensures n > 1 ==> n * workers <= files
    ensures !noBatch && n < 128 ==> files < (n + 1) * workers
  {
    if noBatch || files < workers then 1 else
      FairShare(files, workers, files / workers);
      var share := files / workers;
      if share < 1 then 1 else if share > 128 then 128 else share
  }

  /** The job list of main is the one the step system starts from. */
  method JobList(files: nat, noBatch: bool, workers: nat) returns (jobs: seq<Job>)
    requires workers > 0
    ensures jobs == Jobs(files, ChunkSize(noBatch, files, workers), workers)
  {
    var batches := Batched(files, ChunkSize(noBatch, files, workers));
    jobs := batches.value + seq(workers, _ => Stop);
  }

  /** Every tuple of every trace is inside tables of `n` entries. */
  ghost predicate InTables(files: seq<File>, n: nat) {
    forall i, k :: 0 <= i < |files| && 0 <= k < |files[i].trace| ==> files[i].trace[k] < n
  }

  /** Without a map size tuples are stored in four bytes. */
  lemma DefaultFits()
    ensures 65536 * 9 <= Power256(4)
  {
  }

  /**
   * What main settles before the workers start. The sentinel of the tables is the largest value of the
   * code chosen for the indexes, so it is no index, and items of the packs hold every tuple. A map size
   * of zero means that none is known.
   */
  method SetUp(files: seq<File>, energyFirst: bool, crashDir: bool, noBatch: bool, workers: nat, mapSize: nat) returns (cfg: Option<Config>)
    requires workers > 0
    ensures cfg.None? <==> TypeCode(|files|).None? || (mapSize > 0 && TypeCode(mapSize * 9).None?)
    ensures cfg.Some? ==>
              && cfg.value.sentinel == Power256(TypeCode(|files|).value) - 1 && |files| <= cfg.value.sentinel
              && cfg.value.tuples == (if mapSize == 0 then 65536 else mapSize) * 9 <= Power256(cfg.value.itemsize)
              && cfg.value.energyFirst == energyFirst && cfg.value.crashDir == crashDir
              && cfg.value.chunk == ChunkSize(noBatch, |files|, workers) && cfg.value.workers == workers
              && (cfg.value.Fits(files) <==> InTables(files, cfg.value.tuples))
  {
    hide Power256, ChunkSize;
    DefaultFits();
    var fileCode := DetectTypeCode(|files|);
    var tupleCode := Some(4);
    if mapSize > 0 {
      tupleCode := DetectTypeCode(mapSize * 9);
    }
    if fileCode.None? || tupleCode.None? {
      return None;
    }
    var tuples := (if mapSize == 0 then 65536 else mapSize) * 9;
    cfg := Some(Config(energyFirst, crashDir, tuples, Power256(fileCode.value) - 1, tupleCode.value, workers,
                       ChunkSize(noBatch, |files|, workers)));
  }

  /** Two runs, split and ordered differently, agree on every representative. */
  lemma SameRepresentative(cfg: Config, files: seq<File>, t: nat, a: nat, b: nat)
    requires |files| <= cfg.sentinel
    requires Represents(cfg, files, Everyone(files), t, a) && Represents(cfg, files, Everyone(files), t, b)
    ensures a == b
  {
  }

  /** When energies are all positive the representative has the least energy, and the least index among those. */
  lemma LeastEnergyWins(cfg: Config, files: seq<File>, t: nat, idx: nat, f: nat)
    requires cfg.energyFirst && |files| <= cfg.sentinel && Represents(cfg, files, Everyone(files), t, idx)
    requires f < |files| && Recorded(cfg, files[f]) && t in files[f].trace
    requires forall i :: 0 <= i < |files| ==> 0 < files[i].energy <= INF_EN
    ensures idx < |files| && (files[idx].energy < files[f].energy || (files[idx].energy == files[f].energy && idx <= f))
  {
    assert Range(0, |files|)[f] == f;
    assert Covers(cfg, files[f], t);
  }

  /** When no energies are known it has the least index. */
  lemma LeastIndexWins(cfg: Config, files: seq<File>, t: nat, idx: nat, f: nat)
    requires |files| <= cfg.sentinel && Represents(cfg, files, Everyone(files), t, idx)
    requires f < |files| && Recorded(cfg, files[f]) && t in files[f].trace
    requires forall i :: 0 <= i < |files| ==> files[i].energy == 0
    ensures idx <= f
  {
    assert Range(0, |files|)[f] == f;
    assert Covers(cfg, files[f], t);
  }
}
