# Verification of the hash, the corpus minimiser, the havoc mutator and their helpers

This project models seven parts of an AFL++ variant in Dafny and proves what they are for.
`dafny verify dfyconfig.toml` checks all of it.

**xxHash** (`Words`, `Alike`, `Striping`, `Xxh32`, `Xxh32Changes`, `Xxh64`, `Xxh64Changes`, `Multiply`, `Xxh3Lanes`,
`Xxh3LaneLaws`, `Xxh3Stripes`, `Xxh3Calls`, `Xxh3Short`, `Xxh3`, `Xxh3Laws`, `Xxh3Stream`, `AvalancheBijection`,
`RrmxmxBijection`, `KnownAnswers`). The three streaming states are classes with the fields of the C structs. Their updates
buffer partial blocks; XXH3 also withholds the last stripe, rebuilds it from catch-up bytes, keeps a place inside a
scramble block and caches a derived secret. For every way of cutting the input, and for XXH3 after any history of
resets, the digest equals the one-shot hash, which is itself proved against a definition over whole blocks or stripes.
The portable 64 by 64 bit product is exact, and the in-place scalar lanes agree with the vector formulas, which are
also spelled out byte by byte. What the hashes promise is proved: no change of a single byte leaves XXH32 as it was, the
tail of XXH64 loses nothing, XXH3 has no collisions among inputs of one length up to eight bytes, a secret generated
from a seed hashes as the seed, and a log of all calls says which bytes of a long input meet which bytes of the secret.
`KnownAnswers` has a few values of the hashes.

**Corpus minimiser** (`CminTables`, `CminSchedule`, `CminTermination`, `CminReplay`, `CminCover`, `CminMain`,
`CminSetup`, `CminWorker`). Dispatcher, workers and main are a step system whose invariant holds in every state of
every interleaving. Every schedule ends, and all of them after the same number of steps. From the end state the merge
and the two-phase greedy cover are sequential methods: coverage is preserved, no file is saved twice, each is saved for
a rarest tuple the earlier ones leave uncovered, the files of phase one are in every cover, and the representatives do
not depend on the schedule. The class `WorkerProcess` is one
worker updating its arrays in place. Batches are handed out in order, so each worker sees increasing indexes; this
makes the least-pair property hold for all energies, mixed zero and positive ones too, and `CminTables.OutOfOrder`
shows that it would fail otherwise. A tuple whose files all have energies above 2^64 - 1, or all go to a crash
directory, has no representative: the cover then stops with an index error; `Minimise` says exactly when, and
`CrashStopsTheCover` is such a corpus.

**Havoc mutator** (`HavocNumber`, `HavocShuffle`, `HavocEffects`, `HavocWords`, `HavocDigits`, `HavocTables`, `Havoc`). `HavocEffects.Effect` says
of each of the 37 operators how it may change the text; the methods of `Havoc.Mutator` do it in place on two arrays.
Any run keeps the length between one and the maximum and writes nothing past it, and in every state some entry of each
strategy table completes the step. The shuffle is one single cycle, the ASCII number operator reads the longest prefix
that fits and never overflows. `HavocWords` and `HavocDigits` tell the word and number operators by the bytes alone.

**Coverage map** (`CoverageMap`, `CoverageHistory`, `Coverage32`, `Coverage64`, `CoverageSizes`). The fast scan, scalar
and with vector masks, agrees with classifying and comparing, in both word sizes, against a meaning given byte by byte;
and over any history of traces the verdict says exactly what none of them had.

**Pool-backed list** (`PoolList`), **random numbers** (`AflRandom`, `AflRandomLow`) and **growing buffers** (`GrowBuffer`).

## Where the code and its documentation differ

- A comment at `AFLPlusPlus/src/afl-fuzz-bitmap.c:254-257` says that a result of 0 leaves the trace as it is. This
  holds exactly when nothing is new between the real map size and the padded one (`HasNewBitsUnclassified`);
  `Coverage64.NewOnlyInPadding` is a map for which it does not.
- `MUT_ARITH32BE` adds to the little-endian word (`Arith32BEIsLittleEndian` gives the one case where that is the same).
- `rand_below` is said to have a slight bias. With 64-bit draws it has none; with 32-bit draws it has one exactly when
  the limit does not divide 2^32.
- `next_pow2` is not the next power of two for all arguments; the exact condition is in `NextPow2IsLeastPower`.
- The hash under a secret and a seed is documented to use the secret from 240 bytes on; the code still takes the seed at
  exactly 240 (`Xxh3Laws.SecretOrSeed`).
- `snprintf` in `MUT_ASCIINUM` is told the size of a pointer: at most seven characters of the number are used.
- `afl_realloc` returns a buffer that is too small exactly when adding eight to the request wraps.

## Model

| member | source | states |
|---|---|---|
| `Striping.FoldAppend` | AFLPlusPlus/include/xxhash.h:3436-3476 | cutting the input at a block boundary and hashing the parts in turn gives the same lanes, for any block size, step function and data |
| `Striping.FoldStep` | AFLPlusPlus/include/xxhash.h:3312-3323 | hashing one more whole block is one more round on what the blocks before it gave |
| `Xxh32.Finalize` | AFLPlusPlus/include/xxhash.h:3170-3273 | the tail is mixed in fours and then ones, and only `len % 16` bytes of it are read |
| `Xxh32.OneShot` | AFLPlusPlus/include/xxhash.h:3295-3337 | the pointer-walking one-shot loop is the hash defined over whole blocks, tail and length |
| `Xxh32.State.Reset` | AFLPlusPlus/include/xxhash.h:3393-3403 | a reset state stands for the empty input under its seed, whatever it held before |
| `Xxh32.State.ConsumeBlock` | AFLPlusPlus/include/xxhash.h:3436-3448 | four rounds move the lanes from the first q bytes of the input to the first q + 16 |
| `Xxh32.State.TopUp` | AFLPlusPlus/include/xxhash.h:3432-3452 | the input completes the waiting block, which joins the lanes; nothing waits afterwards |
| `Xxh32.State.Drain` | AFLPlusPlus/include/xxhash.h:3454-3471 | whole blocks go straight from the input; fewer than 16 bytes are left |
| `Xxh32.State.Update` | AFLPlusPlus/include/xxhash.h:3407-3484 | after any update the lanes, the waiting bytes (always total % 16 of them), the wrapped length and the large-length flag are those of the old content followed by the input |
| `Xxh32.State.Digest` | AFLPlusPlus/include/xxhash.h:3487-3507 | the digest is the one-shot hash of the content for every length, also after the 32-bit length has wrapped |
| `Xxh32.HashPieces` | AFLPlusPlus/include/xxhash.h:3407-3507 | any way of cutting an input gives the one-shot hash of the whole |
| `Xxh32.CountedLength` | AFLPlusPlus/include/xxhash.h:3421-3423 | the flag set from the new piece and the wrapped length says whether the true total is at least 16, also when the total wraps |
| `Xxh32.State.Count` | AFLPlusPlus/include/xxhash.h:3421-3423 | length and flag take in the new piece; what waits in the buffer is still the end of what came before |
| `Xxh32.AddWrappedLength` | AFLPlusPlus/include/xxhash.h:3502 | adding the wrapped length to the hash is adding the true one |
| `Xxh32Changes.ConvergeKeeps` | AFLPlusPlus/include/xxhash.h:3325-3327 | lanes that differ in one place only converge to different words |
| `Xxh32Changes.FoldTells` | AFLPlusPlus/include/xxhash.h:3312-3323 | a change inside one aligned word of the blocks ends up as a change of exactly the lane that word goes to |
| `Xxh32Changes.ChangeIsNoticed` | AFLPlusPlus/include/xxhash.h:3170-3337 | inputs of one length that differ inside one aligned word, or in one byte after the last of them, never collide, for any seed and length |
| `Xxh32Changes.EveryByteCounts` | AFLPlusPlus/include/xxhash.h:3170-3337 | changing any single byte of any input changes its XXH32 |
| `Xxh64.Finalize` | AFLPlusPlus/include/xxhash.h:3764-3797 | the tail is mixed in eights, at most one four, then ones |
| `Xxh64.OneShot` | AFLPlusPlus/include/xxhash.h:3818-3863 | the one-shot loop is the hash defined over whole blocks, tail and length |
| `Xxh64.State.Reset` | AFLPlusPlus/include/xxhash.h:3920-3932 | a reset state stands for the empty input under its seed |
| `Xxh64.State.ConsumeBlock` | AFLPlusPlus/include/xxhash.h:3974-3985 | four rounds move the lanes from the first q bytes of the input to the first q + 32 |
| `Xxh64.State.Update` | AFLPlusPlus/include/xxhash.h:3934-4001 | lanes, waiting bytes (always total % 32) and wrapped length are those of the old content followed by the input |
| `Xxh64.State.Digest` | AFLPlusPlus/include/xxhash.h:4004-4033 | the digest is the one-shot hash of the content, unless more than 2^64 bytes went in and the wrapped length is below 32 |
| `Xxh64.HashPieces` | AFLPlusPlus/include/xxhash.h:3934-4033 | any way of cutting an input gives the one-shot hash of the whole, under the same condition |
| `Xxh64Changes.ChangeInTailIsNoticed` | AFLPlusPlus/include/xxhash.h:3764-3797 | inputs with the same whole blocks whose tails differ in one step, eight, four or one byte, never collide |
| `Xxh64Changes.EveryTailByteCounts` | AFLPlusPlus/include/xxhash.h:3764-3863 | changing any single byte after the whole blocks, so of any input below 32 bytes, changes its XXH64 |
| `AvalancheBijection.AvalancheIsBijection` | AFLPlusPlus/include/xxhash.h:3736-3743 | the final mixer has a two-sided inverse on all 64-bit words |
| `AvalancheBijection.CombinedIsInjective` | AFLPlusPlus/include/xxhash.h:5036-5040 | the word built from one to three bytes and their number tells the input |
| `AvalancheBijection.NoCollision1To3` | AFLPlusPlus/include/xxhash.h:5022-5046 | under one secret and seed no two different inputs of one to three bytes hash alike |
| `RrmxmxBijection.GatherUndoesSpread` | AFLPlusPlus/include/xxhash.h:4976-4979 | the xor of a word with its rotations by 49 and 24 is undone by doing it seven times more and turning back by eight |
| `RrmxmxBijection.RrmxmxIsInjective` | AFLPlusPlus/include/xxhash.h:4976-4984 | the mixer for four to eight bytes has a left inverse for every length |
| `RrmxmxBijection.NoCollision4To8` | AFLPlusPlus/include/xxhash.h:5050-5070 | under one secret and seed no two different inputs of one length between four and eight bytes hash alike |
| `Multiply.HalfProduct` | AFLPlusPlus/include/xxhash.h:4914-4918 | a product of two 32-bit halves leaves room for two more 32-bit values |
| `Multiply.ColumnsFit` | AFLPlusPlus/include/xxhash.h:4920-4923 | neither column sum leaves 64 bits, and the columns add up to the four shifted partial products |
| `Multiply.ExactProduct` | AFLPlusPlus/include/xxhash.h:4914-4927 | high * 2^64 + low is exactly lhs * rhs, for all operands |
| `Multiply.TimesByHalves` | AFLPlusPlus/include/xxhash.h:6364-6387 | multiplying through the two halves, as the vector forms do, is the 64-bit multiplication of the scalar form |
| `Xxh3Lanes.Advance` | AFLPlusPlus/include/xxhash.h:6307-6327 | one scalar round, which writes its own lane and its partner, turns the partial result for i lanes into the one for i + 1 |
| `Xxh3Lanes.AccumulateScalar` | AFLPlusPlus/include/xxhash.h:6333-6353 | the in-place walk over the lanes ends with the lane-parallel formula, for all accumulators, inputs and keys |
| `Xxh3Lanes.ScrambleScalar` | AFLPlusPlus/include/xxhash.h:6364-6401 | the in-place scalar scramble is the lane formula written with the split multiplication |
| `Xxh3LaneLaws.AccumulateSpelledOut` | AFLPlusPlus/include/xxhash.h:6307-6327 | every lane gains the little-endian word at the other half of its 16 bytes, the eight places written out, and the product of the halves of its own keyed word |
| `Xxh3LaneLaws.CrosswiseWords` | AFLPlusPlus/include/xxhash.h:6307-6327 | with a key equal to the stripe and empty lanes each lane holds exactly that word |
| `Xxh3LaneLaws.PairsAreApart` | AFLPlusPlus/include/xxhash.h:6307-6327 | lanes 2k and 2k + 1 depend on bytes 16k to 16k + 16 of stripe and key and on themselves only |
| `Xxh3LaneLaws.ScrambleSpelledOut` | AFLPlusPlus/include/xxhash.h:6364-6387 | a scrambled lane is the lane xored with itself shifted by 47 and with its key word, times 0x9E3779B1 modulo 2^64 |
| `Xxh3Stripes.AbsorbAppend` | AFLPlusPlus/include/xxhash.h:7029-7072 | absorbing n + m stripes is absorbing n and then m from where that left off |
| `Xxh3Stripes.AbsorbCopy` | AFLPlusPlus/include/xxhash.h:7013-7028 | only the bytes of the stripes matter, not the buffer they lie in |
| `Xxh3Stripes.ScramblesAreBlocks` | AFLPlusPlus/include/xxhash.h:7029-7072 | there is one scramble for every full block of stripes, whatever slot the absorption starts in, and the slot is what is left over |
| `Xxh3Stripes.AbsorbRun` | AFLPlusPlus/include/xxhash.h:7040-7070 | stripes inside one block need no scramble; the stripe that ends a block is followed by exactly one |
| `Xxh3Stripes.Accumulate` | AFLPlusPlus/include/xxhash.h:5346-5362 | the shared accumulate loop takes its stripes with consecutive keys |
| `Xxh3Stripes.ConsumeStripes` | AFLPlusPlus/include/xxhash.h:7029-7072 | from any slot and for any number of stripes the accumulators and the slot are those of absorbing them one by one; the slot stays below the number per block; for every pair of accumulator functions |
| `Xxh3Stripes.HashLongLoop` | AFLPlusPlus/include/xxhash.h:6533-6577 | the block loop of the one-shot hash ends with the same accumulators as absorbing all stripes before the last byte, then the last 64 bytes |
| `Xxh3Calls.CallsOfLong` | AFLPlusPlus/include/xxhash.h:6533-6577 | the log of all calls for a long input: stripe j meets the secret at eight times j modulo the slots, the last 64 bytes of the secret scramble after each whole block and nowhere else, and the last 64 bytes of the input meet the secret 71 bytes before its end |
| `Xxh3Short.Len17To128Loop` | AFLPlusPlus/include/xxhash.h:5180-5230 | the counting-down loop and the unrolled form compute the same hash |
| `Xxh3Short.Len129To240Loop` | AFLPlusPlus/include/xxhash.h:5238-5309 | the two loops, before and after the first avalanche, are the rounds taken recursively |
| `Xxh3Laws.MulFoldIsExact` | AFLPlusPlus/include/xxhash.h:4943-4946 | if the product of the operands is high * 2^64 + low, the fold is low xor high |
| `Xxh3Laws.MatchedMiddle` | AFLPlusPlus/include/xxhash.h:5180-5230 | 17 to 128 bytes: where a word of each 16-byte part equals its key word, front part i keyed at 32i and back part i at 32i + 16, only the length is left |
| `Xxh3Laws.MatchedLongMiddle` | AFLPlusPlus/include/xxhash.h:5238-5309 | 129 to 240 bytes: the same for eight parts keyed from the start, the others from byte 3 on, and the last 16 bytes keyed at 119 |
| `Xxh3.WrappedLength` | AFLPlusPlus/include/xxhash.h:7226-7239 | the wrapped length starts the merge as the true one does |
| `Xxh3.InitCustomSecret` | AFLPlusPlus/include/xxhash.h:6403-6470 | the derived secret written word by word into its buffer is the default secret moved up and down by the seed |
| `Xxh3Laws.CustomWords` | AFLPlusPlus/include/xxhash.h:6403-6470 | read back as words, the derived secret is the default one with the seed added to even words and taken from odd ones |
| `Xxh3Laws.SeedZeroIsDefault` | AFLPlusPlus/include/xxhash.h:1221 | a seed of zero gives the results of the unseeded hash, which are those under the default secret |
| `Xxh3Laws.SecretOrSeed` | AFLPlusPlus/include/xxhash.h:2070-2073 | a secret with a seed keys as the seed does up to 240 bytes and as the secret does beyond |
| `Xxh3Laws.DerivedSecretIsTheSeed` | AFLPlusPlus/include/xxhash.h:2082-2085 | a secret generated from a seed, given with that seed, keys inputs of every length as the seed alone does, so the results are exactly the same |
| `Xxh3Laws.SeedIsASecret` | AFLPlusPlus/include/xxhash.h:5180-5230 | for 17 to 128 bytes hashing under a seed is hashing under the secret derived from it |
| `Xxh3Laws.FirstLanes` | AFLPlusPlus/include/xxhash.h:6619-6629 | the eight values the lanes start from |
| `Xxh3Laws.MergeCancels` | AFLPlusPlus/include/xxhash.h:6580-6616 | where one lane of each pair equals its word of the secret, from byte 11 on, the merge leaves what it started from |
| `KnownAnswers.Empty3` | AFLPlusPlus/include/xxhash.h:5098-5114 | the published XXH3 of the empty input |
| `KnownAnswers.Hash8` | AFLPlusPlus/include/xxhash.h:5050-5070 | the hash of the first eight bytes of the default secret under a seed |
| `KnownAnswers.Hash12` | AFLPlusPlus/include/xxhash.h:5073-5096 | the hash of its first twelve bytes, which overlap when read from both ends |
| `KnownAnswers.Bitmap32` | AFLPlusPlus/include/xxhash.h:3295-3337 | the XXH32 of a 64-byte map with one byte set, seeded with the constant the fuzzer uses |
| `KnownAnswers.Bitmap64` | AFLPlusPlus/include/xxhash.h:3818-3863 | the XXH64 of the same map and seed |
| `Xxh3.OneShot` | AFLPlusPlus/include/xxhash.h:6738-6806 | each of the four entry points computes the hash of its mode: default, seed, secret, secret and seed |
| `Xxh3.SameKeysSameHash` | AFLPlusPlus/include/xxhash.h:6738-6806 | two modes that key inputs of a length alike, by secret and seed up to 240 bytes and by secret beyond, hash every input of that length alike |
| `Xxh3.TakeMore` | AFLPlusPlus/include/xxhash.h:7029-7072 | stripes consumed from wherever they are kept extend what has been taken in |
| `Xxh3Stream.State.SecretOfMode` | AFLPlusPlus/include/xxhash.h:7099-7100 | the secret in use, external or cached, is the one its mode derives |
| `Xxh3Stream.State.constructor` | AFLPlusPlus/include/xxhash.h:1901-1920 | a state whose fields are arbitrary except for the seed, which starts as zero, is one any reset may follow |
| `Xxh3Stream.State.Reset` | AFLPlusPlus/include/xxhash.h:6961-6968 | after any earlier history the state stands for the empty input in default mode |
| `Xxh3Stream.State.ResetWithSeed` | AFLPlusPlus/include/xxhash.h:6984-6994 | the same under a seed; the cached secret is the derived one although it is rebuilt only when the seed changes |
| `Xxh3Stream.State.ResetWithSecret` | AFLPlusPlus/include/xxhash.h:6971-6981 | the same under a secret of at least 136 bytes; a missing or shorter one is refused, and the state can still be reset |
| `Xxh3Stream.State.ResetWithSecretAndSeed` | AFLPlusPlus/include/xxhash.h:6997-7008 | the same under both; a refused call changes nothing |
| `Xxh3Stream.State.FillBuffer` | AFLPlusPlus/include/xxhash.h:7129-7143 | the input completes the buffer, whose four stripes are taken in; its last 64 bytes stay |
| `Xxh3Stream.State.ConsumeInput` | AFLPlusPlus/include/xxhash.h:7146-7155 | all stripes that end before the last byte are taken from the input and the last one of them is kept |
| `Xxh3Stream.State.Update` | AFLPlusPlus/include/xxhash.h:7084-7172 | after any update the accumulators hold a whole number of stripes, at least one byte is withheld, and buffer and catch-up bytes are those of the old content followed by the input |
| `Xxh3Stream.State.LastStripe` | AFLPlusPlus/include/xxhash.h:7206-7217 | the withheld bytes and what remains at the end of the buffer spell the last 64 bytes of the content |
| `Xxh3Stream.State.DigestLong` | AFLPlusPlus/include/xxhash.h:7184-7223 | on a copy of the accumulators the digest reaches what the one-shot block loop reaches |
| `Xxh3Stream.State.Digest` | AFLPlusPlus/include/xxhash.h:7226-7247 | the digest is the one-shot hash of the content in the current mode and only reads the state; past 2^64 bytes unless the wrapped length is at most 240 |
| `Xxh3Stream.HashPieces` | AFLPlusPlus/include/xxhash.h:6933-7247 | after any history of resets, failed ones included, and updates: one successful reset and any sequence of updates give the one-shot hash of the joined input |
| `CminTables.TouchIsBest` | AFLPlusPlus/afl-cmin.py:585-598 | one tuple of a file later than all seen: the table entry stays the least (energy or infinity, index) among the files that cover the tuple |
| `CminTables.ProcessIsBest` | AFLPlusPlus/afl-cmin.py:569-605 | a worker's whole table stays the least pair per tuple, whatever the energies are |
| `CminTables.OutOfOrder` | AFLPlusPlus/afl-cmin.py:595-598 | a concrete table for which the same step, with an earlier index after a later one, does not leave the least pair: the increasing order is needed |
| `CminTables.BestIsUnique` | AFLPlusPlus/afl-cmin.py:806-825 | there is at most one least pair |
| `CminWorker.WorkerProcess.TouchTuples` | AFLPlusPlus/afl-cmin.py:585-598 | the loop over a trace, updating both arrays in place, is the tuple step taken for each tuple in turn |
| `CminWorker.WorkerProcess.Handle` | AFLPlusPlus/afl-cmin.py:569-605 | tables, counter, crashes, energies, pack and offset after one result, and the message sent, are those of the file step |
| `CminWorker.WorkerProcess.RunBatch` | AFLPlusPlus/afl-cmin.py:569-605 | after a batch the worker has processed its log followed by the batch |
| `CminWorker.WorkerProcess.Run` | AFLPlusPlus/afl-cmin.py:548-607 | a worker handles the batches in front of the first sentinel and stops there |
| `CminReplay.ReplayIsBest` | AFLPlusPlus/afl-cmin.py:548-607 | a worker that saw increasing indexes hands over the least pair for every tuple |
| `CminReplay.ReplayPack` | AFLPlusPlus/afl-cmin.py:599-603 | every message names the place in the pack where exactly that file's trace is |
| `CminReplay.ReplayReports` | AFLPlusPlus/afl-cmin.py:587-605 | every index in a table has been reported with its place |
| `CminReplay.ReplayCounts` | AFLPlusPlus/afl-cmin.py:572 | a worker's counter is the multiset of all tuples of its traces |
| `CminSetup.DetectTypeCode` | AFLPlusPlus/afl-cmin.py:308-312 | the narrowest code whose largest value no index reaches, and none exactly when eight bytes do not suffice |
| `CminSetup.SentinelIsNoIndex` | AFLPlusPlus/afl-cmin.py:551-552 | the largest value of the code chosen for a number of files is the index of none of them |
| `CminSetup.SetUp` | AFLPlusPlus/afl-cmin.py:713-765 | the sentinel is the largest value of the code detected for the number of files, so no index; items of the packs hold every tuple; the tables fit exactly when every tuple lies in them; the two options are passed on; setting up fails exactly when a code is missing |
| `CminSetup.Batched` | AFLPlusPlus/afl-cmin.py:41-57 | the batches are consecutive runs of at most n, and an n below one is an error |
| `CminSetup.ChunkSize` | AFLPlusPlus/afl-cmin.py:765 | without batching one file; otherwise the largest number up to 128 that gives every worker a batch, and at least one |
| `CminSetup.JobList` | AFLPlusPlus/afl-cmin.py:764-768 | the job list of main is the one the step system starts from |
| `CminSchedule.BatchesCover` | AFLPlusPlus/afl-cmin.py:41-57 | the batches hold every file once, in order, and none is empty or longer than the chunk |
| `CminSchedule.InitInv` | AFLPlusPlus/afl-cmin.py:754-771 | the start state satisfies the invariant of the schedule |
| `CminSchedule.TakeBatchInv` | AFLPlusPlus/afl-cmin.py:563-567 | taking a batch keeps it |
| `CminSchedule.TakeStopInv` | AFLPlusPlus/afl-cmin.py:566-607 | taking a sentinel and sending the result keeps it |
| `CminSchedule.ProcessInv` | AFLPlusPlus/afl-cmin.py:569-605 | handling one file and sending its message keeps it |
| `CminSchedule.ReceiveProgressInv` | AFLPlusPlus/afl-cmin.py:776-781 | receiving any message under way keeps it |
| `CminSchedule.ReceiveResultInv` | AFLPlusPlus/afl-cmin.py:791-798 | receiving any result under way keeps it |
| `CminSchedule.StepInv` | AFLPlusPlus/afl-cmin.py:525-607 | every step of the dispatcher, any worker or main keeps the invariant |
| `CminSchedule.RunInv` | AFLPlusPlus/afl-cmin.py:754-798 | every state of every run under every interleaving satisfies it |
| `CminTermination.StepCosts` | AFLPlusPlus/afl-cmin.py:754-798 | whatever step is taken next, exactly one step less is left to do |
| `CminTermination.RunCosts` | AFLPlusPlus/afl-cmin.py:754-798 | after k steps of any run under any schedule, the total less k are left |
| `CminTermination.RunLength` | AFLPlusPlus/afl-cmin.py:754-798 | no run is longer than the total: each job put and taken, each file processed and received, each result received; and it has ended exactly when it has taken that many steps |
| `CminTermination.FinalIsStuck` | AFLPlusPlus/afl-cmin.py:776-798 | main has everything it waits for exactly when no process can take a step |
| `CminTermination.StuckRunHasEnded` | AFLPlusPlus/afl-cmin.py:754-798 | a run that cannot go on has ended, after exactly the total number of steps |
| `CminSchedule.SomethingMoves` | AFLPlusPlus/afl-cmin.py:754-798 | until main has everything it waits for, some process can take a step |
| `CminTermination.RunEnds` | AFLPlusPlus/afl-cmin.py:754-798 | every run can be continued, step by step, into a run that ends |
| `CminSchedule.AtTheEnd` | AFLPlusPlus/afl-cmin.py:773-798 | at the end every file has been processed by exactly one worker, every worker has consumed one sentinel and sent one result, and no message is left over or lost |
| `CminCover.MergeBest` | AFLPlusPlus/afl-cmin.py:817-820 | the smaller of two workers' pairs is the least over both |
| `CminCover.Least` | AFLPlusPlus/afl-cmin.py:823 | the fallback takes the least index among the workers |
| `CminCover.BestPair` | AFLPlusPlus/afl-cmin.py:811-820 | the loop over the workers finds the least pair of all |
| `CminCover.BestIndex` | AFLPlusPlus/afl-cmin.py:811-825 | the chosen index is the least pair's, also when the fallback is taken |
| `CminCover.Merge` | AFLPlusPlus/afl-cmin.py:806-825 | for every tuple the chosen index represents it over all files |
| `CminCover.CombineTraces` | AFLPlusPlus/afl-cmin.py:619-627 | a reader's result is the union of the traces it was told to read |
| `CminCover.CombineAll` | AFLPlusPlus/afl-cmin.py:883-896 | the readers together return exactly the tuples of the files saved in phase one |
| `CminCover.PhaseOne` | AFLPlusPlus/afl-cmin.py:867-881 | phase one saves distinct files, each the representative of a tuple counted once, and, unless it stops, the representative of every such tuple; each one's trace is queued for reading |
| `CminCover.OnceIsRarest` | AFLPlusPlus/afl-cmin.py:868-874 | a tuple that occurs once is uncovered until its representative is saved, and no uncovered tuple is rarer |
| `CminCover.LastIsRarest` | AFLPlusPlus/afl-cmin.py:898-900 | of the uncovered tuples the one closest to the end of the falling list is a rarest |
| `CminCover.PhaseTwo` | AFLPlusPlus/afl-cmin.py:898-912 | phase two goes from the rarest tuple up: each file is saved for a tuple that the files before it leave uncovered and that no other uncovered tuple is rarer than; all tuples end up covered, and no file is saved twice although the saved set is not looked at |
| `CminCover.ReadBack` | AFLPlusPlus/afl-cmin.py:906-910 | what is read back for a saved file is exactly its trace |
| `CminMain.AllSeen` | AFLPlusPlus/afl-cmin.py:754-798 | whatever the schedule, the workers together have seen every file |
| `CminMain.TablesAtTheEnd` | AFLPlusPlus/afl-cmin.py:607 | at the end of every schedule each worker's table, counter and pack are those of the files it took |
| `CminMain.CountsAreTuples` | AFLPlusPlus/afl-cmin.py:796 | the summed counters are the multiset of all tuples, however the files were split |
| `CminCover.CountedOnce` | AFLPlusPlus/afl-cmin.py:869-871 | a tuple counted once lies in one trace only |
| `CminMain.PhaseOneIsNeeded` | AFLPlusPlus/afl-cmin.py:868-881 | every set of files that covers all tuples contains the files of phase one |
| `CminMain.ForcedFiles` | AFLPlusPlus/afl-cmin.py:868-881 | what phase one saves are exactly the representatives of the tuples counted once |
| `CminMain.WhoIsRepresented` | AFLPlusPlus/afl-cmin.py:806-825 | a tuple has a representative exactly when some recorded file with an energy of at most 2^64 - 1 covers it |
| `CminMain.WhoCanBeKept` | AFLPlusPlus/afl-cmin.py:569-598 | what that file is, spelled out: its trace has the tuple, it is no crash kept apart, and with energies in use its own is at most 2^64 - 1 |
| `CminMain.SaveCover` | AFLPlusPlus/afl-cmin.py:844-912 | both phases: success exactly when every counted tuple has a representative; distinct files, at most one per tuple, covering everything; the first ones are exactly the representatives of the tuples counted once, and lie in every cover; every file is the representative of a rarest tuple that the files saved before it leave uncovered |
| `CminMain.Minimise` | AFLPlusPlus/afl-cmin.py:784-912 | from the end of any schedule: the cover succeeds exactly when every traced tuple can be kept, and then the union of the saved traces is the union of all traces; no file twice; the count is at most the number of tuples; the files of phase one are exactly the representatives of the tuples that occur once, and every cover contains them; every file was saved for a rarest of the tuples the earlier ones leave uncovered, which its own trace has |
| `CminMain.CrashStopsTheCover` | AFLPlusPlus/afl-cmin.py:872-875 | a corpus of one crashing file with a non-empty trace and a crash directory: the cover stops |
| `CminSetup.SameRepresentative` | AFLPlusPlus/afl-cmin.py:806-825 | two runs that split and ordered the files differently choose the same representatives |
| `CminSetup.LeastEnergyWins` | AFLPlusPlus/afl-cmin.py:806-825 | with all energies positive the representative has the least energy and then the least index |
| `CminSetup.LeastIndexWins` | AFLPlusPlus/afl-cmin.py:821-823 | with no energies it has the least index |
| `Havoc.ChooseBlockLen` | AFLPlusPlus/include/afl-mutations.h:1760-1799 | a block length is at least 1, at most 32768, and at most the limit unless that is zero |
| `HavocNumber.FindDigit` | AFLPlusPlus/include/afl-mutations.h:2375-2411 | a digit is found exactly when the text has one: the first from the random place on, or else the first of all |
| `HavocNumber.ReadNumber` | AFLPlusPlus/include/afl-mutations.h:2411-2436 | the value is that of the longest run of digits that fits in 63 bits, and no step leaves the range |
| `HavocNumber.Change` | AFLPlusPlus/include/afl-mutations.h:2440-2512 | each of the eight strategies gives a result its specification allows |
| `HavocNumber.StrategyFits` | AFLPlusPlus/include/afl-mutations.h:2440-2512 | no strategy leaves the signed 64-bit range, and only values of several digits give one up |
| `HavocNumber.DigitsReadBack` | AFLPlusPlus/include/afl-mutations.h:2514-2515 | printed digits read back as the number |
| `HavocDigits.PrintedReadsBack` | AFLPlusPlus/include/afl-mutations.h:2514-2515 | a printed number reads back, sign included |
| `HavocDigits.TextReadsBack` | AFLPlusPlus/include/afl-mutations.h:2514-2520 | from -999999 to 9999999 the text put in reads back as the number; beyond, its seven characters read back as the number without its last digits |
| `HavocDigits.QuotientRoundsToZero` | AFLPlusPlus/include/afl-mutations.h:2440-2512 | division of signed values rounds towards zero |
| `HavocDigits.LastDigitsReadBack` | AFLPlusPlus/include/afl-mutations.h:2552-2593 | the last n digits put in read back as the number modulo ten to the n |
| `Havoc.SomethingStays` | AFLPlusPlus/include/afl-mutations.h:2438-2511 | giving up the last digit never empties the range that is replaced |
| `Havoc.PickNumber` | AFLPlusPlus/include/afl-mutations.h:2411-2512 | reading, sign and strategy together leave a range and a new value that belong to the number found |
| `HavocShuffle.Join` | AFLPlusPlus/include/afl-mutations.h:2303-2317 | exchanging the values of two places on different orbits joins the orbits |
| `HavocShuffle.RoundKeepsFamily` | AFLPlusPlus/include/afl-mutations.h:2303-2317 | each round leaves one orbit through each place still open, covering the block |
| `HavocShuffle.ShuffleBlock` | AFLPlusPlus/include/afl-mutations.h:2303-2317 | for every choice of places the loop applies one single cycle to the block, keeps its multiset, and touches nothing else |
| `HavocShuffle.NothingStays` | AFLPlusPlus/include/afl-mutations.h:2303-2317 | in a single cycle over at least two places none keeps its value |
| `HavocEffects.ShuffleMovesAll` | AFLPlusPlus/include/afl-mutations.h:2295-2321 | after MUT_SHUFFLE every byte of a block of at least two came from another place and the rest of the text is unchanged |
| `HavocEffects.Arith32BEIsLittleEndian` | AFLPlusPlus/include/afl-mutations.h:2062-2074 | the operator named for big-endian addition adds to the little-endian word; the two agree only for 0xffffffff and one |
| `HavocEffects.EffectKeepsLength` | AFLPlusPlus/include/afl-mutations.h:1863-2735 | every operator leaves a text of at least one byte and at most the maximum |
| `HavocEffects.WhoRetries` | AFLPlusPlus/include/afl-mutations.h:1863-2735 | which operators may start over, and each one's reason: no room, no digit, an empty dictionary or an entry that does not fit, no other text |
| `HavocEffects.SwitchUndoes` | AFLPlusPlus/include/afl-mutations.h:2233-2275 | switching the same two blocks again restores the text |
| `HavocEffects.DeleteUndoesInsert` | AFLPlusPlus/include/afl-mutations.h:2277-2293 | whatever block was inserted, deleting exactly it is among what MUT_DEL may do, and restores the text |
| `HavocEffects.WordIsThere` | AFLPlusPlus/include/afl-mutations.h:1892-2018 | after an operator has changed a 16-bit word, reading it there gives the new word |
| `HavocWords.SwapTurns16` | AFLPlusPlus/include/types.h:106-112 | the bytes of a swapped 16-bit word are those of the word turned around |
| `HavocWords.SwapTurns32` | AFLPlusPlus/include/types.h:114-121 | the same for 32 bits |
| `HavocWords.WordOp16OnBytes` | AFLPlusPlus/include/afl-mutations.h:1892-2018 | the six 16-bit operators on the two bytes, read as a number low byte first or high byte first: replaced by an interesting value, or 1 to 35 more or less modulo 2^16; no other byte changes |
| `HavocWords.WordOp32OnBytes` | AFLPlusPlus/include/afl-mutations.h:1918-2074 | the six 32-bit operators in the same way, the addition named for high byte first adding to the number read low byte first |
| `Havoc.Mutator.Put` | AFLPlusPlus/include/afl-mutations.h:2169-2187 | a copy into the text changes that stretch and nothing else |
| `Havoc.Mutator.Splice` | AFLPlusPlus/include/afl-mutations.h:2099-2112 | head, new middle and tail built in the second buffer and copied back are the text with that stretch replaced; nothing past the maximum is written |
| `Havoc.Mutator.MakeRoom` | AFLPlusPlus/include/afl-mutations.h:2624-2629 | moving the tail up in place and filling the gap inserts, without losing a byte |
| `Havoc.Mutator.Close` | AFLPlusPlus/include/afl-mutations.h:2284-2289 | moving the tail down deletes the stretch |
| `Havoc.Mutator.ByteOp` | AFLPlusPlus/include/afl-mutations.h:1871-1962 | exactly one byte changes, in the way the operator is named for |
| `Havoc.Mutator.WordOp16` | AFLPlusPlus/include/afl-mutations.h:1892-2018 | two bytes change, to the word the operator makes of them; a text of one byte is left alone |
| `Havoc.Mutator.WordOp32` | AFLPlusPlus/include/afl-mutations.h:1918-2074 | the same for four bytes and texts shorter than four |
| `Havoc.Mutator.DoCloneCopy` | AFLPlusPlus/include/afl-mutations.h:2089-2126 | a block of the text is inserted before some byte, or there was no room |
| `Havoc.Mutator.DoSwitch` | AFLPlusPlus/include/afl-mutations.h:2233-2275 | two disjoint blocks of equal length change places |
| `Havoc.Mutator.DoShuffle` | AFLPlusPlus/include/afl-mutations.h:2295-2321 | a block is permuted by one cycle |
| `Havoc.Mutator.DoAsciiNum` | AFLPlusPlus/include/afl-mutations.h:2371-2550 | a number of the text is replaced by what a strategy makes of it; no digit or no room makes it start over |
| `Havoc.Mutator.DoInsertAsciiNum` | AFLPlusPlus/include/afl-mutations.h:2552-2593 | the last digits of a 64-bit number go over part of the text |
| `Havoc.Mutator.DoExtra` | AFLPlusPlus/include/afl-mutations.h:2595-2673 | a dictionary entry goes over or into the text where it fits |
| `Havoc.Mutator.DoSpliceInsert` | AFLPlusPlus/include/afl-mutations.h:2695-2725 | a block of the other text is inserted where there is room |
| `Havoc.Mutator.Attempt` | AFLPlusPlus/include/afl-mutations.h:1867-2735 | one try at any of the 37 operators meets its description; a try that starts over has changed nothing, and operators that never start over complete |
| `Havoc.Mutator.Steps` | AFLPlusPlus/include/afl-mutations.h:1863-2735 | any number of steps and tries is a run of such tries |
| `Havoc.RunKeepsLength` | AFLPlusPlus/include/afl-mutations.h:1863-2735 | over any run, whatever is drawn, the length stays between one and the maximum |
| `Havoc.ProgressIsMade` | AFLPlusPlus/include/afl-mutations.h:1865-1869 | every draw of an operator that never starts over completes a step, wherever the run stands |
| `HavocTables.TableSizes` | AFLPlusPlus/include/afl-mutations.h:710-1752 | each of the four tables has 256 entries, of which 164, 171, 175 and 177 never start over |
| `Havoc.SomeDrawCompletes` | AFLPlusPlus/include/afl-mutations.h:1863-1869 | in every state some entry of the table in use completes the step, whatever else is drawn |
| `Havoc.AflMutate` | AFLPlusPlus/include/afl-mutations.h:1801-2735 | no buffer, an empty text or no memory for a larger second buffer gives 0 and changes nothing; otherwise the buffer holds the end of a run of the chosen table, nothing past the maximum is written, and the steps are completed once enough never-retrying operators were drawn |
| `CoverageMap.NothingNew` | AFLPlusPlus/src/afl-fuzz-bitmap.c:206-217 | a map is new nowhere exactly when no bit of the trace is virgin, exactly when recording it changes nothing |
| `CoverageMap.SecondPassFindsNothing` | AFLPlusPlus/src/afl-fuzz-bitmap.c:206-213 | the same trace is new only once, and virgin bits are only ever cleared |
| `CoverageMap.ClassPair` | AFLPlusPlus/src/afl-fuzz-bitmap.c:194-204 | a table entry classifies its two bytes independently |
| `CoverageHistory.ClassIsOneBit` | AFLPlusPlus/src/afl-fuzz-bitmap.c:48-60 | no hits have class 0, and every other count a class of exactly one bit |
| `CoverageHistory.ClassRises` | AFLPlusPlus/src/afl-fuzz-bitmap.c:48-60 | the class never falls as the count grows, and rises exactly at 1, 2, 3, 4, 8, 16, 32 and 128 |
| `CoverageHistory.ClassesApart` | AFLPlusPlus/src/afl-fuzz-bitmap.c:48-60 | two counts share a class exactly when none of these lies between them, and otherwise share no bit |
| `CoverageHistory.VirginByte` | AFLPlusPlus/src/afl-fuzz-bitmap.c:206-213 | after any traces, compared one after the other, a virgin byte has exactly the bits of the classes none of them had there |
| `CoverageHistory.VerdictOverHistory` | AFLPlusPlus/src/afl-fuzz-bitmap.c:206-252 | after any traces: the next one is rated 2 exactly when it hits a byte none hit, and not 0 exactly when some count is in a class never seen at that byte |
| `CoverageMap.InParts` | AFLPlusPlus/include/coverage-64.h:83-111 | verdict, virgin map and classes of a map are those of its parts put together |
| `CoverageMap.LongerFront` | AFLPlusPlus/src/afl-fuzz-bitmap.c:224-248 | what comparing a longer front adds to the verdict, and that the virgin maps differ exactly when the addition is not 0 |
| `Coverage64.WordMeansBytes` | AFLPlusPlus/include/coverage-64.h:17-30 | a 64-bit word is new, cleared and classified as its eight bytes are |
| `Coverage32.WordMeansBytes` | AFLPlusPlus/include/coverage-32.h:13-24 | the same for 32-bit words and four bytes |
| `Coverage64.ViewIsMemory` | AFLPlusPlus/include/coverage-64.h:17-30 | the eight bytes of a word are those at which little-endian memory reads it |
| `Coverage32.ViewIsMemory` | AFLPlusPlus/include/coverage-32.h:13-24 | the same for four |
| `Coverage64.DiscoverWord` | AFLPlusPlus/include/coverage-64.h:83-111 | the verdict rises to 2 for a byte never hit before, to 1 for a new count, and the bits seen are cleared in place |
| `Coverage32.DiscoverWord` | AFLPlusPlus/include/coverage-32.h:73-101 | the same on 32-bit words |
| `Coverage64.ClassifyCounts` | AFLPlusPlus/include/coverage-64.h:64-78 | in place, every byte becomes its class, zero words being passed over |
| `Coverage32.ClassifyCounts` | AFLPlusPlus/include/coverage-32.h:54-69 | the same on 32-bit words |
| `Coverage64.Skim` | AFLPlusPlus/include/coverage-64.h:184-198 | the scalar scan answers 1 exactly when classifying and comparing would find something new anywhere, for all maps |
| `Coverage64.SkimAvx2` | AFLPlusPlus/include/coverage-64.h:151-177 | the same for the form with byte masks over four words |
| `Coverage64.SkimAvx512` | AFLPlusPlus/include/coverage-64.h:117-145 | the same for the form with lane masks over eight words |
| `Coverage32.Skim` | AFLPlusPlus/include/coverage-32.h:104-118 | the same on 32-bit words |
| `Coverage64.HasNewBits` | AFLPlusPlus/src/afl-fuzz-bitmap.c:219-252 | the verdict is 2 exactly when some non-zero byte meets 0xff, otherwise 1 exactly when some bit is virgin; exactly the bits seen are cleared |
| `Coverage64.SlowPath` | AFLPlusPlus/src/afl-fuzz-bitmap.c:280-283 | classify, then compare: verdict, virgin map and trace |
| `Coverage64.HasNewBitsUnclassified` | AFLPlusPlus/src/afl-fuzz-bitmap.c:264-285 | the fast path gives the verdict and virgin map of the slow path; the trace is classified exactly when the whole map holds something new, so a verdict of 0 means an untouched trace exactly when nothing is new past the real map size |
| `Coverage32.HasNewBitsUnclassified` | AFLPlusPlus/src/afl-fuzz-bitmap.c:264-285 | the same on 32-bit words |
| `Coverage64.NewOnlyInPadding` | AFLPlusPlus/src/afl-fuzz-bitmap.c:254-285 | a map of 64 bytes with a real size of one word and a hit in the second word: the result is 0 and the trace has been classified |
| `CoverageSizes.WordSizesAgree` | AFLPlusPlus/src/afl-fuzz-bitmap.c:219-285 | on the same memory and for any real size both word sizes give the same flag and trace; the verdicts differ exactly when the up to four bytes that only 64-bit rounding reaches say more than all before, the virgin maps exactly when those bytes say anything |
| `CoverageSizes.SecondRun64` | AFLPlusPlus/src/afl-fuzz-bitmap.c:206-252 | over any number of 64-bit words a second pass on the same trace gives 0 and changes nothing |
| `CoverageSizes.SecondRun32` | AFLPlusPlus/src/afl-fuzz-bitmap.c:206-252 | the same for 32-bit words |
| `PoolList.List.Initialise` | AFLPlusPlus/include/list.h:72-81 | the first append starts a list whose head is the first slot, linked to itself |
| `PoolList.List.FindSlot` | AFLPlusPlus/include/afl-prealloc.h:69-82 | below a count of 64 the search always finds a slot that is free and not in the list |
| `PoolList.List.Allocate` | AFLPlusPlus/include/afl-prealloc.h:58-88 | a slot of the pool below 64, a malloc'd box from there on, marked and counted |
| `PoolList.List.Link` | AFLPlusPlus/include/list.h:88-93 | a box is linked between the last one and the head; both directions stay circular |
| `PoolList.List.Append` | AFLPlusPlus/include/list.h:70-94 | the pointer is added at the end; links, slot states and count stay consistent |
| `PoolList.List.Unlink` | AFLPlusPlus/include/list.h:154-155 | linking the neighbours of a box to each other leaves both directions circular without it |
| `PoolList.List.Free` | AFLPlusPlus/include/afl-prealloc.h:107-140 | a pool slot becomes free and the count falls by one; a malloc'd box changes no count |
| `PoolList.List.Remove` | AFLPlusPlus/include/list.h:148-166 | exactly the first occurrence goes; a pointer that is not in the list is reported and nothing changes |
| `PoolList.List.Contains` | AFLPlusPlus/include/list.h:170-180 | whether the pointer is in the list; a list never appended to is reported |
| `PoolList.List.Clear` | AFLPlusPlus/include/list.h:134-144 | every pointer is seen once, in order, and only the head is left in use |
| `PoolList.RemoveFirstCounts` | AFLPlusPlus/include/list.h:148-166 | removal takes one occurrence from the multiset |
| `PoolList.RemoveUndoesAppend` | AFLPlusPlus/include/list.h:70-166 | removing what was just appended restores the list unless it was there before; then the earlier one goes |
| `PoolList.Perform` | AFLPlusPlus/include/list.h:70-166 | after any sequence of calls on a new list its contents are those of the sequence the calls describe |
| `AflRandom.SixtyFourBitsAreUnbiased` | AFLPlusPlus/include/afl-fuzz.h:1380-1391 | every result comes from exactly as many of the 2^64 draws as any other, and at most `limit` draws are thrown away |
| `AflRandom.ThirtyTwoBitsAreUnbiasedForDivisors` | AFLPlusPlus/include/afl-fuzz.h:142-144 | where a draw has 32 bits nothing is thrown away, and the results are unbiased exactly when the limit divides 2^32 |
| `AflRandom.HitsByRounds` | AFLPlusPlus/include/afl-fuzz.h:1380-1391 | among the first draws every result has one for each whole round, and one more if the round under way has passed it |
| `AflRandom.ChosenIsFirstKept` | AFLPlusPlus/include/afl-fuzz.h:1380-1391 | the result is the remainder of the first draw below the bound, and is missing only when no draw is |
| `AflRandom.Generator.RandBelow` | AFLPlusPlus/include/afl-fuzz.h:1366-1393 | for every supply of draws the result and the draws left over are those of the first draw kept; the result is below the limit; a limit of at most one draws nothing |
| `AflRandom.Generator.RandBelowDatalen` | AFLPlusPlus/include/afl-fuzz.h:1398-1420 | for every supply of draws the result and the draws left over are those of the choices made in turn |
| `AflRandom.LowIsNoHigher` | AFLPlusPlus/include/afl-fuzz.h:1395-1420 | the result is below the limit and never above the plain choice made with the draw after the first |
| `AflRandomLow.LowIsPreferred` | AFLPlusPlus/include/afl-fuzz.h:1395-1420 | among all the ways the two or three choices can fall, a value comes at least as often as any higher one |
| `AflRandomLow.HighestIsPlainOnly` | AFLPlusPlus/include/afl-fuzz.h:1395-1420 | with one or two choices bringing it down the result is never the highest value |
| `GrowBuffer.NextP2` | AFLPlusPlus/include/afl-fuzz.h:1434-1446 | the least power of two that is no smaller, up to 2^63 |
| `GrowBuffer.SmearDoubles` | AFLPlusPlus/include/alloc-inl.h:618-622 | or-ing in a shifted copy doubles the number of places each bit reaches down |
| `GrowBuffer.SmearFills` | AFLPlusPlus/include/alloc-inl.h:617-623 | the smear fills everything below the top bit exactly when no 32 clear bits in a row lie under it |
| `GrowBuffer.NextPow2IsLeastPower` | AFLPlusPlus/include/alloc-inl.h:602-624 | the result is the least power of two that is no smaller, 0 standing for 2^64, exactly when the argument less one has no such gap |
| `GrowBuffer.NoGapUpTo32Bits` | AFLPlusPlus/include/alloc-inl.h:602-624 | arguments up to 2^32 have none |
| `GrowBuffer.GapAt33Bits` | AFLPlusPlus/include/alloc-inl.h:602-624 | 2^33 + 1 has one, and its result is wrong |
| `GrowBuffer.NextPow2Suffices` | AFLPlusPlus/include/alloc-inl.h:606-624 | the result is never too small: at least the argument, or 0 |
| `GrowBuffer.NextSizeDoubles` | AFLPlusPlus/include/alloc-inl.h:683-697 | the next size suffices, and it is at least twice the last one as long as requests have no gap |
| `GrowBuffer.Buffer.Realloc` | AFLPlusPlus/include/alloc-inl.h:663-716 | success gives the bytes asked for exactly when adding the header does not wrap; contents stay, added bytes are zero, a large enough buffer is left alone, failure leaves no buffer |

## Left out

- XXH3's 128-bit digest, whose short-input branch tests another field than the 64-bit one.
- Vector intrinsics, prefetching, alignment and byte-order switches: the scalar little-endian form and the lane
  formulas are modelled; a NULL input is the empty input.
- `XXH_ASSERT` is taken to do nothing, as in release builds.
- The external secret of an XXH3 state is held as a value: the model does not see a caller changing it between calls.
- XXH3 accumulators are values in the stripe and streaming modules; the code that updates them in place is proved
  against the same functions in `Xxh3Lanes`.
- The eight-byte words of `Multiply` are numbers with explicit reduction, converted at the boundary.
- Xxh64.State.Digest: past 2^64 bytes with a wrapped length below 32 the digest takes the short branch, and whether the
  two hash values then happen to agree is not stated. The same holds for `Xxh64.HashPieces`.
- Xxh3Stream.State.Digest: likewise past 2^64 bytes with a wrapped length of at most 240, also in `Xxh3Stream.HashPieces`.
- The unrolled tail of XXH32 (`XXH32_ENDJMP`), which mixes the same words in the same order.
- afl-cmin: process start, file collection, hashing, sorting, linking, the crash directory and progress bars are
  input and output. Traces, crash flags and energies are given; each trace stays inside the tables.
- afl-cmin: what most_common returns is any order of the counter's items by falling count, so that the cover is proved
  for every order of items that occur equally often.
- afl-cmin: messages of different processes may arrive in any order; the job queue is first in, first out.
- afl-cmin: array item sizes are those of a 64-bit Unix, eight bytes for L and Q.
- Havoc: the random numbers are any values below their limits; `fuel` bounds the draws, retries included, since
  retries need not end.
- Havoc: lengths whose 32-bit sums wrap; the unused tables in front of the four strategy tables.
- Havoc: the bytes of interesting values and dictionaries are parameters.
- Coverage: filling the 16-bit class table, the bitmap_changed flag, simplify_trace and the bit counters.
- PoolList.List.Remove: the FATAL exits for a missing element or an uninitialised list are a result of false.
- The list's debugging allocator and its canaries; freed boxes are simply no longer in the chain.
- AflRandom.Generator.RandBelow: reseeding from /dev/urandom and the generator's own step; its draws are a given supply.
- AflRandom.Generator.RandBelowDatalen: the choices are made from left to right, an order C leaves open.
- Xxh64Changes.ChangeInTailIsNoticed: nothing of the kind is stated of the whole blocks, since merging the lanes of XXH64
  is no bijection in each of them; nor for XXH3 above eight bytes, whose products lose information.
- afl_realloc_exact, which sets sizes that are no powers of two.
