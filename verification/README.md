# A verified model of the Parquet adapter for L

The adapter moves tables between L vectors and Parquet files. Decoding pages and
encoding columns is left to the parquet and arrow crates; what the adapter adds is
the scheduling of that work over threads, the in-place passes over the values, and
the handling of dictionaries. This project models those parts in Dafny and proves
what they are meant to guarantee.

`dafny verify dfyconfig.toml` checks everything.

## How it is modelled

- **Protocols.** The writer's queue (`WriteQueue`, `WriteProtocol`), the thread pool
  (`Pool`, `PoolProtocol`), `par_map` (`ParMap`), `decode` (`Decode`) and the footer
  list (`Footers`) are transition systems. One label is one atomic step: a lock
  section, an atomic operation, or a piece of work outside any lock. Which thread
  goes next, which parked worker a `notify_one` reaches, when a condition variable
  wakes for no reason, where a layer below fails and which call panics are free
  choices of the label, so a theorem about every label sequence is about every
  interleaving. Lock sections and atomic operations exist twice: in the protocol, as
  functions on a value, and as methods of a class that update fields in place and are
  proved equal to them.
- **Value passes.** `patch`, `raw_col`, `fill_prim`, `null_bits`, `each_null`,
  `col_prim`, `put_stat` and the like are methods over arrays and words. Machine
  integers are unbounded integers with explicit wrap-around (`Machine.Wrap`), checked
  arithmetic and L's null, the smallest value of each width. A 64-bit word is the
  list of its bits; `Words.DecIsMinusOne` ties the borrow in `w & (w - 1)` to the
  subtraction it stands for.
- **Symbols.** A symbol is its text: two interned pointers are equal exactly when
  their texts are. Hash functions are parameters, so every theorem holds for every
  hash, collisions included.
- **Files.** The disk maps entries to bytes; an entry lies in the directory being
  built, in the table under the target's name, or outside both. Handles have a
  position of their own and share the bytes of their entry (`Handles`). Which file a
  column name opens, where it leads after the rename, and which names the system
  refuses are parameters (`SplayReplace.Place`).

## What is proved, briefly

1. Writing: `Ok` means the file is the serial writer's, chunk for chunk, and that
   every task was encoded; at any time, whatever failed, the file is a prefix of it
   (`WriteSafety`). Waking one worker per consumed chunk loses no wake-up, no state is
   stuck before everybody has returned, no run without spurious wake-ups is endless,
   and every run can be finished (`WriteProgress`). A write without faults always
   succeeds and a failing or panicking task always fails it (`WriteOutcome`); a failed
   write answers the error recorded first, or the file layer's own (`WriteErrors`).
2. Pool: a lent job is never run outside the lender's `run`; each wanted worker runs
   it exactly once; the countdown is exact; a waiting caller is always answered, and
   its own panic reaches its answer.
3. Reading: row groups tile the result's rows and parts partition its columns, so
   tasks write disjoint cells and cover them all; `decode` answers `Ok` exactly when
   every task ended well, and then the table is the sequential one; a window
   [g0, g1) holds just the row groups with those numbers, each in its own rows; window
   [a, b) followed by [b, c) is [a, c).
4. Values: the backwards in-place spread is the rank specification, batch by batch as
   in one pass; both read paths equal one meaning; writing then reading gives back
   every value except exactly those above MAX − shift, which come back null.
5. Symbols: all caches agree with plain interning; a column of codes says what the
   plain read says, for every page hash; without a collision the union is the one
   that skips nothing.
6. Statistics, stream and footers: pruning is sound; a streamed table is, file for
   file, the one-shot serialisation of its columns for every table exactly when its
   names are safe, and each batch's values are read back from its bytes in their rows
   (`SplayValues`); a stream that stops leaves the old table alone
   exactly when no column led into it; and the footer list is exactly the 32 files used
   last, every answer a fresh one.

## Where the code does less than a promise

- `put_stat` cuts a 32-bit bound to 16 bits for a 16-bit column (src/meta.rs:511-513).
  A bound that brackets the column without being one of its values can then prune a
  row group that has a match: `Stats.LooseBoundPrunesTooMuch` gives the input, and
  `Stats.CutExact` the exact condition on a bound. A bound that is a value of the
  column always meets it.
- The symbol header's count has 32 bits (src/stream.rs:61-64).
  `Splay.SymbolsReadBack` shows a symbol file reads back exactly while it has fewer
  than 2^31 symbols. `stream_table` checks the sum of the row counts against that
  bound, which bounds the rows delivered exactly when no count is negative
  (`SplayStream.CountCheckExact`); nothing here refuses a negative one, and
  `SplayStream.NegativeCountSlipsThrough` gives the counts.
- `stream_table` takes any column name (src/stream.rs:134-145). Names can lead to one
  file, each other's or the manifest's (`SplayReplace.SecondColumnTakesTheFile`,
  `SplayReplace.ColumnTakesTheManifest`), and into the table that is to be replaced:
  there a column is lost with it (`SplayReplace.ColumnGoesWithTheOldTable`), and a
  stream that stops has already cut its file (`SplayReplace.OldManifestIsLost`).
  `SplayReplace.NamesSafe` and `SplayReplace.StopSafe` are the exact conditions; names
  without a slash fail only by being repeated or `.d`.
- The old table is removed before the new one is renamed (src/stream.rs:188-189), so a
  rename that fails leaves neither: the fifth clause of
  `SplayReplace.Disk.StreamTable`.
- A footer's null count is not the number of nulls a reader sees when a stored value
  reads as null (`Stats.NullCountExact`, `Stats.OverflowReadsNull`).
- After a caller of the pool unwinds, `busy` is poisoned and no later call uses the
  pool again (src/pool.rs:163-173): `PoolSafety.UnwindingEndsThePool`.
- Values of a date or timestamp column above MAX − shift are written as null
  (`ArrowPath.RoundTrip`), as the source intends, and symbols that are not UTF-8 come
  back empty (`Symbols.SymbolsComeBack`).
- A symbol text with a NUL is streamed up to the NUL (`Splay.CTextExact`).

## Model

| member | source | states |
|---|---|---|
| WriteQueue.Shared.Look | src/write.rs:950-988 | the claim section in place: quits on error or exhaustion before looking at the window, parks on a full window, refills the writers at column 0, takes this column's writer and drops the group with its last; nothing else of the queue changes |
| WriteQueue.Shared.Deposit | src/write.rs:1002-1006 | parks the chunk under its task and touches nothing else |
| WriteQueue.Shared.Record | src/write.rs:772-773 | the first error recorded is the one kept |
| WriteQueue.Shared.TakeChunk | src/write.rs:1036-1054 | a finished chunk is removed and frees one window slot even when an error is recorded; else the recorded error stops the master; else nothing changes |
| WriteQueue.TaskSplit | src/write.rs:961-962 | dividing and reducing a task number by nc gives back its row group and column |
| WriteQueue.SlicesMeet | src/write.rs:990-991 | slices are non-empty and meet end to start, the last one ending at the table's end |
| WriteQueue.SlicesPartition | src/write.rs:867-868 | every row of the table lies in exactly one row-group slice |
| WriteQueue.WindowFeedsWorkers | src/write.rs:870-877 | the window lets every worker hold a task and at most a row group more; beyond a task a worker it stays within 512 MB, and below its largest value one task more would not |
| WriteQueue.TaskBytesExact | src/write.rs:870-877 | the bytes counted for a task are at least those of any row-group slice, and exactly those of the first |
| WriteSafety.LookQKeeps | src/write.rs:961-988 | a claim keeps the writer map exactly the half-claimed row group and never loses a writer |
| WriteSafety.InvKept | src/write.rs:936-1066 | every step of every thread keeps head <= next <= head + window, each claimed task in exactly one place, the writer map exact, the chunks right and the file where the master is |
| WriteSafety.OkMeansSerialFile | src/write.rs:1030-1065 | in every run, Ok means the file is the serial writer's, every task was encoded, and no worker died with a task |
| WriteSafety.OkFileAt | src/write.rs:1030-1065 | after Ok the file is nrg blocks of nc + 2 operations: row group g opened at g * (nc + 2), then the encoded chunks of tasks g * nc + c in column order, then closed; and nothing else |
| WriteSafety.FileIsSerialSoFar | src/write.rs:1014-1066 | in every reachable state, failed or not, the file is a prefix of the serial writer's |
| WriteSafety.WriterNeverLost | src/write.rs:976-987 | the "writer lost" answer is unreachable |
| WriteSafety.WritersExclusive | src/write.rs:744-752 | no two workers hold one task or one column writer |
| WriteProgress.NoLostWakeup | src/write.rs:1039-1044 | while healthy with tasks left and a worker parked, as many workers are on their way to the queue as there are free slots, although each consumed chunk wakes one only |
| WriteProgress.ErrorWakesEveryone | src/write.rs:771-776 | after a recorded error whoever is parked, master included, has a wake-up on its way |
| WriteProgress.NoDeadlock | src/write.rs:936-1066 | in every reachable state that is not finished some thread can take a step that is not a spurious wake-up |
| WriteProgress.MeasureFalls | src/write.rs:936-1066 | a lexicographic measure falls on every step that is not a spurious wake-up |
| WriteProgress.NoEndlessRun | src/write.rs:936-1066 | no run takes real steps for ever |
| WriteProgress.EveryRunCanFinish | src/write.rs:889-909 | from every reachable state real steps lead to all threads having returned |
| WriteOutcome.CleanRunSucceeds | src/write.rs:1030-1065 | when every task encodes and no layer below fails, every finished run answers Ok with the serial file |
| WriteOutcome.FailingTaskFailsWrite | src/write.rs:893-905 | a failing or panicking task can never end in Ok |
| WriteOutcome.LostTaskFailsWrite | src/write.rs:1007-1010 | a worker that left with its task rules Ok out |
| WriteErrors.FirstErrorStays | src/write.rs:772-773 | in every run, once an error is recorded it is the one recorded for good |
| WriteErrors.ErrorEndsClaims | src/write.rs:953-955 | in every run, no task is claimed after an error was recorded |
| WriteErrors.FinishedChunkWins | src/write.rs:1036-1054 | in every reachable state the master goes on exactly when the chunk at head is finished, and with the chunk that task encoded; it answers the recorded error exactly when that chunk is missing and there is one |
| WriteErrors.ErrorAnswered | src/write.rs:1022-1059 | a failed write has recorded an error that is some task's own, a task's panic, or one met in the writer factory or the file layer, and it answers that one unless the file layer refused the master itself |
| Pool.State.Pick | src/pool.rs:124-133 | one look: sleep on the generation already seen, else remember the new one and take the job only when wanted |
| Pool.State.Finish | src/pool.rs:138-143 | counts the panic, counts down, and tells the last worker to wake the caller |
| Pool.State.Dispatch | src/pool.rs:175-190 | the whole state of a new generation: job, want and left equal, no panics yet |
| Pool.State.Collect | src/pool.rs:194-201 | waits while workers are at it, else drops the job and reports whether one panicked |
| PoolSafety.InvKept | src/pool.rs:116-206 | every step keeps: one caller inside, the job set exactly while it is lent, the countdown exact, and a running worker in the current generation with the current job |
| PoolSafety.HistoryKept | src/pool.rs:116-206 | every step keeps each worker's number of runs of each generation exactly what is due |
| PoolSafety.JobOutlivesItsRuns | src/pool.rs:176-201 | a worker runs a job only while the one caller that lent it is between dispatch and collection |
| PoolSafety.CountdownExact | src/pool.rs:43-54 | left is the number of wanted workers that have not finished the generation, and never underflows |
| PoolSafety.EachWantedWorkerRanOnce | src/pool.rs:147-206 | when run answers or unwinds each of the n workers its caller asked for ran the job once, nobody else did, nobody still runs it, and the flag for a worker's panic is exact |
| PoolSafety.CallKeepsItsJob | src/pool.rs:147-206 | in every run, until it calls again, a caller's state is about the job and the number of workers it asked for |
| PoolSafety.UnwindReachesAnswer | src/pool.rs:191-205 | in every run, after a caller's own closure ended with or without unwinding, its state and its answer say just that until it calls again, whatever the workers do meanwhile |
| PoolSafety.FreePoolIsUsed | src/pool.rs:159-190 | a call that finds enough workers up and a free, unpoisoned pool lends them its job in the next generation and leaves none parked |
| PoolSafety.UnwindingEndsThePool | src/pool.rs:163-173 | once a caller's own closure has unwound and it has left, its poisoned lock keeps every later call of every caller from dispatching: they run on threads of their own |
| PoolSafety.ReadyMeansSpawned | src/pool.rs:96-123 | ready >= n implies workers 0..n-1 were spawned |
| PoolProgress.WorkFalls | src/pool.rs:116-206 | between two dispatches only finitely many real steps fit |
| PoolProgress.NobodyForgotten | src/pool.rs:194-198 | while a caller has a job out some thread can take a settling step |
| PoolProgress.StillAnswering | src/pool.rs:160-173 | a caller with a job out stays inside until it has its answer, and no other dispatches meanwhile |
| PoolProgress.RunReturns | src/pool.rs:191-205 | from every state with a job out, settling steps bring its caller to its answer |
| ParMap.Slots.Claim | src/pool.rs:223 | one fetch_add is the protocol's claim step on the shared memory, and tells the thread where it goes on: to an index below n no state had handed out, or to its end |
| ParMap.Slots.Store | src/pool.rs:227 | storing an answer is the protocol's store step on the shared memory |
| ParMap.InvKept | src/pool.rs:222-228 | every step keeps each claimed index either stored or with exactly one thread, and every stored slot right |
| ParMap.SlotWrittenOnce | src/pool.rs:213-227 | the slot a thread is about to fill is empty, in range, and no other thread's |
| ParMap.IndexClaimedOnce | src/pool.rs:221-228 | in every state each index below the cursor is stored or with exactly one thread, and no other index is either |
| ParMap.ParMapIsMap | src/pool.rs:208-237 | the list f(0), f(1), ... exactly when no call panicked, and never a list otherwise, in every interleaving |
| ParMap.WhoPanicked | src/pool.rs:191-237 | the caller's own panic is raised again, None is answered exactly when a worker's call panicked and not the caller's, and a dead thread died of its own index |
| Layout.LayOut | src/read.rs:1215-1227 | the layout loops equal the prefix-sum layout of the window's non-empty row groups |
| Windows.GlobalNumber | src/read.rs:1215-1227 | row group g of file f has the global number of the row groups of the files before it plus g, and its own rows |
| Windows.WindowHolds | src/read.rs:1215-1227 | for g0 <= i < g1, row group i with positive rows is laid out as its own file, its own group and its own rows, at the sum of the positive rows of row groups g0..i, in the place its number among them gives |
| Windows.WindowOnly | src/read.rs:1215-1227 | every laid-out row group is one with g0 <= i < g1 and positive rows, in that place |
| Windows.PlacesAscend | src/read.rs:1215-1227 | different row groups have different places, in their own order |
| Windows.WindowRows | src/read.rs:1215-1232 | the window has as many row groups as have rows, and the result is as long as their rows together |
| Layout.WindowTiles | src/read.rs:1212-1227 | row groups tile the result: every row below the total has exactly one owner |
| Layout.WindowsConcatenate | src/read.rs:1201-1227 | the layout of [a, c) is that of [a, b) followed by that of [b, c) shifted by its rows |
| Layout.Split | src/read.rs:1069-1116 | the loop over j*n/k slices, empty ones skipped, after one part a zero-copy column |
| Layout.PartsPartitionColumns | src/read.rs:1069-1116 | for every split factor each result column is filled by exactly one part |
| Layout.SlicesEven | src/read.rs:1085-1096 | a slice has n / k columns or one more, and never none |
| Layout.PartsCounted | src/read.rs:1085-1116 | there are exactly as many Arrow parts as asked for when there are as many columns |
| Layout.PartsGood | src/read.rs:1063-1068 | a part is one zero-copy column or a non-empty ascending run of Arrow columns, never both |
| Layout.BatNamesColumn | src/read.rs:1097-1113 | the part's batch holds exactly its file columns in file order, and bat names the right one for every position |
| Select.RepeatsDetected | src/read.rs:1143-1151 | sorting and deduplicating shortens a projection exactly when it repeats a column |
| Select.Agree | src/read.rs:1158-1182 | zero-copy with a form exactly when every file stores the column flat and in that very form, unit scale included |
| Select.Choose | src/read.rs:1119-1184 | refused exactly when a name is missing, a wanted column has no L type, or one is asked for twice; else every position has its name, type and form |
| Decode.InvKept | src/read.rs:1366-1393 | every step, down to single cell writes, keeps what ended tasks left and where every claimed task is |
| Decode.OkMeansEveryTask | src/read.rs:1345-1393 | a finished decode answers Ok exactly when every task ended well |
| Decode.OkMeansSequentialTable | src/read.rs:1186-1192 | after Ok every cell a task owes holds what running the tasks one after another would have left |
| Decode.ErrorIsATasks | src/read.rs:1376-1393 | the caller's own panic is raised again; else the recorded error is answered, and it is the message of a task that ends with it; else a worker's panic is |
| Decode.FirstErrorStays | src/read.rs:1376-1380 | in every run the first error recorded stays |
| Decode.StopEndsClaims | src/read.rs:1366-1379 | in every run, after a failure a thread that was not claiming already finishes its own task at most and starts no other |
| OneTask.One | src/read.rs:1399-1501 | succeeds exactly when the row group delivers the rows the footer says and all converts; then each result column of the part, decoded in place or batch by batch, holds its own file column, but for those given up as codes, which are named exactly; failed or not, no other cell changed |
| OneTask.OneRaw | src/read.rs:1415-1450 | the zero-copy column goes through the batching loop into the task's rows, refused exactly without a single leaf or an open reader, with a failed read or short levels, or with other than the footer's rows |
| OneTask.RunTask | src/read.rs:1366-1379 | a task that succeeds has left, in every cell the whole read's job says it owes, that job's value, and no task writes outside its cells |
| OneTask.ArrowTask | src/read.rs:1452-1500 | batches land end to end from the task's first row; a short or failed delivery is refused; a column is given up exactly when one of its batches is |
| ReadTable.TasksDisjoint | src/read.rs:1186-1199 | no cell of the result is written by two tasks |
| ReadTable.TasksCover | src/read.rs:1238-1244 | every cell of the result is written by some task |
| ReadTable.ReadFillsTable | src/read.rs:1204-1244 | after Ok, for g0 <= i < g1, row r of global row group i is in result row (positive rows of row groups g0..i) + r, which is below the result's length, and there result column p not given up holds that row of file column out[p] of that file and group, for every projection, split factor, window and interleaving |
| ReadTable.WindowsJoin | src/read.rs:1201-1203 | row r of [a, c) is, in every projected column, row r of [a, b) or row r - n of [b, c) |
| Words.DecIsMinusOne | src/read.rs:268-288 | the rippling borrow on bits is the number minus one |
| Words.ClearLowest | src/read.rs:268-288 | w & (w - 1) clears the lowest set bit and no other |
| Bitmaps.NullBits | src/write.rs:463-483 | None exactly when every value is valid, else the bitmap of validity with unused bits zero |
| Bitmaps.EachNull | src/read.rs:268-288 | visits exactly the zero bits of the first len, once each, in increasing order, whatever follows them in the last word |
| Bitmaps.ScanWritten | src/write.rs:463-483 | scanning a written bitmap visits exactly the rows the writer rejected, in order, for every length |
| Kernels.FloorExact | src/read.rs:686-713 | the floor test is exactly the condition under which the subtraction would leave the machine range |
| Kernels.ShiftIsMeaning | src/read.rs:696-713 | checked scale, floor test and wrapping subtraction together are the scaled and shifted value, or null exactly when either leaves the machine |
| Kernels.SpreadBack | src/read.rs:714-725 | the backwards in-place pass equals the rank specification on the original values: none is overwritten before it is read |
| Kernels.Patch | src/read.rs:686-734 | all three arms equal the specification of the window, and nothing outside it changes |
| Kernels.BatchRow | src/read.rs:629-638 | patching a batch's window gives those rows of the whole chunk |
| Kernels.RawCol | src/read.rs:588-644 | batch by batch, every row decoded is the rank specification of the whole chunk at once; refused exactly when a read failed or told too few levels of a batch with nulls; an honest decoder's chunk comes through whole |
| ArrowPath.FillPrim | src/read.rs:295-332 | copy, shift and null overwrite give each row its shifted value or the null |
| ArrowPath.TwoPathsAgree | src/read.rs:446-475 | row by row, for every unit, shift, value and null pattern the zero-copy row, the Arrow row and the meaning of the value are one |
| ArrowPath.CastThenFill | src/read.rs:443-475 | the Arrow path over a whole array: cast to nanoseconds, null where that overflows, then fill_prim |
| ArrowPath.BothPathsFillAlike | src/read.rs:686-734 | over a whole chunk of any length the zero-copy loop and the cast followed by fill_prim leave the same vector, each row its meaning or null |
| ArrowPath.ColPrim | src/write.rs:492-528 | values borrowed, or shifted in the pass that builds the bitmap; a row is present exactly when it is storable, and an all-valid column carries no bitmap |
| ArrowPath.RoundTrip | src/write.rs:632-674 | written then read on either path: the value itself, null for null, and null exactly above MAX - shift |
| ArrowPath.WriteThenRead | src/write.rs:492-528 | the writer's array through the reader's Arrow path, over whole vectors of any length; without a shift the vector itself comes back |
| ArrowPath.WriteThenReadRaw | src/read.rs:556-662 | the writer's levels and values through the zero-copy decoder give the same vector |
| ArrowPath.ShortsComeBack | src/write.rs:623-631 | a KH column, written without a bitmap and 0Nh as a value, reads back whole |
| Machine.ShiftsAgree | src/ffi.rs:45-46 | the day and nanosecond shifts are the same span: 30 years with 7 leap days |
| Kernels.DayIsMidnight | src/ffi.rs:45-46 | a date and the timestamp of its midnight read as the same instant |
| Mru.HitKeepsOrder | src/read.rs:171-172 | a hit moves one entry to the front and keeps the others and their order |
| Mru.EvictsLastOnly | src/read.rs:188-189 | a full list loses its last entry and no other |
| Mru.RecencyOrder | src/read.rs:171-189 | of two keys in the list of latest uses, the one in front was used again after every use of the other |
| Symbols.SymCache.Get | src/read.rs:223-240 | whatever is cached and whatever the hash, the answer is the interned symbol |
| Symbols.SymCache.DictTable | src/read.rs:195-219 | the memoised table is the map of intern over the dictionary; at most 4 distinct dictionaries, most recent first |
| Symbols.SymCache.FillDict | src/read.rs:364-382 | each row is the symbol its key names, or the empty symbol for a null row, a null value or a key out of range; nothing else changes |
| Symbols.SymCache.FillPlain | src/read.rs:388-405 | each row is its own interned string, the empty symbol for null |
| Symbols.BothPathsAgree | src/read.rs:364-405 | the dictionary path and the plain path fill the same column from the same logical strings |
| Symbols.ColSym | src/write.rs:563-607 | distinct values in first-seen order (one empty slot when nothing can be spelled), every key in range and naming its row's text, a null flag exactly on rows that are not UTF-8 |
| Symbols.DictionaryOrder | src/write.rs:575-600 | of two texts in the dictionary, every row of the later one comes after a row of the earlier |
| Symbols.SymbolsComeBack | src/write.rs:557-607 | col_sym then fill_sym_dict is the identity on every UTF-8 symbol and the empty symbol on the others |
| Codes.WidthExact | src/read.rs:769-778 | the chosen width stores every code below n unchanged exactly when n is at most 2^31, and each narrower width changes one of them |
| Codes.ParseSpans | src/read.rs:836-851 | the loop over the page equals the recursive reading of its entries |
| Codes.PageParses | src/read.rs:833-851 | every entry of a well-formed page is found, wherever the page starts and whatever follows |
| Codes.ShortPageRefused | src/read.rs:843-848 | a page too short for its entry count is refused |
| Codes.SpansExact | src/read.rs:836-851 | spans are answered exactly when they are the entries there: as many as asked for, end to start, each behind its own length, all inside the buffer |
| Codes.Plan | src/read.rs:867-928 | the union is duplicate-free, inverse to its index, in first-seen order over the pages kept, and holds the empty symbol once a null may occur; its width is the narrowest that stores every code; an error exactly when the first page that cannot be merged is one |
| Codes.KeptExact | src/read.rs:889-902 | a text is merged exactly when it is in a page with no earlier page of the same hash |
| Codes.KeptAt | src/read.rs:889-902 | the pages kept follow one another, each with its entries in its own order |
| Common.FirstSeenOrder | src/read.rs:889-902 | the union's texts are distinct, and an earlier one occurs before every occurrence of a later one |
| CodesRead.LutExact | src/read.rs:163-191 | a lookup table exists exactly when the union holds every value, and then maps each to its id |
| CodesRead.LutCache.Lut | src/read.rs:163-191 | the memo always answers the table built afresh, at most 4 distinct dictionaries, most recent first |
| CodesRead.LutCache.FillCodes | src/read.rs:936-1015 | writes each row's stored code, or gives the column up exactly when the batch is plain or a value is not in the union |
| CodesRead.CodeReadsBack | src/read.rs:953-973 | a stored code reads through the dictionary as the row's own symbol, nulls included |
| CodesRead.CodeInRange | src/read.rs:908-923 | a code indexes the dictionary exactly when the union holds the empty symbol or the row is no null |
| CodesRead.SkippingIsFree | src/read.rs:889-902 | without a hash collision skipping repeated pages leaves the union that merges every page |
| CodesRead.CompleteUnionPairs | src/read.rs:795-808 | without a collision a column whose values are all in the pages is never given up |
| CodesRead.AllSymbolsAt | src/read.rs:364-405 | symbol i of batch k stands after the rows of the earlier batches: its dictionary's value for its key, or its own string, and the empty symbol for a null row, a null value or a key out of range |
| CodesRead.ReadSymbols | src/read.rs:1287-1320 | for every page hash the column, paired or read again, says what the plain read says; it is a pair exactly when every batch fits the union |
| CodedTable.CodedReadIsPlain | src/read.rs:1287-1320 | after a read with codes on, for g0 <= i < g1, row (positive rows of row groups g0..i) + r of a symbol column, looked up in the union or read again where given up, is symbol r of row group i, for every interleaving of both decodes |
| Stats.LeafMap | src/meta.rs:76-90 | a root maps to a leaf exactly when it is the root's only one |
| Stats.FlatIsIdentity | src/meta.rs:335-339 | while the roots before it are flat a column's number is its leaf's |
| Stats.PutStat | src/meta.rs:486-544 | the slot becomes what the reader would decode the bound into, or stays null when the bound is absent, inexact, of another physical type or unrepresentable |
| Stats.BoundReported | src/meta.rs:486-544 | a bound that is exact and of the width its type is stored with is reported as the reader reads it, 16-bit ones cut; any other is null |
| Stats.NanosecondsFrom2000 | src/read.rs:506-513 | a nanosecond timestamp reads as its distance from the first instant of 2000, null below the range; a nanosecond span as itself |
| Stats.DaysFrom2000 | src/ffi.rs:45-46 | a day reads as its distance from the first of 2000, null below the range |
| Stats.OneInstant | src/read.rs:506-513 | v of a unit and 1000 * v of the next finer one read as one instant |
| Stats.OneSpan | src/read.rs:506-513 | v of a unit and 1000 * v of the next finer one read as one span |
| Stats.ReadKeepsOrder | src/meta.rs:473-480 | scaling and shifting keep order wherever they do not answer null |
| Stats.CutExact | src/meta.rs:511-513 | the exact condition on a 16-bit column's bound for the cut to be harmless |
| Stats.LooseBoundPrunesTooMuch | src/meta.rs:511-513 | a bracketing bound of 65540 over the value 5 is reported as 4 |
| Stats.PruningSound | src/meta.rs:389-394 | a non-null extremum brackets every non-null decoded value |
| Stats.StatsOf | src/meta.rs:403-440 | every global row group gets its extrema in the unit of the file that wrote it, and its footer's null count as it is below 2^63, the long null where there is none |
| Stats.GlobalAt | src/meta.rs:411-435 | row group r of file f has the element after those of the earlier files, with that file's type and its own statistics |
| Stats.SkippingIsSafe | src/meta.rs:389-394 | skipping by the vectors skips only row groups without a match, over any set of files |
| Stats.NullCountExact | src/meta.rs:425-428 | where a footer counts its row group honestly the reported null count is the number of rows stored as null; a reader sees no fewer nulls, and no more exactly when no stored value reads as null |
| Stats.ReadsNullExactly | src/meta.rs:473-480 | a stored value reads as null exactly when scaling or shifting it leaves the machine or gives the null |
| Stats.OverflowReadsNull | src/meta.rs:425-428 | a second count of 10^10 is stored as no null and read as one |
| Splay.HdrFixed | src/stream.rs:41-45 | the 32-byte header with its type and a zero count |
| Splay.AppendChunk | src/stream.rs:72-92 | the chunk's native bytes written where the handle stands, a symbol's text and NUL at a time |
| Splay.PatchCount | src/stream.rs:61-69 | seeks to the count slot of the layout and overwrites it |
| Splay.PatchTouchesSlot | src/stream.rs:59-69 | a patch sets its 4-byte or 8-byte slot to the count and changes no other byte |
| Splay.PatchedIsWhole | src/stream.rs:14-16 | whatever count a header held, the patched file is the one written with the new count |
| Splay.LongHeadBytes | src/stream.rs:41-45 | the 32 bytes of a header of 258 longs |
| Splay.SymHeadBytes | src/stream.rs:50-57 | the 8 bytes of a header of 258 symbols |
| Splay.WidthsAreSizes | src/ffi.rs:180-183 | an element of each type a stream can meet has as many bit patterns as the machine's number of that size has values |
| Splay.FixedReadsBack | src/stream.rs:6-8 | type, count and values of a fixed-width column read back |
| Splay.SymbolsReadBack | src/stream.rs:9-12 | symbols read back, each up to its first NUL, exactly while there are fewer than 2^31 |
| Splay.CTextExact | src/stream.rs:79-83 | a symbol's text survives exactly when it holds no NUL |
| Splay.CTextStops | src/stream.rs:79-83 | what is left of a text with a NUL is all before its first NUL |
| Handles.Dir.Create | src/stream.rs:126-145 | creating a file cuts an entry that is there to nothing, for every handle on it, and opens a handle of its own at the start |
| Handles.Dir.WriteAll | src/stream.rs:72-92 | a write goes to its handle's position in the shared file and moves that handle only |
| Handles.OverOver | src/stream.rs:77-84 | two writes in a row leave what one write of both would |
| Handles.WrittenRight | src/stream.rs:146-182 | files headed, appended to in rounds and patched come out right, shared ones too while those who share have the same bytes |
| Handles.WrittenEntries | src/stream.rs:126-182 | a stream adds its entries and leaves every other file as it was |
| SplayStream.WriteManifest | src/stream.rs:126-133 | the header and the names, one after another, are the manifest's file |
| SplayStream.SpillAll | src/stream.rs:149-179 | batch by batch and column by column, with the rows counted, up to the first column that cannot be converted, every one before it spilled |
| SplayValues.WholeHolds | src/stream.rs:149-179 | batch k's own column stands in the streamed column from the row after the rows of batches 0..k on, value by value, and the streamed column has no rows but the batches' |
| SplayValues.ColumnsRead | src/stream.rs:3-19 | with safe names the file a column's name leads to reads back as the column's type and as many values as rows were streamed, with each batch's own values, or symbols up to their first NUL, after the rows of the batches before it |
| SplayValues.NamesRead | src/stream.rs:126-133 | with safe names the new manifest reads back as the column names |
| SplayStream.OpenColumns | src/stream.rs:134-145 | column files created and headed one after another, up to the first name the system refuses |
| SplayStream.Build | src/stream.rs:126-182 | either the whole stream is written or the files are just as the stop leaves them |
| SplayStream.StoppedEntries | src/stream.rs:126-182 | a stream that stops has written to the files it created and to no other |
| SplayReplace.Disk.StreamTable | src/stream.rs:95-193 | fails exactly on a refused count, an unmapped column, a refused name, a failed conversion or a failed rename; states the whole disk after each of these ends and after success |
| SplayReplace.StraightExact | src/stream.rs:134-145 | for names that lead straight to their files, a table comes out right exactly when no two columns meet in one file with different bytes, nor a column the manifest |
| SplayReplace.StreamMeans | src/stream.rs:20-30 | a stream that stops leaves the table alone unless a created column leads into it; with safe names the new table is the one streamed; nothing of the old table is in it |
| SplayReplace.StopSafe | src/stream.rs:26-29 | a stream that stops leaves every table alone exactly when no column created before leads into it |
| SplayReplace.StopSparesOthers | src/stream.rs:26-29 | a stream that stops leaves no scratch directory, and of the files outside the table touches only those its columns led to |
| SplayReplace.StreamSparesOthers | src/stream.rs:183-193 | nor does a whole stream touch others, renamed or not; after a rename that fails no file of a table is left |
| SplayReplace.PlainNamesStayInside | src/stream.rs:134-145 | names without a slash never lead into the table that is there |
| SplayReplace.NamesSafe | src/stream.rs:134-145 | whatever else lies on the disk, every table comes out right exactly when no name leads into the table that is there, each leads to a file of its own that is not the manifest, and after the rename to that same file |
| SplayReplace.PlainNamesSafe | src/stream.rs:134-145 | names without a slash are safe exactly when they are distinct and none is .d |
| SplayReplace.AcceptedAsIs | src/stream.rs:134-145 | names the system keeps as they are, repeated ones and .d included, are all accepted |
| SplayReplace.SecondColumnTakesTheFile | src/stream.rs:134-145 | two columns called a: a table whose stream loses one |
| SplayReplace.ColumnTakesTheManifest | src/stream.rs:126-145 | a column called .d: a stream that loses the manifest |
| SplayReplace.ColumnGoesWithTheOldTable | src/stream.rs:134-190 | for the target t a column called ../t/a is written into the table that is then removed: no table comes out right |
| SplayReplace.OldManifestIsLost | src/stream.rs:134-145 | for the target t a column called ../t/.d, and a batch that cannot be converted: the old manifest is an empty header |
| SplayStream.CountCheckExact | src/stream.rs:100-104 | what is delivered always stays below 2^31 rows exactly when the counts sum to less and none is negative |
| SplayStream.NegativeCountSlipsThrough | src/stream.rs:100-104 | a row count of -1 passes the check and bounds nothing |
| Footers.Cache.Look | src/meta.rs:208-213 | a hit rotates its entry to the front, a miss changes nothing |
| Footers.Cache.Store | src/meta.rs:236-243 | stores only a key not yet there, dropping the last of a full list |
| Footers.Cache.Load | src/meta.rs:191-246 | the answer carries the parse's own metadata and rows exactly when these add up to the declared total, and a rejected footer leaves the list alone |
| Footers.InvKept | src/meta.rs:182-246 | every step of every thread keeps the list distinct, bounded, fresh and exactly the latest used |
| Footers.EveryAnswerIsFresh | src/meta.rs:191-246 | in every run of concurrent loads every answer is the one a fresh parse of its key gives, with that parse's metadata and rows |
| Footers.StepMovesKey | src/meta.rs:208-243 | a step brings a key the list holds to the front and keeps the others' order, or puts a new key before the 31 latest, or leaves the list alone |
| Footers.ListIsLatestUsed | src/meta.rs:173-187 | the list is exactly the 32 keys used last, each once, the latest first |
| Footers.RejectedNeverStored | src/meta.rs:224-235 | a footer whose row counts disagree is never in the list |

## Left out

- Parquet and arrow internals: page decoding, encoders, compression, footers and `BitChunks` offsets appear as contracts; `Kernels.Decoder` hands out any batch its contract allows.
- The host: raw pointers, reference counts, vector allocation and `krr`; vectors are arrays, a symbol is its text.
- Floating-point columns (KE, KF, KZ) and their statistics, and the sampling in `pick` and `pick_int`, which change sizes and not values.
- Statistics of KB, KS and KG columns: the byte cut of an Int8 bound does not keep order, and symbol bounds are advisory by the source's own words.
- Options, `lib.rs`, base64 of the embedded schema, `type_char`, `sizes`, `enc_of`, `dict_hint` and the schema agreement in `open`: shallow cases.
- A call of the pool with no workers to ask for (src/pool.rs:156-158) runs on the caller alone and is not a step of the protocol.
- Files and processes: scratch files, rename and unlink, fork detection, stack sizes, failing thread starts, `spawned` (a caller that runs alone is one state of the protocol), and memory ordering below the atomic step.
- Errors of casts to strings or to nanosecond types, and byte offsets of a dictionary page cut to 32 bits.
- WriteProgress.NoDeadlock: assumes the master does not unwind; only its early returns record an error and wake the workers, so a panic inside it would leave parked workers behind.
- WriteProtocol.Next: encoding a task and depositing its chunk are one step, because encoding touches no shared state.
- PoolSafety.CountdownExact: generations are unbounded numbers, where the source's wrap at 2^64.
- ParMap.ParMapIsMap: says nothing about progress; no thread there ever waits for another.
- Decode.OkMeansSequentialTable: a task's outcome is fixed in advance and its writes are free until it ends; `OneTask.RunTask` shows a task meets this.
- OneTask.One: the reader hands out a row group's rows in order and never more than the footer says, which the source also takes from arrow; what converting one batch column yields is an input, proved for each kind of column in `ArrowPath`, `Symbols` and `CodesRead`; opening a file or a batch reader that fails is a failed batch.
- ReadTable.ReadFillsTable: holds for every number of parts, so the choice of that number from the machine's threads is not modelled.
- Codes.Plan: whether every chunk has a dictionary page, the parallel page reads (they are `par_map`) and the statistics behind "may hold nulls" are inputs.
- CodesRead.ReadSymbols: a dictionary array belongs to one column, hence to one union, and the union holds fewer than 2^31 entries.
- CodesRead.CodeInRange: with statistics that deny nulls where there are some, a code may stand one past the dictionary, which reads as the empty symbol.
- Symbols.SymCache.Get: lengths and slots are unbounded numbers; texts at least 4096 long bypass the cache as in the source.
- Stats.PutStat: 16-bit values are assumed to be stored within 16 bits, as a 16-bit column's are.
- SplayReplace.Disk.StreamTable: conversion failures and delivered batches are inputs, also where a name would lead to the file being streamed; the refusals of the destination path, failures of single writes and a removal of the old table that fails half way are left out.
- SplayReplace.PlainNamesSafe: for a file system that keeps names as they are, so not one that folds case; there `SplayReplace.NamesSafe` holds with the entries it makes of them.
- SplayStream.WriteManifest: drops the manifest's handle at once, where the source keeps it open and writes nothing more through it.
- Footers.EveryAnswerIsFresh: a key determines the file's content, which is what the key is for; leaf maps are rebuilt by the caller and not stored.
