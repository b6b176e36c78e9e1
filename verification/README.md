# sams-tar-cs: bounded background writer and extraction router, in Dafny

This project models the core of SamsTarCS, a tar extractor that bounds the memory held by
pending file writes. It has two parts:

- `AsyncFileWriteQueue` is a capacity-limited map from destination path to bytes. One
  background worker drains it to disk. Producers block in `WaitForRoom` until enough bytes
  have been released.
- `UnTar` consumes archive entries one at a time. It strips the `package/` root from each
  name and creates parent directories through a cache. Each file is then written directly
  or handed to the queue, depending on its size.

Files:

- `common.dfy` (module `Common`): `Option`, `Result`, ordinal `Contains` and `LastIndexOf`.
- `filesystem.dfy` (module `FileSystem`): the disk is a map from path to bytes plus a set of
  created directories. It also has `WriteAllBytes` (overwrite), `CreateDirectory`, `Join`
  (the joining rules of `Path.Combine`) and `DirectoryName`.
- `write_queue.dfy` (module `WriteQueue`): the queue as pure state transitions.
  - The state holds `maxSize`, `currentSize`, `pending`, the entry in flight, the worker
    task (none, running, or created already cancelled), the cancellation flag, and
    `accepted`. `accepted` is model-only bookkeeping: the latest bytes successfully
    enqueued for each path.
  - One worker iteration is split into two steps. `Take` removes a pending entry and holds
    it in flight. `Release` writes it and then subtracts its length.
  - Waiting is a millisecond counter advanced in 10 ms polls.
  - The invariant `Valid` says that `currentSize` is the sum of the pending sizes plus the
    in-flight size, and that it stays within `maxSize`.
  - `Persisted` says that no accepted write is lost.
  - Every step preserves both invariants (`NextPreserves`, `RunKeepsBounds`).
- `untar.dfy` (module `UnTar`): the extraction loop as a fold over `seq<Entry>`. The state
  is the disk, the directory cache, the file and directory counters, and the shared queue.
  Before each entry a running worker finishes any write it holds, then writes the pending
  paths listed for that entry (`drains`). The fold also records the `skip` argument of
  every `MoveNext` call.

## Model

| member | source | states |
|---|---|---|
| WriteQueue.New | SamsTarCS/SamsTarCS/AsyncFileWriteQueue.cs:26-34 | a new queue is empty, unstarted, not cancelled, has no write in progress, holds 0 bytes and satisfies the size invariant |
| WriteQueue.Start | SamsTarCS/SamsTarCS/AsyncFileWriteQueue.cs:85-88 | starting creates a worker; the worker runs only if the token was never cancelled; nothing else changes |
| WriteQueue.PollRoom | SamsTarCS/SamsTarCS/AsyncFileWriteQueue.cs:165-175 | with room the loop exits with the wait so far; without room it throws a timeout when the wait first passes the timeout on a 10 ms grid |
| WriteQueue.WaitForRoom | SamsTarCS/SamsTarCS/AsyncFileWriteQueue.cs:151-176 | not-started error iff no worker; a request over `MaxSize` is refused before any wait; with room it returns after 0 ms even for a zero timeout; otherwise it times out on the first 10 ms step past the timeout |
| WriteQueue.Enqueue | SamsTarCS/SamsTarCS/AsyncFileWriteQueue.cs:61-80 | exact condition for each error; any failure leaves the queue unchanged; success adds exactly `path -> data`, adds `\|data\|` to `currentSize`, stays within `maxSize` and changes nothing else |
| WriteQueue.Take | SamsTarCS/SamsTarCS/AsyncFileWriteQueue.cs:117-125 | the worker removes one pending entry and holds it in flight; `currentSize` does not change |
| WriteQueue.Release | SamsTarCS/SamsTarCS/AsyncFileWriteQueue.cs:133-139 | the in-flight bytes overwrite the file at their path, then exactly their length is subtracted |
| WriteQueue.HasWork | SamsTarCS/SamsTarCS/AsyncFileWriteQueue.cs:49-52 | work exists iff some path is pending; without work the only bytes held are those of the write in flight |
| WriteQueue.WaitCompleteReturns | SamsTarCS/SamsTarCS/AsyncFileWriteQueue.cs:182-188 | `WaitComplete` returns iff no path is pending; a write in flight may still hold bytes then |
| WriteQueue.Stop | SamsTarCS/SamsTarCS/AsyncFileWriteQueue.cs:93-108 | no-op without a worker; a running worker finishes its in-flight write, whose bytes leave the size count, and is forgotten, and pending entries are abandoned; stopping a task cancelled before it ran throws and changes nothing |
| WriteQueue.Drain | SamsTarCS/SamsTarCS/AsyncFileWriteQueue.cs:111-142 | a running worker finishes the write it holds, then takes and writes every listed pending path: exactly those paths leave `pending`, the disk becomes the finished write plus their bytes, directories are untouched, and the worker ends idle; without a running worker nothing changes; `currentSize` only shrinks and both invariants hold |
| WriteQueue.DrainKeys | SamsTarCS/SamsTarCS/AsyncFileWriteQueue.cs:113-139 | the take-and-write iterations keep the capacity, the worker and the accepted log, only shrink `pending` and `currentSize`, leave nothing in flight, only add files, and keep both invariants |
| WriteQueue.DrainKeysRemoves | SamsTarCS/SamsTarCS/AsyncFileWriteQueue.cs:119-125 | each iteration removes the path it takes (line 123), so the listed paths are exactly the ones that leave `pending`; a worker that is not running removes nothing |
| WriteQueue.DrainKeysWrites | SamsTarCS/SamsTarCS/AsyncFileWriteQueue.cs:133-134 | each taken path is written with its pending bytes, so afterwards the disk is the old files overwritten by the listed pending entries, and no directory is created |
| WriteQueue.EnqueuePreserves | SamsTarCS/SamsTarCS/AsyncFileWriteQueue.cs:68-79 | an enqueue keeps `currentSize` equal to the held bytes and loses no accepted write |
| WriteQueue.TakePreserves | SamsTarCS/SamsTarCS/AsyncFileWriteQueue.cs:117-125 | a take moves bytes from pending to in flight; the sum is unchanged |
| WriteQueue.ReleasePreserves | SamsTarCS/SamsTarCS/AsyncFileWriteQueue.cs:133-139 | a release puts the accepted bytes on disk as it frees them |
| WriteQueue.StopPreserves | SamsTarCS/SamsTarCS/AsyncFileWriteQueue.cs:93-108 | stopping keeps the invariants |
| WriteQueue.NextPreserves | SamsTarCS/SamsTarCS/AsyncFileWriteQueue.cs:61-142 | every enabled producer or worker step keeps the size invariant and loses no accepted write |
| WriteQueue.RunKeepsBounds | SamsTarCS/SamsTarCS/AsyncFileWriteQueue.cs:61-176 | with one sequential producer, `0 <= currentSize <= maxSize` holds after any sequence of steps |
| WriteQueue.StopIsIdempotent | SamsTarCS/SamsTarCS/AsyncFileWriteQueue.cs:93-108 | a second `Stop` after a successful one changes nothing |
| WriteQueue.StoppedQueueRefusesWork | SamsTarCS/SamsTarCS/AsyncFileWriteQueue.cs:63-103 | after `Stop` nulls the worker, `Enqueue` and `WaitForRoom` fail with the not-started error and change nothing |
| WriteQueue.RestartAfterStopNeverDrains | SamsTarCS/SamsTarCS/AsyncFileWriteQueue.cs:85-108 | `Start` after `Stop` yields a task that never takes an entry and whose `Stop` throws |
| WriteQueue.WaitCompleteReturnsMidWrite | SamsTarCS/SamsTarCS/AsyncFileWriteQueue.cs:182-188 | `HasWork` is false, so `WaitComplete` returns, while a taken entry is not yet on disk |
| WriteQueue.IsDrained | SamsTarCS/SamsTarCS/AsyncFileWriteQueue.cs:178-188 | the drained condition (nothing pending, nothing in flight) implies that `WaitComplete` returns |
| WriteQueue.DrainedMeansPersisted | SamsTarCS/SamsTarCS/AsyncFileWriteQueue.cs:178-188 | once drained, every path ever enqueued holds on disk the bytes of its latest successful enqueue |
| WriteQueue.WaitCompleteThenStopPersists | SamsTarCS/SamsTarCS/AsyncFileWriteQueue.cs:93-108 | `WaitComplete` followed by `Stop` reaches the drained state with all accepted bytes on disk |
| WriteQueue.CapacityScenario | SamsTarCS/SamsTarCS/AsyncFileWriteQueue.cs:151-176 | with 1024 bytes: 2000 bytes is refused; 500 bytes is accepted; 600 more bytes with a 50 ms timeout time out after 60 ms, still holding 500 |
| Common.Contains | SamsTarCS/SamsTarCS/UnTar.cs:56 | the substring test is true exactly when the marker occurs at some index |
| FileSystem.WriteAllBytes | SamsTarCS/SamsTarCS/AsyncFileWriteQueue.cs:134 | the file holds exactly the new bytes; every other file and every directory is unchanged |
| FileSystem.CreateDirectory | SamsTarCS/SamsTarCS/UnTar.cs:120 | the directory is added (idempotently); files are unchanged |
| FileSystem.Join | SamsTarCS/SamsTarCS/UnTar.cs:79 | `Path.Combine`: an empty side yields the other, a rooted second part wins, and otherwise the root, then a separator unless the root already ends in one, then the relative part |
| FileSystem.DirectoryName | SamsTarCS/SamsTarCS/UnTar.cs:86-92 | the prefix before the last separator (the root `/` only when the path starts with one); no separator follows it; empty without a separator |
| FileSystem.JoinThenDirectoryName | SamsTarCS/SamsTarCS/UnTar.cs:79-92 | the directory of a plain file name joined to a directory is that directory |
| UnTar.StripPrefix | SamsTarCS/SamsTarCS/UnTar.cs:66-75 | the relative path is a suffix of the name; the removed part is `package/`, the pack prefix or nothing; `package/` wins; nothing is removed iff neither prefix matches |
| UnTar.StripRemovesOneRoot | SamsTarCS/SamsTarCS/UnTar.cs:68-71 | only one `package/` is removed |
| UnTar.NullPackStripsLeadingSeparator | SamsTarCS/SamsTarCS/UnTar.cs:72-75 | with the null pack name of the call site, the second prefix is a single leading `/` |
| UnTar.NormaliseThreshold | SamsTarCS/SamsTarCS/UnTar.cs:20-23 | a negative threshold becomes -1; a non-negative threshold is kept |
| UnTar.RouteOf | SamsTarCS/SamsTarCS/UnTar.cs:95 | buffered iff a queue exists, the file fits its `MaxSize`, and the file is within the threshold (or, for the corrected policy, no threshold is set) |
| UnTar.EnsureParent | SamsTarCS/SamsTarCS/UnTar.cs:86-93 | the parent directory is created and counted exactly when it is missing from the cache; it is always in the cache afterwards; files are untouched |
| UnTar.WorkerProgress | SamsTarCS/SamsTarCS/AsyncFileWriteQueue.cs:111-142 | the worker between two entries finishes its held write and writes exactly the listed pending paths, which leave the queue; the size invariant is kept; without a queue or a running worker nothing changes; the cache and counters never change |
| UnTar.BufferedFitsQueue | SamsTarCS/SamsTarCS/UnTar.cs:95 | a buffered file exists only with a queue, within the threshold and within `MaxSize` |
| UnTar.GuardedThresholdDecides | SamsTarCS/SamsTarCS/UnTar.cs:95 | once the threshold is at most `MaxSize`, a file is buffered iff its size is within the threshold |
| UnTar.DefaultThresholdBuffersNothing | SamsTarCS/SamsTarCS/UnTar.cs:18-23 | a negative threshold becomes -1, so every file of size >= 0 goes direct even with a queue |
| UnTar.NoThresholdBuffersWhatFits | SamsTarCS/SamsTarCS/UnTar.cs:95 | corrected routing: with no threshold, a queue takes exactly the files that fit it; with a threshold it agrees with the original |
| UnTar.ExtractEntry | SamsTarCS/SamsTarCS/UnTar.cs:64-128 | file: the parent is created and counted only on a cache miss, and the file is counted on either route; a direct write replaces exactly that file; a buffered write leaves the files alone, the queue becomes exactly the `Enqueue` result, and the entry fails exactly when `Enqueue` fails, with its error; only the queue can fail. Directory: exactly that directory is added, nothing else changes. Other kinds: nothing |
| UnTar.ExtractFile | SamsTarCS/SamsTarCS/UnTar.cs:83-118 | the file-entry half of the above: exact directory, file and queue effects of each route, and the error is exactly the one `Enqueue` returns on the buffered route |
| UnTar.ExtractLoop | SamsTarCS/SamsTarCS/UnTar.cs:43-62 | paths on disk and directories are never removed; the cache and counters only grow; `dirsCreated` grows by exactly the cache growth; only a queue error aborts; the `MoveNext` arguments are a prefix of the skip flags, complete on success |
| UnTar.NoQueueWritesLastBytes | SamsTarCS/SamsTarCS/UnTar.cs:95-103 | without a queue, the files after the loop are exactly the earlier files overwritten by the bytes of the last file entry for each destination |
| UnTar.LoopTotals | SamsTarCS/SamsTarCS/UnTar.cs:51-61 | a loop that reads every entry counts each file entry once, and the cache gains exactly the parent directories of the file entries |
| UnTar.FreshTotals | SamsTarCS/SamsTarCS/UnTar.cs:38-41 | from an empty cache and zero counters, a complete loop counts the file entries and the distinct parent directories |
| UnTar.SkipFlagsFollowPaxHeaders | SamsTarCS/SamsTarCS/UnTar.cs:48-57 | the first `MoveNext` does not skip; each later one skips iff the previous entry's recorded name contains `PaxHeader` |
| UnTar.LoopNeverExceedsCapacity | SamsTarCS/SamsTarCS/UnTar.cs:95-113 | when entries yield their declared size, the router never causes a capacity error |
| UnTar.LoopStartedQueueIsStarted | SamsTarCS/SamsTarCS/UnTar.cs:113 | a started queue never reports the not-started error to the router |
| UnTar.LoopDefaultThresholdBuffersNothing | SamsTarCS/SamsTarCS/UnTar.cs:95-104 | with a negative threshold the extraction cannot fail and adds nothing to the queue |
| UnTar.Finish | SamsTarCS/SamsTarCS/UnTar.cs:43-62 | a fresh extraction reports `FileCount` = number of file entries and `DirectoryCount` = number of distinct parent directories of file entries |
| UnTar.Extract | SamsTarCS/SamsTarCS/UnTar.cs:18-31 | no queue: fails before reading anything; a normalised threshold over `MaxSize` fails before reading anything; success reports the counts above; never a capacity error; default threshold never fails |
| UnTar.ExtractCorrected | SamsTarCS/SamsTarCS/UnTar.cs:18-31 | with the null check restored, extraction without a queue always succeeds with the same counts |
| UnTar.ExtractCorrectedWritesLastBytes | SamsTarCS/SamsTarCS/UnTar.cs:95-103 | with the null check restored and no queue, the disk holds the earlier files overwritten by the last bytes for each destination, and nothing else |
| UnTar.NoQueueNeverFails | SamsTarCS/SamsTarCS/UnTar.cs:95-104 | without a queue every file goes direct and no entry can abort |
| UnTar.ExtractWithoutQueueFails | SamsTarCS/SamsTarCS/UnTar.cs:18-25 | as written, a call without a queue fails for every input; the corrected entry point succeeds |
| UnTar.BufferedTwice | SamsTarCS/SamsTarCS/UnTar.cs:105-115 | a file buffered twice with no drain in between: the first submission is accepted, the second fails with the duplicate-name error |
| UnTar.BufferedTwiceAborts | SamsTarCS/SamsTarCS/UnTar.cs:51-57 | the loop over two identical buffered file entries, with no worker progress in between, ends with the duplicate-name error |
| UnTar.ExtractIsLoop | SamsTarCS/SamsTarCS/UnTar.cs:18-31 | with a queue and a threshold that fits it, `Extract` leaves the disk and queue of the loop over the entries, and fails exactly when the loop does, with its error |
| UnTar.BufferedAfterRelease | SamsTarCS/SamsTarCS/UnTar.cs:95-115 | on an empty, valid, running queue with nothing in flight, a file within the threshold is accepted and becomes the only pending entry |
| UnTar.InFlightWriteFinishesFirst | SamsTarCS/SamsTarCS/AsyncFileWriteQueue.cs:133-139 | a queue handed to `Extract` while its worker holds a write: the write completes and frees its bytes before the next entry, so a fitting file is accepted |
| UnTar.DuplicateBufferedFileAborts | SamsTarCS/SamsTarCS/UnTar.cs:105-115 | two buffered file entries with the same name, with no drain in between: the second fails with the duplicate-name error and aborts |

## Left out

- Threads, locks and polling delays are not modelled. `Task.Run`, `lock`, `Task.Delay`,
  `Thread.Sleep` and the worker's idle 100 ms sleep become explicit steps. The idle sleep
  changes no state.
- The race between two concurrent producers that pass the room check for the same freed
  bytes (AsyncFileWriteQueue.cs:68-79) cannot be expressed with one sequential producer.
  The bounds lemmas assume one producer.
- WriteQueue.Start: requires that no worker exists. A second `Start` on a running queue
  would run two workers over one map, which is concurrency.
- WriteQueue.Enqueue: the worker makes no progress while one call polls. Worker progress
  is a separate step between calls (`Drain`, and `drains` in the extraction fold), so a
  wait that the worker would end by freeing room shows up as success after an earlier
  drain, with 0 ms waited.
- WriteQueue.Drain: a write the worker holds always completes before the router reads the
  next entry. The interleaving in which it is still in flight during that entry's
  `Enqueue` is not expressed.
- The timeout is a whole number of milliseconds. The source compares the wait with
  `TimeSpan.TotalMilliseconds`, a double (AsyncFileWriteQueue.cs:167).
- WriteQueue.Stop: a running worker never throws. In the source, `Task.Run` received the
  token that `Stop` cancels (AsyncFileWriteQueue.cs:87, 97-99), so stopping before the
  delegate was scheduled throws `TaskCanceledException`.
- WriteQueue.Take: the entry taken is a parameter. `Dictionary.FirstOrDefault` order is
  implementation-defined.
- `Dispose`, the `CancellationToken` parameters of `Enqueue`/`WaitForRoom` (callers pass
  the default), and null arguments (`ArgumentNullException`) are left out.
- File-system and archive calls never fail. In the router, `file.Directory.Create()`
  (UnTar.cs:91), `File.Create` (line 97), `tarReader.Read` (lines 102 and 111) and
  `Directory.CreateDirectory` (line 120) can throw. For example, a file entry named
  `package/` resolves to the output directory itself. Such a throw aborts `Extract`. The disk
  is a plain map in which these calls always succeed, so only a queue error can abort the
  loop.
- The worker's writes always succeed. In the source an `IOException` from `File.WriteAllBytes`
  (AsyncFileWriteQueue.cs:134) ends the worker task as faulted; the entry's bytes are then
  never subtracted (line 138). `Stop` rethrows the exception at line 99, so lines 101-103
  never run and `_worker` stays set.
- `TarReader`, `GZipStream`, `MoveNext` and `Read` are replaced by a finite `seq<Entry>`.
  The `skip` argument of `MoveNext` is only recorded.
- `Path.GetFullPath` canonicalisation (including `..`) is left out. So are backslashes and
  drive roots in `Path.Combine`, .NET `DirectoryName` returning null for a root, and the
  ancestors that `CreateDirectory` also creates.
- Culture-sensitive `StartsWith` is treated as ordinal.
- The `Stopwatch` time in `UnTarResult` is dropped, and the output `DirectoryInfo` is
  reduced to its path.
- `long`/`int` widths are unbounded integers. Counter overflow is not modelled.
- The benchmark program and the test projects are not modelled. The tests only check that
  the output directory is non-empty.

## Findings

| source | as written | input that shows it | evidently intended | confidence | as-written member | corrected member |
|---|---|---|---|---|---|---|
| SamsTarCS/SamsTarCS/UnTar.cs:25 | `smallFileQueue.MaxSize` is read without a null check | `Extract(stream, dir)` with the default null queue throws `NullReferenceException` before any entry | a null queue disables buffering, as the parameter comment says | high, not executed | UnTar.ExtractWithoutQueueFails | UnTar.ExtractCorrected |
| SamsTarCS/SamsTarCS/UnTar.cs:95 | with the default threshold -1, `size > smallFileSize` holds for every file | a queue is passed with no threshold (as the shared-buffer tests do); every file is written directly and the queue stays empty | no threshold: every file that fits the queue is buffered | medium, not executed | UnTar.DefaultThresholdBuffersNothing | UnTar.NoThresholdBuffersWhatFits |
| SamsTarCS/SamsTarCS/AsyncFileWriteQueue.cs:182-188 | `WaitComplete` polls `HasWork`, which ignores the entry the worker has taken | enqueue one file, the worker takes it, `WaitComplete` returns before `File.WriteAllBytes` has run | wait until all data is written, as the doc comment says | high, not executed | WriteQueue.WaitCompleteReturnsMidWrite | WriteQueue.DrainedMeansPersisted |
