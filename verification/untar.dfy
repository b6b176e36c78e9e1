/** The extraction router `UnTar`: a fold over the archive's entries that
    strips the archive-root prefix from each name, creates parent directories
    through a cache, and routes each file either straight to disk or through
    the shared `WriteQueue`. The archive reader is replaced by the finite
    sequence of entries it yields. */
module UnTar {
  import opened Common
  import opened FileSystem
  import WriteQueue

  /** The archive-root prefix removed from entry names before anything else. */
  const ArchiveRoot: string := "package/"

  /** Entries whose name contains this are followed by a skipping move. */
  const PaxMarker: string := "PaxHeader"

  /** Timeout handed to `Enqueue` for a buffered file: one minute. */
  const EnqueueTimeoutMs: int := 60000

  datatype EntryKind = File | FileObsolete | Directory | OtherKind

  /** One archive entry: its recorded name, type, declared size and the bytes
      the reader yields for it. */
  datatype Entry = Entry(name: string, kind: EntryKind, size: int, data: Bytes)

  predicate IsFile(e: Entry) {
    e.kind.File? || e.kind.FileObsolete?
  }

  /** The declared size is the number of bytes the reader yields. */
  predicate Consistent(e: Entry) {
    e.size == |e.data|
  }

  /** `UnTarResult` without the elapsed time. */
  datatype UnTarResult = UnTarResult(fileCount: int, directoryCount: int, output: Path)

  datatype ExtractError =
    | NullQueue                                   // NullReferenceException reading MaxSize
    | ThresholdTooLarge                           // ArgumentException
    | EnqueueFailed(cause: WriteQueue.QueueError) // exception rethrown by Wait()

  /** The fields of one `UnTar` instance plus the disk and the shared queue. */
  datatype Extraction = Extraction(
    disk: Disk,
    cache: set<Path>,
    filesCreated: int,
    dirsCreated: int,
    queue: Option<WriteQueue.Queue>)

  // ---------------------------------------------------------------------
  // Names
  // ---------------------------------------------------------------------

  /** `packName + "/"`; a null pack name concatenates as the empty string. */
  function PackPrefix(packName: Option<string>): string {
    (if packName.Some? then packName.value else "") + [Separator]
  }

  /** Remove the archive-root prefix, or else the pack prefix, or nothing. */
  function StripPrefix(name: string, packName: Option<string>): (rel: string)
    ensures |rel| <= |name| && rel == name[|name| - |rel|..]
    ensures name[..|name| - |rel|] in [ArchiveRoot, PackPrefix(packName), ""]
    ensures ArchiveRoot <= name ==> |rel| == |name| - |ArchiveRoot|
    ensures |rel| == |name| <==> !(ArchiveRoot <= name) && !(PackPrefix(packName) <= name)
  {
    if ArchiveRoot <= name then
      assert name[..|ArchiveRoot|] == ArchiveRoot;
      name[|ArchiveRoot|..]
    else if PackPrefix(packName) <= name then
      assert name[..|PackPrefix(packName)|] == PackPrefix(packName);
      name[|PackPrefix(packName)|..]
    else
      assert name[..0] == "";
      name
  }

  /** Only one archive-root prefix is ever removed. */
  lemma StripRemovesOneRoot(s: string, packName: Option<string>)
    ensures StripPrefix(ArchiveRoot + s, packName) == s
  {
    assert ArchiveRoot <= ArchiveRoot + s;
    assert (ArchiveRoot + s)[|ArchiveRoot|..] == s;
  }

  /** With the null pack name of the call site, a name that does not start
      with the archive root loses one leading separator. */
  lemma NullPackStripsLeadingSeparator(s: string)
    ensures StripPrefix([Separator] + s, None) == s
  {
    var name := [Separator] + s;
    assert !(ArchiveRoot <= name) by {
      assert name[0] != ArchiveRoot[0];
    }
    assert PackPrefix(None) <= name;
    assert name[1..] == s;
  }

  /** Where an entry named `name` is written under `outputDir`. */
  function EntryPath(outputDir: Path, name: string, packName: Option<string>): Path {
    Join(outputDir, StripPrefix(name, packName))
  }

  /** Where an entry is written, for the null pack name of the call site. */
  function FullPath(outputDir: Path, name: string): Path {
    EntryPath(outputDir, name, None)
  }

  // ---------------------------------------------------------------------
  // Routing
  // ---------------------------------------------------------------------

  /** A negative threshold becomes -1. */
  function NormaliseThreshold(smallFileSize: int): (t: int)
    ensures t >= -1
    ensures t < 0 <==> smallFileSize < 0
    ensures smallFileSize >= 0 ==> t == smallFileSize
  {
    if smallFileSize < 0 then -1 else smallFileSize
  }

  datatype Route = Direct | Buffered

  /** `AsWritten` is the source's test; `NoThresholdWhenNegative` reads a
      negative threshold as "no threshold". */
  datatype RoutePolicy = AsWritten | NoThresholdWhenNegative

  /** Direct unless a queue exists, the file fits the queue, and the file is
      within the threshold. */
  function RouteOf(policy: RoutePolicy, queue: Option<WriteQueue.Queue>, size: int, smallFileSize: int): (r: Route)
    ensures r == Buffered <==>
      && queue.Some?
      && size <= queue.value.maxSize
      && (size <= smallFileSize || (policy.NoThresholdWhenNegative? && smallFileSize < 0))
  {
    if queue.None? || size > queue.value.maxSize then Direct
    else if policy.NoThresholdWhenNegative? && smallFileSize < 0 then Buffered
    else if size > smallFileSize then Direct
    else Buffered
  }

  /** A buffered file fits both the threshold and the queue, so the router can
      never make `Enqueue` fail for capacity. */
  lemma BufferedFitsQueue(queue: Option<WriteQueue.Queue>, size: int, smallFileSize: int)
    ensures RouteOf(AsWritten, queue, size, smallFileSize) == Buffered ==>
      queue.Some? && size <= smallFileSize && size <= queue.value.maxSize
  {
  }

  /** Once the threshold has passed the guard of `Extract`, the threshold alone
      decides the route. */
  lemma GuardedThresholdDecides(queue: WriteQueue.Queue, size: int, smallFileSize: int)
    requires smallFileSize <= queue.maxSize
    ensures RouteOf(AsWritten, Some(queue), size, smallFileSize) == Buffered <==> size <= smallFileSize
  {
  }

  /** As written: with the default threshold every file of non-negative size
      is written directly, even when a queue is supplied. */
  lemma DefaultThresholdBuffersNothing(queue: Option<WriteQueue.Queue>, size: int, smallFileSize: int)
    requires smallFileSize < 0 && size >= 0
    ensures RouteOf(AsWritten, queue, size, NormaliseThreshold(smallFileSize)) == Direct
  {
  }

  /** Corrected: without a threshold, a supplied queue takes every file that
      fits it; with a threshold both policies agree. */
  lemma NoThresholdBuffersWhatFits(queue: WriteQueue.Queue, size: int, smallFileSize: int)
    ensures smallFileSize < 0 ==>
      (RouteOf(NoThresholdWhenNegative, Some(queue), size, smallFileSize) == Buffered <==> size <= queue.maxSize)
    ensures smallFileSize >= 0 ==>
      RouteOf(NoThresholdWhenNegative, Some(queue), size, smallFileSize) == RouteOf(AsWritten, Some(queue), size, smallFileSize)
  {
  }

  // ---------------------------------------------------------------------
  // One entry
  // ---------------------------------------------------------------------

  /** Create the parent directory of a file on the first miss in the cache. */
  function EnsureParent(st: Extraction, fullPath: Path): (r: Extraction)
    ensures var dir := DirectoryName(fullPath);
      && r.cache == st.cache + {dir}
      && r.dirsCreated == st.dirsCreated + (if dir in st.cache then 0 else 1)
      && r.disk.dirs == st.disk.dirs + (if dir in st.cache then {} else {dir})
      && r.disk.files == st.disk.files
      && r == st.(disk := r.disk, cache := r.cache, dirsCreated := r.dirsCreated)
  {
    var dir := DirectoryName(fullPath);
    if dir in st.cache then st
    else st.(dirsCreated := st.dirsCreated + 1,
             disk := CreateDirectory(st.disk, dir),
             cache := st.cache + {dir})
  }

  datatype EntryOutcome = EntryOutcome(state: Extraction, error: Option<ExtractError>)

  /** The router's facts about a state change that hold for every entry kind. */
  ghost predicate Progress(st: Extraction, st': Extraction) {
    && Grows(st.disk, st'.disk)
    && st.cache <= st'.cache
    && st'.dirsCreated == st.dirsCreated + |st'.cache - st.cache|
    && st'.filesCreated >= st.filesCreated
    && st'.queue.Some? == st.queue.Some?
    && (st.queue.Some? ==> st'.queue.value.maxSize == st.queue.value.maxSize
                           && st'.queue.value.worker == st.queue.value.worker)
  }

  /** What a file entry written to `fullPath` does: its parent directory is
      cached (and created on a miss), it is counted, and it is either written
      directly or handed to the queue, in which case the outcome is exactly
      the queue's answer. */
  ghost predicate FileEffect(st: Extraction, e: Entry, fullPath: Path, smallFileSize: int,
                             policy: RoutePolicy, r: EntryOutcome)
  {
    var dir := DirectoryName(fullPath);
    var route := RouteOf(policy, st.queue, e.size, smallFileSize);
    && r.state.cache == st.cache + {dir}
    && r.state.dirsCreated == st.dirsCreated + (if dir in st.cache then 0 else 1)
    && r.state.disk.dirs == st.disk.dirs + (if dir in st.cache then {} else {dir})
    && r.state.filesCreated == st.filesCreated + 1
    && (route == Direct ==>
          r.error.None? && r.state.queue == st.queue
          && r.state.disk.files == st.disk.files[fullPath := e.data])
    && (route == Buffered ==> r.state.disk.files == st.disk.files)
    && (route == Buffered && r.error.None? ==>
          && r.state.queue == Some(WriteQueue.Enqueue(st.queue.value, fullPath, e.data, EnqueueTimeoutMs).queue)
          && fullPath in r.state.queue.value.pending
          && r.state.queue.value.pending[fullPath] == e.data)
    && (r.error.Some? ==> route == Buffered && r.error.value.EnqueueFailed? && r.state.queue == st.queue)
    && (route == Buffered ==>
          var out := WriteQueue.Enqueue(st.queue.value, fullPath, e.data, EnqueueTimeoutMs);
          r.error == (if out.error.Some? then Some(EnqueueFailed(out.error.value)) else None))
  }

  /** `ExtractTarEntry`: a file entry gets its parent directory (on a cache
      miss), is counted, and is written directly or enqueued; a directory
      entry is created without touching the cache or the counters; any other
      entry is ignored. */
  function ExtractEntry(st: Extraction, e: Entry, outputDir: Path, packName: Option<string>,
                        smallFileSize: int, policy: RoutePolicy): (r: EntryOutcome)
    ensures Progress(st, r.state)
    ensures IsFile(e) ==>
      FileEffect(st, e, EntryPath(outputDir, e.name, packName), smallFileSize, policy, r)
    ensures e.kind.Directory? ==>
      && r.error.None?
      && r.state.disk.dirs == st.disk.dirs + {EntryPath(outputDir, e.name, packName)}
      && r.state.disk.files == st.disk.files
      && r.state == st.(disk := r.state.disk)
    ensures e.kind.OtherKind? ==> r == EntryOutcome(st, None)
    ensures Consistent(e) ==> r.error != Some(EnqueueFailed(WriteQueue.CapacityExceeded))
    ensures st.queue.Some? && !st.queue.value.worker.NoWorker? ==>
      r.error != Some(EnqueueFailed(WriteQueue.NotStarted))
    ensures policy.AsWritten? && smallFileSize < 0 && e.size >= 0 ==>
      r.error.None? && r.state.queue == st.queue
  {
    var fullPath := EntryPath(outputDir, e.name, packName);
    if IsFile(e) then ExtractFile(st, e, fullPath, smallFileSize, policy)
    else if e.kind.Directory? then EntryOutcome(st.(disk := CreateDirectory(st.disk, fullPath)), None)
    else EntryOutcome(st, None)
  }

  /** A file entry at `fullPath`: parent directory, counter, then one of the
      two routes. */
  function ExtractFile(st: Extraction, e: Entry, fullPath: Path, smallFileSize: int,
                       policy: RoutePolicy): (r: EntryOutcome)
    ensures Progress(st, r.state)
    ensures FileEffect(st, e, fullPath, smallFileSize, policy, r)
    ensures Consistent(e) ==> r.error != Some(EnqueueFailed(WriteQueue.CapacityExceeded))
    ensures st.queue.Some? && !st.queue.value.worker.NoWorker? ==>
      r.error != Some(EnqueueFailed(WriteQueue.NotStarted))
    ensures policy.AsWritten? && smallFileSize < 0 && e.size >= 0 ==>
      r.error.None? && r.state.queue == st.queue
  {
    var st1 := EnsureParent(st, fullPath);
    assert Progress(st, st1) by {
      var dir := DirectoryName(fullPath);
      if dir !in st.cache {
        assert st1.cache - st.cache == {dir};
      } else {
        assert st1.cache - st.cache == {};
      }
    }
    match RouteOf(policy, st1.queue, e.size, smallFileSize)
    case Direct =>
      EntryOutcome(st1.(disk := WriteAllBytes(st1.disk, fullPath, e.data),
                        filesCreated := st1.filesCreated + 1), None)
    case Buffered =>
      var st2 := st1.(filesCreated := st1.filesCreated + 1);
      var out := WriteQueue.Enqueue(st1.queue.value, fullPath, e.data, EnqueueTimeoutMs);
      if out.error.Some? then EntryOutcome(st2, Some(EnqueueFailed(out.error.value)))
      else EntryOutcome(st2.(queue := Some(out.queue)), None)
  }

  // ---------------------------------------------------------------------
  // The extraction loop
  // ---------------------------------------------------------------------

  /** The worker's progress before the router reads the next entry. */
  function WorkerProgress(st: Extraction, keys: seq<Path>): (st': Extraction)
    ensures Progress(st, st')
    ensures st'.cache == st.cache && st'.filesCreated == st.filesCreated && st'.dirsCreated == st.dirsCreated
    ensures st.queue.Some? ==>
      && st'.queue.value.pending.Keys <= st.queue.value.pending.Keys
      && st'.queue.value.currentSize <= st.queue.value.currentSize
    ensures st.queue.Some? && WriteQueue.Valid(st.queue.value) ==> WriteQueue.Valid(st'.queue.value)
    ensures st.queue.None? || !st.queue.value.worker.Running? ==> st' == st
    ensures st.queue.Some? && st.queue.value.worker.Running? ==>
      var q := st.queue.value;
      && st'.queue.value.inFlight.None?
      && st'.queue.value.pending == q.pending - (set k | k in keys)
      && st'.disk.files == WriteQueue.Finished(q, st.disk).files + WriteQueue.Listed(q.pending, keys)
      && st'.disk.dirs == st.disk.dirs
  {
    if st.queue.None? then st
    else
      var (q, d) := WriteQueue.Drain(st.queue.value, st.disk, keys);
      assert st.cache - st.cache == {};
      st.(queue := Some(q), disk := d)
  }

  /** Number of file entries. */
  function FileCount(entries: seq<Entry>): nat {
    if |entries| == 0 then 0
    else (if IsFile(entries[0]) then 1 else 0) + FileCount(entries[1..])
  }

  /** The parent directory of a file entry, where it lands on disk. */
  function EntryDirs(e: Entry, outputDir: Path): set<Path> {
    if IsFile(e) then {DirectoryName(FullPath(outputDir, e.name))} else {}
  }

  /** Parent directories of the file entries. */
  function ParentDirs(entries: seq<Entry>, outputDir: Path): set<Path> {
    if |entries| == 0 then {}
    else EntryDirs(entries[0], outputDir) + ParentDirs(entries[1..], outputDir)
  }

  /** The arguments of successive `MoveNext` calls over `entries`, starting
      with `skip`, when none of them aborts. */
  function SkipFlags(entries: seq<Entry>, skip: bool): seq<bool>
    decreases |entries|
  {
    if |entries| == 0 then [skip]
    else [skip] + SkipFlags(entries[1..], Contains(entries[0].name, PaxMarker))
  }

  function Head(drains: seq<seq<Path>>): seq<Path> {
    if |drains| == 0 then [] else drains[0]
  }

  function Tail(drains: seq<seq<Path>>): seq<seq<Path>> {
    if |drains| == 0 then [] else drains[1..]
  }

  /** The loop of `ExtractInternal`, from the state reached so far. `skip` is
      the argument of the next `MoveNext`; `moves` records every argument
      passed to `MoveNext`, including the last call that finds no entry. */
  datatype LoopRun = LoopRun(state: Extraction, error: Option<ExtractError>, moves: seq<bool>)

  lemma DiffAdditive(a: set<Path>, b: set<Path>, c: set<Path>)
    requires a <= b <= c
    ensures |c - a| == |c - b| + |b - a|
  {
    assert c - a == (c - b) + (b - a);
    assert (c - b) * (b - a) == {};
  }

  lemma ProgressTransitive(a: Extraction, b: Extraction, c: Extraction)
    requires Progress(a, b) && Progress(b, c)
    ensures Progress(a, c)
  {
    DiffAdditive(a.cache, b.cache, c.cache);
  }

  function ExtractLoop(st: Extraction, entries: seq<Entry>, outputDir: Path, smallFileSize: int,
                       policy: RoutePolicy, drains: seq<seq<Path>>, skip: bool): (r: LoopRun)
    ensures Progress(st, r.state)
    ensures r.error.None? ==> |r.moves| == |entries| + 1
    ensures r.error.Some? ==> r.error.value.EnqueueFailed? && 1 <= |r.moves| <= |entries|
    ensures |r.moves| >= 1 && r.moves <= SkipFlags(entries, skip)
    decreases |entries|
  {
    if |entries| == 0 then
      LoopRun(st, None, [skip])
    else
      var st0 := WorkerProgress(st, Head(drains));
      var o := ExtractEntry(st0, entries[0], outputDir, None, smallFileSize, policy);
      ProgressTransitive(st, st0, o.state);
      if o.error.Some? then
        LoopRun(o.state, o.error, [skip])
      else
        var rest := ExtractLoop(o.state, entries[1..], outputDir, smallFileSize, policy,
                                Tail(drains), Contains(entries[0].name, PaxMarker));
        ProgressTransitive(st, o.state, rest.state);
        LoopRun(rest.state, rest.error, [skip] + rest.moves)
  }

  /** A loop that reads every entry counts each file entry once and leaves in
      the cache exactly the parent directories of the file entries. */
  lemma {:induction false} LoopTotals(st: Extraction, entries: seq<Entry>, outputDir: Path, smallFileSize: int,
                                      policy: RoutePolicy, drains: seq<seq<Path>>, skip: bool)
    ensures var r := ExtractLoop(st, entries, outputDir, smallFileSize, policy, drains, skip);
      r.error.None? ==>
        && r.state.filesCreated == st.filesCreated + FileCount(entries)
        && r.state.cache == st.cache + ParentDirs(entries, outputDir)
    decreases |entries|
  {
    if |entries| > 0 {
      var st0 := WorkerProgress(st, Head(drains));
      var o := ExtractEntry(st0, entries[0], outputDir, None, smallFileSize, policy);
      if o.error.None? {
        var next := Contains(entries[0].name, PaxMarker);
        var rest := ExtractLoop(o.state, entries[1..], outputDir, smallFileSize, policy, Tail(drains), next);
        assert ExtractLoop(st, entries, outputDir, smallFileSize, policy, drains, skip).state == rest.state;
        LoopTotals(o.state, entries[1..], outputDir, smallFileSize, policy, Tail(drains), next);
        EntryTotals(st0, entries[0], outputDir, smallFileSize, policy);
        UnionAssoc(st.cache, EntryDirs(entries[0], outputDir), ParentDirs(entries[1..], outputDir));
      }
    }
  }

  /** From an empty cache and zero counters, a complete loop counts the file
      entries and the distinct parent directories. */
  lemma FreshTotals(st: Extraction, entries: seq<Entry>, outputDir: Path, smallFileSize: int,
                    policy: RoutePolicy, drains: seq<seq<Path>>)
    requires st.cache == {} && st.filesCreated == 0 && st.dirsCreated == 0
    ensures var r := ExtractLoop(st, entries, outputDir, smallFileSize, policy, drains, false);
      r.error.None? ==>
        && r.state.filesCreated == FileCount(entries)
        && r.state.dirsCreated == |ParentDirs(entries, outputDir)|
  {
    var r := ExtractLoop(st, entries, outputDir, smallFileSize, policy, drains, false);
    LoopTotals(st, entries, outputDir, smallFileSize, policy, drains, false);
    assert r.state.cache - {} == r.state.cache;
  }

  /** What one entry adds to the file counter and to the directory cache. */
  lemma EntryTotals(st: Extraction, e: Entry, outputDir: Path, smallFileSize: int, policy: RoutePolicy)
    ensures var o := ExtractEntry(st, e, outputDir, None, smallFileSize, policy);
      && o.state.filesCreated == st.filesCreated + (if IsFile(e) then 1 else 0)
      && o.state.cache == st.cache + EntryDirs(e, outputDir)
  {
  }

  lemma UnionAssoc(a: set<Path>, b: set<Path>, c: set<Path>)
    ensures (a + b) + c == a + (b + c)
  {
  }

  /** Every `MoveNext` after the first skips exactly when the entry just
      processed has "PaxHeader" in its recorded name. */
  lemma {:induction false} SkipFlagsFollowPaxHeaders(entries: seq<Entry>, skip: bool)
    ensures |SkipFlags(entries, skip)| == |entries| + 1
    ensures SkipFlags(entries, skip)[0] == skip
    ensures forall i :: 1 <= i <= |entries| ==>
      SkipFlags(entries, skip)[i] == Contains(entries[i - 1].name, PaxMarker)
    decreases |entries|
  {
    if |entries| > 0 {
      var next := Contains(entries[0].name, PaxMarker);
      SkipFlagsFollowPaxHeaders(entries[1..], next);
      forall i | 2 <= i <= |entries|
        ensures SkipFlags(entries, skip)[i] == Contains(entries[i - 1].name, PaxMarker)
      {
        assert SkipFlags(entries, skip)[i] == SkipFlags(entries[1..], next)[i - 1];
        assert entries[1..][i - 2] == entries[i - 1];
      }
    }
  }

  /** The router never makes `Enqueue` fail for capacity when every entry
      yields its declared number of bytes. */
  lemma {:induction false} LoopNeverExceedsCapacity(st: Extraction, entries: seq<Entry>, outputDir: Path,
                                                    smallFileSize: int, policy: RoutePolicy,
                                                    drains: seq<seq<Path>>, skip: bool)
    requires forall i :: 0 <= i < |entries| ==> Consistent(entries[i])
    ensures ExtractLoop(st, entries, outputDir, smallFileSize, policy, drains, skip).error
            != Some(EnqueueFailed(WriteQueue.CapacityExceeded))
    decreases |entries|
  {
    if |entries| > 0 {
      var st0 := WorkerProgress(st, Head(drains));
      var o := ExtractEntry(st0, entries[0], outputDir, None, smallFileSize, policy);
      if o.error.None? {
        LoopNeverExceedsCapacity(o.state, entries[1..], outputDir, smallFileSize, policy, Tail(drains),
                                 Contains(entries[0].name, PaxMarker));
      }
    }
  }

  /** A started queue never reports the not-started error to the router. */
  lemma {:induction false} LoopStartedQueueIsStarted(st: Extraction, entries: seq<Entry>, outputDir: Path,
                                                     smallFileSize: int, policy: RoutePolicy,
                                                     drains: seq<seq<Path>>, skip: bool)
    requires st.queue.Some? && !st.queue.value.worker.NoWorker?
    ensures ExtractLoop(st, entries, outputDir, smallFileSize, policy, drains, skip).error
            != Some(EnqueueFailed(WriteQueue.NotStarted))
    decreases |entries|
  {
    if |entries| > 0 {
      var st0 := WorkerProgress(st, Head(drains));
      var o := ExtractEntry(st0, entries[0], outputDir, None, smallFileSize, policy);
      if o.error.None? {
        LoopStartedQueueIsStarted(o.state, entries[1..], outputDir, smallFileSize, policy, Tail(drains),
                                  Contains(entries[0].name, PaxMarker));
      }
    }
  }

  /** As written, a negative threshold sends every file to disk directly: the
      extraction cannot fail and the queue only ever loses pending entries. */
  lemma {:induction false} LoopDefaultThresholdBuffersNothing(st: Extraction, entries: seq<Entry>, outputDir: Path,
                                                              smallFileSize: int, drains: seq<seq<Path>>, skip: bool)
    requires smallFileSize < 0
    requires forall i :: 0 <= i < |entries| ==> entries[i].size >= 0
    ensures var r := ExtractLoop(st, entries, outputDir, smallFileSize, AsWritten, drains, skip);
      r.error.None? && (st.queue.Some? ==> r.state.queue.value.pending.Keys <= st.queue.value.pending.Keys)
    decreases |entries|
  {
    if |entries| > 0 {
      var st0 := WorkerProgress(st, Head(drains));
      assert st.queue.Some? ==> st0.queue.value.pending.Keys <= st.queue.value.pending.Keys;
      var o := ExtractEntry(st0, entries[0], outputDir, None, smallFileSize, AsWritten);
      LoopDefaultThresholdBuffersNothing(o.state, entries[1..], outputDir, smallFileSize, Tail(drains),
                                         Contains(entries[0].name, PaxMarker));
    }
  }

  // ---------------------------------------------------------------------
  // Entry point
  // ---------------------------------------------------------------------

  datatype Extracted = Extracted(
    disk: Disk,
    queue: Option<WriteQueue.Queue>,
    result: Result<UnTarResult, ExtractError>,
    moves: seq<bool>)

  /** The loop over entries for a fresh `UnTar` instance (empty cache, zero
      counters), packaged as the result or the error that ended it. */
  function Finish(entries: seq<Entry>, outputDir: Path, queue: Option<WriteQueue.Queue>, threshold: int,
                  policy: RoutePolicy, disk: Disk, drains: seq<seq<Path>>): (r: Extracted)
    ensures Grows(disk, r.disk)
    ensures r.queue.Some? == queue.Some?
    ensures r.result.Ok? ==>
      r.result.value == UnTarResult(FileCount(entries), |ParentDirs(entries, outputDir)|, outputDir)
    ensures r.result.Err? ==> r.result.error.EnqueueFailed? && 1 <= |r.moves| <= |entries|
    ensures r.result.Ok? ==> |r.moves| == |entries| + 1
    ensures r.moves <= SkipFlags(entries, false)
    ensures (forall i :: 0 <= i < |entries| ==> Consistent(entries[i])) ==>
      r.result != Err(EnqueueFailed(WriteQueue.CapacityExceeded))
    ensures queue.Some? && !queue.value.worker.NoWorker? ==>
      r.result != Err(EnqueueFailed(WriteQueue.NotStarted))
    ensures policy.AsWritten? && threshold < 0 && (forall i :: 0 <= i < |entries| ==> entries[i].size >= 0) ==>
      r.result.Ok? && (queue.Some? ==> r.queue.value.pending.Keys <= queue.value.pending.Keys)
  {
    var st := Extraction(disk, {}, 0, 0, queue);
    var run := ExtractLoop(st, entries, outputDir, threshold, policy, drains, false);
    FreshTotals(st, entries, outputDir, threshold, policy, drains);
    assert (forall i :: 0 <= i < |entries| ==> Consistent(entries[i])) ==>
      run.error != Some(EnqueueFailed(WriteQueue.CapacityExceeded)) by {
      if forall i :: 0 <= i < |entries| ==> Consistent(entries[i]) {
        LoopNeverExceedsCapacity(st, entries, outputDir, threshold, policy, drains, false);
      }
    }
    assert queue.Some? && !queue.value.worker.NoWorker? ==>
      run.error != Some(EnqueueFailed(WriteQueue.NotStarted)) by {
      if queue.Some? && !queue.value.worker.NoWorker? {
        LoopStartedQueueIsStarted(st, entries, outputDir, threshold, policy, drains, false);
      }
    }
    assert policy.AsWritten? && threshold < 0 && (forall i :: 0 <= i < |entries| ==> entries[i].size >= 0) ==>
      run.error.None? && (queue.Some? ==> run.state.queue.value.pending.Keys <= queue.value.pending.Keys) by {
      if policy.AsWritten? && threshold < 0 && (forall i :: 0 <= i < |entries| ==> entries[i].size >= 0) {
        LoopDefaultThresholdBuffersNothing(st, entries, outputDir, threshold, drains, false);
      }
    }
    Extracted(run.state.disk, run.state.queue,
              if run.error.Some? then Err(run.error.value)
              else Ok(UnTarResult(run.state.filesCreated, run.state.dirsCreated, outputDir)),
              run.moves)
  }

  /** `Extract` as written: the threshold is normalised, then compared with the
      queue's `MaxSize` without a null check, so a missing queue always fails
      before any entry is read. */
  function Extract(entries: seq<Entry>, outputDir: Path, queue: Option<WriteQueue.Queue>,
                   smallFileSize: int, disk: Disk, drains: seq<seq<Path>>): (r: Extracted)
    ensures queue.None? ==> r == Extracted(disk, None, Err(NullQueue), [])
    ensures r.queue.Some? == queue.Some?
    ensures queue.Some? && NormaliseThreshold(smallFileSize) > queue.value.maxSize ==>
      r == Extracted(disk, queue, Err(ThresholdTooLarge), [])
    ensures Grows(disk, r.disk)
    ensures r.result.Ok? ==>
      r.result.value == UnTarResult(FileCount(entries), |ParentDirs(entries, outputDir)|, outputDir)
    ensures r.result.Ok? ==> |r.moves| == |entries| + 1
    ensures r.moves <= SkipFlags(entries, false)
    ensures (forall i :: 0 <= i < |entries| ==> Consistent(entries[i])) ==>
      r.result != Err(EnqueueFailed(WriteQueue.CapacityExceeded))
    ensures queue.Some? && smallFileSize < 0 && queue.value.maxSize >= -1
            && (forall i :: 0 <= i < |entries| ==> entries[i].size >= 0) ==>
      r.result.Ok? && r.queue.Some? && r.queue.value.pending.Keys <= queue.value.pending.Keys
  {
    var threshold := NormaliseThreshold(smallFileSize);
    if queue.None? then Extracted(disk, queue, Err(NullQueue), [])
    else if threshold > queue.value.maxSize then Extracted(disk, queue, Err(ThresholdTooLarge), [])
    else Finish(entries, outputDir, queue, threshold, AsWritten, disk, drains)
  }

  /** `Extract` as documented: a missing queue disables buffering, and a
      negative threshold means "no threshold". */
  function ExtractCorrected(entries: seq<Entry>, outputDir: Path, queue: Option<WriteQueue.Queue>,
                            smallFileSize: int, disk: Disk, drains: seq<seq<Path>>): (r: Extracted)
    ensures queue.None? ==>
      r.result == Ok(UnTarResult(FileCount(entries), |ParentDirs(entries, outputDir)|, outputDir))
      && r.queue.None?
    ensures queue.Some? && NormaliseThreshold(smallFileSize) > queue.value.maxSize ==>
      r == Extracted(disk, queue, Err(ThresholdTooLarge), [])
    ensures Grows(disk, r.disk)
    ensures r.result.Ok? ==>
      r.result.value == UnTarResult(FileCount(entries), |ParentDirs(entries, outputDir)|, outputDir)
  {
    var threshold := NormaliseThreshold(smallFileSize);
    if queue.Some? && threshold > queue.value.maxSize then Extracted(disk, queue, Err(ThresholdTooLarge), [])
    else
      var r := Finish(entries, outputDir, queue, threshold, NoThresholdWhenNegative, disk, drains);
      assert queue.None? ==> r.result.Ok? by {
        if queue.None? {
          NoQueueNeverFails(Extraction(disk, {}, 0, 0, queue), entries, outputDir, threshold, drains, false);
        }
      }
      r
  }

  /** Without a queue every file is routed directly, so nothing can fail. */
  lemma {:induction false} NoQueueNeverFails(st: Extraction, entries: seq<Entry>, outputDir: Path,
                                             threshold: int, drains: seq<seq<Path>>, skip: bool)
    requires st.queue.None?
    ensures ExtractLoop(st, entries, outputDir, threshold, NoThresholdWhenNegative, drains, skip).error.None?
    decreases |entries|
  {
    if |entries| > 0 {
      var st0 := WorkerProgress(st, Head(drains));
      var o := ExtractEntry(st0, entries[0], outputDir, None, threshold, NoThresholdWhenNegative);
      NoQueueNeverFails(o.state, entries[1..], outputDir, threshold, Tail(drains),
                        Contains(entries[0].name, PaxMarker));
    }
  }

  /** Reference for the files an extraction writes directly: each file
      entry's destination mapped to the bytes of the last file entry with
      that destination. */
  function LastWrites(entries: seq<Entry>, outputDir: Path): map<Path, Bytes> {
    if |entries| == 0 then map[]
    else EntryWrite(entries[0], outputDir) + LastWrites(entries[1..], outputDir)
  }

  /** The file a file entry writes, as a one-element map. */
  function EntryWrite(e: Entry, outputDir: Path): map<Path, Bytes> {
    if IsFile(e) then map[FullPath(outputDir, e.name) := e.data] else map[]
  }

  /** Without a queue one entry cannot fail and writes exactly its own file. */
  lemma NoQueueEntryWrites(st: Extraction, e: Entry, outputDir: Path, threshold: int, policy: RoutePolicy)
    requires st.queue.None?
    ensures var o := ExtractEntry(st, e, outputDir, None, threshold, policy);
      && o.error.None? && o.state.queue.None?
      && o.state.disk.files == st.disk.files + EntryWrite(e, outputDir)
  {
    if IsFile(e) {
      NoQueueFileWrites(st, e, FullPath(outputDir, e.name), threshold, policy);
    } else {
      assert st.disk.files + map[] == st.disk.files;
    }
  }

  /** Without a queue a file entry is written directly to its destination. */
  lemma NoQueueFileWrites(st: Extraction, e: Entry, path: Path, threshold: int, policy: RoutePolicy)
    requires st.queue.None?
    ensures var o := ExtractFile(st, e, path, threshold, policy);
      && o.error.None? && o.state.queue.None?
      && o.state.disk.files == st.disk.files + map[path := e.data]
  {
    var o := ExtractFile(st, e, path, threshold, policy);
    assert RouteOf(policy, st.queue, e.size, threshold) == Direct;
    assert o.state.disk.files == st.disk.files[path := e.data];
    assert st.disk.files[path := e.data] == st.disk.files + map[path := e.data];
  }

  lemma MapUnionAssoc(a: map<Path, Bytes>, b: map<Path, Bytes>, c: map<Path, Bytes>)
    ensures (a + b) + c == a + (b + c)
  {
  }

  /** Without a queue every file is written directly: the files on disk after
      the loop are the earlier ones, overwritten by the last write to each
      destination, and nothing else. */
  lemma {:induction false} NoQueueWritesLastBytes(st: Extraction, entries: seq<Entry>, outputDir: Path,
                                                  threshold: int, policy: RoutePolicy,
                                                  drains: seq<seq<Path>>, skip: bool)
    requires st.queue.None?
    ensures ExtractLoop(st, entries, outputDir, threshold, policy, drains, skip).state.disk.files
            == st.disk.files + LastWrites(entries, outputDir)
    decreases |entries|
  {
    if |entries| == 0 {
      assert st.disk.files + map[] == st.disk.files;
    } else {
      var e := entries[0];
      assert WorkerProgress(st, Head(drains)) == st;
      var o := ExtractEntry(st, e, outputDir, None, threshold, policy);
      NoQueueEntryWrites(st, e, outputDir, threshold, policy);
      LoopStep(st, entries, outputDir, threshold, policy, drains, skip);
      NoQueueWritesLastBytes(o.state, entries[1..], outputDir, threshold, policy, Tail(drains),
                             Contains(e.name, PaxMarker));
      MapUnionAssoc(st.disk.files, EntryWrite(e, outputDir), LastWrites(entries[1..], outputDir));
    }
  }

  /** With a queue and a threshold that fits it, `Extract` is the loop run
      from a fresh instance: same disk, same queue, and it succeeds exactly
      when the loop does. */
  lemma ExtractIsLoop(entries: seq<Entry>, outputDir: Path, q: WriteQueue.Queue, smallFileSize: int,
                      disk: Disk, drains: seq<seq<Path>>)
    requires NormaliseThreshold(smallFileSize) <= q.maxSize
    ensures var run := ExtractLoop(Extraction(disk, {}, 0, 0, Some(q)), entries, outputDir,
                                   NormaliseThreshold(smallFileSize), AsWritten, drains, false);
      var r := Extract(entries, outputDir, Some(q), smallFileSize, disk, drains);
      && r.disk == run.state.disk && r.queue == run.state.queue
      && (r.result.Ok? <==> run.error.None?)
      && (run.error.Some? ==> r.result == Err(run.error.value))
  {
  }

  /** With the null check restored, extracting without a queue leaves on disk
      exactly the files that were there, overwritten by the bytes of the last
      file entry for each destination. */
  lemma ExtractCorrectedWritesLastBytes(entries: seq<Entry>, outputDir: Path, smallFileSize: int,
                                        disk: Disk, drains: seq<seq<Path>>)
    ensures ExtractCorrected(entries, outputDir, None, smallFileSize, disk, drains).disk.files
            == disk.files + LastWrites(entries, outputDir)
  {
    var threshold := NormaliseThreshold(smallFileSize);
    NoQueueWritesLastBytes(Extraction(disk, {}, 0, 0, None), entries, outputDir, threshold,
                           NoThresholdWhenNegative, drains, false);
  }

  /** As written: calling `Extract` without a queue, as its defaults allow,
      always fails, whatever the entries. */
  lemma ExtractWithoutQueueFails(entries: seq<Entry>, outputDir: Path, smallFileSize: int,
                                 disk: Disk, drains: seq<seq<Path>>)
    ensures Extract(entries, outputDir, None, smallFileSize, disk, drains).result == Err(NullQueue)
    ensures ExtractCorrected(entries, outputDir, None, smallFileSize, disk, drains).result.Ok?
  {
  }

  /** The loop's verdict is the first entry's error, or else the verdict on
      the remaining entries. */
  lemma LoopStep(st: Extraction, entries: seq<Entry>, outputDir: Path, smallFileSize: int,
                 policy: RoutePolicy, drains: seq<seq<Path>>, skip: bool)
    requires |entries| > 0
    ensures var o := ExtractEntry(WorkerProgress(st, Head(drains)), entries[0], outputDir, None,
                                  smallFileSize, policy);
      var r := ExtractLoop(st, entries, outputDir, smallFileSize, policy, drains, skip);
      && (o.error.Some? ==> r.error == o.error)
      && (o.error.None? ==>
            var rest := ExtractLoop(o.state, entries[1..], outputDir, smallFileSize, policy,
                                    Tail(drains), Contains(entries[0].name, PaxMarker));
            r.state == rest.state && r.error == rest.error)
  {
  }

  /** A file buffered twice in a row: the first submission is accepted, the
      second is refused as a duplicate. */
  lemma BufferedTwice(st: Extraction, file: Entry, outputDir: Path, smallFileSize: int)
    requires file.kind.File? && Consistent(file)
    requires st.queue.Some? && st.queue.value.worker.Running?
    requires st.queue.value.maxSize - st.queue.value.currentSize >= 2 * file.size
    requires 0 <= file.size <= smallFileSize <= st.queue.value.maxSize
    requires FullPath(outputDir, file.name) !in st.queue.value.pending
    ensures var o := ExtractEntry(st, file, outputDir, None, smallFileSize, AsWritten);
      && o.error.None?
      && ExtractEntry(o.state, file, outputDir, None, smallFileSize, AsWritten).error
         == Some(EnqueueFailed(WriteQueue.DuplicateName))
  {
    var q := st.queue.value;
    var o := ExtractEntry(st, file, outputDir, None, smallFileSize, AsWritten);
    assert RouteOf(AsWritten, Some(q), file.size, smallFileSize) == Buffered;
    assert WriteQueue.HasRoom(q, file.size);
    var q2 := o.state.queue.value;
    assert FullPath(outputDir, file.name) in q2.pending && q2.currentSize == q.currentSize + file.size;
    assert RouteOf(AsWritten, o.state.queue, file.size, smallFileSize) == Buffered;
    assert WriteQueue.HasRoom(q2, file.size);
  }

  /** A queue handed over while its worker holds a write: the worker finishes
      that write before the router reads the next entry, so a file that fits
      the queue and the threshold is accepted. */
  lemma InFlightWriteFinishesFirst(q: WriteQueue.Queue, e: Entry, outputDir: Path, threshold: int,
                                   disk: Disk, drains: seq<seq<Path>>)
    requires WriteQueue.Valid(q) && q.worker.Running? && q.pending == map[] && q.inFlight.Some?
    requires e.kind.File? && Consistent(e) && 0 <= e.size <= threshold <= q.maxSize
    ensures var r := Extract([e], outputDir, Some(q), threshold, disk, drains);
      && r.result.Ok?
      && r.queue.Some? && r.queue.value.inFlight.None?
      && r.queue.value.pending == map[FullPath(outputDir, e.name) := e.data]
  {
    var st := Extraction(disk, {}, 0, 0, Some(q));
    LoopStep(st, [e], outputDir, threshold, AsWritten, drains, false);
    BufferedAfterRelease(WorkerProgress(st, Head(drains)), e, outputDir, threshold);
    ExtractIsLoop([e], outputDir, q, threshold, disk, drains);
  }

  /** Once the worker has released the write it held, the queue is empty and
      a file that fits the threshold is accepted as the only pending entry. */
  lemma BufferedAfterRelease(st: Extraction, e: Entry, outputDir: Path, threshold: int)
    requires st.queue.Some? && WriteQueue.Valid(st.queue.value) && st.queue.value.worker.Running?
    requires st.queue.value.pending == map[] && st.queue.value.inFlight.None?
    requires e.kind.File? && Consistent(e) && 0 <= e.size <= threshold <= st.queue.value.maxSize
    ensures var o := ExtractEntry(st, e, outputDir, None, threshold, AsWritten);
      && o.error.None? && o.state.queue.Some? && o.state.queue.value.inFlight.None?
      && o.state.queue.value.pending == map[FullPath(outputDir, e.name) := e.data]
  {
    var q := st.queue.value;
    assert WriteQueue.SumSizes(q.pending) == 0;
    assert RouteOf(AsWritten, st.queue, e.size, threshold) == Buffered;
    assert WriteQueue.HasRoom(q, e.size);
  }



  /** The loop over two identical buffered file entries, with no worker
      progress in between, aborts on the second. */
  lemma BufferedTwiceAborts(st: Extraction, file: Entry, outputDir: Path, smallFileSize: int, skip: bool)
    requires file.kind.File? && Consistent(file)
    requires st.queue.Some? && st.queue.value.worker.Running? && st.queue.value.inFlight.None?
    requires st.queue.value.maxSize - st.queue.value.currentSize >= 2 * file.size
    requires 0 <= file.size <= smallFileSize <= st.queue.value.maxSize
    requires FullPath(outputDir, file.name) !in st.queue.value.pending
    ensures ExtractLoop(st, [file, file], outputDir, smallFileSize, AsWritten, [], skip).error
            == Some(EnqueueFailed(WriteQueue.DuplicateName))
  {
    assert WorkerProgress(st, []) == st;
    BufferedTwice(st, file, outputDir, smallFileSize);
    var o := ExtractEntry(st, file, outputDir, None, smallFileSize, AsWritten);
    assert WorkerProgress(o.state, []) == o.state;
    LoopStep(o.state, [file], outputDir, smallFileSize, AsWritten, [], Contains(file.name, PaxMarker));
    assert [file, file][1..] == [file];
    LoopStep(st, [file, file], outputDir, smallFileSize, AsWritten, [], skip);
  }

  /** Two file entries with the same name, buffered through a queue whose
      worker makes no progress in between: the second submission fails with
      the duplicate-name error and aborts the extraction. */
  lemma DuplicateBufferedFileAborts(q: WriteQueue.Queue, outputDir: Path, dirName: string, name: string,
                                    data: Bytes, smallFileSize: int, disk: Disk)
    requires q.worker.Running? && q.maxSize - q.currentSize >= 2 * |data|
    requires |data| <= smallFileSize <= q.maxSize
    requires FullPath(outputDir, name) !in q.pending
    ensures var entries := [Entry(dirName, Directory, 0, []),
                            Entry(name, File, |data|, data),
                            Entry(name, File, |data|, data)];
      Extract(entries, outputDir, Some(q), smallFileSize, disk, []).result
        == Err(EnqueueFailed(WriteQueue.DuplicateName))
  {
    var dirEntry := Entry(dirName, Directory, 0, []);
    var file := Entry(name, File, |data|, data);
    var entries := [dirEntry, file, file];
    var st := Extraction(disk, {}, 0, 0, Some(q));
    var st0 := WorkerProgress(st, []);
    var o1 := ExtractEntry(st0, dirEntry, outputDir, None, smallFileSize, AsWritten);
    assert o1.error.None? && o1.state.queue == st0.queue;
    BufferedTwiceAborts(o1.state, file, outputDir, smallFileSize, Contains(dirName, PaxMarker));
    LoopStep(st, entries, outputDir, smallFileSize, AsWritten, [], false);
    assert entries[1..] == [file, file];
    ExtractIsLoop(entries, outputDir, q, smallFileSize, disk, []);
  }
}
