/** The bounded background writer `AsyncFileWriteQueue` as a sequential state
    machine. Producers call `Enqueue`; one worker repeatedly takes a pending
    entry (`Take`) and later writes it and frees its bytes (`Release`). The two
    halves of a worker iteration are separate steps so that a caller can
    observe the queue while a write is in flight. Waiting is a millisecond
    counter advanced in 10 ms polls; a call never sees the worker make
    progress while it is polling, and worker progress between calls is an
    explicit step. */
module WriteQueue {
  import opened Common
  import opened FileSystem

  /** Length of one capacity poll in milliseconds. */
  const PollMs: int := 10

  /** The `_worker` task: none, a live drain loop, or a task that was created
      with an already-cancelled token and therefore never runs. */
  datatype Worker = NoWorker | Running | Canceled

  datatype Write = Write(path: Path, data: Bytes)

  datatype QueueError =
    | NotStarted        // InvalidOperationException: Start has not been called
    | CapacityExceeded  // InvalidOperationException: payload larger than MaxSize
    | DuplicateName     // DuplicateNameException
    | Timeout           // TimeoutException
    | TaskCanceled      // awaiting a worker task that was cancelled before it ran

  /** `accepted` is bookkeeping of the model only: for every path ever
      enqueued successfully, the bytes of its latest successful enqueue. */
  datatype Queue = Queue(
    maxSize: int,
    currentSize: int,
    pending: map<Path, Bytes>,
    inFlight: Option<Write>,
    worker: Worker,
    cancelRequested: bool,
    accepted: map<Path, Bytes>)

  // ---------------------------------------------------------------------
  // Bookkeeping invariant
  // ---------------------------------------------------------------------

  ghost function AnyKey(m: map<Path, Bytes>): (k: Path)
    requires m != map[]
    ensures k in m
  {
    assert exists k :: k in m by {
      assert m.Keys != {};
    }
    var k :| k in m; k
  }

  /** Total payload size of a map of pending writes. */
  ghost function SumSizes(m: map<Path, Bytes>): nat
    decreases |m|
  {
    if m == map[] then 0
    else
      var k := AnyKey(m);
      assert |m - {k}| < |m| by {
        assert (m - {k}).Keys == m.Keys - {k};
      }
      |m[k]| + SumSizes(m - {k})
  }

  /** Removing any key, not just the one `SumSizes` happens to pick, subtracts
      exactly that key's size. */
  lemma {:induction false} SumSizesRemove(m: map<Path, Bytes>, k: Path)
    requires k in m
    ensures SumSizes(m) == |m[k]| + SumSizes(m - {k})
    decreases |m|
  {
    var j := AnyKey(m);
    if j != k {
      assert (m - {j}).Keys == m.Keys - {j};
      assert (m - {k}).Keys == m.Keys - {k};
      SumSizesRemove(m - {j}, k);
      SumSizesRemove(m - {k}, j);
      assert m - {j} - {k} == m - {k} - {j};
    }
  }

  lemma SumSizesInsert(m: map<Path, Bytes>, k: Path, v: Bytes)
    requires k !in m
    ensures SumSizes(m[k := v]) == SumSizes(m) + |v|
  {
    SumSizesRemove(m[k := v], k);
    assert m[k := v] - {k} == m;
  }

  function InFlightSize(q: Queue): nat {
    if q.inFlight.Some? then |q.inFlight.value.data| else 0
  }

  /** Bytes the queue is holding: everything pending plus the entry being written. */
  ghost function Load(q: Queue): nat {
    SumSizes(q.pending) + InFlightSize(q)
  }

  /** `currentSize` is the sum of the pending sizes and the in-flight size, never
      exceeds `maxSize` once anything is held, and the worker flag agrees with
      the cancellation token. */
  ghost predicate Valid(q: Queue) {
    && q.currentSize == Load(q)
    && (q.currentSize == 0 || q.currentSize <= q.maxSize)
    && (q.inFlight.Some? ==> q.worker.Running?)
    && (q.worker.Running? ==> !q.cancelRequested)
    && (q.worker.Canceled? ==> q.cancelRequested)
  }

  /** Where the latest accepted bytes for `p` are: still pending, being
      written, or on disk. */
  ghost predicate Tracked(q: Queue, d: Disk, p: Path)
    requires p in q.accepted
  {
    if p in q.pending then q.pending[p] == q.accepted[p]
    else if q.inFlight.Some? && q.inFlight.value.path == p then q.inFlight.value.data == q.accepted[p]
    else p in d.files && d.files[p] == q.accepted[p]
  }

  /** No accepted write has been lost, given that nothing else writes to disk. */
  ghost predicate Persisted(q: Queue, d: Disk) {
    forall p :: p in q.accepted ==> Tracked(q, d, p)
  }

  // ---------------------------------------------------------------------
  // Operations
  // ---------------------------------------------------------------------

  /** The constructor: an empty, unstarted queue of the given capacity. */
  function New(maxSize: int): (q: Queue)
    ensures Valid(q)
    ensures q.maxSize == maxSize && q.currentSize == 0
    ensures q.pending == map[] && q.worker.NoWorker? && q.accepted == map[]
    ensures !q.cancelRequested && q.inFlight.None?
  {
    Queue(maxSize, 0, map[], None, NoWorker, false, map[])
  }

  /** `Start`: create the worker task. The cancellation token is never reset,
      so after a `Stop` the new task is already cancelled and never drains. */
  function Start(q: Queue): (q': Queue)
    requires q.worker.NoWorker?
    ensures !q'.worker.NoWorker?
    ensures q'.worker.Running? <==> !q.cancelRequested
    ensures q' == q.(worker := q'.worker)
    ensures Valid(q) ==> Valid(q')
  {
    q.(worker := if q.cancelRequested then Canceled else Running)
  }

  predicate HasRoom(q: Queue, allocate: int) {
    q.maxSize - q.currentSize >= allocate
  }

  /** `waited` is the first multiple of the poll interval past `timeoutMs`:
      the wait at which the capacity loop gives up. */
  ghost predicate FirstPollPast(timeoutMs: int, waited: int) {
    && waited >= 0
    && waited % PollMs == 0
    && timeoutMs < waited
    && (waited == 0 || waited - PollMs <= timeoutMs)
  }

  datatype WaitResult = WaitResult(error: Option<QueueError>, waitedMs: int)

  /** The capacity loop from `waited` on, with the queue standing still. */
  function PollRoom(q: Queue, allocate: int, timeoutMs: int, waited: int): (r: WaitResult)
    requires waited >= 0 && waited % PollMs == 0
    requires waited == 0 || waited - PollMs <= timeoutMs
    ensures HasRoom(q, allocate) ==> r == WaitResult(None, waited)
    ensures !HasRoom(q, allocate) ==> r.error == Some(Timeout) && FirstPollPast(timeoutMs, r.waitedMs)
    decreases if waited > timeoutMs then 0 else timeoutMs - waited + 1
  {
    if HasRoom(q, allocate) then WaitResult(None, waited)
    else if waited > timeoutMs then WaitResult(Some(Timeout), waited)
    else PollRoom(q, allocate, timeoutMs, waited + PollMs)
  }

  /** `WaitForRoom`: refuse without a worker, refuse a request larger than the
      whole buffer before any wait, return at once when there is room, and
      otherwise poll until the accumulated wait exceeds the timeout. */
  function WaitForRoom(q: Queue, allocate: int, timeoutMs: int): (r: WaitResult)
    ensures r.error == Some(NotStarted) <==> q.worker.NoWorker?
    ensures r.error == Some(CapacityExceeded) <==> !q.worker.NoWorker? && allocate > q.maxSize
    ensures r.error == Some(Timeout) <==>
      !q.worker.NoWorker? && allocate <= q.maxSize && !HasRoom(q, allocate)
    ensures r.error.None? <==> !q.worker.NoWorker? && allocate <= q.maxSize && HasRoom(q, allocate)
    ensures r.error != Some(Timeout) ==> r.waitedMs == 0
    ensures r.error == Some(Timeout) ==> FirstPollPast(timeoutMs, r.waitedMs)
  {
    if q.worker.NoWorker? then WaitResult(Some(NotStarted), 0)
    else if allocate > q.maxSize then WaitResult(Some(CapacityExceeded), 0)
    else PollRoom(q, allocate, timeoutMs, 0)
  }

  datatype Outcome = Outcome(queue: Queue, error: Option<QueueError>, waitedMs: int)

  /** `Enqueue`: the started check, the wait for room, then under the lock the
      duplicate check and the insert. Every failure leaves the queue as it was;
      success adds exactly `path -> data` and `|data|` bytes. */
  function Enqueue(q: Queue, path: Path, data: Bytes, timeoutMs: int): (r: Outcome)
    ensures r.error == Some(NotStarted) <==> q.worker.NoWorker?
    ensures r.error == Some(CapacityExceeded) <==> !q.worker.NoWorker? && |data| > q.maxSize
    ensures r.error == Some(Timeout) <==>
      !q.worker.NoWorker? && |data| <= q.maxSize && !HasRoom(q, |data|)
    ensures r.error == Some(DuplicateName) <==>
      !q.worker.NoWorker? && |data| <= q.maxSize && HasRoom(q, |data|) && path in q.pending
    ensures r.error.None? <==>
      !q.worker.NoWorker? && |data| <= q.maxSize && HasRoom(q, |data|) && path !in q.pending
    ensures r.error.Some? ==> r.queue == q
    ensures r.error != Some(Timeout) ==> r.waitedMs == 0
    ensures r.error == Some(Timeout) ==> FirstPollPast(timeoutMs, r.waitedMs)
    ensures r.error.None? ==>
      && r.queue.pending.Keys == q.pending.Keys + {path}
      && r.queue.pending[path] == data
      && (forall p :: p in q.pending ==> r.queue.pending[p] == q.pending[p])
      && r.queue.currentSize == q.currentSize + |data|
      && r.queue.currentSize <= r.queue.maxSize
      && r.queue == q.(pending := r.queue.pending, currentSize := r.queue.currentSize,
                       accepted := q.accepted[path := data])
  {
    if q.worker.NoWorker? then
      Outcome(q, Some(NotStarted), 0)
    else
      var w := WaitForRoom(q, |data|, timeoutMs);
      if w.error.Some? then Outcome(q, w.error, w.waitedMs)
      else if path in q.pending then Outcome(q, Some(DuplicateName), 0)
      else
        Outcome(q.(pending := q.pending[path := data],
                   currentSize := q.currentSize + |data|,
                   accepted := q.accepted[path := data]), None, 0)
  }

  /** First half of a worker iteration: under the lock, remove the entry the
      dictionary enumerates first (`key`, an arbitrary pending path) and hold
      it as the in-flight write. The byte count is not yet released. */
  function Take(q: Queue, key: Path): (q': Queue)
    requires q.worker.Running? && q.inFlight.None? && key in q.pending
    ensures q'.pending == q.pending - {key}
    ensures q'.inFlight == Some(Write(key, q.pending[key]))
    ensures q' == q.(pending := q'.pending, inFlight := q'.inFlight)
  {
    q.(pending := q.pending - {key}, inFlight := Some(Write(key, q.pending[key])))
  }

  /** Second half of a worker iteration: write the in-flight bytes with
      overwrite semantics, then release exactly their length. */
  function Release(q: Queue, d: Disk): (r: (Queue, Disk))
    requires q.inFlight.Some?
    ensures r.1 == WriteAllBytes(d, q.inFlight.value.path, q.inFlight.value.data)
    ensures r.0.currentSize == q.currentSize - |q.inFlight.value.data|
    ensures r.0 == q.(inFlight := None, currentSize := r.0.currentSize)
  {
    var w := q.inFlight.value;
    (q.(inFlight := None, currentSize := q.currentSize - |w.data|), WriteAllBytes(d, w.path, w.data))
  }

  /** `HasWork`: something is pending. An entry already taken by the worker
      does not count, even while its bytes are not yet on disk. */
  function HasWork(q: Queue): (b: bool)
    ensures b <==> exists p :: p in q.pending
    ensures Valid(q) && !b ==> q.currentSize == InFlightSize(q)
  {
    assert q.pending == map[] ==> SumSizes(q.pending) == 0;
    |q.pending| > 0
  }

  /** `WaitComplete` returns exactly when `HasWork` is false; with the queue
      standing still it otherwise never returns. On return the only bytes
      still held are those of a write in flight. */
  function WaitCompleteReturns(q: Queue): (r: bool)
    ensures r <==> forall p :: p !in q.pending
    ensures r && Valid(q) ==> q.currentSize == InFlightSize(q)
  {
    !HasWork(q)
  }

  datatype Stopped = Stopped(queue: Queue, disk: Disk, error: Option<QueueError>)

  /** `Stop`: without a worker, nothing happens. With a running worker, cancel
      it, let an in-flight write finish, and forget the worker task; pending entries
      are abandoned. Awaiting a task that was cancelled before it ran throws,
      and the worker task is kept. */
  function Stop(q: Queue, d: Disk): (r: Stopped)
    ensures q.worker.NoWorker? ==> r == Stopped(q, d, None)
    ensures q.worker.Canceled? ==> r == Stopped(q, d, Some(TaskCanceled))
    ensures q.worker.Running? ==>
      && r.error.None?
      && r.queue.worker.NoWorker? && r.queue.cancelRequested
      && r.queue.inFlight.None?
      && r.queue.pending == q.pending
      && r.queue.maxSize == q.maxSize
      && r.queue.accepted == q.accepted
      && (q.inFlight.Some? ==> r.disk == WriteAllBytes(d, q.inFlight.value.path, q.inFlight.value.data)
                               && r.queue.currentSize == q.currentSize - |q.inFlight.value.data|)
      && (q.inFlight.None? ==> r.disk == d && r.queue.currentSize == q.currentSize)
  {
    match q.worker
    case NoWorker => Stopped(q, d, None)
    case Canceled => Stopped(q, d, Some(TaskCanceled))
    case Running =>
      var (q1, d1) := if q.inFlight.Some? then Release(q, d) else (q, d);
      Stopped(q1.(worker := NoWorker, cancelRequested := true), d1, None)
  }

  /** The pending entries whose path is listed in `keys`. */
  function Listed(pending: map<Path, Bytes>, keys: seq<Path>): map<Path, Bytes> {
    map k | k in pending && k in keys :: pending[k]
  }

  /** The disk once the write in flight, if any, has finished. */
  function Finished(q: Queue, d: Disk): Disk {
    if q.inFlight.Some? then WriteAllBytes(d, q.inFlight.value.path, q.inFlight.value.data) else d
  }

  /** Worker progress between two producer calls. A running worker first
      finishes the write it holds, then performs one complete take-and-write
      iteration for each listed path still pending. Other paths are skipped.
      Without a running worker nothing happens. */
  function Drain(q: Queue, d: Disk, keys: seq<Path>): (r: (Queue, Disk))
    ensures r.0.maxSize == q.maxSize && r.0.worker == q.worker
    ensures r.0.cancelRequested == q.cancelRequested && r.0.accepted == q.accepted
    ensures r.0.pending.Keys <= q.pending.Keys
    ensures r.0.currentSize <= q.currentSize
    ensures Grows(d, r.1)
    ensures Valid(q) ==> Valid(r.0)
    ensures Valid(q) && Persisted(q, d) ==> Persisted(r.0, r.1)
    ensures !q.worker.Running? ==> r == (q, d)
    ensures q.worker.Running? ==>
      && r.0.inFlight.None?
      && r.0.pending == q.pending - (set k | k in keys)
      && r.1.files == Finished(q, d).files + Listed(q.pending, keys)
      && r.1.dirs == d.dirs
  {
    if q.worker.Running? && q.inFlight.Some? then
      var (q1, d1) := Release(q, d);
      assert Valid(q) ==> Valid(q1) && (Persisted(q, d) ==> Persisted(q1, d1)) by {
        if Valid(q) {
          ReleasePreserves(q, d);
        }
      }
      DrainKeysRemoves(q1, d1, keys);
      DrainKeysWrites(q1, d1, keys);
      DrainKeys(q1, d1, keys)
    else
      DrainKeysRemoves(q, d, keys);
      if q.worker.Running? then
        DrainKeysWrites(q, d, keys);
        DrainKeys(q, d, keys)
      else DrainKeys(q, d, keys)
  }

  /** The take-and-write iterations of `Drain`, once nothing is in flight. */
  function DrainKeys(q: Queue, d: Disk, keys: seq<Path>): (r: (Queue, Disk))
    requires q.worker.Running? ==> q.inFlight.None?
    ensures r.0.maxSize == q.maxSize && r.0.worker == q.worker
    ensures r.0.cancelRequested == q.cancelRequested && r.0.accepted == q.accepted
    ensures r.0.pending.Keys <= q.pending.Keys
    ensures r.0.currentSize <= q.currentSize
    ensures q.worker.Running? ==> r.0.inFlight.None?
    ensures Grows(d, r.1)
    ensures Valid(q) ==> Valid(r.0)
    ensures Valid(q) && Persisted(q, d) ==> Persisted(r.0, r.1)
    decreases |keys|
  {
    if |keys| == 0 then (q, d)
    else if q.worker.Running? && keys[0] in q.pending then
      var (q1, d1) := Release(Take(q, keys[0]), d);
      DrainStepPreserves(q, d, keys[0]);
      DrainKeys(q1, d1, keys[1..])
    else DrainKeys(q, d, keys[1..])
  }

  /** Without a running worker the iterations do nothing; a running worker
      removes every listed path from the pending map. */
  lemma {:induction false} DrainKeysRemoves(q: Queue, d: Disk, keys: seq<Path>)
    requires q.worker.Running? ==> q.inFlight.None?
    ensures !q.worker.Running? ==> DrainKeys(q, d, keys) == (q, d)
    ensures q.worker.Running? ==> DrainKeys(q, d, keys).0.pending == q.pending - (set k | k in keys)
    decreases |keys|
  {
    if |keys| == 0 {
      assert (set k | k in keys) == {};
      assert q.pending - {} == q.pending;
    } else if q.worker.Running? && keys[0] in q.pending {
      var (q1, d1) := Release(Take(q, keys[0]), d);
      DrainKeysRemoves(q1, d1, keys[1..]);
      ListedKeysStep(keys);
    } else {
      DrainKeysRemoves(q, d, keys[1..]);
      ListedKeysStep(keys);
    }
  }

  /** A running worker leaves the bytes of every listed pending path on
      disk, and touches nothing else. */
  lemma {:induction false} DrainKeysWrites(q: Queue, d: Disk, keys: seq<Path>)
    requires q.worker.Running? && q.inFlight.None?
    ensures DrainKeys(q, d, keys).1.files == d.files + Listed(q.pending, keys)
    ensures DrainKeys(q, d, keys).1.dirs == d.dirs
    decreases |keys|
  {
    if |keys| == 0 {
      assert Listed(q.pending, keys) == map[];
      assert d.files + map[] == d.files;
    } else if keys[0] in q.pending {
      var (q1, d1) := Release(Take(q, keys[0]), d);
      DrainKeysWrites(q1, d1, keys[1..]);
      ListedTake(q.pending, keys);
      UpdateThenUnion(d.files, keys[0], q.pending[keys[0]], Listed(q1.pending, keys[1..]));
    } else {
      DrainKeysWrites(q, d, keys[1..]);
      ListedSkip(q.pending, keys);
    }
  }

  lemma ListedKeysStep(keys: seq<Path>)
    requires |keys| > 0
    ensures (set k | k in keys) == {keys[0]} + (set k | k in keys[1..])
  {
    assert keys == [keys[0]] + keys[1..];
  }

  /** Taking the first listed path moves it out of the listed remainder. */
  lemma ListedTake(pending: map<Path, Bytes>, keys: seq<Path>)
    requires |keys| > 0 && keys[0] in pending
    ensures keys[0] !in Listed(pending - {keys[0]}, keys[1..])
    ensures Listed(pending, keys) == Listed(pending - {keys[0]}, keys[1..])[keys[0] := pending[keys[0]]]
  {
    assert keys == [keys[0]] + keys[1..];
  }

  /** A listed path that is not pending contributes nothing. */
  lemma ListedSkip(pending: map<Path, Bytes>, keys: seq<Path>)
    requires |keys| > 0 && keys[0] !in pending
    ensures Listed(pending, keys[1..]) == Listed(pending, keys)
  {
    assert keys == [keys[0]] + keys[1..];
  }

  lemma UpdateThenUnion(a: map<Path, Bytes>, k: Path, v: Bytes, b: map<Path, Bytes>)
    requires k !in b
    ensures a[k := v] + b == a + b[k := v]
  {
  }

  // ---------------------------------------------------------------------
  // Each step preserves the invariants
  // ---------------------------------------------------------------------

  lemma EnqueuePreserves(q: Queue, d: Disk, path: Path, data: Bytes, timeoutMs: int)
    requires Valid(q) && Persisted(q, d)
    ensures Valid(Enqueue(q, path, data, timeoutMs).queue)
    ensures Persisted(Enqueue(q, path, data, timeoutMs).queue, d)
  {
    var r := Enqueue(q, path, data, timeoutMs);
    if r.error.None? {
      SumSizesInsert(q.pending, path, data);
      var q' := r.queue;
      forall p | p in q'.accepted
        ensures Tracked(q', d, p)
      {
        if p != path {
          assert Tracked(q, d, p);
        }
      }
    }
  }

  lemma DrainStepPreserves(q: Queue, d: Disk, key: Path)
    requires q.worker.Running? && q.inFlight.None? && key in q.pending
    ensures Valid(q) ==> Valid(Release(Take(q, key), d).0)
    ensures Valid(q) && Persisted(q, d) ==>
      Persisted(Release(Take(q, key), d).0, Release(Take(q, key), d).1)
  {
    if Valid(q) {
      TakePreserves(q, d, key);
      ReleasePreserves(Take(q, key), d);
    }
  }

  lemma TakePreserves(q: Queue, d: Disk, key: Path)
    requires Valid(q)
    requires q.worker.Running? && q.inFlight.None? && key in q.pending
    ensures Valid(Take(q, key))
    ensures Persisted(q, d) ==> Persisted(Take(q, key), d)
  {
    SumSizesRemove(q.pending, key);
    var q' := Take(q, key);
    forall p | p in q'.accepted && Persisted(q, d)
      ensures Tracked(q', d, p)
    {
      assert Tracked(q, d, p);
    }
  }

  lemma ReleasePreserves(q: Queue, d: Disk)
    requires Valid(q) && q.inFlight.Some?
    ensures Valid(Release(q, d).0)
    ensures Persisted(q, d) ==> Persisted(Release(q, d).0, Release(q, d).1)
  {
    var (q', d') := Release(q, d);
    forall p | p in q'.accepted && Persisted(q, d)
      ensures Tracked(q', d', p)
    {
      assert Tracked(q, d, p);
    }
  }

  lemma StopPreserves(q: Queue, d: Disk)
    requires Valid(q) && Persisted(q, d)
    ensures Valid(Stop(q, d).queue) && Persisted(Stop(q, d).queue, Stop(q, d).disk)
  {
    if q.worker.Running? && q.inFlight.Some? {
      ReleasePreserves(q, d);
      var (q1, d1) := Release(q, d);
      assert Stop(q, d).queue == q1.(worker := NoWorker, cancelRequested := true);
      forall p | p in q1.accepted
        ensures Tracked(Stop(q, d).queue, d1, p)
      {
        assert Tracked(q1, d1, p);
      }
    }
  }

  /** The producer's and the worker's calls, as steps of one state machine. */
  datatype Action =
    | StartWorker
    | EnqueueFile(path: Path, data: Bytes, timeoutMs: int)
    | TakeEntry(key: Path)
    | ReleaseEntry
    | StopWorker

  predicate Enabled(q: Queue, a: Action) {
    match a
    case StartWorker => q.worker.NoWorker?
    case TakeEntry(key) => q.worker.Running? && q.inFlight.None? && key in q.pending
    case ReleaseEntry => q.inFlight.Some?
    case _ => true
  }

  function Next(q: Queue, d: Disk, a: Action): (Queue, Disk)
    requires Enabled(q, a)
  {
    match a
    case StartWorker => (Start(q), d)
    case EnqueueFile(path, data, t) => (Enqueue(q, path, data, t).queue, d)
    case TakeEntry(key) => (Take(q, key), d)
    case ReleaseEntry => Release(q, d)
    case StopWorker => var s := Stop(q, d); (s.queue, s.disk)
  }

  /** Every enabled step keeps the size bookkeeping and loses no accepted
      write: `0 <= currentSize <= maxSize` and `currentSize` equals the
      pending sizes plus the in-flight size after every step. */
  lemma NextPreserves(q: Queue, d: Disk, a: Action)
    requires Valid(q) && Persisted(q, d) && Enabled(q, a)
    ensures Valid(Next(q, d, a).0) && Persisted(Next(q, d, a).0, Next(q, d, a).1)
  {
    match a
    case StartWorker =>
      assert Start(q).accepted == q.accepted && Start(q).pending == q.pending;
      assert Start(q).inFlight == q.inFlight;
      forall p | p in q.accepted
        ensures Tracked(Start(q), d, p)
      {
        assert Tracked(q, d, p);
      }
    case EnqueueFile(path, data, t) => EnqueuePreserves(q, d, path, data, t);
    case TakeEntry(key) => TakePreserves(q, d, key);
    case ReleaseEntry => ReleasePreserves(q, d);
    case StopWorker => StopPreserves(q, d);
  }

  /** A run of steps from a state; steps not enabled are skipped. */
  function Run(q: Queue, d: Disk, actions: seq<Action>): (Queue, Disk)
    decreases |actions|
  {
    if |actions| == 0 then (q, d)
    else
      var (q1, d1) := if Enabled(q, actions[0]) then Next(q, d, actions[0]) else (q, d);
      Run(q1, d1, actions[1..])
  }

  /** With one sequential producer, a queue of non-negative capacity stays
      within `0 <= currentSize <= maxSize` whatever steps are taken. */
  lemma {:induction false} RunKeepsBounds(q: Queue, d: Disk, actions: seq<Action>)
    requires Valid(q) && Persisted(q, d) && q.maxSize >= 0
    ensures Valid(Run(q, d, actions).0) && Persisted(Run(q, d, actions).0, Run(q, d, actions).1)
    ensures 0 <= Run(q, d, actions).0.currentSize <= Run(q, d, actions).0.maxSize
    ensures Run(q, d, actions).0.maxSize == q.maxSize
    decreases |actions|
  {
    if |actions| > 0 {
      var (q1, d1) := if Enabled(q, actions[0]) then Next(q, d, actions[0]) else (q, d);
      if Enabled(q, actions[0]) {
        NextPreserves(q, d, actions[0]);
        MaxSizeFixed(q, d, actions[0]);
      }
      RunKeepsBounds(q1, d1, actions[1..]);
    }
  }

  lemma MaxSizeFixed(q: Queue, d: Disk, a: Action)
    requires Enabled(q, a)
    ensures Next(q, d, a).0.maxSize == q.maxSize
  {
  }

  // ---------------------------------------------------------------------
  // Lifecycle
  // ---------------------------------------------------------------------

  /** A second `Stop` after a successful one finds no worker and does nothing. */
  lemma StopIsIdempotent(q: Queue, d: Disk)
    requires Stop(q, d).error.None?
    ensures Stop(Stop(q, d).queue, Stop(q, d).disk) == Stop(q, d)
  {
  }

  /** Once stopped (or never started), the queue refuses every submission with
      the not-started error and changes nothing. */
  lemma StoppedQueueRefusesWork(q: Queue, d: Disk, path: Path, data: Bytes, allocate: int, timeoutMs: int)
    requires !q.worker.Canceled?
    ensures Stop(q, d).error.None?
    ensures Enqueue(Stop(q, d).queue, path, data, timeoutMs) == Outcome(Stop(q, d).queue, Some(NotStarted), 0)
    ensures WaitForRoom(Stop(q, d).queue, allocate, timeoutMs) == WaitResult(Some(NotStarted), 0)
  {
  }

  /** Starting again after a `Stop` yields a worker that never takes an entry,
      whose own `Stop` throws, and past which nothing is ever drained. */
  lemma RestartAfterStopNeverDrains(q: Queue, d: Disk, keys: seq<Path>)
    requires q.worker.Running?
    ensures Start(Stop(q, d).queue).worker.Canceled?
    ensures forall k :: !Enabled(Start(Stop(q, d).queue), TakeEntry(k))
    ensures Stop(Start(Stop(q, d).queue), d).error == Some(TaskCanceled)
    ensures Drain(Start(Stop(q, d).queue), d, keys).0.pending == q.pending
  {
  }

  // ---------------------------------------------------------------------
  // WaitComplete and in-flight writes
  // ---------------------------------------------------------------------

  /** As written: on a started, idle queue, one successful `Enqueue` and one
      `Take` reach a state where `WaitComplete` returns although the bytes
      are not on disk yet. */
  lemma WaitCompleteReturnsMidWrite(q: Queue, d: Disk, path: Path, data: Bytes)
    requires Valid(q) && q.worker.Running? && q.pending == map[] && q.inFlight.None?
    requires |data| <= q.maxSize - q.currentSize && path !in d.files
    ensures var e := Enqueue(q, path, data, 0);
            && e.error.None?
            && var taken := Take(e.queue, path);
            && WaitCompleteReturns(taken)
            && !IsDrained(taken)
            && path in taken.accepted && path !in d.files
  {
    assert HasRoom(q, |data|);
  }

  /** Nothing pending and nothing in flight: the condition `WaitComplete` was
      meant to wait for. */
  function IsDrained(q: Queue): (drained: bool)
    ensures drained ==> WaitCompleteReturns(q)
  {
    q.pending == map[] && q.inFlight.None?
  }

  /** Once drained, every path ever enqueued holds on disk the bytes of its
      latest successful enqueue. */
  lemma DrainedMeansPersisted(q: Queue, d: Disk)
    requires Valid(q) && Persisted(q, d) && IsDrained(q)
    ensures forall p :: p in q.accepted ==> p in d.files && d.files[p] == q.accepted[p]
  {
    forall p | p in q.accepted
      ensures p in d.files && d.files[p] == q.accepted[p]
    {
      assert Tracked(q, d, p);
    }
  }

  /** `WaitComplete` followed by `Stop` (the order the callers use) does reach
      the drained state: `Stop` finishes the write still in flight. */
  lemma WaitCompleteThenStopPersists(q: Queue, d: Disk)
    requires Valid(q) && Persisted(q, d) && q.worker.Running?
    requires WaitCompleteReturns(q)
    ensures IsDrained(Stop(q, d).queue)
    ensures forall p :: p in q.accepted ==> p in Stop(q, d).disk.files && Stop(q, d).disk.files[p] == q.accepted[p]
  {
    StopPreserves(q, d);
    DrainedMeansPersisted(Stop(q, d).queue, Stop(q, d).disk);
  }

  // ---------------------------------------------------------------------
  // Capacity scenario
  // ---------------------------------------------------------------------

  function Zeros(n: nat): (b: Bytes)
    ensures |b| == n
  {
    seq(n, _ => 0)
  }

  /** On a started, empty queue of 1024 bytes whose worker makes no progress,
      a 2000-byte payload is refused outright, a 500-byte one is accepted,
      and a 600-byte one with a 50 ms timeout gives up after six polls with
      the buffer still holding 500 bytes. */
  lemma CapacityScenario(q: Queue)
    requires q.worker.Running? && q.currentSize == 0 && q.maxSize == 1024 && q.pending == map[]
    ensures var big := Enqueue(q, "big", Zeros(2000), 50);
            var first := Enqueue(q, "first", Zeros(500), 50);
            var second := Enqueue(first.queue, "second", Zeros(600), 50);
            && big == Outcome(q, Some(CapacityExceeded), 0)
            && first.error.None? && first.queue.currentSize == 500
            && second.error == Some(Timeout) && second.waitedMs == 60
            && second.queue.currentSize == 500
  {
    var first := Enqueue(q, "first", Zeros(500), 50);
    assert HasRoom(q, 500);
    var second := Enqueue(first.queue, "second", Zeros(600), 50);
    assert !HasRoom(first.queue, 600);
    var w := second.waitedMs;
    assert 50 < w <= 60 && w % PollMs == 0;
  }
}
