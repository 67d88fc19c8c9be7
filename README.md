# Versioned and optimistic in-memory stores, modelled in Dafny

This project models four small Go programs. Each is its own `package main`, and each becomes its own Dafny module.

- `Occ` (`occ.go`) is a record store with optimistic concurrency control. A `Database` maps an id to a `Record{ID, Value, Version}`. `AddRecord` stores a fresh record at version 1 and overwrites any record already there. `ReadRecord` returns the stored record object itself. `UpdateRecord` is a compare-and-set. It writes the value and bumps the version only when the caller's expected version is still current.
- `Mvcc` (`mvcc.go`) is a multi-version store with timestamps supplied by the caller. `Write` appends `(timestamp, value)` to the key's history and accepts any timestamp. `Read(key, t)` sorts the key's history in place, newest first. It then returns the first version stamped at or before `t`.
- `MvccMetrics` (`mvcc_metrics.go`) is a multi-version store stamped by the clock. `Read` scans the history from the last append backwards, without sorting. `CollectMetrics` walks every key and version and reports three figures. These are the key count, the version count, and an approximate byte size: key lengths, plus value lengths, plus 8 bytes per timestamp.
- `OccMetrics` (`occ_metrics.go`) holds three push-based counters. Each counter is changed by exactly one method.

The Go types that are updated in place are Dafny classes: `Database` with its `Record` objects, both `MvccStore`s, and `StorageMetrics` in `occ_metrics.go`. Their methods state the whole new state. In `Occ` and `OccMetrics` they do this through a view function (`View`, `Current`) tied to pure specification functions (`Added`, `Updated`, `Step`). Lemmas about those functions state the properties that span several calls. Every method is one atomic step; the mutexes themselves are not modelled. Each `main` becomes a client method that runs the demo and proves its outcome.

In one place the design intent and the code differ. The intent is that `ReadRecord` returns a detached snapshot; the code returns the live `*Record`. The model follows the code, and the consequence is recorded under Findings. In a second place the code is narrower than a loose reading of the intent. `CollectMetrics` counts a key's length once per key, not once per version. The model follows the code.

## Model

| member | source | states |
|---|---|---|
| Occ.AddedResets | occ.go:26-30 | After AddRecord, the record at `id` is `(id, value, 1)` even if its version was higher before. No other id changes. The store stays keyed by id. |
| Occ.UpdateIsCompareAndSet | occ.go:39-49 | The update succeeds exactly when `id` is present at the expected version. On success the record becomes `(id, value, version + 1)`, with the id kept. On failure the store is unchanged. No other id moves. |
| Occ.NoLostUpdate | occ.go:42-48 | After an update at `version` succeeds, a second update presenting the same version fails. The first value stays. |
| Occ.ConcurrentUpdatesExactlyOne | occ.go:42-48 | Two clients read the same version and both update. Both orders are stated, client 1's value first or client 2's first. In each, the two never both succeed, and exactly one succeeds when the version they read is current. |
| Occ.VersionCountsSuccesses | occ.go:46-47 | After any sequence of updates, a record's version is its old version plus the number of updates that succeeded on it. So it never decreases, and an unchanged version means an unchanged record. |
| Occ.Record.constructor | occ.go:29 | A new record carries the given id, value and version. |
| Occ.Database.constructor | occ.go:20-24 | NewDatabase yields an empty store. |
| Occ.Database.AddRecord | occ.go:26-30 | The new contents are exactly `Added(old contents, id, value)`, and the store stays keyed by id. A freshly allocated record is stored at `id`, replacing any old object there. Every other id keeps the very object it held, so aliases to other records stay live. |
| Occ.Database.ReadRecord | occ.go:32-37 | `found` holds iff `id` is stored. It returns the stored object itself, or null when absent, and changes nothing. |
| Occ.Database.ReadSnapshot | occ.go:32-37 | The corrected read. It returns a copy of the record's fields when `id` is stored, or `(0, "", 0)` and not-found when absent. |
| Occ.Database.UpdateRecord | occ.go:39-49 | `ok` holds iff `Accepts(old contents, id, version)`. The new contents are `Updated(old contents, id, value, version)`. The id-to-object map is unchanged. |
| Occ.SequentialClients | occ.go:51-84 | In the demo's own order, where client 2 reads only after client 1 has updated, both updates succeed. The record ends as `(1, "Updated by Client 2", 3)`. |
| Occ.AliasedClients | occ.go:58-81 | Both clients read, client 2 updates, then client 1 takes the version from its aliased record. Both updates succeed, and client 2's value is silently overwritten. |
| Occ.SnapshotClients | occ.go:58-81 | In the same interleaving with snapshots, client 1 is rejected. Client 2's value stays, at version 2. |
| Mvcc.InsertDesc | mvcc.go:33-35 | Inserting into a newest-first sequence keeps it newest first. It adds exactly one element to the multiset. |
| Mvcc.SortByTimestampDesc | mvcc.go:33-35 | The result is a permutation of the input, sorted by timestamp descending. No order among equal timestamps is promised. |
| Mvcc.FirstAtOrBefore | mvcc.go:36-41 | It finds a value iff some version has timestamp ≤ t. The value is that of the first such version, and every earlier version is newer than t. Otherwise it returns `""`. |
| Mvcc.FirstVisibleIsLatest | mvcc.go:33-39 | In a newest-first sequence, the first version stamped ≤ t carries the greatest timestamp ≤ t. |
| Mvcc.LatestAtPermutation | mvcc.go:32-35 | Whether a version is a latest one at t does not depend on the order of the history. So the in-place sort changes nothing later reads may return. |
| Mvcc.RepeatedReadsAgree | mvcc.go:29-42 | With distinct timestamps, two reads of the same history, each of which may reorder it, return the same version. |
| Mvcc.TiesAreUnresolved | mvcc.go:33-35 | With two versions of equal timestamp, both count as the latest. |
| Mvcc.NewestWriteIsVisible | mvcc.go:21-28 | A write stamped later than every existing version is what any read at or after its timestamp returns. |
| Mvcc.LateWriteIsHidden | mvcc.go:21-28 | A write stamped earlier than an existing version t' ≤ t is stored, but a read at t does not return it. |
| Mvcc.MvccStore.constructor | mvcc.go:16-20 | NewMVCCStore yields an empty store. |
| Mvcc.MvccStore.Write | mvcc.go:21-28 | The key's history grows by exactly `(timestamp, value)` at its end, with no check of timestamps. Other keys are unchanged. |
| Mvcc.MvccStore.Read | mvcc.go:29-42 | `found` holds iff the key has a version stamped ≤ t; this covers the absent key. The value is that of a version with the greatest such timestamp, any one of them on ties. Afterwards the key's history is a newest-first permutation of the old one. Other keys and the key set are unchanged. |
| Mvcc.ReadOfTwo | mvcc.go:29-42 | With versions a and b where a is older, a read finds nothing before a's timestamp. Before b's timestamp it returns a's value. From b's timestamp on it returns b's value. |
| Mvcc.Demo | mvcc.go:46-64 | "Alice" is written at t1 and "Bob" at t2 > t1 + 5. A read at t1 + 5 returns "Alice". A read at t4 ≥ t2 returns "Bob". A read before t1 finds nothing. |
| MvccMetrics.TallyRemove | mvcc_metrics.go:56-63 | Any key can be taken out of the metrics sum first. So the order in which the map is ranged over does not change the result. |
| MvccMetrics.TallyKeys | mvcc_metrics.go:56-57 | TotalKeys is the number of keys summed over. |
| MvccMetrics.MetricsAfterWrite | mvcc_metrics.go:56-61 | One write adds 1 version and `len(value) + 8` bytes. When the key is new, it also adds 1 key and `len(key)` bytes. |
| MvccMetrics.ApplyWritesCounts | mvcc_metrics.go:26-31 | After a sequence of writes, the keys are the old keys plus the written ones. TotalVersions grows by the number of writes. |
| MvccMetrics.WritesFromEmpty | mvcc_metrics.go:55-67 | N writes over K distinct keys, from an empty store, give TotalKeys = K and TotalVersions = N. |
| MvccMetrics.ClockedWritesStayOrdered | mvcc_metrics.go:29-30 | Writes stamped by a clock that never runs backwards keep every history in timestamp order. |
| MvccMetrics.LastVisibleIsLatest | mvcc_metrics.go:37-41 | In a history in timestamp order, the last version stamped ≤ t carries the greatest timestamp ≤ t. |
| MvccMetrics.OutOfOrderHidesNewer | mvcc_metrics.go:37-41 | Without that order, the backwards scan can return an older version while a newer visible one exists. |
| MvccMetrics.MvccStore.constructor | mvcc_metrics.go:20-24 | NewMVCCStore yields an empty store, whose metrics are all zero. |
| MvccMetrics.MvccStore.Write | mvcc_metrics.go:26-31 | `(timestamp, value)` is appended at the end of the key's history. Other keys are unchanged. |
| MvccMetrics.MvccStore.Read | mvcc_metrics.go:33-43 | `found` holds iff the key has a version stamped ≤ t; this covers the absent key. The value is that of the last-appended such version. Otherwise the value is `""`. The store is not modified. |
| MvccMetrics.MvccStore.CollectMetrics | mvcc_metrics.go:51-70 | The result equals the metrics of the store, taken over all keys: 1 key, `len` versions, and `len(key)` + Σ(`len(value)` + 8) bytes per key. The store is not modified. |
| MvccMetrics.Demo | mvcc_metrics.go:72-81 | Writing x: value1, x: value2 and y: valA gives 2 keys, 3 versions and 42 bytes. |
| OccMetrics.ApplyAddsTally | occ_metrics.go:16-32 | A sequence of calls adds its tally to the counters: the number of reads, the number of writes, and the sum of the storage sizes. |
| OccMetrics.TallyOfPermutation | occ_metrics.go:16-32 | Rearranging the calls does not change their tally. |
| OccMetrics.OrderIrrelevant | occ_metrics.go:42-68 | Two call sequences with the same multiset of calls leave the counters in the same state. |
| OccMetrics.TallyOfReads | occ_metrics.go:42-48 | n read calls record n reads and nothing else. |
| OccMetrics.TallyOfWrites | occ_metrics.go:50-57 | n times (write, AddStorage(size)) records n writes and n * size bytes. |
| OccMetrics.InterleavedWorkload | occ_metrics.go:42-68 | Any interleaving of the two demo callers, from zero, ends at (reads, writes, writes * size). In the demo that is 100 / 50 / 5000. |
| OccMetrics.StorageMetrics.constructor | occ_metrics.go:9-14 | The zero-valued counters are all 0. |
| OccMetrics.StorageMetrics.IncrementReads | occ_metrics.go:16-20 | TotalReads rises by exactly 1. The other counters are unchanged. |
| OccMetrics.StorageMetrics.IncrementWrites | occ_metrics.go:22-26 | TotalWrites rises by exactly 1. The other counters are unchanged. |
| OccMetrics.StorageMetrics.AddStorage | occ_metrics.go:28-32 | TotalStorage rises by `size`, whatever its sign. The read and write counts are unchanged. |
| OccMetrics.RunDemo | occ_metrics.go:42-68 | The demo's callers, run one after the other on fresh counters, end at 100 / 50 / 5000. |

## Left out

- Mutexes (`sync.Mutex`, `sync.RWMutex`), goroutines, `sync.WaitGroup` and `time.Sleep` are not modelled. Each method is one atomic step. The demos' concurrency appears only as explicit interleavings (`Occ.AliasedClients`, `Occ.SnapshotClients`) and as arbitrary permutations of calls (`OccMetrics.InterleavedWorkload`).
- The data race in which `Read` in `mvcc.go` sorts the shared slice under a read lock only is not modelled. Only its sequential effect is kept: the stored history becomes a sorted permutation.
- `time.Now().UnixNano()` in `Write` in `mvcc_metrics.go` and `now()` in `mvcc.go` are not modelled. The clock reading is a parameter of `Write` and of the demos. Clock monotonicity is an explicit hypothesis of `MvccMetrics.ClockedWritesStayOrdered`.
- Mvcc.SortByTimestampDesc: the algorithm of `sort.Slice` (pattern-defeating quicksort) is not modelled. The model sorts by insertion. Only the contract, newest first and a permutation, is visible to `Read`, and that contract leaves the order of ties open, as the Go sort does.
- Go slice sharing and capacity are not modelled. Histories are `seq` values. The in-place sort is modelled as storing the sorted sequence back under the key, and an absent key is left absent.
- `unsafe.Sizeof(v.Timestamp)` is the constant 8 (`TimestampSize`).
- MvccMetrics.MvccStore.CollectMetrics: Go's `len` of a string counts UTF-8 bytes, but the model's strings are sequences of characters. The byte figure agrees for ASCII keys and values only.
- Machine integer widths are not modelled. Timestamps (`int64`), the counters (`int`) and `TotalStorage` (`int64`) are unbounded integers, so wrap-around on overflow is not captured.
- `fmt` printing, `PrintMetrics` and the output of each `main` are not modelled, since they produce output only.

## Findings

| source | as written | input that shows it | evidently intended | confidence | as-written member | corrected member |
|---|---|---|---|---|---|---|
| occ.go:32-37 | `ReadRecord` returns the stored `*Record`. Its clients read `record.Version` only when they call `UpdateRecord` (occ.go:62, occ.go:75), so they see versions written after their read. | Both clients read record 1 at version 1. Client 2 updates it to version 2. Client 1 then passes `record.Version`, now 2, and its update succeeds. Client 2's value is overwritten without client 1 ever having read it: a lost update. | `ReadRecord` returns a detached copy. Client 1 then presents version 1 and is rejected. | medium; not executed | Occ.AliasedClients | Occ.SnapshotClients |
