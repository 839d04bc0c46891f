# Verified model of the snapshot store, the userfaultfd template memory and the VMM block and device core

The project models the parts of the repository in which correctness depends on several operations
working together, and proves what they keep over whole runs.

* **Snapshot store and driver** (`conch-driver/`). `PageStore.dfy` is the pages file: a 4096-slot open-addressing
  table with at most 64 probes, as the split tool writes it and as the query tool and the kernel fault handler
  read it. `SnapshotSplit.dfy` is the split tool's page loop. `PagePool.dfy` is the driver's global page pool,
  first as a state machine over its locked sections and then as the code of those sections. `FaultPath.dfy` is the
  driver as a whole: templates, mappings, faults in flight on any number of threads, the per-mapping tree and the
  teardown of mappings. `DriverCode.dfy` is the fault handler and the teardown loop as code, whose executions are
  proved to be runs of that state machine with the other threads running wherever the code holds no lock.
* **Template memory** (`uffd-cow-gpt/src/lib.rs`). `Overlay.dfy` is the layered backend with its bitmaps.
  `TemplateMemory.dfy` is the protocol of missing faults and write-protect faults of any number of clients, each
  handler split at every system call, and `TemplateProgress.dfy` what its faults come to: how they are served, and
  what becomes of a page whose loader fails. `Checkpoint.dfy` is the export of dirty pages and its restoration.
* **Block back ends** (`uffd-cow-gpt/cloud-hypervisor/block/src/`). `Iovec.dfy` holds the scatter/gather loops,
  `HostIo.dfy` the loops over short transfers and the aligned bounce path, `QcowView.dfy` what an image shows the
  guest, `QcowTables.dfy` the cache of its second-level tables and what a failed eviction loses, `QcowRange.dfy` which
  ranges can be read and overwritten, `QcowDisk.dfy` cluster allocation and the copy-on-write write path,
  `QcowRead.dfy` the read path, the asynchronous fast path and batches, and `BounceRequest.dfy` virtio requests with
  bounce buffers.
* **Devices** (`uffd-cow-gpt/cloud-hypervisor/devices/src/`). `Ioapic.dfy` is the redirection table and its routes,
  `Pvmemcontrol.dfy` the connection protocol of the memory-control device.

`Base.dfy` and `Bits.dfy` hold shared definitions; machine words with variable shifts are natural numbers with
bitwise operations defined on them, and the redirection entries are 64-bit vectors.

## Conventions

System calls, allocation and the interrupt source group are methods whose results are chosen freely within their
contract; a `reliable` flag, where present, rules failures out so that both directions of a success condition can be
stated, and a `prompt` file takes each write whole. An image's `refsOk` says that its reference counts are in order,
so that their upkeep fails only for want of a cluster. Threads are steps of a state machine, and every theorem about
"every run" quantifies over all interleavings of those steps. A hash function is a parameter: the theorems about the
driver assume it non-zero and injective on the pages in play, which is what the tools rely on, and the theorems about
a single table state exactly what happens without that assumption. Page bytes, hashes and identifiers are unbounded
only where the code never computes with them.

## Findings

* A page whose hash is zero is "found" by both readers in any hole of the pages file and can be overwritten by a
  later write: `PageStore.ZeroKeyPageIsOverwritten` is such a run, and `PageStore.SurvivesIffKeyNotZero` proves for
  every table that a page that can be looked up survives all later writes if and only if its hash is not zero.
  `PageStore.WriteAgreesUnlessZeroKeyInHole` is the exact condition under which a write does what a query announced.
* When two pages of a snapshot share a hash, the second reads back as the first: `SnapshotSplit.SameHashReadsAsFirst`
  is such a snapshot, and `SnapshotSplit.AcceptedPageReadsBackIff` the exact condition.
* The split tool writes a slot's header before its page. A probe of the driver between the two, in a hole of the file,
  finds the key with the bytes the hole had: `PageStore.HalfInsertInput` is such a file, and
  `PageStore.HalfInsertReadsHole` proves for every table that the page so read is right if and only if the hole
  already held its bytes.
* Copy-on-write isolation of the template memory fails when a client writes a page that another client loaded: only
  the loader's mapping of a page is write-protected, so such a write goes to the shared memory file.
  `TemplateMemory.NonLoaderWriteTampers` exhibits it for any two byte values, and
  `TemplateMemory.IsolatedIffLoaderWritesOnly` proves that runs without such writes are exactly the isolated ones.
  The design document describes copy-on-write for every write to a shared page; the model follows the code.
* A template page whose loader fails between claiming it and copying it in stays in state loading: it is never loaded,
  and every client that touches it waits for ever. `TemplateProgress.FailedReadStrands` is such a run,
  `TemplateProgress.DeadLoaderHoldsPage` proves it for every continuation, and `TemplateProgress.CanBeLoadedIff` that a
  readable page being loaded can become ready if and only if its loader's handler has not failed.
* An unaligned direct-I/O transfer near the end of a file fails although the same transfer without direct I/O would
  succeed, because the whole aligned region must exist: `HostIo.ReadOnlyByte` is such a transfer,
  `HostIo.AlignedFailsIff` the exact condition, and the contracts of `HostIo.HostFile.AlignedPread` and
  `HostIo.HostFile.AlignedPwrite` tie it to the code.
* A failed request to a QCOW2 image can change guest bytes it did not ask for, in two ways.
  A write to a compressed cluster can zero bytes of that cluster, since the table is updated before the decompressed
  data is stored: `QcowView.TornInflateLosesBytes` loses a byte, `QcowDisk.TornInflateIsStopped` ties that image to a
  write that stopped, and `QcowView.TornInflateHiddenIff` says exactly when no such failure can be seen outside the
  range. And a read or write that needs a table while the cache holds 100 evicts one by removing it before writing
  it back: when a dirty one cannot be written, its guest clusters fall back to the backing disk or to zeros.
  `QcowTables.FullCacheLosesTable` is such a run, `QcowTables.LostByte` says what the guest then sees, and
  `QcowTables.LossHarmlessIff` says, from cache and image before the request, exactly when that cannot change the disk
  outside the range. The contract of `QcowDisk.Qcow.WriteVectored` proves that nothing else is lost, and that no table
  is lost when the file takes every write, or when the cached tables and those of the range fit the cache.
* A virtio block request that fails after some of its buffers were given bounce buffers is dropped without being
  completed, so those blocks stay allocated. `BounceRequest.Read` and `BounceRequest.Write` state how many: one for
  each misaligned non-empty buffer before the first bad one, or before the one for which memory ran out, or all of
  them when the device fails. So a request that fails its checks leaks nothing if and only if no misaligned non-empty
  buffer comes before the first bad one. `BounceRequest.LeakOneBlock` is a request that leaks a block.

## Model

| member | source | states |
|---|---|---|
| PageStore.StoredIsFound | conch-driver/tools/query_snapshot.c:34-91 | In a well-placed table every stored non-zero key is found by probing, at its own distance from its home slot, with its own page |
| PageStore.LookupMeansStored | conch-driver/tools/query_snapshot.c:50-90 | A lookup of a non-zero key returns a page exactly when the table stores that key with that page |
| PageStore.InsertKeepsPlacement | conch-driver/tools/split_snapshot.c:32-77 | A slot write keeps keys distinct, within 64 probes of home and with no hole before them, and moves or overwrites no occupied slot |
| PageStore.InsertThenLookup | conch-driver/tools/split_snapshot.c:46-76 | An accepted write makes its key read back as the page already stored under it, or else as the new page; a refused one changes nothing and the key is absent |
| PageStore.InsertLandsAt | conch-driver/tools/split_snapshot.c:46-73 | A new key goes to the first empty slot at or after its remainder modulo 4096, around the end of the table, and no other slot changes |
| PageStore.WritesKeepPlacement | conch-driver/tools/split_snapshot.c:32-77 | Any sequence of slot writes keeps the placement invariant and every occupied slot |
| PageStore.LookupSurvivesWrites | conch-driver/tools/split_snapshot.c:32-77 | No later sequence of writes hides or changes a page that can be looked up |
| PageStore.RefusalIsFinal | conch-driver/tools/split_snapshot.c:46-76 | A key refused once is refused after any later writes |
| PageStore.WriteAgreesUnlessZeroKeyInHole | conch-driver/tools/split_snapshot.c:46-76 | For every table and key, a write fails exactly where the query exhausts, writes exactly at the reported empty slot and is a no-op exactly on a found key, if and only if the key is non-zero or key zero is not reported found |
| PageStore.SurvivesIffKeyNotZero | conch-driver/tools/split_snapshot.c:46-76 | In every well-placed table a page that can be looked up is returned unchanged after every sequence of later writes if and only if its key is not zero |
| PageStore.ZeroKeyPageIsOverwritten | conch-driver/tools/split_snapshot.c:52-66 | A run in which key zero loses its page to the next key that probes its slot, for any two pages |
| PageStore.HalfInsertReadsHole | conch-driver/tools/split_snapshot.c:59-60 | For every table, a reader between the header write and the page write of an insertion into a hole finds the page it would find afterwards if and only if the hole already held it |
| PageStore.HalfInsertInput | conch-driver/tools/split_snapshot.c:59-60 | In a file of one hole any page other than zeros reads as zeros in between and as itself afterwards |
| PageStore.PagesFile.WritePageToSlot | conch-driver/tools/split_snapshot.c:32-77 | The probe loop returns 0 exactly when the table accepts the key and leaves the file as the specified insertion |
| PageStore.PagesFile.LookupPageByHash | conch-driver/tools/query_snapshot.c:34-91 | The query loop returns code, slot and probe count of the first stopping probe, found, empty and exhausted |
| PageStore.PagesFile.KernelProbe | conch-driver/driver/snapshot_mmap.c:204-256 | The kernel's probe yields the page exactly when the tool's lookup finds it, at the same slot, and faults otherwise |
| SnapshotSplit.SplitSnapshot | conch-driver/tools/split_snapshot.c:139-158 | The page loop writes one table entry per whole page in order, reports 0 exactly for accepted pages and leaves the file as all the writes in order would; a trailing partial page ends it |
| SnapshotSplit.AcceptedPageReadsAsFirstTwin | conch-driver/tools/split_snapshot.c:139-158 | After the whole split an accepted page reads back as what the file held under its hash, or else as the first page of the snapshot with that hash |
| SnapshotSplit.AcceptedPageReadsBackIff | conch-driver/tools/split_snapshot.c:139-158 | Into an empty file, an accepted page reads back as itself if and only if the first page with its hash has the same bytes |
| SnapshotSplit.SameHashReadsAsFirst | conch-driver/tools/split_snapshot.c:139-158 | Of any two different pages with one non-zero hash both are accepted and the second reads back as the first |
| SnapshotSplit.AcceptedPageReadsBack | conch-driver/tools/split_snapshot.c:139-158 | With a hash that is non-zero and injective on the pages in play, every page whose write returned 0 reads back as itself |
| SnapshotSplit.SplitFilesByHash | conch-driver/tools/split_snapshot.c:139-158 | Splitting keeps every stored page filed under its own hash |
| PagePool.FindHashIff | conch-driver/driver/snapshot_pool.c:65-82 | Walking a bucket finds an entry exactly when the pool has one with that hash |
| PagePool.PublishKeeps | conch-driver/driver/snapshot_pool.c:122-140 | Publishing re-checks under the lock: the pool keeps one entry per hash in its bucket with right counts, and the caller gets one handle on the entry with that hash |
| PagePool.ReleaseKeeps | conch-driver/driver/snapshot_pool.c:147-161 | Dropping a handle keeps buckets, page counter and reference counts right |
| PagePool.StepKeepsInv | conch-driver/driver/snapshot_pool.c:65-161 | Each locked section of lookup, two-phase add and unref, by any thread, keeps the pool invariant |
| PagePool.EveryInterleavingIsCounted | conch-driver/driver/snapshot_pool.c:65-161 | In every state reachable from the empty pool, by any interleaving of any number of threads, there is one entry per hash in its bucket, the page counter is the number of entries and each reference count is the number of outstanding handles and at least 1 |
| PagePool.HandlesAreLive | conch-driver/driver/snapshot_pool.c:147-161 | In every state reachable from the empty pool a handle can be given back: its entry is still pooled and its count positive |
| PagePool.RemovedWithLastHandle | conch-driver/driver/snapshot_pool.c:147-161 | A step removes an entry if and only if it releases the entry's last handle; surviving entries keep page and hash |
| PagePool.GlobalPagePool.Walk | conch-driver/driver/snapshot_pool.c:65-82 | The bucket walk returns the entry the specification names |
| PagePool.GlobalPagePool.Lookup | conch-driver/driver/snapshot_pool.c:65-82 | A lookup takes one reference on the entry it finds and changes nothing else |
| PagePool.GlobalPagePool.AddPublish | conch-driver/driver/snapshot_pool.c:122-140 | The second locked section returns the entry of a racing add with a reference, or links the new one |
| PagePool.GlobalPagePool.Unref | conch-driver/driver/snapshot_pool.c:147-161 | Drops one reference and frees the entry exactly when it was the last |
| FaultPath.EveryRunKeepsInv | conch-driver/driver/snapshot_mmap.c:143-281 | Every run of loads, growing pages files, mmaps, faults, pool adds and mapping teardowns keeps the driver invariant: pool, counts, phases of the faults in flight, tree nodes and mapped pages |
| FaultPath.ReachableIsSound | conch-driver/driver/snapshot_mmap.c:59-281 | Every reachable driver state satisfies that invariant |
| FaultPath.MappedPagesAreSnapshotPages | conch-driver/driver/snapshot_mmap.c:258-281 | In every reachable state every page a mapping shows is the snapshot's page at that index, whatever was inserted or pooled before |
| FaultPath.FaultSelectsSnapshotPage | conch-driver/driver/snapshot_mmap.c:183-281 | A fault that holds a pool entry, by pool hit or by file probe, holds one with exactly the snapshot page at its offset |
| FaultPath.FaultIsInBounds | conch-driver/driver/snapshot_mmap.c:320-326 | A mapping size that mmap accepts lets no fault address run past the page table |
| FaultPath.SplitMakesTemplate | conch-driver/tools/split_snapshot.c:139-158 | Splitting a snapshot into any well-formed file, followed by any later insertions, gives a loadable template in which every page whose write returned 0 is stored |
| FaultPath.FaultPassesBounds | conch-driver/driver/snapshot_mmap.c:169-202 | In every reachable state a fault anywhere in an accepted mapping passes the bounds check and goes on with the entry or the hash of its page |
| FaultPath.StoredPageFaultSucceeds | conch-driver/driver/snapshot_mmap.c:204-256 | In every reachable state in which a fault missed the pool, whatever ran since, the probe of a stored page loads exactly that page |
| FaultPath.StoredStays | conch-driver/tools/split_snapshot.c:46-76 | Through any run, the pages file growing under a loaded template included, a stored page stays stored |
| FaultPath.StoredFaultEndsInItsPage | conch-driver/driver/snapshot_mmap.c:183-281 | Whatever step any thread takes, a fault on a stored page is still in the handler, or failed an allocation or a read, or mapped exactly the snapshot's page |
| FaultPath.StoredPageIsServed | conch-driver/driver/snapshot_mmap.c:143-281 | End to end: after a page is stored and any run at all, a fault on it in any mapping of the template ends only in a failed allocation or read or in that page mapped |
| FaultPath.TrackedPagesAreAlive | conch-driver/driver/snapshot_mmap.c:59-95 | In every reachable state an entry's count is its tree nodes plus faults in flight plus references that no tree tracks, so a tracked page is never released before its mapping closes |
| FaultPath.NoStepIsUnsafe | conch-driver/driver/snapshot_mmap.c:72-88 | In every reachable state no step that control has reached uses an entry that left the pool or takes a count below zero |
| FaultPath.CloseNodeStepKeeps | conch-driver/driver/snapshot_mmap.c:72-88 | Giving back the reference of one node of a closing mapping keeps the driver invariant, so no fault in flight loses its entry |
| FaultPath.OnlyLeaksRemain | conch-driver/driver/snapshot_mmap.c:59-95 | With every mapping closed and no fault under way the pool holds exactly the entries whose references no tree tracked, with exactly those counts |
| FaultPath.OthersLeaveUndisturbed | conch-driver/driver/snapshot_mmap.c:143-281 | Whatever the other threads do, a fault in flight keeps its place, its mapping and template, and a stored page |
| FaultPath.OthersSpareClosing | conch-driver/driver/snapshot_mmap.c:59-95 | Whatever runs beside a teardown, the mapping stays closing and keeps exactly its remaining nodes |
| DriverCode.Mapping.Fault | conch-driver/driver/snapshot_mmap.c:143-281 | With the other threads running wherever no lock is held, an execution of the fault handler is a run of the driver; it fails out of bounds without effect, with a bus error on a stored page only if a read of the file fails, and otherwise only for want of memory there; a page it maps is the snapshot's page, held by the pool entry it returns |
| DriverCode.Mapping.Close | conch-driver/driver/snapshot_mmap.c:59-95 | With other mappings running between its nodes, an execution of the teardown is a run of the driver that leaves no node, no page and no mapping; undisturbed, it gives each entry back exactly as many references as the tree had nodes for it, and frees those that had no others |
| Overlay.GetIsBit | uffd-cow-gpt/src/lib.rs:808-810 | The word-and-mask test reads exactly the named bit |
| Overlay.BitmapWithGet | uffd-cow-gpt/src/lib.rs:804-806 | Setting a bit sets that bit and no other |
| Overlay.TopIsUnique | uffd-cow-gpt/src/lib.rs:259-278 | At most one layer is the topmost holder of a page |
| Overlay.OverlayBackend.RebuildMergedBitmap | uffd-cow-gpt/src/lib.rs:312-321 | The word-wise merge has a page's bit exactly when some layer has it |
| Overlay.OverlayBackend.TopLayer | uffd-cow-gpt/src/lib.rs:259-278 | The downward search finds the highest layer with the bit, and none exactly when the merged bit is clear |
| Overlay.OverlayBackend.Locate | uffd-cow-gpt/src/lib.rs:259-278 | Succeeds exactly on in-range pages whose merged bit is set, and names the topmost layer and the page's offset in it |
| Overlay.OverlayBackend.ReadPage | uffd-cow-gpt/src/lib.rs:280-306 | A successful read returns the location that locate names together with that layer's bytes of the page; where the host fails no read it succeeds exactly for a buffer of one page and an in-range page that the topmost layer with its bit holds whole |
| Overlay.PreadExact | uffd-cow-gpt/src/lib.rs:919-932 | Under any pattern of short reads, success means the destination holds exactly the requested file bytes; a file that has them and fails no read gives success |
| Overlay.NewBackend | uffd-cow-gpt/src/lib.rs:217-249 | Construction succeeds exactly for non-zero sizes, at least one layer and bitmaps of the right length |
| TemplateMemory.StepKeepsInv | uffd-cow-gpt/src/lib.rs:594-779 | Every step of every client keeps the protocol invariant, except a write by a client to a shared page another client loaded |
| TemplateMemory.LoadingProtocol | uffd-cow-gpt/src/lib.rs:656-714 | In any sound state a page's state only advances, by one claim and by its loader; at most one client ever reads the backend for it; a shared page is never rewritten; and a ready page is the backend's page |
| TemplateMemory.PoliteRunIsSound | uffd-cow-gpt/src/lib.rs:656-779 | Every interleaving from the empty template in which clients change only shared pages they loaded ends in a sound state over the same backend |
| TemplateMemory.PagesLoadOnce | uffd-cow-gpt/src/lib.rs:656-714 | From any point of such a run to its end a page's state does not go back, its loader and its shared bytes stay; it is read from the backend at most once, and ready it is the backend's page |
| TemplateMemory.TamperingShows | uffd-cow-gpt/src/lib.rs:716-779 | Any other write to a shared page that changes it makes the shared memory differ from the backend |
| TemplateMemory.IsolatedIffLoaderWritesOnly | uffd-cow-gpt/src/lib.rs:656-779 | In every run from the empty template all shared pages stay equal to the backend throughout if and only if no client changes a shared page it did not load |
| TemplateMemory.NonLoaderWriteTampers | uffd-cow-gpt/src/lib.rs:680-714 | A two-client run after which the shared page holds the second client's byte |
| TemplateMemory.ViewIsBackendPlusOwnWrites | uffd-cow-gpt/src/lib.rs:716-779 | A client reads the backend's bytes on shared pages and, on private pages, the backend's bytes with exactly its own writes applied; the rows of TemplateProgress say that such pages come about |
| TemplateMemory.ClientsSeeOwnWritesOnly | uffd-cow-gpt/src/lib.rs:594-779 | At the end of any run from the empty template without such writes every client sees the template's pages with nothing but its own writes on them |
| TemplateMemory.WriteIsPrivate | uffd-cow-gpt/src/lib.rs:716-779 | A write changes neither the shared memory nor what any client reads elsewhere, and its own page only at that byte |
| TemplateMemory.DirtyIffPrivate | uffd-cow-gpt/src/lib.rs:543-550 | Whenever the application runs, a page is marked dirty, and marked private, exactly when it is privately mapped |
| TemplateProgress.WriteFaultCanBeServed | uffd-cow-gpt/src/lib.rs:716-779 | From every sound state with a write-protect fault and an idle handler the handler's seven steps are enabled in turn; they end with the page private and both marks set, holding the backend's bytes, and the application running, the shared memory and every other client being as before |
| TemplateProgress.WriteFaultIsServed | uffd-cow-gpt/src/lib.rs:716-779 | The same end of those steps for the client whatever steps other clients take in between, as long as each page is changed by its loader alone |
| TemplateProgress.FirstWriteLands | uffd-cow-gpt/src/lib.rs:716-779 | A first write to a protected page faults, is served, and when repeated leaves the client the backend's page with that byte changed, and no one else any change |
| TemplateProgress.FirstTouchFaults | uffd-cow-gpt/src/lib.rs:656-661 | Reading or writing a page nobody has loaded suspends the application in a missing fault and changes nothing else |
| TemplateProgress.MissingFaultIsServed | uffd-cow-gpt/src/lib.rs:661-688 | From every sound state the first client to fault on a readable page claims, reads and copies it, marks it ready with its own mapping protected, and runs again |
| TemplateProgress.FirstTouchLands | uffd-cow-gpt/src/lib.rs:656-779 | A first write to a page nobody has loaded loads it, then makes a private copy, and lands there |
| TemplateProgress.CopyFindsNoPage | uffd-cow-gpt/src/lib.rs:670-686 | The loader never finds its page there already: copying in always installs the backend's page |
| TemplateProgress.LateFault | uffd-cow-gpt/src/lib.rs:689-705 | A fault on a page that is being loaded starts to wait, and on a ready page ends at once |
| TemplateProgress.WaiterIsReleased | uffd-cow-gpt/src/lib.rs:689-698 | A waiting handler can go on exactly when its page is ready, and then its application runs and sees the backend's page |
| TemplateProgress.HandlerIsNotHeldUp | uffd-cow-gpt/src/lib.rs:594-779 | In every sound state a handler at work has its next step enabled |
| TemplateProgress.LoadedOnlyByARead | uffd-cow-gpt/src/lib.rs:667-688 | In every run from the empty template a page is in the shared memory only if some client read it from the backend with success |
| TemplateProgress.FailedReadStrands | uffd-cow-gpt/src/lib.rs:661-698 | A two-client run after which a failed read has killed the loader and the second client waits for the page |
| TemplateProgress.DeadLoaderHoldsPage | uffd-cow-gpt/src/lib.rs:661-698 | From every sound state, when a loader dies or its read fails, no continuation loads the page, and a client that waits for it is never released |
| TemplateProgress.CanBeLoadedIff | uffd-cow-gpt/src/lib.rs:656-714 | At any point of any run without foreign writes a readable page in state loading can become ready if and only if its loader's handler has not failed |
| Checkpoint.Export | uffd-cow-gpt/src/lib.rs:564-592 | The exported pages are exactly the dirty ones, strictly increasing, with the region's bytes, and the bitmap is the dirty bits |
| Checkpoint.DirtyBitmap | uffd-cow-gpt/src/lib.rs:500-508 | The reported bitmap is the dirty bits and so equals the exported one |
| Checkpoint.DirtyWordsGet | uffd-cow-gpt/src/lib.rs:500-508 | A bit of that bitmap is set exactly for a dirty page |
| Checkpoint.RestoreAt | uffd-cow-gpt/src/lib.rs:553-562 | Overlaying the exported pages on the backend replaces exactly the exported pages |
| Checkpoint.CheckpointRestores | uffd-cow-gpt/src/lib.rs:564-592 | In every sound state, even in the middle of a fault, backend plus exported pages reproduces the client's region on every page |
| Checkpoint.CheckpointOfAnyRun | uffd-cow-gpt/src/lib.rs:564-592 | At the end of any such run a client's export laid over the template is every page as its application last left it |
| Checkpoint.FaultAddressDecodes | uffd-cow-gpt/src/lib.rs:530-541 | Masking a fault address gives the start of the page its index names |
| Checkpoint.ReadyPageIsTopLayersPage | uffd-cow-gpt/src/lib.rs:656-714 | At the end of any such run over a layered backend a ready page is the topmost layer's page |
| Iovec.ScatterToIovecs | uffd-cow-gpt/cloud-hypervisor/block/src/qcow_common.rs:200-223 | For any buffers, overlapping and empty ones included, each byte of memory ends as the last byte of the data written to it, or as it was |
| Iovec.ZeroFillIovecs | uffd-cow-gpt/cloud-hypervisor/block/src/qcow_common.rs:229-252 | The same with zeros |
| Iovec.GatherFromIovecsInto | uffd-cow-gpt/cloud-hypervisor/block/src/qcow_common.rs:258-282 | The destination gets the stream's bytes from the start position as far as the stream reaches, and keeps the rest |
| Iovec.ScatterFlat | uffd-cow-gpt/cloud-hypervisor/block/src/qcow_common.rs:200-223 | In disjoint buffers scattering updates a slice of the byte stream and leaves the rest of the stream |
| Iovec.ScatterFrame | uffd-cow-gpt/cloud-hypervisor/block/src/qcow_common.rs:200-223 | No byte outside the buffers changes |
| Iovec.ScatterThenGather | uffd-cow-gpt/cloud-hypervisor/block/src/qcow_common.rs:200-293 | Gathering at the same in-range position returns the scattered data |
| Iovec.AddrInjective | uffd-cow-gpt/cloud-hypervisor/block/src/qcow_common.rs:192-194 | In disjoint buffers no two positions of the stream share an address |
| Iovec.ScatterContinues | uffd-cow-gpt/cloud-hypervisor/block/src/qcow_sync.rs:82-155 | Scattering consecutive pieces amounts to scattering their concatenation |
| HostIo.HostFile.PreadExact | uffd-cow-gpt/cloud-hypervisor/block/src/qcow_common.rs:26-47 | Under any pattern of short reads, success means the buffer holds exactly the requested bytes; without I/O errors it succeeds exactly when the file has them |
| HostIo.HostFile.PwriteAll | uffd-cow-gpt/cloud-hypervisor/block/src/qcow_common.rs:77-98 | Under any pattern of short writes, success writes exactly the buffer and failure exactly a prefix of it |
| HostIo.HostFile.AlignedPread | uffd-cow-gpt/cloud-hypervisor/block/src/qcow_common.rs:153-169 | For any alignment, offset and length, success returns what a direct read returns; without I/O errors it succeeds exactly when the bytes, or on the bounce path the whole aligned region, exist |
| HostIo.HostFile.AlignedPwrite | uffd-cow-gpt/cloud-hypervisor/block/src/qcow_common.rs:172-190 | Success leaves the file as a direct write would and failure writes a prefix of the buffer, every other byte preserved; with the exact success condition |
| HostIo.AlignedFailsIff | uffd-cow-gpt/cloud-hypervisor/block/src/qcow_common.rs:153-190 | A bounced transfer of bytes the file has lacks its aligned region exactly when the file ends before the next multiple after the transfer |
| HostIo.ReadOnlyByte | uffd-cow-gpt/cloud-hypervisor/block/src/qcow_common.rs:153-169 | The byte of a one-byte file is read without alignment and refused with alignment 512 |
| HostIo.RewriteIsWrite | uffd-cow-gpt/cloud-hypervisor/block/src/qcow_common.rs:186-189 | Rewriting any prefix of a patched copy of a file region equals writing the part of the patch it contains |
| HostIo.MaskRoundsDown | uffd-cow-gpt/cloud-hypervisor/block/src/qcow_common.rs:162 | Clearing the low bits of an offset rounds it down to a power-of-two alignment |
| QcowView.UnusedIsInvisible | uffd-cow-gpt/cloud-hypervisor/block/src/qcow/metadata.rs:649-677 | Writing a free or new cluster changes no byte the guest sees |
| QcowView.OtherClustersStay | uffd-cow-gpt/cloud-hypervisor/block/src/qcow_sync.rs:196-226 | Writing inside one data cluster changes no byte of any other guest cluster |
| QcowView.AssignKeepsSound | uffd-cow-gpt/cloud-hypervisor/block/src/qcow/metadata.rs:687-713 | Pointing a table entry at a cluster handed out for it keeps single ownership of every cluster |
| QcowView.MetaIsSteady | uffd-cow-gpt/cloud-hypervisor/block/src/qcow/metadata.rs:687-713 | Rewriting a cluster of the image's own tables in place changes no data cluster, no cluster just handed out and nothing the guest sees |
| QcowView.ChunkPatches | uffd-cow-gpt/cloud-hypervisor/block/src/qcow_sync.rs:173-228 | Storing the first bytes of a chunk in its mapped cluster overlays exactly those bytes on the guest's disk |
| QcowView.TornInflateCutsOff | uffd-cow-gpt/cloud-hypervisor/block/src/qcow/metadata.rs:545-561 | For every sound image, storing the decompressed cluster only up to some byte leaves the guest that cluster up to there and zeros after it |
| QcowView.TornInflateHiddenIff | uffd-cow-gpt/cloud-hypervisor/block/src/qcow/metadata.rs:545-561 | For every sound image and range, the disk outside the range is the same wherever that write stops if and only if the compressed cluster shows nothing but zeros outside the range |
| QcowView.TornInflateLosesBytes | uffd-cow-gpt/cloud-hypervisor/block/src/qcow/metadata.rs:545-561 | An image in which the byte at address 1 goes from 7 to 0 when that write stops at once, as it can in a one-byte write at address 0 |
| QcowDisk.TornInflateIsStopped | uffd-cow-gpt/cloud-hypervisor/block/src/qcow/metadata.rs:548-557 | The images of these lemmas are those a stopped write of the decompressed cluster into a new cluster leaves |
| QcowView.TornSpares | uffd-cow-gpt/cloud-hypervisor/block/src/qcow_sync.rs:173-228 | A chunk that fails at any point after its table is cached spares every byte outside it, or, when its cluster was compressed, zeroes such bytes only from some byte of that cluster on |
| QcowView.TornFails | uffd-cow-gpt/cloud-hypervisor/block/src/qcow_sync.rs:163-236 | A write whose next chunk fails like that has its completed bytes in place and otherwise the same guarantee for its whole range |
| QcowView.LastWriteWins | uffd-cow-gpt/cloud-hypervisor/block/src/qcow_sync.rs:163-236 | After any run of guest writes every byte of the disk is the last one written to it, or what it was before the run |
| QcowTables.EvictKeeps | uffd-cow-gpt/cloud-hypervisor/block/src/qcow/vec_cache.rs:142-158 | Writing a table back and dropping it from the cache changes no entry of the image |
| QcowTables.EvictLoses | uffd-cow-gpt/cloud-hypervisor/block/src/qcow/vec_cache.rs:142-158 | Dropping a dirty table whose write-back stopped empties exactly its entries from there on |
| QcowTables.UpdateKeeps | uffd-cow-gpt/cloud-hypervisor/block/src/qcow/metadata.rs:687-713 | Changing an entry of a cached table, its table moved to a new cluster, changes exactly that entry of the image |
| QcowTables.LostByte | uffd-cow-gpt/cloud-hypervisor/block/src/qcow/metadata.rs:598-646 | After such a loss every guest cluster of the lost entries shows the backing disk, or zeros without one, and every other byte is as it was |
| QcowTables.LossHiddenIff | uffd-cow-gpt/cloud-hypervisor/block/src/qcow/metadata.rs:598-646 | Losing a table from some entry on leaves the disk outside a range alone if and only if the backing disk has every byte of the lost clusters there |
| QcowTables.LossHarmlessIff | uffd-cow-gpt/cloud-hypervisor/block/src/qcow/vec_cache.rs:142-158 | For every coherent cache and image, no outcome of an insertion can change the disk outside a range by a loss if and only if the cache has room or the backing disk has every byte that dirty cached tables map there |
| QcowTables.FullCacheLosesTable | uffd-cow-gpt/cloud-hypervisor/block/src/qcow/mod.rs:636 | With 100 cached tables, one of them dirty and no compressed cluster, a request for one table more fails on write-back and turns a byte outside its range from 7 to 0 |
| QcowTables.LossFailsOutside | uffd-cow-gpt/cloud-hypervisor/block/src/qcow_sync.rs:163-236 | A write that lost a table leaves the disk outside its range alone if and only if the backing disk has every byte of the lost clusters there |
| QcowTables.LossKeepsSound | uffd-cow-gpt/cloud-hypervisor/block/src/qcow/vec_cache.rs:142-158 | A loss that stops between two entries keeps single ownership of every cluster |
| QcowRange.PartMaps | uffd-cow-gpt/cloud-hypervisor/block/src/qcow/metadata.rs:433-489 | Every byte of a part of a range meets the condition for being mapped exactly when the part starts below the disk's size and its cluster has its table and its data at proper places |
| QcowRange.PackedDecodes | uffd-cow-gpt/cloud-hypervisor/block/src/qcow/metadata.rs:1013-1035 | Compressed data that was not touched decodes as before |
| QcowRange.OverwritableReads | uffd-cow-gpt/cloud-hypervisor/block/src/qcow_sync.rs:67-236 | Where every cluster of a range has a cluster of its own, the range can be read |
| QcowDisk.RawBacking.ReadAt | uffd-cow-gpt/cloud-hypervisor/block/src/qcow/backing.rs:29-45 | A read of the backing disk yields its bytes, and zeros past its size |
| QcowDisk.Qcow.GetNewCluster | uffd-cow-gpt/cloud-hypervisor/block/src/qcow/metadata.rs:649-677 | Hands out a cluster that was free or is new, holding the initial data or zeros, and disturbs no owned cluster and nothing the guest sees, on failure too; in an image in order it fails only when none is free and the file may not grow |
| QcowDisk.Qcow.ExtendFile | uffd-cow-gpt/cloud-hypervisor/block/src/qcow/qcow_raw_file.rs:286-299 | Adding a cluster at the rounded-up end of the file disturbs nothing |
| QcowDisk.Qcow.AppendDataCluster | uffd-cow-gpt/cloud-hypervisor/block/src/qcow/metadata.rs:680-684 | The cluster keeps its initial bytes through the reference-count upkeep that follows |
| QcowDisk.Qcow.Upkeep | uffd-cow-gpt/cloud-hypervisor/block/src/qcow/metadata.rs:895-966 | Any number of clusters taken for reference counts and of such clusters rewritten in place, failing anywhere, disturbs no data cluster, no cluster just handed out and nothing the guest sees; with counts in order and a file that fails nothing it fails only when no cluster is left |
| QcowDisk.Qcow.InsertTable | uffd-cow-gpt/cloud-hypervisor/block/src/qcow/vec_cache.rs:142-158 | The insertion is the specified one; it fails only by losing a dirty table of a full cache, and then the image has lost exactly those entries |
| QcowDisk.Qcow.CacheTable | uffd-cow-gpt/cloud-hypervisor/block/src/qcow/metadata.rs:598-615 | Afterwards the table is cached and the image the same; a failure leaves it the same or without the entries of one table that was dirty, and dirties none; with a file that fails nothing it succeeds exactly when the table is at a proper place |
| QcowDisk.Qcow.CacheTableAlloc | uffd-cow-gpt/cloud-hypervisor/block/src/qcow/metadata.rs:618-646 | The same for a write, a missing table being given a cluster; data clusters and what the guest sees stay but for such a loss |
| QcowDisk.Qcow.UpdateClusterAddr | uffd-cow-gpt/cloud-hypervisor/block/src/qcow/metadata.rs:687-713 | Redirecting a guest cluster changes only that cluster, and nothing when the new one holds what the guest saw; a failure changes neither the entries nor the view |
| QcowDisk.Qcow.InflateFor | uffd-cow-gpt/cloud-hypervisor/block/src/qcow/metadata.rs:545-561 | Giving a compressed cluster a cluster of its own keeps the guest's view on success; on failure the view is the same or that one cluster is zero from some byte on |
| QcowDisk.Qcow.MapWrite | uffd-cow-gpt/cloud-hypervisor/block/src/qcow/metadata.rs:523-583 | Maps an address to its byte in an allocated cluster of the guest cluster around it, allocating if need be; the guest sees no change, except that a cluster over a backing file about to be written whole may show zeros, and that a failure may cut off a compressed one or, before anything else, lose a table; success means that the address could be read, and in an image in order an address that can be read fails to map only when no cluster is left |
| QcowDisk.Qcow.WriteChunk | uffd-cow-gpt/cloud-hypervisor/block/src/qcow_sync.rs:173-228 | One pass of the write loop overlays exactly its chunk; failed, it overlays a prefix of it, or has begun a cluster it was to write whole, or has cut off a compressed cluster, or has only lost a table; without a loss no entry changes but its own, and none that has a cluster |
| QcowDisk.Qcow.WriteVectored | uffd-cow-gpt/cloud-hypervisor/block/src/qcow_sync.rs:163-236 | A guest write of any length and alignment leaves the disk equal to the old one overlaid with the gathered bytes; a failed one has a prefix in place and changes no byte outside its range, unless the cluster it failed in was compressed, which then is zero from some byte on, or a table was lost, whose clusters then show the backing disk; no table is lost if the file takes all writes or the cached tables and those of the range fit the cache; success means that the range could be read, and afterwards it can be read and overwritten; where no file beneath fails, a write over clusters that exist succeeds, and in an image in order any write to a range that can be read fails only when no cluster is left |
| QcowRead.EntryServes | uffd-cow-gpt/cloud-hypervisor/block/src/qcow/metadata.rs:433-489 | The mapping made for a chunk yields exactly the guest's bytes of the chunk |
| QcowRead.MapClustersForRead | uffd-cow-gpt/cloud-hypervisor/block/src/qcow/metadata.rs:162-219 | The mappings tile the range in order without gap or overlap, each serving the guest's bytes, whether or not the shared-lock pass had to be redone; a failure leaves the image the same or without the entries of one table that was dirty before; success means that every part of the range starts below the disk's size in clusters whose tables and data are at proper places, and with a file that fails nothing that is enough |
| QcowRead.ScatterRead | uffd-cow-gpt/cloud-hypervisor/block/src/qcow_async.rs:390-474 | For any tiling list of mappings the buffers get the disk range from the front on, all of it on success; where no file beneath fails it succeeds exactly when every compressed cluster decodes |
| QcowRead.ReadVectored | uffd-cow-gpt/cloud-hypervisor/block/src/qcow_sync.rs:67-161 | Success leaves the buffers with the disk range and the disk the same; memory outside them never changes; a failed read changes the disk only by losing a dirty table of a full cache; success means that the range can be read, by a condition on the image and tables before the call, and where no file beneath fails every such range is read |
| QcowRead.ReadIsRange | uffd-cow-gpt/cloud-hypervisor/block/src/qcow_sync.rs:67-161 | In disjoint buffers the flattened buffers then equal the range of the virtual disk |
| QcowRead.ReadAfterWrite | uffd-cow-gpt/cloud-hypervisor/block/src/qcow_sync.rs:67-236 | The range written by a guest write reads back as the data written |
| QcowRead.ResolveRead | uffd-cow-gpt/cloud-hypervisor/block/src/qcow_async.rs:343-387 | The fast path returns a file position whose bytes are the requested disk range and touches no memory; otherwise the request has been served; success means the same condition as for the synchronous read, and where no file beneath fails that is enough |
| QcowRead.AsyncRead | uffd-cow-gpt/cloud-hypervisor/block/src/qcow_async.rs:343-474 | By either path a completed asynchronous read leaves the memory the synchronous read leaves, and where no file beneath fails it succeeds exactly on the ranges that can be read |
| QcowRead.PlacedReads | uffd-cow-gpt/cloud-hypervisor/block/src/qcow_async.rs:343-387 | As long as a range lies in a cluster of its own, its file position holds exactly what the guest sees there |
| QcowRead.RunOne | uffd-cow-gpt/cloud-hypervisor/block/src/qcow_async.rs:259-310 | One batched request has the effect of the synchronous read or write, failures and lost tables included, or is left to the kernel with the right file position; without a loss no cluster of the guest's moves; success means that its range could be read, and a failure that no file explains is a read that could not be or a write that could not be or found no cluster left |
| QcowRead.SubmitBatch | uffd-cow-gpt/cloud-hypervisor/block/src/qcow_async.rs:254-333 | The requests run in order, each seeing the disk and memory the ones before it left; each is answered exactly once, by a submission or by a completion; at the end every submitted position still reads what the guest then sees of its range, unless the entry of that range was lost; a failed batch publishes no completion and leaves the disk as its failing request does, and for the same reasons |
| QcowRead.BatchOverlays | uffd-cow-gpt/cloud-hypervisor/block/src/qcow_async.rs:254-333 | After a batch every byte of the disk is the last one its writes put there, or what it was before |
| QcowRead.AnsweredOnce | uffd-cow-gpt/cloud-hypervisor/block/src/qcow_async.rs:259-310 | For every outcome of the reads, submissions and completions together carry each request's identifier once |
| BounceRequest.SectorOkIff | uffd-cow-gpt/cloud-hypervisor/block/src/request.rs:278-288 | The per-descriptor check admits exactly the buffers that, placed at the request's sector, end inside the disk |
| BounceRequest.Request.ExecuteAsync | uffd-cow-gpt/cloud-hypervisor/block/src/request.rs:253-378 | Prepares buffers that match the guest's one for one, skipping empty ones, fills them for a write, leaves guest memory alone and records every block it allocates; a failure names the buffer that caused it and why, all buffers before it being good, with one block for each misaligned one of them; every buffer handed on starts at a multiple of the alignment |
| BounceRequest.FirstBadIs | uffd-cow-gpt/cloud-hypervisor/block/src/request.rs:268-292 | A buffer that fails the checks after good ones is the one the check function names, for any descriptors |
| BounceRequest.StoppedAt | uffd-cow-gpt/cloud-hypervisor/block/src/request.rs:268-344 | Preparation stops at the first bad buffer, or earlier at a misaligned one for want of memory; it reports a bad request only if the request is one |
| BounceRequest.NoneMisaligned | uffd-cow-gpt/cloud-hypervisor/block/src/request.rs:299-334 | No block is allocated up to some buffer if and only if every non-empty buffer up to there is aligned |
| BounceRequest.Request.CompleteAsync | uffd-cow-gpt/cloud-hypervisor/block/src/request.rs:542-570 | Copies a read back in order and releases each bounce buffer exactly once |
| BounceRequest.BouncedStream | uffd-cow-gpt/cloud-hypervisor/block/src/request.rs:297-334 | For a write the device reads the same byte stream from the prepared buffers as from the guest's own |
| BounceRequest.CopiedIsDirect | uffd-cow-gpt/cloud-hypervisor/block/src/request.rs:542-570 | For a read into disjoint guest buffers, guest memory after the copies back is what direct execution leaves |
| BounceRequest.Read | uffd-cow-gpt/cloud-hypervisor/block/src/request.rs:253-378 | Prepare, device transfer and completion together leave guest memory as direct execution would and the heap as it was; a bad request always fails; a failed one leaves guest memory alone, except inside its buffers when the device failed, and on the heap exactly the blocks of the misaligned buffers before the first bad one, before memory ran out, or all of them |
| BounceRequest.Write | uffd-cow-gpt/cloud-hypervisor/block/src/request.rs:253-378 | Prepare, device transfer and completion together hand the device the guest's bytes, change no guest memory and leave the heap as it was; a bad request always fails; a failed one leaves on the heap exactly the blocks of the misaligned buffers before the first bad one, before memory ran out, or all of them |
| BounceRequest.LeakIs | uffd-cow-gpt/cloud-hypervisor/virtio-devices/src/block.rs:311-389 | A request dropped after some buffers leaves nothing on the heap if and only if none of them was misaligned and non-empty |
| BounceRequest.LeakOneBlock | uffd-cow-gpt/cloud-hypervisor/virtio-devices/src/block.rs:311-368 | A write of a misaligned good buffer and one past guest memory fails for the second and leaves one block allocated |
| BounceRequest.LedgerSize | uffd-cow-gpt/cloud-hypervisor/virtio-devices/src/block.rs:312-368 | A request dropped without completion leaves exactly as many blocks on the heap as it has copies pending |
| Ioapic.ReadOnlyBitsStay | uffd-cow-gpt/cloud-hypervisor/devices/src/ioapic.rs:276-286 | Guest writes change neither bit 12 nor bit 14 of an entry |
| Ioapic.WriteReadsBack | uffd-cow-gpt/cloud-hypervisor/devices/src/ioapic.rs:252-324 | After selecting any register and writing any value: a low half reads back as written outside bits 12 and 14 and as before there, a high half as written, the identifier as its four bits, a read-only register as before; every other register reads as before, but that the arbitration register follows the identifier |
| Ioapic.EntryReadsBack | uffd-cow-gpt/cloud-hypervisor/devices/src/ioapic.rs:276-318 | A written half of an entry reads back as written outside the read-only bits, and the other half as before |
| Ioapic.DataDecodes | uffd-cow-gpt/cloud-hypervisor/devices/src/ioapic.rs:376-379 | Vector, delivery mode, remote IRR and trigger mode can each be read back from the data word, so none overlaps another |
| Ioapic.AddressDecodes | uffd-cow-gpt/cloud-hypervisor/devices/src/ioapic.rs:349-352 | Destination, destination mode and the aligned APIC base can each be read back from the address word |
| Ioapic.DeliverySetsIrr | uffd-cow-gpt/cloud-hypervisor/devices/src/ioapic.rs:416-433 | Delivery sets remote IRR of a level-triggered pin and leaves it on an edge-triggered one |
| Ioapic.LevelInterruptRoundTrip | uffd-cow-gpt/cloud-hypervisor/devices/src/ioapic.rs:404-433 | After delivery and end of a level-triggered interrupt the pin is as before with both read-only bits clear |
| Ioapic.InterruptsKeepRoute | uffd-cow-gpt/cloud-hypervisor/devices/src/ioapic.rs:336-398 | Setting or clearing remote IRR and clearing delivery status change the encoded route in no bit but data bit 14 |
| Ioapic.ApplyKeepsOk | uffd-cow-gpt/cloud-hypervisor/devices/src/ioapic.rs:252-433 | Every register write, interrupt and end of interrupt keeps the invariant, failed route updates included |
| Ioapic.EveryRunIsOk | uffd-cow-gpt/cloud-hypervisor/devices/src/ioapic.rs:204-433 | In every run from reset each pushed pin's effective route is the encoding of its entry up to data bit 14, bit 12 is clear and unused pins are 0x10000 |
| Ioapic.EveryRouteIsItsEntry | uffd-cow-gpt/cloud-hypervisor/devices/src/ioapic.rs:336-398 | In every run from reset each used and pushed pin has a route in effect whose vector, delivery mode, trigger mode, destination, destination mode and mask are the bits of its entry, written with bit operations |
| Ioapic.RouteFields | uffd-cow-gpt/cloud-hypervisor/devices/src/ioapic.rs:336-398 | With an APIC base aligned to a megabyte, the same bits one by one, as the fields of data and address words that the interrupt controller reads |
| Ioapic.GuestWritesLow | uffd-cow-gpt/cloud-hypervisor/devices/src/ioapic.rs:276-296 | Writing the low half of a pin through the register window sets the low 32 bits of that pin's entry outside bits 12 and 14, and changes no other bit outside them and no other pin's entry |
| Ioapic.GuestWritesHigh | uffd-cow-gpt/cloud-hypervisor/devices/src/ioapic.rs:276-296 | Writing the high half sets the high 32 bits of that pin's entry, and changes no other bit outside bits 12 and 14 and no other pin's entry |
| Ioapic.WindowShowsHalf | uffd-cow-gpt/cloud-hypervisor/devices/src/ioapic.rs:298-318 | Register 0x10 + 2i shows the low half of pin i and register 0x11 + 2i its high half |
| Ioapic.ProgrammedRoute | uffd-cow-gpt/cloud-hypervisor/devices/src/ioapic.rs:252-398 | A guest that writes both halves of a pin gives it the route of the values written, read off them bit by bit |
| Ioapic.EndClearsItsVector | uffd-cow-gpt/cloud-hypervisor/devices/src/ioapic.rs:404-412 | An end of interrupt clears bit 14 of the level-triggered entries with its vector and changes no other entry |
| Ioapic.DeliveryBits | uffd-cow-gpt/cloud-hypervisor/devices/src/ioapic.rs:416-433 | Delivery sets bit 14 of a level-triggered entry, clears bit 12 and changes no other bit |
| Ioapic.AllPushed | uffd-cow-gpt/cloud-hypervisor/devices/src/ioapic.rs:252-296 | When route updates succeed every used pin is a pushed one |
| Ioapic.GuestWritesKeepReadOnly | uffd-cow-gpt/cloud-hypervisor/devices/src/ioapic.rs:252-296 | No guest write to any register changes bits 12 or 14 of any entry |
| Ioapic.Device.WriteRegister | uffd-cow-gpt/cloud-hypervisor/devices/src/ioapic.rs:252-296 | The register write is the specified step of the state machine, and the route it pushes that of EveryRouteIsItsEntry |
| Ioapic.Device.Write | uffd-cow-gpt/cloud-hypervisor/devices/src/ioapic.rs:169-188 | A four-byte bus write at the select offset or at the window is the specified step with the value written; any other is without effect |
| Ioapic.Device.Read | uffd-cow-gpt/cloud-hypervisor/devices/src/ioapic.rs:149-167 | A four-byte bus read at the select offset returns the selector, at the window what the specification shows there, and nothing elsewhere |
| Ioapic.Device.ServiceIrq | uffd-cow-gpt/cloud-hypervisor/devices/src/ioapic.rs:416-433 | Delivery triggers exactly that pin and is the specified step; a failed one triggers none and changes nothing |
| Ioapic.Device.EndOfInterrupt | uffd-cow-gpt/cloud-hypervisor/devices/src/ioapic.rs:404-412 | The loop clears remote IRR of exactly the level-triggered pins with that vector |
| Ioapic.Device.EnableUsed | uffd-cow-gpt/cloud-hypervisor/devices/src/ioapic.rs:232-247 | After a restore every used pin's route is recorded and effective, encoded from its entry; no other pin's route changes, and after a failure no route in effect has |
| Ioapic.SaveAndRestore | uffd-cow-gpt/cloud-hypervisor/devices/src/ioapic.rs:204-250 | Saving and restoring a sound device reproduces its registers and, on used pins whose last route update took effect, its routes up to data bit 14 |
| Pvmemcontrol.CommandsAreNotIds | uffd-cow-gpt/cloud-hypervisor/devices/src/pvmemcontrol.rs:70-81 | No command code is a connection, and each code parses to its command |
| Pvmemcontrol.TryConnection | uffd-cow-gpt/cloud-hypervisor/devices/src/pvmemcontrol.rs:242-252 | The test of bit 31 accepts exactly the connection range |
| Pvmemcontrol.StepKeepsInv | uffd-cow-gpt/cloud-hypervisor/devices/src/pvmemcontrol.rs:286-385 | Every command keeps issued connections distinct and in range, and the port map equal to them with checked addresses |
| Pvmemcontrol.EveryStateIsSound | uffd-cow-gpt/cloud-hypervisor/devices/src/pvmemcontrol.rs:286-385 | The same in every state of every command sequence from a new device |
| Pvmemcontrol.AnswersAreRegistered | uffd-cow-gpt/cloud-hypervisor/devices/src/pvmemcontrol.rs:409-414 | A connection is answered only in the ready state, only if issued since the last Reset, and with an address that passed the check |
| Pvmemcontrol.AnsweredIffIssued | uffd-cow-gpt/cloud-hypervisor/devices/src/pvmemcontrol.rs:286-326 | In every run a connection is answered with an address if and only if the device is ready and a Register of that address, with no Reset since, issued that connection |
| Pvmemcontrol.PayloadIsLittleEndian | uffd-cow-gpt/cloud-hypervisor/devices/src/pvmemcontrol.rs:83-86 | The address registered is the eight bytes of the payload, the lowest first |
| Pvmemcontrol.BrokenUntilReset | uffd-cow-gpt/cloud-hypervisor/devices/src/pvmemcontrol.rs:346-385 | A broken device stays broken and answers nothing until a Reset |
| Pvmemcontrol.TakenWhenAllIssued | uffd-cow-gpt/cloud-hypervisor/devices/src/pvmemcontrol.rs:304-318 | In a sound initialising device all connections are taken exactly when 2^31 have been issued since the last Reset |
| Pvmemcontrol.RegisterFailsIff | uffd-cow-gpt/cloud-hypervisor/devices/src/pvmemcontrol.rs:286-326 | In every run, registering a buffer breaks an initialising device if and only if the address is bad or 2^31 connections have been issued since the last Reset |
| Pvmemcontrol.Device.FindFree | uffd-cow-gpt/cloud-hypervisor/devices/src/pvmemcontrol.rs:304-318 | The wrapping search terminates, reports exhaustion exactly when every connection is taken, and otherwise finds the nearest free one |
| Pvmemcontrol.Device.RegisterPercpuBuf | uffd-cow-gpt/cloud-hypervisor/devices/src/pvmemcontrol.rs:286-326 | Registration is the specified step; its answer, read from the payload, is the connection issued; it fails exactly on a bad address or after 2^31 connections |
| Pvmemcontrol.Device.RunCommand | uffd-cow-gpt/cloud-hypervisor/devices/src/pvmemcontrol.rs:346-385 | Each command is the specified step and answers Error exactly when it leaves the device broken; a registration tells the connection issued |
| Pvmemcontrol.Device.HandleGuestWrite | uffd-cow-gpt/cloud-hypervisor/devices/src/pvmemcontrol.rs:618-657 | Dispatches a write to payload, command or connection by offset, length and value, with the answers of the command; serves only checked addresses; a command write of another length changes nothing |

## Left out

- Template reference counts, template deletion, module init and exit, and pool destruction: the pool and the driver run without them.
- Duplicated mappings and the branch in which inserting a page into a mapping fails: the reference-count theorems assume neither happens.
- Writes through driver mappings to pooled pages: a pooled page keeps its bytes in the model.
- Reference counts of the page structures and the balancing of the driver's tree: the tree is a map from offset to entry.
- I/O errors of the split tool, its page counter of unique pages, and SHA-256: the tool's file writes succeed and the hash is a parameter.
- Signals that interrupt a write-protect fault between its system calls, and the polling and shutdown of the handler thread.
- FaultPath.MappedPagesAreSnapshotPages: a pages file that grows under a loaded template gains whole slots in the model; a page not stored when its template was loaded can be read half written, as PageStore.HalfInsertReadsHole shows.
- QCOW2 reference counts and the cache of their blocks, and reuse of freed table clusters after a flush: reference-count upkeep takes clusters of its own, rewrites them with any bytes and may fail.
- The bytes of a second-level table: a table is a sequence of entries kept apart from the file. A write of one that stops inside an entry leaves any entry there, and then only the shape of the image and the bytes of other clusters are promised.
- Nested QCOW2 backing files: the backing disk is a raw file.
- Punch hole, write zeroes, discard, resize, flush, and the corrupt bit of the header.
- Completion lists and event notification of the synchronous back end; kernel execution of a submitted read is one vectored read of the file as it then is.
- Concurrent queues sharing one image: the image is used by one request at a time.
- Dirty-page marking, status bytes and the discard and device-id requests of the virtio block device; several guest memory regions: guest memory is one range.
- Overflow of buffer lengths and positions past the machine word: lengths are unbounded, and file sizes are below 2^64.
- QcowDisk.Qcow.WriteVectored: says when a first write to a cluster succeeds only for an image whose reference counts are in order, because they are not modelled.
- QcowRead.ReadVectored: says when a read succeeds only without direct I/O, because memory for the aligned buffers may run out.
- The byte order of bus accesses: the redirection table is read and written by 32-bit values.
- The request handlers behind a memory-control connection (madvise and the like) and its PCI configuration space.
- `uffd-cow`, an earlier version in C of the template memory with one backing file and no layers, and `ublk-mmap-demo`, a block device server in C that passes each request on to one sparse file.
- `remote-controller`, a sandbox controller in Go in which each call looks up or updates one record in memory, and `uffd-cow-gpt/src/main.rs`, the demonstration program that drives the template memory with a fixed scenario.
- The rest of the virtual machine monitor under `uffd-cow-gpt/cloud-hypervisor` (hypervisor bindings, instruction emulation, boot and machine setup, networking, PCI and virtio transport, other devices, other disk formats, migration): it neither calls nor is called by the modelled code except to pass requests to it.
