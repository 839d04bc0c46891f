/**
  The snapshot driver at run time: mappings of templates, page faults by any number of threads, the
  shared page pool and the per-mapping trees of tracked pages, interleaved at every lock release.
 */
module FaultPath {
  import opened Base
  import opened PageStore
  import opened SnapshotSplit
  import PagePool

  type EntryId = PagePool.EntryId
  type Tid = PagePool.Tid
  type VmaId = int
  type TemplateId = int

  /** A loaded template, together with the snapshot it was split from. */
  datatype Template = Template(snapshot: seq<Byte>, pageTable: seq<PageTableEntry>, pages: Table, totalSize: nat)

  datatype Vma = Vma(template: TemplateId, start: nat, size: nat, closing: bool)

  /** How far a thread has come in the fault handler, at the points where others may run. */
  datatype Phase =
    | Missed(vma: VmaId, off: nat, hash: Hash)
    | Loaded(vma: VmaId, off: nat, hash: Hash, page: Page)
    | Checked(vma: VmaId, off: nat, hash: Hash, page: Page)
    | Allocated(vma: VmaId, off: nat, hash: Hash, page: Page, id: EntryId)
    | Holding(vma: VmaId, off: nat, id: EntryId)

  /** The loaded templates and the mappings of them. */
  datatype Layout = Layout(templates: map<TemplateId, Template>, vmas: map<VmaId, Vma>)

  /**
    `nodes` are the va_to_pa trees of all mappings, `leaked` the references of faults whose tree node
    was not inserted, `mapped` what vmf_insert_page put into user page tables.
   */
  datatype Driver = Driver(
    layout: Layout,
    pool: PagePool.Pool,
    threads: map<Tid, Phase>,
    nodes: map<(VmaId, nat), EntryId>,
    leaked: multiset<EntryId>,
    handles: multiset<EntryId>,
    mapped: map<(VmaId, nat), Page>)

  datatype Step =
    | Load(tm: TemplateId, template: Template)
    | Append(tm: TemplateId, writes: seq<(Hash, Page)>)
    | Mmap(v: VmaId, tm: TemplateId, start: nat, size: nat)
    | FaultLookup(t: Tid, v: VmaId, address: nat)
    | FaultProbe(t: Tid)
    | FaultFail(t: Tid)
    | AddCheck(t: Tid)
    | AddAlloc(t: Tid, id: EntryId)
    | AddPublish(t: Tid)
    | MapPage(t: Tid, tracked: bool)
    | CloseBegin(v: VmaId)
    | CloseNode(v: VmaId, off: nat)
    | CloseEnd(v: VmaId)

  const EMPTY_DRIVER: Driver :=
    Driver(Layout(map[], map[]), PagePool.EMPTY_POOL, map[], map[], multiset{}, multiset{}, map[])

  function TemplatePages(tm: Template): nat {
    tm.totalSize / PAGE_SIZE
  }

  /** The size check of snapshot_mmap. */
  predicate MmapAccepts(tm: Template, size: nat) {
    size % PAGE_SIZE == 0 && size <= tm.totalSize
  }

  /** A template as snapshot_template_create loads it from split_snapshot's output. */
  ghost predicate TemplateOk(tm: Template, hash: PageHash, pages: iset<Page>) {
    && TemplatePages(tm) <= |tm.pageTable| && TemplatePages(tm) <= PageCount(tm.snapshot)
    && (forall i :: 0 <= i < TemplatePages(tm) ==>
          && tm.pageTable[i] == PageTableEntry(i * PAGE_SIZE, hash(PageAt(tm.snapshot, i)))
          && PageAt(tm.snapshot, i) in pages)
    && WellPlaced(tm.pages) && FiledByHash(tm.pages, hash, pages)
  }

  // ---------------------------------------------------------------- steps

  ghost predicate VmaOk(l: Layout, v: VmaId) {
    && v in l.vmas && l.vmas[v].template in l.templates
    && MmapAccepts(l.templates[l.vmas[v].template], l.vmas[v].size)
  }

  ghost function TemplateOf(l: Layout, v: VmaId): Template
    requires VmaOk(l, v)
  {
    l.templates[l.vmas[v].template]
  }

  ghost predicate Unused(d: Driver, id: EntryId) {
    && id !in d.pool.entries
    && forall t :: t in d.threads && d.threads[t].Allocated? ==> d.threads[t].id != id
  }

  /** Slot writes of pages in play, each under its own hash. */
  ghost predicate FiledWrites(writes: seq<(Hash, Page)>, hash: PageHash, pages: iset<Page>) {
    forall k :: 0 <= k < |writes| ==> writes[k].1 in pages && writes[k].0 == hash(writes[k].1)
  }

  /** Control has reached the step. The pages file of a loaded template may grow at any time. */
  ghost predicate Ready(d: Driver, s: Step, hash: PageHash, pages: iset<Page>) {
    match s
    case Load(tm, template) => tm !in d.layout.templates && TemplateOk(template, hash, pages)
    case Append(tm, writes) => tm in d.layout.templates && FiledWrites(writes, hash, pages)
    case Mmap(v, tm, start, size) =>
      v !in d.layout.vmas && tm in d.layout.templates && MmapAccepts(d.layout.templates[tm], size)
    case FaultLookup(t, v, address) =>
      && t !in d.threads && VmaOk(d.layout, v) && !d.layout.vmas[v].closing && d.layout.vmas[v].start <= address
    case FaultProbe(t) => t in d.threads && d.threads[t].Missed? && VmaOk(d.layout, d.threads[t].vma)
    case FaultFail(t) => t in d.threads && (d.threads[t].Missed? || d.threads[t].Loaded? || d.threads[t].Checked?)
    case AddCheck(t) => t in d.threads && d.threads[t].Loaded?
    case AddAlloc(t, id) => t in d.threads && d.threads[t].Checked? && Unused(d, id)
    case AddPublish(t) => t in d.threads && d.threads[t].Allocated?
    case MapPage(t, _) => t in d.threads && d.threads[t].Holding?
    case CloseBegin(v) =>
      v in d.layout.vmas && !d.layout.vmas[v].closing && forall t :: t in d.threads ==> d.threads[t].vma != v
    case CloseNode(v, off) =>
      && v in d.layout.vmas && d.layout.vmas[v].closing && (v, off) in d.nodes
      && (forall o: nat :: (v, o) in d.nodes ==> off <= o)
    case CloseEnd(v) => v in d.layout.vmas && d.layout.vmas[v].closing && forall o: nat :: (v, o) !in d.nodes
  }

  /** The step touches no entry that has left the pool and takes no count below zero. */
  ghost predicate Safe(d: Driver, s: Step) {
    match s
    case MapPage(t, _) => t in d.threads && d.threads[t].Holding? && d.threads[t].id in d.pool.entries
    case CloseNode(v, off) =>
      (v, off) in d.nodes && d.nodes[(v, off)] in d.pool.entries && d.pool.entries[d.nodes[(v, off)]].refs > 0
    case _ => true
  }

  ghost predicate Enabled(d: Driver, s: Step, hash: PageHash, pages: iset<Page>) {
    Ready(d, s, hash, pages) && Safe(d, s)
  }

  /** snapshot_vma_fault up to the end of the pool lookup; an index out of bounds is a bus error. */
  ghost function LookupStep(d: Driver, t: Tid, v: VmaId, address: nat): Driver
    requires VmaOk(d.layout, v) && d.layout.vmas[v].start <= address
  {
    var tm := TemplateOf(d.layout, v);
    var off := address - d.layout.vmas[v].start;
    if off / PAGE_SIZE >= TemplatePages(tm) || off / PAGE_SIZE >= |tm.pageTable| then d
    else
      var h := tm.pageTable[off / PAGE_SIZE].hash;
      var (pool, got) := PagePool.Acquire(d.pool, h);
      if got.Some? then
        d.(pool := pool, handles := d.handles + multiset{got.value},
           threads := d.threads[t := Holding(v, off, got.value)])
      else d.(threads := d.threads[t := Missed(v, off, h)])
  }

  ghost function ProbeStep(d: Driver, t: Tid): Driver
    requires t in d.threads && d.threads[t].Missed? && VmaOk(d.layout, d.threads[t].vma)
  {
    var ph := d.threads[t];
    match Lookup(TemplateOf(d.layout, ph.vma).pages, ph.hash)
    case Some(page) => d.(threads := d.threads[t := Loaded(ph.vma, ph.off, ph.hash, page)])
    case None => d.(threads := d.threads - {t})
  }

  ghost function CheckStep(d: Driver, t: Tid): Driver
    requires t in d.threads && d.threads[t].Loaded?
  {
    var ph := d.threads[t];
    var (pool, got) := PagePool.Acquire(d.pool, ph.hash);
    if got.Some? then
      d.(pool := pool, handles := d.handles + multiset{got.value},
         threads := d.threads[t := Holding(ph.vma, ph.off, got.value)])
    else d.(threads := d.threads[t := Checked(ph.vma, ph.off, ph.hash, ph.page)])
  }

  ghost function PublishStep(d: Driver, t: Tid): Driver
    requires t in d.threads && d.threads[t].Allocated?
  {
    var ph := d.threads[t];
    var (pool, got) := PagePool.Publish(d.pool, ph.id, ph.hash, ph.page);
    d.(pool := pool, handles := d.handles + multiset{got}, threads := d.threads[t := Holding(ph.vma, ph.off, got)])
  }

  /** The map_page label: a full tree slot or a failed allocation leaves the reference untracked. */
  ghost function MapStep(d: Driver, t: Tid, tracked: bool): Driver
    requires t in d.threads && d.threads[t].Holding? && d.threads[t].id in d.pool.entries
  {
    var ph := d.threads[t];
    var d1 := d.(threads := d.threads - {t},
                 mapped := d.mapped[(ph.vma, ph.off / PAGE_SIZE) := d.pool.entries[ph.id].page]);
    if tracked && (ph.vma, ph.off) !in d.nodes then d1.(nodes := d.nodes[(ph.vma, ph.off) := ph.id])
    else d1.(leaked := d.leaked + multiset{ph.id})
  }

  ghost function CloseNodeStep(d: Driver, v: VmaId, off: nat): Driver
    requires (v, off) in d.nodes
    requires d.nodes[(v, off)] in d.pool.entries && d.pool.entries[d.nodes[(v, off)]].refs > 0
  {
    var id := d.nodes[(v, off)];
    d.(pool := PagePool.Release(d.pool, id), handles := d.handles - multiset{id}, nodes := d.nodes - {(v, off)})
  }

  ghost function Next(d: Driver, s: Step, hash: PageHash, pages: iset<Page>): Driver
    requires Enabled(d, s, hash, pages)
  {
    match s
    case Load(tm, template) => d.(layout := d.layout.(templates := d.layout.templates[tm := template]))
    case Append(tm, writes) =>
      var grown := d.layout.templates[tm].(pages := InsertAll(d.layout.templates[tm].pages, writes));
      d.(layout := d.layout.(templates := d.layout.templates[tm := grown]))
    case Mmap(v, tm, start, size) => d.(layout := d.layout.(vmas := d.layout.vmas[v := Vma(tm, start, size, false)]))
    case FaultLookup(t, v, address) => LookupStep(d, t, v, address)
    case FaultProbe(t) => ProbeStep(d, t)
    case FaultFail(t) => d.(threads := d.threads - {t})
    case AddCheck(t) => CheckStep(d, t)
    case AddAlloc(t, id) =>
      var ph := d.threads[t];
      d.(threads := d.threads[t := Allocated(ph.vma, ph.off, ph.hash, ph.page, id)])
    case AddPublish(t) => PublishStep(d, t)
    case MapPage(t, tracked) => MapStep(d, t, tracked)
    case CloseBegin(v) => d.(layout := d.layout.(vmas := d.layout.vmas[v := d.layout.vmas[v].(closing := true)]))
    case CloseNode(v, off) => CloseNodeStep(d, v, off)
    case CloseEnd(v) =>
      d.(layout := d.layout.(vmas := d.layout.vmas - {v}), mapped := map k | k in d.mapped && k.0 != v :: d.mapped[k])
  }

  // ---------------------------------------------------------------- reference accounting

  type Nodes = map<(VmaId, nat), EntryId>
  type Threads = map<Tid, Phase>

  predicate Holds(ph: Phase, id: EntryId) {
    ph.Holding? && ph.id == id
  }

  ghost function InFlight(threads: Threads, id: EntryId): nat {
    |set t | t in threads && Holds(threads[t], id)|
  }

  /** Every handle is a tree node, a fault about to map its page, or a leaked reference. */
  ghost predicate Accounted(handles: multiset<EntryId>, nodes: Nodes, threads: Threads, leaked: multiset<EntryId>) {
    forall id :: handles[id] == PagePool.Pointers(nodes, id) + InFlight(threads, id) + leaked[id]
  }

  lemma ThreadMoved(threads: Threads, t: Tid, ph: Phase, x: EntryId)
    requires t in threads ==> !threads[t].Holding?
    ensures InFlight(threads[t := ph], x) == InFlight(threads, x) + if Holds(ph, x) then 1 else 0
  {
    var moved := threads[t := ph];
    var before := set u | u in threads && Holds(threads[u], x);
    var after := set u | u in moved && Holds(moved[u], x);
    assert t !in before;
    assert after == if Holds(ph, x) then before + {t} else before;
  }

  lemma ThreadDone(threads: Threads, t: Tid, x: EntryId)
    requires t in threads
    ensures InFlight(threads, x) == InFlight(threads - {t}, x) + if Holds(threads[t], x) then 1 else 0
  {
    var less := threads - {t};
    var before := set u | u in threads && Holds(threads[u], x);
    var after := set u | u in less && Holds(less[u], x);
    assert before == if Holds(threads[t], x) then after + {t} else after;
  }

  /** A thread that held nothing moves on, taking up a handle if it now holds an entry. */
  lemma AccountMove(handles: multiset<EntryId>, nodes: Nodes, threads: Threads, leaked: multiset<EntryId>, t: Tid,
                    ph: Phase)
    requires Accounted(handles, nodes, threads, leaked) && (t in threads ==> !threads[t].Holding?)
    ensures Accounted(if ph.Holding? then handles + multiset{ph.id} else handles, nodes, threads[t := ph], leaked)
  {
    forall x { ThreadMoved(threads, t, ph, x); }
  }

  lemma AccountQuit(handles: multiset<EntryId>, nodes: Nodes, threads: Threads, leaked: multiset<EntryId>, t: Tid)
    requires Accounted(handles, nodes, threads, leaked) && t in threads && !threads[t].Holding?
    ensures Accounted(handles, nodes, threads - {t}, leaked)
  {
    forall x { ThreadDone(threads, t, x); }
  }

  lemma AccountMap(handles: multiset<EntryId>, nodes: Nodes, threads: Threads, leaked: multiset<EntryId>, t: Tid,
                   k: (VmaId, nat))
    requires Accounted(handles, nodes, threads, leaked) && t in threads && threads[t].Holding?
    ensures k !in nodes ==> Accounted(handles, nodes[k := threads[t].id], threads - {t}, leaked)
    ensures Accounted(handles, nodes, threads - {t}, leaked + multiset{threads[t].id})
  {
    forall x { ThreadDone(threads, t, x); }
    if k !in nodes {
      forall x { PagePool.PointerAdded(nodes, k, threads[t].id, x); }
    }
  }

  lemma AccountClose(handles: multiset<EntryId>, nodes: Nodes, threads: Threads, leaked: multiset<EntryId>,
                     k: (VmaId, nat))
    requires Accounted(handles, nodes, threads, leaked) && k in nodes
    ensures nodes[k] in handles
    ensures Accounted(handles - multiset{nodes[k]}, nodes - {k}, threads, leaked)
  {
    forall x { PagePool.PointerRemoved(nodes, k, x); }
    PagePool.PointerRemoved(nodes, k, nodes[k]);
    assert handles[nodes[k]] >= 1;
  }

  lemma NoThreads(threads: Threads, id: EntryId)
    ensures threads == map[] ==> InFlight(threads, id) == 0
  {
    var holding := set t | t in threads && Holds(threads[t], id);
    assert holding <= threads.Keys;
    assert threads == map[] ==> holding == {};
  }

  lemma HolderIsCounted(threads: Threads, t: Tid, id: EntryId)
    requires t in threads && Holds(threads[t], id)
    ensures InFlight(threads, id) >= 1
  {
    ThreadDone(threads, t, id);
  }

  // ---------------------------------------------------------------- the invariant

  type Entries = map<EntryId, PagePool.Entry>

  /** Every pooled page is one of those in play, under its own hash. */
  ghost predicate PoolFiled(entries: Entries, hash: PageHash, pages: iset<Page>) {
    forall id :: id in entries ==> entries[id].page in pages && entries[id].hash == hash(entries[id].page)
  }

  /** The page a mapping must show at page index `i`. */
  ghost predicate ShowsPage(l: Layout, v: VmaId, i: nat, page: Page) {
    && VmaOk(l, v) && i < TemplatePages(TemplateOf(l, v)) && i < PageCount(TemplateOf(l, v).snapshot)
    && page == PageAt(TemplateOf(l, v).snapshot, i)
  }

  /** The key the page table files offset `off` under. */
  ghost predicate KeyOf(l: Layout, v: VmaId, off: nat, h: Hash) {
    && VmaOk(l, v) && !l.vmas[v].closing
    && off / PAGE_SIZE < TemplatePages(TemplateOf(l, v)) && off / PAGE_SIZE < |TemplateOf(l, v).pageTable|
    && h == TemplateOf(l, v).pageTable[off / PAGE_SIZE].hash
  }

  ghost predicate PhaseOk(l: Layout, entries: Entries, ph: Phase, hash: PageHash, pages: iset<Page>) {
    match ph
    case Missed(v, off, h) => KeyOf(l, v, off, h)
    case Loaded(v, off, h, page) => KeyOf(l, v, off, h) && page in pages && hash(page) == h
    case Checked(v, off, h, page) => KeyOf(l, v, off, h) && page in pages && hash(page) == h
    case Allocated(v, off, h, page, id) =>
      KeyOf(l, v, off, h) && page in pages && hash(page) == h && id !in entries
    case Holding(v, off, id) => id in entries && KeyOf(l, v, off, entries[id].hash)
  }

  ghost predicate ThreadsOk(l: Layout, entries: Entries, threads: Threads, hash: PageHash, pages: iset<Page>) {
    && (forall t :: t in threads ==> PhaseOk(l, entries, threads[t], hash, pages))
    && (forall t, u :: t in threads && u in threads && t != u && threads[t].Allocated? && threads[u].Allocated? ==>
          threads[t].id != threads[u].id)
  }

  ghost predicate LayoutOk(l: Layout, hash: PageHash, pages: iset<Page>) {
    && GoodHash(hash, pages)
    && (forall tm :: tm in l.templates ==> TemplateOk(l.templates[tm], hash, pages))
    && (forall v :: v in l.vmas ==> VmaOk(l, v))
  }

  ghost predicate NodesOk(l: Layout, nodes: Nodes) {
    forall k :: k in nodes ==> k.0 in l.vmas
  }

  ghost predicate MappedOk(l: Layout, mapped: map<(VmaId, nat), Page>) {
    forall k :: k in mapped ==> ShowsPage(l, k.0, k.1, mapped[k])
  }

  ghost predicate Inv(d: Driver, hash: PageHash, pages: iset<Page>) {
    && PagePool.Shaped(d.pool)
    && PagePool.Counted(d.pool, d.handles)
    && Accounted(d.handles, d.nodes, d.threads, d.leaked)
    && PoolFiled(d.pool.entries, hash, pages)
    && ThreadsOk(d.layout, d.pool.entries, d.threads, hash, pages)
    && LayoutOk(d.layout, hash, pages)
    && NodesOk(d.layout, d.nodes)
    && MappedOk(d.layout, d.mapped)
  }

  // ---------------------------------------------------------------- from fault address to page

  /** In an accepted mapping no fault address runs past the page table. */
  lemma FaultIsInBounds(tm: Template, size: nat, off: nat)
    requires MmapAccepts(tm, size) && off < size
    ensures off / PAGE_SIZE < TemplatePages(tm)
  {
    assert off / PAGE_SIZE < size / PAGE_SIZE <= tm.totalSize / PAGE_SIZE;
  }

  lemma FaultHasKey(l: Layout, hash: PageHash, pages: iset<Page>, v: VmaId, off: nat)
    requires LayoutOk(l, hash, pages) && VmaOk(l, v) && !l.vmas[v].closing
    requires off / PAGE_SIZE < TemplatePages(TemplateOf(l, v))
    ensures var i := off / PAGE_SIZE;
            && i < |TemplateOf(l, v).pageTable| && i < PageCount(TemplateOf(l, v).snapshot)
            && KeyOf(l, v, off, hash(PageAt(TemplateOf(l, v).snapshot, i)))
            && PageAt(TemplateOf(l, v).snapshot, i) in pages
  {
    assert TemplateOk(TemplateOf(l, v), hash, pages);
  }

  /** A page in play found under the key of `off` is the snapshot page at `off`. */
  lemma KeySelectsPage(l: Layout, hash: PageHash, pages: iset<Page>, v: VmaId, off: nat, page: Page)
    requires LayoutOk(l, hash, pages) && page in pages && KeyOf(l, v, off, hash(page))
    ensures ShowsPage(l, v, off / PAGE_SIZE, page)
  {
    FaultHasKey(l, hash, pages, v, off);
  }

  /** What the file probe returns under a fault's key is a page in play with that key. */
  lemma ProbeFindsPage(l: Layout, hash: PageHash, pages: iset<Page>, v: VmaId, off: nat, h: Hash)
    requires LayoutOk(l, hash, pages) && KeyOf(l, v, off, h)
    ensures Lookup(TemplateOf(l, v).pages, h).Some? ==>
              var page := Lookup(TemplateOf(l, v).pages, h).value;
              page in pages && hash(page) == h
  {
    FaultHasKey(l, hash, pages, v, off);
    var table := TemplateOf(l, v).pages;
    assert TemplateOk(TemplateOf(l, v), hash, pages);
    if Lookup(table, h).Some? {
      LookupMeansStored(table, h, Lookup(table, h).value);
      assert Slot(h, Lookup(table, h).value) in table;
    }
  }

  // ---------------------------------------------------------------- phases of the other threads

  /** The pool may gain the entry thread `t` allocated; hashes of present entries stay. */
  ghost predicate PoolGrows(before: Entries, after: Entries, threads: Threads, t: Tid) {
    && (forall id :: id in before ==> id in after && after[id].hash == before[id].hash)
    && (forall id :: id in after && id !in before ==> t in threads && threads[t].Allocated? && id == threads[t].id)
  }

  lemma OthersKeepPhase(l: Layout, before: Entries, after: Entries, threads: Threads, t: Tid,
                        hash: PageHash, pages: iset<Page>)
    requires ThreadsOk(l, before, threads, hash, pages) && PoolGrows(before, after, threads, t)
    ensures ThreadsOk(l, after, threads - {t}, hash, pages)
  {
    forall u | u in threads - {t}
      ensures PhaseOk(l, after, threads[u], hash, pages)
    {
      assert PhaseOk(l, before, threads[u], hash, pages);
    }
  }

  lemma OneMovesOn(l: Layout, before: Entries, after: Entries, threads: Threads, t: Tid, ph: Phase,
                   hash: PageHash, pages: iset<Page>)
    requires ThreadsOk(l, before, threads, hash, pages) && PoolGrows(before, after, threads, t)
    requires PhaseOk(l, after, ph, hash, pages) && !ph.Allocated?
    ensures ThreadsOk(l, after, threads[t := ph], hash, pages)
  {
    OthersKeepPhase(l, before, after, threads, t, hash, pages);
    var rest := threads - {t};
    assert forall u :: u in threads[t := ph] && u != t ==> u in rest && rest[u] == threads[t := ph][u];
  }

  // ---------------------------------------------------------------- preservation, step by step

  lemma AcquireFrame(p: PagePool.Pool, h: Hash)
    requires PagePool.Shaped(p)
    ensures var (q, got) := PagePool.Acquire(p, h);
            && q.entries.Keys == p.entries.Keys
            && (forall id :: id in p.entries ==>
                  q.entries[id].hash == p.entries[id].hash && q.entries[id].page == p.entries[id].page)
            && (got.Some? ==> got.value in q.entries && q.entries[got.value].hash == h)
            && (got.None? ==> q == p)
  {
    PagePool.FindHashIff(p, h);
  }

  /** A thread takes a handle on the pooled entry of its key, or goes on without one. */
  lemma AcquireKeeps(d: Driver, t: Tid, v: VmaId, off: nat, h: Hash, miss: Phase, e: Driver, hash: PageHash,
                     pages: iset<Page>)
    requires Inv(d, hash, pages) && (t in d.threads ==> !d.threads[t].Holding?)
    requires KeyOf(d.layout, v, off, h)
    requires !miss.Holding? && !miss.Allocated? && PhaseOk(d.layout, d.pool.entries, miss, hash, pages)
    requires var (pool, got) := PagePool.Acquire(d.pool, h);
             e == if got.Some?
                  then d.(pool := pool, handles := d.handles + multiset{got.value},
                          threads := d.threads[t := Holding(v, off, got.value)])
                  else d.(threads := d.threads[t := miss])
    ensures Inv(e, hash, pages)
  {
    PagePool.AcquireKeeps(d.pool, h, d.handles);
    AcquireFrame(d.pool, h);
    AccountMove(d.handles, d.nodes, d.threads, d.leaked, t, e.threads[t]);
    OneMovesOn(d.layout, d.pool.entries, e.pool.entries, d.threads, t, e.threads[t], hash, pages);
  }

  lemma LookupStepKeeps(d: Driver, t: Tid, v: VmaId, address: nat, hash: PageHash, pages: iset<Page>)
    requires Inv(d, hash, pages) && Enabled(d, FaultLookup(t, v, address), hash, pages)
    ensures Inv(LookupStep(d, t, v, address), hash, pages)
  {
    var off := address - d.layout.vmas[v].start;
    if off / PAGE_SIZE < TemplatePages(TemplateOf(d.layout, v)) {
      FaultHasKey(d.layout, hash, pages, v, off);
      var h := TemplateOf(d.layout, v).pageTable[off / PAGE_SIZE].hash;
      AcquireKeeps(d, t, v, off, h, Missed(v, off, h), LookupStep(d, t, v, address), hash, pages);
    }
  }

  lemma CheckStepKeeps(d: Driver, t: Tid, hash: PageHash, pages: iset<Page>)
    requires Inv(d, hash, pages) && Enabled(d, AddCheck(t), hash, pages)
    ensures Inv(CheckStep(d, t), hash, pages)
  {
    var ph := d.threads[t];
    assert PhaseOk(d.layout, d.pool.entries, ph, hash, pages);
    AcquireKeeps(d, t, ph.vma, ph.off, ph.hash, Checked(ph.vma, ph.off, ph.hash, ph.page), CheckStep(d, t), hash,
                 pages);
  }

  lemma ProbeStepKeeps(d: Driver, t: Tid, hash: PageHash, pages: iset<Page>)
    requires Inv(d, hash, pages) && Enabled(d, FaultProbe(t), hash, pages)
    ensures Inv(ProbeStep(d, t), hash, pages)
  {
    var ph := d.threads[t];
    var e := ProbeStep(d, t);
    assert PhaseOk(d.layout, d.pool.entries, ph, hash, pages);
    ProbeFindsPage(d.layout, hash, pages, ph.vma, ph.off, ph.hash);
    if t in e.threads {
      AccountMove(d.handles, d.nodes, d.threads, d.leaked, t, e.threads[t]);
      OneMovesOn(d.layout, d.pool.entries, d.pool.entries, d.threads, t, e.threads[t], hash, pages);
    } else {
      AccountQuit(d.handles, d.nodes, d.threads, d.leaked, t);
      OthersKeepPhase(d.layout, d.pool.entries, d.pool.entries, d.threads, t, hash, pages);
    }
  }

  lemma PublishFrame(p: PagePool.Pool, id: EntryId, h: Hash, page: Page)
    requires PagePool.Shaped(p) && id !in p.entries
    ensures var (q, got) := PagePool.Publish(p, id, h, page);
            && (forall x :: x in p.entries ==>
                  x in q.entries && q.entries[x].hash == p.entries[x].hash && q.entries[x].page == p.entries[x].page)
            && (forall x :: x in q.entries && x !in p.entries ==>
                  x == id && q.entries[x].page == page && q.entries[x].hash == h)
            && got in q.entries && q.entries[got].hash == h
  {
    PagePool.FindHashIff(p, h);
  }

  lemma PublishStepKeeps(d: Driver, t: Tid, hash: PageHash, pages: iset<Page>)
    requires Inv(d, hash, pages) && Enabled(d, AddPublish(t), hash, pages)
    ensures Inv(PublishStep(d, t), hash, pages)
  {
    hide Accounted, PagePool.Shaped, PagePool.Counted;
    var e := PublishStep(d, t);
    var ph := d.threads[t];
    assert PhaseOk(d.layout, d.pool.entries, ph, hash, pages);
    PagePool.PublishKeeps(d.pool, ph.id, ph.hash, ph.page, d.handles);
    PublishFrame(d.pool, ph.id, ph.hash, ph.page);
    AccountMove(d.handles, d.nodes, d.threads, d.leaked, t, e.threads[t]);
    OneMovesOn(d.layout, d.pool.entries, e.pool.entries, d.threads, t, e.threads[t], hash, pages);
  }

  lemma MapStepKeeps(d: Driver, t: Tid, tracked: bool, hash: PageHash, pages: iset<Page>)
    requires Inv(d, hash, pages) && Enabled(d, MapPage(t, tracked), hash, pages)
    ensures Inv(MapStep(d, t, tracked), hash, pages)
  {
    hide Accounted, PagePool.Shaped, PagePool.Counted;
    var ph := d.threads[t];
    assert PhaseOk(d.layout, d.pool.entries, ph, hash, pages);
    KeySelectsPage(d.layout, hash, pages, ph.vma, ph.off, d.pool.entries[ph.id].page);
    AccountMap(d.handles, d.nodes, d.threads, d.leaked, t, (ph.vma, ph.off));
    OthersKeepPhase(d.layout, d.pool.entries, d.pool.entries, d.threads, t, hash, pages);
  }

  /** Releasing a tree node's handle takes no entry from under a fault in flight. */
  lemma CloseNodeStepKeeps(d: Driver, v: VmaId, off: nat, hash: PageHash, pages: iset<Page>)
    requires Inv(d, hash, pages) && Enabled(d, CloseNode(v, off), hash, pages)
    ensures Inv(CloseNodeStep(d, v, off), hash, pages)
  {
    hide Accounted, PagePool.Shaped, PagePool.Counted, PagePool.Release, ThreadsOk, LayoutOk, PoolFiled, MappedOk;
    var e := CloseNodeStep(d, v, off);
    var id := d.nodes[(v, off)];
    AccountClose(d.handles, d.nodes, d.threads, d.leaked, (v, off));
    PagePool.ReleaseKeeps(d.pool, id, d.handles);
    ReleaseFrame(d.pool, id, hash, pages);
    HeldEntriesStay(e);
    PhasesSurvive(d.layout, d.pool.entries, e.pool.entries, d.threads, hash, pages);
  }

  lemma ReleaseFrame(p: PagePool.Pool, id: EntryId, hash: PageHash, pages: iset<Page>)
    requires id in p.entries && p.entries[id].refs > 0 && PoolFiled(p.entries, hash, pages)
    ensures var q := PagePool.Release(p, id).entries;
            && (forall x :: x in q ==> x in p.entries && q[x].hash == p.entries[x].hash)
            && PoolFiled(q, hash, pages)
  {
  }

  lemma PhasesSurvive(l: Layout, before: Entries, after: Entries, threads: Threads, hash: PageHash, pages: iset<Page>)
    requires ThreadsOk(l, before, threads, hash, pages)
    requires forall id :: id in after ==> id in before && after[id].hash == before[id].hash
    requires forall t :: t in threads && threads[t].Holding? ==> threads[t].id in after
    ensures ThreadsOk(l, after, threads, hash, pages)
  {
    forall t | t in threads
      ensures PhaseOk(l, after, threads[t], hash, pages)
    {
      assert PhaseOk(l, before, threads[t], hash, pages);
    }
  }

  lemma HeldEntriesStay(d: Driver)
    requires PagePool.Counted(d.pool, d.handles) && Accounted(d.handles, d.nodes, d.threads, d.leaked)
    ensures forall t :: t in d.threads && d.threads[t].Holding? ==> d.threads[t].id in d.pool.entries
  {
    forall t | t in d.threads && d.threads[t].Holding?
      ensures d.threads[t].id in d.pool.entries
    {
      HolderIsCounted(d.threads, t, d.threads[t].id);
      assert d.threads[t].id in d.handles;
    }
  }

  /** Mapping `v` and its template are the same in both layouts, but for the contents of the pages file. */
  ghost predicate SameVma(l: Layout, m: Layout, v: VmaId) {
    && v in l.vmas && v in m.vmas && m.vmas[v] == l.vmas[v]
    && l.vmas[v].template in l.templates && l.vmas[v].template in m.templates
    && var tm := m.templates[l.vmas[v].template];
       tm == l.templates[l.vmas[v].template].(pages := tm.pages)
  }

  lemma ThreadsKeepLayout(l: Layout, m: Layout, entries: Entries, threads: Threads, hash: PageHash, pages: iset<Page>)
    requires ThreadsOk(l, entries, threads, hash, pages)
    requires forall t :: t in threads && VmaOk(l, threads[t].vma) ==> SameVma(l, m, threads[t].vma)
    ensures ThreadsOk(m, entries, threads, hash, pages)
  {
    forall t | t in threads
      ensures PhaseOk(m, entries, threads[t], hash, pages)
    {
      assert PhaseOk(l, entries, threads[t], hash, pages);
    }
  }

  lemma MappedKeepsLayout(l: Layout, m: Layout, mapped: map<(VmaId, nat), Page>)
    requires MappedOk(l, mapped)
    requires forall k :: k in mapped && VmaOk(l, k.0) ==> SameVma(l, m, k.0)
    ensures MappedOk(m, mapped)
  {
    forall k | k in mapped
      ensures ShowsPage(m, k.0, k.1, mapped[k])
    {
      assert ShowsPage(l, k.0, k.1, mapped[k]);
    }
  }

  lemma {:induction false} LaterWritesFiled(t: Table, hash: PageHash, pages: iset<Page>, later: seq<(Hash, Page)>)
    requires FiledByHash(t, hash, pages) && FiledWrites(later, hash, pages)
    ensures FiledByHash(InsertAll(t, later), hash, pages)
    decreases |later|
  {
    if later != [] {
      InsertFiled(t, hash, pages, later[0].1);
      LaterWritesFiled(Insert(t, later[0].0, later[0].1), hash, pages, later[1..]);
    }
  }

  /** A template stays loadable, and every stored page stored, when its pages file grows. */
  lemma GrownIsOk(tm: Template, writes: seq<(Hash, Page)>, hash: PageHash, pages: iset<Page>)
    requires TemplateOk(tm, hash, pages) && FiledWrites(writes, hash, pages)
    ensures TemplateOk(tm.(pages := InsertAll(tm.pages, writes)), hash, pages)
  {
    WritesKeepPlacement(tm.pages, writes);
    LaterWritesFiled(tm.pages, hash, pages, writes);
  }

  lemma GrowStepKeeps(d: Driver, s: Step, hash: PageHash, pages: iset<Page>)
    requires Inv(d, hash, pages) && Enabled(d, s, hash, pages) && (s.Load? || s.Append? || s.Mmap?)
    ensures Inv(Next(d, s, hash, pages), hash, pages)
  {
    hide PagePool.Shaped, PagePool.Counted, Accounted;
    var l, m := d.layout, Next(d, s, hash, pages).layout;
    if s.Append? {
      GrownIsOk(l.templates[s.tm], s.writes, hash, pages);
    }
    forall v | VmaOk(l, v)
      ensures SameVma(l, m, v)
    {
    }
    ThreadsKeepLayout(l, m, d.pool.entries, d.threads, hash, pages);
    MappedKeepsLayout(l, m, d.mapped);
    forall v | v in m.vmas
      ensures VmaOk(m, v)
    {
      assert v in l.vmas ==> VmaOk(l, v);
    }
  }

  lemma CloseBeginKeeps(d: Driver, v: VmaId, hash: PageHash, pages: iset<Page>)
    requires Inv(d, hash, pages) && Enabled(d, CloseBegin(v), hash, pages)
    ensures Inv(Next(d, CloseBegin(v), hash, pages), hash, pages)
  {
    var l, m := d.layout, Next(d, CloseBegin(v), hash, pages).layout;
    forall w | VmaOk(l, w)
      ensures VmaOk(m, w) && TemplateOf(m, w) == TemplateOf(l, w)
      ensures w != v ==> SameVma(l, m, w)
    {
    }
    ThreadsKeepLayout(l, m, d.pool.entries, d.threads, hash, pages);
    forall k | k in d.mapped
      ensures ShowsPage(m, k.0, k.1, d.mapped[k])
    {
      assert ShowsPage(l, k.0, k.1, d.mapped[k]);
    }
  }

  lemma CloseEndKeeps(d: Driver, v: VmaId, hash: PageHash, pages: iset<Page>)
    requires Inv(d, hash, pages) && Enabled(d, CloseEnd(v), hash, pages)
    ensures Inv(Next(d, CloseEnd(v), hash, pages), hash, pages)
  {
    var e := Next(d, CloseEnd(v), hash, pages);
    var l, m := d.layout, e.layout;
    forall w | VmaOk(l, w) && w != v
      ensures SameVma(l, m, w) && VmaOk(m, w)
    {
    }
    forall t | t in d.threads
      ensures d.threads[t].vma != v
    {
      assert PhaseOk(l, d.pool.entries, d.threads[t], hash, pages);
    }
    ThreadsKeepLayout(l, m, d.pool.entries, d.threads, hash, pages);
    MappedKeepsLayout(l, m, e.mapped);
  }

  lemma FailStepKeeps(d: Driver, t: Tid, hash: PageHash, pages: iset<Page>)
    requires Inv(d, hash, pages) && Enabled(d, FaultFail(t), hash, pages)
    ensures Inv(Next(d, FaultFail(t), hash, pages), hash, pages)
  {
    AccountQuit(d.handles, d.nodes, d.threads, d.leaked, t);
    OthersKeepPhase(d.layout, d.pool.entries, d.pool.entries, d.threads, t, hash, pages);
  }

  lemma AllocStepKeeps(d: Driver, t: Tid, id: EntryId, hash: PageHash, pages: iset<Page>)
    requires Inv(d, hash, pages) && Enabled(d, AddAlloc(t, id), hash, pages)
    ensures Inv(Next(d, AddAlloc(t, id), hash, pages), hash, pages)
  {
    hide Accounted, PagePool.Shaped, PagePool.Counted;
    var e := Next(d, AddAlloc(t, id), hash, pages);
    assert PhaseOk(d.layout, d.pool.entries, d.threads[t], hash, pages);
    AccountMove(d.handles, d.nodes, d.threads, d.leaked, t, e.threads[t]);
    forall u | u in e.threads
      ensures PhaseOk(e.layout, e.pool.entries, e.threads[u], hash, pages)
    {
      assert PhaseOk(d.layout, d.pool.entries, d.threads[u], hash, pages);
    }
  }

  lemma StepKeepsInv(d: Driver, s: Step, hash: PageHash, pages: iset<Page>)
    requires Inv(d, hash, pages) && Enabled(d, s, hash, pages)
    ensures Inv(Next(d, s, hash, pages), hash, pages)
  {
    hide Inv;
    match s
    case FaultLookup(t, v, address) => LookupStepKeeps(d, t, v, address, hash, pages);
    case FaultProbe(t) => ProbeStepKeeps(d, t, hash, pages);
    case AddCheck(t) => CheckStepKeeps(d, t, hash, pages);
    case AddPublish(t) => PublishStepKeeps(d, t, hash, pages);
    case MapPage(t, tracked) => MapStepKeeps(d, t, tracked, hash, pages);
    case CloseNode(v, off) => CloseNodeStepKeeps(d, v, off, hash, pages);
    case FaultFail(t) => FailStepKeeps(d, t, hash, pages);
    case AddAlloc(t, id) => AllocStepKeeps(d, t, id, hash, pages);
    case CloseBegin(v) => CloseBeginKeeps(d, v, hash, pages);
    case CloseEnd(v) => CloseEndKeeps(d, v, hash, pages);
    case _ => GrowStepKeeps(d, s, hash, pages);
  }

  ghost predicate Run(d: Driver, steps: seq<Step>, end: Driver, hash: PageHash, pages: iset<Page>)
    decreases |steps|
  {
    if steps == [] then end == d
    else Enabled(d, steps[0], hash, pages) && Run(Next(d, steps[0], hash, pages), steps[1..], end, hash, pages)
  }

  lemma {:induction false} EveryRunKeepsInv(d: Driver, steps: seq<Step>, end: Driver, hash: PageHash, pages: iset<Page>)
    requires Inv(d, hash, pages) && Run(d, steps, end, hash, pages)
    ensures Inv(end, hash, pages)
    decreases |steps|
  {
    if steps != [] {
      StepKeepsInv(d, steps[0], hash, pages);
      EveryRunKeepsInv(Next(d, steps[0], hash, pages), steps[1..], end, hash, pages);
    }
  }

  ghost predicate Reachable(d: Driver, hash: PageHash, pages: iset<Page>) {
    exists steps :: Run(EMPTY_DRIVER, steps, d, hash, pages)
  }

  lemma ReachableIsSound(d: Driver, hash: PageHash, pages: iset<Page>)
    requires GoodHash(hash, pages) && Reachable(d, hash, pages)
    ensures Inv(d, hash, pages)
  {
    var steps :| Run(EMPTY_DRIVER, steps, d, hash, pages);
    forall id
      ensures PagePool.Pointers(EMPTY_DRIVER.nodes, id) == 0 && InFlight(map[], id) == 0
    {
      PagePool.NoPointers(EMPTY_DRIVER.nodes, id);
      NoThreads(map[], id);
    }
    EveryRunKeepsInv(EMPTY_DRIVER, steps, d, hash, pages);
  }

  // ---------------------------------------------------------------- what the driver guarantees

  /** In every reachable state, whatever user space sees mapped is its snapshot's page. */
  lemma MappedPagesAreSnapshotPages(d: Driver, hash: PageHash, pages: iset<Page>, v: VmaId, i: nat)
    requires GoodHash(hash, pages) && Reachable(d, hash, pages) && (v, i) in d.mapped
    ensures VmaOk(d.layout, v) && i < PageCount(TemplateOf(d.layout, v).snapshot)
    ensures d.mapped[(v, i)] == PageAt(TemplateOf(d.layout, v).snapshot, i)
  {
    ReachableIsSound(d, hash, pages);
    assert ShowsPage(d.layout, v, i, d.mapped[(v, i)]);
  }

  /** A fault that has its entry will map exactly the snapshot page of its address. */
  lemma FaultSelectsSnapshotPage(d: Driver, hash: PageHash, pages: iset<Page>, t: Tid)
    requires GoodHash(hash, pages) && Reachable(d, hash, pages) && t in d.threads && d.threads[t].Holding?
    ensures d.threads[t].id in d.pool.entries
    ensures ShowsPage(d.layout, d.threads[t].vma, d.threads[t].off / PAGE_SIZE, d.pool.entries[d.threads[t].id].page)
  {
    ReachableIsSound(d, hash, pages);
    var ph := d.threads[t];
    assert PhaseOk(d.layout, d.pool.entries, ph, hash, pages);
    KeySelectsPage(d.layout, hash, pages, ph.vma, ph.off, d.pool.entries[ph.id].page);
  }

  /** Page `i` of a template can be read from its pages file. */
  ghost predicate Stored(tm: Template, hash: PageHash, i: nat)
    requires i < PageCount(tm.snapshot)
  {
    Lookup(tm.pages, hash(PageAt(tm.snapshot, i))) == Some(PageAt(tm.snapshot, i))
  }

  /**
    Splitting a snapshot into any well-formed pages file, and inserting whatever else afterwards,
    yields a loadable template in which every page whose slot write returned 0 is stored.
   */
  lemma SplitMakesTemplate(t0: Table, hash: PageHash, pages: iset<Page>, snapshot: seq<Byte>,
                           pageTable: seq<PageTableEntry>, codes: seq<int>, file: Table,
                           later: seq<(Hash, Page)>, totalSize: nat, i: nat)
    requires GoodHash(hash, pages) && WellPlaced(t0) && FiledByHash(t0, hash, pages)
    requires forall k :: 0 <= k < PageCount(snapshot) ==> PageAt(snapshot, k) in pages
    requires FiledWrites(later, hash, pages)
    requires SplitUpTo(t0, hash, snapshot, PageCount(snapshot), pageTable, codes, file)
    requires totalSize / PAGE_SIZE <= PageCount(snapshot)
    requires i < PageCount(snapshot)
    ensures var tm := Template(snapshot, pageTable, InsertAll(file, later), totalSize);
            TemplateOk(tm, hash, pages) && (codes[i] == 0 ==> Stored(tm, hash, i))
  {
    SplitFilesByHash(t0, hash, pages, snapshot, PageCount(snapshot));
    TableIsWellPlaced(t0, hash, snapshot, PageCount(snapshot));
    WritesKeepPlacement(file, later);
    LaterWritesFiled(file, hash, pages, later);
    if codes[i] == 0 {
      AcceptedPageReadsBack(t0, hash, pages, snapshot, i);
      assert PageAt(snapshot, i) in pages;
      LookupSurvivesWrites(file, later, hash(PageAt(snapshot, i)));
    }
  }

  lemma GrownKeepsStored(tm: Template, writes: seq<(Hash, Page)>, hash: PageHash, pages: iset<Page>, i: nat)
    requires GoodHash(hash, pages) && TemplateOk(tm, hash, pages) && FiledWrites(writes, hash, pages)
    requires i < TemplatePages(tm) && i < PageCount(tm.snapshot) && Stored(tm, hash, i)
    ensures Stored(tm.(pages := InsertAll(tm.pages, writes)), hash, i)
  {
    assert PageAt(tm.snapshot, i) in pages;
    LookupSurvivesWrites(tm.pages, writes, hash(PageAt(tm.snapshot, i)));
  }

  /** A fault address inside an accepted mapping passes the bounds check and takes the page's key. */
  lemma FaultPassesBounds(d: Driver, hash: PageHash, pages: iset<Page>, t: Tid, v: VmaId, address: nat)
    requires GoodHash(hash, pages) && Reachable(d, hash, pages) && Enabled(d, FaultLookup(t, v, address), hash, pages)
    requires address < d.layout.vmas[v].start + d.layout.vmas[v].size
    ensures var off := address - d.layout.vmas[v].start;
            var tm := TemplateOf(d.layout, v);
            var e := LookupStep(d, t, v, address);
            && off / PAGE_SIZE < TemplatePages(tm) && off / PAGE_SIZE < PageCount(tm.snapshot)
            && t in e.threads && e.threads[t].vma == v && e.threads[t].off == off
            && (e.threads[t].Holding? || e.threads[t] == Missed(v, off, hash(PageAt(tm.snapshot, off / PAGE_SIZE))))
  {
    hide LayoutOk, PagePool.Shaped, PagePool.Counted, Accounted, PoolFiled, ThreadsOk, NodesOk, MappedOk,
         PagePool.Acquire, PageAt;
    ReachableIsSound(d, hash, pages);
    var off := address - d.layout.vmas[v].start;
    FaultIsInBounds(TemplateOf(d.layout, v), d.layout.vmas[v].size, off);
    FaultHasKey(d.layout, hash, pages, v, off);
  }

  /**
    In every reachable state, however the other threads and the file have moved since the lookup, the
    file probe of a fault on a stored page yields exactly that page: no bus error.
   */
  lemma StoredPageFaultSucceeds(d: Driver, hash: PageHash, pages: iset<Page>, t: Tid)
    requires GoodHash(hash, pages) && Reachable(d, hash, pages) && t in d.threads && d.threads[t].Missed?
    ensures var ph := d.threads[t];
            && VmaOk(d.layout, ph.vma)
            && var tm := TemplateOf(d.layout, ph.vma);
               var i := ph.off / PAGE_SIZE;
               && i < TemplatePages(tm) && i < PageCount(tm.snapshot) && ph.hash == hash(PageAt(tm.snapshot, i))
               && (Stored(tm, hash, i) ==>
                     && t in ProbeStep(d, t).threads
                     && ProbeStep(d, t).threads[t] == Loaded(ph.vma, ph.off, ph.hash, PageAt(tm.snapshot, i)))
  {
    ReachableIsSound(d, hash, pages);
    MissedHasKey(d, hash, pages, t);
  }

  lemma MissedHasKey(d: Driver, hash: PageHash, pages: iset<Page>, t: Tid)
    requires Inv(d, hash, pages) && t in d.threads
    ensures var ph := d.threads[t];
            && VmaOk(d.layout, ph.vma) && !d.layout.vmas[ph.vma].closing
            && var tm := TemplateOf(d.layout, ph.vma);
               var i := ph.off / PAGE_SIZE;
               && i < TemplatePages(tm) && i < PageCount(tm.snapshot)
               && (ph.Missed? ==> ph.hash == hash(PageAt(tm.snapshot, i)))
  {
    var ph := d.threads[t];
    assert PhaseOk(d.layout, d.pool.entries, ph, hash, pages);
    FaultHasKey(d.layout, hash, pages, ph.vma, ph.off);
  }

  /**
    A fault on a stored page leaves the handler only by an allocation or I/O failure or by mapping
    exactly the snapshot's page: whatever step any thread takes, it is still on its way otherwise.
   */
  lemma StoredFaultEndsInItsPage(d: Driver, s: Step, hash: PageHash, pages: iset<Page>, t: Tid)
    requires GoodHash(hash, pages) && Reachable(d, hash, pages) && Enabled(d, s, hash, pages) && t in d.threads
    requires s != FaultFail(t)
    ensures VmaOk(d.layout, d.threads[t].vma)
    ensures var ph := d.threads[t];
            var tm := TemplateOf(d.layout, ph.vma);
            var i := ph.off / PAGE_SIZE;
            var e := Next(d, s, hash, pages);
            && i < PageCount(tm.snapshot)
            && (Stored(tm, hash, i) ==>
                  || t in e.threads
                  || (s.MapPage? && s.t == t && (ph.vma, i) in e.mapped &&
                      e.mapped[(ph.vma, i)] == PageAt(tm.snapshot, i)))
  {
    hide Inv, Lookup, Reachable;
    ReachableIsSound(d, hash, pages);
    MissedHasKey(d, hash, pages, t);
    if s.MapPage? && s.t == t {
      FaultSelectsSnapshotPage(d, hash, pages, t);
    } else if s.FaultProbe? && s.t == t {
      StoredPageFaultSucceeds(d, hash, pages, t);
    } else {
      StaysInHandler(d, s, hash, pages, t);
    }
  }

  lemma StaysInHandler(d: Driver, s: Step, hash: PageHash, pages: iset<Page>, t: Tid)
    requires Enabled(d, s, hash, pages) && t in d.threads
    requires s != FaultFail(t) && s != FaultProbe(t) && !(s.MapPage? && s.t == t)
    ensures t in Next(d, s, hash, pages).threads
  {
    hide PagePool.Acquire, PagePool.Publish, PagePool.Release, Lookup, TemplateOk;
  }

  /** Over every run a template stays loaded with its snapshot, and its stored pages stay stored. */
  lemma {:induction false} StoredStays(d: Driver, steps: seq<Step>, end: Driver, hash: PageHash, pages: iset<Page>,
                                       tm: TemplateId, i: nat)
    requires Inv(d, hash, pages) && Run(d, steps, end, hash, pages) && tm in d.layout.templates
    requires i < TemplatePages(d.layout.templates[tm]) && i < PageCount(d.layout.templates[tm].snapshot)
    requires Stored(d.layout.templates[tm], hash, i)
    ensures tm in end.layout.templates
    ensures end.layout.templates[tm] == d.layout.templates[tm].(pages := end.layout.templates[tm].pages)
    ensures Stored(end.layout.templates[tm], hash, i)
    decreases |steps|
  {
    hide Lookup, Inv, PagePool.Acquire, PagePool.Publish, PagePool.Release;
    if steps != [] {
      var e := Next(d, steps[0], hash, pages);
      StepKeepsInv(d, steps[0], hash, pages);
      StoredStaysOneStep(d, steps[0], hash, pages, tm, i);
      StoredStays(e, steps[1..], end, hash, pages, tm, i);
    }
  }

  lemma {:induction false} RunsJoin(d: Driver, a: seq<Step>, mid: Driver, b: seq<Step>, end: Driver, hash: PageHash,
                                    pages: iset<Page>)
    requires Run(d, a, mid, hash, pages) && Run(mid, b, end, hash, pages)
    ensures Run(d, a + b, end, hash, pages)
    decreases |a|
  {
    hide Enabled, Next;
    if a == [] {
      assert a + b == b;
    } else {
      assert (a + b)[1..] == a[1..] + b;
      RunsJoin(Next(d, a[0], hash, pages), a[1..], mid, b, end, hash, pages);
    }
  }

  lemma ReachableFurther(d: Driver, steps: seq<Step>, end: Driver, hash: PageHash, pages: iset<Page>)
    requires Reachable(d, hash, pages) && Run(d, steps, end, hash, pages)
    ensures Reachable(end, hash, pages)
  {
    hide Run;
    var before :| Run(EMPTY_DRIVER, before, d, hash, pages);
    RunsJoin(EMPTY_DRIVER, before, d, steps, end, hash, pages);
  }

  /**
    End to end: once page `i` of a loaded template is stored, then after any run at all a fault on that
    page of any mapping of the template ends only in a failed allocation or read, or in that page mapped.
   */
  lemma StoredPageIsServed(d0: Driver, steps: seq<Step>, d: Driver, s: Step, hash: PageHash, pages: iset<Page>,
                           t: Tid, tm: TemplateId, i: nat)
    requires GoodHash(hash, pages) && Reachable(d0, hash, pages) && tm in d0.layout.templates
    requires i < TemplatePages(d0.layout.templates[tm]) && i < PageCount(d0.layout.templates[tm].snapshot)
    requires Stored(d0.layout.templates[tm], hash, i)
    requires Run(d0, steps, d, hash, pages) && Enabled(d, s, hash, pages) && t in d.threads && s != FaultFail(t)
    requires d.threads[t].vma in d.layout.vmas && d.layout.vmas[d.threads[t].vma].template == tm
    requires d.threads[t].off / PAGE_SIZE == i
    ensures var v := d.threads[t].vma;
            var e := Next(d, s, hash, pages);
            || t in e.threads
            || (&& s.MapPage? && s.t == t && (v, i) in e.mapped
                && e.mapped[(v, i)] == PageAt(d0.layout.templates[tm].snapshot, i))
  {
    hide Inv, Reachable, Run, Next, Enabled, Lookup;
    ReachableIsSound(d0, hash, pages);
    StoredStays(d0, steps, d, hash, pages, tm, i);
    ReachableFurther(d0, steps, d, hash, pages);
    StoredFaultEndsInItsPage(d, s, hash, pages, t);
  }

  lemma StoredStaysOneStep(d: Driver, s: Step, hash: PageHash, pages: iset<Page>, tm: TemplateId, i: nat)
    requires Inv(d, hash, pages) && Enabled(d, s, hash, pages) && tm in d.layout.templates
    requires i < TemplatePages(d.layout.templates[tm]) && i < PageCount(d.layout.templates[tm].snapshot)
    requires Stored(d.layout.templates[tm], hash, i)
    ensures var e := Next(d, s, hash, pages);
            && tm in e.layout.templates
            && e.layout.templates[tm] == d.layout.templates[tm].(pages := e.layout.templates[tm].pages)
            && Stored(e.layout.templates[tm], hash, i)
  {
    hide PagePool.Acquire, PagePool.Publish, PagePool.Release, PagePool.Shaped, PagePool.Counted, Accounted,
         ThreadsOk, PoolFiled, NodesOk, MappedOk, TemplateOk, Lookup;
    if s.Append? && s.tm == tm {
      GrownKeepsStored(d.layout.templates[tm], s.writes, hash, pages, i);
    }
  }

  /** No step the driver is ready to take uses a released entry or drives a count below zero. */
  lemma NoStepIsUnsafe(d: Driver, s: Step, hash: PageHash, pages: iset<Page>)
    requires GoodHash(hash, pages) && Reachable(d, hash, pages) && Ready(d, s, hash, pages)
    ensures Safe(d, s)
  {
    ReachableIsSound(d, hash, pages);
    if s.CloseNode? {
      TrackedPagesAreAlive(d, hash, pages, s.v, s.off);
    } else if s.MapPage? {
      assert PhaseOk(d.layout, d.pool.entries, d.threads[s.t], hash, pages);
    }
  }

  /** References are exactly tree nodes, faults in flight and leaks; no tracked page is ever gone. */
  lemma TrackedPagesAreAlive(d: Driver, hash: PageHash, pages: iset<Page>, v: VmaId, off: nat)
    requires GoodHash(hash, pages) && Reachable(d, hash, pages) && (v, off) in d.nodes
    ensures var id := d.nodes[(v, off)];
            && id in d.pool.entries
            && d.pool.entries[id].refs == PagePool.Pointers(d.nodes, id) + InFlight(d.threads, id) + d.leaked[id]
            && PagePool.Pointers(d.nodes, id) >= 1
  {
    ReachableIsSound(d, hash, pages);
    AccountClose(d.handles, d.nodes, d.threads, d.leaked, (v, off));
    PagePool.PointerRemoved(d.nodes, (v, off), d.nodes[(v, off)]);
  }

  /** Once every mapping is closed and no fault is under way, the pool holds the leaked entries and no others. */
  lemma OnlyLeaksRemain(d: Driver, hash: PageHash, pages: iset<Page>, id: EntryId)
    requires GoodHash(hash, pages) && Reachable(d, hash, pages) && d.nodes == map[] && d.threads == map[]
    ensures id in d.pool.entries <==> id in d.leaked
    ensures id in d.pool.entries ==> d.pool.entries[id].refs == d.leaked[id]
  {
    ReachableIsSound(d, hash, pages);
    PagePool.NoPointers(d.nodes, id);
    NoThreads(d.threads, id);
  }

  // ---------------------------------------------------------------- what one thread sees of the others

  /** Step `s` is taken by the fault handler of thread `t`. */
  predicate Acts(s: Step, t: Tid) {
    match s
    case FaultLookup(u, _, _) => u == t
    case FaultProbe(u) => u == t
    case FaultFail(u) => u == t
    case AddCheck(u) => u == t
    case AddAlloc(u, _) => u == t
    case AddPublish(u) => u == t
    case MapPage(u, _) => u == t
    case _ => false
  }

  ghost predicate RunsTo(d: Driver, end: Driver, hash: PageHash, pages: iset<Page>) {
    exists steps :: Run(d, steps, end, hash, pages)
  }

  /** Anything but thread `t` may have run. */
  ghost predicate OthersRun(d: Driver, t: Tid, end: Driver, hash: PageHash, pages: iset<Page>) {
    exists steps :: Run(d, steps, end, hash, pages) && forall i :: 0 <= i < |steps| ==> !Acts(steps[i], t)
  }

  lemma OneStepRun(d: Driver, s: Step, hash: PageHash, pages: iset<Page>)
    requires Enabled(d, s, hash, pages)
    ensures RunsTo(d, Next(d, s, hash, pages), hash, pages)
  {
    hide Enabled, Next;
    var e := Next(d, s, hash, pages);
    assert Run(e, [], e, hash, pages);
    assert [s][1..] == [];
    assert Run(d, [s], e, hash, pages);
  }

  lemma RunsToJoin(d: Driver, mid: Driver, end: Driver, hash: PageHash, pages: iset<Page>)
    requires RunsTo(d, mid, hash, pages) && RunsTo(mid, end, hash, pages)
    ensures RunsTo(d, end, hash, pages)
  {
    hide Run;
    var a :| Run(d, a, mid, hash, pages);
    var b :| Run(mid, b, end, hash, pages);
    RunsJoin(d, a, mid, b, end, hash, pages);
  }

  lemma ReachableRun(d: Driver, end: Driver, hash: PageHash, pages: iset<Page>)
    requires Reachable(d, hash, pages) && RunsTo(d, end, hash, pages)
    ensures Reachable(end, hash, pages)
  {
    hide Run;
    var steps :| Run(d, steps, end, hash, pages);
    ReachableFurther(d, steps, end, hash, pages);
  }

  /** The others leave thread `t` where it is, its mapping in place and its stored page stored. */
  ghost predicate Undisturbed(d: Driver, t: Tid, e: Driver, hash: PageHash) {
    && t in d.threads && t in e.threads && e.threads[t] == d.threads[t]
    && VmaOk(d.layout, d.threads[t].vma) && SameVma(d.layout, e.layout, d.threads[t].vma)
    && var i := d.threads[t].off / PAGE_SIZE;
       var tm := TemplateOf(d.layout, d.threads[t].vma);
       && i < TemplatePages(tm) && i < PageCount(tm.snapshot)
       && (Stored(tm, hash, i) ==> Stored(e.layout.templates[d.layout.vmas[d.threads[t].vma].template], hash, i))
  }

  lemma OtherStepSparesThread(d: Driver, s: Step, t: Tid, hash: PageHash, pages: iset<Page>)
    requires Enabled(d, s, hash, pages) && t in d.threads && !Acts(s, t)
    ensures t in Next(d, s, hash, pages).threads && Next(d, s, hash, pages).threads[t] == d.threads[t]
  {
    hide PagePool.Acquire, PagePool.Publish, PagePool.Release, Lookup, TemplateOk;
  }

  lemma OtherStepSparesVma(d: Driver, s: Step, v: VmaId, hash: PageHash, pages: iset<Page>)
    requires Enabled(d, s, hash, pages) && VmaOk(d.layout, v) && !d.layout.vmas[v].closing
    requires exists t :: t in d.threads && d.threads[t].vma == v
    ensures SameVma(d.layout, Next(d, s, hash, pages).layout, v)
  {
    hide PagePool.Acquire, PagePool.Publish, PagePool.Release, Lookup, TemplateOk, MmapAccepts;
  }

  lemma OtherStepKeeps(d: Driver, s: Step, t: Tid, hash: PageHash, pages: iset<Page>)
    requires Inv(d, hash, pages) && Enabled(d, s, hash, pages) && t in d.threads && !Acts(s, t)
    ensures Undisturbed(d, t, Next(d, s, hash, pages), hash)
  {
    hide Inv, Next, Enabled, Stored, Acts, SameVma;
    MissedHasKey(d, hash, pages, t);
    var ph := d.threads[t];
    var tm := d.layout.vmas[ph.vma].template;
    var i := ph.off / PAGE_SIZE;
    if Stored(d.layout.templates[tm], hash, i) {
      StoredStaysOneStep(d, s, hash, pages, tm, i);
    }
    OtherStepSparesThread(d, s, t, hash, pages);
    OtherStepSparesVma(d, s, ph.vma, hash, pages);
    SameVmaHasTemplate(d.layout, Next(d, s, hash, pages).layout, ph.vma);
  }

  lemma SameVmaHasTemplate(l: Layout, m: Layout, v: VmaId)
    requires SameVma(l, m, v)
    ensures v in l.vmas && l.vmas[v].template in m.templates
  {
  }

  lemma {:induction false} OthersRunKeeps(d: Driver, steps: seq<Step>, end: Driver, t: Tid, hash: PageHash,
                                          pages: iset<Page>)
    requires Inv(d, hash, pages) && Run(d, steps, end, hash, pages) && t in d.threads
    requires forall i :: 0 <= i < |steps| ==> !Acts(steps[i], t)
    ensures Undisturbed(d, t, end, hash)
    decreases |steps|
  {
    if steps == [] {
      MissedHasKey(d, hash, pages, t);
    } else {
      hide Inv, Next, Enabled, Stored, Acts;
      var e := Next(d, steps[0], hash, pages);
      StepKeepsInv(d, steps[0], hash, pages);
      OtherStepKeeps(d, steps[0], t, hash, pages);
      OthersRunKeeps(e, steps[1..], end, t, hash, pages);
    }
  }

  lemma OthersLeaveUndisturbed(d: Driver, t: Tid, end: Driver, hash: PageHash, pages: iset<Page>)
    requires Inv(d, hash, pages) && OthersRun(d, t, end, hash, pages) && t in d.threads
    ensures Undisturbed(d, t, end, hash) && RunsTo(d, end, hash, pages)
  {
    hide Run, Inv, Undisturbed;
    var steps :| Run(d, steps, end, hash, pages) && forall i :: 0 <= i < |steps| ==> !Acts(steps[i], t);
    OthersRunKeeps(d, steps, end, t, hash, pages);
  }

  predicate TearsDown(s: Step, v: VmaId) {
    (s.CloseNode? || s.CloseEnd?) && s.v == v
  }

  /** Anything but the teardown of mapping `v` may have run. */
  ghost predicate OthersRunBeside(d: Driver, v: VmaId, end: Driver, hash: PageHash, pages: iset<Page>) {
    exists steps :: Run(d, steps, end, hash, pages) && forall i :: 0 <= i < |steps| ==> !TearsDown(steps[i], v)
  }

  ghost predicate SameNode(a: Nodes, b: Nodes, k: (VmaId, nat)) {
    (k in a <==> k in b) && (k in a ==> b[k] == a[k])
  }

  /** Mapping `v` is still closing and has the nodes it had. */
  ghost predicate StillClosing(d: Driver, v: VmaId, e: Driver) {
    && v in d.layout.vmas && v in e.layout.vmas && d.layout.vmas[v].closing && e.layout.vmas[v].closing
    && forall off: nat :: SameNode(d.nodes, e.nodes, (v, off))
  }

  lemma ClosingHasNoThread(d: Driver, v: VmaId, hash: PageHash, pages: iset<Page>, t: Tid)
    requires Inv(d, hash, pages) && v in d.layout.vmas && d.layout.vmas[v].closing && t in d.threads
    ensures d.threads[t].vma != v
  {
    assert PhaseOk(d.layout, d.pool.entries, d.threads[t], hash, pages);
  }

  lemma StepSparesClosingVma(d: Driver, s: Step, v: VmaId, hash: PageHash, pages: iset<Page>)
    requires Enabled(d, s, hash, pages) && !TearsDown(s, v) && v in d.layout.vmas && d.layout.vmas[v].closing
    ensures v in Next(d, s, hash, pages).layout.vmas && Next(d, s, hash, pages).layout.vmas[v].closing
  {
    hide PagePool.Acquire, PagePool.Publish, PagePool.Release, Lookup, TemplateOk, MmapAccepts, InsertAll, FiledWrites;
  }

  lemma MostStepsKeepNodes(d: Driver, s: Step, hash: PageHash, pages: iset<Page>)
    requires Enabled(d, s, hash, pages) && !s.MapPage? && !s.CloseNode?
    ensures Next(d, s, hash, pages).nodes == d.nodes
  {
    hide PagePool.Acquire, PagePool.Publish, PagePool.Release, Lookup, TemplateOk, MmapAccepts, InsertAll, FiledWrites;
  }

  lemma StepSparesNode(d: Driver, s: Step, v: VmaId, off: nat, hash: PageHash, pages: iset<Page>)
    requires Enabled(d, s, hash, pages) && !TearsDown(s, v) && (s.MapPage? ==> d.threads[s.t].vma != v)
    ensures SameNode(d.nodes, Next(d, s, hash, pages).nodes, (v, off))
  {
    if s.MapPage? {
      assert Next(d, s, hash, pages) == MapStep(d, s.t, s.tracked);
    } else if s.CloseNode? {
      assert Next(d, s, hash, pages) == CloseNodeStep(d, s.v, s.off);
    } else {
      hide Next, Enabled;
      MostStepsKeepNodes(d, s, hash, pages);
    }
  }

  lemma ClosingIsSparedOneStep(d: Driver, s: Step, v: VmaId, hash: PageHash, pages: iset<Page>)
    requires Inv(d, hash, pages) && Enabled(d, s, hash, pages) && !TearsDown(s, v)
    requires v in d.layout.vmas && d.layout.vmas[v].closing
    ensures StillClosing(d, v, Next(d, s, hash, pages))
  {
    hide Inv, Next, Enabled, TearsDown, SameNode;
    if s.MapPage? {
      MapperIsThere(d, s, hash, pages);
      ClosingHasNoThread(d, v, hash, pages, s.t);
    }
    StepSparesClosingVma(d, s, v, hash, pages);
    forall off: nat
      ensures SameNode(d.nodes, Next(d, s, hash, pages).nodes, (v, off))
    {
      StepSparesNode(d, s, v, off, hash, pages);
    }
  }

  lemma MapperIsThere(d: Driver, s: Step, hash: PageHash, pages: iset<Page>)
    requires Enabled(d, s, hash, pages) && s.MapPage?
    ensures s.t in d.threads
  {
  }

  lemma {:induction false} ClosingIsSpared(d: Driver, steps: seq<Step>, v: VmaId, end: Driver, hash: PageHash,
                                           pages: iset<Page>)
    requires Inv(d, hash, pages) && Run(d, steps, end, hash, pages)
    requires forall i :: 0 <= i < |steps| ==> !TearsDown(steps[i], v)
    requires v in d.layout.vmas && d.layout.vmas[v].closing
    ensures StillClosing(d, v, end)
    decreases |steps|
  {
    hide Inv, Next, Enabled, TearsDown;
    if steps != [] {
      var e := Next(d, steps[0], hash, pages);
      StepKeepsInv(d, steps[0], hash, pages);
      ClosingIsSparedOneStep(d, steps[0], v, hash, pages);
      ClosingIsSpared(e, steps[1..], v, end, hash, pages);
    }
  }

  /** Faults and closes elsewhere leave the nodes of a mapping being closed to its own teardown. */
  lemma OthersSpareClosing(d: Driver, v: VmaId, end: Driver, hash: PageHash, pages: iset<Page>)
    requires GoodHash(hash, pages) && Reachable(d, hash, pages) && OthersRunBeside(d, v, end, hash, pages)
    requires v in d.layout.vmas && d.layout.vmas[v].closing
    ensures StillClosing(d, v, end) && RunsTo(d, end, hash, pages) && Reachable(end, hash, pages)
  {
    hide Run, Inv, StillClosing, Reachable;
    ReachableIsSound(d, hash, pages);
    var steps :| Run(d, steps, end, hash, pages) && forall i :: 0 <= i < |steps| ==> !TearsDown(steps[i], v);
    ClosingIsSpared(d, steps, v, end, hash, pages);
    ReachableRun(d, end, hash, pages);
  }
}
