/** The driver's fault handler and mapping teardown as code, as steps of the driver's state machine. */
module DriverCode {
  import opened Base
  import opened PageStore
  import opened SnapshotSplit
  import opened FaultPath
  import PagePool

  datatype FaultResult = NoPage(id: EntryId) | SigBus | Oom

  /** Which of the handler's allocations succeed: page buffer, pool entry, tree node; and its reads of the file. */
  datatype Allocs = Allocs(buffer: bool, entry: bool, node: bool, read: bool)

  type Tree = map<int, EntryId>

  /** `tree` is the va_to_pa tree of mapping `v`. */
  ghost predicate TreeOf(nodes: Nodes, v: VmaId, tree: Tree) {
    && (forall off :: off in tree ==> off >= 0 && (v, off) in nodes && nodes[(v, off)] == tree[off])
    && (forall off: nat :: (v, off) in nodes ==> off in tree)
  }

  /** The memory of an entry that is neither pooled nor about to be is free. */
  ghost predicate HeapOf(d: Driver, heap: set<EntryId>) {
    forall id :: id !in heap ==> Unused(d, id)
  }

  /** What the code of mapping `v` holds of driver state `d`. */
  ghost predicate Serves(d: Driver, v: VmaId, pageTable: seq<PageTableEntry>, totalSize: nat, start: nat, slots: Table)
  {
    && VmaOk(d.layout, v) && !d.layout.vmas[v].closing && d.layout.vmas[v].start == start
    && var tm := TemplateOf(d.layout, v);
       tm.pageTable == pageTable && tm.totalSize == totalSize && tm.pages == slots &&
         totalSize / PAGE_SIZE <= |pageTable|
  }

  /** rb_first: the node with the smallest offset. */
  lemma LeastOffset(offsets: set<int>) returns (least: int)
    requires offsets != {}
    ensures least in offsets && forall o :: o in offsets ==> least <= o
    decreases |offsets|
  {
    var one := Pick(offsets);
    var rest := offsets - {one};
    least := one;
    if rest != {} {
      var other := LeastOffset(rest);
      least := Min(one, other);
    }
    forall o | o in offsets
      ensures least <= o
    {
      assert o == one || o in rest;
    }
  }

  lemma ReachableSteps(d: Driver, s: Step, hash: PageHash, pages: iset<Page>)
    requires GoodHash(hash, pages) && FaultPath.Reachable(d, hash, pages) && Enabled(d, s, hash, pages)
    ensures var e := Next(d, s, hash, pages);
            RunsTo(d, e, hash, pages) && FaultPath.Reachable(e, hash, pages)
  {
    hide FaultPath.Reachable, Enabled, Next, RunsTo;
    OneStepRun(d, s, hash, pages);
    ReachableRun(d, Next(d, s, hash, pages), hash, pages);
  }

  class Mapping {
    const pageTable: seq<PageTableEntry>
    const totalSize: nat
    const start: nat
    const pages: PagesFile
    const pool: PagePool.GlobalPagePool
    var tree: Tree
    var heap: set<EntryId>

    ghost const v: VmaId
    ghost const hash: PageHash
    ghost const inPlay: iset<Page>
    ghost var world: Driver

    constructor (pageTable: seq<PageTableEntry>, totalSize: nat, start: nat, pages: PagesFile,
                 pool: PagePool.GlobalPagePool, heap: set<EntryId>, ghost v: VmaId, ghost hash: PageHash,
                 ghost inPlay: iset<Page>, ghost world: Driver)
      requires GoodHash(hash, inPlay) && FaultPath.Reachable(world, hash, inPlay) && pool.State() == world.pool
      requires Serves(world, v, pageTable, totalSize, start, pages.slots) && TreeOf(world.nodes, v, map[]) &&
               HeapOf(world, heap)
      ensures Coupled() && this.pool == pool && this.pages == pages && this.v == v && this.world == world &&
              tree == map[]
    {
      this.pageTable, this.totalSize, this.start, this.pages, this.pool := pageTable, totalSize, start, pages, pool;
      this.tree, this.heap, this.v, this.hash, this.inPlay, this.world := map[], heap, v, hash, inPlay, world;
    }

    /** The code's state is that of a reachable state of the driver. */
    ghost predicate Coupled()
      reads this, pool, pages
    {
      && GoodHash(hash, inPlay) && FaultPath.Reachable(world, hash, inPlay) && pool.State() == world.pool
      && Serves(world, v, pageTable, totalSize, start, pages.slots) && TreeOf(world.nodes, v, tree) &&
        HeapOf(world, heap)
    }

    /**
      The handler holds no lock here. Its caller may count on nothing but that the others took steps of
      their own; doing nothing is one of the things they can do.
     */
    method OthersRan(ghost t: Tid)
      requires Coupled() && t in world.threads && world.threads[t].vma == v
      modifies this, pool, pages
      ensures Coupled() && OthersRun(old(world), t, world, hash, inPlay)
    {
      assert Run(world, [], world, hash, inPlay);
    }

    method FirstLookup(ghost t: Tid, ghost address: nat, ghost off: nat, key: Hash) returns (found: Option<EntryId>)
      requires Coupled() && t !in world.threads && start + off == address && off / PAGE_SIZE < totalSize / PAGE_SIZE
      requires key == pageTable[off / PAGE_SIZE].hash
      modifies this, pool
      ensures Coupled() && RunsTo(old(world), world, hash, inPlay) && world.layout == old(world).layout
      ensures t in world.threads
      ensures world.threads[t] == if found.Some? then Phase.Holding(v, off, found.value) else Missed(v, off, key)
    {
      hide FaultPath.Reachable, RunsTo, PagePool.Acquire;
      ghost var d := world;
      found := pool.Lookup(key);
      assert Enabled(d, FaultLookup(t, v, address), hash, inPlay);
      ReachableSteps(d, FaultLookup(t, v, address), hash, inPlay);
      AcquireSpares(d.pool, key);
      world := LookupStep(d, t, v, address);
    }

    /** The probe of the pages file; without the page the fault is a bus error. */
    method Probe(ghost t: Tid, ghost off: nat, key: Hash) returns (page: Option<Page>)
      requires Coupled() && t in world.threads && world.threads[t] == Missed(v, off, key)
      modifies this
      ensures Coupled() && RunsTo(old(world), world, hash, inPlay) && world.layout == old(world).layout
      ensures page == Lookup(TemplateOf(world.layout, v).pages, key)
      ensures page.Some? ==> t in world.threads && world.threads[t] == Loaded(v, off, key, page.value)
      ensures page.None? ==> t !in world.threads
    {
      hide FaultPath.Reachable, RunsTo, Lookup;
      ghost var d := world;
      page := pages.KernelProbe(key);
      assert Enabled(d, FaultProbe(t), hash, inPlay);
      ReachableSteps(d, FaultProbe(t), hash, inPlay);
      world := ProbeStep(d, t);
    }

    /** snapshot_pool_add's first look under the lock. */
    method Recheck(ghost t: Tid, ghost off: nat, key: Hash, page: Page) returns (found: Option<EntryId>)
      requires Coupled() && t in world.threads && world.threads[t] == Loaded(v, off, key, page)
      modifies this, pool
      ensures Coupled() && RunsTo(old(world), world, hash, inPlay) && world.layout == old(world).layout
      ensures t in world.threads
      ensures world.threads[t] == if found.Some? then Phase.Holding(v, off, found.value) else Checked(v, off, key, page)
    {
      hide FaultPath.Reachable, RunsTo, PagePool.Acquire;
      ghost var d := world;
      found := pool.Lookup(key);
      assert Enabled(d, AddCheck(t), hash, inPlay);
      ReachableSteps(d, AddCheck(t), hash, inPlay);
      AcquireSpares(d.pool, key);
      world := CheckStep(d, t);
    }

    /** Memory for a new entry: not in use by the pool nor by another thread's add. */
    method AllocEntry(ghost t: Tid, ghost off: nat, ghost key: Hash, ghost page: Page) returns (id: EntryId)
      requires Coupled() && t in world.threads && world.threads[t] == Checked(v, off, key, page)
      modifies this
      ensures Coupled() && RunsTo(old(world), world, hash, inPlay) && world.layout == old(world).layout
      ensures t in world.threads && world.threads[t] == Allocated(v, off, key, page, id)
    {
      hide FaultPath.Reachable, RunsTo;
      ghost var d := world;
      id := FreshId(heap);
      assert Enabled(d, AddAlloc(t, id), hash, inPlay);
      ReachableSteps(d, AddAlloc(t, id), hash, inPlay);
      world := Next(d, AddAlloc(t, id), hash, inPlay);
      heap := heap + {id};
    }

    method PublishEntry(ghost t: Tid, ghost off: nat, id: EntryId, key: Hash, page: Page) returns (got: EntryId)
      requires Coupled() && t in world.threads && world.threads[t] == Allocated(v, off, key, page, id)
      modifies this, pool
      ensures Coupled() && RunsTo(old(world), world, hash, inPlay) && world.layout == old(world).layout
      ensures t in world.threads && world.threads[t] == Phase.Holding(v, off, got)
    {
      hide FaultPath.Reachable, RunsTo, PagePool.Publish;
      ghost var d := world;
      got := pool.AddPublish(id, key, page);
      assert Enabled(d, AddPublish(t), hash, inPlay);
      ReachableSteps(d, AddPublish(t), hash, inPlay);
      PublishSpares(d.pool, id, key, page);
      world := PublishStep(d, t);
    }

    /** The failure paths: the thread leaves the handler with nothing held. */
    method Fail(ghost t: Tid)
      requires Coupled() && t in world.threads
      requires world.threads[t].Missed? || world.threads[t].Loaded? || world.threads[t].Checked?
      modifies this
      ensures Coupled() && RunsTo(old(world), world, hash, inPlay) && world.layout == old(world).layout
      ensures t !in world.threads && pool.State() == old(pool.State()) && tree == old(tree)
    {
      hide FaultPath.Reachable, RunsTo;
      ghost var d := world;
      assert Enabled(d, FaultFail(t), hash, inPlay);
      ReachableSteps(d, FaultFail(t), hash, inPlay);
      world := d.(threads := d.threads - {t});
    }

    /** The map_page label: tracks the page if a node can be had, and maps it. */
    method MapEntry(ghost t: Tid, off: nat, id: EntryId, node: bool)
      requires Coupled() && t in world.threads && world.threads[t] == Phase.Holding(v, off, id)
      modifies this
      ensures Coupled() && RunsTo(old(world), world, hash, inPlay) && world.layout == old(world).layout
      ensures t !in world.threads && pool.State() == old(pool.State())
      ensures tree == if node && off !in old(tree) then old(tree)[off := id] else old(tree)
      ensures off / PAGE_SIZE < PageCount(TemplateOf(world.layout, v).snapshot)
      ensures (v, off / PAGE_SIZE) in world.mapped && id in world.pool.entries
      ensures world.mapped[(v, off / PAGE_SIZE)] == world.pool.entries[id].page
              == PageAt(TemplateOf(world.layout, v).snapshot, off / PAGE_SIZE)
    {
      hide FaultPath.Reachable, RunsTo, PageAt;
      ghost var d := world;
      NoStepIsUnsafe(d, MapPage(t, node), hash, inPlay);
      FaultSelectsSnapshotPage(d, hash, inPlay, t);
      ReachableSteps(d, MapPage(t, node), hash, inPlay);
      world := MapStep(d, t, node);
      if node && off !in tree {
        tree := tree[off := id];
      }
    }

    /** The second half of the handler, from a pool miss to the entry of the page. */
    method Load(ghost t: Tid, ghost off: nat, key: Hash, allocs: Allocs) returns (r: FaultResult)
      requires Coupled() && t in world.threads && world.threads[t] == Missed(v, off, key)
      modifies this, pool, pages
      ensures Coupled() && RunsTo(old(world), world, hash, inPlay)
      ensures SameVma(old(world).layout, world.layout, v)
      ensures r.NoPage? ==> t in world.threads && world.threads[t] == Phase.Holding(v, off, r.id)
      ensures !r.NoPage? ==> t !in world.threads
      ensures off / PAGE_SIZE < PageCount(TemplateOf(old(world).layout, v).snapshot)
      ensures Stored(TemplateOf(old(world).layout, v), hash, off / PAGE_SIZE) && allocs.read ==>
                r != SigBus && (allocs.buffer && allocs.entry ==> r.NoPage?)
      ensures r == Oom ==> !allocs.buffer || !allocs.entry
    {
      hide FaultPath.Reachable, RunsTo, Stored, OthersRun, Serves, TreeOf, HeapOf, SameVma, Run;
      ghost var d := world;
      LookupPassed(d, hash, inPlay, t, v, off, key);
      if !allocs.buffer {
        Fail(t);
        SameLayout(d.layout, v);
        return Oom;
      }
      OthersRan(t);
      ghost var d1 := world;
      Interfered(d, t, d1, hash, inPlay);
      if !allocs.read {
        Fail(t);
        Joined(d, d1, world, hash, inPlay);
        return SigBus;
      }
      var page := Probe(t, off, key);
      Joined(d, d1, world, hash, inPlay);
      if page.None? {
        ProbeMissed(d1, hash, inPlay, t);
        return SigBus;
      }
      ghost var d2 := world;
      OthersRan(t);
      ghost var d3 := world;
      Interfered(d2, t, d3, hash, inPlay);
      Joined(d, d2, d3, hash, inPlay);
      SameVmaThen(d.layout, d1.layout, d3.layout, v);
      var found := Recheck(t, off, key, page.value);
      Joined(d, d3, world, hash, inPlay);
      if found.Some? {
        return NoPage(found.value);
      }
      if !allocs.entry {
        ghost var d4 := world;
        Fail(t);
        Joined(d, d4, world, hash, inPlay);
        return Oom;
      }
      ghost var d4 := world;
      r := Add(t, off, key, page.value);
      Joined(d, d4, world, hash, inPlay);
      SameVmaThen(d.layout, d4.layout, world.layout, v);
    }

    /** snapshot_pool_add after its first look: allocate, then link unless another thread came first. */
    method Add(ghost t: Tid, ghost off: nat, key: Hash, page: Page) returns (r: FaultResult)
      requires Coupled() && t in world.threads && world.threads[t] == Checked(v, off, key, page)
      modifies this, pool, pages
      ensures Coupled() && RunsTo(old(world), world, hash, inPlay) && SameVma(old(world).layout, world.layout, v)
      ensures r.NoPage? && t in world.threads && world.threads[t] == Phase.Holding(v, off, r.id)
    {
      hide FaultPath.Reachable, RunsTo, Stored, OthersRun, Serves, TreeOf, HeapOf, SameVma, Run;
      ghost var d := world;
      var id := AllocEntry(t, off, key, page);
      ghost var d1 := world;
      OthersRan(t);
      ghost var d2 := world;
      Interfered(d1, t, d2, hash, inPlay);
      Joined(d, d1, d2, hash, inPlay);
      var got := PublishEntry(t, off, id, key, page);
      Joined(d, d2, world, hash, inPlay);
      return NoPage(got);
    }

    /**
      snapshot_vma_fault. Whatever the other threads do in between, its execution is a run of the driver;
      a page it maps is the snapshot's; and on a stored page it fails only for want of memory or a failed read.
     */
    method Fault(ghost t: Tid, address: nat, allocs: Allocs) returns (r: FaultResult)
      requires Coupled() && t !in world.threads && start <= address
      modifies this, pool, pages
      ensures Coupled() && t !in world.threads && RunsTo(old(world), world, hash, inPlay)
      ensures SameVma(old(world).layout, world.layout, v)
      ensures var i := (address - start) / PAGE_SIZE;
              var tm := TemplateOf(old(world).layout, v);
              if i >= totalSize / PAGE_SIZE then r == SigBus && world == old(world) && tree == old(tree)
              else
                && i < PageCount(tm.snapshot)
                && (Stored(tm, hash, i) && allocs.read ==> r != SigBus)
                && (r == Oom ==> !allocs.buffer || !allocs.entry)
                && (r.NoPage? ==>
                      && r.id in pool.entries && pool.entries[r.id].page == PageAt(tm.snapshot, i)
                      && (v, i) in world.mapped && world.mapped[(v, i)] == PageAt(tm.snapshot, i)
                      && (allocs.node ==> (address - start) in tree))
    {
      hide FaultPath.Reachable, RunsTo, Stored, OthersRun, TreeOf, HeapOf, SameVma, Run;
      ghost var d := world;
      var off := address - start;
      var index := off / PAGE_SIZE;
      SameLayout(d.layout, v);
      if index >= totalSize / PAGE_SIZE {
        NoRun(d, hash, inPlay);
        return SigBus;
      }
      var key := pageTable[index].hash;
      var found := FirstLookup(t, address, off, key);
      ghost var d1 := world;
      if found.Some? {
        r := NoPage(found.value);
      } else {
        r := Load(t, off, key, allocs);
        Joined(d, d1, world, hash, inPlay);
        if !r.NoPage? {
          return;
        }
      }
      ghost var d2 := world;
      OthersRan(t);
      ghost var d3 := world;
      Interfered(d2, t, d3, hash, inPlay);
      Joined(d, d2, d3, hash, inPlay);
      SameVmaThen(d.layout, d2.layout, d3.layout, v);
      MapEntry(t, off, r.id, allocs.node);
      Joined(d, d3, world, hash, inPlay);
      SameSnapshot(d.layout, world.layout, v);
    }

    /** The mapping is being torn down; `tree` holds the nodes still to go. */
    ghost predicate Closing()
      reads this, pool
    {
      && GoodHash(hash, inPlay) && FaultPath.Reachable(world, hash, inPlay) && pool.State() == world.pool
      && v in world.layout.vmas && world.layout.vmas[v].closing && TreeOf(world.nodes, v, tree)
    }

    /** Between two nodes the pool lock is free: other mappings fault and close. */
    method OthersRanBeside()
      requires Closing()
      modifies this, pool
      ensures pool.State() == world.pool && tree == old(tree) && OthersRunBeside(old(world), v, world, hash, inPlay)
    {
      assert Run(world, [], world, hash, inPlay);
    }

    method BeginClose()
      requires Coupled() && forall t :: t in world.threads ==> world.threads[t].vma != v
      modifies this
      ensures Closing() && RunsTo(old(world), world, hash, inPlay)
      ensures tree == old(tree) && world.pool == old(world).pool
    {
      hide FaultPath.Reachable, RunsTo, HeapOf;
      ghost var d := world;
      assert Enabled(d, CloseBegin(v), hash, inPlay);
      ReachableSteps(d, CloseBegin(v), hash, inPlay);
      world := Next(d, CloseBegin(v), hash, inPlay);
    }

    /** Takes the first node out of the tree and gives its reference back. */
    method CloseFirst()
      requires Closing() && tree != map[]
      modifies this, pool
      ensures Closing() && RunsTo(old(world), world, hash, inPlay)
      ensures exists first ::
                && first in old(tree) && tree == old(tree) - {first} && old(tree)[first] in old(pool.entries)
                && old(pool.entries)[old(tree)[first]].refs > 0
                && pool.State() == PagePool.Release(old(pool.State()), old(tree)[first])
    {
      hide FaultPath.Reachable, RunsTo, PagePool.Release;
      ghost var d := world;
      ghost var p := pool.State();
      assert tree.Keys != {};
      ghost var least := LeastOffset(tree.Keys);
      var first :| first in tree && forall o :: o in tree ==> first <= o;
      var id := tree[first];
      assert Ready(d, CloseNode(v, first), hash, inPlay);
      NoStepIsUnsafe(d, CloseNode(v, first), hash, inPlay);
      ReachableSteps(d, CloseNode(v, first), hash, inPlay);
      tree := tree - {first};
      var freed := pool.Unref(id);
      world := CloseNodeStep(d, v, first);
    }

    method EndClose()
      requires Closing() && tree == map[]
      modifies this
      ensures FaultPath.Reachable(world, hash, inPlay) && RunsTo(old(world), world, hash, inPlay)
      ensures v !in world.layout.vmas && forall off: nat :: (v, off) !in world.nodes && (v, off) !in world.mapped
      ensures world.pool == old(world).pool && tree == map[]
    {
      hide FaultPath.Reachable, RunsTo;
      ghost var d := world;
      assert Enabled(d, CloseEnd(v), hash, inPlay);
      ReachableSteps(d, CloseEnd(v), hash, inPlay);
      world := Next(d, CloseEnd(v), hash, inPlay);
    }

    /**
      snapshot_vma_close. Whatever runs beside it, its execution is a run of the driver that leaves nothing
      of the mapping; with nothing beside it, every entry lost exactly the references the tree held, and an
      entry whose references were all here is gone.
     */
    method Close(alone: bool)
      requires Coupled() && forall t :: t in world.threads ==> world.threads[t].vma != v
      modifies this, pool
      ensures FaultPath.Reachable(world, hash, inPlay) && RunsTo(old(world), world, hash, inPlay)
      ensures pool.State() == world.pool && tree == map[]
      ensures v !in world.layout.vmas && forall off: nat :: (v, off) !in world.nodes && (v, off) !in world.mapped
      ensures alone ==> forall id :: GaveBack(old(pool.State()), pool.State(), id, PagePool.Pointers(old(tree), id))
    {
      hide FaultPath.Reachable, RunsTo, TreeOf, OthersRunBeside, HeapOf, Serves, PagePool.Release, GaveBack,
           StillClosing;
      ghost var d, p, all := world, pool.State(), tree;
      BeginClose();
      NothingGiven(world, hash, inPlay, all);
      while tree != map[]
        invariant Closing() && RunsTo(d, world, hash, inPlay)
        invariant alone ==> GivenSoFar(p, pool.State(), all, tree)
        decreases |tree|
      {
        ghost var d1 := world;
        if !alone {
          OthersRanBeside();
          OthersSpareClosing(d1, v, world, hash, inPlay);
          SameTree(d1, v, world, tree);
          Joined(d, d1, world, hash, inPlay);
        }
        ghost var d2, before, nodes := world, pool.State(), tree;
        CloseFirst();
        Joined(d, d2, world, hash, inPlay);
        if alone {
          ghost var first :| first in nodes && tree == nodes - {first} && nodes[first] in before.entries
                             && before.entries[nodes[first]].refs > 0
                             && pool.State() == PagePool.Release(before, nodes[first]);
          GivenOneMore(p, before, pool.State(), all, nodes, first);
        }
      }
      ghost var d3 := world;
      EndClose();
      Joined(d, d3, world, hash, inPlay);
      if alone {
        AllGiven(p, pool.State(), all);
      }
    }
  }

  /** From pool `p` to pool `q` entry `id` lost `n` references, and its place when those were all. */
  ghost predicate GaveBack(p: PagePool.Pool, q: PagePool.Pool, id: EntryId, n: nat) {
    id in p.entries ==>
      if p.entries[id].refs == n then id !in q.entries
      else
        && id in q.entries && q.entries[id] == p.entries[id].(refs := q.entries[id].refs)
        && q.entries[id].refs == p.entries[id].refs - n
  }

  /** Entry `id` gave back the references of the nodes of `all` that are no longer in `tree`. */
  ghost predicate Given(p: PagePool.Pool, q: PagePool.Pool, all: Tree, tree: Tree, id: EntryId) {
    && (id in q.entries ==> id in p.entries)
    && PagePool.Pointers(tree, id) <= PagePool.Pointers(all, id)
    && GaveBack(p, q, id, PagePool.Pointers(all, id) - PagePool.Pointers(tree, id))
  }

  ghost predicate GivenSoFar(p: PagePool.Pool, q: PagePool.Pool, all: Tree, tree: Tree) {
    forall id :: Given(p, q, all, tree, id)
  }

  lemma NothingGiven(d: Driver, hash: PageHash, pages: iset<Page>, tree: Tree)
    requires GoodHash(hash, pages) && FaultPath.Reachable(d, hash, pages)
    ensures GivenSoFar(d.pool, d.pool, tree, tree)
  {
    hide FaultPath.Reachable, PagePool.Pointers;
    ReachableIsSound(d, hash, pages);
    forall id
      ensures Given(d.pool, d.pool, tree, tree, id)
    {
      assert id in d.pool.entries ==> d.pool.entries[id].refs >= 1;
    }
  }

  lemma GivenOneMore(p: PagePool.Pool, before: PagePool.Pool, after: PagePool.Pool, all: Tree, nodes: Tree, first: int)
    requires GivenSoFar(p, before, all, nodes) && first in nodes && nodes[first] in before.entries
    requires before.entries[nodes[first]].refs > 0 && after == PagePool.Release(before, nodes[first])
    ensures GivenSoFar(p, after, all, nodes - {first})
  {
    hide PagePool.Pointers;
    forall id
      ensures Given(p, after, all, nodes - {first}, id)
    {
      PagePool.PointerRemoved(nodes, first, id);
      assert Given(p, before, all, nodes, id);
    }
  }

  lemma AllGiven(p: PagePool.Pool, q: PagePool.Pool, all: Tree)
    requires GivenSoFar(p, q, all, map[])
    ensures forall id :: GaveBack(p, q, id, PagePool.Pointers(all, id))
  {
    hide GaveBack, PagePool.Pointers;
    var none: Tree := map[];
    forall id
      ensures GaveBack(p, q, id, PagePool.Pointers(all, id))
    {
      PagePool.NoPointers(none, id);
      assert Given(p, q, all, none, id);
    }
  }

  lemma SameTree(d: Driver, v: VmaId, e: Driver, tree: Tree)
    requires StillClosing(d, v, e) && TreeOf(d.nodes, v, tree)
    ensures TreeOf(e.nodes, v, tree) && v in e.layout.vmas && e.layout.vmas[v].closing
  {
    forall off: nat
      ensures SameNode(d.nodes, e.nodes, (v, off))
    {
    }
  }

  lemma NoRun(d: Driver, hash: PageHash, pages: iset<Page>)
    ensures RunsTo(d, d, hash, pages)
  {
    assert Run(d, [], d, hash, pages);
  }

  lemma Joined(d: Driver, mid: Driver, end: Driver, hash: PageHash, pages: iset<Page>)
    requires RunsTo(d, mid, hash, pages) && RunsTo(mid, end, hash, pages)
    ensures RunsTo(d, end, hash, pages)
  {
    RunsToJoin(d, mid, end, hash, pages);
  }

  lemma SameLayout(l: Layout, v: VmaId)
    requires VmaOk(l, v)
    ensures SameVma(l, l, v)
  {
  }

  lemma SameVmaThen(l: Layout, m: Layout, n: Layout, v: VmaId)
    requires SameVma(l, m, v) && SameVma(m, n, v)
    ensures SameVma(l, n, v)
  {
  }

  lemma SameSnapshot(l: Layout, m: Layout, v: VmaId)
    requires SameVma(l, m, v) && VmaOk(l, v) && VmaOk(m, v)
    ensures TemplateOf(m, v).snapshot == TemplateOf(l, v).snapshot
  {
  }

  /** A thread whose pool lookup missed faults on a page of the snapshot. */
  lemma LookupPassed(d: Driver, hash: PageHash, pages: iset<Page>, t: Tid, v: VmaId, off: nat, key: Hash)
    requires GoodHash(hash, pages) && FaultPath.Reachable(d, hash, pages) && t in d.threads
    requires d.threads[t] == Missed(v, off, key)
    ensures VmaOk(d.layout, v) && off / PAGE_SIZE < PageCount(TemplateOf(d.layout, v).snapshot)
  {
    hide FaultPath.Reachable, Inv, Stored;
    StoredPageFaultSucceeds(d, hash, pages, t);
  }

  /** While the others ran, thread and mapping stayed and a stored page stayed stored. */
  lemma Interfered(d: Driver, t: Tid, e: Driver, hash: PageHash, pages: iset<Page>)
    requires GoodHash(hash, pages) && FaultPath.Reachable(d, hash, pages) && t in d.threads
    requires OthersRun(d, t, e, hash, pages)
    ensures RunsTo(d, e, hash, pages) && t in e.threads && e.threads[t] == d.threads[t]
    ensures var v, i := d.threads[t].vma, d.threads[t].off / PAGE_SIZE;
            && VmaOk(d.layout, v) && VmaOk(e.layout, v) && SameVma(d.layout, e.layout, v)
            && i < PageCount(TemplateOf(d.layout, v).snapshot) && i < PageCount(TemplateOf(e.layout, v).snapshot)
            && (Stored(TemplateOf(d.layout, v), hash, i) ==> Stored(TemplateOf(e.layout, v), hash, i))
  {
    hide FaultPath.Reachable, Inv, OthersRun, RunsTo, Stored;
    ReachableIsSound(d, hash, pages);
    OthersLeaveUndisturbed(d, t, e, hash, pages);
  }

  /** A probe that finds nothing looked for a page that is not stored. */
  lemma ProbeMissed(d: Driver, hash: PageHash, pages: iset<Page>, t: Tid)
    requires GoodHash(hash, pages) && FaultPath.Reachable(d, hash, pages) && t in d.threads && d.threads[t].Missed?
    requires VmaOk(d.layout, d.threads[t].vma)
    requires Lookup(TemplateOf(d.layout, d.threads[t].vma).pages, d.threads[t].hash).None?
    ensures d.threads[t].off / PAGE_SIZE < PageCount(TemplateOf(d.layout, d.threads[t].vma).snapshot)
    ensures !Stored(TemplateOf(d.layout, d.threads[t].vma), hash, d.threads[t].off / PAGE_SIZE)
  {
    hide FaultPath.Reachable, Inv, Lookup;
    StoredPageFaultSucceeds(d, hash, pages, t);
  }

  /** Any integer above all of a set's is not in it. */
  method FreshId(taken: set<EntryId>) returns (id: EntryId)
    ensures id !in taken
  {
    var rest := taken;
    id := 0;
    while rest != {}
      invariant rest <= taken && forall x :: x in taken && x !in rest ==> x < id
      decreases |rest|
    {
      ghost var some := Pick(rest);
      var x: int :| x in rest;
      if x >= id {
        id := x + 1;
      }
      rest := rest - {x};
    }
  }

  lemma AcquireSpares(p: PagePool.Pool, h: Hash)
    ensures PagePool.Acquire(p, h).0.entries.Keys == p.entries.Keys
    ensures PagePool.Acquire(p, h).1.None? ==> PagePool.Acquire(p, h).0 == p
  {
  }

  lemma PublishSpares(p: PagePool.Pool, id: EntryId, h: Hash, page: Page)
    ensures PagePool.Publish(p, id, h, page).0.entries.Keys <= p.entries.Keys + {id}
  {
  }
}
