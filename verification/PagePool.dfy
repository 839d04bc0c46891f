/** The driver's global page pool: hash buckets of reference-counted pages behind one lock. */
module PagePool {
  import opened Base
  import opened PageStore

  const POOL_BUCKET_COUNT: nat := 0x10_0000

  /** The address of a phys_page_entry. */
  type EntryId = int

  datatype Entry = Entry(hash: Hash, page: Page, refs: nat)

  datatype Pool = Pool(entries: map<EntryId, Entry>, buckets: map<nat, seq<EntryId>>, totalPages: int)

  const EMPTY_POOL: Pool := Pool(map[], map[], 0)

  function BucketOf(h: Hash): nat {
    h % POOL_BUCKET_COUNT
  }

  function Bucket(p: Pool, b: nat): seq<EntryId> {
    if b in p.buckets then p.buckets[b] else []
  }

  predicate Carries(p: Pool, id: EntryId, h: Hash) {
    id in p.entries && p.entries[id].hash == h
  }

  /** The first entry of a bucket list that carries `h`. */
  function Find(p: Pool, ids: seq<EntryId>, h: Hash): (r: Option<EntryId>)
    ensures r.Some? ==> r.value in ids && Carries(p, r.value, h)
    ensures r.None? ==> forall id :: id in ids ==> !Carries(p, id, h)
  {
    if ids == [] then None
    else if Carries(p, ids[0], h) then Some(ids[0])
    else Find(p, ids[1..], h)
  }

  function FindHash(p: Pool, h: Hash): Option<EntryId> {
    Find(p, Bucket(p, BucketOf(h)), h)
  }

  function Ref(p: Pool, id: EntryId): Pool
    requires id in p.entries
  {
    p.(entries := p.entries[id := p.entries[id].(refs := p.entries[id].refs + 1)])
  }

  /** The locked section of snapshot_pool_lookup, which is also the first one of snapshot_pool_add. */
  function Acquire(p: Pool, h: Hash): (Pool, Option<EntryId>) {
    match FindHash(p, h)
    case Some(id) => (Ref(p, id), Some(id))
    case None => (p, None)
  }

  /** The second locked section of snapshot_pool_add: link the new entry unless another thread came first. */
  function Publish(p: Pool, id: EntryId, h: Hash, page: Page): (Pool, EntryId) {
    match FindHash(p, h)
    case Some(other) => (Ref(p, other), other)
    case None =>
      (Pool(p.entries[id := Entry(h, page, 1)],
            p.buckets[BucketOf(h) := [id] + Bucket(p, BucketOf(h))],
            p.totalPages + 1), id)
  }

  function Without(ids: seq<EntryId>, id: EntryId): (r: seq<EntryId>)
    ensures forall x :: x in r <==> x in ids && x != id
    ensures NoDuplicates(ids) ==> NoDuplicates(r)
  {
    if ids == [] then []
    else if ids[0] == id then Without(ids[1..], id)
    else
      var rest := Without(ids[1..], id);
      assert NoDuplicates(ids) ==> NoDuplicates(ids[1..]) && ids[0] !in ids[1..];
      [ids[0]] + rest
  }

  ghost predicate NoDuplicates(ids: seq<EntryId>) {
    forall i, j :: 0 <= i < j < |ids| ==> ids[i] != ids[j]
  }

  /** The locked section of snapshot_pool_unref. */
  function Release(p: Pool, id: EntryId): Pool
    requires id in p.entries && p.entries[id].refs > 0
  {
    var e := p.entries[id];
    if e.refs == 1 then
      Pool(p.entries - {id}, p.buckets[BucketOf(e.hash) := Without(Bucket(p, BucketOf(e.hash)), id)], p.totalPages - 1)
    else p.(entries := p.entries[id := e.(refs := e.refs - 1)])
  }

  /** How many places of an index point at an entry. */
  ghost function Pointers<K(!new)>(index: map<K, EntryId>, id: EntryId): nat {
    |set k | k in index && index[k] == id|
  }

  lemma PointerAdded<K(!new)>(index: map<K, EntryId>, k: K, id: EntryId, x: EntryId)
    requires k !in index
    ensures Pointers(index[k := id], x) == Pointers(index, x) + if x == id then 1 else 0
  {
    var more := index[k := id];
    var before := set j | j in index && index[j] == x;
    var after := set j | j in more && more[j] == x;
    assert after == if x == id then before + {k} else before;
  }

  lemma PointerRemoved<K(!new)>(index: map<K, EntryId>, k: K, x: EntryId)
    requires k in index
    ensures Pointers(index, x) == Pointers(index - {k}, x) + if x == index[k] then 1 else 0
  {
    var less := index - {k};
    var before := set j | j in index && index[j] == x;
    var after := set j | j in less && less[j] == x;
    assert before == if x == index[k] then after + {k} else after;
  }

  lemma NoPointers<K(!new)>(index: map<K, EntryId>, id: EntryId)
    ensures index == map[] ==> Pointers(index, id) == 0
  {
    var tracking := set k | k in index && index[k] == id;
    assert tracking <= index.Keys;
    assert index == map[] ==> tracking == {};
  }

  // ---------------------------------------------------------------- the invariant

  /** A bucket lists pooled entries whose hash belongs there, each once. */
  ghost predicate BucketOk(p: Pool, b: nat) {
    && (forall id :: id in Bucket(p, b) ==> id in p.entries && BucketOf(p.entries[id].hash) == b)
    && NoDuplicates(Bucket(p, b))
  }

  /** Buckets hold each entry once, where its hash says; one entry per hash; the counter is right. */
  ghost predicate Shaped(p: Pool) {
    && (forall b: nat :: BucketOk(p, b))
    && (forall id :: id in p.entries ==> id in Bucket(p, BucketOf(p.entries[id].hash)))
    && (forall x, y :: x in p.entries && y in p.entries && p.entries[x].hash == p.entries[y].hash ==> x == y)
    && p.totalPages == |p.entries|
  }

  /** Every reference count is the number of outstanding handles, and a page without handles is gone. */
  ghost predicate Counted(p: Pool, handles: multiset<EntryId>) {
    && (forall id :: id in p.entries ==> p.entries[id].refs == handles[id] && handles[id] >= 1)
    && (forall id :: id in handles ==> id in p.entries)
  }

  lemma FindHashIff(p: Pool, h: Hash)
    requires Shaped(p)
    ensures forall id :: FindHash(p, h) == Some(id) <==> Carries(p, id, h)
  {
    forall id | Carries(p, id, h)
      ensures FindHash(p, h) == Some(id)
    {
      assert id in Bucket(p, BucketOf(h));
    }
  }

  /** Changing reference counts alone does not touch the shape. */
  lemma SameShape(p: Pool, q: Pool)
    requires Shaped(p) && q.buckets == p.buckets && q.totalPages == p.totalPages
    requires q.entries.Keys == p.entries.Keys
    requires forall id :: id in p.entries ==> q.entries[id].hash == p.entries[id].hash
    ensures Shaped(q)
  {
    forall b: nat
      ensures BucketOk(q, b)
    {
      assert BucketOk(p, b);
    }
    assert |q.entries| == |q.entries.Keys| == |p.entries.Keys| == |p.entries|;
  }

  lemma RefKeeps(p: Pool, id: EntryId, handles: multiset<EntryId>)
    requires Shaped(p) && Counted(p, handles) && id in p.entries
    ensures Shaped(Ref(p, id)) && Counted(Ref(p, id), handles + multiset{id})
  {
    SameShape(p, Ref(p, id));
  }

  lemma LinkKeepsShape(p: Pool, id: EntryId, h: Hash, page: Page)
    requires Shaped(p) && id !in p.entries && FindHash(p, h).None?
    ensures Shaped(Publish(p, id, h, page).0)
  {
    var q := Publish(p, id, h, page).0;
    FindHashIff(p, h);
    LinkKeepsBuckets(p, id, h, page);
    LinkKeepsUnique(p.entries, q.entries, id, h);
    hide FindHash, BucketOk, Bucket;
    assert q.entries.Keys == p.entries.Keys + {id};
    assert |q.entries| == |q.entries.Keys| == |p.entries.Keys| + 1 == |p.entries| + 1;
  }

  lemma LinkKeepsUnique(entries: map<EntryId, Entry>, more: map<EntryId, Entry>, id: EntryId, h: Hash)
    requires forall x, y :: x in entries && y in entries && entries[x].hash == entries[y].hash ==> x == y
    requires forall x :: x in entries ==> entries[x].hash != h
    requires id !in entries && id in more && more == entries[id := more[id]] && more[id].hash == h
    ensures forall x, y :: x in more && y in more && more[x].hash == more[y].hash ==> x == y
  {
  }

  lemma LinkKeepsBuckets(p: Pool, id: EntryId, h: Hash, page: Page)
    requires Shaped(p) && id !in p.entries && FindHash(p, h).None?
    ensures var q := Publish(p, id, h, page).0;
            && (forall b: nat :: BucketOk(q, b))
            && (forall x :: x in q.entries ==> x in Bucket(q, BucketOf(q.entries[x].hash)))
  {
    var q := Publish(p, id, h, page).0;
    forall b: nat
      ensures BucketOk(q, b)
    {
      assert BucketOk(p, b);
    }
    forall x | x in q.entries
      ensures x in Bucket(q, BucketOf(q.entries[x].hash))
    {
      if x != id {
        assert x in Bucket(p, BucketOf(p.entries[x].hash));
      }
    }
  }

  lemma PublishKeeps(p: Pool, id: EntryId, h: Hash, page: Page, handles: multiset<EntryId>)
    requires Shaped(p) && Counted(p, handles) && id !in p.entries
    ensures var (q, got) := Publish(p, id, h, page);
            Shaped(q) && Counted(q, handles + multiset{got}) && Carries(q, got, h)
  {
    match FindHash(p, h)
    case Some(other) => RefKeeps(p, other, handles);
    case None => LinkKeepsShape(p, id, h, page);
  }

  lemma UnlinkKeepsShape(p: Pool, id: EntryId)
    requires Shaped(p) && id in p.entries && p.entries[id].refs == 1
    ensures Shaped(Release(p, id))
  {
    var q := Release(p, id);
    assert q.entries.Keys == p.entries.Keys - {id};
    assert |q.entries| == |q.entries.Keys| == |p.entries.Keys| - 1 == |p.entries| - 1;
    forall b: nat
      ensures BucketOk(q, b)
    {
      assert BucketOk(p, b);
    }
    forall x | x in q.entries
      ensures x in Bucket(q, BucketOf(q.entries[x].hash))
    {
      assert x in Bucket(p, BucketOf(p.entries[x].hash));
    }
  }

  lemma ReleaseKeeps(p: Pool, id: EntryId, handles: multiset<EntryId>)
    requires Shaped(p) && Counted(p, handles) && id in handles
    ensures Shaped(Release(p, id)) && Counted(Release(p, id), handles - multiset{id})
  {
    if p.entries[id].refs == 1 {
      UnlinkKeepsShape(p, id);
    } else {
      SameShape(p, Release(p, id));
    }
  }

  // ---------------------------------------------------------------- every interleaving

  type Tid = int

  /** A thread between the two locked sections of snapshot_pool_add. */
  datatype Local =
    | Checked(hash: Hash, page: Page)
    | Allocated(id: EntryId, hash: Hash, page: Page)

  datatype World = World(pool: Pool, handles: multiset<EntryId>, locals: map<Tid, Local>)

  datatype Step =
    | Lookup(hash: Hash)
    | AddCheck(t: Tid, hash: Hash, page: Page)
    | AddAlloc(t: Tid, id: EntryId)
    | AddFail(t: Tid)
    | AddPublish(t: Tid)
    | Unref(id: EntryId)

  /** An allocation returns memory in use neither by the pool nor by another thread. */
  ghost predicate Unused(w: World, id: EntryId) {
    && id !in w.pool.entries
    && forall t :: t in w.locals && w.locals[t].Allocated? ==> w.locals[t].id != id
  }

  ghost predicate Enabled(w: World, s: Step) {
    match s
    case Lookup(_) => true
    case AddCheck(t, _, _) => t !in w.locals
    case AddAlloc(t, id) => t in w.locals && w.locals[t].Checked? && Unused(w, id)
    case AddFail(t) => t in w.locals && w.locals[t].Checked?
    case AddPublish(t) => t in w.locals && w.locals[t].Allocated?
    case Unref(id) => id in w.handles && id in w.pool.entries && w.pool.entries[id].refs > 0
  }

  ghost function Next(w: World, s: Step): World
    requires Enabled(w, s)
  {
    match s
    case Lookup(h) =>
      var (pool, got) := Acquire(w.pool, h);
      w.(pool := pool, handles := if got.Some? then w.handles + multiset{got.value} else w.handles)
    case AddCheck(t, h, page) =>
      var (pool, got) := Acquire(w.pool, h);
      if got.Some? then w.(pool := pool, handles := w.handles + multiset{got.value})
      else w.(locals := w.locals[t := Checked(h, page)])
    case AddAlloc(t, id) =>
      w.(locals := w.locals[t := Allocated(id, w.locals[t].hash, w.locals[t].page)])
    case AddFail(t) => w.(locals := w.locals - {t})
    case AddPublish(t) =>
      var (pool, got) := Publish(w.pool, w.locals[t].id, w.locals[t].hash, w.locals[t].page);
      World(pool, w.handles + multiset{got}, w.locals - {t})
    case Unref(id) => w.(pool := Release(w.pool, id), handles := w.handles - multiset{id})
  }

  ghost predicate Inv(w: World) {
    && Shaped(w.pool)
    && Counted(w.pool, w.handles)
    && (forall t :: t in w.locals && w.locals[t].Allocated? ==> w.locals[t].id !in w.pool.entries)
    && (forall t, u :: t in w.locals && u in w.locals && t != u && w.locals[t].Allocated? && w.locals[u].Allocated? ==>
          w.locals[t].id != w.locals[u].id)
  }

  lemma StepKeepsInv(w: World, s: Step)
    requires Inv(w) && Enabled(w, s)
    ensures Inv(Next(w, s))
  {
    match s
    case Lookup(h) => AcquireKeeps(w.pool, h, w.handles);
    case AddCheck(t, h, page) => AcquireKeeps(w.pool, h, w.handles);
    case AddAlloc(t, id) =>
    case AddFail(t) =>
    case AddPublish(t) =>
      PublishKeeps(w.pool, w.locals[t].id, w.locals[t].hash, w.locals[t].page, w.handles);
    case Unref(id) => ReleaseKeeps(w.pool, id, w.handles);
  }

  lemma AcquireKeeps(p: Pool, h: Hash, handles: multiset<EntryId>)
    requires Shaped(p) && Counted(p, handles)
    ensures var (q, got) := Acquire(p, h);
            && Shaped(q) && q.entries.Keys == p.entries.Keys
            && (got.Some? ==> Counted(q, handles + multiset{got.value}) && Carries(q, got.value, h))
            && (got.None? ==> q == p && forall id :: !Carries(p, id, h))
  {
    FindHashIff(p, h);
    if FindHash(p, h).Some? {
      RefKeeps(p, FindHash(p, h).value, handles);
    }
  }

  ghost predicate Run(w: World, steps: seq<Step>, end: World)
    decreases |steps|
  {
    if steps == [] then end == w
    else Enabled(w, steps[0]) && Run(Next(w, steps[0]), steps[1..], end)
  }

  lemma {:induction false} RunKeepsInv(w: World, steps: seq<Step>, end: World)
    requires Inv(w) && Run(w, steps, end)
    ensures Inv(end)
    decreases |steps|
  {
    if steps != [] {
      StepKeepsInv(w, steps[0]);
      RunKeepsInv(Next(w, steps[0]), steps[1..], end);
    }
  }

  const EMPTY_WORLD: World := World(EMPTY_POOL, multiset{}, map[])

  ghost predicate Reachable(w: World) {
    exists steps :: Run(EMPTY_WORLD, steps, w)
  }

  /** In every interleaving from the empty pool, shape, counts and counter are right throughout. */
  lemma EveryInterleavingIsCounted(w: World)
    requires Reachable(w)
    ensures Shaped(w.pool) && Counted(w.pool, w.handles) && Inv(w)
  {
    var steps :| Run(EMPTY_WORLD, steps, w);
    RunKeepsInv(EMPTY_WORLD, steps, w);
  }

  /** A handle on an entry can always be given back: its entry is pooled and its count positive. */
  lemma HandlesAreLive(w: World, id: EntryId)
    requires Reachable(w) && id in w.handles
    ensures Enabled(w, Unref(id))
  {
    EveryInterleavingIsCounted(w);
  }

  /** An entry leaves the pool exactly when the last handle on it is released. */
  lemma RemovedWithLastHandle(w: World, s: Step, id: EntryId)
    requires Reachable(w) && Enabled(w, s) && id in w.pool.entries
    ensures id !in Next(w, s).pool.entries <==> s == Unref(id) && w.handles[id] == 1
    ensures id in Next(w, s).pool.entries ==>
              Next(w, s).pool.entries[id].page == w.pool.entries[id].page
              && Next(w, s).pool.entries[id].hash == w.pool.entries[id].hash
  {
    EveryInterleavingIsCounted(w);
    hide Inv, Reachable, Shaped;
    match s
    case Lookup(h) => AcquireSpares(w.pool, h, id);
    case AddCheck(t, h, page) => AcquireSpares(w.pool, h, id);
    case AddAlloc(_, _) =>
    case AddFail(_) =>
    case AddPublish(t) => PublishSpares(w, t, id);
    case Unref(x) =>
  }

  lemma AcquireSpares(p: Pool, h: Hash, id: EntryId)
    requires id in p.entries
    ensures var q := Acquire(p, h).0;
            id in q.entries && q.entries[id].page == p.entries[id].page && q.entries[id].hash == p.entries[id].hash
  {
  }

  lemma PublishSpares(w: World, t: Tid, id: EntryId)
    requires Inv(w) && t in w.locals && w.locals[t].Allocated? && id in w.pool.entries
    ensures var q := Publish(w.pool, w.locals[t].id, w.locals[t].hash, w.locals[t].page).0;
            && id in q.entries
            && q.entries[id].page == w.pool.entries[id].page && q.entries[id].hash == w.pool.entries[id].hash
  {
  }

  // ---------------------------------------------------------------- the locked sections as code

  class GlobalPagePool {
    var entries: map<EntryId, Entry>
    var buckets: map<nat, seq<EntryId>>
    var totalPages: int

    ghost function State(): Pool
      reads this
    {
      Pool(entries, buckets, totalPages)
    }

    constructor ()
      ensures State() == EMPTY_POOL
    {
      entries, buckets, totalPages := map[], map[], 0;
    }

    /** The bucket walk shared by every locked section. */
    method Walk(hash: Hash) returns (found: Option<EntryId>)
      ensures found == FindHash(State(), hash)
    {
      var b := hash % POOL_BUCKET_COUNT;
      var ids := if b in buckets then buckets[b] else [];
      var i := 0;
      while i < |ids|
        invariant 0 <= i <= |ids|
        invariant Find(State(), ids, hash) == Find(State(), ids[i..], hash)
      {
        if ids[i] in entries && entries[ids[i]].hash == hash {
          return Some(ids[i]);
        }
        assert ids[i..][1..] == ids[i + 1..];
        i := i + 1;
      }
      return None;
    }

    method Lookup(hash: Hash) returns (found: Option<EntryId>)
      modifies this
      ensures (State(), found) == Acquire(old(State()), hash)
    {
      found := Walk(hash);
      if found.Some? {
        var e := entries[found.value];
        entries := entries[found.value := e.(refs := e.refs + 1)];
      }
    }

    method AddPublish(id: EntryId, hash: Hash, page: Page) returns (got: EntryId)
      modifies this
      ensures (State(), got) == Publish(old(State()), id, hash, page)
    {
      var existing := Walk(hash);
      if existing.Some? {
        var e := entries[existing.value];
        entries := entries[existing.value := e.(refs := e.refs + 1)];
        return existing.value;
      }
      var b := hash % POOL_BUCKET_COUNT;
      entries := entries[id := Entry(hash, page, 1)];
      buckets := buckets[b := [id] + if b in buckets then buckets[b] else []];
      totalPages := totalPages + 1;
      return id;
    }

    method Unref(id: EntryId) returns (freed: bool)
      requires id in entries && entries[id].refs > 0
      modifies this
      ensures State() == Release(old(State()), id)
      ensures freed <==> id !in entries
    {
      var e := entries[id];
      entries := entries[id := e.(refs := e.refs - 1)];
      freed := entries[id].refs == 0;
      if freed {
        var b := e.hash % POOL_BUCKET_COUNT;
        entries := entries - {id};
        buckets := buckets[b := Without(if b in buckets then buckets[b] else [], id)];
        totalPages := totalPages - 1;
      }
    }
  }
}
