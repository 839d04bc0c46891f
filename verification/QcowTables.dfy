/** The second-level tables of a QCOW2 image: the cache of them, its eviction, and what a lost table takes with it. */
module QcowTables {
  import opened Base
  import opened Bits
  import opened QcowView

  const CACHE_TABLES: nat := 100

  /** A table in the file: none yet, at an address that is no cluster's, or these entries. */
  datatype Table = Absent | Misplaced | At(entries: seq<Entry>)

  datatype Cached = Cached(entries: seq<Entry>, dirty: bool)

  type Cache = map<int, Cached>

  function Empties(per: nat): seq<Entry> {
    seq(per, _ => Empty)
  }

  /** Entry `j` of table `t`: the cached one if there is one, else the one in the file. */
  function EntryIn(tables: seq<Table>, cache: Cache, t: nat, j: nat): Entry {
    if t in cache then if j < |cache[t].entries| then cache[t].entries[j] else Empty
    else if t < |tables| && tables[t].At? && j < |tables[t].entries| then tables[t].entries[j]
    else Empty
  }

  predicate TableOk(table: Table, per: nat) {
    table.At? ==> |table.entries| == per
  }

  /** A clean table is the file's; a dirty one has a cluster in the file that was never written. */
  predicate CachedOk(tables: seq<Table>, t: int, c: Cached, per: nat) {
    0 <= t < |tables| && |c.entries| == per && tables[t] == At(if c.dirty then Empties(per) else c.entries)
  }

  /** `entries` are the image's entries, `per` to a table, as file and cache hold them. */
  ghost predicate Coherent(entries: seq<Entry>, tables: seq<Table>, cache: Cache, per: nat) {
    && per > 0 && |cache| <= CACHE_TABLES && |entries| == |tables| * per
    && (forall t :: 0 <= t < |tables| ==> TableOk(tables[t], per))
    && (forall t :: t in cache ==> CachedOk(tables, t, cache[t], per))
    && (forall h :: 0 <= h < |entries| ==> entries[h] == EntryIn(tables, cache, ClusterOf(h, per), Within(h, per)))
  }

  lemma InTable(h: nat, per: nat, n: nat)
    requires per > 0
    ensures h < n * per <==> ClusterOf(h, per) < n
  {
    var q := ClusterOf(h, per);
    assert h == q * per + Within(h, per);
    if q < n {
      MulMono(q + 1, n, per);
    } else {
      MulMono(n, q, per);
    }
  }

  /** The entry the code looks at is the image's. */
  lemma EntryIsCached(entries: seq<Entry>, tables: seq<Table>, cache: Cache, per: nat, g: nat)
    requires Coherent(entries, tables, cache, per)
    ensures g < |entries| <==> ClusterOf(g, per) < |tables|
    ensures g < |entries| && ClusterOf(g, per) in cache ==>
              && Within(g, per) < |cache[ClusterOf(g, per)].entries|
              && cache[ClusterOf(g, per)].entries[Within(g, per)] == entries[g]
    ensures g < |entries| && tables[ClusterOf(g, per)].Absent? ==> entries[g] == Empty
  {
    InTable(g, per, |tables|);
  }

  // ---------------------------------------------------------------- eviction

  datatype TableSet = TableSet(tables: seq<Table>, cache: Cache)

  /** Where a table's write-back stopped: before entry `k`, or inside it, leaving `torn` there. */
  datatype Loss = Loss(t: nat, k: nat, torn: Option<Entry>)

  /** A table written over the zeros of its cluster as far as that entry. */
  function Prefix(table: seq<Entry>, k: nat, torn: Option<Entry>): (r: seq<Entry>)
    ensures |r| == |table|
  {
    seq(|table|, j requires 0 <= j < |table| =>
      if j < k then table[j] else if j == k && torn.Some? then torn.value else Empty)
  }

  /**
    CacheMap::insert. A full cache first gives up table `victim`; a dirty one is taken out and then
    written, and when the write stops short, as `loss` says, it is gone and nothing is inserted.
   */
  function Insert(m: TableSet, i: int, block: Cached, victim: int, loss: Option<Loss>): (TableSet, Outcome)
    requires victim in m.cache ==> 0 <= victim < |m.tables|
  {
    if |m.cache| < CACHE_TABLES || victim !in m.cache then (m.(cache := m.cache[i := block]), Ok)
    else
      var out, rest := m.cache[victim], m.cache - {victim};
      if !out.dirty then (TableSet(m.tables, rest[i := block]), Ok)
      else if loss.None? then (TableSet(m.tables[victim := At(out.entries)], rest[i := block]), Ok)
      else (TableSet(m.tables[victim := At(Prefix(out.entries, loss.value.k, loss.value.torn))], rest), Err)
  }

  lemma SubsetSize(a: set<int>, b: set<int>)
    requires a <= b
    ensures |a| <= |b|
  {
    assert b == a + (b - a);
  }

  /** Guest cluster `g` had its entry in the lost part of the table. */
  predicate InLost(g: nat, per: nat, loss: Loss) {
    ClusterOf(g, per) == loss.t && loss.k <= Within(g, per)
  }

  predicate InTorn(g: nat, per: nat, loss: Loss) {
    loss.torn.Some? && ClusterOf(g, per) == loss.t && loss.k == Within(g, per)
  }

  /** The image's entries without the lost ones. */
  function LoseEntries(entries: seq<Entry>, per: nat, loss: Loss): (r: seq<Entry>)
    ensures |r| == |entries|
  {
    seq(|entries|, h requires 0 <= h < |entries| =>
      if InTorn(h, per, loss) then loss.torn.value else if InLost(h, per, loss) then Empty else entries[h])
  }

  lemma DropKeepsSize(cache: Cache, t: int)
    requires t in cache
    ensures |cache - {t}| == |cache| - 1
  {
    var rest := cache - {t};
    assert cache.Keys == rest.Keys + {t};
    assert |cache.Keys| == |cache| && |rest.Keys| == |rest|;
  }

  lemma AddSize(cache: Cache, i: int, block: Cached)
    requires i !in cache
    ensures |cache[i := block]| == |cache| + 1
  {
    var more := cache[i := block];
    assert more.Keys == cache.Keys + {i};
    assert |cache.Keys| == |cache| && |more.Keys| == |more|;
  }

  /** Writing a table back and dropping it changes no entry. */
  lemma EvictKeeps(entries: seq<Entry>, tables: seq<Table>, cache: Cache, per: nat, t: int)
    requires Coherent(entries, tables, cache, per) && t in cache
    ensures Coherent(entries, tables[t := At(cache[t].entries)], cache - {t}, per) && |cache - {t}| == |cache| - 1
  {
    hide ClusterOf, Within;
    DropKeepsSize(cache, t);
    var ts, rest := tables[t := At(cache[t].entries)], cache - {t};
    EvictKeepsEntries(entries, tables, cache, per, t);
    hide EntryIn;
    assert forall u :: u in rest ==> CachedOk(ts, u, rest[u], per);
  }

  lemma EvictKeepsEntries(entries: seq<Entry>, tables: seq<Table>, cache: Cache, per: nat, t: int)
    requires Coherent(entries, tables, cache, per) && t in cache
    ensures forall h :: 0 <= h < |entries| ==>
              entries[h] ==
              EntryIn(tables[t := At(cache[t].entries)], cache - {t}, ClusterOf(h, per), Within(h, per))
  {
    hide ClusterOf, Within;
    forall h | 0 <= h < |entries|
      ensures entries[h] ==
              EntryIn(tables[t := At(cache[t].entries)], cache - {t}, ClusterOf(h, per), Within(h, per))
    {
      assert entries[h] == EntryIn(tables, cache, ClusterOf(h, per), Within(h, per));
    }
  }

  /** Dropping a dirty table whose write-back stopped loses the entries from there on. */
  lemma EvictLoses(entries: seq<Entry>, tables: seq<Table>, cache: Cache, per: nat, loss: Loss)
    requires Coherent(entries, tables, cache, per) && loss.t in cache
    ensures Coherent(LoseEntries(entries, per, loss),
                     tables[loss.t := At(Prefix(cache[loss.t].entries, loss.k, loss.torn))], cache - {loss.t}, per)
  {
    hide ClusterOf, Within;
    DropKeepsSize(cache, loss.t);
    var es := LoseEntries(entries, per, loss);
    var ts := tables[loss.t := At(Prefix(cache[loss.t].entries, loss.k, loss.torn))];
    forall h | 0 <= h < |es|
      ensures es[h] == EntryIn(ts, cache - {loss.t}, ClusterOf(h, per), Within(h, per))
    {
      InTable(h, per, |tables|);
    }
  }

  lemma InsertKeeps(entries: seq<Entry>, tables: seq<Table>, cache: Cache, per: nat, i: nat, block: Cached)
    requires Coherent(entries, tables, cache, per) && i !in cache && |cache| < CACHE_TABLES
    requires CachedOk(tables, i, block, per) && tables[i] == At(block.entries)
    ensures Coherent(entries, tables, cache[i := block], per)
  {
    AddSize(cache, i, block);
  }

  /** A table of no entries may be given a cluster. */
  lemma PlaceKeeps(entries: seq<Entry>, tables: seq<Table>, cache: Cache, per: nat, i: nat)
    requires Coherent(entries, tables, cache, per) && i < |tables| && tables[i].Absent?
    ensures Coherent(entries, tables[i := At(Empties(per))], cache, per) && i !in cache
  {
  }

  /** Changing a cached entry changes that entry of the image; its table now has a cluster not yet written. */
  lemma UpdateKeeps(entries: seq<Entry>, tables: seq<Table>, cache: Cache, per: nat, g: nat, e: Entry)
    requires Coherent(entries, tables, cache, per) && g < |entries| && ClusterOf(g, per) in cache
    ensures var t, j := ClusterOf(g, per), Within(g, per);
            && j < |cache[t].entries| && t < |tables|
            && Coherent(entries[g := e], tables[t := At(Empties(per))],
                        cache[t := Cached(cache[t].entries[j := e], true)], per)
  {
    hide ClusterOf, Within;
    InTable(g, per, |tables|);
    var t, j := ClusterOf(g, per), Within(g, per);
    var es := entries[g := e];
    var c := cache[t := Cached(cache[t].entries[j := e], true)];
    assert c.Keys == cache.Keys;
    assert |c| == |c.Keys| && |cache| == |cache.Keys|;
    forall h | 0 <= h < |es|
      ensures es[h] == EntryIn(tables[t := At(Empties(per))], c, ClusterOf(h, per), Within(h, per))
    {
      if h != g && ClusterOf(h, per) == t {
        SameCluster(per, g, h);
      }
    }
  }

  /** What became of the cache: only the tables of `touched` came in or were dirtied. */
  predicate Grown(before: Cache, after: Cache, touched: set<int>) {
    forall t :: t in after ==> t in touched || (t in before && (after[t].dirty ==> before[t].dirty))
  }

  /** A table is lost only by a full cache, and only one that was dirty or was touched. */
  ghost predicate LossExplained(before: Cache, touched: set<int>, loss: Loss) {
    && |before.Keys + touched| > CACHE_TABLES
    && (loss.t in touched || (loss.t in before && before[loss.t].dirty))
  }

  /** Nothing was lost, or nothing but whole entries. */
  predicate Clean(loss: Option<Loss>) {
    loss.None? || loss.value.torn.None?
  }

  /** The table that guest address `a` has its entry in. */
  function TableNumber(a: nat, cs: nat, per: nat): nat {
    ClusterOf(ClusterOf(a, cs), per)
  }

  ghost function Spanned(address: nat, n: nat, cs: nat, per: nat): set<int> {
    set a: nat | address <= a < address + n :: TableNumber(a, cs, per)
  }

  lemma GrownThen(c0: Cache, c1: Cache, c2: Cache, some: set<int>, all: set<int>)
    requires Grown(c0, c1, all) && Grown(c1, c2, some) && some <= all
    ensures Grown(c0, c2, all)
  {
  }

  lemma LossThen(c0: Cache, c1: Cache, some: set<int>, all: set<int>, loss: Loss)
    requires Grown(c0, c1, all) && LossExplained(c1, some, loss) && some <= all
    ensures LossExplained(c0, all, loss)
  {
    forall t | t in c1.Keys + some
      ensures t in c0.Keys + all
    {
      assert t in c1 || t in some;
    }
    SubsetSize(c1.Keys + some, c0.Keys + all);
  }

  lemma CachedIsOk(entries: seq<Entry>, tables: seq<Table>, cache: Cache, per: nat, t: int)
    requires Coherent(entries, tables, cache, per) && t in cache
    ensures CachedOk(tables, t, cache[t], per)
    ensures !cache[t].dirty ==> tables[t := At(cache[t].entries)] == tables
  {
  }

  lemma CacheFits(entries: seq<Entry>, tables: seq<Table>, cache: Cache, per: nat)
    requires Coherent(entries, tables, cache, per)
    ensures |cache| <= CACHE_TABLES && per > 0
  {
  }

  lemma TableIsOk(entries: seq<Entry>, tables: seq<Table>, cache: Cache, per: nat, i: nat)
    requires Coherent(entries, tables, cache, per) && i < |tables| && i !in cache && tables[i].At?
    ensures CachedOk(tables, i, Cached(tables[i].entries, false), per)
  {
    assert TableOk(tables[i], per);
  }

  lemma FullCacheExplains(cache: Cache, i: int, loss: Loss)
    requires |cache| == CACHE_TABLES && i !in cache && loss.t in cache && cache[loss.t].dirty
    ensures LossExplained(cache, {i}, loss)
  {
    assert |cache.Keys| == |cache|;
    assert |cache.Keys + {i}| == |cache.Keys| + 1;
  }

  lemma InSpanned(a: nat, address: nat, n: nat, cs: nat, per: nat)
    requires address <= a < address + n
    ensures {TableNumber(a, cs, per) as int} <= Spanned(address, n, cs, per)
  {
  }

  /** The same tables are at no proper place. */
  predicate KindsKept(tables: seq<Table>, tables': seq<Table>) {
    |tables'| == |tables| && forall t :: 0 <= t < |tables| ==> (tables'[t].Misplaced? <==> tables[t].Misplaced?)
  }

  /** No table was dirtied. */
  predicate NoDirtier(before: Cache, after: Cache) {
    forall t :: t in after && after[t].dirty ==> t in before && before[t].dirty
  }

  /** The lost table was a dirty one of the cache. */
  predicate WasDirty(before: Cache, loss: Loss) {
    loss.t in before && before[loss.t].dirty
  }

  lemma GrownSame(cache: Cache, touched: set<int>)
    ensures Grown(cache, cache, touched)
  {
  }

  /** How an insertion came out, for some choice of table and point of failure. */
  ghost predicate Inserts(m: TableSet, i: int, block: Cached, m': TableSet, res: Outcome, loss: Option<Loss>) {
    exists victim: int ::
      && (victim in m.cache ==> 0 <= victim < |m.tables|) && (|m.cache| < CACHE_TABLES || victim in m.cache)
      && (loss.Some? ==> loss.value.t == victim) && Insert(m, i, block, victim, loss) == (m', res)
  }

  // ---------------------------------------------------------------- what the guest sees of a loss

  function Lose(img: Image, per: nat, loss: Loss): Image {
    img.(entries := LoseEntries(img.entries, per, loss))
  }

  /** The entries of a table were lost and nothing else the guest sees changed. */
  ghost predicate Lost(img: Image, img': Image, dec: Decoder, per: nat, loss: Loss) {
    && img'.cs == img.cs && img'.back == img.back && img'.entries == LoseEntries(img.entries, per, loss)
    && SameView(img, img'.(entries := img.entries), dec)
  }

  /** Every guest cluster of the lost part shows the backing disk, or zeros without one; all others are as they were. */
  lemma LostByte(img: Image, img': Image, dec: Decoder, per: nat, loss: Loss, a: nat)
    requires Lost(img, img', dec, per, loss) && OnDisk(img, a) && !InTorn(ClusterOf(a, img.cs), per, loss)
    ensures OnDisk(img', a)
    ensures ByteAt(img', dec, a) ==
              if InLost(ClusterOf(a, img.cs), per, loss) then BackByte(img.back, a) else ByteAt(img, dec, a)
  {
    hide InLost, InTorn;
    var same := img'.(entries := img.entries);
    assert ByteAt(same, dec, a) == ByteAt(img, dec, a);
  }

  predicate Recovers(img: Image, dec: Decoder, a: nat)
    requires OnDisk(img, a)
  {
    ByteAt(img, dec, a) == BackByte(img.back, a)
  }

  predicate LostOutside(img: Image, per: nat, loss: Loss, address: nat, len: nat, a: nat) {
    OnDisk(img, a) && Outside(a, address, len) && InLost(ClusterOf(a, img.cs), per, loss)
  }

  /** Losing a table from entry `k` on leaves the rest of the disk alone exactly when the backing disk has all of it. */
  lemma LossHiddenIff(img: Image, dec: Decoder, per: nat, t: nat, k: nat, address: nat, len: nat)
    ensures OutsideSame(img, Lose(img, per, Loss(t, k, None)), dec, address, len) <==>
              forall a: nat :: LostOutside(img, per, Loss(t, k, None), address, len, a) ==> Recovers(img, dec, a)
  {
    var loss := Loss(t, k, None);
    var img' := Lose(img, per, loss);
    assert img'.(entries := img.entries) == img;
    forall a: nat | OnDisk(img, a)
      ensures OnDisk(img', a)
      ensures ByteAt(img', dec, a) ==
                if InLost(ClusterOf(a, img.cs), per, loss) then BackByte(img.back, a) else ByteAt(img, dec, a)
    {
      LostByte(img, img', dec, per, loss, a);
    }
    hide ByteAt, InLost;
    if forall a: nat :: LostOutside(img, per, loss, address, len, a) ==> Recovers(img, dec, a) {
      forall a: nat | OnDisk(img, a) && Outside(a, address, len)
        ensures ByteAt(img', dec, a) == ByteAt(img, dec, a)
      {
        assert LostOutside(img, per, loss, address, len, a) ==> Recovers(img, dec, a);
      }
    }
  }

  /** A write that went through for `n` bytes and then lost a table. */
  ghost predicate LostAt(img: Image, img': Image, dec: Decoder, per: nat, address: nat, data: seq<Byte>, n: nat,
                         loss: Loss)
    requires n <= |data|
  {
    && img'.cs == img.cs && |img'.entries| == |img.entries| && img'.back == img.back
    && forall a: nat :: OnDisk(img, a) && !InTorn(ClusterOf(a, img.cs), per, loss) ==>
         ByteAt(img', dec, a) == if InLost(ClusterOf(a, img.cs), per, loss) then BackByte(img.back, a)
           else if address <= a < address + n then data[a - address]
           else ByteAt(img, dec, a)
  }

  lemma PatchThenLost(i0: Image, i1: Image, i2: Image, dec: Decoder, per: nat, address: nat, data: seq<Byte>, n: nat,
                      loss: Loss)
    requires n <= |data| && Patched(i0, i1, dec, address, data, n) && Lost(i1, i2, dec, per, loss)
    ensures LostAt(i0, i2, dec, per, address, data, n, loss)
  {
    forall a: nat | OnDisk(i0, a) && !InTorn(ClusterOf(a, i0.cs), per, loss)
      ensures ByteAt(i2, dec, a) == if InLost(ClusterOf(a, i0.cs), per, loss) then BackByte(i0.back, a)
                else if address <= a < address + n then data[a - address]
                else ByteAt(i0, dec, a)
    {
      hide ByteAt, InLost, InTorn;
      LostByte(i1, i2, dec, per, loss, a);
    }
    hide ByteAt, InLost, InTorn;
  }

  /** So outside the write's range only the lost clusters change, and they show the backing disk. */
  lemma LossFailsOutside(img: Image, img': Image, dec: Decoder, per: nat, address: nat, data: seq<Byte>, n: nat,
                         loss: Loss)
    requires n <= |data| && LostAt(img, img', dec, per, address, data, n, loss) && loss.torn.None?
    ensures OutsideSame(img, img', dec, address, |data|) <==>
              forall a: nat :: LostOutside(img, per, loss, address, |data|, a) ==> Recovers(img, dec, a)
  {
    hide ByteAt, InLost;
    if forall a: nat :: LostOutside(img, per, loss, address, |data|, a) ==> Recovers(img, dec, a) {
      forall a: nat | OnDisk(img, a) && Outside(a, address, |data|)
        ensures ByteAt(img', dec, a) == ByteAt(img, dec, a)
      {
        assert LostOutside(img, per, loss, address, |data|, a) ==> Recovers(img, dec, a);
      }
    }
  }

  /** A loss between two entries leaves every cluster with the one owner it had. */
  lemma LossKeepsSound(cs: nat, entries: seq<Entry>, avail: seq<nat>, role: map<int, Role>, len: nat, per: nat,
                       loss: Loss)
    requires Sound(cs, entries, avail, role, len) && loss.torn.None?
    ensures Sound(cs, LoseEntries(entries, per, loss), avail, role, len)
  {
    hide InLost;
  }

  /** Table `loss.t` was lost and nothing else, by a request that touched the tables `touched`. */
  ghost predicate Loses(img: Image, img': Image, dec: Decoder, per: nat, before: Cache, touched: set<int>, loss: Loss) {
    Lost(img, img', dec, per, loss) && LossExplained(before, touched, loss)
  }

  /** Before the loss the entries were `es`, which kept what `es0` pointed at. */
  ghost predicate LostFrom(es0: seq<Entry>, es: seq<Entry>, es': seq<Entry>, per: nat, loss: Loss) {
    StdKept(es0, es) && es' == LoseEntries(es, per, loss)
  }

  /** Nothing the guest sees changed before the loss. */
  lemma SteadyThenLost(img: Image, role: map<int, Role>, img': Image, role': map<int, Role>, dec: Decoder, per: nat,
                       loss: Loss)
    requires Steady(img, role, img'.(entries := img.entries), role', dec)
    requires img'.entries == LoseEntries(img.entries, per, loss)
    ensures Lost(img, img', dec, per, loss)
  {
    hide ByteAt, LoseEntries;
  }

  /** Inserting `block` may fail by losing table `loss.t` from entry `loss.k` on. */
  predicate MayLose(m: TableSet, i: int, block: Cached, loss: Loss) {
    && loss.torn.None? && |m.cache| == CACHE_TABLES && loss.t in m.cache && loss.t < |m.tables|
    && Insert(m, i, block, loss.t, Some(loss)).1 == Err
  }

  predicate InDirty(a: nat, cs: nat, cache: Cache, per: nat) {
    TableNumber(a, cs, per) in cache && cache[TableNumber(a, cs, per)].dirty
  }

  /** Byte `a`, if it lies outside the range and in a dirty cached table, is what the backing disk has. */
  predicate Covered(img: Image, dec: Decoder, cache: Cache, per: nat, address: nat, len: nat, a: nat) {
    OnDisk(img, a) && Outside(a, address, len) && InDirty(a, img.cs, cache, per) ==> Recovers(img, dec, a)
  }

  /**
    Before a request needs a table that is not cached one can tell whether failing there can change the
    disk outside its range: it cannot, exactly when the cache has room or the dirty tables hold nothing,
    outside the range, that the backing disk does not have.
   */
  lemma LossHarmlessIff(img: Image, m: TableSet, dec: Decoder, per: nat, i: int, block: Cached, address: nat, len: nat)
    requires Coherent(img.entries, m.tables, m.cache, per)
    ensures (forall loss :: MayLose(m, i, block, loss) ==>
               OutsideSame(img, Lose(img, per, loss), dec, address, len)) <==>
              |m.cache| < CACHE_TABLES || forall a: nat :: Covered(img, dec, m.cache, per, address, len, a)
  {
    hide OutsideSame, Lose, Recovers, OnDisk, Outside;
    if |m.cache| == CACHE_TABLES {
      if forall loss :: MayLose(m, i, block, loss) ==> OutsideSame(img, Lose(img, per, loss), dec, address, len) {
        forall a: nat
          ensures Covered(img, dec, m.cache, per, address, len, a)
        {
          var t := TableNumber(a, img.cs, per);
          if t in m.cache && m.cache[t].dirty {
            CachedIsOk(img.entries, m.tables, m.cache, per, t);
            assert MayLose(m, i, block, Loss(t, 0, None));
            LossHiddenIff(img, dec, per, t, 0, address, len);
          }
        }
      } else {
        var loss :| MayLose(m, i, block, loss) && !OutsideSame(img, Lose(img, per, loss), dec, address, len);
        LossHiddenIff(img, dec, per, loss.t, loss.k, address, len);
        assert loss == Loss(loss.t, loss.k, None);
        var a: nat :| LostOutside(img, per, loss, address, len, a) && !Recovers(img, dec, a);
        assert !Covered(img, dec, m.cache, per, address, len, a);
      }
    }
  }

  // ---------------------------------------------------------------- a run

  function Below(n: nat): set<int> {
    if n == 0 then {} else Below(n - 1) + {n - 1}
  }

  lemma {:induction false} BelowSize(n: nat)
    ensures |Below(n)| == n && forall t :: t in Below(n) <==> 0 <= t < n
  {
    if n > 0 {
      BelowSize(n - 1);
    }
  }

  /** `n + 1` tables of one entry; the first `n` are cached, and table 0, dirty, has the only cluster of the image. */
  function ManyTables(n: nat): TableSet {
    TableSet(seq(n + 1, t => At([Empty])),
             map t | t in Below(n) :: if t == 0 then Cached([Std(0)], true) else Cached([Empty], false))
  }

  function ManyClusters(n: nat): Image {
    Image(1, seq(n + 1, h => if h == 0 then Std(0) else Empty), [7], None)
  }

  lemma ManyTablesAreSound(n: nat)
    requires 1 <= n <= CACHE_TABLES
    ensures |ManyTables(n).cache| == n && 0 in ManyTables(n).cache && n !in ManyTables(n).cache
    ensures Coherent(ManyClusters(n).entries, ManyTables(n).tables, ManyTables(n).cache, 1)
    ensures Sound(1, ManyClusters(n).entries, [], map[0 := Data(0)], 1)
  {
    BelowSize(n);
    hide Below;
    var m := ManyTables(n);
    assert m.cache.Keys == Below(n);
    assert |m.cache.Keys| == |m.cache|;
    assert Empties(1) == [Empty];
  }

  /**
    A request for guest address 100, in one table more than the cache takes, evicts table 0. When its
    write-back fails at once, the request fails and the byte at address 0 goes from 7 to 0.
   */
  lemma FullCacheLosesTable()
    ensures var m, img, loss := ManyTables(CACHE_TABLES), ManyClusters(CACHE_TABLES), Loss(0, 0, None);
            && |m.cache| == CACHE_TABLES && CACHE_TABLES !in m.cache && 0 in m.cache && m.cache[0].dirty
            && Coherent(img.entries, m.tables, m.cache, 1) && Sound(1, img.entries, [], map[0 := Data(0)], 1)
            && var (m', res) := Insert(m, CACHE_TABLES, Cached([Empty], false), 0, Some(loss));
               && res == Err && Coherent(Lose(img, 1, loss).entries, m'.tables, m'.cache, 1)
               && TableNumber(CACHE_TABLES, 1, 1) == CACHE_TABLES && Outside(0, CACHE_TABLES, 1)
               && OnDisk(img, 0) && ByteAt(img, map[], 0) == 7 && ByteAt(Lose(img, 1, loss), map[], 0) == 0
  {
    hide Below, Coherent, Sound;
    var m, img, loss := ManyTables(CACHE_TABLES), ManyClusters(CACHE_TABLES), Loss(0, 0, None);
    ManyTablesAreSound(CACHE_TABLES);
    EvictLoses(img.entries, m.tables, m.cache, 1, loss);
  }
}
