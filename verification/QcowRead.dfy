/** Guest reads of a QCOW2 image: the mapping of a range, the scatter of its pieces, and the asynchronous fast path. */
module QcowRead {
  import opened Base
  import opened Bits
  import opened HostIo
  import opened Iovec
  import opened QcowView
  import opened QcowTables
  import opened QcowRange
  import opened QcowDisk

  /** The `n` bytes from guest address `at` on lie in one cluster of their own, at file position `host`. */
  predicate Placed(img: Image, at: nat, host: nat, n: nat) {
    && OnDisk(img, at) && Within(at, img.cs) + n <= img.cs
    && var e := img.entries[ClusterOf(at, img.cs)];
       e.Std? && Aligned(e.addr, img.cs) && host == e.addr + Within(at, img.cs)
  }

  /** Serving `m` yields the guest's bytes from address `at` on. */
  ghost predicate Denotes(img: Image, dec: Decoder, m: Mapping, at: nat) {
    && RangeOnDisk(img, at, m.length)
    && match m
       case ZeroFill(n) => forall a: nat :: at <= a < at + n ==> ByteAt(img, dec, a) == 0
       case Allocated(off, n) =>
         && off + n <= |img.file| && Placed(img, at, off, n)
         && forall a: nat :: at <= a < at + n ==> ByteAt(img, dec, a) == img.file[off + (a - at)]
       case Inflated(off, size, inner, n) =>
         && inner + n <= img.cs && off + size <= |img.file|
         && var d := Inflate(dec, img.file, off, size, img.cs);
            d.Some? ==> forall a: nat :: at <= a < at + n ==> ByteAt(img, dec, a) == d.value[inner + (a - at)]
       case FromBacking(off, n) =>
         img.back.Some? && forall a: nat :: at <= a < at + n ==>
           ByteAt(img, dec, a) == BackByte(img.back, off + (a - at))
  }

  /** Mapping `m` serves the part of the request from position `from` up to `to`. */
  ghost predicate Piece(img: Image, dec: Decoder, m: Mapping, from: nat, to: nat, address: nat, total: nat) {
    from + m.length == to <= total && Denotes(img, dec, m, address + from) && Stems(img, m, address + from)
  }

  /** Mapping `m` is that of the entry of its cluster. */
  predicate Stems(img: Image, m: Mapping, at: nat) {
    && OnDisk(img, at) && m.length > 0 && Within(at, img.cs) + m.length <= img.cs
    && m == MapEntry(img.entries[ClusterOf(at, img.cs)], img.cs, img.back.Some?, at, m.length)
  }

  /** The mappings cover the range of `total` bytes from `address` on, cut at the positions `cuts`. */
  ghost predicate Tiles(img: Image, dec: Decoder, ms: seq<Mapping>, cuts: seq<nat>, address: nat, total: nat) {
    && |cuts| == |ms| + 1 && cuts[0] == 0 && cuts[|ms|] == total
    && forall k :: 0 <= k < |ms| ==> Piece(img, dec, ms[k], cuts[k], cuts[k + 1], address, total)
  }

  /** The guest's bytes of a range. */
  ghost function Range(img: Image, dec: Decoder, address: nat, n: nat): (r: seq<Byte>)
    requires RangeOnDisk(img, address, n)
    ensures |r| == n
  {
    seq<Byte>(n, i requires 0 <= i < n => ByteAt(img, dec, address + i))
  }

  // ---------------------------------------------------------------- what can be read

  /** The bytes that mapping `m` stands for can be had: compressed data decodes. */
  predicate Served(img: Image, dec: Decoder, m: Mapping) {
    m.Inflated? ==> Inflate(dec, img.file, m.hostOffset, m.size, img.cs).Some?
  }

  lemma DecodesMore(img: Image, dec: Decoder, m: Mapping, address: nat, n: nat, total: nat)
    requires Stems(img, m, address + n) && n + m.length <= total && DecodesAll(img, dec, address, n)
    ensures Served(img, dec, m) ==> DecodesAll(img, dec, address, n + m.length)
    ensures DecodesAll(img, dec, address, total) ==> Served(img, dec, m)
  {
    hide Inflate;
    assert DecodesAt(img, dec, address + n) <==> Served(img, dec, m);
    hide DecodesAt, Served;
    DecodesOn(img, dec, address, n, m.length, total);
  }

  // ---------------------------------------------------------------- mapping

  function Unallocated(hasBacking: bool, address: nat, count: nat): Mapping {
    if hasBacking then FromBacking(address, count) else ZeroFill(count)
  }

  function MapEntry(e: Entry, cs: nat, hasBacking: bool, address: nat, count: nat): Mapping
    requires cs > 0
  {
    match e
    case Compressed(off, len) => Inflated(off, len, Within(address, cs), count)
    case Std(c) => Allocated(c + Within(address, cs), count)
    case _ => Unallocated(hasBacking, address, count)
  }

  /** A chunk inside one cluster is served by its entry. */
  lemma EntryServes(img: Image, dec: Decoder, avail: seq<nat>, role: map<int, Role>, address: nat, count: nat)
    requires Sound(img.cs, img.entries, avail, role, |img.file|) && OnDisk(img, address)
    requires Within(address, img.cs) + count <= img.cs
    requires img.entries[ClusterOf(address, img.cs)].Std? ==>
             Aligned(img.entries[ClusterOf(address, img.cs)].addr, img.cs)
    ensures Denotes(img, dec,
                    MapEntry(img.entries[ClusterOf(address, img.cs)], img.cs, img.back.Some?, address, count), address)
  {
    var cs, g := img.cs, ClusterOf(address, img.cs);
    assert EntryOk(img.entries[g], g, cs, role, |img.file|);
    forall a: nat | address <= a < address + count
      ensures ClusterOf(a, cs) == g && Within(a, cs) == Within(address, cs) + (a - address)
    {
      InChunk(cs, address, count, a);
    }
  }

  /** Lookup under the shared lock: misses when the table is not cached or the entry looks corrupt. */
  method TryMapRead(disk: Qcow, address: nat, count: nat) returns (r: Lookup)
    requires disk.Valid() && 0 < count && Within(address, disk.cs) + count <= disk.cs
    ensures r.Hit? ==> r.mapping.length == count && Denotes(disk.Img(), disk.decode, r.mapping, address)
    ensures r.Hit? ==> Stems(disk.Img(), r.mapping, address)
    ensures r.Hit? ==> address < disk.size && ClusterMaps(disk.Img(), disk.tables, disk.per, address)
    ensures r.Invalid? ==> address >= disk.size || !ClusterMaps(disk.Img(), disk.tables, disk.per, address)
  {
    hide Denotes, Coherent, Sound;
    var g := ClusterOf(address, disk.cs);
    var i := ClusterOf(g, disk.per);
    EntryIsCached(disk.entries, disk.tables, disk.cache, disk.per, g);
    if address >= disk.size || i >= |disk.tables| {
      return Invalid;
    }
    if disk.tables[i].Absent? {
      EntryServes(disk.Img(), disk.decode, disk.avail, disk.role, address, count);
      return Hit(Unallocated(disk.backing.Some?, address, count));
    }
    if i !in disk.cache {
      return Miss;
    }
    CachedIsOk(disk.entries, disk.tables, disk.cache, disk.per, i);
    var e := disk.cache[i].entries[Within(g, disk.per)];
    if e.Std? && Intra(e.addr, disk.cs) != 0 {
      return Miss;
    }
    EntryServes(disk.Img(), disk.decode, disk.avail, disk.role, address, count);
    return Hit(MapEntry(e, disk.cs, disk.backing.Some?, address, count));
  }

  /** Lookup under the exclusive lock, loading the table if need be. */
  method MapReadWithPopulate(disk: Qcow, address: nat, count: nat)
    returns (r: Option<Mapping>, ghost loss: Option<Loss>)
    requires disk.Valid() && 0 < count && Within(address, disk.cs) + count <= disk.cs
    modifies disk`tables, disk`cache, disk`entries
    ensures disk.Shaped() && disk.Owned(old(disk.entries)) && (Clean(loss) ==> disk.Valid())
    ensures Grown(old(disk.cache), disk.cache, {TableNumber(address, disk.cs, disk.per)})
    ensures NoDirtier(old(disk.cache), disk.cache)
    ensures loss.None? ==> disk.entries == old(disk.entries)
    ensures loss.Some? ==>
              && r.None? && disk.Img() == Lose(old(disk.Img()), disk.per, loss.value) &&
                WasDirty(old(disk.cache), loss.value)
              && LossExplained(old(disk.cache), {TableNumber(address, disk.cs, disk.per)}, loss.value)
    ensures r.Some? ==> r.value.length == count && Denotes(disk.Img(), disk.decode, r.value, address)
    ensures r.Some? ==> Stems(disk.Img(), r.value, address)
    ensures r.Some? ==> address < disk.size && ClusterMaps(disk.Img(), old(disk.tables), disk.per, address)
    ensures KindsKept(old(disk.tables), disk.tables)
    ensures disk.file.reliable ==>
              && loss.None?
              && (address < disk.size && ClusterMaps(disk.Img(), old(disk.tables), disk.per, address) ==> r.Some?)
  {
    hide Denotes, Coherent, LoseEntries, Sound;
    var g := ClusterOf(address, disk.cs);
    var i := ClusterOf(g, disk.per);
    loss := None;
    EntryIsCached(disk.entries, disk.tables, disk.cache, disk.per, g);
    GrownSame(disk.cache, {i});
    if address >= disk.size || i >= |disk.tables| {
      return None, loss;
    }
    if disk.tables[i].Absent? {
      EntryServes(disk.Img(), disk.decode, disk.avail, disk.role, address, count);
      return Some(Unallocated(disk.backing.Some?, address, count)), loss;
    }
    var res;
    res, loss := disk.CacheTable(i);
    if res == Err {
      return None, loss;
    }
    EntryIsCached(disk.entries, disk.tables, disk.cache, disk.per, g);
    var e := disk.cache[i].entries[Within(g, disk.per)];
    if e.Std? && Intra(e.addr, disk.cs) != 0 {
      return None, loss;
    }
    EntryServes(disk.Img(), disk.decode, disk.avail, disk.role, address, count);
    return Some(MapEntry(e, disk.cs, disk.backing.Some?, address, count)), loss;
  }

  lemma TilesNothing(img: Image, dec: Decoder, address: nat)
    ensures Tiles(img, dec, [], [0], address, 0)
  {
  }

  lemma TilesMore(img: Image, dec: Decoder, ms: seq<Mapping>, cuts: seq<nat>, address: nat, n: nat, m: Mapping)
    requires Tiles(img, dec, ms, cuts, address, n) && Denotes(img, dec, m, address + n) && Stems(img, m, address + n)
    ensures Tiles(img, dec, ms + [m], cuts + [n + m.length], address, n + m.length)
  {
    hide Denotes, Stems;
    var all, ends := ms + [m], cuts + [n + m.length];
    forall k | 0 <= k < |all|
      ensures Piece(img, dec, all[k], ends[k], ends[k + 1], address, n + m.length)
    {
      if k < |ms| {
        assert Piece(img, dec, ms[k], cuts[k], cuts[k + 1], address, n);
      }
    }
  }

  /** A failed read lost a table: a dirty one, by a cache too small for it and the tables of the range. */
  ghost predicate ReadLoses(img: Image, img': Image, per: nat, before: Cache, address: nat, n: nat, loss: Loss) {
    && img' == Lose(img, per, loss) && WasDirty(before, loss)
    && LossExplained(before, Spanned(address, n, img.cs, per), loss)
  }

  /** Maps a guest range cluster by cluster; starts over under the exclusive lock at the first miss. */
  method MapClustersForRead(disk: Qcow, address: nat, total: nat)
    returns (r: Option<seq<Mapping>>, ghost loss: Option<Loss>)
    requires disk.Valid()
    modifies disk`tables, disk`cache, disk`entries
    ensures disk.Shaped() && disk.Owned(old(disk.entries)) && (Clean(loss) ==> disk.Valid())
    ensures loss.None? ==> disk.entries == old(disk.entries)
    ensures loss.Some? ==>
              r.None? && ReadLoses(old(disk.Img()), disk.Img(), disk.per, old(disk.cache), address, total, loss.value)
    ensures r.Some? ==> exists cuts: seq<nat> :: Tiles(disk.Img(), disk.decode, r.value, cuts, address, total)
    ensures r.Some? ==> MapsAll(old(disk.Img()), old(disk.tables), disk.per, disk.size, address, total)
    ensures disk.file.reliable ==>
              loss.None? && (MapsAll(old(disk.Img()), old(disk.tables), disk.per, disk.size, address, total) ==>
                             r.Some?)
  {
    var ms: seq<Mapping> := [];
    hide Tiles, Denotes, Sound, ChunkLength, IsPowerOfTwo, Coherent, ReadLoses, MapsAll, ClusterMaps, Stems, AtCut,
         Within;
    TilesNothing(disk.Img(), disk.decode, address);
    MapsNothing(disk.Img(), disk.tables, disk.per, disk.size, address, total);
    var mapped := 0;
    loss := None;
    ghost var cuts: seq<nat> := [0];
    var needWriteLock := false;
    while mapped < total
      invariant 0 <= mapped <= total && loss.None?
      invariant disk.Valid() && disk.entries == old(disk.entries) && disk.cache == old(disk.cache)
      invariant disk.tables == old(disk.tables) && AtCut(address, mapped, total, disk.cs)
      invariant MapsAll(disk.Img(), disk.tables, disk.per, disk.size, address, mapped)
      invariant Tiles(disk.Img(), disk.decode, ms, cuts, address, mapped)
    {
      var curr := address + mapped;
      var count := ChunkLength(curr, total - mapped, disk.cs);
      MapsMore(disk.Img(), disk.tables, disk.per, disk.size, address, mapped, count, total);
      var l := TryMapRead(disk, curr, count);
      if l.Invalid? {
        return None, loss;
      }
      if l.Miss? {
        needWriteLock := true;
        break;
      }
      TilesMore(disk.Img(), disk.decode, ms, cuts, address, mapped, l.mapping);
      ms, cuts := ms + [l.mapping], cuts + [mapped + count];
      mapped := mapped + count;
    }
    if !needWriteLock {
      return Some(ms), loss;
    }
    r, loss := MapUnderWriteLock(disk, address, total);
  }

  method MapUnderWriteLock(disk: Qcow, address: nat, total: nat)
    returns (r: Option<seq<Mapping>>, ghost loss: Option<Loss>)
    requires disk.Valid()
    modifies disk`tables, disk`cache, disk`entries
    ensures disk.Shaped() && disk.Owned(old(disk.entries)) && (Clean(loss) ==> disk.Valid())
    ensures loss.None? ==> disk.entries == old(disk.entries)
    ensures loss.Some? ==>
              r.None? && ReadLoses(old(disk.Img()), disk.Img(), disk.per, old(disk.cache), address, total, loss.value)
    ensures r.Some? ==> exists cuts: seq<nat> :: Tiles(disk.Img(), disk.decode, r.value, cuts, address, total)
    ensures r.Some? ==> MapsAll(old(disk.Img()), old(disk.tables), disk.per, disk.size, address, total)
    ensures disk.file.reliable ==>
              loss.None? && (MapsAll(old(disk.Img()), old(disk.tables), disk.per, disk.size, address, total) ==>
                             r.Some?)
  {
    var ms: seq<Mapping> := [];
    hide Tiles, Denotes, Sound, ChunkLength, IsPowerOfTwo, Coherent, Grown, NoDirtier, LossExplained, WasDirty,
         LoseEntries, Spanned, TableNumber, ByteAt, MapsAll, ClusterMaps, Stems, AtCut, Within, KindsKept;
    ghost var img, c0, t0 := disk.Img(), disk.cache, disk.tables;
    MapsNothing(img, t0, disk.per, disk.size, address, total);
    KindsKeptThen(t0, t0, t0);
    ghost var all := Spanned(address, total, disk.cs, disk.per);
    TilesNothing(img, disk.decode, address);
    GrownSame(c0, all);
    NoDirtierThen(c0, c0, c0);
    var mapped := 0;
    loss := None;
    ghost var cuts: seq<nat> := [0];
    while mapped < total
      invariant 0 <= mapped <= total && loss.None?
      invariant disk.Valid() && disk.Img() == img && Grown(c0, disk.cache, all) && NoDirtier(c0, disk.cache)
      invariant Tiles(img, disk.decode, ms, cuts, address, mapped)
      invariant AtCut(address, mapped, total, disk.cs) && KindsKept(t0, disk.tables)
      invariant MapsAll(img, t0, disk.per, disk.size, address, mapped)
    {
      var curr := address + mapped;
      var count := ChunkLength(curr, total - mapped, disk.cs);
      ghost var c1, t1, t := disk.cache, disk.tables, TableNumber(curr, disk.cs, disk.per);
      MapsMore(img, t0, disk.per, disk.size, address, mapped, count, total);
      KindsMap(img, t0, t1, disk.per, curr);
      InSpanned(curr, address, total, disk.cs, disk.per);
      var m;
      m, loss := MapReadWithPopulate(disk, curr, count);
      GrownThen(c0, c1, disk.cache, {t}, all);
      NoDirtierThen(c0, c1, disk.cache);
      KindsKeptThen(t0, t1, disk.tables);
      if m.None? {
        if loss.Some? {
          LossThen(c0, c1, {t}, all, loss.value);
          WasDirtyThen(c0, c1, loss.value);
        }
        return None, loss;
      }
      TilesMore(img, disk.decode, ms, cuts, address, mapped, m.value);
      ms, cuts := ms + [m.value], cuts + [mapped + count];
      mapped := mapped + count;
    }
    return Some(ms), loss;
  }

  lemma NoDirtierThen(c0: Cache, c1: Cache, c2: Cache)
    ensures NoDirtier(c0, c0)
    ensures NoDirtier(c0, c1) && NoDirtier(c1, c2) ==> NoDirtier(c0, c2)
  {
  }

  lemma WasDirtyThen(c0: Cache, c1: Cache, loss: Loss)
    requires NoDirtier(c0, c1) && WasDirty(c1, loss)
    ensures WasDirty(c0, loss)
  {
  }

  // ---------------------------------------------------------------- serving

  /** Reads the bytes that one mapping stands for. */
  method Fetch(disk: Qcow, m: Mapping, ghost at: nat) returns (r: Option<seq<Byte>>)
    requires disk.Valid() && Denotes(disk.Img(), disk.decode, m, at)
    ensures r.Some? ==> r.value == Range(disk.Img(), disk.decode, at, m.length) && Served(disk.Img(), disk.decode, m)
    ensures disk.Dependable() && Served(disk.Img(), disk.decode, m) ==> r.Some?
  {
    hide Coherent, Sound, ByteAt, Inflate;
    match m {
      case ZeroFill(n) =>
        r := Some(Zeros(n));
      case Allocated(off, n) =>
        r := FetchAllocated(disk, off, n);
      case Inflated(off, size, inner, n) =>
        r := FetchInflated(disk, off, size, inner, n);
      case FromBacking(off, n) =>
        var buf := new Byte[n];
        var res := disk.backing.value.ReadAt(off, buf);
        r := if res == Ok then Some(buf[..]) else None;
    }
  }

  method FetchAllocated(disk: Qcow, off: nat, n: nat) returns (r: Option<seq<Byte>>)
    requires off + n <= |disk.file.data| < U64
    ensures r.Some? ==> r.value == disk.file.data[off..off + n]
    ensures disk.file.reliable && disk.alignment == 0 ==> r.Some?
  {
    var res;
    if disk.alignment > 0 {
      var abuf := disk.file.NewAlignedBuf(n, disk.alignment);
      if abuf.None? {
        return None;
      }
      res := disk.file.AlignedPread(abuf.value, off, disk.alignment, true);
      r := if res == Ok then Some(abuf.value[..]) else None;
    } else {
      var buf := new Byte[n];
      res := disk.file.PreadExact(buf, off);
      r := if res == Ok then Some(buf[..]) else None;
    }
  }

  method FetchInflated(disk: Qcow, off: nat, size: nat, inner: nat, n: nat) returns (r: Option<seq<Byte>>)
    requires off + size <= |disk.file.data| && inner + n <= disk.cs
    ensures r.Some? ==> var d := Inflate(disk.decode, disk.file.data, off, size, disk.cs);
                        d.Some? && r.value == d.value[inner..inner + n]
    ensures disk.file.reliable && Inflate(disk.decode, disk.file.data, off, size, disk.cs).Some? ==> r.Some?
  {
    var raw := new Byte[size];
    var res := disk.file.PreadExact(raw, off);
    if res == Err {
      return None;
    }
    assert raw[..] == disk.file.data[off..off + size];
    if raw[..] !in disk.decode || |disk.decode[raw[..]]| != disk.cs {
      return None;
    }
    InflateIs(disk.decode, disk.file.data, off, raw[..], disk.cs);
    return Some(disk.decode[raw[..]][inner..inner + n]);
  }

  lemma TileAt(img: Image, dec: Decoder, ms: seq<Mapping>, cuts: seq<nat>, address: nat, total: nat, k: nat)
    requires Tiles(img, dec, ms, cuts, address, total) && k < |ms|
    ensures |cuts| == |ms| + 1 && cuts[k] + ms[k].length == cuts[k + 1] <= total
    ensures Denotes(img, dec, ms[k], address + cuts[k]) && Stems(img, ms[k], address + cuts[k])
  {
    hide Denotes, Stems;
    assert Piece(img, dec, ms[k], cuts[k], cuts[k + 1], address, total);
  }

  lemma TilesEnd(img: Image, dec: Decoder, ms: seq<Mapping>, cuts: seq<nat>, address: nat, total: nat)
    requires Tiles(img, dec, ms, cuts, address, total)
    ensures |cuts| == |ms| + 1 && cuts[0] == 0 && cuts[|ms|] == total && RangeOnDisk(img, address, total)
  {
    TiledIsOnDisk(img, dec, ms, cuts, address, total, |ms|);
  }

  lemma RangeJoins(img: Image, address: nat, n: nat, k: nat)
    requires RangeOnDisk(img, address, n) && RangeOnDisk(img, address + n, k)
    ensures RangeOnDisk(img, address, n + k)
  {
    hide OnDisk;
  }

  lemma {:induction false} TiledIsOnDisk(img: Image, dec: Decoder, ms: seq<Mapping>, cuts: seq<nat>, address: nat,
                                         total: nat, k: nat)
    requires Tiles(img, dec, ms, cuts, address, total) && k <= |ms|
    ensures RangeOnDisk(img, address, cuts[k])
    decreases k
  {
    hide Denotes, OnDisk;
    if k > 0 {
      TiledIsOnDisk(img, dec, ms, cuts, address, total, k - 1);
      assert Piece(img, dec, ms[k - 1], cuts[k - 1], cuts[k], address, total);
      DenotedIsOnDisk(img, dec, ms[k - 1], address + cuts[k - 1]);
      RangeJoins(img, address, cuts[k - 1], ms[k - 1].length);
    }
  }

  lemma DenotedIsOnDisk(img: Image, dec: Decoder, m: Mapping, at: nat)
    requires Denotes(img, dec, m, at)
    ensures RangeOnDisk(img, at, m.length)
  {
  }

  lemma PieceOfRange(img: Image, dec: Decoder, address: nat, total: nat, at: nat, n: nat)
    requires RangeOnDisk(img, address, total) && at + n <= total
    ensures RangeOnDisk(img, address + at, n)
    ensures forall i :: at <= i < at + n ==>
              Range(img, dec, address, total)[i] == Range(img, dec, address + at, n)[i - at]
  {
  }

  /** Serves one mapping into the buffers at stream position `at`. */
  method Serve(disk: Qcow, m: Mapping, ghost address: nat, mem: array<Byte>, iovs: seq<Iovec>, at: nat)
    returns (res: Outcome)
    requires disk.Valid() && Denotes(disk.Img(), disk.decode, m, address) && InBounds(iovs, mem.Length)
    modifies mem
    ensures res == Ok ==>
              mem[..] == Scattered(old(mem[..]), iovs, at, Range(disk.Img(), disk.decode, address, m.length))
    ensures res == Err ==> mem[..] == old(mem[..])
    ensures res == Ok ==> Served(disk.Img(), disk.decode, m)
    ensures disk.Dependable() && Served(disk.Img(), disk.decode, m) ==> res == Ok
  {
    hide Inflate, Sound, Coherent, ByteAt;
    if m.ZeroFill? {
      assert Zeros(m.length) == Range(disk.Img(), disk.decode, address, m.length);
      hide Scattered, Range;
      ZeroFillIovecs(mem, iovs, at, m.length);
      return Ok;
    }
    hide Scattered, Range;
    var piece := Fetch(disk, m, address);
    if piece.None? {
      return Err;
    }
    ScatterToIovecs(mem, iovs, at, piece.value);
    return Ok;
  }

  /** Serves mapping `k` once the ones before it have been served. */
  method ServeNext(disk: Qcow, ms: seq<Mapping>, ghost cuts: seq<nat>, k: nat, ghost address: nat, mem: array<Byte>,
                   iovs: seq<Iovec>, at: nat, ghost was: seq<Byte>, ghost want: seq<Byte>)
    returns (res: Outcome)
    requires disk.Valid() && InBounds(iovs, mem.Length) && |was| == mem.Length && k < |ms|
    requires Tiles(disk.Img(), disk.decode, ms, cuts, address, Total(iovs)) && at == cuts[k]
    requires RangeOnDisk(disk.Img(), address, Total(iovs))
    requires want == Range(disk.Img(), disk.decode, address, Total(iovs))
    requires at <= Total(iovs) && ScatteredUpTo(was, iovs, at, want, mem[..])
    modifies mem
    ensures at + ms[k].length == cuts[k + 1] <= Total(iovs)
    ensures ScatteredUpTo(was, iovs, if res == Ok then at + ms[k].length else at, want, mem[..])
    ensures Stems(disk.Img(), ms[k], address + at)
    ensures res == Ok ==> Served(disk.Img(), disk.decode, ms[k])
    ensures disk.Dependable() && Served(disk.Img(), disk.decode, ms[k]) ==> res == Ok
  {
    hide Tiles, Denotes, Range, RangeOnDisk, ScatteredUpTo, Scattered, Total, Sound, Served, Stems, Coherent,
         IsPowerOfTwo;
    ghost var img, before := disk.Img(), mem[..];
    TileAt(img, disk.decode, ms, cuts, address, Total(iovs), k);
    res := Serve(disk, ms[k], address + at, mem, iovs, at);
    if res == Ok {
      PieceOfRange(img, disk.decode, address, Total(iovs), at, ms[k].length);
      ScatterContinues(was, iovs, at, want, before, Range(img, disk.decode, address + at, ms[k].length));
    }
  }

  /** Serves a list of mappings into the buffers, in order; a failure leaves the pieces served so far. */
  method ScatterRead(disk: Qcow, ms: seq<Mapping>, ghost cuts: seq<nat>, ghost address: nat, mem: array<Byte>,
                     iovs: seq<Iovec>)
    returns (res: Outcome, ghost served: nat)
    requires disk.Valid() && InBounds(iovs, mem.Length)
    requires Tiles(disk.Img(), disk.decode, ms, cuts, address, Total(iovs))
    modifies mem
    ensures RangeOnDisk(disk.Img(), address, Total(iovs)) && served <= Total(iovs)
    ensures ScatteredUpTo(old(mem[..]), iovs, served, Range(disk.Img(), disk.decode, address, Total(iovs)), mem[..])
    ensures res == Ok ==> served == Total(iovs) && DecodesAll(disk.Img(), disk.decode, address, Total(iovs))
    ensures disk.Dependable() && DecodesAll(disk.Img(), disk.decode, address, Total(iovs)) ==> res == Ok
  {
    ghost var was, img := mem[..], disk.Img();
    hide Tiles, Denotes, Range, RangeOnDisk, ScatteredUpTo, Total, Sound, InBounds, IsPowerOfTwo, Piece, Stems, Served,
         DecodesAll, Coherent, Scattered;
    DecodesNothing(img, disk.decode, address);
    TilesEnd(img, disk.decode, ms, cuts, address, Total(iovs));
    ghost var want := Range(img, disk.decode, address, Total(iovs));
    ScatterBegins(was, iovs, want);
    served := 0;
    var at := 0;
    for k := 0 to |ms|
      invariant served == at == cuts[k] <= Total(iovs)
      invariant disk.Valid() && disk.Img() == img
      invariant ScatteredUpTo(was, iovs, at, want, mem[..]) && DecodesAll(img, disk.decode, address, at)
    {
      res := ServeNext(disk, ms, cuts, k, address, mem, iovs, at, was, want);
      DecodesMore(img, disk.decode, ms[k], address, at, Total(iovs));
      if res == Err {
        return;
      }
      at := at + ms[k].length;
      served := at;
    }
    res := Ok;
  }

  /** A guest read: on success the buffers hold the disk's bytes from `address` on. */
  method ReadVectored(disk: Qcow, address: nat, mem: array<Byte>, iovs: seq<Iovec>)
    returns (res: Outcome, ghost loss: Option<Loss>)
    requires disk.Valid() && InBounds(iovs, mem.Length)
    modifies mem, disk`tables, disk`cache, disk`entries
    ensures disk.Shaped() && (Clean(loss) ==> disk.Valid())
    ensures loss.None? ==> disk.Img() == old(disk.Img())
    ensures loss.Some? ==> res == Err && ReadLoses(old(disk.Img()), disk.Img(), disk.per, old(disk.cache), address,
                                                   Total(iovs), loss.value)
    ensures disk.file.reliable ==> loss.None?
    ensures res == Ok ==>
              Readable(old(disk.Img()), disk.decode, old(disk.tables), disk.per, disk.size, address, Total(iovs))
    ensures disk.Dependable() &&
              Readable(old(disk.Img()), disk.decode, old(disk.tables), disk.per, disk.size, address, Total(iovs)) ==>
                res == Ok
    ensures res == Ok ==> RangeOnDisk(disk.Img(), address, Total(iovs))
                          && mem[..] == Scattered(old(mem[..]), iovs, 0,
                                                  Range(disk.Img(), disk.decode, address, Total(iovs)))
    ensures forall a :: 0 <= a < mem.Length && !Touches(iovs, a) ==> mem[a] == old(mem[a])
  {
    hide Tiles, Range, RangeOnDisk, ScatteredUpTo, Scattered, Total, Sound, Touches, Coherent, ReadLoses, Readable,
         MapsAll, DecodesAll;
    ghost var was := mem[..];
    ReadableIs(disk.Img(), disk.decode, disk.tables, disk.per, disk.size, address, Total(iovs));
    var ms;
    ms, loss := MapClustersForRead(disk, address, Total(iovs));
    if ms.None? {
      return Err, loss;
    }
    ghost var cuts: seq<nat> :| Tiles(disk.Img(), disk.decode, ms.value, cuts, address, Total(iovs));
    ghost var n;
    res, n := ScatterRead(disk, ms.value, cuts, address, mem, iovs);
    ghost var want := Range(disk.Img(), disk.decode, address, Total(iovs));
    ScatterLeaves(was, iovs, n, want, mem[..]);
    if res == Ok {
      ScatterEnds(was, iovs, want, mem[..]);
    }
  }

  /** In disjoint buffers the read leaves exactly the disk range as their byte stream. */
  lemma ReadIsRange(img: Image, dec: Decoder, address: nat, m: seq<Byte>, iovs: seq<Iovec>)
    requires InBounds(iovs, |m|) && Disjoint(iovs) && RangeOnDisk(img, address, Total(iovs))
    ensures Flat(Scattered(m, iovs, 0, Range(img, dec, address, Total(iovs))), iovs) ==
            Range(img, dec, address, Total(iovs))
  {
    hide Scattered, Range, RangeOnDisk, Total, Flat;
    var want := Range(img, dec, address, Total(iovs));
    forall p | 0 <= p < |want|
      ensures Flat(Scattered(m, iovs, 0, want), iovs)[p] == want[p]
    {
      ScatterFlat(m, iovs, 0, want, p);
    }
  }

  /** What a write put on the disk, a read of the same range gets back. */
  lemma ReadAfterWrite(img: Image, img': Image, dec: Decoder, address: nat, data: seq<Byte>)
    requires RangeOnDisk(img, address, |data|) && Patched(img, img', dec, address, data, |data|)
    ensures RangeOnDisk(img', address, |data|) && Range(img', dec, address, |data|) == data
  {
    hide ByteAt;
    forall a: nat | address <= a < address + |data|
      ensures OnDisk(img', a) && ByteAt(img', dec, a) == data[a - address]
    {
      assert OnDisk(img, a);
    }
  }

  // ---------------------------------------------------------------- the asynchronous back end

  /** Either the file position from which one vectored read serves the whole request, or the request already served. */
  method ResolveRead(disk: Qcow, address: nat, mem: array<Byte>, iovs: seq<Iovec>)
    returns (res: Outcome, fast: Option<nat>, ghost loss: Option<Loss>)
    requires disk.Valid() && InBounds(iovs, mem.Length)
    modifies mem, disk`tables, disk`cache, disk`entries
    ensures disk.Shaped() && disk.Owned(old(disk.entries)) && (Clean(loss) ==> disk.Valid())
    ensures loss.None? ==> disk.entries == old(disk.entries)
    ensures loss.Some? ==> res == Err && ReadLoses(old(disk.Img()), disk.Img(), disk.per, old(disk.cache), address,
                                                   Total(iovs), loss.value)
    ensures disk.file.reliable ==> loss.None?
    ensures res == Ok ==>
              Readable(old(disk.Img()), disk.decode, old(disk.tables), disk.per, disk.size, address, Total(iovs))
    ensures disk.Dependable() &&
              Readable(old(disk.Img()), disk.decode, old(disk.tables), disk.per, disk.size, address, Total(iovs)) ==>
                res == Ok
    ensures res == Ok ==> RangeOnDisk(disk.Img(), address, Total(iovs))
    ensures res == Ok && fast.Some? ==>
              && disk.alignment == 0 && mem[..] == old(mem[..]) && Placed(disk.Img(), address, fast.value, Total(iovs))
              && Reads(disk.file.data, fast.value, Range(disk.Img(), disk.decode, address, Total(iovs)))
    ensures res == Ok && fast.None? ==>
              mem[..] == Scattered(old(mem[..]), iovs, 0, Range(disk.Img(), disk.decode, address, Total(iovs)))
  {
    hide Tiles, Range, RangeOnDisk, ScatteredUpTo, Scattered, Total, Sound, Reads, Placed, Coherent, ReadLoses,
         Readable, MapsAll, DecodesAll, Piece;
    ghost var was := mem[..];
    ReadableIs(disk.Img(), disk.decode, disk.tables, disk.per, disk.size, address, Total(iovs));
    var ms;
    ms, loss := MapClustersForRead(disk, address, Total(iovs));
    if ms.None? {
      return Err, None, loss;
    }
    ghost var cuts: seq<nat> :| Tiles(disk.Img(), disk.decode, ms.value, cuts, address, Total(iovs));
    if disk.alignment == 0 && |ms.value| == 1 && ms.value[0].Allocated? && ms.value[0].length == Total(iovs) {
      SingleMapping(disk.Img(), disk.decode, ms.value, cuts, address, Total(iovs));
      return Ok, Some(ms.value[0].offset), loss;
    }
    ghost var n;
    res, n := ScatterRead(disk, ms.value, cuts, address, mem, iovs);
    fast := None;
    if res == Ok {
      ScatterEnds(was, iovs, Range(disk.Img(), disk.decode, address, Total(iovs)), mem[..]);
    }
  }

  lemma SingleMapping(img: Image, dec: Decoder, ms: seq<Mapping>, cuts: seq<nat>, address: nat, total: nat)
    requires Tiles(img, dec, ms, cuts, address, total) && |ms| == 1 && ms[0].Allocated? && ms[0].length == total
    ensures RangeOnDisk(img, address, total) && Reads(img.file, ms[0].offset, Range(img, dec, address, total))
    ensures Placed(img, address, ms[0].offset, total) && DecodesAll(img, dec, address, total)
  {
    assert Piece(img, dec, ms[0], cuts[0], cuts[1], address, total);
    DecodesMore(img, dec, ms[0], address, 0, total);
    hide ByteAt, DecodesAt;
  }

  /** The kernel's side of the fast path: one vectored read at a file position. */
  method Readv(file: HostFile, off: nat, mem: array<Byte>, iovs: seq<Iovec>) returns (res: Outcome)
    requires InBounds(iovs, mem.Length)
    modifies mem
    ensures res == Ok ==> exists data :: |data| == Total(iovs) && Reads(file.data, off, data)
                                        && mem[..] == Scattered(old(mem[..]), iovs, 0, data)
    ensures file.reliable ==> (res == Ok <==> Has(file.data, off, Total(iovs)))
  {
    hide Scattered, Total;
    var buf := new Byte[Total(iovs)];
    res := file.PreadExact(buf, off);
    if res == Ok {
      ScatterToIovecs(mem, iovs, 0, buf[..]);
    }
  }

  /** By either path a completed asynchronous read does what the synchronous one does. */
  method AsyncRead(disk: Qcow, address: nat, mem: array<Byte>, iovs: seq<Iovec>)
    returns (res: Outcome, ghost loss: Option<Loss>)
    requires disk.Valid() && InBounds(iovs, mem.Length)
    modifies mem, disk`tables, disk`cache, disk`entries
    ensures disk.Shaped() && (Clean(loss) ==> disk.Valid())
    ensures loss.None? ==> disk.Img() == old(disk.Img())
    ensures loss.Some? ==> res == Err && ReadLoses(old(disk.Img()), disk.Img(), disk.per, old(disk.cache), address,
                                                   Total(iovs), loss.value)
    ensures disk.file.reliable ==> loss.None?
    ensures res == Ok ==>
              Readable(old(disk.Img()), disk.decode, old(disk.tables), disk.per, disk.size, address, Total(iovs))
    ensures disk.Dependable() &&
              Readable(old(disk.Img()), disk.decode, old(disk.tables), disk.per, disk.size, address, Total(iovs)) ==>
                res == Ok
    ensures res == Ok ==> RangeOnDisk(disk.Img(), address, Total(iovs))
                          && mem[..] == Scattered(old(mem[..]), iovs, 0,
                                                  Range(disk.Img(), disk.decode, address, Total(iovs)))
  {
    hide Range, RangeOnDisk, Scattered, Total, Sound, Reads, Coherent, ReadLoses, Readable, Placed;
    var fast;
    res, fast, loss := ResolveRead(disk, address, mem, iovs);
    if res == Ok && fast.Some? {
      ghost var want := Range(disk.Img(), disk.decode, address, Total(iovs));
      ReadsHas(disk.file.data, fast.value, want);
      res := Readv(disk.file, fast.value, mem, iovs);
      if res == Ok {
        ghost var data :| |data| == Total(iovs) && Reads(disk.file.data, fast.value, data)
                          && mem[..] == Scattered(old(mem[..]), iovs, 0, data);
        ReadsUnique(disk.file.data, fast.value, data, want);
      }
    }
  }

  lemma ReadsHas(f: seq<Byte>, off: nat, buf: seq<Byte>)
    requires Reads(f, off, buf)
    ensures Has(f, off, |buf|)
  {
  }

  lemma ReadsUnique(f: seq<Byte>, off: nat, a: seq<Byte>, b: seq<Byte>)
    requires Reads(f, off, a) && Reads(f, off, b) && |a| == |b|
    ensures a == b
  {
  }

  // ---------------------------------------------------------------- batches

  datatype Kind = In | Out

  datatype Request = Request(kind: Kind, address: nat, iovs: seq<Iovec>, user: int)

  /** A vectored read left to the kernel. */
  datatype Submission = Submission(host: nat, iovs: seq<Iovec>, user: int)

  datatype Completion = Completion(user: int, len: nat)

  function Users(reqs: seq<Request>): multiset<int> {
    multiset(seq(|reqs|, i requires 0 <= i < |reqs| => reqs[i].user))
  }

  function Submitted(subs: seq<Submission>): multiset<int> {
    multiset(seq(|subs|, i requires 0 <= i < |subs| => subs[i].user))
  }

  function Completed(done: seq<Completion>): multiset<int> {
    multiset(seq(|done|, i requires 0 <= i < |done| => done[i].user))
  }

  lemma OneMoreUser(reqs: seq<Request>, n: nat)
    requires n < |reqs|
    ensures Users(reqs[..n + 1]) == Users(reqs[..n]) + multiset{reqs[n].user}
  {
    var f := (s: seq<Request>) => seq(|s|, i requires 0 <= i < |s| => s[i].user);
    assert f(reqs[..n + 1]) == f(reqs[..n]) + [reqs[n].user];
  }

  lemma OneMoreSubmission(subs: seq<Submission>, x: Submission)
    ensures Submitted(subs + [x]) == Submitted(subs) + multiset{x.user}
  {
    var f := (s: seq<Submission>) => seq(|s|, i requires 0 <= i < |s| => s[i].user);
    assert f(subs + [x]) == f(subs) + [x.user];
  }

  lemma OneMoreCompletion(done: seq<Completion>, x: Completion)
    ensures Completed(done + [x]) == Completed(done) + multiset{x.user}
  {
    var f := (s: seq<Completion>) => seq(|s|, i requires 0 <= i < |s| => s[i].user);
    assert f(done + [x]) == f(done) + [x.user];
  }

  /** What one request did to the disk and the guest's memory; `left` is the position of a read left to the kernel. */
  ghost predicate Ran(i: Image, m: seq<Byte>, i': Image, m': seq<Byte>, dec: Decoder, req: Request, left: Option<nat>)
    requires InBounds(req.iovs, |m|)
  {
    && |m'| == |m| && RangeOnDisk(i, req.address, Total(req.iovs))
    && match req.kind
       case Out => m' == m && left.None? && Patched(i, i', dec, req.address, Flat(m, req.iovs), Total(req.iovs))
       case In =>
         && i' == i
         && if left.Some? then m' == m && Placed(i, req.address, left.value, Total(req.iovs))
            else m' == Scattered(m, req.iovs, 0, Range(i, dec, req.address, Total(req.iovs)))
  }

  /** The first `n` requests ran one after the other. */
  ghost predicate BatchRan(imgs: seq<Image>, mems: seq<seq<Byte>>, dec: Decoder, reqs: seq<Request>,
                           lefts: seq<Option<nat>>, n: nat)
  {
    && n == |lefts| <= |reqs| && |imgs| == |mems| == n + 1
    && forall k :: 0 <= k < n ==>
         InBounds(reqs[k].iovs, |mems[k]|) && Ran(imgs[k], mems[k], imgs[k + 1], mems[k + 1], dec, reqs[k], lefts[k])
  }

  /** Every read left to the kernel is still at its place. */
  predicate AllPlaced(img: Image, reqs: seq<Request>, lefts: seq<Option<nat>>) {
    && |lefts| <= |reqs|
    && forall k :: 0 <= k < |lefts| && lefts[k].Some? ==>
      Placed(img, reqs[k].address, lefts[k].value, Total(reqs[k].iovs))
  }

  function Submissions(reqs: seq<Request>, lefts: seq<Option<nat>>): seq<Submission>
    requires |lefts| <= |reqs|
  {
    if lefts == [] then []
    else
      var n := |lefts| - 1;
      Submissions(reqs, lefts[..n])
      + if lefts[n].Some? then [Submission(lefts[n].value, reqs[n].iovs, reqs[n].user)] else []
  }

  function Completions(reqs: seq<Request>, lefts: seq<Option<nat>>): seq<Completion>
    requires |lefts| <= |reqs|
  {
    if lefts == [] then []
    else
      var n := |lefts| - 1;
      Completions(reqs, lefts[..n]) + if lefts[n].None? then [Completion(reqs[n].user, Total(reqs[n].iovs))] else []
  }

  /** Each request is answered once: by a submitted read or by a completion of its own. */
  lemma {:induction false} AnsweredOnce(reqs: seq<Request>, lefts: seq<Option<nat>>)
    requires |lefts| <= |reqs|
    ensures Users(reqs[..|lefts|]) == Submitted(Submissions(reqs, lefts)) + Completed(Completions(reqs, lefts))
    decreases |lefts|
  {
    if lefts == [] {
      NoUsers(reqs);
    } else {
      hide Users, Submitted, Completed;
      var n := |lefts| - 1;
      AnsweredOnce(reqs, lefts[..n]);
      OneMoreUser(reqs, n);
      if lefts[n].Some? {
        assert Completions(reqs, lefts) == Completions(reqs, lefts[..n]);
        OneMoreSubmission(Submissions(reqs, lefts[..n]), Submission(lefts[n].value, reqs[n].iovs, reqs[n].user));
      } else {
        assert Submissions(reqs, lefts) == Submissions(reqs, lefts[..n]);
        OneMoreCompletion(Completions(reqs, lefts[..n]), Completion(reqs[n].user, Total(reqs[n].iovs)));
      }
    }
  }

  /** The writes of a batch, reads counting as writes of nothing. */
  ghost function Writes(mems: seq<seq<Byte>>, reqs: seq<Request>): seq<Write>
    requires |mems| > |reqs| && forall k :: 0 <= k < |reqs| ==> InBounds(reqs[k].iovs, |mems[k]|)
  {
    seq(|reqs|, k requires 0 <= k < |reqs| =>
      Write(reqs[k].address, if reqs[k].kind == Out then Flat(mems[k], reqs[k].iovs) else []))
  }

  /** After a batch the disk is the old one with the writes laid over it in order. */
  lemma BatchOverlays(imgs: seq<Image>, mems: seq<seq<Byte>>, dec: Decoder, reqs: seq<Request>, lefts: seq<Option<nat>>,
                      a: nat)
    requires BatchRan(imgs, mems, dec, reqs, lefts, |reqs|) && OnDisk(imgs[0], a)
    ensures OnDisk(imgs[|reqs|], a)
    ensures ByteAt(imgs[|reqs|], dec, a) == Final(Writes(mems, reqs), |reqs|, a, ByteAt(imgs[0], dec, a))
  {
    hide Patched, ByteAt, Flat, Total, InBounds, Placed, RangeOnDisk, Scattered, Range;
    var ws := Writes(mems, reqs);
    forall k | 0 <= k < |ws|
      ensures Patched(imgs[k], imgs[k + 1], dec, ws[k].address, ws[k].data, |ws[k].data|)
    {
      assert Ran(imgs[k], mems[k], imgs[k + 1], mems[k + 1], dec, reqs[k], lefts[k]);
      PatchNothing(imgs[k], dec, reqs[k].address, []);
    }
    LastWriteWins(imgs, dec, ws, |ws|, a);
  }

  /** A placed range reads at its place what the guest sees. */
  lemma PlacedReads(img: Image, avail: seq<nat>, role: map<int, Role>, dec: Decoder, at: nat, host: nat, n: nat)
    requires Sound(img.cs, img.entries, avail, role, |img.file|) && Placed(img, at, host, n)
    ensures RangeOnDisk(img, at, n) && Reads(img.file, host, Range(img, dec, at, n))
  {
    var g := ClusterOf(at, img.cs);
    assert EntryOk(img.entries[g], g, img.cs, role, |img.file|);
    forall a: nat | at <= a < at + n
      ensures OnDisk(img, a) && ByteAt(img, dec, a) == img.file[host + (a - at)]
    {
      InChunk(img.cs, at, n, a);
    }
    hide ByteAt;
  }

  lemma PlacedStays(img: Image, img': Image, reqs: seq<Request>, lefts: seq<Option<nat>>)
    requires AllPlaced(img, reqs, lefts) && img'.cs == img.cs && StdKept(img.entries, img'.entries)
    ensures AllPlaced(img', reqs, lefts)
  {
    hide Total;
  }

  lemma PlacedMore(img: Image, m: seq<Byte>, img': Image, m': seq<Byte>, dec: Decoder, reqs: seq<Request>,
                   lefts: seq<Option<nat>>, left: Option<nat>)
    requires |lefts| < |reqs| && AllPlaced(img, reqs, lefts) && img'.cs == img.cs && StdKept(img.entries, img'.entries)
    requires InBounds(reqs[|lefts|].iovs, |m|) && Ran(img, m, img', m', dec, reqs[|lefts|], left)
    ensures AllPlaced(img', reqs, lefts + [left])
  {
    hide Total, Placed, StdKept;
    PlacedStays(img, img', reqs, lefts);
  }

  lemma RanMore(imgs: seq<Image>, mems: seq<seq<Byte>>, dec: Decoder, reqs: seq<Request>, lefts: seq<Option<nat>>,
                img: Image, m: seq<Byte>, left: Option<nat>)
    requires BatchRan(imgs, mems, dec, reqs, lefts, |lefts|) && |lefts| < |reqs|
    requires InBounds(reqs[|lefts|].iovs, |mems[|lefts|]|)
    requires Ran(imgs[|lefts|], mems[|lefts|], img, m, dec, reqs[|lefts|], left)
    ensures BatchRan(imgs + [img], mems + [m], dec, reqs, lefts + [left], |lefts| + 1)
  {
    hide Ran, InBounds;
  }

  lemma LeftsMore(reqs: seq<Request>, lefts: seq<Option<nat>>, left: Option<nat>)
    requires |lefts| < |reqs|
    ensures var req := reqs[|lefts|];
            && Submissions(reqs, lefts + [left]) ==
                 Submissions(reqs, lefts) + (if left.Some? then [Submission(left.value, req.iovs, req.user)] else [])
            && Completions(reqs, lefts + [left]) ==
                 Completions(reqs, lefts) + if left.None? then [Completion(req.user, Total(req.iovs))] else []
  {
    assert (lefts + [left])[..|lefts|] == lefts;
  }

  lemma LeftsRead(img: Image, avail: seq<nat>, role: map<int, Role>, dec: Decoder, reqs: seq<Request>,
                  lefts: seq<Option<nat>>)
    requires Sound(img.cs, img.entries, avail, role, |img.file|) && AllPlaced(img, reqs, lefts)
    ensures forall k :: 0 <= k < |lefts| && lefts[k].Some? ==> StillReads(img, dec, reqs[k], lefts[k].value)
  {
    hide Sound, Total, RangeOnDisk, Range, Placed;
    forall k | 0 <= k < |lefts| && lefts[k].Some?
      ensures StillReads(img, dec, reqs[k], lefts[k].value)
    {
      PlacedReads(img, avail, role, dec, reqs[k].address, lefts[k].value, Total(reqs[k].iovs));
    }
  }

  /** Why a request failed that no file beneath the image made fail; `full` says that a cluster could not be had. */
  ghost predicate Refused(i: Image, dec: Decoder, tables: seq<Table>, per: nat, size: nat, req: Request, full: bool) {
    match req.kind
    case In => !Readable(i, dec, tables, per, size, req.address, Total(req.iovs))
    case Out =>
      && !Overwritable(i, tables, per, size, req.address, Total(req.iovs))
      && (full || !Readable(i, dec, tables, per, size, req.address, Total(req.iovs)))
  }

  lemma RefusedMore(i: Image, dec: Decoder, tables: seq<Table>, per: nat, size: nat, req: Request, full: bool,
                    full': bool)
    requires full ==> full'
    ensures Refused(i, dec, tables, per, size, req, full) ==> Refused(i, dec, tables, per, size, req, full')
  {
    hide Readable, Overwritable;
  }

  /** How a request that failed left the disk. */
  ghost predicate RequestFailed(i: Image, m: seq<Byte>, i': Image, dec: Decoder, per: nat, before: Cache, req: Request,
                                loss: Option<Loss>)
    requires InBounds(req.iovs, |m|) && i.cs > 0
  {
    match req.kind
    case In => if loss.None? then i' == i else ReadLoses(i, i', per, before, req.address, Total(req.iovs), loss.value)
    case Out =>
      && (loss.Some? ==> LossExplained(before, Spanned(req.address, Total(req.iovs), i.cs, per), loss.value))
      && exists n: nat :: n < Total(req.iovs) &&
           if loss.None? then FailedAt(i, i', dec, req.address, Flat(m, req.iovs), n)
           else LostAt(i, i', dec, per, req.address, Flat(m, req.iovs), n, loss.value)
  }

  /** The request's range has its entry where no entry was lost. */
  predicate Spared(req: Request, cs: nat, per: nat, loss: Option<Loss>) {
    loss.Some? ==> !InLost(ClusterOf(req.address, cs), per, loss.value)
  }

  /** At file position `host` lies what the guest sees of the request's range. */
  ghost predicate StillReads(img: Image, dec: Decoder, req: Request, host: nat) {
    && RangeOnDisk(img, req.address, Total(req.iovs))
    && Reads(img.file, host, Range(img, dec, req.address, Total(req.iovs)))
  }

  lemma PlacedReadsUnlessLost(img: Image, avail: seq<nat>, role: map<int, Role>, dec: Decoder, per: nat,
                              es: seq<Entry>, loss: Loss, reqs: seq<Request>, lefts: seq<Option<nat>>)
    requires Sound(img.cs, es, avail, role, |img.file|) && AllPlaced(img.(entries := es), reqs, lefts)
    requires img.entries == LoseEntries(es, per, loss)
    ensures forall k :: 0 <= k < |lefts| && lefts[k].Some? && Spared(reqs[k], img.cs, per, Some(loss)) ==>
              StillReads(img, dec, reqs[k], lefts[k].value)
  {
    hide Sound, Total, RangeOnDisk, Range;
    forall k | 0 <= k < |lefts| && lefts[k].Some? && Spared(reqs[k], img.cs, per, Some(loss))
      ensures StillReads(img, dec, reqs[k], lefts[k].value)
    {
      var was, req := img.(entries := es), reqs[k];
      PlacedReads(was, avail, role, dec, req.address, lefts[k].value, Total(req.iovs));
      SameRange(was, img, dec, req.address, Total(req.iovs));
    }
  }

  /** A range in one cluster shows the same bytes under the same entry. */
  lemma SameRange(img: Image, img': Image, dec: Decoder, at: nat, n: nat)
    requires img' == img.(entries := img'.entries) && |img'.entries| == |img.entries| && RangeOnDisk(img, at, n)
    requires OnDisk(img, at) && Within(at, img.cs) + n <= img.cs
    requires img'.entries[ClusterOf(at, img.cs)] == img.entries[ClusterOf(at, img.cs)]
    ensures RangeOnDisk(img', at, n) && Range(img', dec, at, n) == Range(img, dec, at, n)
  {
    forall a: nat | at <= a < at + n
      ensures OnDisk(img', a) && OnDisk(img, a) && ByteAt(img', dec, a) == ByteAt(img, dec, a)
    {
      InChunk(img.cs, at, n, a);
    }
    hide ByteAt;
  }

  /**
    Runs a batch in order. `imgs`, `mems` and `lefts` are its history: the disk and the memory before and
    after each request, and the reads left to the kernel. `before` and `tabs` are the table cache and the
    tables that the last request found.
   */
  method SubmitBatch(disk: Qcow, reqs: seq<Request>, mem: array<Byte>)
    returns (res: Outcome, subs: seq<Submission>, done: seq<Completion>,
             ghost imgs: seq<Image>, ghost mems: seq<seq<Byte>>, ghost lefts: seq<Option<nat>>,
             ghost loss: Option<Loss>, ghost before: Cache, ghost tabs: seq<Table>)
    requires disk.Valid() && forall i :: 0 <= i < |reqs| ==> InBounds(reqs[i].iovs, mem.Length)
    modifies mem, disk`tables, disk`cache, disk`entries, disk`avail, disk`role, disk.file`data
    ensures disk.Shaped() && (Clean(loss) ==> disk.Valid())
    ensures BatchRan(imgs, mems, disk.decode, reqs, lefts, |lefts|)
    ensures imgs[0] == old(disk.Img()) && mems[0] == old(mem[..])
    ensures res == Ok ==> |lefts| == |reqs| && imgs[|reqs|] == disk.Img() && mems[|reqs|] == mem[..] && loss.None?
    ensures res == Ok ==> subs == Submissions(reqs, lefts) && done == Completions(reqs, lefts)
    ensures res == Ok ==> Users(reqs) == Submitted(subs) + Completed(done)
    ensures forall k :: 0 <= k < |lefts| && lefts[k].Some? && Spared(reqs[k], disk.cs, disk.per, loss) ==>
                          StillReads(disk.Img(), disk.decode, reqs[k], lefts[k].value)
    ensures res == Err ==> done == [] && |lefts| < |reqs| && subs == Submissions(reqs, lefts)
    ensures res == Err ==>
              && |mems[|lefts|]| == mem.Length && imgs[|lefts|].cs == disk.cs > 0
              && RequestFailed(imgs[|lefts|], mems[|lefts|], disk.Img(), disk.decode, disk.per, before, reqs[|lefts|],
                               loss)
    ensures res == Err && disk.Dependable() ==>
              Refused(imgs[|lefts|], disk.decode, tabs, disk.per, disk.size, reqs[|lefts|],
                      disk.Exhausted() || !old(disk.Sturdy()))
    ensures disk.file.reliable ==> loss.None?
  {
    hide Submitted, Completed, Users, Ran, BatchRan, AllPlaced, StdKept, Submissions, Completions, StillReads, Sound,
         Total, InBounds, Coherent, RequestFailed, Refused, Spared, LostFrom, LoseEntries;
    subs, done := [], [];
    imgs, mems, lefts := [disk.Img()], [mem[..]], [];
    loss, before, tabs := None, disk.cache, disk.tables;
    NothingRan(disk.Img(), mem[..], disk.decode, reqs);
    var n := 0;
    while n < |reqs|
      invariant 0 <= n <= |reqs| && disk.Valid() && loss.None?
      invariant n == |lefts| && |imgs| == |mems| == n + 1 && BatchRan(imgs, mems, disk.decode, reqs, lefts, n)
      invariant imgs[0] == old(disk.Img()) && mems[0] == old(mem[..])
      invariant imgs[n] == disk.Img() && mems[n] == mem[..] && AllPlaced(disk.Img(), reqs, lefts)
      invariant subs == Submissions(reqs, lefts) && done == Completions(reqs, lefts)
      invariant old(disk.Sturdy()) ==> disk.Sturdy()
    {
      var req := reqs[n];
      ghost var i0, m0 := disk.Img(), mem[..];
      before, tabs := disk.cache, disk.tables;
      ghost var sturdy := disk.Sturdy();
      var left;
      ghost var es;
      res, left, loss, es := RunOne(disk, req, mem);
      if res == Err {
        RefusedMore(i0, disk.decode, tabs, disk.per, disk.size, req, disk.Exhausted() || !sturdy,
                    disk.Exhausted() || !old(disk.Sturdy()));
        if loss.Some? {
          PlacedStays(i0, disk.Img().(entries := es), reqs, lefts);
          PlacedReadsUnlessLost(disk.Img(), disk.avail, disk.role, disk.decode, disk.per, es, loss.value, reqs, lefts);
        } else {
          PlacedStays(i0, disk.Img(), reqs, lefts);
          LeftsRead(disk.Img(), disk.avail, disk.role, disk.decode, reqs, lefts);
        }
        done := [];
        return;
      }
      PlacedMore(i0, m0, disk.Img(), mem[..], disk.decode, reqs, lefts, left);
      RanMore(imgs, mems, disk.decode, reqs, lefts, disk.Img(), mem[..], left);
      LeftsMore(reqs, lefts, left);
      if left.Some? {
        subs := subs + [Submission(left.value, req.iovs, req.user)];
      } else {
        done := done + [Completion(req.user, Total(req.iovs))];
      }
      imgs, mems, lefts := imgs + [disk.Img()], mems + [mem[..]], lefts + [left];
      n := n + 1;
    }
    LeftsRead(disk.Img(), disk.avail, disk.role, disk.decode, reqs, lefts);
    AnsweredOnce(reqs, lefts);
    assert reqs[..n] == reqs;
    res := Ok;
  }

  lemma NothingRan(img: Image, m: seq<Byte>, dec: Decoder, reqs: seq<Request>)
    ensures BatchRan([img], [m], dec, reqs, [], 0) && AllPlaced(img, reqs, [])
    ensures Submissions(reqs, []) == [] && Completions(reqs, []) == []
  {
  }

  lemma NoUsers(reqs: seq<Request>)
    ensures Users(reqs[..0]) == Submitted([]) + Completed([])
  {
  }

  /**
    Runs one request of a batch; a read that takes the fast path is left to the kernel. `es` are the
    image's entries before any loss.
   */
  method RunOne(disk: Qcow, req: Request, mem: array<Byte>)
    returns (res: Outcome, left: Option<nat>, ghost loss: Option<Loss>, ghost es: seq<Entry>)
    requires disk.Valid() && InBounds(req.iovs, mem.Length)
    modifies mem, disk`tables, disk`cache, disk`entries, disk`avail, disk`role, disk.file`data
    ensures disk.Shaped() && (Clean(loss) ==> disk.Valid()) && disk.cs > 0
    ensures loss.None? ==> StdKept(old(disk.entries), disk.entries)
    ensures loss.Some? ==>
              && res == Err && disk.Owned(es) && StdKept(old(disk.entries), es)
              && disk.entries == LoseEntries(es, disk.per, loss.value)
    ensures res == Ok ==> Ran(old(disk.Img()), old(mem[..]), disk.Img(), mem[..], disk.decode, req, left)
    ensures res == Ok && left.Some? ==> StillReads(disk.Img(), disk.decode, req, left.value)
    ensures req.kind == Out ==> mem[..] == old(mem[..]) && left == None
    ensures res == Err ==> RequestFailed(old(disk.Img()), old(mem[..]), disk.Img(), disk.decode, disk.per,
                                         old(disk.cache), req, loss)
    ensures old(disk.Sturdy()) ==> disk.Sturdy()
    ensures res == Err && disk.Dependable() ==>
              Refused(old(disk.Img()), disk.decode, old(disk.tables), disk.per, disk.size, req,
                      disk.Exhausted() || !old(disk.Sturdy()))
    ensures res == Ok ==>
              Readable(old(disk.Img()), disk.decode, old(disk.tables), disk.per, disk.size, req.address,
                       Total(req.iovs))
    ensures disk.file.reliable ==> loss.None?
  {
    hide Sound, Patched, FailedAt, LostAt, RangeOnDisk, Range, Scattered, Flat, Total, Reads, IsPowerOfTwo, Placed,
         Coherent, LossExplained, LoseEntries, ByteAt, Readable,
         Overwritable, MapsAll;
    SizeIsPositive(disk.cs);
    left, es := None, disk.entries;
    if req.kind == In {
      res, left, loss := ResolveRead(disk, req.address, mem, req.iovs);
    } else {
      res, loss, es := disk.WriteVectored(req.address, mem[..], req.iovs);
    }
  }

  lemma SizeIsPositive(cs: nat)
    requires IsPowerOfTwo(cs)
    ensures cs > 0
  {
  }
}
