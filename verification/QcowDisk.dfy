/** A QCOW2 image as the block back ends drive it: cluster allocation, mapped reads and copy-on-write writes. */
module QcowDisk {
  import opened Base
  import opened Bits
  import opened HostIo
  import opened Iovec
  import opened QcowRange
  import opened QcowTables
  import opened QcowView

  /** How one piece of a guest read is served. */
  datatype Mapping =
    | ZeroFill(length: nat)
    | Allocated(offset: nat, length: nat)
    | Inflated(hostOffset: nat, size: nat, clusterOffset: nat, length: nat)
    | FromBacking(offset: nat, length: nat)

  datatype Lookup = Invalid | Miss | Hit(mapping: Mapping)

  /** The raw file under the image, read only. */
  class RawBacking {
    const file: HostFile
    const size: nat

    constructor (file: HostFile, size: nat)
      ensures this.file == file && this.size == size
    {
      this.file, this.size := file, size;
    }

    function Contents(): Back
      reads file
    {
      Back(file.data, size)
    }

    /** Fills `buf` from guest address `a` on; past the end of the backing disk it reads zeros. */
    method ReadAt(a: nat, buf: array<Byte>) returns (res: Outcome)
      modifies buf
      ensures res == Ok ==> forall i :: 0 <= i < buf.Length ==> buf[i] == BackByte(Some(Contents()), a + i)
      ensures file.reliable && size <= |file.data| ==> res == Ok
    {
      if a >= size {
        forall i | 0 <= i < buf.Length {
          buf[i] := 0;
        }
        return Ok;
      }
      var available := size - a;
      if available >= buf.Length {
        res := file.PreadExact(buf, a);
        return;
      }
      var part := new Byte[available];
      res := file.PreadExact(part, a);
      if res == Ok {
        forall i | 0 <= i < buf.Length {
          buf[i] := if i < available then part[i] else 0;
        }
      }
    }
  }

  /** A partial or complete write of a cluster stays inside it. */
  lemma WriteStaysInCluster(f: seq<Byte>, c: nat, buf: seq<Byte>, n: nat)
    requires n <= |buf| && c + |buf| <= |f|
    ensures ChangedIn(f, Written(f, c, buf, n), c, |buf|)
  {
  }

  /** So does a write at some offset inside it. */
  lemma PartOfCluster(f: seq<Byte>, host: nat, data: seq<Byte>, n: nat, c: nat, cs: nat)
    requires n <= |data| && c <= host && host + |data| <= c + cs <= |f|
    ensures var h := Written(f, host, data, n);
            && |h| == |f| && ChangedIn(f, h, c, cs)
            && forall j :: c <= j < c + cs ==> h[j] == if host <= j < host + n then data[j - host] else f[j]
  {
  }

  /** A write over a cluster of zeros. */
  lemma FillCluster(f: seq<Byte>, c: nat, d: seq<Byte>, n: nat)
    requires n <= |d| && c + |d| <= |f| && forall i :: 0 <= i < |d| ==> f[c + i] == InitByte(None, i)
    ensures var h := Written(f, c, d, n);
            && |h| == |f| && ChangedIn(f, h, c, |d|)
            && forall j :: c <= j < c + |d| ==> h[j] == if j < c + n then d[j - c] else 0
  {
    forall j | c <= j < c + |d|
      ensures Written(f, c, d, n)[j] == if j < c + n then d[j - c] else 0
    {
      assert f[c + (j - c)] == InitByte(None, j - c);
    }
  }

  /** `TornInflate` is what `StoreInflated` leaves when its write of the decompressed cluster stops after `n` bytes. */
  lemma TornInflateIsStopped(img: Image, g: nat, d: seq<Byte>, n: nat)
    requires g < |img.entries| && n <= |d| == img.cs
    ensures TornInflate(img, g, d, n).file == Written(img.file + Zeros(img.cs), |img.file|, d, n)
  {
  }

  lemma WrittenIs(f: seq<Byte>, h: seq<Byte>, off: nat, buf: seq<Byte>, n: nat)
    requires n <= |buf| && |h| == (if n == 0 then |f| else Max(|f|, off + n))
    requires forall i :: 0 <= i < |h| ==>
               h[i] == if off <= i < off + n then buf[i - off] else if i < |f| then f[i] else 0
    ensures h == Written(f, off, buf, n)
  {
  }

  lemma InflateIs(dec: Decoder, f: seq<Byte>, off: nat, raw: seq<Byte>, cs: nat)
    requires off + |raw| <= |f| && (forall i :: 0 <= i < |raw| ==> raw[i] == f[off + i])
    requires raw in dec && |dec[raw]| == cs
    ensures Inflate(dec, f, off, |raw|, cs) == Some(dec[raw])
  {
    assert f[off..off + |raw|] == raw;
  }

  /** Offset of an address inside its cluster. */
  function Intra(x: nat, cs: nat): (i: nat)
    requires IsPowerOfTwo(cs)
    ensures i == Within(x, cs) < cs
  {
    MaskIsMod(x, cs);
    And(x, cs - 1)
  }

  /** How much of the `left` bytes from `x` on lies in the cluster around `x`. */
  function ChunkLength(x: nat, left: nat, cs: nat): (n: nat)
    requires IsPowerOfTwo(cs)
    ensures n <= left && Within(x, cs) + n <= cs && (n == left || Within(x, cs) + n == cs)
    ensures left > 0 ==> n > 0
  {
    Min(left, cs - Intra(x, cs))
  }

  /** The mask of a power-of-two cluster size takes the offset inside the cluster. */
  lemma MaskIsMod(x: nat, cs: nat)
    requires IsPowerOfTwo(cs)
    ensures And(x, cs - 1) == Within(x, cs)
  {
    var k := PowerOfTwoExponent(cs);
    AndLowMask(x, cs - 1, k);
  }

  class Qcow {
    const file: HostFile
    const backing: Option<RawBacking>
    const cs: Word
    const size: nat
    const maxValid: nat
    const alignment: Word
    const decode: Decoder
    const per: nat
    const refsOk: bool
    var tables: seq<Table>
    var cache: Cache
    var avail: seq<nat>
    var role: map<int, Role>
    ghost var entries: seq<Entry>

    constructor (file: HostFile, backing: Option<RawBacking>, cs: Word, size: nat, maxValid: nat, alignment: Word,
                 decode: Decoder, per: nat, refsOk: bool, tables: seq<Table>, avail: seq<nat>,
                 role: map<int, Role>, ghost entries: seq<Entry>)
      requires IsPowerOfTwo(cs) && (backing.Some? ==> backing.value.file != file)
      requires |file.data| < U64 && maxValid + cs < U64
      requires Coherent(entries, tables, map[], per) && Sound(cs, entries, avail, role, |file.data|)
      ensures Valid() && this.file == file && this.backing == backing && this.entries == entries && cache == map[]
      ensures this.refsOk == refsOk
    {
      this.file, this.backing, this.cs, this.size, this.maxValid := file, backing, cs, size, maxValid;
      this.alignment, this.decode, this.per, this.tables, this.cache := alignment, decode, per, tables, map[];
      this.avail, this.role, this.entries, this.refsOk := avail, role, entries, refsOk;
    }

    /** `entries` are the entries that cache and tables hold; a torn one may point anywhere. */
    ghost predicate Shaped()
      reads this, file
    {
      && IsPowerOfTwo(cs)
      && (backing.Some? ==> backing.value.file != file)
      && |file.data| < U64 && maxValid + cs < U64
      && Coherent(entries, tables, cache, per)
    }

    ghost predicate Valid()
      reads this, file
    {
      Shaped() && Owned(entries)
    }

    /** Every cluster has one owner under the entries `es`. */
    ghost predicate Owned(es: seq<Entry>)
      reads this, file
    {
      Sound(cs, es, avail, role, |file.data|)
    }

    /** Nothing under the image fails: neither its file nor its backing file, and no bounce buffers are needed. */
    ghost predicate Dependable()
      reads if backing.Some? then {backing.value.file} else {}
    {
      && alignment == 0 && file.reliable
      && (backing.Some? ==> backing.value.file.reliable && backing.value.size <= |backing.value.file.data|)
    }

    /**
      The image is in a state to give out clusters: its file never fails and takes writes whole, its
      reference counts are in order, and the cluster of its header is not for the taking.
     */
    ghost predicate Sturdy()
      reads this, file
    {
      file.reliable && file.prompt && refsOk && 0 !in avail && |file.data| > 0
    }

    /** No cluster is left: none is free and the file may not grow by another. */
    ghost predicate Exhausted()
      reads this, file
    {
      avail == [] && cs > 0 && NextMultiple(|file.data|, cs) > maxValid
    }

    ghost function Img(): Image
      reads this, file, if backing.Some? then {backing.value.file} else {}
    {
      Image(cs, entries, file.data, if backing.Some? then Some(backing.value.Contents()) else None)
    }

    /** Takes a cluster from the free list, or adds one at the end of the file, and initialises it. */
    method GetNewCluster(initial: Option<seq<Byte>>) returns (r: Option<nat>)
      requires Valid() && (initial.Some? ==> |initial.value| == cs)
      modifies this`avail, this`role, file`data
      ensures Valid() && Steady(old(Img()), old(role), Img(), role, decode)
      ensures r.Some? ==> Given(old(role), role, file.data, cs, r.value, initial)
      ensures old(Sturdy()) ==> Sturdy() && (r.None? ==> Exhausted())
    {
      if |avail| > 0 {
        r := ReuseCluster(initial);
        return;
      }
      var c := NextMultiple(|file.data|, cs);
      if c > maxValid {
        SteadySame(Img(), role, decode);
        return None;
      }
      r := ExtendFile(c, initial);
    }

    method ReuseCluster(initial: Option<seq<Byte>>) returns (r: Option<nat>)
      requires Valid() && |avail| > 0 && (initial.Some? ==> |initial.value| == cs)
      modifies this`avail, this`role, file`data
      ensures Valid() && Steady(old(Img()), old(role), Img(), role, decode)
      ensures r.Some? ==> Given(old(role), role, file.data, cs, r.value, initial)
      ensures old(Sturdy()) ==> Sturdy() && r.Some?
    {
      hide Sound, Steady, Unused;
      ghost var img := Img();
      var c := avail[|avail| - 1];
      ClaimKeepsSound(cs, entries, avail, role, |file.data|);
      avail := avail[..|avail| - 1];
      if c == 0 {
        UnusedIsSteady(img, old(avail), role, file.data, c, decode);
        role := role[c := Held];
        return None;
      }
      var data := if initial.Some? then initial.value else Zeros(cs);
      var res := file.PwriteAll(data, c);
      ghost var n: nat := cs;
      if res == Err {
        n :| n <= |data| && file.data == Written(img.file, c, data, n);
      }
      WriteStaysInCluster(img.file, c, data, n);
      UnusedIsSteady(img, old(avail), role, file.data, c, decode);
      role := role[c := Held];
      r := if res == Ok then Some(c) else None;
    }

    method ExtendFile(c: nat, initial: Option<seq<Byte>>) returns (r: Option<nat>)
      requires Valid() && |file.data| <= c <= maxValid && Aligned(c, cs) && (initial.Some? ==> |initial.value| == cs)
      modifies this`role, file`data
      ensures Valid() && Steady(old(Img()), old(role), Img(), role, decode)
      ensures r.Some? ==> Given(old(role), role, file.data, cs, r.value, initial)
      ensures old(Sturdy()) ==> Sturdy() && r.Some?
    {
      hide Sound, Steady, Unused, Coherent, IsPowerOfTwo;
      ghost var img := Img();
      SteadySame(img, role, decode);
      ExtendKeepsSound(cs, entries, avail, role, |file.data|, c);
      var res := file.SetLen(c + cs);
      if res == Err {
        return None;
      }
      ghost var grown := file.data;
      if c != 0 && initial.Some? {
        res := file.PwriteAll(initial.value, c);
        ghost var n: nat := cs;
        if res == Err {
          n :| n <= |initial.value| && file.data == Written(grown, c, initial.value, n);
        }
        WriteStaysInCluster(grown, c, initial.value, n);
      }
      UnusedIsSteady(img, avail, role, file.data, c, decode);
      role := role[c := Held];
      r := if c != 0 && res == Ok then Some(c) else None;
    }

    /** One change of the image's own tables: takes a cluster for them, or rewrites one of theirs in place. */
    method TouchTables() returns (res: Outcome)
      requires Valid()
      modifies this`avail, this`role, file`data
      ensures Valid() && Steady(old(Img()), old(role), Img(), role, decode)
      ensures old(Sturdy()) ==> Sturdy() && (res == Err ==> Exhausted())
    {
      hide Sound, Steady;
      ghost var i0, r0 := Img(), role;
      SteadySame(i0, role, decode);
      var grow: bool, c: nat, bytes: seq<Byte> := *, *, *;
      if grow {
        var taken := GetNewCluster(None);
        if taken.None? {
          return Err;
        }
        AdoptKeepsSound(cs, entries, avail, role, |file.data|, taken.value);
        AdoptIsSteady(i0, r0, Img(), role, taken.value, decode);
        role := role[taken.value := Meta];
        return Ok;
      }
      if c !in role || role[c] != Meta || |bytes| != cs {
        return Ok;
      }
      RoleIsInFile(cs, entries, avail, role, |file.data|, c);
      res := file.PwriteAll(bytes, c);
      ghost var n: nat := cs;
      if res == Err {
        n :| n <= |bytes| && file.data == Written(i0.file, c, bytes, n);
      }
      WriteStaysInCluster(i0.file, c, bytes, n);
      MetaIsSteady(i0, avail, role, file.data, c, decode);
    }

    /**
      Table and reference-count upkeep: any number of such changes, any of which may fail. Where the counts
      are in order there is no other reason to fail.
     */
    method Upkeep() returns (res: Outcome)
      requires Valid()
      modifies this`avail, this`role, file`data
      ensures Valid() && Steady(old(Img()), old(role), Img(), role, decode)
      ensures old(Sturdy()) ==> Sturdy() && (res == Err ==> Exhausted())
    {
      ghost var img, r0 := Img(), role;
      SteadySame(img, role, decode);
      var n :| 0 <= n;
      for k := 0 to n
        invariant Valid() && Steady(img, r0, Img(), role, decode) && (old(Sturdy()) ==> Sturdy())
      {
        ghost var i1, r1 := Img(), role;
        res := TouchTables();
        SteadyThen(img, r0, i1, r1, Img(), role, decode);
        if res == Err {
          return;
        }
      }
      var fails: bool := *;
      res := if fails && !refsOk then Err else Ok;
    }

    /** Writes a table that has a cluster of zeros there; a failed write leaves the part of it that went out. */
    method WriteTable(t: int, table: seq<Entry>) returns (loss: Option<Loss>)
      requires 0 <= t < |tables| && tables[t] == At(Empties(|table|))
      modifies this`tables
      ensures loss.None? ==> tables == old(tables)[t := At(table)]
      ensures loss.Some? ==> loss.value.t == t
                             && tables == old(tables)[t := At(Prefix(table, loss.value.k, loss.value.torn))]
      ensures file.reliable ==> loss.None?
    {
      var fails: bool, k: nat, torn: Option<Entry> := *, *, *;
      if fails && !file.reliable {
        tables := tables[t := At(Prefix(table, k, torn))];
        return Some(Loss(t, k, torn));
      }
      tables := tables[t := At(table)];
      return None;
    }

    /** Puts a table into the cache. A full one gives up a table first, which is gone if its write-back fails. */
    method InsertTable(i: nat, block: Cached) returns (res: Outcome, ghost loss: Option<Loss>)
      requires Shaped() && i !in cache && CachedOk(tables, i, block, per) && tables[i] == At(block.entries)
      modifies this`tables, this`cache, this`entries
      ensures Shaped() && Grown(old(cache), cache, {i})
      ensures Inserts(TableSet(old(tables), old(cache)), i, block, TableSet(tables, cache), res, loss)
      ensures res == Ok ==> loss.None? && entries == old(entries) && i in cache
      ensures res == Err ==>
                && loss.Some? && LossExplained(old(cache), {i}, loss.value) && WasDirty(old(cache), loss.value)
                && entries == LoseEntries(old(entries), per, loss.value)
      ensures !block.dirty ==> NoDirtier(old(cache), cache)
      ensures KindsKept(old(tables), tables)
      ensures file.reliable ==> res == Ok
    {
      hide LoseEntries, Prefix, Coherent;
      CacheFits(entries, tables, cache, per);
      ghost var m := TableSet(tables, cache);
      loss := None;
      if |cache| == CACHE_TABLES {
        ghost var some := Pick(cache.Keys);
        var t :| t in cache;
        var evicted := cache[t];
        CachedIsOk(entries, tables, cache, per, t);
        EvictKeeps(entries, tables, cache, per, t);
        cache := cache - {t};
        if evicted.dirty {
          var stop := WriteTable(t, evicted.entries);
          loss := stop;
          if stop.Some? {
            EvictLoses(entries, old(tables), old(cache), per, stop.value);
            FullCacheExplains(old(cache), i, stop.value);
            entries := LoseEntries(entries, per, stop.value);
            return Err, loss;
          }
        }
      }
      InsertKeeps(entries, tables, cache, per, i, block);
      cache := cache[i := block];
      return Ok, loss;
    }

    /** cache_l2_cluster: the table for a read, from the cache or else from the file. */
    method CacheTable(i: nat) returns (res: Outcome, ghost loss: Option<Loss>)
      requires Valid() && i < |tables| && !tables[i].Absent?
      modifies this`tables, this`cache, this`entries
      ensures Shaped() && Owned(old(entries)) && Grown(old(cache), cache, {i}) && (Clean(loss) ==> Valid())
      ensures loss.None? ==> entries == old(entries) && (res == Ok ==> i in cache)
      ensures loss.Some? ==>
                && res == Err && LossExplained(old(cache), {i}, loss.value) && WasDirty(old(cache), loss.value)
                && entries == LoseEntries(old(entries), per, loss.value)
      ensures NoDirtier(old(cache), cache) && KindsKept(old(tables), tables)
      ensures res == Ok ==> !old(tables)[i].Misplaced?
      ensures file.reliable ==> loss.None? && (!old(tables)[i].Misplaced? ==> res == Ok)
    {
      hide LoseEntries, Coherent, Sound;
      GrownSame(cache, {i});
      loss := None;
      if i in cache {
        CachedIsOk(entries, tables, cache, per, i);
        return Ok, loss;
      }
      var fails: bool := *;
      if tables[i].Misplaced? || (fails && !file.reliable) {
        return Err, loss;
      }
      TableIsOk(entries, tables, cache, per, i);
      res, loss := InsertTable(i, Cached(tables[i].entries, false));
      if loss.Some? && Clean(loss) {
        LossKeepsSound(cs, old(entries), avail, role, |file.data|, per, loss.value);
      }
    }

    /** A table that does not exist yet gets a cluster of zeros and a place in the cache. */
    method AllocateTable(i: nat) returns (res: Outcome, ghost loss: Option<Loss>)
      requires Valid() && i < |tables| && tables[i].Absent?
      modifies this`tables, this`cache, this`entries, this`avail, this`role, file`data
      ensures Shaped() && Owned(old(entries)) && Grown(old(cache), cache, {i}) && (Clean(loss) ==> Valid())
      ensures Steady(old(Img()), old(role), Img().(entries := old(entries)), role, decode)
      ensures loss.None? ==> entries == old(entries) && (res == Ok ==> i in cache)
      ensures loss.Some? ==>
                && res == Err && LossExplained(old(cache), {i}, loss.value)
                && entries == LoseEntries(old(entries), per, loss.value)
      ensures KindsKept(old(tables), tables)
      ensures file.reliable ==> loss.None?
      ensures old(Sturdy()) ==> Sturdy() && (res == Err ==> Exhausted())
    {
      hide LoseEntries, Coherent, Sound, Steady;
      SteadySame(Img(), role, decode);
      if i in cache {
        CachedIsOk(entries, tables, cache, per, i);
      }
      loss := None;
      GrownSame(cache, {i});
      var c := GetNewCluster(None);
      if c.None? {
        return Err, loss;
      }
      AdoptKeepsSound(cs, entries, avail, role, |file.data|, c.value);
      AdoptIsSteady(old(Img()), old(role), Img(), role, c.value, decode);
      role := role[c.value := Meta];
      PlaceKeeps(entries, tables, cache, per, i);
      tables := tables[i := At(Empties(per))];
      CacheFits(entries, tables, cache, per);
      res, loss := InsertTable(i, Cached(Empties(per), true));
      if loss.Some? && Clean(loss) {
        LossKeepsSound(cs, old(entries), avail, role, |file.data|, per, loss.value);
      }
    }

    /** cache_l2_cluster_alloc: the table for a write; one that does not exist yet gets a cluster. */
    method CacheTableAlloc(i: nat) returns (res: Outcome, ghost loss: Option<Loss>)
      requires Valid() && i < |tables|
      modifies this`tables, this`cache, this`entries, this`avail, this`role, file`data
      ensures Shaped() && Owned(old(entries)) && Grown(old(cache), cache, {i}) && (Clean(loss) ==> Valid())
      ensures Steady(old(Img()), old(role), Img().(entries := old(entries)), role, decode)
      ensures loss.None? ==> entries == old(entries) && (res == Ok ==> i in cache)
      ensures loss.Some? ==>
                && res == Err && LossExplained(old(cache), {i}, loss.value)
                && entries == LoseEntries(old(entries), per, loss.value)
      ensures KindsKept(old(tables), tables) && (res == Ok ==> !old(tables)[i].Misplaced?)
      ensures file.reliable ==> loss.None? && (old(tables)[i].At? ==> res == Ok)
      ensures old(Sturdy()) ==> Sturdy() && (res == Err && !old(tables)[i].Misplaced? ==> Exhausted())
    {
      hide LoseEntries, Coherent, Sound, Steady;
      SteadySame(Img(), role, decode);
      if tables[i].Absent? {
        res, loss := AllocateTable(i);
      } else {
        res, loss := CacheTable(i);
      }
    }

    method AppendDataCluster(initial: Option<seq<Byte>>) returns (r: Option<nat>)
      requires Valid() && (initial.Some? ==> |initial.value| == cs)
      modifies this`avail, this`role, file`data
      ensures Valid() && Steady(old(Img()), old(role), Img(), role, decode)
      ensures r.Some? ==> Given(old(role), role, file.data, cs, r.value, initial)
      ensures old(Sturdy()) ==> Sturdy() && (r.None? ==> Exhausted())
    {
      r := GetNewCluster(initial);
      if r.None? {
        return;
      }
      ghost var i1, r1 := Img(), role;
      var res := Upkeep();
      SteadyThen(old(Img()), old(role), i1, r1, Img(), role, decode);
      if res == Err {
        return None;
      }
      GivenStays(old(role), i1, r1, Img(), role, decode, r.value, initial);
    }

    /** A clean table about to change gets a new cluster, as yet zero; the old one is not touched. */
    method RenewTable(i: nat) returns (res: Outcome)
      requires Valid() && i in cache && i < |tables|
      modifies this`avail, this`role, file`data
      ensures Valid() && Steady(old(Img()), old(role), Img(), role, decode)
      ensures old(Sturdy()) ==> Sturdy() && (res == Err ==> Exhausted())
    {
      hide Coherent, Sound, Steady;
      SteadySame(Img(), role, decode);
      if cache[i].dirty {
        return Ok;
      }
      var c := GetNewCluster(None);
      if c.None? {
        return Err;
      }
      AdoptKeepsSound(cs, entries, avail, role, |file.data|, c.value);
      AdoptIsSteady(old(Img()), old(role), Img(), role, c.value, decode);
      role := role[c.value := Meta];
      return Ok;
    }

    /** Points guest cluster `g` at file cluster `c`, in its table in the cache. */
    method UpdateClusterAddr(g: nat, c: nat, ghost r0: map<int, Role>, ghost initial: Option<seq<Byte>>)
      returns (res: Outcome)
      requires Valid() && g < |entries| && !entries[g].Std? && (initial.Some? ==> |initial.value| == cs)
      requires Given(r0, role, file.data, cs, c, initial) && ClusterOf(g, per) in cache
      modifies this`tables, this`cache, this`entries, this`avail, this`role, file`data
      ensures Valid() && OthersSame(old(Img()), Img(), decode, g) && Grown(old(cache), cache, {ClusterOf(g, per)})
      ensures old(Sturdy()) ==> Sturdy() && (res == Err ==> Exhausted())
      ensures cache.Keys == old(cache).Keys && KindsKept(old(tables), tables)
      ensures res == Err ==> SameView(old(Img()), Img(), decode) && entries == old(entries)
      ensures res == Ok ==>
                && entries == old(entries)[g := Std(c)] && Aligned(c, cs) && c + cs <= |file.data|
                && forall i :: 0 <= i < cs ==> file.data[c + i] == InitByte(initial, i)
      ensures res == Ok && Shows(old(Img()), decode, g, initial) ==> SameView(old(Img()), Img(), decode)
      ensures res == Ok && initial.None? ==> CutOff(old(Img()), Img(), decode, g, 0)
    {
      hide Steady, OthersSame, SameView, Shows, CutOff, Coherent, IsPowerOfTwo, ByteAt, EntriesKept, PackedKept;
      ghost var i0, q0 := Img(), role;
      var i, j := ClusterOf(g, per), Within(g, per);
      UpdateKeeps(entries, tables, cache, per, g, Std(c));
      res := RenewTable(i);
      ghost var i1 := Img();
      SteadyIsSame(i0, q0, i1, role, decode, g);
      SteadyKeepsView(i0, q0, i1, role, decode);
      GrownSame(cache, {i});
      if res == Err {
        return;
      }
      GivenStays(r0, i0, q0, i1, role, decode, c, initial);
      AssignKeepsSound(cs, entries, avail, role, |file.data|, g, c);
      assert ClusterOk(c, cs, |file.data|);
      hide Sound;
      CachedIsOk(entries, tables, cache, per, i);
      tables := tables[i := At(Empties(per))];
      cache := cache[i := Cached(cache[i].entries[j := Std(c)], true)];
      entries := entries[g := Std(c)];
      role := role[c := Data(g)];
      RedirectOthers(i1, g, c, decode);
      OthersThen(i0, i1, Img(), decode, g);
      if Shows(i0, decode, g, initial) {
        ShowsStays(i0, i1, decode, g, initial);
        RedirectSame(i1, g, c, decode, initial);
        ViewThen(i0, i1, Img(), decode);
      }
      if initial.None? {
        RedirectCutsOff(i1, g, c, decode);
        ThenCutOff(i0, i1, Img(), decode, g, 0);
      }
    }

    /** First write to an unallocated guest cluster: gives it a cluster of its own. */
    method AllocateFor(g: nat, initial: Option<seq<Byte>>) returns (r: Option<nat>)
      requires Valid() && g < |entries| && HasNoCluster(entries[g]) && ClusterOf(g, per) in cache
      requires initial.Some? ==> IsBacking(initial.value, cs, g, Img().back)
      modifies this`tables, this`cache, this`entries, this`avail, this`role, file`data
      ensures Valid() && OthersSame(old(Img()), Img(), decode, g) && Grown(old(cache), cache, {ClusterOf(g, per)})
      ensures KindsKept(old(tables), tables)
      ensures old(Sturdy()) ==> Sturdy() && (r.None? ==> Exhausted())
      ensures r.Some? ==> entries[g] == Std(r.value) && Aligned(r.value, cs) && r.value + cs <= |file.data|
      ensures Settled(old(Img()), Img(), decode, g, initial.None?)
    {
      hide Sound, Steady, OthersSame, Given, SameView, CutOff, Coherent;
      ghost var i0, r0 := Img(), role;
      GrownSame(cache, {ClusterOf(g, per)});
      r := AppendDataCluster(initial);
      ghost var i1 := Img();
      SteadyIsSame(i0, r0, i1, role, decode, g);
      SteadyKeepsView(i0, r0, i1, role, decode);
      if r.None? {
        return;
      }
      if backing.None? || initial.Some? {
        UnallocatedShows(i0, decode, g, initial);
        ShowsStays(i0, i1, decode, g, initial);
      }
      var res := UpdateClusterAddr(g, r.value, r0, initial);
      OthersThen(i0, i1, Img(), decode, g);
      ThenSettled(i0, i1, Img(), decode, g, initial.None?);
      if res == Err {
        return None;
      }
    }

    method DecompressL2Cluster(off: nat, len: nat) returns (d: Option<seq<Byte>>)
      requires off + len <= |file.data|
      ensures d.Some? ==> d == Inflate(decode, file.data, off, len, cs)
      ensures file.reliable && Inflate(decode, file.data, off, len, cs).Some? ==> d.Some?
    {
      var raw := new Byte[len];
      var res := file.PreadExact(raw, off);
      if res == Err {
        return None;
      }
      assert raw[..] == file.data[off..off + len];
      if raw[..] !in decode || |decode[raw[..]]| != cs {
        return None;
      }
      d := Some(decode[raw[..]]);
      InflateIs(decode, file.data, off, raw[..], cs);
    }

    /** First write to a compressed guest cluster: stores it decompressed in a cluster of its own. */
    method InflateFor(g: nat, off: nat, len: nat) returns (r: Option<nat>)
      requires Valid() && g < |entries| && entries[g] == Compressed(off, len) && ClusterOf(g, per) in cache
      modifies this`tables, this`cache, this`entries, this`avail, this`role, file`data
      ensures Valid() && OthersSame(old(Img()), Img(), decode, g) && Grown(old(cache), cache, {ClusterOf(g, per)})
      ensures KindsKept(old(tables), tables)
      ensures r.Some? ==> EntryDecodes(old(Img()), decode, Compressed(off, len))
      ensures old(Sturdy()) ==>
                Sturdy() && (r.None? && EntryDecodes(old(Img()), decode, Compressed(off, len)) ==> Exhausted())
      ensures r.Some? ==> entries[g] == Std(r.value) && Aligned(r.value, cs) && r.value + cs <= |file.data|
      ensures r.Some? ==> SameView(old(Img()), Img(), decode)
      ensures r.None? ==> Unsettled(old(Img()), Img(), decode, g, false)
    {
      EntryInFile(cs, entries, avail, role, |file.data|, g);
      hide Sound, Steady, OthersSame, SameView, Inflate, CutOff, Coherent, Grown;
      ghost var i0, r0 := Img(), role;
      GrownSame(cache, {ClusterOf(g, per)});
      SteadySame(i0, r0, decode);
      SteadyIsSame(i0, r0, i0, r0, decode, g);
      SteadyKeepsView(i0, r0, i0, r0, decode);
      var d := DecompressL2Cluster(off, len);
      if d.None? {
        return None;
      }
      r := PointAtEmpty(g);
      if r.None? {
        return;
      }
      OthersKeepsEntries(i0, Img(), decode, g);
      var res := FillInflated(g, r.value, d.value, i0);
      if res == Err {
        return None;
      }
    }

    /** Points guest cluster `g` at a new cluster of zeros. */
    method PointAtEmpty(g: nat) returns (r: Option<nat>)
      requires Valid() && g < |entries| && !entries[g].Std? && ClusterOf(g, per) in cache
      modifies this`tables, this`cache, this`entries, this`avail, this`role, file`data
      ensures Valid() && OthersSame(old(Img()), Img(), decode, g) && Grown(old(cache), cache, {ClusterOf(g, per)})
      ensures KindsKept(old(tables), tables)
      ensures old(Sturdy()) ==> Sturdy() && (r.None? ==> Exhausted())
      ensures r.None? ==> SameView(old(Img()), Img(), decode)
      ensures r.Some? ==>
                && g < |entries| && entries[g] == Std(r.value) && Aligned(r.value, cs) && r.value + cs <= |file.data|
                && forall i :: 0 <= i < cs ==> file.data[r.value + i] == InitByte(None, i)
    {
      hide Sound, Steady, OthersSame, Given, SameView, CutOff, Coherent, Grown;
      ghost var i0, r0 := Img(), role;
      GrownSame(cache, {ClusterOf(g, per)});
      r := AppendDataCluster(None);
      ghost var i1 := Img();
      SteadyIsSame(i0, r0, i1, role, decode, g);
      SteadyKeepsView(i0, r0, i1, role, decode);
      if r.None? {
        return;
      }
      var res := UpdateClusterAddr(g, r.value, r0, None);
      OthersThen(i0, i1, Img(), decode, g);
      if res == Err {
        ViewThen(i0, i1, Img(), decode);
        return None;
      }
    }

    /** Stores the decompressed cluster and releases the compressed one. */
    method FillInflated(g: nat, c: nat, d: seq<Byte>, ghost i0: Image) returns (res: Outcome)
      requires Valid() && g < |entries| && entries[g] == Std(c) && Aligned(c, cs) && c + cs <= |file.data|
      requires i0.cs == cs && |i0.entries| == |entries| && i0.entries[g].Compressed?
      requires Inflate(decode, i0.file, i0.entries[g].off, i0.entries[g].len, cs) == Some(d)
      requires OthersSame(i0, Img(), decode, g)
      requires forall i :: 0 <= i < cs ==> file.data[c + i] == InitByte(None, i)
      modifies this`avail, this`role, file`data
      ensures Valid() && OthersSame(i0, Img(), decode, g) && c + cs <= |file.data|
      ensures res == Ok ==> SameView(i0, Img(), decode)
      ensures old(Sturdy()) ==> Sturdy() && (res == Err ==> Exhausted())
      ensures res == Err ==> Unsettled(i0, Img(), decode, g, false)
    {
      hide Sound, Steady, OthersSame, SameView, Inflate, CutOff, Coherent, Written;
      res := StoreInflated(g, c, d, i0);
      if res == Err {
        return;
      }
      ghost var i3, r3 := Img(), role;
      res := Upkeep();
      SteadyIsSame(i3, r3, Img(), role, decode, g);
      SteadyKeepsView(i3, r3, Img(), role, decode);
      OthersThen(i0, i3, Img(), decode, g);
      ViewThen(i0, i3, Img(), decode);
    }

    /** Writes the decompressed bytes, at one go, into the empty cluster that guest cluster `g` now points at. */
    method StoreInflated(g: nat, c: nat, d: seq<Byte>, ghost i0: Image) returns (res: Outcome)
      requires Valid() && g < |entries| && entries[g] == Std(c) && Aligned(c, cs) && c + cs <= |file.data|
      requires i0.cs == cs && |i0.entries| == |entries| && i0.entries[g].Compressed?
      requires Inflate(decode, i0.file, i0.entries[g].off, i0.entries[g].len, cs) == Some(d)
      requires OthersSame(i0, Img(), decode, g)
      requires forall i :: 0 <= i < cs ==> file.data[c + i] == InitByte(None, i)
      modifies file`data
      ensures Valid() && OthersSame(i0, Img(), decode, g) && |file.data| == |old(file.data)|
      ensures res == Ok ==> SameView(i0, Img(), decode)
      ensures file.reliable && file.prompt ==> res == Ok
      ensures res == Err ==> exists n: nat :: n <= |d| && file.data == Written(old(file.data), c, d, n)
                                              && CutOff(i0, Img(), decode, g, n)
    {
      hide OthersSame, SameView, Sound, CutOff, Inflate, Written;
      ghost var i2 := Img();
      var written := file.Pwrite(c, d, 0);
      res := if written == |d| then Ok else Err;
      ghost var n: nat := if written < 0 then 0 else written;
      WrittenIs(i2.file, file.data, c, d, n);
      FillCluster(i2.file, c, d, n);
      ClusterWrite(i2, file.data, avail, role, g, c, decode);
      OthersThen(i0, i2, Img(), decode, g);
      if res == Ok {
        assert forall i :: 0 <= i < cs ==> file.data[c + i] == d[i];
        InflatedSame(i0, Img(), decode, g, c, d);
      } else {
        InflatedUpTo(i0, Img(), decode, g, c, d, n);
      }
    }

    /** The table for a write to guest cluster `g`; the guest sees the same disk unless a table is lost. */
    method OpenTable(g: nat) returns (res: Outcome, ghost loss: Option<Loss>)
      requires Valid() && g < |entries| && ClusterOf(g, per) < |tables|
      modifies this`tables, this`cache, this`entries, this`avail, this`role, file`data
      ensures Shaped() && (Clean(loss) ==> Valid()) && Grown(old(cache), cache, {ClusterOf(g, per)})
      ensures loss.Some? ==>
                && res == Err && Owned(old(entries))
                && Loses(old(Img()), Img(), decode, per, old(cache), {ClusterOf(g, per)}, loss.value)
      ensures loss.None? ==>
                && OthersSame(old(Img()), Img(), decode, g) && SameView(old(Img()), Img(), decode)
                && entries == old(entries) && |old(file.data)| <= |file.data| &&
                  (res == Ok ==> ClusterOf(g, per) in cache)
                && (EntryDecodes(Img(), decode, entries[g]) <==> EntryDecodes(old(Img()), decode, entries[g]))
      ensures KindsKept(old(tables), tables) && (res == Ok ==> !old(tables)[ClusterOf(g, per)].Misplaced?)
      ensures file.reliable ==> loss.None? && (old(tables)[ClusterOf(g, per)].At? ==> res == Ok)
      ensures old(Sturdy()) ==> Sturdy() && (res == Err && !old(tables)[ClusterOf(g, per)].Misplaced? ==> Exhausted())
    {
      ghost var i0, r0 := Img(), role;
      hide Steady, OthersSame, SameView, Sound, Coherent, LoseEntries, Lost, EntryDecodes, Sturdy, Exhausted, Grown;
      res, loss := CacheTableAlloc(ClusterOf(g, per));
      if loss.Some? {
        SteadyThenLost(i0, r0, Img(), role, decode, per, loss.value);
      } else {
        assert Img().(entries := i0.entries) == Img();
        SteadyIsSame(i0, r0, Img(), role, decode, g);
        SteadyKeepsView(i0, r0, Img(), role, decode);
        OthersDecode(i0, Img(), decode, g);
      }
    }

    /** The file position at which guest address `address` can be written, allocating its cluster if need be. */
    method MapWrite(address: nat, initial: Option<seq<Byte>>)
      returns (r: Option<nat>, ghost c: nat, ghost loss: Option<Loss>)
      requires Valid() && (initial.Some? ==> IsBacking(initial.value, cs, ClusterOf(address, cs), Img().back))
      modifies this`tables, this`cache, this`entries, this`avail, this`role, file`data
      ensures Shaped() && (Clean(loss) ==> Valid()) && Grown(old(cache), cache, {TableNumber(address, cs, per)})
      ensures loss.Some? ==>
                && r.None? && Loses(old(Img()), Img(), decode, per, old(cache), {TableNumber(address, cs, per)},
                                    loss.value)
                && Owned(old(entries))
      ensures loss.None? ==> OthersSame(old(Img()), Img(), decode, ClusterOf(address, cs))
      ensures r.Some? ==>
                && address < size && OnDisk(old(Img()), address) && r.value == c + Within(address, cs)
                && |entries| == |old(entries)| && entries[ClusterOf(address, cs)] == Std(c)
                && Aligned(c, cs) && c + cs <= |file.data|
      ensures KindsKept(old(tables), tables) && (r.Some? ==> ClusterMaps(old(Img()), old(tables), per, address))
      ensures r.Some? ==> DecodesAt(old(Img()), decode, address)
      ensures old(Sturdy()) ==>
                && Sturdy()
                && (r.None? && address < size && ClusterMaps(old(Img()), old(tables), per, address) &&
                    DecodesAt(old(Img()), decode, address) ==>
                      Exhausted())
      ensures && file.reliable && address < size && ClusterMaps(old(Img()), old(tables), per, address)
              && OverwritesAt(old(Img()), address)
              ==> r.Some?
      ensures r.Some? ==> Settled(old(Img()), Img(), decode, ClusterOf(address, cs), initial.None?)
      ensures r.None? && loss.None? ==> Unsettled(old(Img()), Img(), decode, ClusterOf(address, cs), initial.None?)
      ensures file.reliable ==> loss.None?
    {
      ghost var i0, r0 := Img(), role;
      var g := ClusterOf(address, cs);
      var i := ClusterOf(g, per);
      SteadySame(i0, r0, decode);
      SteadyIsSame(i0, r0, i0, r0, decode, g);
      SteadyKeepsView(i0, r0, i0, r0, decode);
      EntryIsCached(entries, tables, cache, per, g);
      GrownSame(cache, {i});
      KindsKeptThen(tables, tables, tables);
      hide Steady, OthersSame, SameView, Sound, CutOff, Coherent, LoseEntries, Lost, EntryDecodes, Sturdy, Exhausted,
           Intra, Grown, Loses, KindsKept;
      loss := None;
      if address >= size || i >= |tables| {
        return None, 0, loss;
      }
      var res;
      res, loss := OpenTable(g);
      ghost var i1, c1, t1 := Img(), cache, tables;
      if res == Err {
        return None, 0, loss;
      }
      var addr := ClusterAndRefs(g, initial);
      GrownThen(old(cache), c1, cache, {i}, {i});
      KindsKeptThen(old(tables), t1, tables);
      OthersThen(i0, i1, Img(), decode, g);
      if addr.None? {
        ThenUnsettled(i0, i1, Img(), decode, g, initial.None?);
        return None, 0, loss;
      }
      ThenSettled(i0, i1, Img(), decode, g, initial.None?);
      return Some(addr.value + Intra(address, cs)), addr.value, loss;
    }

    method ClusterAndRefs(g: nat, initial: Option<seq<Byte>>) returns (c: Option<nat>)
      requires Valid() && g < |entries| && ClusterOf(g, per) in cache
      requires initial.Some? ==> IsBacking(initial.value, cs, g, Img().back)
      modifies this`tables, this`cache, this`entries, this`avail, this`role, file`data
      ensures Valid() && Grown(old(cache), cache, {ClusterOf(g, per)})
      ensures KindsKept(old(tables), tables)
      ensures OthersSame(old(Img()), Img(), decode, g) && |entries| == |old(entries)|
      ensures c.Some? ==> entries[g] == Std(c.value) && Aligned(c.value, cs) && c.value + cs <= |file.data|
      ensures c.Some? ==> Settled(old(Img()), Img(), decode, g, initial.None?)
      ensures c.None? ==> Unsettled(old(Img()), Img(), decode, g, initial.None?)
      ensures old(entries)[g].Std? ==> (c.Some? <==> Aligned(old(entries)[g].addr, cs))
      ensures c.Some? ==> EntryMaps(old(entries)[g], cs) && EntryDecodes(old(Img()), decode, old(entries)[g])
      ensures old(Sturdy()) ==>
                && Sturdy()
                && (c.None? && EntryMaps(old(entries)[g], cs) && EntryDecodes(old(Img()), decode, old(entries)[g]) ==>
                    Exhausted())
    {
      hide Steady, SameView, Sound, CutOff, Settled, ByteAt, Coherent, Inflate, Sturdy, Exhausted;
      ghost var i0 := Img();
      EntryIsCached(entries, tables, cache, per, g);
      var there := cache[ClusterOf(g, per)].entries[Within(g, per)].Std?;
      c := ClusterFor(g, initial);
      ghost var i1, r1 := Img(), role;
      if c.None? || there {
        return;
      }
      var res := Upkeep();
      SteadyIsSame(i1, r1, Img(), role, decode, g);
      SteadyKeepsView(i1, r1, Img(), role, decode);
      OthersThen(i0, i1, Img(), decode, g);
      SettledThen(i0, i1, Img(), decode, g, initial.None?);
      if res == Err {
        return None;
      }
    }

    method ClusterFor(g: nat, initial: Option<seq<Byte>>) returns (c: Option<nat>)
      requires Valid() && g < |entries| && ClusterOf(g, per) in cache
      requires initial.Some? ==> IsBacking(initial.value, cs, g, Img().back)
      modifies this`tables, this`cache, this`entries, this`avail, this`role, file`data
      ensures Valid() && Grown(old(cache), cache, {ClusterOf(g, per)})
      ensures KindsKept(old(tables), tables)
      ensures OthersSame(old(Img()), Img(), decode, g)
      ensures c.Some? ==> entries[g] == Std(c.value) && Aligned(c.value, cs) && c.value + cs <= |file.data|
      ensures c.Some? ==> Settled(old(Img()), Img(), decode, g, initial.None?)
      ensures c.None? ==> Unsettled(old(Img()), Img(), decode, g, initial.None?)
      ensures old(entries)[g].Std? ==> (c.Some? <==> Aligned(old(entries)[g].addr, cs))
      ensures c.Some? ==> EntryMaps(old(entries)[g], cs) && EntryDecodes(old(Img()), decode, old(entries)[g])
      ensures old(Sturdy()) ==>
                && Sturdy()
                && (c.None? && EntryMaps(old(entries)[g], cs) && EntryDecodes(old(Img()), decode, old(entries)[g]) ==>
                    Exhausted())
    {
      EntryIsCached(entries, tables, cache, per, g);
      match cache[ClusterOf(g, per)].entries[Within(g, per)] {
        case Compressed(off, len) =>
          hide Sound, OthersSame, SameView, CutOff, Coherent;
          c := InflateFor(g, off, len);
        case Std(addr) =>
          assert EntryOk(entries[g], g, cs, role, |file.data|);
          SteadySame(Img(), role, decode);
          SteadyIsSame(Img(), role, Img(), role, decode, g);
          SteadyKeepsView(Img(), role, Img(), role, decode);
          c := if Intra(addr, cs) != 0 then None else Some(addr);
        case _ =>
          hide Sound, OthersSame, SameView, CutOff, Coherent;
          c := AllocateFor(g, initial);
      }
    }

    /** What the backing disk holds of the cluster around `curr`. */
    method ReadBackingCluster(curr: nat, intra: nat) returns (d: Option<seq<Byte>>)
      requires cs > 0 && backing.Some? && intra == Within(curr, cs)
      ensures d.Some? ==> IsBacking(d.value, cs, ClusterOf(curr, cs), Img().back)
      ensures Dependable() ==> d.Some?
    {
      hide BackByte;
      var begin := curr - intra;
      var buf := new Byte[cs];
      var res := backing.value.ReadAt(begin, buf);
      if res == Err {
        return None;
      }
      BackingCluster(buf[..], cs, curr, begin, Img().back);
      return Some(buf[..]);
    }

    /** The file position for a chunk, its cluster filled from the backing disk unless the chunk covers it. */
    method MapChunk(curr: nat, count: nat) returns (host: Option<nat>, ghost c: nat, ghost loss: Option<Loss>)
      requires Valid() && 0 < count && Within(curr, cs) + count <= cs
      modifies this`tables, this`cache, this`entries, this`avail, this`role, file`data
      ensures Shaped() && (Clean(loss) ==> Valid()) && Grown(old(cache), cache, {TableNumber(curr, cs, per)})
      ensures loss.Some? ==>
                && host.None? && Loses(old(Img()), Img(), decode, per, old(cache), {TableNumber(curr, cs, per)},
                                       loss.value)
                && Owned(old(entries))
      ensures loss.None? ==> OthersSame(old(Img()), Img(), decode, ClusterOf(curr, cs))
      ensures host.Some? ==>
                && curr < size && OnDisk(old(Img()), curr) && host.value == c + Within(curr, cs)
                && |entries| == |old(entries)| && entries[ClusterOf(curr, cs)] == Std(c)
                && Aligned(c, cs) && c + cs <= |file.data|
                && Settled(old(Img()), Img(), decode, ClusterOf(curr, cs), count == cs)
      ensures host.None? && loss.None? ==> Unsettled(old(Img()), Img(), decode, ClusterOf(curr, cs), count == cs)
      ensures KindsKept(old(tables), tables) && (host.Some? ==> ClusterMaps(old(Img()), old(tables), per, curr))
      ensures host.Some? ==> DecodesAt(old(Img()), decode, curr)
      ensures old(Sturdy()) ==> Sturdy()
      ensures && old(Sturdy()) && Dependable() && curr < size && ClusterMaps(old(Img()), old(tables), per, curr)
              && DecodesAt(old(Img()), decode, curr) && host.None?
              ==> Exhausted()
      ensures && Dependable() && curr < size && ClusterMaps(old(Img()), old(tables), per, curr)
              && OverwritesAt(old(Img()), curr)
              ==> host.Some?
      ensures file.reliable ==> loss.None?
    {
      hide OthersSame, Sound, Intra, IsBacking, CutOff, ByteAt, Coherent, Loses, ClusterMaps, OverwritesAt, DecodesAt,
           Sturdy, Exhausted;
      ghost var i0 := Img();
      SteadySame(i0, role, decode);
      SteadyIsSame(i0, role, i0, role, decode, ClusterOf(curr, cs));
      GrownSame(cache, {TableNumber(curr, cs, per)});
      var intra := Intra(curr, cs);
      var initial := None;
      loss := None;
      if backing.Some? && (intra != 0 || count < cs) {
        initial := ReadBackingCluster(curr, intra);
        if initial.None? {
          return None, 0, loss;
        }
      }
      hide SameView;
      host, c, loss := MapWrite(curr, initial);
    }

    /** Writes `count` bytes of the guest's buffers, none of them past the end of the cluster around `curr`. */
    method WriteChunk(curr: nat, m: seq<Byte>, iovs: seq<Iovec>, at: nat, count: nat)
      returns (res: Outcome, ghost loss: Option<Loss>)
      requires Valid() && InBounds(iovs, |m|) && at + count <= Total(iovs) && 0 < count &&
               Within(curr, cs) + count <= cs
      modifies this`tables, this`cache, this`entries, this`avail, this`role, file`data
      ensures Shaped() && (Clean(loss) ==> Valid()) && Grown(old(cache), cache, {TableNumber(curr, cs, per)})
      ensures loss.Some? ==>
                && res == Err && Loses(old(Img()), Img(), decode, per, old(cache), {TableNumber(curr, cs, per)},
                                       loss.value)
                && Owned(old(entries))
      ensures loss.None? ==> EntriesKept(old(entries), entries, ClusterOf(curr, cs))
      ensures res == Ok ==> OnDisk(old(Img()), curr) && curr < size
                            && Patched(old(Img()), Img(), decode, curr, Flat(m, iovs)[at..at + count], count)
      ensures res == Err && loss.None? ==>
                && OthersSame(old(Img()), Img(), decode, ClusterOf(curr, cs))
                && Torn(old(Img()), Img(), decode, curr, Flat(m, iovs)[at..at + count])
      ensures KindsKept(old(tables), tables) && (res == Ok ==> ClusterMaps(old(Img()), old(tables), per, curr))
      ensures res == Ok ==> DecodesAt(old(Img()), decode, curr)
      ensures res == Ok ==> ClusterMaps(Img(), tables, per, curr) && OverwritesAt(Img(), curr)
      ensures loss.None? ==> PackedKept(old(Img()), Img())
      ensures old(Sturdy()) ==> Sturdy()
      ensures && old(Sturdy()) && Dependable() && curr < size && ClusterMaps(old(Img()), old(tables), per, curr)
              && DecodesAt(old(Img()), decode, curr) && res == Err
              ==> Exhausted()
      ensures && Dependable() && curr < size && ClusterMaps(old(Img()), old(tables), per, curr)
              && OverwritesAt(old(Img()), curr)
              ==> res == Ok
      ensures file.reliable ==> loss.None?
    {
      hide OthersSame, Sound, Flat, Torn, Settled, Unsettled, EntriesKept, Patched, Coherent, Loses, Grown, ClusterMaps,
           OverwritesAt, KindsKept, DecodesAt, Sturdy, Exhausted, PackedKept;
      ghost var i0, data := Img(), Flat(m, iovs)[at..at + count];
      var host;
      ghost var c;
      host, c, loss := MapChunk(curr, count);
      if loss.None? {
        OthersKeepsEntries(i0, Img(), decode, ClusterOf(curr, cs));
      }
      if host.None? {
        if loss.None? {
          UnsettledIsTorn(i0, Img(), decode, curr, data, count == cs);
        }
        return Err, loss;
      }
      OwnMaps(i0, Img(), old(tables), tables, per, curr);
      var buf := new Byte[count];
      GatherFromIovecsInto(m, iovs, at, buf);
      assert buf[..] == data;
      ghost var i1 := Img();
      res := StoreChunk(curr, host.value, c, buf[..], i0);
      OwnMaps(i1, Img(), tables, tables, per, curr);
    }

    /** Puts the chunk into its data cluster. */
    method StoreChunk(curr: nat, host: nat, ghost c: nat, data: seq<Byte>, ghost i0: Image) returns (res: Outcome)
      requires Valid() && OnDisk(i0, curr) && Within(curr, cs) + |data| <= cs && host == c + Within(curr, cs)
      requires i0.cs == cs && |i0.entries| == |entries| && entries[ClusterOf(curr, cs)] == Std(c) && Aligned(c, cs)
      requires c + cs <= |file.data|
      requires OthersSame(i0, Img(), decode, ClusterOf(curr, cs))
      requires Settled(i0, Img(), decode, ClusterOf(curr, cs), |data| == cs)
      modifies file`data
      ensures Valid() && |file.data| == |old(file.data)|
      ensures res == Ok ==> Patched(i0, Img(), decode, curr, data, |data|)
      ensures res == Err ==> OthersSame(i0, Img(), decode, ClusterOf(curr, cs)) && Torn(i0, Img(), decode, curr, data)
      ensures file.reliable && alignment == 0 ==> res == Ok
      ensures PackedKept(i0, Img()) && (old(Sturdy()) ==> Sturdy())
    {
      hide OthersSame, SameView, Sound, Patched, Written, CutOff, Begun, PackedKept, Coherent, EntriesKept;
      ghost var i1, g := Img(), ClusterOf(curr, cs);
      res := WriteAt(host, data);
      ghost var n: nat := |data|;
      if res == Err {
        n :| n <= |data| && file.data == Written(i1.file, host, data, n);
      }
      PartOfCluster(i1.file, host, data, n, c, cs);
      ClusterWrite(i1, file.data, avail, role, g, c, decode);
      OthersThen(i0, i1, Img(), decode, g);
      OthersKeepsEntries(i0, Img(), decode, g);
      if res == Ok || SameView(i0, i1, decode) {
        ChunkPatches(i0, i1, file.data, decode, curr, c, data, n);
      } else {
        ChunkBegins(i0, i1, file.data, decode, curr, c, data, n);
      }
    }

    method WriteAt(host: nat, data: seq<Byte>) returns (res: Outcome)
      requires host < U64
      modifies file`data
      ensures res == Ok ==> file.data == Written(old(file.data), host, data, |data|)
      ensures res == Err ==> PartlyWritten(old(file.data), host, data, file.data)
      ensures file.reliable && alignment == 0 ==> res == Ok
    {
      if alignment > 0 {
        var abuf := file.NewAlignedBuf(|data|, alignment);
        if abuf.None? {
          assert file.data == Written(file.data, host, data, 0);
          return Err;
        }
        res := file.AlignedPwrite(data, host, alignment, true);
      } else {
        res := file.PwriteAll(data, host);
      }
    }

    /** A guest write: the buffers' bytes go to the disk from `address` on, cluster by cluster. */
    method WriteVectored(address: nat, m: seq<Byte>, iovs: seq<Iovec>)
      returns (res: Outcome, ghost loss: Option<Loss>, ghost es: seq<Entry>)
      requires Valid() && InBounds(iovs, |m|)
      modifies this`tables, this`cache, this`entries, this`avail, this`role, file`data
      ensures Shaped() && (Clean(loss) ==> Valid())
      ensures Grown(old(cache), cache, Spanned(address, Total(iovs), cs, per))
      ensures loss.None? ==> StdKept(old(entries), entries)
      ensures res == Ok ==>
                && loss.None? && RangeOnDisk(old(Img()), address, Total(iovs))
                && Patched(old(Img()), Img(), decode, address, Flat(m, iovs), Total(iovs))
      ensures res == Err && loss.None? ==>
                exists n: nat :: n < Total(iovs) && FailedAt(old(Img()), Img(), decode, address, Flat(m, iovs), n)
      ensures loss.Some? ==>
                && (exists n: nat ::
                      n < Total(iovs) && LostAt(old(Img()), Img(), decode, per, address, Flat(m, iovs), n, loss.value))
                && LossExplained(old(cache), Spanned(address, Total(iovs), cs, per), loss.value)
                && Owned(es) && LostFrom(old(entries), es, entries, per, loss.value)
      ensures file.reliable ==> loss.None?
      ensures res == Ok ==> Readable(old(Img()), decode, old(tables), per, size, address, Total(iovs))
      ensures && old(Sturdy()) && Dependable() && res == Err
              && Readable(old(Img()), decode, old(tables), per, size, address, Total(iovs))
              ==> Exhausted()
      ensures res == Ok ==> Overwritable(Img(), tables, per, size, address, Total(iovs))
      ensures old(Sturdy()) ==> Sturdy()
      ensures Dependable() && Overwritable(old(Img()), old(tables), per, size, address, Total(iovs)) ==> res == Ok
    {
      hide Progress, FailedAt, LostAt, OthersSame, Sound, Flat, ChunkLength, RangeOnDisk, Torn, StdKept, EntriesKept,
           Patched, Coherent, Loses, Grown, LossExplained, LostFrom, MapsAll, Overwritable, ClusterMaps, OverwritesAt,
           KindsKept, AtCut, Within, ClusterOf, Total, Readable, DecodesAt, DecodesAll, Sturdy, Exhausted, PackedKept;
      ghost var i0, c0, t0 := Img(), cache, tables;
      ghost var data := Flat(m, iovs);
      var totalLen := Total(iovs);
      ghost var all := Spanned(address, totalLen, cs, per);
      var bufOffset := 0;
      loss, es := None, entries;
      ProgressStarts(i0, decode, address, data);
      GrownSame(c0, all);
      MapsNothing(i0, t0, per, size, address, totalLen);
      OverwritesNothing(i0, t0, per, size, address);
      DecodesNothing(i0, decode, address);
      ReadableIs(i0, decode, t0, per, size, address, totalLen);
      PackedThen(i0, i0, i0);
      KindsKeptThen(t0, t0, t0);
      while bufOffset < totalLen
        invariant 0 <= bufOffset <= totalLen && loss.None?
        invariant Valid() && Progress(i0, Img(), decode, address, data, bufOffset) && Grown(c0, cache, all)
        invariant KindsKept(t0, tables) && AtCut(address, bufOffset, totalLen, cs)
        invariant MapsAll(i0, t0, per, size, address, bufOffset) && DecodesAll(i0, decode, address, bufOffset)
        invariant PackedKept(i0, Img()) && (old(Sturdy()) ==> Sturdy())
        invariant Overwritable(Img(), tables, per, size, address, bufOffset)
      {
        var curr := address + bufOffset;
        var count := ChunkLength(curr, totalLen - bufOffset, cs);
        ghost var i1, c1, t1 := Img(), cache, tables;
        ProgressMaps(i0, i1, t0, t1, decode, per, size, address, data, bufOffset, count);
        InSpanned(curr, address, totalLen, cs, per);
        res, loss := WriteChunk(curr, m, iovs, bufOffset, count);
        GrownThen(c0, c1, cache, {TableNumber(curr, cs, per)}, all);
        KindsKeptThen(t0, t1, tables);
        PackedThen(i0, i1, Img());
        if res == Err {
          if loss.Some? {
            es := i1.entries;
            ProgressLoses(i0, i1, Img(), decode, per, address, data, bufOffset, c0, c1, TableNumber(curr, cs, per), all,
                          loss.value);
          } else {
            ProgressFails(i0, i1, Img(), decode, address, data, bufOffset, count);
          }
          return;
        }
        OverwritableMore(i1, Img(), t1, tables, per, size, address, bufOffset, count, totalLen);
        ProgressNext(i0, i1, Img(), decode, address, data, bufOffset, count);
        bufOffset := bufOffset + count;
      }
      ProgressEnds(i0, Img(), decode, address, data, totalLen);
      res := Ok;
    }
  }

  /** The first `n` bytes of a guest write are on the disk; entries from the next byte's cluster on are untouched. */
  ghost predicate Progress(i0: Image, img: Image, dec: Decoder, address: nat, data: seq<Byte>, n: nat)
    requires n <= |data|
  {
    && img.cs == i0.cs && |img.entries| == |i0.entries|
    && Patched(i0, img, dec, address, data, n) && RangeOnDisk(i0, address, n)
    && StdKept(i0.entries, img.entries)
    && (n < |data| ==> KeptFrom(i0.entries, img.entries, ClusterOf(address + n, i0.cs)))
  }

  lemma ProgressStarts(i0: Image, dec: Decoder, address: nat, data: seq<Byte>)
    ensures Progress(i0, i0, dec, address, data, 0)
  {
    hide ByteAt;
  }

  lemma ProgressEnds(i0: Image, img: Image, dec: Decoder, address: nat, data: seq<Byte>, n: nat)
    requires n <= |data| && Progress(i0, img, dec, address, data, n)
    ensures Patched(i0, img, dec, address, data, n) && RangeOnDisk(i0, address, n) && StdKept(i0.entries, img.entries)
  {
  }

  lemma ProgressNext(i0: Image, i1: Image, i2: Image, dec: Decoder, address: nat, data: seq<Byte>, n: nat, count: nat)
    requires i0.cs > 0 && n + count <= |data| && Progress(i0, i1, dec, address, data, n) && n < |data|
    requires var g := ClusterOf(address + n, i0.cs);
             OnDisk(i1, address + n) && EntriesKept(i1.entries, i2.entries, g)
    requires Patched(i1, i2, dec, address + n, data[n..n + count], count)
    requires Within(address + n, i0.cs) + count <= i0.cs
    requires n + count == |data| || Within(address + n, i0.cs) + count == i0.cs
    ensures Progress(i0, i2, dec, address, data, n + count)
  {
    hide Patched, RangeOnDisk, StdKept, EntriesKept, KeptFrom, ClusterOf, Within;
    var g := ClusterOf(address + n, i0.cs);
    KeptThen(i0.entries, i1.entries, i2.entries, g);
    PatchThen(i0, i1, i2, dec, address, data, n, data[n..n + count]);
    PatchedShape(i0, i2, dec, address, data, n + count);
    RangeThen(i0, address, n, count);
    if n + count < |data| {
      NextCluster(i0.cs, address + n, count);
      assert address + n + count == address + (n + count);
    }
  }

  /** The next chunk of the write is mapped if and only if it was at the start. */
  lemma ProgressMaps(i0: Image, i1: Image, t0: seq<Table>, t1: seq<Table>, dec: Decoder, per: nat, size: nat,
                     address: nat, data: seq<Byte>, n: nat, count: nat)
    requires i0.cs > 0 && n < |data| && count <= |data| - n && 0 < count && Progress(i0, i1, dec, address, data, n)
    requires KindsKept(t0, t1) && AtCut(address, n, |data|, i0.cs) && MapsAll(i0, t0, per, size, address, n)
    requires PackedKept(i0, i1) && DecodesAll(i0, dec, address, n)
    requires Within(address + n, i0.cs) + count <= i0.cs
    requires count == |data| - n || Within(address + n, i0.cs) + count == i0.cs
    ensures AtCut(address, n + count, |data|, i0.cs)
    ensures address + n < size && ClusterMaps(i1, t1, per, address + n) ==>
              MapsAll(i0, t0, per, size, address, n + count)
    ensures MapsAll(i0, t0, per, size, address, |data|) ==>
              address + n < size && ClusterMaps(i1, t1, per, address + n)
    ensures DecodesAt(i1, dec, address + n) ==> DecodesAll(i0, dec, address, n + count)
    ensures DecodesAll(i0, dec, address, |data|) ==> DecodesAt(i1, dec, address + n)
    ensures Overwritable(i0, t0, per, size, address, |data|) ==>
              address + n < size && ClusterMaps(i1, t1, per, address + n) && OverwritesAt(i1, address + n)
  {
    hide Patched, RangeOnDisk, StdKept, KeptFrom, MapsAll, ClusterMaps, OverwritesAt, KindsKept, AtCut, Overwritable,
         DecodesAll, DecodesAt, PackedKept;
    DecodesOn(i0, dec, address, n, count, |data|);
    KeptDecodes(i0, i1, dec, address + n);
    MapsMore(i0, t0, per, size, address, n, count, |data|);
    KeptMaps(i0, i1, t0, t1, per, address + n);
    if Overwritable(i0, t0, per, size, address, |data|) {
      OverwritableAt(i0, t0, per, size, address, |data|, address + n);
    }
  }

  lemma ProgressLoses(i0: Image, i1: Image, i2: Image, dec: Decoder, per: nat, address: nat, data: seq<Byte>, n: nat,
                      c0: Cache, c1: Cache, t: int, all: set<int>, loss: Loss)
    requires n <= |data| && Progress(i0, i1, dec, address, data, n) && Loses(i1, i2, dec, per, c1, {t}, loss)
    requires Grown(c0, c1, all) && {t} <= all
    ensures LostAt(i0, i2, dec, per, address, data, n, loss) && LossExplained(c0, all, loss)
    ensures LostFrom(i0.entries, i1.entries, i2.entries, per, loss)
  {
    hide Patched, RangeOnDisk, StdKept, KeptFrom, LostAt, SameView, LossExplained, LoseEntries, Grown;
    PatchThenLost(i0, i1, i2, dec, per, address, data, n, loss);
    LossThen(c0, c1, {t}, all, loss);
  }

  lemma EntryInFile(cs: nat, entries: seq<Entry>, avail: seq<nat>, role: map<int, Role>, len: nat, g: nat)
    requires Sound(cs, entries, avail, role, len) && g < |entries| && entries[g].Compressed?
    ensures entries[g].off + entries[g].len <= len
  {
    assert EntryOk(entries[g], g, cs, role, len);
  }

  lemma ProgressFails(i0: Image, i1: Image, i2: Image, dec: Decoder, address: nat, data: seq<Byte>, n: nat, count: nat)
    requires i0.cs > 0 && n + count <= |data| && Progress(i0, i1, dec, address, data, n) && n < |data|
    requires var g := ClusterOf(address + n, i0.cs);
             OthersSame(i1, i2, dec, g) && EntriesKept(i1.entries, i2.entries, g)
    requires Torn(i1, i2, dec, address + n, data[n..n + count]) && Within(address + n, i0.cs) + count <= i0.cs
    ensures FailedAt(i0, i2, dec, address, data, n) && StdKept(i0.entries, i2.entries)
  {
    hide Patched, RangeOnDisk, StdKept, EntriesKept, KeptFrom, ClusterOf, Within, Torn, FailedAt, OthersSame;
    var g := ClusterOf(address + n, i0.cs);
    KeptThen(i0.entries, i1.entries, i2.entries, g);
    KeptAt(i0.entries, i1.entries, g);
    TornFails(i0, i1, i2, dec, address, data, n, count);
  }

  lemma KeptAt(es: seq<Entry>, es': seq<Entry>, g: nat)
    requires KeptFrom(es, es', g)
    ensures |es'| == |es| && (g < |es| ==> es'[g] == es[g])
  {
  }

  lemma PatchedShape(img: Image, img': Image, dec: Decoder, address: nat, data: seq<Byte>, n: nat)
    requires n <= |data| && Patched(img, img', dec, address, data, n)
    ensures img'.cs == img.cs && |img'.entries| == |img.entries|
  {
    hide ByteAt;
  }

  lemma RoleIsInFile(cs: nat, entries: seq<Entry>, avail: seq<nat>, role: map<int, Role>, len: nat, c: nat)
    requires Sound(cs, entries, avail, role, len) && c in role
    ensures Aligned(c, cs) && c + cs <= len
  {
    assert ClusterOk(c, cs, len);
  }
}
