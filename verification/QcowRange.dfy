/** Which ranges of a QCOW2 image the code can map, read and overwrite. */
module QcowRange {
  import opened Base
  import opened Bits
  import opened QcowView
  import opened QcowTables

  /** The part of the range from `address` on that the code maps together with byte `a` starts here. */
  function StartOf(address: nat, a: nat, cs: nat): nat {
    if a < address + Within(a, cs) then address else a - Within(a, cs)
  }

  predicate EntryMaps(e: Entry, cs: nat) {
    e.Std? ==> Aligned(e.addr, cs)
  }

  predicate EntryDecodes(img: Image, dec: Decoder, e: Entry) {
    e.Compressed? ==> Inflate(dec, img.file, e.off, e.len, img.cs).Some?
  }

  /** The cluster around `a` has a table at a proper place and in it no cluster at an improper one. */
  predicate ClusterMaps(img: Image, tables: seq<Table>, per: nat, a: nat) {
    && OnDisk(img, a) && TableNumber(a, img.cs, per) < |tables| && !tables[TableNumber(a, img.cs, per)].Misplaced?
    && EntryMaps(img.entries[ClusterOf(a, img.cs)], img.cs)
  }

  predicate MapsAt(img: Image, tables: seq<Table>, per: nat, size: nat, address: nat, a: nat) {
    StartOf(address, a, img.cs) < size && ClusterMaps(img, tables, per, a)
  }

  ghost predicate MapsAll(img: Image, tables: seq<Table>, per: nat, size: nat, address: nat, n: nat) {
    forall a: nat :: address <= a < address + n ==> MapsAt(img, tables, per, size, address, a)
  }

  predicate DecodesAt(img: Image, dec: Decoder, a: nat) {
    OnDisk(img, a) ==> EntryDecodes(img, dec, img.entries[ClusterOf(a, img.cs)])
  }

  ghost predicate DecodesAll(img: Image, dec: Decoder, address: nat, n: nat) {
    forall a: nat :: address <= a < address + n ==> DecodesAt(img, dec, a)
  }

  /**
    The whole range can be read: every part of it starts below the end of the disk and lies in clusters
    whose tables and data are at proper places, and every compressed cluster in it decodes.
   */
  ghost predicate Readable(img: Image, dec: Decoder, tables: seq<Table>, per: nat, size: nat, address: nat, n: nat) {
    forall a: nat :: address <= a < address + n ==>
      MapsAt(img, tables, per, size, address, a) && DecodesAt(img, dec, a)
  }

  /** The code decides a part by its first byte. */
  lemma PartMaps(img: Image, tables: seq<Table>, per: nat, size: nat, address: nat, curr: nat, count: nat, a: nat)
    requires img.cs > 0 && Within(curr, img.cs) + count <= img.cs && address <= curr <= a < curr + count
    requires curr == address || Within(curr, img.cs) == 0
    ensures MapsAt(img, tables, per, size, address, a) <==> curr < size && ClusterMaps(img, tables, per, curr)
  {
    InChunk(img.cs, curr, count, a);
  }

  /** Position `n` of the range is its start, its end, or the start of a cluster. */
  predicate AtCut(address: nat, n: nat, total: nat, cs: nat) {
    n == 0 || n == total || Within(address + n, cs) == 0
  }

  lemma MapsMore(img: Image, tables: seq<Table>, per: nat, size: nat, address: nat, n: nat, count: nat, total: nat)
    requires img.cs > 0 && n < total && count <= total - n && 0 < count && Within(address + n, img.cs) + count <= img.cs
    requires AtCut(address, n, total, img.cs) && MapsAll(img, tables, per, size, address, n)
    requires count == total - n || Within(address + n, img.cs) + count == img.cs
    ensures AtCut(address, n + count, total, img.cs)
    ensures address + n < size && ClusterMaps(img, tables, per, address + n) ==>
              MapsAll(img, tables, per, size, address, n + count)
    ensures MapsAll(img, tables, per, size, address, total) ==>
              address + n < size && ClusterMaps(img, tables, per, address + n)
  {
    var curr := address + n;
    PartMaps(img, tables, per, size, address, curr, count, curr);
    if curr < size && ClusterMaps(img, tables, per, curr) {
      forall a: nat | address <= a < address + n + count
        ensures MapsAt(img, tables, per, size, address, a)
      {
        if a >= curr {
          PartMaps(img, tables, per, size, address, curr, count, a);
        }
      }
    }
    if count < total - n {
      NextCluster(img.cs, curr, count);
      ModUnique(curr + count, img.cs, ClusterOf(curr, img.cs) + 1, 0);
    }
  }

  lemma ReadableIs(img: Image, dec: Decoder, tables: seq<Table>, per: nat, size: nat, address: nat, n: nat)
    ensures Readable(img, dec, tables, per, size, address, n) <==>
            MapsAll(img, tables, per, size, address, n) && DecodesAll(img, dec, address, n)
  {
    hide MapsAt, DecodesAt;
  }

  /** A part of the range lies in one cluster, which decodes or does not. */
  lemma DecodesOn(img: Image, dec: Decoder, address: nat, n: nat, count: nat, total: nat)
    requires img.cs > 0 && n + count <= total && 0 < count && Within(address + n, img.cs) + count <= img.cs
    requires DecodesAll(img, dec, address, n)
    ensures DecodesAt(img, dec, address + n) ==> DecodesAll(img, dec, address, n + count)
    ensures DecodesAll(img, dec, address, total) ==> DecodesAt(img, dec, address + n)
  {
    var curr := address + n;
    forall a: nat | curr <= a < curr + count
      ensures DecodesAt(img, dec, a) <==> DecodesAt(img, dec, curr)
    {
      InChunk(img.cs, curr, count, a);
    }
    hide DecodesAt;
  }

  /** Compressed data that stayed decodes as before. */
  lemma PackedDecodes(img: Image, img': Image, dec: Decoder, g: nat)
    requires PackedKept(img, img') && img'.cs == img.cs && g < |img.entries| && img'.entries[g] == img.entries[g]
    ensures EntryDecodes(img', dec, img'.entries[g]) <==> EntryDecodes(img, dec, img.entries[g])
  {
    var e := img.entries[g];
    if e.Compressed? {
      assert Packed(e, img.file) == Packed(e, img'.file);
    }
  }

  lemma KeptDecodes(img: Image, img': Image, dec: Decoder, a: nat)
    requires img'.cs == img.cs && KeptFrom(img.entries, img'.entries, ClusterOf(a, img.cs)) && PackedKept(img, img')
    ensures DecodesAt(img', dec, a) <==> DecodesAt(img, dec, a)
  {
    hide EntryDecodes;
    if OnDisk(img, a) {
      PackedDecodes(img, img', dec, ClusterOf(a, img.cs));
    }
  }

  lemma OthersDecode(img: Image, img': Image, dec: Decoder, g: nat)
    requires OthersSame(img, img', dec, g) && img'.entries == img.entries && g < |img.entries|
    ensures EntryDecodes(img', dec, img'.entries[g]) <==> EntryDecodes(img, dec, img.entries[g])
  {
    hide ByteAt, EntryDecodes, Packed;
    PackedDecodes(img, img', dec, g);
  }

  lemma PackedThen(i0: Image, i1: Image, i2: Image)
    ensures PackedKept(i0, i0)
    ensures PackedKept(i0, i1) && PackedKept(i1, i2) ==> PackedKept(i0, i2)
  {
    hide Packed;
  }

  lemma DecodesNothing(img: Image, dec: Decoder, address: nat)
    ensures DecodesAll(img, dec, address, 0)
  {
  }

  lemma KindsMap(img: Image, tables: seq<Table>, tables': seq<Table>, per: nat, a: nat)
    requires KindsKept(tables, tables')
    ensures ClusterMaps(img, tables', per, a) <==> ClusterMaps(img, tables, per, a)
  {
  }

  lemma MapsNothing(img: Image, tables: seq<Table>, per: nat, size: nat, address: nat, total: nat)
    ensures MapsAll(img, tables, per, size, address, 0) && AtCut(address, 0, total, img.cs)
  {
  }

  lemma KindsKeptThen(t0: seq<Table>, t1: seq<Table>, t2: seq<Table>)
    ensures KindsKept(t0, t0)
    ensures KindsKept(t0, t1) && KindsKept(t1, t2) ==> KindsKept(t0, t2)
  {
  }

  /** A cluster whose entry stayed is mapped as before. */
  lemma KeptMaps(img: Image, img': Image, tables: seq<Table>, tables': seq<Table>, per: nat, a: nat)
    requires img'.cs == img.cs && KeptFrom(img.entries, img'.entries, ClusterOf(a, img.cs)) &&
             KindsKept(tables, tables')
    ensures ClusterMaps(img', tables', per, a) <==> ClusterMaps(img, tables, per, a)
    ensures OverwritesAt(img', a) <==> OverwritesAt(img, a)
  {
  }

  // ---------------------------------------------------------------- what can be overwritten

  /** The cluster around `a` has a cluster of its own. */
  predicate OverwritesAt(img: Image, a: nat) {
    OnDisk(img, a) && img.entries[ClusterOf(a, img.cs)].Std?
  }

  /** The whole range lies in clusters that have clusters of their own, at proper places. */
  ghost predicate Overwritable(img: Image, tables: seq<Table>, per: nat, size: nat, address: nat, n: nat) {
    MapsAll(img, tables, per, size, address, n) && forall a: nat :: address <= a < address + n ==> OverwritesAt(img, a)
  }

  lemma OverwritableAt(img: Image, tables: seq<Table>, per: nat, size: nat, address: nat, n: nat, a: nat)
    requires Overwritable(img, tables, per, size, address, n) && address <= a < address + n
    ensures OverwritesAt(img, a) && MapsAll(img, tables, per, size, address, n)
  {
  }

  lemma OverwritesNothing(img: Image, tables: seq<Table>, per: nat, size: nat, address: nat)
    ensures Overwritable(img, tables, per, size, address, 0)
  {
  }

  /** A cluster that has a cluster of its own at a proper place is mapped, once its table has a place. */
  lemma OwnMaps(img: Image, img': Image, tables: seq<Table>, tables': seq<Table>, per: nat, a: nat)
    requires img'.cs == img.cs && |img'.entries| == |img.entries| && KindsKept(tables, tables')
    requires ClusterMaps(img, tables, per, a) && img'.entries[ClusterOf(a, img.cs)].Std?
    requires Aligned(img'.entries[ClusterOf(a, img.cs)].addr, img.cs)
    ensures ClusterMaps(img', tables', per, a) && OverwritesAt(img', a)
  {
  }

  /** Once its next part is written, a range can be overwritten up to the end of that part. */
  lemma OverwritableMore(img: Image, img': Image, tables: seq<Table>, tables': seq<Table>, per: nat, size: nat,
                         address: nat, n: nat, count: nat, total: nat)
    requires img.cs > 0 && img'.cs == img.cs && EntriesKept(img.entries, img'.entries, ClusterOf(address + n, img.cs))
    requires KindsKept(tables, tables') && Overwritable(img, tables, per, size, address, n)
    requires n < total && 0 < count && Within(address + n, img.cs) + count <= img.cs
    requires AtCut(address, n, total, img.cs) && address + n < size
    requires ClusterMaps(img', tables', per, address + n) && OverwritesAt(img', address + n)
    ensures Overwritable(img', tables', per, size, address, n + count)
  {
    forall a: nat | address <= a < address + n + count
      ensures MapsAt(img', tables', per, size, address, a) && OverwritesAt(img', a)
    {
      if a < address + n {
        assert MapsAt(img, tables, per, size, address, a) && OverwritesAt(img, a);
      } else {
        PartMaps(img', tables', per, size, address, address + n, count, a);
        InChunk(img.cs, address + n, count, a);
      }
    }
    hide MapsAt, OverwritesAt;
  }

  /** What has been written can be read: no compressed cluster is left in it. */
  lemma OverwritableReads(img: Image, dec: Decoder, tables: seq<Table>, per: nat, size: nat, address: nat, n: nat)
    requires Overwritable(img, tables, per, size, address, n)
    ensures Readable(img, dec, tables, per, size, address, n)
  {
    forall a: nat | address <= a < address + n
      ensures DecodesAt(img, dec, a)
    {
      assert OverwritesAt(img, a);
    }
    hide MapsAt, DecodesAt;
  }
}
