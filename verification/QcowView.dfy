/** What a QCOW2 image shows the guest, and when a change to its file or tables leaves that alone. */
module QcowView {
  import opened Base
  import opened Bits

  /** Decompression, as the table of the inputs the decoder accepts and what it makes of them. */
  type Decoder = map<seq<Byte>, seq<Byte>>

  /** One entry of the second-level table: how one guest cluster is stored. */
  datatype Entry = Empty | Zero | Compressed(off: nat, len: nat) | Std(addr: nat)

  /** Who owns a cluster of the image file; one just handed out is held by whoever asked for it. */
  datatype Role = Data(g: int) | Free(i: int) | Held | Meta

  /** A raw backing file: bytes past `size` read as zeros. */
  datatype Back = Back(data: seq<Byte>, size: nat)

  /** The cluster an address lies in, and the offset inside it. */
  function ClusterOf(a: nat, cs: nat): nat {
    if cs == 0 then 0 else a / cs
  }

  function Within(a: nat, cs: nat): (i: nat)
    ensures cs > 0 ==> i < cs
  {
    if cs == 0 then 0 else a % cs
  }

  predicate Aligned(c: nat, cs: nat) {
    Within(c, cs) == 0
  }

  function BackByte(back: Option<Back>, a: nat): Byte {
    if back.Some? && a < back.value.size && a < |back.value.data| then back.value.data[a] else 0
  }

  function Inflate(dec: Decoder, f: seq<Byte>, off: nat, len: nat, cs: nat): (d: Option<seq<Byte>>)
    ensures d.Some? ==> |d.value| == cs
  {
    if off + len > |f| then None
    else
      var raw := f[off..off + len];
      if raw in dec && |dec[raw]| == cs then Some(dec[raw]) else None
  }

  /** Byte `i` of a cluster with entry `e`, at guest address `a`. */
  function EntryByte(e: Entry, f: seq<Byte>, cs: nat, dec: Decoder, back: Option<Back>, a: nat, i: nat): Byte
    requires i < cs
  {
    match e
    case Std(c) => if Aligned(c, cs) && c + i < |f| then f[c + i] else 0
    case Compressed(off, len) =>
      var d := Inflate(dec, f, off, len, cs);
      if d.Some? then d.value[i] else 0
    case _ => BackByte(back, a)
  }

  datatype Image = Image(cs: nat, entries: seq<Entry>, file: seq<Byte>, back: Option<Back>)

  predicate OnDisk(img: Image, a: nat) {
    img.cs > 0 && ClusterOf(a, img.cs) < |img.entries|
  }

  /** The guest's disk, byte by byte. */
  function ByteAt(img: Image, dec: Decoder, a: nat): Byte
    requires OnDisk(img, a)
  {
    EntryByte(img.entries[ClusterOf(a, img.cs)], img.file, img.cs, dec, img.back, a, Within(a, img.cs))
  }

  // ---------------------------------------------------------------- ownership

  predicate EntryOk(e: Entry, g: int, cs: nat, role: map<int, Role>, len: nat)
    requires cs > 0
  {
    match e
    case Std(c) => Aligned(c, cs) ==> c in role && role[c] == Data(g)
    case Compressed(off, n) => off + n <= len
    case _ => true
  }

  predicate ClusterOk(c: int, cs: nat, len: nat)
    requires cs > 0
  {
    0 <= c && Aligned(c, cs) && c + cs <= len
  }

  /** A cluster does not touch the entry's compressed data. */
  predicate Clear(e: Entry, c: int, cs: nat) {
    e.Compressed? ==> e.off + e.len <= c || c + cs <= e.off
  }

  /** Each cluster of the file has one owner, lies inside the file and overlaps no compressed data. */
  predicate Sound(cs: nat, entries: seq<Entry>, avail: seq<nat>, role: map<int, Role>, len: nat) {
    && cs > 0
    && (forall g :: 0 <= g < |entries| ==> EntryOk(entries[g], g, cs, role, len))
    && (forall i :: 0 <= i < |avail| ==> avail[i] in role && role[avail[i]] == Free(i))
    && (forall c :: c in role ==> ClusterOk(c, cs, len))
    && (forall g, c :: 0 <= g < |entries| && c in role ==> Clear(entries[g], c, cs))
  }

  lemma ClustersApart(c: nat, d: nat, cs: nat)
    requires cs > 0 && Aligned(c, cs) && Aligned(d, cs) && c < d
    ensures c + cs <= d
  {
    var m, n := ClusterOf(c, cs), ClusterOf(d, cs);
    assert c == m * cs && d == n * cs;
    if n <= m {
      MulMono(n, m, cs);
    }
    MulMono(m + 1, n, cs);
  }

  /** A file that may have grown, changed only inside `[lo, lo + n)`. */
  predicate ChangedIn(f: seq<Byte>, g: seq<Byte>, lo: nat, n: nat) {
    |f| <= |g| && forall j :: 0 <= j < |f| && !(lo <= j < lo + n) ==> g[j] == f[j]
  }

  /** Cluster `c` holds nothing of the guest's. */
  predicate Unused(cs: nat, entries: seq<Entry>, role: map<int, Role>, c: nat) {
    && (c in role ==> !role[c].Data?)
    && (forall g :: 0 <= g < |entries| ==> Clear(entries[g], c, cs))
  }

  lemma EntryUntouched(e: Entry, g: int, cs: nat, role: map<int, Role>, f: seq<Byte>, h: seq<Byte>, c: nat, n: nat,
                       dec: Decoder, back: Option<Back>, a: nat, i: nat)
    requires cs > 0 && i < cs && EntryOk(e, g, cs, role, |f|) && ChangedIn(f, h, c, n) && n <= cs
    requires forall d :: d in role ==> ClusterOk(d, cs, |f|)
    requires e.Compressed? ==> e.off + e.len <= c || c + n <= e.off
    requires e.Std? && Aligned(e.addr, cs) ==> e.addr + cs <= c || c + n <= e.addr
    ensures EntryByte(e, f, cs, dec, back, a, i) == EntryByte(e, h, cs, dec, back, a, i)
  {
    if e.Compressed? {
      assert f[e.off..e.off + e.len] == h[e.off..e.off + e.len];
    }
  }

  /** Writing an unused cluster changes nothing the guest sees. */
  lemma UnusedIsInvisible(img: Image, f: seq<Byte>, avail: seq<nat>, role: map<int, Role>, c: nat, dec: Decoder, a: nat)
    requires Sound(img.cs, img.entries, avail, role, |img.file|) && OnDisk(img, a)
    requires Aligned(c, img.cs) && Unused(img.cs, img.entries, role, c) && ChangedIn(img.file, f, c, img.cs)
    ensures ByteAt(img.(file := f), dec, a) == ByteAt(img, dec, a)
  {
    var g := ClusterOf(a, img.cs);
    var e := img.entries[g];
    if e.Std? && Aligned(e.addr, img.cs) {
      if e.addr < c {
        ClustersApart(e.addr, c, img.cs);
      } else if c < e.addr {
        ClustersApart(c, e.addr, img.cs);
      }
    }
    EntryUntouched(e, g, img.cs, role, img.file, f, c, img.cs, dec, img.back, a, Within(a, img.cs));
  }

  /** Writing inside one data cluster changes only what the guest sees of that cluster. */
  lemma OtherClustersStay(img: Image, f: seq<Byte>, avail: seq<nat>, role: map<int, Role>, g: nat, c: nat, dec: Decoder,
                          a: nat)
    requires Sound(img.cs, img.entries, avail, role, |img.file|) && OnDisk(img, a)
    requires g < |img.entries| && img.entries[g] == Std(c) && Aligned(c, img.cs) && ChangedIn(img.file, f, c, img.cs)
    requires ClusterOf(a, img.cs) != g
    ensures ByteAt(img.(file := f), dec, a) == ByteAt(img, dec, a)
  {
    var e := img.entries[ClusterOf(a, img.cs)];
    assert Clear(e, c, img.cs);
    if e.Std? && Aligned(e.addr, img.cs) {
      if e.addr < c {
        ClustersApart(e.addr, c, img.cs);
      } else {
        ClustersApart(c, e.addr, img.cs);
      }
    }
    EntryUntouched(e, ClusterOf(a, img.cs), img.cs, role, img.file, f, c, img.cs, dec, img.back, a, Within(a, img.cs));
  }

  /** Addresses of one chunk that does not cross a cluster boundary. */
  lemma InChunk(cs: nat, start: nat, count: nat, a: nat)
    requires cs > 0 && Within(start, cs) + count <= cs && start <= a < start + count
    ensures ClusterOf(a, cs) == ClusterOf(start, cs) && Within(a, cs) == Within(start, cs) + (a - start)
  {
    ModUnique(a, cs, ClusterOf(start, cs), Within(start, cs) + (a - start));
  }

  /** An address of the same cluster outside the chunk keeps its distance from it. */
  lemma SameCluster(cs: nat, start: nat, a: nat)
    requires cs > 0 && ClusterOf(a, cs) == ClusterOf(start, cs)
    ensures Within(a, cs) - Within(start, cs) == a - start
  {
  }

  // ---------------------------------------------------------------- changes of ownership

  lemma ClaimKeepsSound(cs: nat, entries: seq<Entry>, avail: seq<nat>, role: map<int, Role>, len: nat)
    requires Sound(cs, entries, avail, role, len) && avail != []
    ensures var c := avail[|avail| - 1];
            && Sound(cs, entries, avail[..|avail| - 1], role[c := Held], len)
            && Aligned(c, cs) && c + cs <= len && Unused(cs, entries, role, c) && c in role && role[c].Free?
  {
  }

  lemma ExtendKeepsSound(cs: nat, entries: seq<Entry>, avail: seq<nat>, role: map<int, Role>, len: nat, c: nat)
    requires Sound(cs, entries, avail, role, len) && c >= len && Aligned(c, cs)
    ensures c !in role && Sound(cs, entries, avail, role[c := Held], c + cs) && Unused(cs, entries, role, c)
  {
  }

  lemma AssignKeepsSound(cs: nat, entries: seq<Entry>, avail: seq<nat>, role: map<int, Role>, len: nat, g: nat, c: nat)
    requires Sound(cs, entries, avail, role, len) && g < |entries| && c in role && role[c] == Held
    ensures Sound(cs, entries[g := Std(c)], avail, role[c := Data(g)], len)
  {
  }

  lemma AdoptKeepsSound(cs: nat, entries: seq<Entry>, avail: seq<nat>, role: map<int, Role>, len: nat, c: nat)
    requires Sound(cs, entries, avail, role, len) && c in role && role[c] == Held
    ensures Sound(cs, entries, avail, role[c := Meta], len)
  {
  }

  // ---------------------------------------------------------------- allocation

  /** Cluster `c` lies in both files and holds the same bytes. */
  predicate SameBytes(f: seq<Byte>, h: seq<Byte>, c: int, cs: nat) {
    forall j :: 0 <= j < |f| && j < |h| && c <= j < c + cs ==> h[j] == f[j]
  }

  /** Every cluster that was in use keeps its owner, and its bytes unless they are the image's own tables. */
  ghost predicate KeepsOwned(cs: nat, role: map<int, Role>, role': map<int, Role>, f: seq<Byte>, h: seq<Byte>) {
    forall c :: c in role && !role[c].Free? ==>
      c in role' && role'[c] == role[c] && (role[c] != Meta ==> SameBytes(f, h, c, cs))
  }

  /** The compressed data of entry `e`. */
  function Packed(e: Entry, f: seq<Byte>): Option<seq<Byte>> {
    if e.Compressed? && e.off + e.len <= |f| then Some(f[e.off..e.off + e.len]) else None
  }

  /** Entries that are compressed were so before, with the same data. */
  predicate PackedKept(img: Image, img': Image) {
    && |img'.entries| == |img.entries|
    && forall h :: 0 <= h < |img.entries| && img'.entries[h].Compressed? ==>
      img.entries[h] == img'.entries[h] && Packed(img.entries[h], img.file) == Packed(img.entries[h], img'.file)
  }

  lemma PackedStays(img: Image, f: seq<Byte>, avail: seq<nat>, role: map<int, Role>, c: nat)
    requires Sound(img.cs, img.entries, avail, role, |img.file|) && ChangedIn(img.file, f, c, img.cs)
    requires forall g :: 0 <= g < |img.entries| ==> Clear(img.entries[g], c, img.cs)
    ensures PackedKept(img, img.(file := f))
  {
    forall h | 0 <= h < |img.entries| && img.entries[h].Compressed?
      ensures Packed(img.entries[h], img.file) == Packed(img.entries[h], f)
    {
      var e := img.entries[h];
      assert EntryOk(e, h, img.cs, role, |img.file|) && Clear(e, c, img.cs);
      assert img.file[e.off..e.off + e.len] == f[e.off..e.off + e.len];
    }
  }

  ghost predicate SameView(img: Image, img': Image, dec: Decoder) {
    forall a: nat :: OnDisk(img, a) ==> OnDisk(img', a) && ByteAt(img', dec, a) == ByteAt(img, dec, a)
  }

  /** What any allocation promises: the tables stay, owned clusters stay, the guest sees the same disk. */
  ghost predicate Steady(img: Image, role: map<int, Role>, img': Image, role': map<int, Role>, dec: Decoder) {
    && img' == img.(file := img'.file) && |img.file| <= |img'.file|
    && KeepsOwned(img.cs, role, role', img.file, img'.file)
    && SameView(img, img', dec) && PackedKept(img, img')
  }

  lemma SteadySame(img: Image, role: map<int, Role>, dec: Decoder)
    ensures Steady(img, role, img, role, dec)
  {
  }

  lemma SteadyThen(i0: Image, r0: map<int, Role>, i1: Image, r1: map<int, Role>, i2: Image, r2: map<int, Role>,
                   dec: Decoder)
    requires Steady(i0, r0, i1, r1, dec) && Steady(i1, r1, i2, r2, dec)
    ensures Steady(i0, r0, i2, r2, dec)
  {
    hide ByteAt, Packed;
  }

  lemma UnusedIsSteady(img: Image, avail: seq<nat>, role: map<int, Role>, f: seq<Byte>, c: nat, dec: Decoder)
    requires Sound(img.cs, img.entries, avail, role, |img.file|)
    requires Aligned(c, img.cs) && Unused(img.cs, img.entries, role, c) && ChangedIn(img.file, f, c, img.cs)
    requires c in role ==> role[c].Free?
    ensures Steady(img, role, img.(file := f), role[c := Held], dec)
  {
    forall a: nat | OnDisk(img, a)
      ensures ByteAt(img.(file := f), dec, a) == ByteAt(img, dec, a)
    {
      UnusedIsInvisible(img, f, avail, role, c, dec, a);
    }
    PackedStays(img, f, avail, role, c);
    forall d | d in role && !role[d].Free?
      ensures SameBytes(img.file, f, d, img.cs)
    {
      if d < c {
        ClustersApart(d, c, img.cs);
      } else if c < d {
        ClustersApart(c, d, img.cs);
      }
    }
    hide ByteAt;
  }

  /** A cluster that was free before may pass to the tables. */
  lemma AdoptIsSteady(i0: Image, r0: map<int, Role>, i1: Image, r1: map<int, Role>, c: nat, dec: Decoder)
    requires Steady(i0, r0, i1, r1, dec) && (c in r0 ==> r0[c].Free?)
    ensures Steady(i0, r0, i1, r1[c := Meta], dec)
  {
    hide ByteAt;
  }

  /** The tables may be rewritten in place. */
  lemma MetaIsSteady(img: Image, avail: seq<nat>, role: map<int, Role>, f: seq<Byte>, c: nat, dec: Decoder)
    requires Sound(img.cs, img.entries, avail, role, |img.file|)
    requires c in role && role[c] == Meta && ChangedIn(img.file, f, c, img.cs)
    ensures Steady(img, role, img.(file := f), role, dec)
  {
    forall a: nat | OnDisk(img, a)
      ensures ByteAt(img.(file := f), dec, a) == ByteAt(img, dec, a)
    {
      UnusedIsInvisible(img, f, avail, role, c, dec, a);
    }
    PackedStays(img, f, avail, role, c);
    forall d | d in role && !role[d].Free? && role[d] != Meta
      ensures SameBytes(img.file, f, d, img.cs)
    {
      if d < c {
        ClustersApart(d, c, img.cs);
      } else if c < d {
        ClustersApart(c, d, img.cs);
      }
    }
    hide ByteAt;
  }

  function InitByte(initial: Option<seq<Byte>>, i: nat): Byte
    requires initial.Some? ==> i < |initial.value|
  {
    if initial.Some? then initial.value[i] else 0
  }

  /** Cluster `c` was handed out: it was free or new, and now holds the initial bytes. */
  ghost predicate Given(role: map<int, Role>, role': map<int, Role>, f: seq<Byte>, cs: nat, c: nat,
                        initial: Option<seq<Byte>>)
    requires initial.Some? ==> |initial.value| == cs
  {
    && c in role' && role'[c] == Held
    && (c in role ==> role[c].Free?)
    && c + cs <= |f|
    && forall i :: 0 <= i < cs ==> f[c + i] == InitByte(initial, i)
  }

  /** A cluster just handed out is out of reach of later allocations. */
  lemma GivenStays(r0: map<int, Role>, i1: Image, r1: map<int, Role>, i2: Image, r2: map<int, Role>, dec: Decoder,
                   c: nat, initial: Option<seq<Byte>>)
    requires initial.Some? ==> |initial.value| == i1.cs
    requires Given(r0, r1, i1.file, i1.cs, c, initial) && Steady(i1, r1, i2, r2, dec)
    ensures Given(r0, r2, i2.file, i2.cs, c, initial)
  {
    hide ByteAt;
    assert SameBytes(i1.file, i2.file, c, i1.cs);
  }

  predicate InCluster(a: nat, cs: nat, g: nat) {
    cs > 0 && ClusterOf(a, cs) == g
  }

  /** `d` is what the backing disk shows of guest cluster `g`. */
  ghost predicate IsBacking(d: seq<Byte>, cs: nat, g: nat, back: Option<Back>) {
    |d| == cs && forall a: nat :: InCluster(a, cs, g) ==> d[Within(a, cs)] == BackByte(back, a)
  }

  lemma BackingCluster(d: seq<Byte>, cs: nat, curr: nat, begin: nat, back: Option<Back>)
    requires cs > 0 && |d| == cs && begin == curr - Within(curr, cs)
    requires forall i :: 0 <= i < cs ==> d[i] == BackByte(back, begin + i)
    ensures IsBacking(d, cs, ClusterOf(curr, cs), back)
  {
    hide BackByte;
    forall a: nat | InCluster(a, cs, ClusterOf(curr, cs))
      ensures d[Within(a, cs)] == BackByte(back, a)
    {
      SameCluster(cs, curr, a);
      assert a == begin + Within(a, cs);
    }
  }

  // ---------------------------------------------------------------- one guest cluster changes

  /** No entry changes but `g`'s, and none that points at a cluster of its own. */
  predicate EntriesKept(es: seq<Entry>, es': seq<Entry>, g: nat) {
    && |es'| == |es|
    && forall h :: 0 <= h < |es| && (h != g || es[h].Std?) ==> es'[h] == es[h]
  }

  /** Outside guest cluster `g` the guest sees the same disk. */
  ghost predicate OthersSame(img: Image, img': Image, dec: Decoder, g: nat) {
    && img'.cs == img.cs && EntriesKept(img.entries, img'.entries, g) && img'.back == img.back && PackedKept(img, img')
    && forall a: nat :: OnDisk(img, a) && ClusterOf(a, img.cs) != g ==> ByteAt(img', dec, a) == ByteAt(img, dec, a)
  }

  lemma SteadyIsSame(img: Image, role: map<int, Role>, img': Image, role': map<int, Role>, dec: Decoder, g: nat)
    requires Steady(img, role, img', role', dec)
    ensures OthersSame(img, img', dec, g)
  {
    hide ByteAt;
  }

  lemma SteadyKeepsView(img: Image, role: map<int, Role>, img': Image, role': map<int, Role>, dec: Decoder)
    requires Steady(img, role, img', role', dec)
    ensures SameView(img, img', dec) && img'.entries == img.entries && |img.file| <= |img'.file|
  {
    hide ByteAt;
  }

  lemma OthersKeepsEntries(img: Image, img': Image, dec: Decoder, g: nat)
    requires OthersSame(img, img', dec, g)
    ensures EntriesKept(img.entries, img'.entries, g) && img'.cs == img.cs && img'.back == img.back
    ensures PackedKept(img, img')
  {
    hide ByteAt, Packed;
  }

  lemma OthersThen(i0: Image, i1: Image, i2: Image, dec: Decoder, g: nat)
    requires OthersSame(i0, i1, dec, g) && OthersSame(i1, i2, dec, g)
    ensures OthersSame(i0, i2, dec, g)
  {
    hide ByteAt;
  }

  lemma ViewThen(i0: Image, i1: Image, i2: Image, dec: Decoder)
    requires SameView(i0, i1, dec) && SameView(i1, i2, dec)
    ensures SameView(i0, i2, dec)
  {
    hide ByteAt;
  }

  /** Pointing entry `g` at cluster `c` changes only guest cluster `g`. */
  lemma RedirectOthers(img: Image, g: nat, c: nat, dec: Decoder)
    requires g < |img.entries| && !img.entries[g].Std?
    ensures OthersSame(img, img.(entries := img.entries[g := Std(c)]), dec, g)
  {
  }

  /** Guest cluster `g` shows the initial bytes. */
  ghost predicate Shows(img: Image, dec: Decoder, g: nat, initial: Option<seq<Byte>>)
    requires initial.Some? ==> |initial.value| == img.cs
  {
    forall a: nat :: OnDisk(img, a) && InCluster(a, img.cs, g) ==>
      ByteAt(img, dec, a) == InitByte(initial, Within(a, img.cs))
  }

  /** It changes nothing at all when the cluster already holds what the guest sees there. */
  lemma RedirectSame(img: Image, g: nat, c: nat, dec: Decoder, initial: Option<seq<Byte>>)
    requires img.cs > 0 && g < |img.entries| && Aligned(c, img.cs) && c + img.cs <= |img.file|
    requires initial.Some? ==> |initial.value| == img.cs
    requires forall i :: 0 <= i < img.cs ==> img.file[c + i] == InitByte(initial, i)
    requires Shows(img, dec, g, initial)
    ensures SameView(img, img.(entries := img.entries[g := Std(c)]), dec)
  {
  }

  /** An unallocated cluster shows its backing bytes, or zeros without a backing file. */
  lemma UnallocatedShows(img: Image, dec: Decoder, g: nat, initial: Option<seq<Byte>>)
    requires g < |img.entries| && HasNoCluster(img.entries[g])
    requires if initial.Some? then IsBacking(initial.value, img.cs, g, img.back) else img.back.None?
    ensures Shows(img, dec, g, initial)
  {
  }

  lemma ShowsStays(img: Image, img': Image, dec: Decoder, g: nat, initial: Option<seq<Byte>>)
    requires SameView(img, img', dec) && img'.cs == img.cs && |img'.entries| == |img.entries| &&
             (initial.Some? ==> |initial.value| == img.cs)
    requires Shows(img, dec, g, initial)
    ensures Shows(img', dec, g, initial)
  {
    hide ByteAt;
  }

  /** Replacing compressed data by the cluster it decompresses to keeps the view. */
  lemma InflatedSame(img: Image, img': Image, dec: Decoder, g: nat, c: nat, d: seq<Byte>)
    requires OthersSame(img, img', dec, g) && img.cs > 0 && g < |img.entries|
    requires img.entries[g].Compressed?
    requires Inflate(dec, img.file, img.entries[g].off, img.entries[g].len, img.cs) == Some(d)
    requires img'.entries[g] == Std(c) && Aligned(c, img.cs) && c + img.cs <= |img'.file|
    requires forall i :: 0 <= i < img.cs ==> img'.file[c + i] == d[i]
    ensures SameView(img, img', dec)
  {
    forall a: nat | OnDisk(img, a)
      ensures ByteAt(img', dec, a) == ByteAt(img, dec, a)
    {
      if ClusterOf(a, img.cs) == g {
        assert ByteAt(img, dec, a) == d[Within(a, img.cs)];
        assert ByteAt(img', dec, a) == img'.file[c + Within(a, img.cs)];
      }
    }
    hide ByteAt;
  }

  /** Only part of a data cluster is written: the guest sees exactly that part change. */
  lemma ClusterWrite(img: Image, f: seq<Byte>, avail: seq<nat>, role: map<int, Role>, g: nat, c: nat, dec: Decoder)
    requires Sound(img.cs, img.entries, avail, role, |img.file|)
    requires g < |img.entries| && img.entries[g] == Std(c) && Aligned(c, img.cs) && ChangedIn(img.file, f, c, img.cs)
    ensures OthersSame(img, img.(file := f), dec, g)
  {
    forall a: nat | OnDisk(img, a) && ClusterOf(a, img.cs) != g
      ensures ByteAt(img.(file := f), dec, a) == ByteAt(img, dec, a)
    {
      OtherClustersStay(img, f, avail, role, g, c, dec, a);
    }
    assert EntryOk(img.entries[g], g, img.cs, role, |img.file|);
    PackedStays(img, f, avail, role, c);
    hide ByteAt;
  }

  // ---------------------------------------------------------------- guest writes

  /** The disk with `n` bytes of `data` laid over it from `address` on. */
  ghost predicate Patched(img: Image, img': Image, dec: Decoder, address: nat, data: seq<Byte>, n: nat)
    requires n <= |data|
  {
    && img'.cs == img.cs && |img'.entries| == |img.entries| && img'.back == img.back
    && forall a: nat :: OnDisk(img, a)
                    ==> ByteAt(img', dec, a) == if address <= a < address + n then data[a - address]
                      else ByteAt(img, dec, a)
  }

  // ---------------------------------------------------------------- writes that fail

  /** Guest cluster `g` is as it was up to byte `n` of it and zero from there on; nothing else changed. */
  ghost predicate CutOff(img: Image, img': Image, dec: Decoder, g: nat, n: nat) {
    && OthersSame(img, img', dec, g)
    && forall a: nat :: OnDisk(img, a) && InCluster(a, img.cs, g) ==>
         ByteAt(img', dec, a) == if Within(a, img.cs) < n then ByteAt(img, dec, a) else 0
  }

  /** So a byte is lost exactly when it lies past the cut and was not zero. */
  lemma CutOffLoses(img: Image, img': Image, dec: Decoder, g: nat, n: nat, a: nat)
    requires CutOff(img, img', dec, g, n) && OnDisk(img, a)
    ensures ByteAt(img', dec, a) != ByteAt(img, dec, a) <==>
              ClusterOf(a, img.cs) == g && n <= Within(a, img.cs) && ByteAt(img, dec, a) != 0
  {
    hide ByteAt;
  }

  lemma CutOffThen(i0: Image, i1: Image, i2: Image, dec: Decoder, g: nat, n: nat)
    requires CutOff(i0, i1, dec, g, n) && OthersSame(i1, i2, dec, g) && SameView(i1, i2, dec)
    ensures CutOff(i0, i2, dec, g, n)
  {
    hide ByteAt;
    OthersThen(i0, i1, i2, dec, g);
  }

  lemma ThenCutOff(i0: Image, i1: Image, i2: Image, dec: Decoder, g: nat, n: nat)
    requires OthersSame(i0, i1, dec, g) && SameView(i0, i1, dec) && CutOff(i1, i2, dec, g, n)
    ensures CutOff(i0, i2, dec, g, n)
  {
    hide ByteAt;
    OthersThen(i0, i1, i2, dec, g);
  }

  predicate HasNoCluster(e: Entry) {
    e.Empty? || e.Zero?
  }

  /**
    After a guest cluster was given a cluster of its own the guest sees what it saw; only an unallocated
    one that is about to be written `whole` may stand empty, its backing bytes not copied.
   */
  ghost predicate Settled(img: Image, img': Image, dec: Decoder, g: nat, whole: bool) {
    || SameView(img, img', dec)
    || (whole && g < |img.entries| && HasNoCluster(img.entries[g]) && img.back.Some? && CutOff(img, img', dec, g, 0))
  }

  /** When that failed, a compressed cluster may be left cut off as well. */
  ghost predicate Unsettled(img: Image, img': Image, dec: Decoder, g: nat, whole: bool) {
    || Settled(img, img', dec, g, whole)
    || (g < |img.entries| && img.entries[g].Compressed? && exists n: nat :: CutOff(img, img', dec, g, n))
  }

  lemma SettledThen(i0: Image, i1: Image, i2: Image, dec: Decoder, g: nat, whole: bool)
    requires Settled(i0, i1, dec, g, whole) && OthersSame(i1, i2, dec, g) && SameView(i1, i2, dec)
    ensures Settled(i0, i2, dec, g, whole)
  {
    hide SameView, CutOff, OthersSame;
    if SameView(i0, i1, dec) {
      ViewThen(i0, i1, i2, dec);
    } else {
      CutOffThen(i0, i1, i2, dec, g, 0);
    }
  }

  lemma ThenUnsettled(i0: Image, i1: Image, i2: Image, dec: Decoder, g: nat, whole: bool)
    requires OthersSame(i0, i1, dec, g) && SameView(i0, i1, dec) && i1.entries == i0.entries
    requires Unsettled(i1, i2, dec, g, whole)
    ensures Unsettled(i0, i2, dec, g, whole)
  {
    hide SameView, CutOff;
    if SameView(i1, i2, dec) {
      ViewThen(i0, i1, i2, dec);
    } else {
      var n: nat :| CutOff(i1, i2, dec, g, n);
      if whole && HasNoCluster(i0.entries[g]) && CutOff(i1, i2, dec, g, 0) {
        ThenCutOff(i0, i1, i2, dec, g, 0);
      } else {
        ThenCutOff(i0, i1, i2, dec, g, n);
      }
    }
  }

  lemma ThenSettled(i0: Image, i1: Image, i2: Image, dec: Decoder, g: nat, whole: bool)
    requires OthersSame(i0, i1, dec, g) && SameView(i0, i1, dec) && i1.entries == i0.entries
    requires Settled(i1, i2, dec, g, whole)
    ensures Settled(i0, i2, dec, g, whole)
  {
    hide SameView, CutOff;
    if SameView(i1, i2, dec) {
      ViewThen(i0, i1, i2, dec);
    } else {
      ThenCutOff(i0, i1, i2, dec, g, 0);
    }
  }

  /** Pointing an entry at a cluster of zeros cuts the guest cluster off at its start. */
  lemma RedirectCutsOff(img: Image, g: nat, c: nat, dec: Decoder)
    requires img.cs > 0 && g < |img.entries| && !img.entries[g].Std? && Aligned(c, img.cs) && c + img.cs <= |img.file|
    requires forall i :: 0 <= i < img.cs ==> img.file[c + i] == InitByte(None, i)
    ensures CutOff(img, img.(entries := img.entries[g := Std(c)]), dec, g, 0)
  {
    RedirectOthers(img, g, c, dec);
    forall a: nat | OnDisk(img, a) && InCluster(a, img.cs, g)
      ensures ByteAt(img.(entries := img.entries[g := Std(c)]), dec, a) == 0
    {
      assert img.file[c + Within(a, img.cs)] == InitByte(None, Within(a, img.cs));
    }
    hide ByteAt;
  }

  /** Decompressed bytes written over those zeros, as far as the write got, move the cut. */
  lemma InflatedUpTo(img: Image, img': Image, dec: Decoder, g: nat, c: nat, d: seq<Byte>, n: nat)
    requires OthersSame(img, img', dec, g) && img.cs > 0 && g < |img.entries| && img.entries[g].Compressed?
    requires Inflate(dec, img.file, img.entries[g].off, img.entries[g].len, img.cs) == Some(d)
    requires img'.entries[g] == Std(c) && Aligned(c, img.cs) && c + img.cs <= |img'.file|
    requires forall j :: c <= j < c + img.cs ==> img'.file[j] == if j < c + n then d[j - c] else 0
    ensures CutOff(img, img', dec, g, n)
  {
    forall a: nat | OnDisk(img, a) && InCluster(a, img.cs, g)
      ensures ByteAt(img', dec, a) == if Within(a, img.cs) < n then ByteAt(img, dec, a) else 0
    {
      assert ByteAt(img, dec, a) == d[Within(a, img.cs)];
      assert ByteAt(img', dec, a) == img'.file[c + Within(a, img.cs)];
    }
    hide ByteAt;
  }

  /** What `map_write` has done when writing the decompressed cluster stops after `n` bytes. */
  function TornInflate(img: Image, g: nat, d: seq<Byte>, n: nat): Image
    requires g < |img.entries| && n <= |d| == img.cs
  {
    img.(entries := img.entries[g := Std(|img.file|)], file := img.file + d[..n] + seq(img.cs - n, _ => 0))
  }

  /** Whatever the image, the guest then sees the cluster cut off after those `n` bytes. */
  lemma TornInflateCutsOff(img: Image, avail: seq<nat>, role: map<int, Role>, dec: Decoder, g: nat, d: seq<Byte>,
                           n: nat)
    requires Sound(img.cs, img.entries, avail, role, |img.file|) && Aligned(|img.file|, img.cs)
    requires g < |img.entries| && img.entries[g].Compressed? && n <= img.cs
    requires Inflate(dec, img.file, img.entries[g].off, img.entries[g].len, img.cs) == Some(d)
    ensures CutOff(img, TornInflate(img, g, d, n), dec, g, n)
  {
    var c, torn := |img.file|, TornInflate(img, g, d, n);
    var grown := img.(file := torn.file);
    forall a: nat | OnDisk(img, a)
      ensures ByteAt(grown, dec, a) == ByteAt(img, dec, a)
    {
      UnusedIsInvisible(img, torn.file, avail, role, c, dec, a);
    }
    PackedStays(img, torn.file, avail, role, c);
    assert OthersSame(img, grown, dec, g);
    RedirectOthers(grown, g, c, dec);
    OthersThen(img, grown, torn, dec, g);
    InflatedUpTo(img, torn, dec, g, c, d, n);
  }

  /** Byte `a` of guest cluster `g`, outside the range, is zero. */
  predicate ZeroOutside(img: Image, dec: Decoder, g: nat, address: nat, len: nat, a: nat) {
    OnDisk(img, a) && InCluster(a, img.cs, g) && Outside(a, address, len) ==> ByteAt(img, dec, a) == 0
  }

  /**
    Wherever the write of the decompressed cluster stops, the disk outside the range is as it was: this
    holds exactly when the cluster shows nothing but zeros outside the range.
   */
  lemma TornInflateHiddenIff(img: Image, avail: seq<nat>, role: map<int, Role>, dec: Decoder, g: nat, d: seq<Byte>,
                             address: nat, len: nat)
    requires Sound(img.cs, img.entries, avail, role, |img.file|) && Aligned(|img.file|, img.cs)
    requires g < |img.entries| && img.entries[g].Compressed?
    requires Inflate(dec, img.file, img.entries[g].off, img.entries[g].len, img.cs) == Some(d)
    ensures (forall n: nat :: n <= img.cs ==> OutsideSame(img, TornInflate(img, g, d, n), dec, address, len)) <==>
              forall a: nat :: ZeroOutside(img, dec, g, address, len, a)
  {
    forall n: nat | n <= img.cs
      ensures CutOff(img, TornInflate(img, g, d, n), dec, g, n)
    {
      TornInflateCutsOff(img, avail, role, dec, g, d, n);
    }
    hide TornInflate, ByteAt, Inflate, Sound;
    if forall n: nat :: n <= img.cs ==> OutsideSame(img, TornInflate(img, g, d, n), dec, address, len) {
      var none: nat := 0;
      assert OutsideSame(img, TornInflate(img, g, d, none), dec, address, len);
      forall a: nat
        ensures ZeroOutside(img, dec, g, address, len, a)
      {
        if OnDisk(img, a) {
          CutOffLoses(img, TornInflate(img, g, d, none), dec, g, none, a);
        }
      }
    } else {
      var n: nat :| n <= img.cs && !OutsideSame(img, TornInflate(img, g, d, n), dec, address, len);
      CutOffShape(img, TornInflate(img, g, d, n), dec, g, n);
      var a: nat :| OnDisk(img, a) && Outside(a, address, len)
                    && ByteAt(TornInflate(img, g, d, n), dec, a) != ByteAt(img, dec, a);
      CutOffLoses(img, TornInflate(img, g, d, n), dec, g, n, a);
      assert !ZeroOutside(img, dec, g, address, len, a);
    }
  }

  lemma CutOffShape(img: Image, img': Image, dec: Decoder, g: nat, n: nat)
    requires CutOff(img, img', dec, g, n)
    ensures forall a: nat :: OnDisk(img, a) ==> OnDisk(img', a)
  {
    hide ByteAt;
  }

  /**
    A guest write of one byte at address 0 that fails there loses the byte at address 1: a two-byte
    compressed cluster that decompresses to 7, 7 is replaced by an empty one before it is written.
   */
  lemma TornInflateLosesBytes()
    ensures var img := Image(2, [Compressed(0, 1)], [9, 0], None);
            var dec: Decoder := map[[9] := [7, 7]];
            && Sound(2, img.entries, [], map[], 2) && Inflate(dec, img.file, 0, 1, 2) == Some([7, 7])
            && CutOff(img, TornInflate(img, 0, [7, 7], 0), dec, 0, 0)
            && OnDisk(img, 1) && ByteAt(img, dec, 1) == 7 && ByteAt(TornInflate(img, 0, [7, 7], 0), dec, 1) == 0
  {
    var img := Image(2, [Compressed(0, 1)], [9, 0], None);
    var dec: Decoder := map[[9] := [7, 7]];
    assert img.file[0..1] == [9];
    TornInflateCutsOff(img, [], map[], dec, 0, [7, 7], 0);
    CutOffLoses(img, TornInflate(img, 0, [7, 7], 0), dec, 0, 0, 1);
  }

  /** The first `n` bytes of a cluster written whole are in place, the rest of it is zero. */
  ghost predicate Begun(img: Image, img': Image, dec: Decoder, g: nat, data: seq<Byte>, n: nat)
    requires n <= |data|
  {
    && OthersSame(img, img', dec, g)
    && forall a: nat :: OnDisk(img, a) && InCluster(a, img.cs, g) ==>
         ByteAt(img', dec, a) == if Within(a, img.cs) < n then data[Within(a, img.cs)] else 0
  }

  /** How a failed write of the chunk `data` at `curr` can leave the disk. */
  ghost predicate Torn(img: Image, img': Image, dec: Decoder, curr: nat, data: seq<Byte>)
    requires img.cs > 0
  {
    var g := ClusterOf(curr, img.cs);
    || (exists n: nat :: n <= |data| && Patched(img, img', dec, curr, data, n))
    || (g < |img.entries| && HasNoCluster(img.entries[g]) && img.back.Some? && |data| == img.cs
        && exists n: nat :: n <= |data| && Begun(img, img', dec, g, data, n))
    || (g < |img.entries| && img.entries[g].Compressed? && exists n: nat :: CutOff(img, img', dec, g, n))
  }

  predicate Outside(a: nat, address: nat, len: nat) {
    !(address <= a < address + len)
  }

  /** Outside the range the guest sees the same disk. */
  ghost predicate OutsideSame(img: Image, img': Image, dec: Decoder, address: nat, len: nat) {
    forall a: nat :: OnDisk(img, a) && Outside(a, address, len) ==>
      OnDisk(img', a) && ByteAt(img', dec, a) == ByteAt(img, dec, a)
  }

  /** Outside the range, guest cluster `g` is zero from some byte on; before that and elsewhere nothing changed. */
  ghost predicate TailLost(img: Image, img': Image, dec: Decoder, address: nat, len: nat, g: nat) {
    exists n: nat :: ZeroFrom(img, img', dec, address, len, g, n)
  }

  ghost predicate ZeroFrom(img: Image, img': Image, dec: Decoder, address: nat, len: nat, g: nat, n: nat) {
    forall a: nat :: OnDisk(img, a) && Outside(a, address, len) ==>
      && OnDisk(img', a)
      && ByteAt(img', dec, a) == if ClusterOf(a, img.cs) == g && n <= Within(a, img.cs) then 0 else ByteAt(img, dec, a)
  }

  /** A failed write that got as far as `address + n` and no further than `address + len`. */
  ghost predicate FailedAt(img: Image, img': Image, dec: Decoder, address: nat, data: seq<Byte>, n: nat)
    requires n <= |data| && img.cs > 0
  {
    var g := ClusterOf(address + n, img.cs);
    && PatchedUpTo(img, img', dec, address, data, n)
    && if g < |img.entries| && img.entries[g].Compressed? then TailLost(img, img', dec, address, |data|, g)
       else OutsideSame(img, img', dec, address, |data|)
  }

  /** A write that failed after `n` bytes: beyond those it touched at most the guest cluster it failed in. */
  ghost predicate PatchedUpTo(img: Image, img': Image, dec: Decoder, address: nat, data: seq<Byte>, n: nat)
    requires n <= |data|
  {
    && img'.cs == img.cs && |img'.entries| == |img.entries| && img'.back == img.back
    && forall a: nat :: OnDisk(img, a) && ClusterOf(a, img.cs) != ClusterOf((address + n), img.cs)
                    ==> ByteAt(img', dec, a) == if address <= a < address + n then data[a - address]
                      else ByteAt(img, dec, a)
  }

  /** The whole range lies on the disk. */
  ghost predicate RangeOnDisk(img: Image, address: nat, n: nat) {
    forall a: nat :: address <= a < address + n ==> OnDisk(img, a)
  }

  /** A chunk written after the first `n` bytes, next to them. */
  lemma PatchThen(i0: Image, i1: Image, i2: Image, dec: Decoder, address: nat, data: seq<Byte>, n: nat,
                  chunk: seq<Byte>)
    requires n + |chunk| <= |data| && (forall i :: 0 <= i < |chunk| ==> chunk[i] == data[n + i])
    requires Patched(i0, i1, dec, address, data, n) && Patched(i1, i2, dec, address + n, chunk, |chunk|)
    ensures Patched(i0, i2, dec, address, data, n + |chunk|)
  {
    hide ByteAt;
  }

  lemma PatchFails(i0: Image, i1: Image, i2: Image, dec: Decoder, address: nat, data: seq<Byte>, n: nat)
    requires n <= |data| && i0.cs > 0
    requires Patched(i0, i1, dec, address, data, n) && OthersSame(i1, i2, dec, ClusterOf((address + n), i0.cs))
    ensures PatchedUpTo(i0, i2, dec, address, data, n)
  {
    hide ByteAt;
  }

  lemma PatchNothing(img: Image, dec: Decoder, address: nat, data: seq<Byte>)
    ensures Patched(img, img, dec, address, data, 0)
  {
  }

  lemma RangeThen(img: Image, address: nat, n: nat, count: nat)
    requires img.cs > 0 && RangeOnDisk(img, address, n)
    requires Within((address + n), img.cs) + count <= img.cs && OnDisk(img, address + n)
    ensures RangeOnDisk(img, address, n + count)
  {
    forall a: nat | address <= a < address + n + count
      ensures OnDisk(img, a)
    {
      if a >= address + n {
        InChunk(img.cs, address + n, count, a);
      }
    }
  }

  lemma PatchedIsOutsideSame(img: Image, img': Image, dec: Decoder, curr: nat, data: seq<Byte>, n: nat)
    requires n <= |data| && Patched(img, img', dec, curr, data, n)
    ensures OutsideSame(img, img', dec, curr, |data|)
  {
    hide ByteAt;
  }

  lemma BegunIsOutsideSame(img: Image, img': Image, dec: Decoder, curr: nat, data: seq<Byte>, n: nat)
    requires n <= |data| == img.cs && img.cs > 0 && Within(curr, img.cs) == 0
    requires Begun(img, img', dec, ClusterOf(curr, img.cs), data, n)
    ensures OutsideSame(img, img', dec, curr, |data|)
  {
    hide ByteAt;
    forall a: nat | OnDisk(img, a) && Outside(a, curr, |data|)
      ensures OnDisk(img', a) && ByteAt(img', dec, a) == ByteAt(img, dec, a)
    {
      if ClusterOf(a, img.cs) == ClusterOf(curr, img.cs) {
        SameCluster(img.cs, curr, a);
      }
    }
  }

  lemma CutOffIsTailLost(img: Image, img': Image, dec: Decoder, curr: nat, len: nat, g: nat, n: nat)
    requires CutOff(img, img', dec, g, n)
    ensures TailLost(img, img', dec, curr, len, g)
  {
    hide ByteAt;
    assert ZeroFrom(img, img', dec, curr, len, g, n);
  }

  lemma SameIsTailLost(img: Image, img': Image, dec: Decoder, address: nat, len: nat, g: nat)
    requires OutsideSame(img, img', dec, address, len)
    ensures TailLost(img, img', dec, address, len, g)
  {
    hide ByteAt;
    assert ZeroFrom(img, img', dec, address, len, g, img.cs);
  }

  /** A torn chunk spares every byte around it, unless its cluster was compressed. */
  lemma TornSpares(img: Image, img': Image, dec: Decoder, curr: nat, data: seq<Byte>)
    requires img.cs > 0 && Within(curr, img.cs) + |data| <= img.cs && Torn(img, img', dec, curr, data)
    ensures var g := ClusterOf(curr, img.cs);
            if g < |img.entries| && img.entries[g].Compressed? then TailLost(img, img', dec, curr, |data|, g)
            else OutsideSame(img, img', dec, curr, |data|)
  {
    hide Patched, CutOff, Begun, OutsideSame, TailLost, Within;
    var g := ClusterOf(curr, img.cs);
    if n: nat :| n <= |data| && Patched(img, img', dec, curr, data, n) {
      PatchedIsOutsideSame(img, img', dec, curr, data, n);
      SameIsTailLost(img, img', dec, curr, |data|, g);
    } else if img.entries[g].Compressed? {
      var n: nat :| CutOff(img, img', dec, g, n);
      CutOffIsTailLost(img, img', dec, curr, |data|, g, n);
    } else {
      var n: nat :| n <= |data| && Begun(img, img', dec, g, data, n);
      BegunIsOutsideSame(img, img', dec, curr, data, n);
    }
  }

  lemma OutsideThen(i0: Image, i1: Image, i2: Image, dec: Decoder, address: nat, data: seq<Byte>, n: nat, count: nat)
    requires n + count <= |data| && Patched(i0, i1, dec, address, data, n)
    requires OutsideSame(i1, i2, dec, address + n, count)
    ensures OutsideSame(i0, i2, dec, address, |data|)
  {
    hide ByteAt;
  }

  lemma TailThen(i0: Image, i1: Image, i2: Image, dec: Decoder, address: nat, data: seq<Byte>, n: nat, count: nat,
                 g: nat)
    requires n + count <= |data| && Patched(i0, i1, dec, address, data, n)
    requires TailLost(i1, i2, dec, address + n, count, g)
    ensures TailLost(i0, i2, dec, address, |data|, g)
  {
    hide ByteAt;
    var k: nat :| ZeroFrom(i1, i2, dec, address + n, count, g, k);
    assert ZeroFrom(i0, i2, dec, address, |data|, g, k);
  }

  /** A write whose next chunk tears after `n` bytes went through. */
  lemma TornFails(i0: Image, i1: Image, i2: Image, dec: Decoder, address: nat, data: seq<Byte>, n: nat, count: nat)
    requires i0.cs > 0 && n + count <= |data| && Within(address + n, i0.cs) + count <= i0.cs
    requires Patched(i0, i1, dec, address, data, n) && i1.cs == i0.cs && |i1.entries| == |i0.entries|
    requires var g := ClusterOf(address + n, i0.cs);
             OthersSame(i1, i2, dec, g) && (g < |i0.entries| ==> i1.entries[g] == i0.entries[g])
    requires Torn(i1, i2, dec, address + n, data[n..n + count])
    ensures FailedAt(i0, i2, dec, address, data, n)
  {
    hide Patched, PatchedUpTo, OthersSame, Torn, OutsideSame, TailLost, Within;
    var g := ClusterOf(address + n, i0.cs);
    PatchFails(i0, i1, i2, dec, address, data, n);
    TornSpares(i1, i2, dec, address + n, data[n..n + count]);
    if g < |i0.entries| && i0.entries[g].Compressed? {
      TailThen(i0, i1, i2, dec, address, data, n, count, g);
    } else {
      OutsideThen(i0, i1, i2, dec, address, data, n, count);
    }
  }

  /** A chunk ends in its cluster or at its end. */
  lemma NextCluster(cs: nat, curr: nat, count: nat)
    requires cs > 0 && Within(curr, cs) + count == cs
    ensures ClusterOf(curr + count, cs) == ClusterOf(curr, cs) + 1
  {
    ModUnique(curr + count, cs, ClusterOf(curr, cs) + 1, 0);
  }

  /** A chunk that did not go out entirely, written into a cluster that stood empty. */
  lemma ChunkBegins(i0: Image, i1: Image, f: seq<Byte>, dec: Decoder, curr: nat, c: nat, data: seq<Byte>, n: nat)
    requires i0.cs > 0 && OnDisk(i0, curr) && Within(curr, i0.cs) == 0 && n <= |data| == i0.cs
    requires CutOff(i0, i1, dec, ClusterOf(curr, i0.cs), 0)
    requires OthersSame(i1, i1.(file := f), dec, ClusterOf(curr, i0.cs))
    requires i1.entries[ClusterOf(curr, i0.cs)] == Std(c) && Aligned(c, i0.cs) && c + i0.cs <= |i1.file| <= |f|
    requires forall j :: c <= j < c + i0.cs ==> f[j] == if j < c + n then data[j - c] else i1.file[j]
    ensures Begun(i0, i1.(file := f), dec, ClusterOf(curr, i0.cs), data, n)
  {
    var i2 := i1.(file := f);
    var g := ClusterOf(curr, i0.cs);
    forall a: nat | OnDisk(i0, a) && InCluster(a, i0.cs, g)
      ensures ByteAt(i2, dec, a) == if Within(a, i0.cs) < n then data[Within(a, i0.cs)] else 0
    {
      assert ByteAt(i2, dec, a) == f[c + Within(a, i0.cs)];
      assert ByteAt(i1, dec, a) == i1.file[c + Within(a, i0.cs)];
    }
    hide ByteAt;
    OthersThen(i0, i1, i2, dec, g);
  }

  /** Writing a chunk into its data cluster, once the other guest clusters are settled, patches the disk. */
  lemma ChunkPatches(i0: Image, i1: Image, f: seq<Byte>, dec: Decoder, curr: nat, c: nat, data: seq<Byte>, n: nat)
    requires i0.cs > 0 && OnDisk(i0, curr) && n <= |data| && Within(curr, i0.cs) + |data| <= i0.cs
    requires OthersSame(i0, i1, dec, ClusterOf(curr, i0.cs)) &&
             OthersSame(i1, i1.(file := f), dec, ClusterOf(curr, i0.cs))
    requires i1.entries[ClusterOf(curr, i0.cs)] == Std(c) && Aligned(c, i0.cs) && c + i0.cs <= |i1.file| <= |f|
    requires var h := c + Within(curr, i0.cs);
             forall j :: c <= j < c + i0.cs ==> f[j] == if h <= j < h + n then data[j - h] else i1.file[j]
    requires SameView(i0, i1, dec) || n == i0.cs
    ensures Patched(i0, i1.(file := f), dec, curr, data, n)
  {
    var i2 := i1.(file := f);
    forall a: nat | OnDisk(i0, a)
      ensures ByteAt(i2, dec, a) == if curr <= a < curr + n then data[a - curr] else ByteAt(i0, dec, a)
    {
      if ClusterOf(a, i0.cs) == ClusterOf(curr, i0.cs) {
        SameCluster(i0.cs, curr, a);
        assert ByteAt(i2, dec, a) == f[c + Within(a, i0.cs)];
        assert ByteAt(i1, dec, a) == i1.file[c + Within(a, i0.cs)];
      } else if curr <= a < curr + n {
        InChunk(i0.cs, curr, n, a);
      }
    }
    hide ByteAt;
  }

  lemma SameIsPatched(img: Image, img': Image, dec: Decoder, g: nat, curr: nat, data: seq<Byte>)
    requires OthersSame(img, img', dec, g) && SameView(img, img', dec)
    ensures Patched(img, img', dec, curr, data, 0)
  {
    hide ByteAt;
  }

  /** A chunk whose guest cluster could not be had is torn, with nothing of it written. */
  lemma UnsettledIsTorn(img: Image, img': Image, dec: Decoder, curr: nat, data: seq<Byte>, whole: bool)
    requires img.cs > 0 && (whole && img.back.Some? ==> |data| == img.cs)
    requires var g := ClusterOf(curr, img.cs);
             OthersSame(img, img', dec, g) && Unsettled(img, img', dec, g, whole)
    ensures Torn(img, img', dec, curr, data)
  {
    hide ByteAt, OthersSame, SameView, Patched;
    var g := ClusterOf(curr, img.cs);
    if SameView(img, img', dec) {
      SameIsPatched(img, img', dec, g, curr, data);
    } else if img.entries[g].Compressed? {
    } else {
      assert Begun(img, img', dec, g, data, 0);
    }
  }

  /** Entries from `g` on are as they were. */
  predicate KeptFrom(es: seq<Entry>, es': seq<Entry>, g: nat) {
    |es'| == |es| && forall h :: g <= h < |es| ==> es'[h] == es[h]
  }

  /** An entry that points at a cluster of its own stays. */
  predicate StdKept(es: seq<Entry>, es': seq<Entry>) {
    |es'| == |es| && forall h :: 0 <= h < |es| && es[h].Std? ==> es'[h] == es[h]
  }

  lemma KeptThen(e0: seq<Entry>, e1: seq<Entry>, e2: seq<Entry>, g: nat)
    requires StdKept(e0, e1) && EntriesKept(e1, e2, g)
    ensures StdKept(e0, e2)
    ensures KeptFrom(e0, e1, g) ==> KeptFrom(e0, e2, g + 1)
  {
  }

  datatype Write = Write(address: nat, data: seq<Byte>)

  /** Byte `a` after the first `n` writes, each laid over the ones before it. */
  function Final(ws: seq<Write>, n: nat, a: nat, was: Byte): Byte
    requires n <= |ws|
  {
    if n == 0 then was
    else
      var w := ws[n - 1];
      if w.address <= a < w.address + |w.data| then w.data[a - w.address] else Final(ws, n - 1, a, was)
  }

  ghost predicate WriteRun(imgs: seq<Image>, dec: Decoder, ws: seq<Write>) {
    && |imgs| == |ws| + 1
    && forall k :: 0 <= k < |ws| ==> Patched(imgs[k], imgs[k + 1], dec, ws[k].address, ws[k].data, |ws[k].data|)
  }

  /** After any run of guest writes, every byte is the last one written to it, or what it was before the run. */
  lemma {:induction false} LastWriteWins(imgs: seq<Image>, dec: Decoder, ws: seq<Write>, n: nat, a: nat)
    requires WriteRun(imgs, dec, ws) && n <= |ws| && OnDisk(imgs[0], a)
    ensures OnDisk(imgs[n], a) && ByteAt(imgs[n], dec, a) == Final(ws, n, a, ByteAt(imgs[0], dec, a))
    decreases n
  {
    hide ByteAt;
    if n > 0 {
      LastWriteWins(imgs, dec, ws, n - 1, a);
      assert Patched(imgs[n - 1], imgs[n], dec, ws[n - 1].address, ws[n - 1].data, |ws[n - 1].data|);
    }
  }
}
