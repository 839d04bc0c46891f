/**
  pages.bin: an open-addressed table of page slots keyed by a 64-bit content hash, written by
  split_snapshot and read by query_snapshot and by the kernel driver's fault handler.
 */
module PageStore {
  import opened Base

  const PAGE_SIZE: nat := 4096
  const HASH_MODULUS: nat := 4096
  const MAX_PROBE_COUNT: nat := 64

  type Hash = h: nat | h < 0x1_0000_0000_0000_0000
  type Page = p: seq<Byte> | |p| == PAGE_SIZE witness seq(PAGE_SIZE, i => 0)

  datatype Slot = Slot(header: Hash, data: Page)

  /** The file's slots up to its end; a slot skipped by a later write is a hole, read back as zeros. */
  type Table = t: seq<Slot> | |t| <= HASH_MODULUS

  const HOLE: Slot := Slot(0, seq(PAGE_SIZE, i => 0))

  /** The header at slot `i`; past the end of the file the tools take a short read as an empty slot. */
  function Header(t: Table, i: nat): Hash {
    if i < |t| then t[i].header else 0
  }

  /** Writing header and page at slot `i`, extending the file with a hole when `i` lies past its end. */
  function Put(t: Table, i: nat, s: Slot): (r: Table)
    requires i < HASH_MODULUS
    ensures i < |r| && r[i] == s && |t| <= |r|
    ensures forall j: nat :: j != i ==> Header(r, j) == Header(t, j)
    ensures forall j: nat :: j != i && j < |t| ==> r[j] == t[j]
  {
    if i < |t| then t[i := s] else t + seq(i - |t|, k => HOLE) + [s]
  }

  /** The slot examined after `k` steps of linear probing. */
  function ProbeSlot(h: Hash, k: nat): nat {
    (h + k) % HASH_MODULUS
  }

  /** How many steps lie between the home slot of `h` and slot `i`. */
  function Distance(h: Hash, i: nat): nat {
    (i - h) % HASH_MODULUS
  }

  lemma DistanceInvertsProbe(h: Hash, i: nat, k: nat)
    requires i < HASH_MODULUS && k < HASH_MODULUS
    ensures ProbeSlot(h, Distance(h, i)) == i
    ensures Distance(h, ProbeSlot(h, k)) == k
  {
    var q, r := (i - h) / HASH_MODULUS, (h + k) / HASH_MODULUS;
    assert h + Distance(h, i) == i - q * HASH_MODULUS;
    assert ProbeSlot(h, k) - h == k - r * HASH_MODULUS;
  }

  /** Probing for `h` stops at an empty slot or at the slot that carries `h`. */
  predicate Stops(t: Table, h: Hash, k: nat) {
    var x := Header(t, ProbeSlot(h, k));
    x == 0 || x == h
  }

  /** The first stop at or after step `k`, or MAX_PROBE_COUNT when there is none. */
  function FirstStop(t: Table, h: Hash, k: nat): (r: nat)
    requires k <= MAX_PROBE_COUNT
    ensures k <= r <= MAX_PROBE_COUNT
    ensures r < MAX_PROBE_COUNT ==> Stops(t, h, r)
    ensures forall j :: k <= j < r ==> !Stops(t, h, j)
    decreases MAX_PROBE_COUNT - k
  {
    if k == MAX_PROBE_COUNT || Stops(t, h, k) then k else FirstStop(t, h, k + 1)
  }

  lemma FirstStopIs(t: Table, h: Hash, k: nat)
    requires k <= MAX_PROBE_COUNT
    requires forall j :: 0 <= j < k ==> !Stops(t, h, j)
    requires k == MAX_PROBE_COUNT || Stops(t, h, k)
    ensures FirstStop(t, h, 0) == k
  {
    var r := FirstStop(t, h, 0);
    if r < k {
      assert false;
    }
  }

  lemma NextProbe(h: Hash, k: nat)
    ensures (ProbeSlot(h, k) + 1) % HASH_MODULUS == ProbeSlot(h, k + 1)
  {
  }

  /** Whether a write of key `h` is accepted: some probed slot is empty or already holds `h`. */
  predicate Accepts(t: Table, h: Hash) {
    FirstStop(t, h, 0) < MAX_PROBE_COUNT
  }

  /** The table after a write of `(h, data)`: unchanged when refused or when `h` is already there. */
  function Insert(t: Table, h: Hash, data: Page): Table {
    var k := FirstStop(t, h, 0);
    if k == MAX_PROBE_COUNT || (Header(t, ProbeSlot(h, k)) == h && h != 0) then t
    else Put(t, ProbeSlot(h, k), Slot(h, data))
  }

  /** The slot `k` steps after slot `r`, the last slot being followed by the first. */
  function Around(r: nat, k: nat): nat {
    if r + k < HASH_MODULUS then r + k else r + k - HASH_MODULUS
  }

  /** A new key goes to the first empty slot from its remainder on, and no slot else changes. */
  lemma InsertLandsAt(t: Table, h: Hash, data: Page, q: nat, r: nat, k: nat)
    requires h == q * HASH_MODULUS + r && r < HASH_MODULUS && k < MAX_PROBE_COUNT
    requires forall j :: 0 <= j < k ==> Header(t, Around(r, j)) != 0 && Header(t, Around(r, j)) != h
    requires Header(t, Around(r, k)) == 0
    ensures Insert(t, h, data) == Put(t, Around(r, k), Slot(h, data))
  {
    forall j: nat | j <= k
      ensures ProbeSlot(h, j) == Around(r, j)
    {
      assert h + j == (if r + j < HASH_MODULUS then q else q + 1) * HASH_MODULUS + Around(r, j);
    }
    FirstStopIs(t, h, k);
  }

  /** The table between the two writes that make up an insertion into a hole: the header is out, the page is not. */
  function HalfInsert(t: Table, h: Hash): Table
    requires Accepts(t, h) && ProbeSlot(h, FirstStop(t, h, 0)) < |t|
  {
    var i := ProbeSlot(h, FirstStop(t, h, 0));
    Put(t, i, Slot(h, t[i].data))
  }

  /** The page a reader finds under `h`. */
  function Lookup(t: Table, h: Hash): Option<Page> {
    var k := FirstStop(t, h, 0);
    if k < MAX_PROBE_COUNT && ProbeSlot(h, k) < |t| && t[ProbeSlot(h, k)].header == h
    then Some(t[ProbeSlot(h, k)].data) else None
  }

  lemma PutReads(t: Table, h: Hash, page: Page)
    requires Accepts(t, h) && Lookup(t, h).None?
    ensures Lookup(Put(t, ProbeSlot(h, FirstStop(t, h, 0)), Slot(h, page)), h) == Some(page)
  {
    var k := FirstStop(t, h, 0);
    var put := Put(t, ProbeSlot(h, k), Slot(h, page));
    forall j | 0 <= j < k
      ensures !Stops(put, h, j)
    {
      assert !Stops(t, h, j);
      DistanceInvertsProbe(h, 0, j);
      DistanceInvertsProbe(h, 0, k);
    }
    FirstStopIs(put, h, k);
  }

  /** A reader that comes between those two writes finds the key with the bytes of the hole, right or wrong. */
  lemma HalfInsertReadsHole(t: Table, h: Hash, page: Page)
    requires Accepts(t, h) && ProbeSlot(h, FirstStop(t, h, 0)) < |t| && Lookup(t, h).None?
    ensures Lookup(HalfInsert(t, h), h) == Lookup(Insert(t, h, page), h) <==>
              t[ProbeSlot(h, FirstStop(t, h, 0))].data == page
  {
    PutReads(t, h, page);
    PutReads(t, h, t[ProbeSlot(h, FirstStop(t, h, 0))].data);
  }

  /** A page that is not all zeros, on its way into the hole of a one-slot file, is read as zeros. */
  lemma HalfInsertInput(page: Page)
    requires page != HOLE.data
    ensures Accepts([HOLE], HASH_MODULUS) && ProbeSlot(HASH_MODULUS, FirstStop([HOLE], HASH_MODULUS, 0)) == 0
    ensures Lookup(HalfInsert([HOLE], HASH_MODULUS), HASH_MODULUS) == Some(HOLE.data)
    ensures Lookup(Insert([HOLE], HASH_MODULUS, page), HASH_MODULUS) == Some(page)
  {
    assert Stops([HOLE], HASH_MODULUS, 0);
    PutReads([HOLE], HASH_MODULUS, page);
    PutReads([HOLE], HASH_MODULUS, HOLE.data);
  }

  // ---------------------------------------------------------------- the probing invariant

  /** Every stored key is reachable: near its home slot, with no empty slot before it. */
  ghost predicate Reachable(t: Table, i: nat)
    requires i < |t|
  {
    && Distance(t[i].header, i) < MAX_PROBE_COUNT
    && forall k :: 0 <= k < Distance(t[i].header, i) ==> Header(t, ProbeSlot(t[i].header, k)) != 0
  }

  ghost predicate WellPlaced(t: Table) {
    && (forall i :: 0 <= i < |t| && t[i].header != 0 ==> Reachable(t, i))
    && (forall i, j :: 0 <= i < j < |t| && t[i].header == t[j].header ==> t[i].header == 0)
  }

  /** A stored key is found where it is stored. */
  lemma StoredIsFound(t: Table, i: nat)
    requires WellPlaced(t) && i < |t| && t[i].header != 0
    ensures FirstStop(t, t[i].header, 0) == Distance(t[i].header, i)
    ensures Lookup(t, t[i].header) == Some(t[i].data)
  {
    var h := t[i].header;
    var d := Distance(h, i);
    DistanceInvertsProbe(h, i, d);
    var r := FirstStop(t, h, 0);
    assert Reachable(t, i);
    assert Stops(t, h, d);
    if r < d {
      DistanceInvertsProbe(h, i, r);
      assert false;
    }
  }

  /** For a non-zero key, lookup finds exactly what some slot stores under it. */
  lemma LookupMeansStored(t: Table, h: Hash, data: Page)
    requires WellPlaced(t) && h != 0
    ensures Lookup(t, h) == Some(data) <==> Slot(h, data) in t
  {
    if Slot(h, data) in t {
      var i :| 0 <= i < |t| && t[i] == Slot(h, data);
      StoredIsFound(t, i);
    }
  }

  /** An accepted write, dedup hit or not, keeps the invariant and moves, hides or overwrites nothing. */
  lemma InsertKeepsPlacement(t: Table, h: Hash, data: Page)
    requires WellPlaced(t)
    ensures WellPlaced(Insert(t, h, data))
    ensures |t| <= |Insert(t, h, data)|
    ensures forall i :: 0 <= i < |t| && t[i].header != 0 ==> Insert(t, h, data)[i] == t[i]
  {
    var t' := Insert(t, h, data);
    if t' != t {
      var k := FirstStop(t, h, 0);
      var at := ProbeSlot(h, k);
      assert Stops(t, h, k) && Header(t, at) == 0;
      DistanceInvertsProbe(h, at, k);
      forall i | 0 <= i < |t'| && t'[i].header != 0
        ensures Reachable(t', i)
      {
        if i == at {
          forall j | 0 <= j < k
            ensures Header(t', ProbeSlot(h, j)) != 0
          {
            assert !Stops(t, h, j);
          }
        } else {
          assert Header(t, i) == Header(t', i);
          assert Reachable(t, i);
        }
      }
      forall i, j | 0 <= i < j < |t'| && t'[i].header == t'[j].header
        ensures t'[i].header == 0
      {
        assert Header(t', i) == t'[i].header && Header(t', j) == t'[j].header;
        if h != 0 && (i == at || j == at) {
          var other := if i == at then j else i;
          if Header(t, other) == h {
            StoredIsFound(t, other);
            DistanceInvertsProbe(h, other, k);
            assert false;
          }
        }
      }
    }
  }

  /** What a write leaves behind under its own non-zero key. */
  lemma InsertThenLookup(t: Table, h: Hash, data: Page)
    requires WellPlaced(t) && h != 0
    ensures Accepts(t, h) ==>
              Lookup(Insert(t, h, data), h) == if Lookup(t, h).Some? then Lookup(t, h) else Some(data)
    ensures !Accepts(t, h) ==> Insert(t, h, data) == t && Lookup(t, h).None?
  {
    InsertKeepsPlacement(t, h, data);
    var t' := Insert(t, h, data);
    if Accepts(t, h) && t' != t {
      var at := ProbeSlot(h, FirstStop(t, h, 0));
      StoredIsFound(t', at);
    }
  }

  // ---------------------------------------------------------------- whole sequences of writes

  function InsertAll(t: Table, writes: seq<(Hash, Page)>): Table
    decreases |writes|
  {
    if writes == [] then t
    else InsertAll(Insert(t, writes[0].0, writes[0].1), writes[1..])
  }

  /** Over any sequence of writes the invariant holds and a stored page stays in its slot. */
  lemma {:induction false} WritesKeepPlacement(t: Table, writes: seq<(Hash, Page)>)
    requires WellPlaced(t)
    ensures WellPlaced(InsertAll(t, writes))
    ensures |t| <= |InsertAll(t, writes)|
    ensures forall i :: 0 <= i < |t| && t[i].header != 0 ==> InsertAll(t, writes)[i] == t[i]
    decreases |writes|
  {
    if writes != [] {
      var t1 := Insert(t, writes[0].0, writes[0].1);
      InsertKeepsPlacement(t, writes[0].0, writes[0].1);
      WritesKeepPlacement(t1, writes[1..]);
    }
  }

  /** A page once found is found with the same bytes after any further writes. */
  lemma LookupSurvivesWrites(t: Table, writes: seq<(Hash, Page)>, h: Hash)
    requires WellPlaced(t) && h != 0 && Lookup(t, h).Some?
    ensures Lookup(InsertAll(t, writes), h) == Lookup(t, h)
  {
    WritesKeepPlacement(t, writes);
    var data := Lookup(t, h).value;
    LookupMeansStored(t, h, data);
    var i :| 0 <= i < |t| && t[i] == Slot(h, data);
    LookupMeansStored(InsertAll(t, writes), h, data);
  }

  /** A key refused once is refused for good: its probe path never gets a free slot back. */
  lemma {:induction false} RefusalIsFinal(t: Table, writes: seq<(Hash, Page)>, h: Hash)
    requires WellPlaced(t) && h != 0 && !Accepts(t, h)
    ensures !Accepts(InsertAll(t, writes), h)
    decreases |writes|
  {
    if writes != [] {
      var t1 := Insert(t, writes[0].0, writes[0].1);
      InsertKeepsPlacement(t, writes[0].0, writes[0].1);
      forall j | 0 <= j < MAX_PROBE_COUNT
        ensures !Stops(t1, h, j)
      {
        assert !Stops(t, h, j);
        assert ProbeSlot(h, j) < |t|;
      }
      FirstStopIs(t1, h, MAX_PROBE_COUNT);
      hide Insert, Stops;
      RefusalIsFinal(t1, writes[1..], h);
    }
  }

  // ---------------------------------------------------------------- the two readers

  datatype QueryResult =
    | Found(slot: nat, probes: nat)
    | EmptySlot(slot: nat, probes: nat)
    | Exhausted(slot: nat)

  /** What query_snapshot's lookup reports (codes 1, 0 and -2). */
  function Query(t: Table, h: Hash): QueryResult {
    var k := FirstStop(t, h, 0);
    var at := ProbeSlot(h, k);
    if k == MAX_PROBE_COUNT then Exhausted(at)
    else if at < |t| && t[at].header == h then Found(at, k)
    else EmptySlot(at, k)
  }

  /** The kernel probe takes a short header read and an empty slot alike as a bus error. */
  function KernelSlot(t: Table, h: Hash): Option<nat> {
    match Query(t, h)
    case Found(at, _) => Some(at)
    case _ => None
  }

  /** A write agrees with the tool's lookup made before it. */
  ghost predicate WriteAgreesWithQuery(t: Table, h: Hash, data: Page) {
    match Query(t, h)
    case Exhausted(_) => !Accepts(t, h) && Insert(t, h, data) == t
    case EmptySlot(at, _) =>
      Accepts(t, h) && at < HASH_MODULUS && Header(t, at) == 0 && Insert(t, h, data) == Put(t, at, Slot(h, data))
    case Found(at, _) => Accepts(t, h) && Insert(t, h, data) == t
  }

  /**
    Agreement holds for every table and page exactly when the key is not zero or key zero meets
    no stored-looking hole: a key of zero is "found" by the readers in any hole and written there.
   */
  lemma WriteAgreesUnlessZeroKeyInHole(t: Table, h: Hash)
    ensures (forall data: Page :: WriteAgreesWithQuery(t, h, data)) <==> (h != 0 || !Query(t, h).Found?)
  {
    if h == 0 && Query(t, h).Found? {
      var at := Query(t, h).slot;
      var first: int := t[at].data[0];
      var other: Page := t[at].data[0 := (first + 1) % 256];
      assert other[0] != t[at].data[0];
      assert Insert(t, h, other)[at].data == other;
      assert !WriteAgreesWithQuery(t, h, other);
    }
  }

  /** A page whose hash is zero is lost to the next key that probes its slot. */
  lemma ZeroKeyPageIsOverwritten(p: Page, q: Page)
    requires p != q
    ensures var t := Insert([], 0, p);
            Lookup(t, 0) == Some(p) && Lookup(Insert(t, HASH_MODULUS, q), 0) != Some(p)
  {
    var t := Insert([], 0, p);
    assert ProbeSlot(0, 0) == 0 && Stops([], 0, 0);
    assert t == [Slot(0, p)];
    assert Stops(t, 0, 0);
    assert ProbeSlot(HASH_MODULUS, 0) == 0 && Stops(t, HASH_MODULUS, 0);
    var t2 := Insert(t, HASH_MODULUS, q);
    assert t2 == [Slot(HASH_MODULUS, q)];
  }

  /**
    For every well-placed table, a page that can be looked up survives all later writes exactly when
    its key is not zero: key zero takes its slot for empty, so even a second page under it is written over.
   */
  lemma SurvivesIffKeyNotZero(t: Table, h: Hash)
    requires WellPlaced(t) && Lookup(t, h).Some?
    ensures (forall writes :: Lookup(InsertAll(t, writes), h) == Lookup(t, h)) <==> h != 0
  {
    if h != 0 {
      forall writes: seq<(Hash, Page)>
        ensures Lookup(InsertAll(t, writes), h) == Lookup(t, h)
      {
        LookupSurvivesWrites(t, writes, h);
      }
    } else {
      ZeroKeyIsWrittenOver(t);
    }
  }

  lemma ZeroKeyIsWrittenOver(t: Table)
    requires Lookup(t, 0).Some?
    ensures exists writes :: Lookup(InsertAll(t, writes), 0) != Lookup(t, 0)
  {
    var was := Lookup(t, 0).value;
    var first: int := was[0];
    var other: Page := was[0 := (first + 1) % 256];
    assert other[0] != was[0];
    var k := FirstStop(t, 0, 0);
    var t' := Insert(t, 0, other);
    assert t' == t[ProbeSlot(0, k) := Slot(0, other)];
    forall j | 0 <= j <= k
      ensures Stops(t', 0, j) <==> Stops(t, 0, j)
    {
      assert Header(t', ProbeSlot(0, j)) == Header(t, ProbeSlot(0, j));
    }
    FirstStopIs(t', 0, k);
    assert InsertAll(t, [(0, other)]) == t';
  }

  // ---------------------------------------------------------------- the loops of the tools

  class PagesFile {
    var slots: Table

    constructor ()
      ensures slots == []
    {
      slots := [];
    }

    /** pread of an 8-byte header: a byte count and, when it is 8, the header. */
    method PreadHeader(index: nat) returns (ret: nat, header: Hash)
      ensures ret == if index < |slots| then 8 else 0
      ensures header == Header(slots, index)
    {
      if index < |slots| {
        ret, header := 8, slots[index].header;
      } else {
        ret, header := 0, 0;
      }
    }

    method WritePageToSlot(hash: Hash, data: Page) returns (code: int)
      modifies this
      ensures code == if Accepts(old(slots), hash) then 0 else -1
      ensures slots == Insert(old(slots), hash, data)
    {
      var index := hash % HASH_MODULUS;
      var probe := 0;
      while probe < MAX_PROBE_COUNT
        invariant 0 <= probe <= MAX_PROBE_COUNT
        invariant index == ProbeSlot(hash, probe)
        invariant forall j :: 0 <= j < probe ==> !Stops(slots, hash, j)
        invariant slots == old(slots)
      {
        var ret, slotHash := PreadHeader(index);
        if ret < 8 || slotHash == 0 {
          FirstStopIs(slots, hash, probe);
          slots := Put(slots, index, Slot(hash, data));
          return 0;
        }
        if slotHash == hash {
          FirstStopIs(slots, hash, probe);
          return 0;
        }
        NextProbe(hash, probe);
        index := (index + 1) % HASH_MODULUS;
        probe := probe + 1;
      }
      FirstStopIs(slots, hash, probe);
      return -1;
    }

    method LookupPageByHash(hash: Hash) returns (code: int, slot: nat, probes: nat)
      ensures match Query(slots, hash)
              case Found(at, k) => (code, slot, probes) == (1, at, k)
              case EmptySlot(at, k) => (code, slot, probes) == (0, at, k)
              case Exhausted(at) => (code, slot, probes) == (-2, at, MAX_PROBE_COUNT)
    {
      slot, probes := hash % HASH_MODULUS, 0;
      while probes < MAX_PROBE_COUNT
        invariant 0 <= probes <= MAX_PROBE_COUNT
        invariant slot == ProbeSlot(hash, probes)
        invariant forall j :: 0 <= j < probes ==> !Stops(slots, hash, j)
      {
        var ret, slotHash := PreadHeader(slot);
        if ret < 8 {
          FirstStopIs(slots, hash, probes);
          return 0, slot, probes;
        }
        if slotHash == hash {
          FirstStopIs(slots, hash, probes);
          return 1, slot, probes;
        }
        if slotHash == 0 {
          FirstStopIs(slots, hash, probes);
          return 0, slot, probes;
        }
        NextProbe(hash, probes);
        slot, probes := (slot + 1) % HASH_MODULUS, probes + 1;
      }
      FirstStopIs(slots, hash, probes);
      return -2, slot, probes;
    }

    /** The fault handler's probe loop: the page read from the file, or a bus error. */
    method KernelProbe(hash: Hash) returns (page: Option<Page>)
      ensures page == match KernelSlot(slots, hash) case Some(at) => Some(slots[at].data) case None => None
      ensures page == Lookup(slots, hash)
    {
      var index := hash % HASH_MODULUS;
      var probe := 0;
      while probe < MAX_PROBE_COUNT
        invariant 0 <= probe <= MAX_PROBE_COUNT
        invariant index == ProbeSlot(hash, probe)
        invariant forall j :: 0 <= j < probe ==> !Stops(slots, hash, j)
      {
        var ret, slotHash := PreadHeader(index);
        if ret != 8 {
          FirstStopIs(slots, hash, probe);
          return None;
        }
        if slotHash == hash {
          FirstStopIs(slots, hash, probe);
          return Some(slots[index].data);
        }
        if slotHash == 0 {
          FirstStopIs(slots, hash, probe);
          return None;
        }
        NextProbe(hash, probe);
        index := (index + 1) % HASH_MODULUS;
        probe := probe + 1;
      }
      FirstStopIs(slots, hash, probe);
      return None;
    }
  }
}
