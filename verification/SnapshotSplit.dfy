/** split_snapshot: cutting a memory snapshot into a page table and deduplicated page slots. */
module SnapshotSplit {
  import opened Base
  import opened PageStore

  datatype PageTableEntry = PageTableEntry(vaOffset: nat, hash: Hash)

  type PageHash = Page -> Hash

  function PageCount(snapshot: seq<Byte>): nat {
    |snapshot| / PAGE_SIZE
  }

  function PageAt(snapshot: seq<Byte>, i: nat): Page
    requires i < PageCount(snapshot)
  {
    snapshot[i * PAGE_SIZE..(i + 1) * PAGE_SIZE]
  }

  /** The slot writes made for the first `n` pages. */
  function Writes(hash: PageHash, snapshot: seq<Byte>, n: nat): (w: seq<(Hash, Page)>)
    requires n <= PageCount(snapshot)
    ensures |w| == n
  {
    seq(n, i requires 0 <= i < n => (hash(PageAt(snapshot, i)), PageAt(snapshot, i)))
  }

  /** pages.bin as the loop finds it when it reaches page `n`. */
  function TableBefore(t: Table, hash: PageHash, snapshot: seq<Byte>, n: nat): Table
    requires n <= PageCount(snapshot)
  {
    InsertAll(t, Writes(hash, snapshot, n))
  }

  function TableAfter(t: Table, hash: PageHash, snapshot: seq<Byte>): Table {
    TableBefore(t, hash, snapshot, PageCount(snapshot))
  }

  /** Whether the slot write of page `i` returned 0. */
  predicate Accepted(t: Table, hash: PageHash, snapshot: seq<Byte>, i: nat)
    requires i < PageCount(snapshot)
  {
    Accepts(TableBefore(t, hash, snapshot, i), hash(PageAt(snapshot, i)))
  }

  lemma {:induction false} InsertAllConcat(t: Table, a: seq<(Hash, Page)>, b: seq<(Hash, Page)>)
    ensures InsertAll(t, a + b) == InsertAll(InsertAll(t, a), b)
    decreases |a|
  {
    if a == [] {
      assert a + b == b;
    } else {
      assert (a + b)[1..] == a[1..] + b;
      InsertAllConcat(Insert(t, a[0].0, a[0].1), a[1..], b);
    }
  }

  /** The table at page `n` continues the one at page `i`. */
  lemma TableContinues(t: Table, hash: PageHash, snapshot: seq<Byte>, i: nat, n: nat) returns (rest: seq<(Hash, Page)>)
    requires i <= n <= PageCount(snapshot)
    ensures |rest| == n - i
    ensures TableBefore(t, hash, snapshot, n) == InsertAll(TableBefore(t, hash, snapshot, i), rest)
    ensures i < n ==> rest[0] == (hash(PageAt(snapshot, i)), PageAt(snapshot, i))
  {
    rest := Writes(hash, snapshot, n)[i..];
    assert Writes(hash, snapshot, n) == Writes(hash, snapshot, i) + rest;
    InsertAllConcat(t, Writes(hash, snapshot, i), rest);
  }

  lemma TableAtStart(t: Table, hash: PageHash, snapshot: seq<Byte>)
    ensures TableBefore(t, hash, snapshot, 0) == t
  {
    assert Writes(hash, snapshot, 0) == [];
  }

  lemma TableStep(t: Table, hash: PageHash, snapshot: seq<Byte>, i: nat)
    requires i < PageCount(snapshot)
    ensures TableBefore(t, hash, snapshot, i + 1)
         == Insert(TableBefore(t, hash, snapshot, i), hash(PageAt(snapshot, i)), PageAt(snapshot, i))
  {
    var rest := TableContinues(t, hash, snapshot, i, i + 1);
    assert rest[1..] == [];
  }

  lemma TableIsWellPlaced(t: Table, hash: PageHash, snapshot: seq<Byte>, n: nat)
    requires n <= PageCount(snapshot) && WellPlaced(t)
    ensures WellPlaced(TableBefore(t, hash, snapshot, n))
  {
    WritesKeepPlacement(t, Writes(hash, snapshot, n));
  }

  // ---------------------------------------------------------------- which bytes a page reads back as

  /** The first page of the snapshot with the same hash as page `i`. */
  function FirstTwin(hash: PageHash, snapshot: seq<Byte>, i: nat, k: nat): (j: nat)
    requires k <= i < PageCount(snapshot)
    requires forall m :: 0 <= m < k ==> hash(PageAt(snapshot, m)) != hash(PageAt(snapshot, i))
    ensures j <= i && hash(PageAt(snapshot, j)) == hash(PageAt(snapshot, i))
    ensures forall m :: 0 <= m < j ==> hash(PageAt(snapshot, m)) != hash(PageAt(snapshot, i))
    decreases i - k
  {
    if hash(PageAt(snapshot, k)) == hash(PageAt(snapshot, i)) then k
    else FirstTwin(hash, snapshot, i, k + 1)
  }

  /** Writes of other keys do not make a key appear. */
  lemma {:induction false} OtherKeysStayOther(t: Table, hash: PageHash, snapshot: seq<Byte>, n: nat, h: Hash)
    requires n <= PageCount(snapshot) && WellPlaced(t) && h != 0
    requires forall m :: 0 <= m < n ==> hash(PageAt(snapshot, m)) != h
    ensures Lookup(TableBefore(t, hash, snapshot, n), h) == Lookup(t, h)
    decreases n
  {
    hide Lookup, Insert, TableBefore, WellPlaced, PageAt;
    if n > 0 {
      OtherKeysStayOther(t, hash, snapshot, n - 1, h);
      TableStep(t, hash, snapshot, n - 1);
      TableIsWellPlaced(t, hash, snapshot, n - 1);
      TableIsWellPlaced(t, hash, snapshot, n);
      OtherInsert(TableBefore(t, hash, snapshot, n - 1), hash(PageAt(snapshot, n - 1)), PageAt(snapshot, n - 1), h);
    } else {
      TableAtStart(t, hash, snapshot);
    }
  }

  lemma OtherInsert(t: Table, g: Hash, data: Page, h: Hash)
    requires WellPlaced(t) && h != 0 && g != h
    ensures Lookup(Insert(t, g, data), h) == Lookup(t, h)
  {
    var t' := Insert(t, g, data);
    InsertKeepsPlacement(t, g, data);
    if Lookup(t', h).Some? {
      LookupMeansStored(t', h, Lookup(t', h).value);
      var i :| 0 <= i < |t'| && t'[i] == Slot(h, Lookup(t', h).value);
      assert Header(t', i) == h;
      if t' != t {
        assert i != ProbeSlot(g, FirstStop(t, g, 0));
      }
      assert Header(t, i) == h;
      StoredIsFound(t, i);
    } else if Lookup(t, h).Some? {
      LookupMeansStored(t, h, Lookup(t, h).value);
      var i :| 0 <= i < |t| && t[i] == Slot(h, Lookup(t, h).value);
      assert t'[i] == t[i];
      StoredIsFound(t', i);
    }
  }

  lemma FoundIsAccepted(t: Table, h: Hash)
    ensures Lookup(t, h).Some? ==> Accepts(t, h)
  {
  }

  /** Acceptance depends on the key alone: a later page with the same hash fares like the first. */
  lemma AcceptedLikeTwin(t: Table, hash: PageHash, snapshot: seq<Byte>, j: nat, i: nat)
    requires j <= i < PageCount(snapshot) && WellPlaced(t)
    requires hash(PageAt(snapshot, j)) == hash(PageAt(snapshot, i)) != 0
    ensures Accepted(t, hash, snapshot, j) <==> Accepted(t, hash, snapshot, i)
  {
    hide TableBefore, PageAt, WellPlaced, Insert, InsertAll, Lookup, Accepts;
    var h := hash(PageAt(snapshot, i));
    if j < i {
      TableIsWellPlaced(t, hash, snapshot, j);
      TableIsWellPlaced(t, hash, snapshot, j + 1);
      TableIsWellPlaced(t, hash, snapshot, i);
      TableStep(t, hash, snapshot, j);
      var tj := TableBefore(t, hash, snapshot, j);
      if Accepted(t, hash, snapshot, j) {
        InsertThenLookup(tj, h, PageAt(snapshot, j));
        var rest := TableContinues(t, hash, snapshot, j + 1, i);
        LookupSurvivesWrites(TableBefore(t, hash, snapshot, j + 1), rest, h);
        FoundIsAccepted(TableBefore(t, hash, snapshot, i), h);
      } else {
        var rest := TableContinues(t, hash, snapshot, j, i);
        RefusalIsFinal(tj, rest, h);
      }
    }
  }

  lemma FirstOfItsKeyReadsBack(t: Table, hash: PageHash, snapshot: seq<Byte>, j: nat)
    requires j < PageCount(snapshot) && WellPlaced(t)
    requires hash(PageAt(snapshot, j)) != 0 && Accepted(t, hash, snapshot, j)
    requires forall m :: 0 <= m < j ==> hash(PageAt(snapshot, m)) != hash(PageAt(snapshot, j))
    ensures Lookup(TableAfter(t, hash, snapshot), hash(PageAt(snapshot, j)))
         == if Lookup(t, hash(PageAt(snapshot, j))).Some? then Lookup(t, hash(PageAt(snapshot, j)))
            else Some(PageAt(snapshot, j))
  {
    var h := hash(PageAt(snapshot, j));
    OtherKeysStayOther(t, hash, snapshot, j, h);
    TableIsWellPlaced(t, hash, snapshot, j);
    TableIsWellPlaced(t, hash, snapshot, j + 1);
    TableStep(t, hash, snapshot, j);
    InsertThenLookup(TableBefore(t, hash, snapshot, j), h, PageAt(snapshot, j));
    var rest := TableContinues(t, hash, snapshot, j + 1, PageCount(snapshot));
    LookupSurvivesWrites(TableBefore(t, hash, snapshot, j + 1), rest, h);
  }

  /**
    What an accepted page reads back as, with no assumption on the hash beyond "not zero":
    the bytes already filed under its key, else those of the first page that shares its key.
   */
  lemma AcceptedPageReadsAsFirstTwin(t: Table, hash: PageHash, snapshot: seq<Byte>, i: nat)
    requires i < PageCount(snapshot) && WellPlaced(t)
    requires hash(PageAt(snapshot, i)) != 0 && Accepted(t, hash, snapshot, i)
    ensures Lookup(TableAfter(t, hash, snapshot), hash(PageAt(snapshot, i)))
         == if Lookup(t, hash(PageAt(snapshot, i))).Some? then Lookup(t, hash(PageAt(snapshot, i)))
            else Some(PageAt(snapshot, FirstTwin(hash, snapshot, i, 0)))
  {
    var j := FirstTwin(hash, snapshot, i, 0);
    AcceptedLikeTwin(t, hash, snapshot, j, i);
    FirstOfItsKeyReadsBack(t, hash, snapshot, j);
  }

  /** Into a fresh pages.bin, an accepted page reads back as itself iff it equals its first twin. */
  lemma AcceptedPageReadsBackIff(hash: PageHash, snapshot: seq<Byte>, i: nat)
    requires i < PageCount(snapshot)
    requires hash(PageAt(snapshot, i)) != 0 && Accepted([], hash, snapshot, i)
    ensures Lookup(TableAfter([], hash, snapshot), hash(PageAt(snapshot, i))) == Some(PageAt(snapshot, i))
       <==> PageAt(snapshot, FirstTwin(hash, snapshot, i, 0)) == PageAt(snapshot, i)
  {
    AcceptedPageReadsAsFirstTwin([], hash, snapshot, i);
  }

  /** Two different pages under one hash: both are accepted, and the second reads back as the first. */
  lemma SameHashReadsAsFirst(p: Page, q: Page, h: Hash)
    requires p != q && h != 0
    ensures var hash: PageHash := _ => h;
            var snapshot := p + q;
            && PageCount(snapshot) == 2 && PageAt(snapshot, 0) == p && PageAt(snapshot, 1) == q
            && Accepted([], hash, snapshot, 1) && Lookup(TableAfter([], hash, snapshot), h) == Some(p)
  {
    var hash: PageHash := _ => h;
    var snapshot := p + q;
    assert PageAt(snapshot, 0) == p && PageAt(snapshot, 1) == q;
    var w := Writes(hash, snapshot, 1);
    var none: Table := [];
    var t := Insert(none, h, p);
    assert w == [(h, p)] && w[1..] == [];
    assert InsertAll(none, w) == InsertAll(Insert(none, w[0].0, w[0].1), w[1..]);
    assert Stops(none, h, 0) && Stops(t, h, 0);
    AcceptedPageReadsAsFirstTwin([], hash, snapshot, 1);
  }

  /** The hash tells the pages in play apart and is never the empty-slot marker. */
  ghost predicate GoodHash(hash: PageHash, pages: iset<Page>) {
    && (forall p :: p in pages ==> hash(p) != 0)
    && (forall p, q :: p in pages && q in pages && hash(p) == hash(q) ==> p == q)
  }

  /** Every stored page is one of those in play, filed under its own hash. */
  ghost predicate FiledByHash(t: Table, hash: PageHash, pages: iset<Page>) {
    forall i :: 0 <= i < |t| && t[i].header != 0 ==> t[i].data in pages && t[i].header == hash(t[i].data)
  }

  lemma InsertFiled(t: Table, hash: PageHash, pages: iset<Page>, page: Page)
    requires FiledByHash(t, hash, pages) && page in pages
    ensures FiledByHash(Insert(t, hash(page), page), hash, pages)
  {
    var after := Insert(t, hash(page), page);
    forall i | 0 <= i < |after| && after[i].header != 0
      ensures after[i].data in pages && after[i].header == hash(after[i].data)
    {
      assert Header(after, i) == after[i].header;
      if after[i] != Slot(hash(page), page) {
        assert Header(t, i) == after[i].header;
      }
    }
  }

  lemma {:induction false} SplitFilesByHash(t: Table, hash: PageHash, pages: iset<Page>, snapshot: seq<Byte>, n: nat)
    requires n <= PageCount(snapshot) && FiledByHash(t, hash, pages)
    requires forall i :: 0 <= i < n ==> PageAt(snapshot, i) in pages
    ensures FiledByHash(TableBefore(t, hash, snapshot, n), hash, pages)
    decreases n
  {
    if n > 0 {
      SplitFilesByHash(t, hash, pages, snapshot, n - 1);
      TableStep(t, hash, snapshot, n - 1);
      InsertFiled(TableBefore(t, hash, snapshot, n - 1), hash, pages, PageAt(snapshot, n - 1));
    } else {
      assert Writes(hash, snapshot, 0) == [];
    }
  }

  /** The round trip: into any pages.bin filed by a good hash, every accepted page reads back as itself. */
  lemma AcceptedPageReadsBack(t: Table, hash: PageHash, pages: iset<Page>, snapshot: seq<Byte>, i: nat)
    requires WellPlaced(t) && FiledByHash(t, hash, pages) && GoodHash(hash, pages)
    requires forall k :: 0 <= k < PageCount(snapshot) ==> PageAt(snapshot, k) in pages
    requires i < PageCount(snapshot) && Accepted(t, hash, snapshot, i)
    ensures Lookup(TableAfter(t, hash, snapshot), hash(PageAt(snapshot, i))) == Some(PageAt(snapshot, i))
  {
    var p := PageAt(snapshot, i);
    AcceptedPageReadsAsFirstTwin(t, hash, snapshot, i);
    if Lookup(t, hash(p)).Some? {
      LookupMeansStored(t, hash(p), Lookup(t, hash(p)).value);
    }
  }

  /** What the page loop has produced when it reaches page `n`. */
  ghost predicate SplitUpTo(t: Table, hash: PageHash, snapshot: seq<Byte>, n: nat,
                            pageTable: seq<PageTableEntry>, codes: seq<int>, slots: Table)
    requires n <= PageCount(snapshot)
  {
    && |pageTable| == |codes| == n
    && (forall i :: 0 <= i < n ==> pageTable[i] == PageTableEntry(i * PAGE_SIZE, hash(PageAt(snapshot, i))))
    && (forall i :: 0 <= i < n ==> (codes[i] == 0 <==> Accepted(t, hash, snapshot, i)))
    && slots == TableBefore(t, hash, snapshot, n)
  }

  lemma SplitOneMore(t: Table, hash: PageHash, snapshot: seq<Byte>, n: nat,
                     pageTable: seq<PageTableEntry>, codes: seq<int>, slots: Table, code: int)
    requires n < PageCount(snapshot) && SplitUpTo(t, hash, snapshot, n, pageTable, codes, slots)
    requires code == 0 <==> Accepts(slots, hash(PageAt(snapshot, n)))
    ensures SplitUpTo(t, hash, snapshot, n + 1,
                      pageTable + [PageTableEntry(n * PAGE_SIZE, hash(PageAt(snapshot, n)))], codes + [code],
                      Insert(slots, hash(PageAt(snapshot, n)), PageAt(snapshot, n)))
  {
    hide Insert, Accepts, TableBefore, PageAt;
    TableStep(t, hash, snapshot, n);
  }

  /** split_snapshot's page loop; a trailing partial page ends it. */
  method SplitSnapshot(snapshot: seq<Byte>, hash: PageHash, file: PagesFile)
    returns (pageTable: seq<PageTableEntry>, codes: seq<int>)
    modifies file
    ensures SplitUpTo(old(file.slots), hash, snapshot, PageCount(snapshot), pageTable, codes, file.slots)
  {
    pageTable, codes := [], [];
    var va, n := 0, 0;
    assert Writes(hash, snapshot, 0) == [];
    while va < |snapshot|
      invariant va == n * PAGE_SIZE && n <= PageCount(snapshot)
      invariant SplitUpTo(old(file.slots), hash, snapshot, n, pageTable, codes, file.slots)
    {
      var ret := Min(PAGE_SIZE, |snapshot| - va);
      if ret != PAGE_SIZE {
        break;
      }
      var page: Page := snapshot[va..va + PAGE_SIZE];
      assert n < PageCount(snapshot) && page == PageAt(snapshot, n);
      ghost var slots := file.slots;
      var code := file.WritePageToSlot(hash(page), page);
      SplitOneMore(old(file.slots), hash, snapshot, n, pageTable, codes, slots, code);
      pageTable, codes := pageTable + [PageTableEntry(va, hash(page))], codes + [code];
      va, n := va + PAGE_SIZE, n + 1;
    }
  }
}
