/** Checkpoints of a client: its dirty pages over the shared backend. */
module Checkpoint {
  import opened Base
  import opened Bits
  import opened Overlay
  import opened TemplateMemory

  datatype DirtyPage = DirtyPage(page: nat, data: Page)

  /** The bitmap of the pages below `n` marked dirty. */
  function DirtyWords(dirty: seq<bool>, n: nat): (b: Bitmap)
    requires n <= |dirty|
    ensures |b| == BitmapWords(|dirty|)
  {
    if n == 0 then seq(BitmapWords(|dirty|), i => 0)
    else if dirty[n - 1] then BitmapWith(DirtyWords(dirty, n - 1), n - 1)
    else DirtyWords(dirty, n - 1)
  }

  /** Bit `p` of that bitmap is page `p`'s dirty flag. */
  lemma {:induction false} DirtyWordsGet(dirty: seq<bool>, n: nat, p: nat)
    requires n <= |dirty| && p / 64 < BitmapWords(|dirty|)
    ensures BitmapGet(DirtyWords(dirty, n), p) <==> p < n && dirty[p]
    decreases n
  {
    if n == 0 {
      assert And(0, Mask(p % 64)) == 0;
    } else {
      DirtyWordsGet(dirty, n - 1, p);
      if dirty[n - 1] {
        BitmapWithGet(DirtyWords(dirty, n - 1), n - 1, p);
      }
    }
  }

  /** The list holds exactly the dirty pages below `n`, in order, with the bytes of `region`. */
  ghost predicate Exports(pages: seq<DirtyPage>, dirty: seq<bool>, region: seq<Page>, n: nat)
    requires n <= |dirty| == |region|
  {
    && (forall k :: 0 <= k < |pages| ==>
          pages[k].page < n && dirty[pages[k].page] && pages[k].data == region[pages[k].page])
    && (forall j, k :: 0 <= j < k < |pages| ==> pages[j].page < pages[k].page)
    && (forall p: nat :: p < n && dirty[p] ==> exists k :: 0 <= k < |pages| && pages[k].page == p)
  }

  /** Checkpoint::export: one pass over the pages of the client's region. */
  method Export(dirty: seq<bool>, region: seq<Page>) returns (pages: seq<DirtyPage>, privateBitmap: Bitmap)
    requires |region| == |dirty|
    ensures Exports(pages, dirty, region, |dirty|)
    ensures privateBitmap == DirtyWords(dirty, |dirty|)
  {
    pages, privateBitmap := [], seq(BitmapWords(|dirty|), i => 0);
    for p := 0 to |dirty|
      invariant Exports(pages, dirty, region, p)
      invariant privateBitmap == DirtyWords(dirty, p)
    {
      if !dirty[p] {
        continue;
      }
      privateBitmap := BitmapWith(privateBitmap, p);
      ghost var before := pages;
      pages := pages + [DirtyPage(p, region[p])];
      forall q: nat | q < p + 1 && dirty[q]
        ensures exists k :: 0 <= k < |pages| && pages[k].page == q
      {
        if q == p {
          assert pages[|before|].page == p;
        } else {
          var k :| 0 <= k < |before| && before[k].page == q;
          assert pages[k].page == q;
        }
      }
    }
  }

  /** Client::dirty_bitmap, taken separately, is the same bitmap. */
  method DirtyBitmap(dirty: seq<bool>) returns (bitmap: Bitmap)
    ensures bitmap == DirtyWords(dirty, |dirty|)
  {
    bitmap := seq(BitmapWords(|dirty|), i => 0);
    for p := 0 to |dirty|
      invariant bitmap == DirtyWords(dirty, p)
    {
      if dirty[p] {
        bitmap := BitmapWith(bitmap, p);
      }
    }
  }

  /** Laying the exported pages over a backend, as a restore would. */
  function Restore(backend: seq<Option<Page>>, pages: seq<DirtyPage>): (r: seq<Option<Page>>)
    ensures |r| == |backend|
  {
    if pages == [] then backend
    else
      var last := pages[|pages| - 1];
      var r := Restore(backend, pages[..|pages| - 1]);
      if last.page < |r| then r[last.page := Some(last.data)] else r
  }

  lemma {:induction false} RestoreAt(backend: seq<Option<Page>>, pages: seq<DirtyPage>, p: nat)
    requires p < |backend|
    requires forall j, k :: 0 <= j < k < |pages| ==> pages[j].page < pages[k].page
    ensures (forall k :: 0 <= k < |pages| ==> pages[k].page != p) ==> Restore(backend, pages)[p] == backend[p]
    ensures forall k :: 0 <= k < |pages| && pages[k].page == p ==> Restore(backend, pages)[p] == Some(pages[k].data)
    decreases |pages|
  {
    if pages != [] {
      var front := pages[..|pages| - 1];
      RestoreAt(backend, front, p);
      assert forall k :: 0 <= k < |front| ==> front[k] == pages[k];
    }
  }

  /** The bytes at page `p` of the client's mapping, as memory holds them; unloaded pages hold nothing yet. */
  ghost function Raw(w: World, c: ClientId, p: nat): Page
    requires c in w.clients && p < |w.clients[c].mapping| && p < |w.store.memfd|
  {
    match w.clients[c].mapping[p]
    case Private(data) => data
    case Shared(_) => if w.store.memfd[p].Some? then w.store.memfd[p].value else []
  }

  /** What the application has written so far: during a replacement, the page it saw before. */
  ghost function Logical(w: World, c: ClientId, p: nat): Option<Page>
    requires c in w.clients && p < |w.clients[c].mapping| && p < |w.store.memfd| == |w.store.backend|
  {
    if w.clients[c].handler.Remapped? && w.clients[c].handler.page == p then Some(w.clients[c].handler.data)
    else View(w, c, p)
  }

  /**
    In every state, even in the middle of a fault, laying the exported pages over the backend gives
    back every page as the application last left it.
   */
  lemma CheckpointRestores(w: World, c: ClientId, region: seq<Page>, pages: seq<DirtyPage>, p: nat)
    requires Inv(w) && c in w.clients && p < Count(w.store)
    requires |region| == Count(w.store) && forall q :: 0 <= q < |region| ==> region[q] == Raw(w, c, q)
    requires Exports(pages, w.clients[c].dirty, region, |region|)
    ensures Restore(w.store.backend, pages)[p] == Logical(w, c, p)
  {
    var cl := w.clients[c];
    RestoreAt(w.store.backend, pages, p);
    assert MappingOk(w.store, c, cl, p);
    assert PageOk(w.store, p);
    if cl.dirty[p] {
      var k :| 0 <= k < |pages| && pages[k].page == p;
    } else if cl.mapping[p].Private? {
      assert Unmarked(cl.handler, p);
      UnmarkedIsUnwritten(w, c, p);
    }
  }

  /**
    At the end of any run from the empty template in which each page is changed by its loader alone, the
    export of a client's region laid over the template is what its application last left.
   */
  lemma CheckpointOfAnyRun(backend: seq<Option<Page>>, steps: seq<Step>, c: ClientId, region: seq<Page>,
                           pages: seq<DirtyPage>, p: nat)
    requires Runs(Empty(backend), steps) && LoaderWritesOnly(Empty(backend), steps) && p < |backend| == |region|
    requires var w := End(Empty(backend), steps);
             && c in w.clients && |w.clients[c].dirty| == |w.clients[c].mapping| == |w.store.memfd| == |backend|
             && (forall q :: 0 <= q < |region| ==> region[q] == Raw(w, c, q))
             && Exports(pages, w.clients[c].dirty, region, |region|)
    ensures var w := End(Empty(backend), steps);
            w.store.backend == backend && Restore(backend, pages)[p] == Logical(w, c, p)
  {
    hide Runs, LoaderWritesOnly, End, Restore, Logical, Exports, Inv;
    PoliteRunIsSound(backend, steps);
    CheckpointRestores(End(Empty(backend), steps), c, region, pages, p);
  }

  /** A private page not yet marked dirty holds no write of the application. */
  lemma UnmarkedIsUnwritten(w: World, c: ClientId, p: nat)
    requires Inv(w) && c in w.clients && p < Count(w.store) && Unmarked(w.clients[c].handler, p)
    ensures Logical(w, c, p) == w.store.backend[p]
  {
    assert MappingOk(w.store, c, w.clients[c], p);
    assert PageOk(w.store, p);
  }

  /** page_start of a fault address is the start of the page page_index_from_addr names. */
  lemma FaultAddressDecodes(base: nat, addr: Word, k: nat)
    requires k < 64 && base <= addr && base % Pow2(k) == 0
    ensures Pow2(k) < U64
    ensures And(addr, Not(Pow2(k) - 1)) == base + (addr - base) / Pow2(k) * Pow2(k)
  {
    AlignDown(addr, k);
    RoundDownFrom(base, addr, Pow2(k));
  }

  /** The backend of a template, page by page, as the overlay serves it. */
  ghost predicate BackedBy(backend: seq<Option<Page>>, layers: seq<Layer>, pageSize: nat, pageCount: nat) {
    && LayersOk(layers, pageCount) && |backend| == pageCount
    && forall p :: 0 <= p < pageCount ==> backend[p] == PageContent(layers, pageSize, pageCount, p)
  }

  /** A page in state SHARED_READY is, in the memfd, the page of the topmost layer that claims it. */
  lemma ReadyPageIsTopLayersPage(backend: seq<Option<Page>>, steps: seq<Step>, layers: seq<Layer>, pageSize: nat,
                                 pageCount: nat, p: nat)
    requires Runs(Empty(backend), steps) && LoaderWritesOnly(Empty(backend), steps)
    requires BackedBy(backend, layers, pageSize, pageCount) && p < pageCount
    ensures var s := End(Empty(backend), steps).store;
            && |s.meta| == |s.memfd| == pageCount
            && (s.meta[p].SharedReady? ==>
                  exists k: nat ::
                    && IsTop(layers, pageCount, p, k) && HoldsPage(layers, pageSize, p, k)
                    && s.memfd[p] == Some(PageBytes(layers, pageSize, p, k)))
  {
    hide Runs, LoaderWritesOnly, End;
    PoliteRunIsSound(backend, steps);
    var s := End(Empty(backend), steps).store;
    assert PageOk(s, p);
    if !s.meta[p].SharedReady? {
      return;
    }
    assert PageContent(layers, pageSize, pageCount, p).Some?;
  }
}
