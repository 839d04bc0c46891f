/** The layered read-only page backend: one bitmap per layer, the highest layer with the bit wins. */
module Overlay {
  import opened Base

  import opened Bits

  type Bitmap = seq<Word>

  function BitmapWords(bits: nat): nat {
    (bits + 63) / 64
  }

  function Mask(bit: nat): Word
    requires bit < 64
  {
    Pow2Grows(bit, 63);
    Pow2At64();
    Pow2(bit)
  }

  function OrWord(a: Word, b: Word): Word {
    Pow2At64();
    OrBound(a, b, 64);
    Or(a, b)
  }

  predicate BitmapGet(bitmap: Bitmap, bit: nat)
    requires bit / 64 < |bitmap|
  {
    And(bitmap[bit / 64], Mask(bit % 64)) != 0
  }

  lemma GetIsBit(bitmap: Bitmap, bit: nat)
    requires bit / 64 < |bitmap|
    ensures BitmapGet(bitmap, bit) <==> Bit(bitmap[bit / 64], bit % 64)
  {
    AndPow2(bitmap[bit / 64], bit % 64);
  }

  function BitmapWith(bitmap: Bitmap, bit: nat): Bitmap
    requires bit / 64 < |bitmap|
  {
    bitmap[bit / 64 := OrWord(bitmap[bit / 64], Mask(bit % 64))]
  }

  /** Setting a bit sets that bit and no other. */
  lemma BitmapWithGet(bitmap: Bitmap, bit: nat, j: nat)
    requires bit / 64 < |bitmap| && j / 64 < |bitmap|
    ensures BitmapGet(BitmapWith(bitmap, bit), j) <==> j == bit || BitmapGet(bitmap, j)
  {
    GetIsBit(bitmap, j);
    GetIsBit(BitmapWith(bitmap, bit), j);
    OrBit(bitmap[bit / 64], Mask(bit % 64), j % 64);
    Pow2Bit(bit % 64, j % 64);
  }

  datatype Layer = Layer(name: string, file: seq<Byte>, bitmap: Bitmap)

  datatype PageLocation = PageLocation(layerName: string, offset: nat)

  ghost predicate LayersOk(layers: seq<Layer>, pageCount: nat) {
    forall k :: 0 <= k < |layers| ==> |layers[k].bitmap| == BitmapWords(pageCount)
  }

  /** The page is backed by layer `k` and by no layer above it. */
  ghost predicate IsTop(layers: seq<Layer>, pageCount: nat, page: nat, k: nat)
    requires LayersOk(layers, pageCount) && page < pageCount
  {
    && k < |layers| && BitmapGet(layers[k].bitmap, page)
    && forall m :: k < m < |layers| ==> !BitmapGet(layers[m].bitmap, page)
  }

  lemma TopIsUnique(layers: seq<Layer>, pageCount: nat, page: nat, k: nat, m: nat)
    requires LayersOk(layers, pageCount) && page < pageCount
    requires IsTop(layers, pageCount, page, k) && IsTop(layers, pageCount, page, m)
    ensures k == m
  {
  }

  /** The bytes the layer files hold for a page, read from the top layer that claims it. */
  ghost function PageBytes(layers: seq<Layer>, pageSize: nat, page: nat, k: nat): seq<Byte>
    requires k < |layers| && (page + 1) * pageSize <= |layers[k].file|
    requires page * pageSize <= (page + 1) * pageSize
  {
    layers[k].file[page * pageSize..(page + 1) * pageSize]
  }

  ghost predicate HoldsPage(layers: seq<Layer>, pageSize: nat, page: nat, k: nat) {
    k < |layers| && page * pageSize <= (page + 1) * pageSize <= |layers[k].file|
  }

  /** A page's content: the top layer's bytes, if a layer claims it and its file reaches that far. */
  ghost function PageContent(layers: seq<Layer>, pageSize: nat, pageCount: nat, page: nat): Option<seq<Byte>>
    requires LayersOk(layers, pageCount) && page < pageCount
  {
    if exists k: nat :: IsTop(layers, pageCount, page, k) && HoldsPage(layers, pageSize, page, k) then
      var k: nat :| IsTop(layers, pageCount, page, k) && HoldsPage(layers, pageSize, page, k);
      Some(PageBytes(layers, pageSize, page, k))
    else None
  }

  /** Bit `page` of the merged bitmap is the disjunction over the first `n` layers. */
  ghost predicate Merges(merged: Bitmap, layers: seq<Layer>, n: nat, pageCount: nat)
    requires LayersOk(layers, pageCount) && n <= |layers|
  {
    && |merged| == BitmapWords(pageCount)
    && forall page: nat :: page / 64 < |merged| ==>
         (BitmapGet(merged, page) <==> exists k :: 0 <= k < n && BitmapGet(layers[k].bitmap, page))
  }

  lemma MergeOne(before: Bitmap, after: Bitmap, layers: seq<Layer>, n: nat, pageCount: nat)
    requires LayersOk(layers, pageCount) && n < |layers| && Merges(before, layers, n, pageCount)
    requires |after| == |before| && forall w :: 0 <= w < |after| ==> after[w] == OrWord(before[w], layers[n].bitmap[w])
    ensures Merges(after, layers, n + 1, pageCount)
  {
    forall page: nat | page / 64 < |after|
      ensures BitmapGet(after, page) <==> exists k :: 0 <= k < n + 1 && BitmapGet(layers[k].bitmap, page)
    {
      GetIsBit(before, page);
      GetIsBit(after, page);
      GetIsBit(layers[n].bitmap, page);
      OrBit(before[page / 64], layers[n].bitmap[page / 64], page % 64);
      assert BitmapGet(after, page) <==> BitmapGet(before, page) || BitmapGet(layers[n].bitmap, page);
    }
  }

  /**
    pread(2), retried on EINTR: a negative count is an error, zero means end of file. Files on a reliable
    host never give an error, but may still give fewer bytes than asked for.
   */
  method PreadSome(file: seq<Byte>, dst: array<Byte>, from: nat, offset: nat, reliable: bool) returns (n: int)
    requires from <= dst.Length
    modifies dst
    ensures n <= dst.Length - from && (reliable ==> n >= 0)
    ensures n > 0 ==>
              offset + n <= |file| && dst[..] == old(dst[..from]) + file[offset..offset + n] + old(dst[from + n..])
    ensures n <= 0 ==> dst[..] == old(dst[..])
    ensures n == 0 ==> from == dst.Length || offset >= |file|
  {
    if from == dst.Length || offset >= |file| {
      return 0;
    }
    var most := Min(dst.Length - from, |file| - offset);
    assert 1 <= most;
    n :| -1 <= n <= most && n != 0 && (reliable ==> n > 0);
    forall i | 0 <= i < n {
      dst[from + i] := file[offset + i];
    }
  }

  /** Fills the whole buffer however the reads come back, or fails. */
  method PreadExact(file: seq<Byte>, dst: array<Byte>, offset: nat, reliable: bool) returns (r: Outcome)
    modifies dst
    ensures reliable && (offset + dst.Length <= |file| || dst.Length == 0) ==> r.Ok?
    ensures r.Ok? ==> offset + dst.Length <= |file| || dst.Length == 0
    ensures r.Ok? && dst.Length > 0 ==> dst[..] == file[offset..offset + dst.Length]
    ensures r.Ok? && dst.Length == 0 ==> dst[..] == []
  {
    var done := 0;
    while done < dst.Length
      invariant 0 <= done <= dst.Length
      invariant done > 0 ==> offset + done <= |file| && dst[..done] == file[offset..offset + done]
    {
      var n := PreadSome(file, dst, done, offset + done, reliable);
      if n < 0 || n == 0 {
        return Err;
      }
      done := done + n;
    }
    return Ok;
  }

  class OverlayBackend {
    const pageSize: nat
    const pageCount: nat
    const layers: seq<Layer>
    const reliable: bool
    var merged: Bitmap

    ghost predicate Valid()
      reads this
    {
      && pageSize > 0 && pageCount > 0 && layers != [] && LayersOk(layers, pageCount)
      && Merges(merged, layers, |layers|, pageCount)
    }

    constructor (pageSize: nat, pageCount: nat, layers: seq<Layer>, reliable: bool)
      requires pageSize > 0 && pageCount > 0 && layers != [] && LayersOk(layers, pageCount)
      ensures Valid() && this.pageSize == pageSize && this.pageCount == pageCount && this.layers == layers
      ensures this.reliable == reliable
    {
      this.pageSize, this.pageCount, this.layers, this.reliable := pageSize, pageCount, layers, reliable;
      merged := [];
      new;
      RebuildMergedBitmap();
    }

    method RebuildMergedBitmap()
      requires LayersOk(layers, pageCount)
      modifies this
      ensures Merges(merged, layers, |layers|, pageCount)
    {
      merged := seq(BitmapWords(pageCount), w => 0);
      for n := 0 to |layers|
        invariant Merges(merged, layers, n, pageCount)
      {
        ghost var before := merged;
        for w := 0 to |layers[n].bitmap|
          invariant |merged| == |before|
          invariant forall v :: 0 <= v < w ==> merged[v] == OrWord(before[v], layers[n].bitmap[v])
          invariant forall v :: w <= v < |merged| ==> merged[v] == before[v]
        {
          merged := merged[w := OrWord(merged[w], layers[n].bitmap[w])];
        }
        MergeOne(before, merged, layers, n, pageCount);
      }
    }

    /** Which layer serves a page, if any: the loop over the layers from the top. */
    method TopLayer(page: nat) returns (top: Option<nat>)
      requires Valid() && page < pageCount
      ensures top.None? <==> !BitmapGet(merged, page)
      ensures top.Some? ==> IsTop(layers, pageCount, page, top.value)
    {
      var k := |layers|;
      while k > 0
        invariant 0 <= k <= |layers|
        invariant forall m :: k <= m < |layers| ==> !BitmapGet(layers[m].bitmap, page)
      {
        k := k - 1;
        if BitmapGet(layers[k].bitmap, page) {
          return Some(k);
        }
      }
      return None;
    }

    method Locate(page: nat) returns (r: Option<PageLocation>)
      requires Valid()
      ensures r.Some? <==> page < pageCount && BitmapGet(merged, page)
      ensures r.Some? ==> exists k: nat ::
                IsTop(layers, pageCount, page, k) && r.value == PageLocation(layers[k].name, page * pageSize)
    {
      if page >= pageCount {
        return None;
      }
      var top := TopLayer(page);
      if top.None? {
        return None;
      }
      return Some(PageLocation(layers[top.value].name, page * pageSize));
    }

    /** A successful read names the location `Locate` names and leaves that layer's bytes in the buffer. */
    method ReadPage(page: nat, dst: array<Byte>) returns (r: Option<PageLocation>)
      requires Valid()
      modifies dst
      ensures r.Some? ==> dst.Length == pageSize && page < pageCount && BitmapGet(merged, page)
      ensures r.Some? ==> exists k: nat ::
                && IsTop(layers, pageCount, page, k) && r.value == PageLocation(layers[k].name, page * pageSize)
                && HoldsPage(layers, pageSize, page, k) && dst[..] == PageBytes(layers, pageSize, page, k)
      ensures r.Some? ==> PageContent(layers, pageSize, pageCount, page) == Some(dst[..])
      ensures reliable ==>
                (r.Some? <==>
                 dst.Length == pageSize && page < pageCount && PageContent(layers, pageSize, pageCount, page).Some?)
    {
      if dst.Length != pageSize || page >= pageCount {
        return None;
      }
      var top := TopLayer(page);
      if top.None? {
        return None;
      }
      var outcome := PreadExact(layers[top.value].file, dst, page * pageSize, reliable);
      assert (page + 1) * pageSize == page * pageSize + pageSize;
      if outcome.Err? {
        return None;
      }
      return Some(PageLocation(layers[top.value].name, page * pageSize));
    }
  }

  /** OverlayBackend::new refuses empty geometry, no layers, and bitmaps of the wrong length. */
  method NewBackend(pageSize: nat, pageCount: nat, layers: seq<Layer>, reliable: bool)
    returns (r: Option<OverlayBackend>)
    ensures r.Some? <==> pageSize > 0 && pageCount > 0 && layers != [] && LayersOk(layers, pageCount)
    ensures r.Some? ==> fresh(r.value) && r.value.Valid() && r.value.layers == layers
                        && r.value.pageSize == pageSize && r.value.pageCount == pageCount &&
                          r.value.reliable == reliable
  {
    if pageSize == 0 || pageCount == 0 || layers == [] {
      return None;
    }
    for k := 0 to |layers|
      invariant forall m :: 0 <= m < k ==> |layers[m].bitmap| == BitmapWords(pageCount)
    {
      if |layers[k].bitmap| != BitmapWords(pageCount) {
        return None;
      }
    }
    var backend := new OverlayBackend(pageSize, pageCount, layers, reliable);
    return Some(backend);
  }
}
