/** Virtio block requests whose buffers do not meet the alignment of direct I/O, and the bounce buffers that do. */
module BounceRequest {
  import opened Base
  import opened Bits
  import opened Iovec

  const SECTOR_SIZE: nat := 512

  datatype Kind = In | Out | Other

  datatype Descriptor = Descriptor(addr: nat, len: nat)

  /** Why a request failed: past the disk, not in guest memory, no bounce buffer to be had, or the device's fault. */
  datatype ExecuteError = BadRequest | GetHostAddress | TemporaryBufferAllocation | AsyncIo

  /** A pending copy between a guest buffer and its bounce buffer. */
  datatype AlignedOp = AlignedOp(origin: nat, aligned: nat, size: nat)

  /** The descriptors that carry data, as buffers in guest memory: what direct execution would use. */
  function Direct(descs: seq<Descriptor>, n: nat): seq<Iovec>
    requires n <= |descs|
  {
    if n == 0 then []
    else if descs[n - 1].len == 0 then Direct(descs, n - 1)
    else Direct(descs, n - 1) + [Iovec(descs[n - 1].addr, descs[n - 1].len)]
  }

  /** Direct I/O takes buffers at such addresses only. */
  predicate AlignedTo(base: nat, alignment: nat) {
    alignment > 0 && base % alignment == 0
  }

  /** Every buffer handed to the device starts at a multiple of the alignment. */
  predicate AllAligned(iovs: seq<Iovec>, alignment: nat) {
    forall i :: 0 <= i < |iovs| ==> AlignedTo(iovs[i].base, alignment)
  }

  lemma AllAlignedSoFar(iovs: seq<Iovec>, alignment: nat)
    ensures AllAligned([], alignment)
    ensures forall v: Iovec :: AllAligned(iovs, alignment) && AlignedTo(v.base, alignment) ==>
              AllAligned(iovs + [v], alignment)
  {
  }

  predicate NeedsBounce(d: Descriptor, alignment: nat) {
    d.len > 0 && alignment > 0 && d.addr % alignment != 0
  }

  /** How many of the first `n` data buffers need a bounce buffer. */
  function Misaligned(descs: seq<Descriptor>, n: nat, alignment: nat): nat
    requires n <= |descs|
  {
    if n == 0 then 0 else Misaligned(descs, n - 1, alignment) + if NeedsBounce(descs[n - 1], alignment) then 1 else 0
  }

  lemma MisalignedStep(descs: seq<Descriptor>, n: nat, alignment: nat)
    requires n < |descs|
    ensures Misaligned(descs, 0, alignment) == 0
    ensures Misaligned(descs, n + 1, alignment) ==
              Misaligned(descs, n, alignment) + if NeedsBounce(descs[n], alignment) then 1 else 0
    ensures descs[n].len == 0 ==> !NeedsBounce(descs[n], alignment)
  {
  }

  /** None of them is needed exactly when every non-empty buffer is aligned. */
  lemma {:induction false} NoneMisaligned(descs: seq<Descriptor>, n: nat, alignment: nat)
    requires n <= |descs|
    ensures Misaligned(descs, n, alignment) == 0 <==> forall i :: 0 <= i < n ==> !NeedsBounce(descs[i], alignment)
  {
    hide NeedsBounce;
    if n > 0 {
      NoneMisaligned(descs, n - 1, alignment);
    }
  }

  /** Sectors a buffer of `len` bytes spans. */
  function Sectors(len: nat): nat {
    if len % SECTOR_SIZE != 0 then len / SECTOR_SIZE + 1 else len / SECTOR_SIZE
  }

  predicate SectorOk(len: nat, sector: nat, diskSectors: nat) {
    Sectors(len) + sector < U64 && Sectors(len) + sector <= diskSectors
  }

  /** The check admits exactly the buffers that, placed at the request's sector, end inside the disk. */
  lemma SectorOkIff(len: nat, sector: nat, diskSectors: nat)
    requires diskSectors < U64
    ensures SectorOk(len, sector, diskSectors) <==> sector * SECTOR_SIZE + len <= diskSectors * SECTOR_SIZE
  {
  }

  /** Guest memory hands out a slice only at an address it has. */
  predicate SliceOk(addr: nat, len: nat, guestLen: nat) {
    addr < guestLen && addr + len <= guestLen
  }

  /** Buffer `v` of `m` holds what buffer `d` held in `was`. */
  predicate Holds(m: seq<Byte>, v: Iovec, was: seq<Byte>, d: Iovec) {
    && v.base + v.len <= |m| && d.base + v.len <= |was|
    && forall a :: v.base <= a < v.base + v.len ==> m[a] == was[d.base + (a - v.base)]
  }

  predicate SameBelow(m: seq<Byte>, was: seq<Byte>, n: nat) {
    |m| == |was| && n <= |m| && forall a :: 0 <= a < n ==> m[a] == was[a]
  }

  /** Guest RAM and the given blocks are as they were. */
  predicate Spared(m: seq<Byte>, was: seq<Byte>, blocks: set<Iovec>, guestLen: nat) {
    SameBelow(m, was, guestLen) && forall b :: b in blocks ==> Holds(m, b, was, b)
  }

  /** Host memory: the guest's RAM below `guestLen`, the heap above. */
  class Host {
    const mem: array<Byte>
    const guestLen: nat
    const reliable: bool
    var live: set<Iovec>

    constructor (mem: array<Byte>, guestLen: nat, reliable: bool)
      requires guestLen <= mem.Length
      ensures Valid() && live == {} && this.mem == mem && this.guestLen == guestLen && this.reliable == reliable
    {
      this.mem, this.guestLen, this.reliable, live := mem, guestLen, reliable, {};
    }

    predicate Fits(p: nat, n: nat, alignment: nat)
      requires alignment > 0
      reads this
    {
      && guestLen <= p && p + n <= mem.Length && p % alignment == 0
      && forall b :: b in live ==> Apart(b, Iovec(p, n))
    }

    /** The heap has a place for a block. */
    predicate Room(n: nat, alignment: nat)
      requires alignment > 0
      reads this
    {
      exists p :: guestLen <= p <= mem.Length && Fits(p, n, alignment)
    }

    /** Allocated blocks are non-empty, lie in the heap and do not overlap. */
    predicate Valid()
      reads this
    {
      && guestLen <= mem.Length
      && (forall b :: b in live ==> b.len > 0 && guestLen <= b.base && b.base + b.len <= mem.Length)
      && (forall b, c :: b in live && c in live && b != c ==> Apart(b, c))
    }

    /** Allocates a zeroed block at an aligned address, or fails; a reliable host fails for lack of room only. */
    method Alloc(n: nat, alignment: nat) returns (r: Option<nat>)
      requires Valid() && n > 0 && alignment > 0
      modifies this`live, mem
      ensures Valid()
      ensures r.None? ==> live == old(live) && mem[..] == old(mem[..]) && (reliable ==> !Room(n, alignment))
      ensures r.Some? ==>
                && r.value % alignment == 0 && Iovec(r.value, n) !in old(live) &&
                  live == old(live) + {Iovec(r.value, n)}
                && forall a :: 0 <= a < mem.Length ==> mem[a] == if r.value <= a < r.value + n then 0 else old(mem[a])
    {
      var fails: bool := *;
      if !Room(n, alignment) || (fails && !reliable) {
        return None;
      }
      var p :| guestLen <= p <= mem.Length && Fits(p, n, alignment);
      forall i | 0 <= i < n {
        mem[p + i] := 0;
      }
      live := live + {Iovec(p, n)};
      return Some(p);
    }

    /** Allocates a block for guest buffer `d` and, if asked, copies its bytes there. */
    method AllocFor(d: Iovec, alignment: nat, copyIn: bool) returns (r: Option<nat>)
      requires Valid() && d.len > 0 && d.base + d.len <= guestLen && alignment > 0
      modifies this`live, mem
      ensures Valid() && Spared(mem[..], old(mem[..]), old(live), guestLen)
      ensures r.None? ==> live == old(live) && (reliable ==> !Room(d.len, alignment))
      ensures r.Some? ==>
                && AlignedTo(r.value, alignment)
                && Iovec(r.value, d.len) !in old(live) && live == old(live) + {Iovec(r.value, d.len)}
                && (copyIn ==> Holds(mem[..], Iovec(r.value, d.len), old(mem[..]), d))
    {
      r := Alloc(d.len, alignment);
      if r.Some? {
        if copyIn {
          Copy(r.value, d.base, d.len);
        }
        forall b | b in old(live)
          ensures Holds(mem[..], b, old(mem[..]), b)
        {
          assert Apart(b, Iovec(r.value, d.len));
        }
      }
    }

    /** Releases a block; only a block that is allocated can be released. */
    method Dealloc(b: Iovec)
      requires Valid() && b in live
      modifies this`live
      ensures Valid() && live == old(live) - {b}
    {
      live := live - {b};
    }

    method Copy(dst: nat, src: nat, n: nat)
      requires dst + n <= mem.Length && src + n <= mem.Length
      requires Apart(Iovec(dst, n), Iovec(src, n))
      modifies mem
      ensures forall a :: 0 <= a < mem.Length ==>
                mem[a] == if dst <= a < dst + n then old(mem[src + a - dst]) else old(mem[a])
    {
      forall i | 0 <= i < n {
        mem[dst + i] := mem[src + i];
      }
    }
  }

  function Block(op: AlignedOp): Iovec {
    Iovec(op.aligned, op.size)
  }

  /** Buffer `v` stands for guest buffer `d`: it is that buffer, or a heap block with a pending copy. */
  predicate Matched(d: Iovec, v: Iovec, ops: seq<AlignedOp>, guestLen: nat) {
    && v.len == d.len > 0 && d.base + d.len <= guestLen
    && (v == d || (v.base >= guestLen && AlignedOp(d.base, v.base, v.len) in ops))
  }

  /** A pending copy belongs to one of the buffers. */
  predicate Explained(op: AlignedOp, direct: seq<Iovec>, iovs: seq<Iovec>, guestLen: nat)
    requires |iovs| == |direct|
  {
    exists i :: 0 <= i < |iovs| && iovs[i].base >= guestLen &&
      op == AlignedOp(direct[i].base, iovs[i].base, iovs[i].len)
  }

  predicate Linked(direct: seq<Iovec>, iovs: seq<Iovec>, ops: seq<AlignedOp>, guestLen: nat) {
    && |iovs| == |direct|
    && (forall i :: 0 <= i < |iovs| ==> Matched(direct[i], iovs[i], ops, guestLen))
    && (forall k :: 0 <= k < |ops| ==> Explained(ops[k], direct, iovs, guestLen))
  }

  /** The heap holds what it held before and the blocks of the pending copies from `n` on, each once. */
  ghost predicate Ledger(ops: seq<AlignedOp>, n: nat, before: set<Iovec>, live: set<Iovec>) {
    && (forall k :: n <= k < |ops| ==> Block(ops[k]) in live && Block(ops[k]) !in before)
    && (forall b :: b in before ==> b in live)
    && (forall b :: b in live && b !in before ==> exists k :: n <= k < |ops| && Block(ops[k]) == b)
    && (forall j, k :: n <= j < k < |ops| ==> Block(ops[j]) != Block(ops[k]))
  }

  lemma LedgerMore(ops: seq<AlignedOp>, before: set<Iovec>, live: set<Iovec>, op: AlignedOp)
    requires Ledger(ops, 0, before, live) && Block(op) !in live
    ensures Ledger(ops + [op], 0, before, live + {Block(op)})
  {
    var more := ops + [op];
    forall b | b in live + {Block(op)} && b !in before
      ensures exists k :: 0 <= k < |more| && Block(more[k]) == b
    {
      if b in live {
        var k :| 0 <= k < |ops| && Block(ops[k]) == b;
        assert more[k] == ops[k];
      } else {
        assert more[|ops|] == op;
      }
    }
  }

  predicate HeapApart(iovs: seq<Iovec>, guestLen: nat) {
    forall i, j :: 0 <= i < j < |iovs| && iovs[i].base >= guestLen && iovs[j].base >= guestLen ==>
      Apart(iovs[i], iovs[j])
  }

  predicate AllHold(m: seq<Byte>, iovs: seq<Iovec>, was: seq<Byte>, direct: seq<Iovec>) {
    |iovs| == |direct| && forall i :: 0 <= i < |iovs| ==> Holds(m, iovs[i], was, direct[i])
  }

  predicate Allocated(iovs: seq<Iovec>, live: set<Iovec>, guestLen: nat) {
    forall i :: 0 <= i < |iovs| && iovs[i].base >= guestLen ==> iovs[i] in live
  }

  /** The buffers prepared so far: linked to the guest's, apart on the heap and, for a write, filled. */
  ghost predicate Ready(direct: seq<Iovec>, iovs: seq<Iovec>, ops: seq<AlignedOp>, guestLen: nat,
                        m: seq<Byte>, was: seq<Byte>, filled: bool, live: set<Iovec>)
  {
    && Linked(direct, iovs, ops, guestLen) && HeapApart(iovs, guestLen) && Allocated(iovs, live, guestLen)
    && SameBelow(m, was, guestLen) && (filled ==> AllHold(m, iovs, was, direct))
  }

  lemma LinkedMore(direct: seq<Iovec>, iovs: seq<Iovec>, ops: seq<AlignedOp>, guestLen: nat,
                   d: Iovec, v: Iovec, more: seq<AlignedOp>)
    requires Linked(direct, iovs, ops, guestLen) && Matched(d, v, more, guestLen)
    requires if v == d then more == ops else more == ops + [AlignedOp(d.base, v.base, v.len)] && v.base >= guestLen
    ensures Linked(direct + [d], iovs + [v], more, guestLen)
  {
    var ds, vs := direct + [d], iovs + [v];
    forall i | 0 <= i < |vs|
      ensures Matched(ds[i], vs[i], more, guestLen)
    {
      if i < |iovs| {
        assert Matched(direct[i], iovs[i], ops, guestLen);
      }
    }
    forall k | 0 <= k < |more|
      ensures Explained(more[k], ds, vs, guestLen)
    {
      if k < |ops| {
        assert Explained(ops[k], direct, iovs, guestLen);
        var i :| 0 <= i < |iovs| && iovs[i].base >= guestLen &&
          ops[k] == AlignedOp(direct[i].base, iovs[i].base, iovs[i].len);
        assert vs[i] == iovs[i] && ds[i] == direct[i];
      } else {
        assert vs[|iovs|] == v && ds[|iovs|] == d;
      }
    }
  }

  lemma ReadyDirect(direct: seq<Iovec>, iovs: seq<Iovec>, ops: seq<AlignedOp>, guestLen: nat,
                    m: seq<Byte>, was: seq<Byte>, filled: bool, live: set<Iovec>, d: Iovec)
    requires Ready(direct, iovs, ops, guestLen, m, was, filled, live) && d.len > 0 && d.base + d.len <= guestLen
    ensures Ready(direct + [d], iovs + [d], ops, guestLen, m, was, filled, live)
  {
    LinkedMore(direct, iovs, ops, guestLen, d, d, ops);
    hide Linked;
  }

  lemma HoldsThen(m: seq<Byte>, v: Iovec, mid: seq<Byte>, was: seq<Byte>, d: Iovec)
    requires Holds(m, v, mid, v) && Holds(mid, v, was, d)
    ensures Holds(m, v, was, d)
  {
  }

  lemma FilledStays(direct: seq<Iovec>, iovs: seq<Iovec>, ops: seq<AlignedOp>, guestLen: nat, m: seq<Byte>,
                    was: seq<Byte>, live: set<Iovec>, m': seq<Byte>)
    requires Linked(direct, iovs, ops, guestLen) && Allocated(iovs, live, guestLen) && AllHold(m, iovs, was, direct)
    requires Spared(m', m, live, guestLen)
    ensures AllHold(m', iovs, was, direct)
  {
    forall i | 0 <= i < |iovs|
      ensures Holds(m', iovs[i], was, direct[i])
    {
      assert Matched(direct[i], iovs[i], ops, guestLen);
      HoldsThen(m', iovs[i], m, was, direct[i]);
    }
  }

  lemma ReadyBounced(direct: seq<Iovec>, iovs: seq<Iovec>, ops: seq<AlignedOp>, guestLen: nat,
                     m: seq<Byte>, was: seq<Byte>, filled: bool, live: set<Iovec>,
                     m': seq<Byte>, live': set<Iovec>, d: Iovec, v: Iovec)
    requires Ready(direct, iovs, ops, guestLen, m, was, filled, live) && Spared(m', m, live, guestLen) && live <= live'
    requires d.len > 0 && d.base + d.len <= guestLen && v.len == d.len && v.base >= guestLen && v in live'
    requires forall b :: b in live ==> Apart(b, v)
    requires filled ==> Holds(m', v, m, d)
    ensures Ready(direct + [d], iovs + [v], ops + [AlignedOp(d.base, v.base, v.len)], guestLen, m', was, filled, live')
  {
    var more := ops + [AlignedOp(d.base, v.base, v.len)];
    assert more[|ops|] == AlignedOp(d.base, v.base, v.len);
    LinkedMore(direct, iovs, ops, guestLen, d, v, more);
    if filled {
      FilledStays(direct, iovs, ops, guestLen, m, was, live, m');
    }
    hide Linked;
  }

  // ---------------------------------------------------------------- the device's side

  /** Buffers of equal lengths cut the stream at the same positions. */
  lemma {:induction false} SameStart(a: seq<Iovec>, b: seq<Iovec>, k: nat)
    requires |a| == |b| && k <= |a| && forall i :: 0 <= i < |a| ==> a[i].len == b[i].len
    ensures Start(a, k) == Start(b, k)
  {
    if k > 0 {
      SameStart(a, b, k - 1);
    }
  }

  lemma SameTotal(direct: seq<Iovec>, iovs: seq<Iovec>, ops: seq<AlignedOp>, guestLen: nat)
    requires Linked(direct, iovs, ops, guestLen)
    ensures Total(iovs) == Total(direct)
  {
    forall i | 0 <= i < |iovs|
      ensures iovs[i].len == direct[i].len
    {
      assert Matched(direct[i], iovs[i], ops, guestLen);
    }
    SameStart(iovs, direct, |iovs|);
  }

  /** Stream byte `p` lies in the same buffer, at the same place, of either list. */
  lemma SamePlace(direct: seq<Iovec>, iovs: seq<Iovec>, ops: seq<AlignedOp>, guestLen: nat, p: nat)
    returns (i: nat, j: nat)
    requires Linked(direct, iovs, ops, guestLen) && p < Total(direct)
    ensures Total(iovs) == Total(direct) && i < |direct| && j < direct[i].len &&
            Matched(direct[i], iovs[i], ops, guestLen)
    ensures Addr(direct, p) == direct[i].base + j && Addr(iovs, p) == iovs[i].base + j
  {
    SameTotal(direct, iovs, ops, guestLen);
    forall k | 0 <= k < |iovs|
      ensures iovs[k].len == direct[k].len
    {
      assert Matched(direct[k], iovs[k], ops, guestLen);
    }
    i := Holder(direct, |direct|, p);
    j := p - Start(direct, i);
    SameStart(iovs, direct, i);
    AddrIs(direct, i, p);
    AddrIs(iovs, i, p);
    assert Matched(direct[i], iovs[i], ops, guestLen);
  }

  lemma LinkedInBounds(direct: seq<Iovec>, iovs: seq<Iovec>, ops: seq<AlignedOp>, guestLen: nat, n: nat)
    requires Linked(direct, iovs, ops, guestLen) && guestLen <= n
    requires forall i :: 0 <= i < |iovs| && iovs[i].base >= guestLen ==> iovs[i].base + iovs[i].len <= n
    ensures InBounds(direct, n) && InBounds(iovs, n)
  {
    forall i | 0 <= i < |iovs|
      ensures direct[i].base + direct[i].len <= n && iovs[i].base + iovs[i].len <= n
    {
      assert Matched(direct[i], iovs[i], ops, guestLen);
    }
  }

  lemma LinkedDisjoint(direct: seq<Iovec>, iovs: seq<Iovec>, ops: seq<AlignedOp>, guestLen: nat)
    requires Linked(direct, iovs, ops, guestLen) && HeapApart(iovs, guestLen) && Disjoint(direct)
    ensures Disjoint(iovs)
  {
    forall i, j | 0 <= i < j < |iovs|
      ensures Apart(iovs[i], iovs[j])
    {
      assert Matched(direct[i], iovs[i], ops, guestLen);
      assert Matched(direct[j], iovs[j], ops, guestLen);
      assert Apart(direct[i], direct[j]);
    }
  }

  /** A write: the device reads from the prepared buffers what it would have read from the guest's. */
  lemma BouncedStream(direct: seq<Iovec>, iovs: seq<Iovec>, ops: seq<AlignedOp>, guestLen: nat, m: seq<Byte>,
                      was: seq<Byte>)
    requires Linked(direct, iovs, ops, guestLen) && AllHold(m, iovs, was, direct)
    requires InBounds(iovs, |m|) && InBounds(direct, |was|)
    ensures Flat(m, iovs) == Flat(was, direct)
  {
    hide Flat, Total, Addr, Linked, InBounds;
    SameTotal(direct, iovs, ops, guestLen);
    forall p | 0 <= p < Total(direct)
      ensures Flat(m, iovs)[p] == Flat(was, direct)[p]
    {
      var i, j := SamePlace(direct, iovs, ops, guestLen, p);
      assert Holds(m, iovs[i], was, direct[i]);
      FlatAt(m, iovs, p);
      FlatAt(was, direct, p);
    }
  }

  // ---------------------------------------------------------------- copying back

  predicate Targets(op: AlignedOp, a: int) {
    op.origin <= a < op.origin + op.size
  }

  /** Byte `a` after the first `n` pending copies. */
  function CopiedBack(m: seq<Byte>, ops: seq<AlignedOp>, n: nat, a: nat): Byte
    requires n <= |ops| && a < |m| && forall k :: 0 <= k < |ops| ==> ops[k].aligned + ops[k].size <= |m|
  {
    if n == 0 then m[a]
    else if Targets(ops[n - 1], a) then m[ops[n - 1].aligned + (a - ops[n - 1].origin)]
    else CopiedBack(m, ops, n - 1, a)
  }

  /** In disjoint guest buffers, a byte of a bounced buffer gets the byte of its bounce buffer. */
  lemma {:induction false} CopiedInto(m: seq<Byte>, direct: seq<Iovec>, iovs: seq<Iovec>, ops: seq<AlignedOp>,
                                      guestLen: nat, n: nat, i: nat, j: nat)
    requires Linked(direct, iovs, ops, guestLen) && Disjoint(direct) && guestLen <= |m|
    requires forall k :: 0 <= k < |ops| ==> ops[k].aligned + ops[k].size <= |m|
    requires n <= |ops| && i < |direct| && j < direct[i].len && iovs[i].base >= guestLen
    requires exists k :: 0 <= k < n && ops[k] == AlignedOp(direct[i].base, iovs[i].base, iovs[i].len)
    ensures direct[i].base + j < |m| && iovs[i].base + j < |m|
    ensures CopiedBack(m, ops, n, direct[i].base + j) == m[iovs[i].base + j]
    decreases n
  {
    assert Matched(direct[i], iovs[i], ops, guestLen);
    var a := direct[i].base + j;
    assert Explained(ops[n - 1], direct, iovs, guestLen);
    var h :| 0 <= h < |iovs| && iovs[h].base >= guestLen &&
      ops[n - 1] == AlignedOp(direct[h].base, iovs[h].base, iovs[h].len);
    assert Matched(direct[h], iovs[h], ops, guestLen);
    if Targets(ops[n - 1], a) {
      SameBuffer(direct, h, i, a);
    } else {
      CopiedInto(m, direct, iovs, ops, guestLen, n - 1, i, j);
    }
  }

  lemma SameBuffer(direct: seq<Iovec>, h: nat, i: nat, a: int)
    requires Disjoint(direct) && h < |direct| && i < |direct| && Covers(direct[h], a) && Covers(direct[i], a)
    ensures h == i
  {
  }

  /** No other byte changes. */
  lemma {:induction false} CopiedElsewhere(m: seq<Byte>, direct: seq<Iovec>, iovs: seq<Iovec>, ops: seq<AlignedOp>,
                                           guestLen: nat, n: nat, a: nat)
    requires Linked(direct, iovs, ops, guestLen) && a < |m| && n <= |ops|
    requires forall k :: 0 <= k < |ops| ==> ops[k].aligned + ops[k].size <= |m|
    requires forall i :: 0 <= i < |direct| && iovs[i].base >= guestLen ==> !Covers(direct[i], a)
    ensures CopiedBack(m, ops, n, a) == m[a]
    decreases n
  {
    if n > 0 {
      assert Explained(ops[n - 1], direct, iovs, guestLen);
      var h :| 0 <= h < |iovs| && iovs[h].base >= guestLen &&
        ops[n - 1] == AlignedOp(direct[h].base, iovs[h].base, iovs[h].len);
      assert Matched(direct[h], iovs[h], ops, guestLen);
      CopiedElsewhere(m, direct, iovs, ops, guestLen, n - 1, a);
    }
  }

  lemma LedgerLess(ops: seq<AlignedOp>, n: nat, before: set<Iovec>, live: set<Iovec>)
    requires Ledger(ops, n, before, live) && n < |ops|
    ensures Block(ops[n]) in live && Ledger(ops, n + 1, before, live - {Block(ops[n])})
  {
    var rest := live - {Block(ops[n])};
    forall b | b in rest && b !in before
      ensures exists k :: n + 1 <= k < |ops| && Block(ops[k]) == b
    {
      var k :| n <= k < |ops| && Block(ops[k]) == b;
      assert k != n;
    }
  }

  lemma {:induction false} LedgerSize(ops: seq<AlignedOp>, n: nat, before: set<Iovec>, live: set<Iovec>)
    requires Ledger(ops, n, before, live) && n <= |ops|
    ensures |live| == |before| + |ops| - n
    decreases |ops| - n
  {
    hide Ledger;
    if n == |ops| {
      LedgerDone(ops, before, live);
    } else {
      LedgerLess(ops, n, before, live);
      LedgerSize(ops, n + 1, before, live - {Block(ops[n])});
    }
  }

  lemma LedgerDone(ops: seq<AlignedOp>, before: set<Iovec>, live: set<Iovec>)
    requires Ledger(ops, |ops|, before, live)
    ensures live == before
  {
  }

  /** The copies a request still owes go from the heap to guest RAM. */
  predicate Pending(ops: seq<AlignedOp>, guestLen: nat, n: nat) {
    forall k :: 0 <= k < |ops| ==>
      ops[k].origin + ops[k].size <= guestLen <= ops[k].aligned && ops[k].aligned + ops[k].size <= n
  }

  /** A read: after the copies back, guest RAM is what the device would have left there directly. */
  lemma CopiedIsDirect(direct: seq<Iovec>, iovs: seq<Iovec>, ops: seq<AlignedOp>, guestLen: nat, was: seq<Byte>,
                       m: seq<Byte>, data: seq<Byte>, a: nat)
    requires Linked(direct, iovs, ops, guestLen) && Disjoint(direct) && HeapApart(iovs, guestLen) &&
             |data| == Total(direct)
    requires |m| == |was| && SameBelow(m, was, guestLen) && Pending(ops, guestLen, |m|) && a < guestLen
    requires InBounds(iovs, |m|) && InBounds(direct, |m|)
    ensures CopiedBack(Scattered(m, iovs, 0, data), ops, |ops|, a) == Scattered(was, direct, 0, data)[a]
  {
    assert |iovs| == |direct|;
    hide CopiedBack, Linked, Start, Holder;
    SameTotal(direct, iovs, ops, guestLen);
    if Touches(direct, a) {
      var i :| 0 <= i < |direct| && Covers(direct[i], a);
      CopiedTouched(direct, iovs, ops, guestLen, was, m, data, i, a - direct[i].base);
    } else {
      CopiedUntouched(direct, iovs, ops, guestLen, was, m, data, a);
    }
  }

  lemma StreamAt(direct: seq<Iovec>, iovs: seq<Iovec>, ops: seq<AlignedOp>, guestLen: nat, i: nat, j: nat)
    returns (p: nat)
    requires Linked(direct, iovs, ops, guestLen) && i < |direct| && j < direct[i].len
    ensures p < Total(direct) == Total(iovs)
    ensures Addr(direct, p) == direct[i].base + j && Addr(iovs, p) == iovs[i].base + j
  {
    SameTotal(direct, iovs, ops, guestLen);
    forall k | 0 <= k < |iovs|
      ensures iovs[k].len == direct[k].len
    {
      assert Matched(direct[k], iovs[k], ops, guestLen);
    }
    p := Start(direct, i) + j;
    SameStart(iovs, direct, i);
    AddrIs(direct, i, p);
    AddrIs(iovs, i, p);
  }

  lemma CopiedTouched(direct: seq<Iovec>, iovs: seq<Iovec>, ops: seq<AlignedOp>, guestLen: nat, was: seq<Byte>,
                      m: seq<Byte>, data: seq<Byte>, i: nat, j: nat)
    requires Linked(direct, iovs, ops, guestLen) && Disjoint(direct) && HeapApart(iovs, guestLen) &&
             |data| == Total(direct)
    requires |m| == |was| && guestLen <= |m| && Pending(ops, guestLen, |m|)
    requires InBounds(iovs, |m|) && InBounds(direct, |m|) && i < |direct| == |iovs| && j < direct[i].len
    requires direct[i].base + j < |m|
    ensures CopiedBack(Scattered(m, iovs, 0, data), ops, |ops|, direct[i].base + j)
         == Scattered(was, direct, 0, data)[direct[i].base + j]
  {
    hide *;
    BothDeliver(direct, iovs, ops, guestLen, was, m, data, i, j);
    CopyDelivers(Scattered(m, iovs, 0, data), direct, iovs, ops, guestLen, i, j);
  }

  /** The device puts the same byte into the prepared buffer as into the guest's own. */
  lemma BothDeliver(direct: seq<Iovec>, iovs: seq<Iovec>, ops: seq<AlignedOp>, guestLen: nat, was: seq<Byte>,
                    m: seq<Byte>, data: seq<Byte>, i: nat, j: nat)
    requires Linked(direct, iovs, ops, guestLen) && Disjoint(direct) && HeapApart(iovs, guestLen) &&
             |data| == Total(direct)
    requires |m| == |was| && InBounds(iovs, |m|) && InBounds(direct, |m|) && i < |direct| == |iovs| && j < direct[i].len
    ensures iovs[i].base + j < |m| && direct[i].base + j < |was|
    ensures Scattered(m, iovs, 0, data)[iovs[i].base + j] == Scattered(was, direct, 0, data)[direct[i].base + j]
  {
    hide *;
    LinkedDisjoint(direct, iovs, ops, guestLen);
    var p := StreamAt(direct, iovs, ops, guestLen, i, j);
    Delivered(m, iovs, data, p);
    Delivered(was, direct, data, p);
  }

  lemma Delivered(m: seq<Byte>, iovs: seq<Iovec>, data: seq<Byte>, p: nat)
    requires InBounds(iovs, |m|) && Disjoint(iovs) && |data| == Total(iovs) && p < Total(iovs)
    ensures Addr(iovs, p) < |m| && Scattered(m, iovs, 0, data)[Addr(iovs, p)] == data[p]
  {
    hide Disjoint, Scattered, Flat, Addr, Total, InBounds;
    ScatterFlat(m, iovs, 0, data, p);
    FlatAt(Scattered(m, iovs, 0, data), iovs, p);
  }

  /** The copies back take the byte from the prepared buffer to the guest's own. */
  lemma CopyDelivers(m: seq<Byte>, direct: seq<Iovec>, iovs: seq<Iovec>, ops: seq<AlignedOp>, guestLen: nat, i: nat,
                     j: nat)
    requires Linked(direct, iovs, ops, guestLen) && Disjoint(direct) && guestLen <= |m| && Pending(ops, guestLen, |m|)
    requires i < |direct| == |iovs| && j < direct[i].len && InBounds(iovs, |m|) && InBounds(direct, |m|)
    ensures CopiedBack(m, ops, |ops|, direct[i].base + j) == m[iovs[i].base + j]
  {
    hide CopiedBack;
    assert Matched(direct[i], iovs[i], ops, guestLen);
    if iovs[i] == direct[i] {
      forall h | 0 <= h < |direct| && iovs[h].base >= guestLen
        ensures !Covers(direct[h], direct[i].base + j)
      {
        if Covers(direct[h], direct[i].base + j) {
          SameBuffer(direct, h, i, direct[i].base + j);
        }
      }
      CopiedElsewhere(m, direct, iovs, ops, guestLen, |ops|, direct[i].base + j);
    } else {
      CopiedInto(m, direct, iovs, ops, guestLen, |ops|, i, j);
    }
  }

  lemma FlatAt(m: seq<Byte>, iovs: seq<Iovec>, p: nat)
    requires InBounds(iovs, |m|) && p < Total(iovs)
    ensures Addr(iovs, p) < |m| && Flat(m, iovs)[p] == m[Addr(iovs, p)]
  {
  }

  lemma CopiedUntouched(direct: seq<Iovec>, iovs: seq<Iovec>, ops: seq<AlignedOp>, guestLen: nat, was: seq<Byte>,
                        m: seq<Byte>, data: seq<Byte>, a: nat)
    requires Linked(direct, iovs, ops, guestLen) && SameBelow(m, was, guestLen) && Pending(ops, guestLen, |m|)
    requires InBounds(iovs, |m|) && InBounds(direct, |m|) && a < guestLen && !Touches(direct, a)
    ensures CopiedBack(Scattered(m, iovs, 0, data), ops, |ops|, a) == Scattered(was, direct, 0, data)[a]
  {
    forall i | 0 <= i < |iovs|
      ensures !Covers(iovs[i], a) && !Covers(direct[i], a)
    {
      assert Matched(direct[i], iovs[i], ops, guestLen);
    }
    ScatterFrame(m, iovs, 0, data, a);
    ScatterFrame(was, direct, 0, data, a);
    hide Scattered;
    CopiedElsewhere(Scattered(m, iovs, 0, data), direct, iovs, ops, guestLen, |ops|, a);
  }

  lemma DirectStep(descs: seq<Descriptor>, n: nat)
    requires n < |descs|
    ensures Direct(descs, n + 1)
         == if descs[n].len == 0 then Direct(descs, n) else Direct(descs, n) + [Iovec(descs[n].addr, descs[n].len)]
  {
  }

  /** A buffer passes the checks: it is empty, or lies on the disk and in guest memory. */
  predicate BufferOk(d: Descriptor, sector: nat, diskSectors: nat, guestLen: nat) {
    d.len > 0 ==> SectorOk(d.len, sector, diskSectors) && SliceOk(d.addr, d.len, guestLen)
  }

  predicate BuffersOk(descs: seq<Descriptor>, n: nat, sector: nat, diskSectors: nat, guestLen: nat)
    requires n <= |descs|
  {
    forall i :: 0 <= i < n ==> BufferOk(descs[i], sector, diskSectors, guestLen)
  }

  predicate AllInMemory(descs: seq<Descriptor>, guestLen: nat) {
    forall i :: 0 <= i < |descs| ==> SliceOk(descs[i].addr, descs[i].len, guestLen)
  }

  /** The error that preparing buffer `d` reports. */
  predicate Blames(d: Descriptor, sector: nat, diskSectors: nat, guestLen: nat, alignment: nat, err: ExecuteError) {
    match err
    case BadRequest => d.len > 0 && !SectorOk(d.len, sector, diskSectors)
    case GetHostAddress => d.len > 0 && SectorOk(d.len, sector, diskSectors) && !SliceOk(d.addr, d.len, guestLen)
    case TemporaryBufferAllocation => BufferOk(d, sector, diskSectors, guestLen) && NeedsBounce(d, alignment)
    case AsyncIo => false
  }

  lemma BuffersOkStep(descs: seq<Descriptor>, n: nat, sector: nat, diskSectors: nat, guestLen: nat)
    requires n <= |descs|
    ensures BuffersOk(descs, 0, sector, diskSectors, guestLen)
    ensures n < |descs| && BuffersOk(descs, n, sector, diskSectors, guestLen)
            && (descs[n].len > 0 ==>
                  SectorOk(descs[n].len, sector, diskSectors) && SliceOk(descs[n].addr, descs[n].len, guestLen))
            ==> BuffersOk(descs, n + 1, sector, diskSectors, guestLen)
  {
    hide SectorOk, SliceOk;
  }

  /** The first buffer from `i` on that fails the checks; their number if none does. */
  function FirstBad(descs: seq<Descriptor>, i: nat, sector: nat, diskSectors: nat, guestLen: nat): (n: nat)
    requires i <= |descs|
    ensures i <= n <= |descs|
    decreases |descs| - i
  {
    if i == |descs| || !BufferOk(descs[i], sector, diskSectors, guestLen) then i
    else FirstBad(descs, i + 1, sector, diskSectors, guestLen)
  }

  lemma {:induction false} FirstBadIs(descs: seq<Descriptor>, i: nat, n: nat, sector: nat, diskSectors: nat,
                                      guestLen: nat)
    requires i <= n <= |descs| && forall j :: i <= j < n ==> BufferOk(descs[j], sector, diskSectors, guestLen)
    ensures n == |descs| || !BufferOk(descs[n], sector, diskSectors, guestLen) ==>
              FirstBad(descs, i, sector, diskSectors, guestLen) == n
    decreases n - i
  {
    hide BufferOk;
    if i < n {
      FirstBadIs(descs, i + 1, n, sector, diskSectors, guestLen);
    }
  }

  lemma ReadyNothing(descs: seq<Descriptor>, guestLen: nat, m: seq<Byte>, filled: bool, live: set<Iovec>)
    requires guestLen <= |m|
    ensures Ready(Direct(descs, 0), [], [], guestLen, m, m, filled, live)
  {
  }

  lemma LedgerNothing(live: set<Iovec>)
    ensures Ledger([], 0, live, live)
  {
  }

  lemma ReadyKeepsRam(direct: seq<Iovec>, iovs: seq<Iovec>, ops: seq<AlignedOp>, guestLen: nat,
                      m: seq<Byte>, was: seq<Byte>, filled: bool, live: set<Iovec>)
    requires Ready(direct, iovs, ops, guestLen, m, was, filled, live)
    ensures SameBelow(m, was, guestLen)
  {
  }

  lemma SparedBelow(m: seq<Byte>, mid: seq<Byte>, live: set<Iovec>, guestLen: nat, was: seq<Byte>)
    requires Spared(m, mid, live, guestLen) && SameBelow(mid, was, guestLen)
    ensures SameBelow(m, was, guestLen)
  {
  }

  class Request {
    const kind: Kind
    const sector: nat
    const descs: seq<Descriptor>
    var ops: seq<AlignedOp>

    constructor (kind: Kind, sector: nat, descs: seq<Descriptor>)
      ensures this.kind == kind && this.sector == sector && this.descs == descs && ops == []
    {
      this.kind, this.sector, this.descs, ops := kind, sector, descs, [];
    }

    /** Gives guest buffer `d` a bounce buffer; for a write its bytes are copied over at once. */
    method Bounce(host: Host, d: Iovec, alignment: nat, ghost before: set<Iovec>) returns (r: Option<nat>)
      requires host.Valid() && d.len > 0 && d.base + d.len <= host.guestLen && alignment > 0
      requires Ledger(ops, 0, before, host.live)
      modifies this`ops, host`live, host.mem
      ensures host.Valid() && Ledger(ops, 0, before, host.live)
      ensures Spared(host.mem[..], old(host.mem[..]), old(host.live), host.guestLen) && old(host.live) <= host.live
      ensures r.None? ==> ops == old(ops) && host.live == old(host.live)
                          && (host.reliable ==> !host.Room(d.len, alignment))
      ensures r.Some? ==>
                && ops == old(ops) + [AlignedOp(d.base, r.value, d.len)] && AlignedTo(r.value, alignment)
                && Iovec(r.value, d.len) in host.live && Iovec(r.value, d.len) !in old(host.live)
                && (kind == Out ==> Holds(host.mem[..], Iovec(r.value, d.len), old(host.mem[..]), d))
    {
      hide Spared, Holds, Ledger;
      r := host.AllocFor(d, alignment, kind == Out);
      if r.Some? {
        LedgerMore(ops, before, old(host.live), AlignedOp(d.base, r.value, d.len));
        ops := ops + [AlignedOp(d.base, r.value, d.len)];
      }
    }

    /** Prepares one data buffer: checks it, then passes it on as it is or gives it a bounce buffer. */
    method PrepareOne(host: Host, desc: Descriptor, diskSectors: nat, alignment: nat, ghost before: set<Iovec>,
                      ghost was: seq<Byte>, ghost direct: seq<Iovec>, iovs: seq<Iovec>)
      returns (r: Option<Iovec>, err: ExecuteError)
      requires host.Valid() && alignment > 0 && desc.len > 0 && Ledger(ops, 0, before, host.live)
      requires Ready(direct, iovs, ops, host.guestLen, host.mem[..], was, kind == Out, host.live)
      modifies this`ops, host`live, host.mem
      ensures host.Valid() && Ledger(ops, 0, before, host.live) && SameBelow(host.mem[..], was, host.guestLen)
      ensures r.None? ==> ops == old(ops) && Blames(desc, sector, diskSectors, host.guestLen, alignment, err)
      ensures r.None? && err == TemporaryBufferAllocation && host.reliable ==> !host.Room(desc.len, alignment)
      ensures r.Some? ==> AlignedTo(r.value.base, alignment)
      ensures r.Some? ==> |ops| == |old(ops)| + if NeedsBounce(desc, alignment) then 1 else 0
      ensures r.Some? ==>
                && SectorOk(desc.len, sector, diskSectors) && SliceOk(desc.addr, desc.len, host.guestLen)
                && Ready(direct + [Iovec(desc.addr, desc.len)], iovs + [r.value], ops, host.guestLen, host.mem[..], was,
                         kind == Out, host.live)
    {
      hide Ledger, Spared;
      if Sectors(desc.len) + sector >= U64 || Sectors(desc.len) + sector > diskSectors {
        return None, BadRequest;
      }
      if !SliceOk(desc.addr, desc.len, host.guestLen) {
        return None, GetHostAddress;
      }
      var d := Iovec(desc.addr, desc.len);
      if desc.addr % alignment == 0 {
        ReadyDirect(direct, iovs, ops, host.guestLen, host.mem[..], was, kind == Out, host.live, d);
        return Some(d), AsyncIo;
      }
      ghost var m, live := host.mem[..], host.live;
      ghost var pending := ops;
      var p := Bounce(host, d, alignment, before);
      SparedBelow(host.mem[..], m, live, host.guestLen, was);
      if p.None? {
        return None, TemporaryBufferAllocation;
      }
      ReadyBounced(direct, iovs, pending, host.guestLen, m, was, kind == Out, live, host.mem[..], host.live, d,
                   Iovec(p.value, d.len));
      return Some(Iovec(p.value, d.len)), AsyncIo;
    }

    /**
      Prepares the buffers of the request; whatever happens, the heap holds the pending blocks and no
      others: one for each misaligned buffer before the failing one, all of them on success.
     */
    method ExecuteAsync(host: Host, diskSectors: nat, alignment: nat)
      returns (err: Option<ExecuteError>, iovs: seq<Iovec>, ghost at: nat)
      requires host.Valid() && alignment > 0 && ops == []
      modifies this`ops, host`live, host.mem
      ensures host.Valid() && Ledger(ops, 0, old(host.live), host.live)
      ensures at <= |descs| && |ops| == Misaligned(descs, at, alignment) && (err.None? ==> at == |descs|)
      ensures SameBelow(host.mem[..], old(host.mem[..]), host.guestLen)
      ensures err.None? ==> Ready(Direct(descs, |descs|), iovs, ops, host.guestLen, host.mem[..], old(host.mem[..]),
                                  kind == Out, host.live)
      ensures AllAligned(iovs, alignment)
      ensures BuffersOk(descs, at, sector, diskSectors, host.guestLen)
      ensures err.None? && kind == In ==> AllInMemory(descs, host.guestLen)
      ensures err.Some? && at < |descs| ==>
                Blames(descs[at], sector, diskSectors, host.guestLen, alignment, err.value)
      ensures err.Some? && at == |descs| ==>
                kind == In && err.value == GetHostAddress && !AllInMemory(descs, host.guestLen)
      ensures err == Some(TemporaryBufferAllocation) && host.reliable ==>
                at < |descs| && !host.Room(descs[at].len, alignment)
    {
      ghost var was, before := host.mem[..], host.live;
      ReadyNothing(descs, host.guestLen, was, kind == Out, host.live);
      LedgerNothing(before);
      assert Misaligned(descs, 0, alignment) == 0;
      hide Ledger, Ready, SectorOk, SliceOk, Direct, Misaligned, NeedsBounce, BuffersOk, Blames, AlignedTo,
           AllAligned, SameBelow, AllInMemory;
      AllAlignedSoFar([], alignment);
      BuffersOkStep(descs, 0, sector, diskSectors, host.guestLen);
      at := 0;
      iovs := [];
      var n := 0;
      while n < |descs|
        invariant 0 <= n <= |descs| && host.Valid() && Ledger(ops, 0, before, host.live)
        invariant at == n && |ops| == Misaligned(descs, n, alignment)
        invariant AllAligned(iovs, alignment)
        invariant Ready(Direct(descs, n), iovs, ops, host.guestLen, host.mem[..], was, kind == Out, host.live)
        invariant BuffersOk(descs, n, sector, diskSectors, host.guestLen)
      {
        DirectStep(descs, n);
        MisalignedStep(descs, n, alignment);
        BuffersOkStep(descs, n, sector, diskSectors, host.guestLen);
        ReadyKeepsRam(Direct(descs, n), iovs, ops, host.guestLen, host.mem[..], was, kind == Out, host.live);
        if descs[n].len != 0 {
          var v, why := PrepareOne(host, descs[n], diskSectors, alignment, before, was, Direct(descs, n), iovs);
          if v.None? {
            return Some(why), iovs, at;
          }
          AllAlignedSoFar(iovs, alignment);
          iovs := iovs + [v.value];
        }
        n := n + 1;
        at := n;
      }
      ReadyKeepsRam(Direct(descs, n), iovs, ops, host.guestLen, host.mem[..], was, kind == Out, host.live);
      if kind == In {
        var ok := AllSlicesOk(host);
        if !ok {
          return Some(GetHostAddress), iovs, at;
        }
      }
      err := None;
    }

    /** A read marks all its buffers dirty, empty ones included, so guest memory must have them all. */
    method AllSlicesOk(host: Host) returns (ok: bool)
      ensures ok <==> AllInMemory(descs, host.guestLen)
    {
      for n := 0 to |descs|
        invariant forall i :: 0 <= i < n ==> SliceOk(descs[i].addr, descs[i].len, host.guestLen)
      {
        if !SliceOk(descs[n].addr, descs[n].len, host.guestLen) {
          return false;
        }
      }
      return true;
    }

    /** Copies a read back into guest RAM and releases every bounce buffer, each once. */
    method CompleteAsync(host: Host, ghost before: set<Iovec>)
      requires host.Valid() && Ledger(ops, 0, before, host.live) && Pending(ops, host.guestLen, host.mem.Length)
      modifies this`ops, host`live, host.mem
      ensures host.Valid() && ops == [] && host.live == before
      ensures kind != In ==> host.mem[..] == old(host.mem[..])
      ensures kind == In ==> CopiedUpTo(host.mem[..], old(host.mem[..]), old(ops), |old(ops)|)
    {
      ghost var was := host.mem[..];
      var pending := ops;
      ops := [];
      NothingCopied(was, pending);
      hide Ledger, CopiedUpTo;
      var n := 0;
      while n < |pending|
        invariant 0 <= n <= |pending| && host.Valid() && Ledger(pending, n, before, host.live) && ops == []
        invariant kind != In ==> host.mem[..] == was
        invariant kind == In ==> CopiedUpTo(host.mem[..], was, pending, n)
      {
        var op := pending[n];
        if kind == In {
          CopyNext(host, pending, n, was);
        }
        LedgerLess(pending, n, before, host.live);
        host.Dealloc(Block(op));
        n := n + 1;
      }
      LedgerDone(pending, before, host.live);
    }

    method CopyNext(host: Host, pending: seq<AlignedOp>, n: nat, ghost was: seq<Byte>)
      requires n < |pending| && host.guestLen <= host.mem.Length && Pending(pending, host.guestLen, host.mem.Length)
      requires |was| == host.mem.Length && CopiedUpTo(host.mem[..], was, pending, n)
      modifies host.mem
      ensures CopiedUpTo(host.mem[..], was, pending, n + 1)
    {
      var op := pending[n];
      HeapNotCopied(was, pending, host.guestLen, n);
      host.Copy(op.origin, op.aligned, op.size);
    }
  }

  /** Prepared buffers lie in memory, and their pending copies run from the heap to guest RAM. */
  lemma ReadyInBounds(direct: seq<Iovec>, iovs: seq<Iovec>, ops: seq<AlignedOp>, guestLen: nat, live: set<Iovec>,
                      n: nat)
    requires Linked(direct, iovs, ops, guestLen) && Allocated(iovs, live, guestLen) && guestLen <= n
    requires forall b :: b in live ==> guestLen <= b.base && b.base + b.len <= n
    ensures InBounds(direct, n) && InBounds(iovs, n) && Pending(ops, guestLen, n)
  {
    LinkedInBounds(direct, iovs, ops, guestLen, n);
    forall k | 0 <= k < |ops|
      ensures ops[k].origin + ops[k].size <= guestLen <= ops[k].aligned && ops[k].aligned + ops[k].size <= n
    {
      assert Explained(ops[k], direct, iovs, guestLen);
      var i :| 0 <= i < |iovs| && iovs[i].base >= guestLen &&
        ops[k] == AlignedOp(direct[i].base, iovs[i].base, iovs[i].len);
      assert Matched(direct[i], iovs[i], ops, guestLen);
    }
  }

  /** The request cannot be served: a buffer fails the checks, or a read has an empty one outside guest memory. */
  predicate Unservable(kind: Kind, descs: seq<Descriptor>, sector: nat, diskSectors: nat, guestLen: nat) {
    FirstBad(descs, 0, sector, diskSectors, guestLen) < |descs| || (kind == In && !AllInMemory(descs, guestLen))
  }

  /** How many buffers of a request that fails with `err` were prepared before that. */
  ghost predicate Reached(descs: seq<Descriptor>, sector: nat, diskSectors: nat, guestLen: nat, alignment: nat,
                          err: ExecuteError, at: nat)
  {
    && (at < |descs| ==> Blames(descs[at], sector, diskSectors, guestLen, alignment, err))
    && match err
       case BadRequest => at == FirstBad(descs, 0, sector, diskSectors, guestLen) < |descs|
       case GetHostAddress => at == FirstBad(descs, 0, sector, diskSectors, guestLen)
       case TemporaryBufferAllocation => at < FirstBad(descs, 0, sector, diskSectors, guestLen)
       case AsyncIo => at == |descs|
  }

  /**
    What a failed request leaves behind: it is dropped without being completed, so the bounce buffers
    prepared before the failure stay on the heap, one for each misaligned buffer up to there.
   */
  ghost predicate Leaks(req: Request, host: Host, diskSectors: nat, alignment: nat, before: set<Iovec>,
                        err: ExecuteError)
    reads req, host
  {
    exists at: nat ::
      && at <= |req.descs| && Reached(req.descs, req.sector, diskSectors, host.guestLen, alignment, err, at)
      && |req.ops| == Misaligned(req.descs, at, alignment) && Ledger(req.ops, 0, before, host.live)
      && |host.live| == |before| + Misaligned(req.descs, at, alignment)
      && (host.live == before <==> forall i :: 0 <= i < at ==> !NeedsBounce(req.descs[i], alignment))
  }

  /** The buffer that stopped the preparation is the first bad one, unless memory ran out before it. */
  lemma StoppedAt(kind: Kind, descs: seq<Descriptor>, sector: nat, diskSectors: nat, guestLen: nat, alignment: nat,
                  err: ExecuteError, at: nat)
    requires at <= |descs| && BuffersOk(descs, at, sector, diskSectors, guestLen)
    requires at < |descs| ==> Blames(descs[at], sector, diskSectors, guestLen, alignment, err)
    requires at == |descs| ==> err == AsyncIo || (kind == In && err == GetHostAddress && !AllInMemory(descs, guestLen))
    ensures Reached(descs, sector, diskSectors, guestLen, alignment, err, at)
    ensures err == BadRequest || err == GetHostAddress ==> Unservable(kind, descs, sector, diskSectors, guestLen)
  {
    hide SectorOk, SliceOk, NeedsBounce, FirstBad;
    FirstBadIs(descs, 0, at, sector, diskSectors, guestLen);
    if err == TemporaryBufferAllocation {
      FirstBadAfter(descs, 0, at, sector, diskSectors, guestLen);
    }
  }

  lemma {:induction false} FirstBadAfter(descs: seq<Descriptor>, i: nat, at: nat, sector: nat, diskSectors: nat,
                                         guestLen: nat)
    requires i <= at < |descs| && forall j :: i <= j <= at ==> BufferOk(descs[j], sector, diskSectors, guestLen)
    ensures at < FirstBad(descs, i, sector, diskSectors, guestLen)
    decreases at - i
  {
    hide BufferOk;
    if i < at {
      FirstBadAfter(descs, i + 1, at, sector, diskSectors, guestLen);
    }
  }

  lemma AllServable(kind: Kind, descs: seq<Descriptor>, sector: nat, diskSectors: nat, guestLen: nat)
    requires BuffersOk(descs, |descs|, sector, diskSectors, guestLen) && (kind == In ==> AllInMemory(descs, guestLen))
    ensures !Unservable(kind, descs, sector, diskSectors, guestLen)
  {
    hide BufferOk, FirstBad;
    FirstBadIs(descs, 0, |descs|, sector, diskSectors, guestLen);
  }

  lemma LeakIs(req: Request, host: Host, diskSectors: nat, alignment: nat, before: set<Iovec>, err: ExecuteError,
               at: nat)
    requires at <= |req.descs| && Reached(req.descs, req.sector, diskSectors, host.guestLen, alignment, err, at)
    requires |req.ops| == Misaligned(req.descs, at, alignment) && Ledger(req.ops, 0, before, host.live)
    ensures Leaks(req, host, diskSectors, alignment, before, err)
  {
    hide Reached, NeedsBounce;
    LedgerSize(req.ops, 0, before, host.live);
    NoneMisaligned(req.descs, at, alignment);
    if |req.ops| == 0 {
      LedgerDone(req.ops, before, host.live);
    }
  }

  /** A scatter into prepared buffers changes guest RAM in the guest's own buffers only. */
  lemma PreparedTouches(direct: seq<Iovec>, iovs: seq<Iovec>, ops: seq<AlignedOp>, guestLen: nat, m: seq<Byte>,
                        data: seq<Byte>, a: nat)
    requires Linked(direct, iovs, ops, guestLen) && InBounds(iovs, |m|) && a < guestLen <= |m| && !Touches(direct, a)
    ensures Scattered(m, iovs, 0, data)[a] == m[a]
  {
    forall i | 0 <= i < |iovs|
      ensures !Covers(iovs[i], a)
    {
      assert Matched(direct[i], iovs[i], ops, guestLen);
      assert !Covers(direct[i], a);
    }
    ScatterFrame(m, iovs, 0, data, a);
  }

  /**
    A whole read: guest RAM ends up as if the device had written into the guest's own buffers. `stops` is
    how many bytes a failing device moved before it failed.
   */
  method Read(req: Request, host: Host, diskSectors: nat, alignment: nat, data: seq<Byte>, stops: Option<nat>)
    returns (err: Option<ExecuteError>)
    requires host.Valid() && alignment > 0 && req.ops == [] && req.kind == In
    requires Disjoint(Direct(req.descs, |req.descs|)) && |data| == Total(Direct(req.descs, |req.descs|))
    modifies req`ops, host`live, host.mem
    ensures host.Valid()
    ensures err.None? ==>
              && host.live == old(host.live) && req.ops == [] &&
                InBounds(Direct(req.descs, |req.descs|), host.mem.Length)
              && SameBelow(host.mem[..], Scattered(old(host.mem[..]), Direct(req.descs, |req.descs|), 0, data),
                           host.guestLen)
    ensures err.Some? && err.value != AsyncIo ==> SameBelow(host.mem[..], old(host.mem[..]), host.guestLen)
    ensures err == Some(AsyncIo) ==>
              forall a :: 0 <= a < host.guestLen && !Touches(Direct(req.descs, |req.descs|), a) ==>
                            host.mem[a] == old(host.mem[a])
    ensures err.Some? ==> Leaks(req, host, diskSectors, alignment, old(host.live), err.value)
    ensures Unservable(req.kind, req.descs, req.sector, diskSectors, host.guestLen) ==>
              err.Some? && err.value != AsyncIo
    ensures err.Some? && err.value != TemporaryBufferAllocation ==>
              if Unservable(req.kind, req.descs, req.sector, diskSectors, host.guestLen) then err.value != AsyncIo
              else err.value == AsyncIo && stops.Some?
  {
    ghost var was, before, direct := host.mem[..], host.live, Direct(req.descs, |req.descs|);
    hide Direct, Scattered, CopiedBack, Linked, HeapApart, Allocated, Ledger, Total, Pending, InBounds, Disjoint,
         BuffersOk, Blames, Reached, Leaks, AllInMemory, Unservable, Touches, Misaligned, AllAligned;
    var iovs;
    ghost var at;
    err, iovs, at := req.ExecuteAsync(host, diskSectors, alignment);
    if err.Some? {
      StoppedAt(req.kind, req.descs, req.sector, diskSectors, host.guestLen, alignment, err.value, at);
      LeakIs(req, host, diskSectors, alignment, before, err.value, at);
      return;
    }
    AllServable(req.kind, req.descs, req.sector, diskSectors, host.guestLen);
    ghost var m, ops := host.mem[..], req.ops;
    ReadyInBounds(direct, iovs, ops, host.guestLen, host.live, host.mem.Length);
    if stops.Some? {
      ScatterToIovecs(host.mem, iovs, 0, data[..Min(stops.value, |data|)]);
      forall a | 0 <= a < host.guestLen && !Touches(direct, a)
        ensures host.mem[a] == was[a]
      {
        PreparedTouches(direct, iovs, ops, host.guestLen, m, data[..Min(stops.value, |data|)], a);
      }
      StoppedAt(req.kind, req.descs, req.sector, diskSectors, host.guestLen, alignment, AsyncIo, at);
      LeakIs(req, host, diskSectors, alignment, before, AsyncIo, at);
      return Some(AsyncIo);
    }
    ScatterToIovecs(host.mem, iovs, 0, data);
    req.CompleteAsync(host, before);
    forall a | 0 <= a < host.guestLen
      ensures host.mem[a] == Scattered(was, direct, 0, data)[a]
    {
      CopiedIsDirect(direct, iovs, ops, host.guestLen, was, m, data, a);
    }
  }

  /**
    A whole write: the device gets the bytes of the guest's own buffers, and guest RAM does not change.
    `fails` says whether the device reports a failure.
   */
  method Write(req: Request, host: Host, diskSectors: nat, alignment: nat, fails: bool)
    returns (err: Option<ExecuteError>, stream: seq<Byte>)
    requires host.Valid() && alignment > 0 && req.ops == [] && req.kind == Out
    modifies req`ops, host`live, host.mem
    ensures host.Valid() && SameBelow(host.mem[..], old(host.mem[..]), host.guestLen)
    ensures err.None? ==>
              && host.live == old(host.live) && req.ops == [] &&
                InBounds(Direct(req.descs, |req.descs|), host.mem.Length)
              && stream == Flat(old(host.mem[..]), Direct(req.descs, |req.descs|))
    ensures err.Some? ==> Leaks(req, host, diskSectors, alignment, old(host.live), err.value)
    ensures Unservable(req.kind, req.descs, req.sector, diskSectors, host.guestLen) ==>
              err.Some? && err.value != AsyncIo
    ensures err.Some? && err.value != TemporaryBufferAllocation ==>
              if Unservable(req.kind, req.descs, req.sector, diskSectors, host.guestLen) then err.value != AsyncIo
              else err.value == AsyncIo && fails
    ensures err == Some(TemporaryBufferAllocation) && host.reliable ==>
              exists at: nat :: at < |req.descs| && |req.ops| == Misaligned(req.descs, at, alignment)
                                && NeedsBounce(req.descs[at], alignment) && !host.Room(req.descs[at].len, alignment)
  {
    ghost var was, before, direct := host.mem[..], host.live, Direct(req.descs, |req.descs|);
    hide Direct, Flat, Linked, HeapApart, Allocated, Ledger, Total, Pending, InBounds, AllHold, BuffersOk, Reached,
         Leaks, AllInMemory, Unservable, Misaligned, NeedsBounce, AllAligned;
    var iovs;
    ghost var at;
    err, iovs, at := req.ExecuteAsync(host, diskSectors, alignment);
    if err.Some? {
      StoppedAt(req.kind, req.descs, req.sector, diskSectors, host.guestLen, alignment, err.value, at);
      LeakIs(req, host, diskSectors, alignment, before, err.value, at);
      return err, [];
    }
    AllServable(req.kind, req.descs, req.sector, diskSectors, host.guestLen);
    ReadyInBounds(direct, iovs, req.ops, host.guestLen, host.live, host.mem.Length);
    if fails {
      StoppedAt(req.kind, req.descs, req.sector, diskSectors, host.guestLen, alignment, AsyncIo, at);
      LeakIs(req, host, diskSectors, alignment, before, AsyncIo, at);
      return Some(AsyncIo), [];
    }
    BouncedStream(direct, iovs, req.ops, host.guestLen, host.mem[..], was);
    stream := Flat(host.mem[..], iovs);
    req.CompleteAsync(host, before);
  }

  /** A misaligned buffer that is fine, then one past the end of 1024 bytes of guest memory. */
  function LeakyDescriptors(): seq<Descriptor> {
    [Descriptor(1, 512), Descriptor(1024, 512)]
  }

  lemma LeakyFacts()
    ensures FirstBad(LeakyDescriptors(), 0, 0, 8, 1024) == 1
    ensures Misaligned(LeakyDescriptors(), 0, 512) == 0 && Misaligned(LeakyDescriptors(), 1, 512) == 1
    ensures SectorOk(512, 0, 8) && NeedsBounce(LeakyDescriptors()[0], 512) && !NeedsBounce(LeakyDescriptors()[1], 512)
  {
    var d := LeakyDescriptors();
    assert BufferOk(d[0], 0, 8, 1024) && !BufferOk(d[1], 0, 8, 1024);
    assert FirstBad(d, 1, 0, 8, 1024) == 1;
  }

  lemma EmptyHeapHasRoom(host: Host)
    requires host.live == {} && host.guestLen == 1024 && host.mem.Length >= 2048
    ensures host.Room(512, 512)
  {
    assert host.Fits(1024, 512, 512);
  }

  /** On a host with memory to spare that request fails for its second buffer and keeps the block of its first. */
  method LeakOneBlock(host: Host) returns (err: Option<ExecuteError>)
    requires host.Valid() && host.reliable && host.live == {} && host.guestLen == 1024 && host.mem.Length >= 2048
    modifies host`live, host.mem
    ensures err == Some(GetHostAddress) && |host.live| == 1
  {
    hide FirstBad, Misaligned, NeedsBounce, Ledger;
    var req := new Request(Out, 0, LeakyDescriptors());
    LeakyFacts();
    var stream;
    err, stream := Write(req, host, 8, 512, false);
    if err == Some(TemporaryBufferAllocation) {
      LedgerNothingLeft(req, host);
      EmptyHeapHasRoom(host);
    }
  }

  lemma LedgerNothingLeft(req: Request, host: Host)
    requires Leaks(req, host, 8, 512, {}, TemporaryBufferAllocation) && req.sector == 0
    requires req.descs == LeakyDescriptors() && host.guestLen == 1024
    ensures host.live == {}
  {
    hide FirstBad, Misaligned, NeedsBounce, Ledger;
    LeakyFacts();
  }

  ghost predicate CopiedUpTo(m: seq<Byte>, was: seq<Byte>, ops: seq<AlignedOp>, n: nat)
    requires n <= |ops| && forall k :: 0 <= k < |ops| ==> ops[k].aligned + ops[k].size <= |was|
  {
    |m| == |was| && forall a :: 0 <= a < |m| ==> m[a] == CopiedBack(was, ops, n, a)
  }

  lemma NothingCopied(m: seq<Byte>, ops: seq<AlignedOp>)
    requires forall k :: 0 <= k < |ops| ==> ops[k].aligned + ops[k].size <= |m|
    ensures CopiedUpTo(m, m, ops, 0)
  {
  }

  /** The copies back never write the heap. */
  lemma {:induction false} HeapNotCopied(m: seq<Byte>, ops: seq<AlignedOp>, guestLen: nat, n: nat)
    requires Pending(ops, guestLen, |m|) && n <= |ops|
    ensures forall a :: guestLen <= a < |m| ==> CopiedBack(m, ops, n, a) == m[a]
  {
    if n > 0 {
      HeapNotCopied(m, ops, guestLen, n - 1);
    }
  }
}
