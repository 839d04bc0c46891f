/** Scatter/gather lists: a list of buffers in one address space, used as a single byte stream. */
module Iovec {
  import opened Base

  datatype Iovec = Iovec(base: nat, len: nat)

  /** Stream position at which buffer `k` begins. */
  function Start(iovs: seq<Iovec>, k: nat): nat
    requires k <= |iovs|
  {
    if k == 0 then 0 else Start(iovs, k - 1) + iovs[k - 1].len
  }

  function Total(iovs: seq<Iovec>): nat {
    Start(iovs, |iovs|)
  }

  predicate InBounds(iovs: seq<Iovec>, n: nat) {
    forall i :: 0 <= i < |iovs| ==> iovs[i].base + iovs[i].len <= n
  }

  /** No byte of memory belongs to two buffers; empty buffers overlap nothing. */
  predicate Apart(a: Iovec, b: Iovec) {
    a.len == 0 || b.len == 0 || a.base + a.len <= b.base || b.base + b.len <= a.base
  }

  predicate Disjoint(iovs: seq<Iovec>) {
    forall i, j :: 0 <= i < j < |iovs| ==> Apart(iovs[i], iovs[j])
  }

  predicate Covers(iov: Iovec, a: int) {
    iov.base <= a < iov.base + iov.len
  }

  predicate Touches(iovs: seq<Iovec>, a: int) {
    exists i :: 0 <= i < |iovs| && Covers(iovs[i], a)
  }

  /** Which of the first `k` buffers holds stream byte `p`. */
  function Holder(iovs: seq<Iovec>, k: nat, p: nat): (i: nat)
    requires k <= |iovs| && p < Start(iovs, k)
    ensures i < k && Start(iovs, i) <= p < Start(iovs, i) + iovs[i].len
  {
    if p >= Start(iovs, k - 1) then k - 1 else Holder(iovs, k - 1, p)
  }

  /** Memory address of stream byte `p`. */
  function Addr(iovs: seq<Iovec>, p: nat): (a: nat)
    requires p < Total(iovs)
    ensures Touches(iovs, a)
  {
    var i := Holder(iovs, |iovs|, p);
    var a := iovs[i].base + (p - Start(iovs, i));
    assert Covers(iovs[i], a);
    a
  }

  lemma {:induction false} StartGrows(iovs: seq<Iovec>, i: nat, j: nat)
    requires i <= j <= |iovs|
    ensures Start(iovs, i) <= Start(iovs, j)
    ensures i < j ==> Start(iovs, i) + iovs[i].len <= Start(iovs, j)
    decreases j
  {
    if i < j {
      StartGrows(iovs, i, j - 1);
    }
  }

  lemma Ends(iovs: seq<Iovec>)
    ensures Start(iovs, 0) == 0 && Start(iovs, |iovs|) == Total(iovs)
  {
  }

  lemma Next(iovs: seq<Iovec>, k: nat)
    requires k < |iovs|
    ensures Start(iovs, k) + iovs[k].len == Start(iovs, k + 1) <= Total(iovs)
  {
    StartGrows(iovs, k + 1, |iovs|);
  }

  lemma {:induction false} HolderIs(iovs: seq<Iovec>, k: nat, p: nat, i: nat)
    requires i < k <= |iovs| && Start(iovs, i) <= p < Start(iovs, i) + iovs[i].len
    ensures p < Start(iovs, k) && Holder(iovs, k, p) == i
    decreases k
  {
    StartGrows(iovs, i, k);
    if i < k - 1 {
      HolderIs(iovs, k - 1, p, i);
    }
  }

  lemma AddrIs(iovs: seq<Iovec>, i: nat, p: nat)
    requires i < |iovs| && Start(iovs, i) <= p < Start(iovs, i) + iovs[i].len
    ensures p < Total(iovs) && Addr(iovs, p) == iovs[i].base + (p - Start(iovs, i))
  {
    HolderIs(iovs, |iovs|, p, i);
  }

  lemma AddrInBounds(iovs: seq<Iovec>, n: nat, p: nat)
    requires InBounds(iovs, n) && p < Total(iovs)
    ensures Addr(iovs, p) < n
  {
  }

  /** In disjoint buffers no two stream bytes share an address. */
  lemma AddrInjective(iovs: seq<Iovec>, p: nat, q: nat)
    requires Disjoint(iovs) && p < Total(iovs) && q < Total(iovs) && Addr(iovs, p) == Addr(iovs, q)
    ensures p == q
  {
    var i, j := Holder(iovs, |iovs|, p), Holder(iovs, |iovs|, q);
  }

  /** The byte stream the list denotes in memory `m`. */
  function Flat(m: seq<Byte>, iovs: seq<Iovec>): (r: seq<Byte>)
    requires InBounds(iovs, |m|)
    ensures |r| == Total(iovs)
  {
    seq(Total(iovs), p requires 0 <= p < Total(iovs) => AddrInBounds(iovs, |m|, p); m[Addr(iovs, p)])
  }

  /** How many of `n` bytes from stream position `start` on fit below position `end`. */
  function Fit(start: nat, end: nat, n: nat): nat {
    if end <= start then 0 else Min(n, end - start)
  }

  // ---------------------------------------------------------------- writing

  /** The last stream position in `[lo, hi)` that lies at address `a`, or -1. */
  function Last(iovs: seq<Iovec>, a: int, lo: nat, hi: nat): (p: int)
    requires hi <= lo || hi <= Total(iovs)
    ensures p == -1 || (lo <= p < hi && Addr(iovs, p) == a)
    decreases hi
  {
    if hi <= lo then -1
    else if Addr(iovs, hi - 1) == a then hi - 1
    else Last(iovs, a, lo, hi - 1)
  }

  /** The byte at `a` once stream positions `[lo, hi)` have been given the bytes of `data`, in order. */
  function After(m: seq<Byte>, iovs: seq<Iovec>, lo: nat, hi: nat, data: seq<Byte>, a: nat): Byte
    requires (hi <= lo || hi <= Total(iovs)) && hi <= lo + |data| && a < |m|
  {
    var p := Last(iovs, a, lo, hi);
    if p == -1 then m[a] else data[p - lo]
  }

  /** Memory after writing as much of `data` as fits into the stream, from position `start` on. */
  function Scattered(m: seq<Byte>, iovs: seq<Iovec>, start: nat, data: seq<Byte>): (r: seq<Byte>)
    requires InBounds(iovs, |m|)
    ensures |r| == |m|
  {
    var hi := start + Fit(start, Total(iovs), |data|);
    seq(|m|, a requires 0 <= a < |m| => After(m, iovs, start, hi, data, a))
  }

  /** Scattering changes no byte outside the buffers. */
  lemma ScatterFrame(m: seq<Byte>, iovs: seq<Iovec>, start: nat, data: seq<Byte>, a: nat)
    requires InBounds(iovs, |m|) && a < |m| && !Touches(iovs, a)
    ensures Scattered(m, iovs, start, data)[a] == m[a]
  {
  }

  lemma {:induction false} LastInDisjoint(iovs: seq<Iovec>, p: nat, lo: nat, hi: nat)
    requires Disjoint(iovs) && p < Total(iovs) && (hi <= lo || hi <= Total(iovs))
    ensures Last(iovs, Addr(iovs, p), lo, hi) == if lo <= p < hi then p else -1
    decreases hi
  {
    hide Addr, Start;
    if hi > lo {
      if Addr(iovs, hi - 1) == Addr(iovs, p) {
        AddrInjective(iovs, hi - 1, p);
      } else {
        LastInDisjoint(iovs, p, lo, hi - 1);
      }
    }
  }

  /** In disjoint buffers scattering overlays the stream: the range gets the data, the rest stays. */
  lemma ScatterFlat(m: seq<Byte>, iovs: seq<Iovec>, start: nat, data: seq<Byte>, p: nat)
    requires InBounds(iovs, |m|) && Disjoint(iovs) && p < Total(iovs)
    ensures Flat(Scattered(m, iovs, start, data), iovs)[p]
         == if start <= p < start + |data| then data[p - start] else Flat(m, iovs)[p]
  {
    AddrInBounds(iovs, |m|, p);
    LastInDisjoint(iovs, p, start, start + Fit(start, Total(iovs), |data|));
  }

  /** Memory `mem` is `m` with the first `hi` bytes of `data` scattered. */
  ghost predicate ScatteredUpTo(m: seq<Byte>, iovs: seq<Iovec>, hi: nat, data: seq<Byte>, mem: seq<Byte>)
    requires hi <= Total(iovs) && hi <= |data|
  {
    |mem| == |m| && forall a :: 0 <= a < |m| ==> mem[a] == After(m, iovs, 0, hi, data, a)
  }

  lemma {:induction false} LastSplits(iovs: seq<Iovec>, a: int, lo: nat, mid: nat, hi: nat)
    requires lo <= mid <= hi <= Total(iovs)
    ensures Last(iovs, a, lo, hi) == if Last(iovs, a, mid, hi) != -1 then Last(iovs, a, mid, hi)
            else Last(iovs, a, lo, mid)
    decreases hi
  {
    hide Addr, Total;
    if mid < hi {
      LastSplits(iovs, a, lo, mid, hi - 1);
    }
  }

  lemma ScatterBegins(m: seq<Byte>, iovs: seq<Iovec>, data: seq<Byte>)
    ensures ScatteredUpTo(m, iovs, 0, data, m)
  {
  }

  /** Scattering the next piece of a byte string continues the scatter of its beginning. */
  lemma ScatterContinues(m: seq<Byte>, iovs: seq<Iovec>, hi: nat, data: seq<Byte>, mem: seq<Byte>, piece: seq<Byte>)
    requires InBounds(iovs, |m|) && hi + |piece| <= |data| && hi + |piece| <= Total(iovs)
    requires forall i :: hi <= i < hi + |piece| ==> data[i] == piece[i - hi]
    requires ScatteredUpTo(m, iovs, hi, data, mem)
    ensures ScatteredUpTo(m, iovs, hi + |piece|, data, Scattered(mem, iovs, hi, piece))
  {
    hide Last, Total;
    var next := hi + |piece|;
    forall a | 0 <= a < |m|
      ensures Scattered(mem, iovs, hi, piece)[a] == After(m, iovs, 0, next, data, a)
    {
      LastSplits(iovs, a, 0, hi, next);
    }
  }

  lemma ScatterEnds(m: seq<Byte>, iovs: seq<Iovec>, data: seq<Byte>, mem: seq<Byte>)
    requires InBounds(iovs, |m|) && |data| == Total(iovs) && ScatteredUpTo(m, iovs, |data|, data, mem)
    ensures mem == Scattered(m, iovs, 0, data)
  {
    hide After;
  }

  /** At every stage, bytes outside the buffers are what they were. */
  lemma ScatterLeaves(m: seq<Byte>, iovs: seq<Iovec>, hi: nat, data: seq<Byte>, mem: seq<Byte>)
    requires hi <= Total(iovs) && hi <= |data| && ScatteredUpTo(m, iovs, hi, data, mem)
    ensures forall a :: 0 <= a < |m| && !Touches(iovs, a) ==> mem[a] == m[a]
  {
    hide Addr, Touches;
  }

  // ---------------------------------------------------------------- reading

  /** `dst` after as many stream bytes as there are from `start` on have been copied to its front. */
  function Gathered(m: seq<Byte>, iovs: seq<Iovec>, start: nat, dst: seq<Byte>): (r: seq<Byte>)
    requires InBounds(iovs, |m|)
    ensures |r| == |dst|
  {
    var s := Flat(m, iovs);
    seq(|dst|, i requires 0 <= i < |dst| => if start + i < |s| then s[start + i] else dst[i])
  }

  /** What was scattered in range is gathered back, whatever the destination held. */
  lemma ScatterThenGather(m: seq<Byte>, iovs: seq<Iovec>, start: nat, data: seq<Byte>, dst: seq<Byte>)
    requires InBounds(iovs, |m|) && Disjoint(iovs) && start + |data| <= Total(iovs) && |dst| == |data|
    ensures Gathered(Scattered(m, iovs, start, data), iovs, start, dst) == data
  {
    hide Scattered, Flat;
    var r := Gathered(Scattered(m, iovs, start, data), iovs, start, dst);
    forall i | 0 <= i < |data|
      ensures r[i] == data[i]
    {
      ScatterFlat(m, iovs, start, data, start + i);
    }
  }

  // ---------------------------------------------------------------- the loops

  /** How far into a buffer that begins at `pos` the range from `start` begins. */
  function Into(start: nat, pos: nat): nat {
    if start >= pos then start - pos else 0
  }

  /** The effect on `Last` of one contiguous copy into buffer `k`. */
  lemma {:induction false} LastOfBlock(iovs: seq<Iovec>, k: nat, a: int, lo: nat, hi: nat, count: nat)
    requires k < |iovs| && lo <= hi && Start(iovs, k) <= hi && hi + count <= Start(iovs, k + 1)
    ensures hi + count <= Total(iovs)
    ensures var at := iovs[k].base + (hi - Start(iovs, k));
            Last(iovs, a, lo, hi + count) == if at <= a < at + count then hi + (a - at) else Last(iovs, a, lo, hi)
    decreases count
  {
    hide Addr;
    StartGrows(iovs, k + 1, |iovs|);
    if count > 0 {
      LastOfBlock(iovs, k, a, lo, hi, count - 1);
      AddrIs(iovs, k, hi + count - 1);
    }
  }

  method Copy(mem: array<Byte>, at: nat, d: seq<Byte>, from: nat, count: nat)
    requires at + count <= mem.Length && from + count <= |d|
    modifies mem
    ensures forall a :: 0 <= a < mem.Length ==> mem[a] == if at <= a < at + count then d[from + a - at] else old(mem[a])
  {
    forall i | 0 <= i < count {
      mem[at + i] := d[from + i];
    }
  }

  /** One contiguous copy takes memory from one stage of the scatter to a later one. */
  lemma AfterBlock(m: seq<Byte>, iovs: seq<Iovec>, k: nat, lo: nat, hi: nat, count: nat, data: seq<Byte>, next: nat)
    requires k < |iovs| && lo <= hi && next == hi + count <= lo + |data|
    requires Start(iovs, k) <= hi && next <= Start(iovs, k + 1)
    ensures next <= Total(iovs)
    ensures var at := iovs[k].base + (hi - Start(iovs, k));
            forall a :: 0 <= a < |m| ==>
              After(m, iovs, lo, next, data, a)
                == if at <= a < at + count then data[hi - lo + a - at] else After(m, iovs, lo, hi, data, a)
  {
    hide Last, Addr;
    Next(iovs, k);
    forall a | 0 <= a < |m|
      ensures var at := iovs[k].base + (hi - Start(iovs, k));
              After(m, iovs, lo, next, data, a)
                == if at <= a < at + count then data[hi - lo + a - at] else After(m, iovs, lo, hi, data, a)
    {
      LastOfBlock(iovs, k, a, lo, hi, count);
    }
  }

  lemma AfterNothing(m: seq<Byte>, iovs: seq<Iovec>, lo: nat, data: seq<Byte>)
    ensures forall a :: 0 <= a < |m| ==> After(m, iovs, lo, lo, data, a) == m[a]
  {
  }

  lemma AfterAll(m: seq<Byte>, iovs: seq<Iovec>, start: nat, hi: nat, data: seq<Byte>, mem: seq<Byte>)
    requires InBounds(iovs, |m|) && |mem| == |m| && hi == start + Fit(start, Total(iovs), |data|)
    requires forall a :: 0 <= a < |m| ==> mem[a] == After(m, iovs, start, hi, data, a)
    ensures mem == Scattered(m, iovs, start, data)
  {
    hide After;
  }

  /** Copies `data` into the buffers from stream position `start` on. */
  method ScatterToIovecs(mem: array<Byte>, iovs: seq<Iovec>, start: nat, data: seq<Byte>)
    requires InBounds(iovs, mem.Length)
    modifies mem
    ensures mem[..] == Scattered(old(mem[..]), iovs, start, data)
  {
    hide After, Scattered, Start, Total;
    Ends(iovs);
    ghost var was := mem[..];
    AfterNothing(was, iovs, start, data);
    var used, pos, k := 0, 0, 0;
    ghost var hi := start;
    while k < |iovs|
      invariant 0 <= k <= |iovs| && pos == Start(iovs, k) <= Total(iovs)
      invariant used == Fit(start, pos, |data|) && hi == start + used
      invariant forall a :: 0 <= a < mem.Length ==> mem[a] == After(was, iovs, start, hi, data, a)
    {
      Next(iovs, k);
      var iovEnd := pos + iovs[k].len;
      if iovEnd <= start || used == |data| {
        pos, k := iovEnd, k + 1;
        continue;
      }
      var iovStart := Into(start, pos);
      var available := iovs[k].len - iovStart;
      var count := Min(available, |data| - used);
      ghost var next := hi + count;
      AfterBlock(was, iovs, k, start, hi, count, data, next);
      Copy(mem, iovs[k].base + iovStart, data, used, count);
      used, hi := used + count, next;
      pos, k := iovEnd, k + 1;
      if used == |data| {
        break;
      }
    }
    AfterAll(was, iovs, start, hi, data, mem[..]);
  }

  function Zeros(n: nat): (z: seq<Byte>)
    ensures |z| == n
  {
    seq(n, i => 0)
  }

  /** Writes zeros over `len` bytes of the stream from position `start` on. */
  method ZeroFillIovecs(mem: array<Byte>, iovs: seq<Iovec>, start: nat, len: nat)
    requires InBounds(iovs, mem.Length)
    modifies mem
    ensures mem[..] == Scattered(old(mem[..]), iovs, start, Zeros(len))
  {
    hide After, Scattered, Start, Total;
    Ends(iovs);
    ghost var was := mem[..];
    AfterNothing(was, iovs, start, Zeros(len));
    var remaining, pos, k := len, 0, 0;
    ghost var hi := start;
    while k < |iovs|
      invariant 0 <= k <= |iovs| && pos == Start(iovs, k) <= Total(iovs)
      invariant len - remaining == Fit(start, pos, len) && hi == start + (len - remaining)
      invariant forall a :: 0 <= a < mem.Length ==> mem[a] == After(was, iovs, start, hi, Zeros(len), a)
    {
      Next(iovs, k);
      var iovEnd := pos + iovs[k].len;
      if iovEnd <= start || remaining == 0 {
        pos, k := iovEnd, k + 1;
        continue;
      }
      var iovStart := Into(start, pos);
      var available := iovs[k].len - iovStart;
      var count := Min(available, remaining);
      ghost var next := hi + count;
      AfterBlock(was, iovs, k, start, hi, count, Zeros(len), next);
      Copy(mem, iovs[k].base + iovStart, Zeros(len), len - remaining, count);
      remaining, hi := remaining - count, next;
      pos, k := iovEnd, k + 1;
      if remaining == 0 {
        break;
      }
    }
    AfterAll(was, iovs, start, hi, Zeros(len), mem[..]);
  }

  lemma FlatBlock(m: seq<Byte>, iovs: seq<Iovec>, k: nat, p: nat, count: nat)
    requires InBounds(iovs, |m|) && k < |iovs| && Start(iovs, k) <= p && p + count <= Start(iovs, k + 1)
    ensures p + count <= Total(iovs)
    ensures forall q :: p <= q < p + count ==> Flat(m, iovs)[q] == m[iovs[k].base + (q - Start(iovs, k))]
  {
    hide Addr;
    Next(iovs, k);
    forall q | p <= q < p + count
      ensures Flat(m, iovs)[q] == m[iovs[k].base + (q - Start(iovs, k))]
    {
      AddrIs(iovs, k, q);
    }
  }

  /** Byte `i` of the destination once the stream has been copied up to position `hi`. */
  function Stage(s: seq<Byte>, start: nat, hi: nat, was: seq<Byte>, i: nat): Byte
    requires hi <= start || hi <= |s|
    requires i < |was|
  {
    if start + i < hi then s[start + i] else was[i]
  }

  lemma StageBlock(m: seq<Byte>, iovs: seq<Iovec>, k: nat, start: nat, hi: nat, count: nat, was: seq<Byte>, next: nat)
    requires InBounds(iovs, |m|) && k < |iovs| && start <= hi && next == hi + count <= start + |was|
    requires Start(iovs, k) <= hi && next <= Start(iovs, k + 1)
    ensures next <= Total(iovs)
    ensures var src, s := iovs[k].base + (hi - Start(iovs, k)), Flat(m, iovs);
            forall i :: 0 <= i < |was| ==>
              Stage(s, start, next, was, i)
                == if hi - start <= i < hi - start + count then m[src + i - (hi - start)]
                  else Stage(s, start, hi, was, i)
  {
    hide Flat;
    FlatBlock(m, iovs, k, hi, count);
  }

  lemma StageEnds(m: seq<Byte>, iovs: seq<Iovec>, start: nat, hi: nat, was: seq<Byte>, dst: seq<Byte>)
    requires InBounds(iovs, |m|) && |dst| == |was| && hi == start + Fit(start, Total(iovs), |was|)
    requires forall i :: 0 <= i < |dst| ==> dst[i] == Stage(Flat(m, iovs), start, hi, was, i)
    ensures dst == Gathered(m, iovs, start, was)
  {
    hide Flat;
  }

  /** Fills as much of `dst` as the stream provides and leaves the rest of it as it was. */
  method GatherFromIovecsInto(m: seq<Byte>, iovs: seq<Iovec>, start: nat, dst: array<Byte>)
    requires InBounds(iovs, |m|)
    modifies dst
    ensures dst[..] == Gathered(m, iovs, start, old(dst[..]))
  {
    ghost var was, s := dst[..], Flat(m, iovs);
    assert forall i :: 0 <= i < dst.Length ==> dst[i] == Stage(s, start, start, was, i);
    hide Flat, Start, Total, Stage, Gathered;
    Ends(iovs);
    var written, pos, k := 0, 0, 0;
    ghost var hi := start;
    while k < |iovs|
      invariant 0 <= k <= |iovs| && pos == Start(iovs, k) <= Total(iovs)
      invariant written == Fit(start, pos, dst.Length) && hi == start + written
      invariant forall i :: 0 <= i < dst.Length ==> dst[i] == Stage(s, start, hi, was, i)
    {
      Next(iovs, k);
      var iovEnd := pos + iovs[k].len;
      if iovEnd <= start || written == dst.Length {
        pos, k := iovEnd, k + 1;
        continue;
      }
      var iovStart := Into(start, pos);
      var available := iovs[k].len - iovStart;
      var count := Min(available, dst.Length - written);
      ghost var next := hi + count;
      StageBlock(m, iovs, k, start, hi, count, was, next);
      Copy(dst, written, m, iovs[k].base + iovStart, count);
      written, hi := written + count, next;
      pos, k := iovEnd, k + 1;
      if written == dst.Length {
        break;
      }
    }
    StageEnds(m, iovs, start, hi, was, dst[..]);
  }
}
