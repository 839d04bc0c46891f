/** Positioned host-file I/O: the loops over short transfers and the aligned bounce path for direct I/O. */
module HostIo {
  import opened Base
  import opened Bits

  function Max(a: int, b: int): int {
    if a >= b then a else b
  }

  /** File contents after the first `n` bytes of `buf` have been written at `off`; a gap reads as zeros. */
  function Written(f: seq<Byte>, off: nat, buf: seq<Byte>, n: nat): (r: seq<Byte>)
    requires n <= |buf|
    ensures |r| == if n == 0 then |f| else Max(|f|, off + n)
  {
    if n == 0 then f
    else
      seq(Max(|f|, off + n), i requires 0 <= i < Max(|f|, off + n) =>
        if off <= i < off + n then buf[i - off] else if i < |f| then f[i] else 0)
  }

  /** The effect of a write that stopped part-way: a prefix of the buffer went out, nothing else changed. */
  ghost predicate PartlyWritten(f: seq<Byte>, off: nat, buf: seq<Byte>, g: seq<Byte>) {
    exists n: nat :: n <= |buf| && g == Written(f, off, buf, n)
  }

  /** `n` bytes at `off` lie inside the file. */
  predicate Has(f: seq<Byte>, off: nat, n: nat) {
    n == 0 || off + n <= |f|
  }

  /** The bytes at `off` are these. */
  predicate Reads(f: seq<Byte>, off: nat, buf: seq<Byte>) {
    Has(f, off, |buf|) && forall i :: 0 <= i < |buf| ==> buf[i] == f[off + i]
  }

  function NextMultiple(n: nat, a: nat): (r: nat)
    requires a > 0
    ensures r % a == 0 && n <= r < n + a
  {
    var m := n + (a - 1);
    MultipleBelow(m, a);
    m - m % a
  }

  lemma MultipleBelow(m: nat, a: nat)
    requires a > 0
    ensures (m - m % a) % a == 0
  {
    ModUnique(m - m % a, a, m / a, 0);
  }

  predicate IsPowerOfTwo(n: nat) {
    n == 1 || (n > 1 && n % 2 == 0 && IsPowerOfTwo(n / 2))
  }

  lemma {:induction false} PowerOfTwoExponent(n: nat) returns (k: nat)
    requires IsPowerOfTwo(n)
    ensures n == Pow2(k)
  {
    if n == 1 {
      k := 0;
    } else {
      var j := PowerOfTwoExponent(n / 2);
      k := j + 1;
    }
  }

  /** Clearing the low bits of an offset rounds it down to the alignment. */
  lemma MaskRoundsDown(x: Word, a: Word)
    requires IsPowerOfTwo(a)
    ensures And(x, Not(a - 1)) == x - x % a
  {
    var k := PowerOfTwoExponent(a);
    if k >= 64 {
      Pow2Grows(64, k);
      Pow2At64();
    }
    AlignDown(x, k);
  }

  /** Whether direct I/O may use the caller's buffer as it is. */
  predicate Direct(alignment: nat, ptrAligned: bool, len: nat, off: nat) {
    alignment == 0 || (ptrAligned && len % alignment == 0 && off % alignment == 0)
  }

  /**
    A regular file. A reliable one never fails an I/O call; an unreliable one may fail any of them. A prompt
    one takes each write it does not fail whole.
   */
  class HostFile {
    var data: seq<Byte>
    const reliable: bool
    const prompt: bool

    constructor (contents: seq<Byte>, reliable: bool, prompt: bool)
      ensures data == contents && this.reliable == reliable && this.prompt == prompt
    {
      data, this.reliable, this.prompt := contents, reliable, prompt;
    }

    /** One `pread`: fails, reports end of file, or transfers some of the requested bytes. */
    method Pread(off: nat, buf: array<Byte>, at: nat) returns (ret: int)
      requires at <= buf.Length
      modifies buf
      ensures -1 <= ret <= buf.Length - at && (reliable ==> ret >= 0)
      ensures ret > 0 ==> off + ret <= |data|
      ensures ret == 0 ==> at == buf.Length || off >= |data|
      ensures forall i :: 0 <= i < buf.Length
                      ==> buf[i] == if at <= i < at + ret then data[off + i - at] else old(buf[i])
    {
      var fails: bool := *;
      if fails && !reliable {
        return -1;
      }
      if at == buf.Length || off >= |data| {
        return 0;
      }
      var most := Min(buf.Length - at, |data| - off);
      assert 1 <= most;
      ret :| 1 <= ret <= most;
      forall i | 0 <= i < ret {
        buf[at + i] := data[off + i];
      }
    }

    /** One `pwrite` of the bytes of `buf` from `at` on: fails, or writes some of them. */
    method Pwrite(off: nat, buf: seq<Byte>, at: nat) returns (ret: int)
      requires at < |buf|
      modifies this`data
      ensures -1 <= ret <= |buf| - at && (reliable ==> ret > 0) && (reliable && prompt ==> ret == |buf| - at)
      ensures |data| == if ret <= 0 then |old(data)| else Max(|old(data)|, off + ret)
      ensures forall i :: 0 <= i < |data|
                      ==> data[i] == if off <= i < off + ret then buf[at + i - off]
                                     else if i < |old(data)| then old(data)[i] else 0
    {
      var fails: bool := *;
      if fails && !reliable {
        ret :| -1 <= ret <= 0;
        return;
      }
      var most := |buf| - at;
      assert 1 <= most;
      ret :| 1 <= ret <= most && (prompt ==> ret == most);
      data := Written(data, off, buf[at..], ret);
    }

    /** Reads exactly `buf.Length` bytes at `off`, whatever the pattern of short reads. */
    method PreadExact(buf: array<Byte>, off: nat) returns (res: Outcome)
      modifies buf
      ensures res == Ok ==> Reads(data, off, buf[..])
      ensures reliable ==> (res == Ok <==> Has(data, off, buf.Length))
    {
      var total := 0;
      while total < buf.Length
        invariant 0 <= total <= buf.Length && (total > 0 ==> off + total <= |data|)
        invariant forall i :: 0 <= i < total ==> buf[i] == data[off + i]
      {
        var ret := Pread(off + total, buf, total);
        if ret < 0 || ret == 0 {
          return Err;
        }
        total := total + ret;
      }
      return Ok;
    }

    /** Writes all of `buf` at `off`, whatever the pattern of short writes. */
    method PwriteAll(buf: seq<Byte>, off: nat) returns (res: Outcome)
      modifies this`data
      ensures res == Ok ==> data == Written(old(data), off, buf, |buf|)
      ensures res == Err ==> PartlyWritten(old(data), off, buf, data)
      ensures reliable ==> res == Ok
    {
      var total := 0;
      while total < |buf|
        invariant 0 <= total <= |buf|
        invariant data == Written(old(data), off, buf, total)
      {
        var ret := Pwrite(off + total, buf, total);
        if ret < 0 || ret == 0 {
          return Err;
        }
        total := total + ret;
      }
      return Ok;
    }

    /** Grows the file to `len` bytes; the new ones are zeros. */
    method SetLen(len: nat) returns (res: Outcome)
      requires len >= |data|
      modifies this`data
      ensures res == Ok ==> |data| == len && forall i :: 0 <= i < len
                                                ==> data[i] == if i < |old(data)| then old(data)[i] else 0
      ensures res == Err ==> data == old(data)
      ensures reliable ==> res == Ok
    {
      var fails: bool := *;
      if fails && !reliable {
        return Err;
      }
      data := data + seq(len - |data|, i => 0);
      return Ok;
    }

    /** Allocates a bounce buffer of at least `size` bytes; only powers of two are alignments. */
    method NewAlignedBuf(size: nat, alignment: nat) returns (buf: Option<array<Byte>>)
      requires alignment > 0
      ensures buf.Some? ==> fresh(buf.value) && buf.value.Length == size && IsPowerOfTwo(alignment)
      ensures reliable && IsPowerOfTwo(alignment) ==> buf.Some?
    {
      var fails: bool := *;
      if !IsPowerOfTwo(alignment) || (fails && !reliable) {
        return None;
      }
      var b := new Byte[size];
      return Some(b);
    }

    /** Reads `buf.Length` bytes at `off`, through an aligned bounce buffer when the caller's will not do. */
    method AlignedPread(buf: array<Byte>, off: Word, alignment: Word, ptrAligned: bool) returns (res: Outcome)
      modifies buf
      ensures res == Ok ==> Reads(data, off, buf[..])
      ensures reliable && Direct(alignment, ptrAligned, buf.Length, off)
              ==> (res == Ok <==> Has(data, off, buf.Length))
      ensures reliable && !Direct(alignment, ptrAligned, buf.Length, off)
              ==> (res == Ok <==> IsPowerOfTwo(alignment)
                                  && Has(data, off - off % alignment,
                                         NextMultiple(off % alignment + buf.Length, alignment)))
    {
      if alignment == 0 || (ptrAligned && buf.Length % alignment == 0 && off % alignment == 0) {
        res := PreadExact(buf, off);
        return;
      }
      if !IsPowerOfTwo(alignment) {
        return Err;
      }
      var alignedOffset := And(off, Not(alignment - 1));
      MaskRoundsDown(off, alignment);
      var head := off - alignedOffset;
      var alignedLen := NextMultiple(head + buf.Length, alignment);
      var bounce := NewAlignedBuf(alignedLen, alignment);
      if bounce.None? {
        return Err;
      }
      var r := PreadExact(bounce.value, alignedOffset);
      if r == Err {
        return Err;
      }
      forall i | 0 <= i < buf.Length {
        buf[i] := bounce.value[head + i];
      }
      return Ok;
    }

    /** Writes `buf` at `off`; through a bounce buffer this reads, patches and rewrites the aligned region. */
    method AlignedPwrite(buf: seq<Byte>, off: Word, alignment: Word, ptrAligned: bool) returns (res: Outcome)
      modifies this`data
      ensures res == Ok ==> data == Written(old(data), off, buf, |buf|)
      ensures res == Err ==> PartlyWritten(old(data), off, buf, data)
      ensures reliable && Direct(alignment, ptrAligned, |buf|, off) ==> res == Ok
      ensures reliable && !Direct(alignment, ptrAligned, |buf|, off)
              ==> (res == Ok <==> IsPowerOfTwo(alignment)
                                  && Has(old(data), off - off % alignment,
                                         NextMultiple(off % alignment + |buf|, alignment)))
    {
      assert data == Written(data, off, buf, 0);
      if alignment == 0 || (ptrAligned && |buf| % alignment == 0 && off % alignment == 0) {
        res := PwriteAll(buf, off);
        return;
      }
      if !IsPowerOfTwo(alignment) {
        return Err;
      }
      var alignedOffset := And(off, Not(alignment - 1));
      MaskRoundsDown(off, alignment);
      var head := off - alignedOffset;
      var alignedLen := NextMultiple(head + |buf|, alignment);
      res := Rewrite(buf, off, alignedOffset, alignedLen, alignment);
    }

    /** Reads the region at `start`, lays `buf` over it and writes the region back. */
    method Rewrite(buf: seq<Byte>, off: nat, start: nat, len: nat, alignment: nat) returns (res: Outcome)
      requires start <= off && off + |buf| <= start + len && alignment > 0
      modifies this`data
      ensures res == Ok ==> data == Written(old(data), off, buf, |buf|)
      ensures res == Err ==> PartlyWritten(old(data), off, buf, data)
      ensures reliable && IsPowerOfTwo(alignment) ==> (res == Ok <==> Has(old(data), start, len))
    {
      assert data == Written(data, off, buf, 0);
      var bounce := NewAlignedBuf(len, alignment);
      if bounce.None? {
        return Err;
      }
      var r := PreadExact(bounce.value, start);
      if r == Err {
        return Err;
      }
      forall i | 0 <= i < |buf| {
        bounce.value[off - start + i] := buf[i];
      }
      ghost var was := data;
      var region := bounce.value[..];
      hide Written;
      res := PwriteAll(region, start);
      if res == Ok {
        RewriteIsWrite(was, start, region, len, off, buf);
      } else {
        ghost var n: nat :| n <= |region| && data == Written(was, start, region, n);
        RewriteIsWrite(was, start, region, n, off, buf);
      }
    }
  }

  /** The last byte of a one-byte file can be read at offset 0 plainly, but not with 512-byte alignment. */
  method ReadOnlyByte(file: HostFile) returns (plain: Outcome, aligned: Outcome)
    requires file.reliable && |file.data| == 1
    ensures plain == Ok && aligned == Err
  {
    var buf := new Byte[1];
    plain := file.AlignedPread(buf, 0, 0, true);
    aligned := file.AlignedPread(buf, 0, 512, true);
  }

  lemma MultipleSum(q: nat, x: nat, a: nat)
    requires a > 0 && x % a == 0
    ensures (q * a + x) % a == 0
  {
    var k := x / a;
    assert x == k * a;
    assert q * a + k * a == (q + k) * a;
    ModUnique(q * a + x, a, q + k, 0);
  }

  /** The aligned region around a transfer ends at the next multiple after it. */
  lemma AlignedEnd(q: nat, r: nat, n: nat, a: nat)
    requires a > 0
    ensures q * a + NextMultiple(r + n, a) == NextMultiple(q * a + r + n, a)
  {
    hide NextMultiple;
    var x, y := NextMultiple(r + n, a), NextMultiple(q * a + r + n, a);
    MultipleSum(q, x, a);
    SameMultiple(q * a + r + n, a, q * a + x, y);
  }

  /**
    An unaligned transfer of a file it lies in fails exactly when the file ends inside the last block
    the transfer touches.
   */
  lemma AlignedFailsIff(f: seq<Byte>, off: nat, n: nat, a: nat)
    requires a > 0 && n > 0 && Has(f, off, n)
    ensures !Has(f, off - off % a, NextMultiple(off % a + n, a)) <==> |f| < NextMultiple(off + n, a)
  {
    hide NextMultiple;
    var q, r := off / a, off % a;
    assert off == q * a + r;
    AlignedEnd(q, r, n, a);
  }

  lemma SameMultiple(n: nat, a: nat, x: nat, y: nat)
    requires a > 0 && x % a == 0 && y % a == 0 && n <= x < n + a && n <= y < n + a
    ensures x == y
  {
    var i, j := x / a, y / a;
    assert x == i * a && y == j * a;
    if i < j {
      MulMono(i + 1, j, a);
    } else if j < i {
      MulMono(j + 1, i, a);
    }
  }

  /** How many bytes of a `len`-byte patch at `head` the first `n` bytes of a region contain. */
  function Reached(n: nat, head: nat, len: nat): nat {
    if n <= head then 0 else Min(n - head, len)
  }

  /** Rewriting the first `n` bytes of a patched copy of a file region writes just that much of the patch. */
  lemma RewriteIsWrite(f: seq<Byte>, start: nat, region: seq<Byte>, n: nat, off: nat, buf: seq<Byte>)
    requires start <= off && off + |buf| <= start + |region| && n <= |region| && Has(f, start, |region|)
    requires forall i :: 0 <= i < |region|
                     ==> region[i] == if off <= start + i < off + |buf| then buf[start + i - off] else f[start + i]
    ensures Written(f, start, region, n) == Written(f, off, buf, Reached(n, off - start, |buf|))
  {
    var l, r := Written(f, start, region, n), Written(f, off, buf, Reached(n, off - start, |buf|));
    forall i | 0 <= i < |f|
      ensures l[i] == r[i]
    {
    }
  }
}
