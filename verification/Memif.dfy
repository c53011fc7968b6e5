/**
 Host access to target memory (sim/memif.cc, with `clear_chunk` of sim/htif.cc and the chunk functions of sim/sim.cc).

 The memory underneath is reached only through chunks whose address and length are multiples of an alignment and whose
 length does not exceed a limit. `Read` and `Write` offer access to any block, and stand for flat memory again.
 Addresses are 64-bit there and cut to 32 bits by the bucket memory; here they are integers that wrap.
 */
module Memifs {
  import opened Arithmetics
  import opened MicroOps
  import opened Memories

  ghost predicate PowerOfTwo(a: nat) {
    exists n: nat :: a == Pow2(n)
  }

  /** Bitwise `x & y`. */
  function BitAnd(x: nat, y: nat): nat {
    if x == 0 || y == 0 then 0 else 2 * BitAnd(x / 2, y / 2) + if x % 2 == 1 && y % 2 == 1 then 1 else 0
  }

  /** Bitwise `x & ~y`. */
  function BitAndNot(x: nat, y: nat): nat {
    if x == 0 then 0 else 2 * BitAndNot(x / 2, y / 2) + if x % 2 == 1 && y % 2 == 0 then 1 else 0
  }

  /** Distance of an address from the boundary below it. */
  function Offset(x: int, align: nat): (r: nat)
    requires align > 0
    ensures r < align
  {
    x % align
  }

  /** What the chunk functions may be asked for. */
  predicate ChunkOk(align: nat, max: nat, addr: nat, len: nat) {
    align > 0 && Offset(addr, align) == 0 && Offset(len, align) == 0 && 0 < len <= max
  }

  function Zeros(n: nat): (r: seq<Byte>)
    ensures |r| == n
  {
    seq(n, i => 0)
  }

  class ChunkedMemory {
    const mem: BucketMemory
    const align: nat
    const max: nat

    /** The alignment is a power of two and the limit a multiple of it. */
    ghost predicate Valid() {
      PowerOfTwo(align) && 0 < align <= max < TWO_32 && Offset(max, align) == 0
    }

    constructor (align: nat, max: nat)
      requires PowerOfTwo(align) && 0 < align <= max < TWO_32 && Offset(max, align) == 0
      ensures Valid() && this.align == align && this.max == max && fresh(mem) && mem.View() == Zeros(TWO_32)
    {
      mem := new BucketMemory();
      this.align, this.max := align, max;
    }

    method ReadChunk(addr: nat, len: nat, dst: array<Byte>, at: nat)
      requires Valid() && ChunkOk(align, max, addr, len) && at + len <= dst.Length
      modifies mem, dst
      ensures mem.View() == old(mem.View())
      ensures dst[..] == Splice(old(dst[..]), at, ReadBytes(mem.View(), addr, len))
    {
      mem.Read(dst, at, Wrap(addr), len);
      ReadWrap(mem.View(), addr, len);
    }

    method WriteChunk(addr: nat, src: seq<Byte>)
      requires Valid() && ChunkOk(align, max, addr, |src|)
      modifies mem
      ensures mem.View() == WriteBytes(old(mem.View()), addr, src)
    {
      ghost var m := mem.View();
      mem.Write(src, Wrap(addr));
      WriteWrap(m, addr, src);
    }

    /** A whole aligned chunk, in a buffer of its own. */
    method FetchChunk(base: nat) returns (chunk: array<Byte>)
      requires Valid() && Offset(base, align) == 0
      modifies mem
      ensures fresh(chunk) && mem.View() == old(mem.View())
      ensures chunk[..] == ReadBytes(mem.View(), base, align)
    {
      hide mem.View, PowerOfTwo, ReadBytes, Splice, Offset;
      chunk := new Byte[align];
      ghost var was := chunk[..];
      Itself(align);
      ReadChunk(base, align, chunk, 0);
      SpliceWhole(was, ReadBytes(mem.View(), base, align));
    }

    /** Copies n bytes from offset `off` of the aligned chunk at `base`. */
    method ReadPart(base: nat, off: nat, n: nat, bytes: array<Byte>, at: nat)
      requires Valid() && Offset(base, align) == 0 && off + n <= align && at + n <= bytes.Length
      modifies mem, bytes
      ensures mem.View() == old(mem.View())
      ensures bytes[..] == Splice(old(bytes[..]), at, ReadBytes(mem.View(), base + off, n))
    {
      hide mem.View, PowerOfTwo, ReadBytes, Splice, Offset;
      var chunk := FetchChunk(base);
      ReadInside(mem.View(), base, align, off, n);
      Copy(chunk, off, n, bytes, at);
    }

    /** Overwrites part of the aligned chunk at `base` and writes the chunk back. */
    method WritePart(base: nat, off: nat, src: seq<Byte>)
      requires Valid() && Offset(base, align) == 0 && off + |src| <= align
      modifies mem
      ensures mem.View() == WriteBytes(old(mem.View()), base + off, src)
    {
      hide mem.View, PowerOfTwo, ReadBytes, Offset;
      ghost var m := mem.View();
      var chunk := FetchChunk(base);
      ghost var c := chunk[..];
      forall i | 0 <= i < |src| {
        chunk[off + i] := src[i];
      }
      assert chunk[..] == c[..off] + src + c[off + |src|..];
      ReadModifyWrite(m, base, align, off, src);
      Itself(align);
      WriteChunk(base, chunk[..]);
    }

    /** Any block can be read: an unaligned start, an unaligned end, and chunks of at most the limit between. */
    method Read(addr0: nat, len0: nat, bytes: array<Byte>, at0: nat)
      requires Valid() && len0 <= TWO_32 && at0 + len0 <= bytes.Length
      modifies mem, bytes
      ensures mem.View() == old(mem.View())
      ensures bytes[..] == Splice(old(bytes[..]), at0, ReadBytes(mem.View(), addr0, len0))
    {
      hide mem.View, PowerOfTwo, ReadBytes, Splice, Offset;
      ghost var m, d := mem.View(), bytes[..];
      var head := ReadHead(addr0, len0, bytes, at0);
      var addr, len, at := addr0 + head, len0 - head, at0 + head;
      MaskIsOffset(len, align);
      var tail := BitAnd(len, align - 1);
      TailFits(addr, len, align);
      len := len - tail;
      if tail != 0 {
        ReadPart(addr + len, 0, tail, bytes, at + len);
      } else {
        SpliceNothing(bytes[..], at + len);
        NoBytes(m, addr + len);
      }
      ReadMiddle(addr, len, bytes, at);
      JoinReads(m, d, at0, addr0, head, len, tail);
    }

    /** The part up to the first alignment boundary, if the block does not start at one. */
    method ReadHead(addr: nat, len: nat, bytes: array<Byte>, at: nat) returns (head: nat)
      requires Valid() && at + len <= bytes.Length
      modifies mem, bytes
      ensures mem.View() == old(mem.View()) && head <= len && (head < len ==> Offset(addr + head, align) == 0)
      ensures bytes[..] == Splice(old(bytes[..]), at, ReadBytes(mem.View(), addr, head))
    {
      hide mem.View, PowerOfTwo, ReadBytes, Splice, Offset;
      MaskIsOffset(addr, align);
      head := 0;
      if len > 0 && BitAnd(addr, align - 1) != 0 {
        head := Min(len, align - BitAnd(addr, align - 1));
        HeadFits(addr, len, align);
        ReadPart(BitAndNot(addr, align - 1), BitAnd(addr, align - 1), head, bytes, at);
      } else {
        SpliceNothing(bytes[..], at);
        NoBytes(mem.View(), addr);
      }
    }

    /** The aligned part, chunk by chunk. */
    method ReadMiddle(addr: nat, len: nat, bytes: array<Byte>, at: nat)
      requires Valid() && Offset(len, align) == 0 && (len > 0 ==> Offset(addr, align) == 0) && at + len <= bytes.Length
      modifies mem, bytes
      ensures mem.View() == old(mem.View())
      ensures bytes[..] == Splice(old(bytes[..]), at, ReadBytes(mem.View(), addr, len))
    {
      hide mem.View, PowerOfTwo, ReadBytes, Splice, Offset;
      ghost var m, d := mem.View(), bytes[..];
      SpliceNothing(d, at);
      NoBytes(m, addr);
      Itself(align);
      var pos := 0;
      while pos < len
        invariant Offset(pos, align) == 0
        invariant mem.View() == m
        invariant bytes[..] == Splice(d, at, ReadBytes(m, addr, Min(pos, len)))
        decreases len - pos
      {
        var n := Min(max, len - pos);
        ChunkFits(align, max, addr, len, pos);
        ReadChunk(addr + pos, n, bytes, at + pos);
        SpliceSplice(d, at, ReadBytes(m, addr, pos), ReadBytes(m, addr + pos, n));
        ReadConcat(m, addr, pos, n);
        pos := pos + max;
        assert Min(pos, len) == pos - max + n;
      }
    }

    /**
     Any block can be written: an unaligned start and an unaligned end by reading, changing and writing back a chunk,
     the aligned part between by clearing it if it is zero and by chunks of at most the limit otherwise.
     */
    method Write(addr0: nat, bytes: seq<Byte>)
      requires Valid() && |bytes| <= TWO_32
      modifies mem
      ensures mem.View() == WriteBytes(old(mem.View()), addr0, bytes)
    {
      hide mem.View, PowerOfTwo, ReadBytes, Offset, WriteBytes;
      ghost var m := mem.View();
      var head := WriteHead(addr0, bytes);
      var addr, rest := addr0 + head, bytes[head..];
      MaskIsOffset(|rest|, align);
      var tail := BitAnd(|rest|, align - 1);
      TailFits(addr, |rest|, align);
      var len := |rest| - tail;
      if tail != 0 {
        WritePart(addr + len, 0, rest[len..]);
      } else {
        WriteNothing(mem.View(), addr + len);
      }
      var mid := rest[..len];
      var allZero := AllZero(mid);
      if allZero {
        ClearChunk(addr, len);
      } else {
        WriteMiddle(addr, mid);
      }
      JoinWrites(m, addr0, bytes[..head], mid, rest[len..]);
      assert bytes[..head] + mid + rest[len..] == bytes;
    }

    method WriteHead(addr: nat, bytes: seq<Byte>) returns (head: nat)
      requires Valid()
      modifies mem
      ensures head <= |bytes| && (head < |bytes| ==> Offset(addr + head, align) == 0)
      ensures mem.View() == WriteBytes(old(mem.View()), addr, bytes[..head])
    {
      hide mem.View, PowerOfTwo, Offset, WriteBytes;
      MaskIsOffset(addr, align);
      head := 0;
      if |bytes| > 0 && BitAnd(addr, align - 1) != 0 {
        head := Min(|bytes|, align - BitAnd(addr, align - 1));
        HeadFits(addr, |bytes|, align);
        WritePart(BitAndNot(addr, align - 1), BitAnd(addr, align - 1), bytes[..head]);
      } else {
        WriteNothing(mem.View(), addr);
      }
    }

    static method AllZero(bytes: seq<Byte>) returns (allZero: bool)
      ensures allZero <==> bytes != [] && bytes == Zeros(|bytes|)
    {
      allZero := |bytes| != 0;
      for i := 0 to |bytes|
        invariant allZero <==> bytes != [] && forall k :: 0 <= k < i ==> bytes[k] == 0
      {
        allZero := allZero && bytes[i] == 0;
      }
    }

    method WriteMiddle(addr: nat, bytes: seq<Byte>)
      requires Valid() && Offset(|bytes|, align) == 0 && (bytes != [] ==> Offset(addr, align) == 0) && |bytes| <= TWO_32
      modifies mem
      ensures mem.View() == WriteBytes(old(mem.View()), addr, bytes)
    {
      hide mem.View, PowerOfTwo, Offset, WriteBytes;
      ghost var m := mem.View();
      WriteNothing(m, addr);
      Itself(align);
      var pos, len := 0, |bytes|;
      while pos < len
        invariant Offset(pos, align) == 0
        invariant mem.View() == WriteBytes(m, addr, bytes[..Min(pos, len)])
        decreases len - pos
      {
        var n := Min(max, len - pos);
        ChunkFits(align, max, addr, len, pos);
        WriteConcat(m, addr, bytes[..pos], bytes[pos..pos + n]);
        assert bytes[..pos] + bytes[pos..pos + n] == bytes[..pos + n];
        WriteChunk(addr + pos, bytes[pos..pos + n]);
        pos := pos + max;
        assert Min(pos, len) == pos - max + n;
      }
      assert bytes[..len] == bytes;
    }

    /** Writes zeros, chunk by chunk. */
    method ClearChunk(addr: nat, len: nat)
      requires Valid() && Offset(len, align) == 0 && (len > 0 ==> Offset(addr, align) == 0) && len <= TWO_32
      modifies mem
      ensures mem.View() == WriteBytes(old(mem.View()), addr, Zeros(len))
    {
      hide mem.View, PowerOfTwo, Offset, WriteBytes;
      ghost var m := mem.View();
      var zeros := Zeros(max);
      WriteNothing(m, addr);
      Itself(align);
      var pos := 0;
      while pos < len
        invariant Offset(pos, align) == 0
        invariant mem.View() == WriteBytes(m, addr, Zeros(Min(pos, len)))
        decreases len - pos
      {
        var n := Min(len - pos, max);
        ChunkFits(align, max, addr, len, pos);
        WriteConcat(m, addr, Zeros(pos), Zeros(n));
        assert Zeros(pos) + Zeros(n) == Zeros(pos + n) && zeros[..n] == Zeros(n);
        WriteChunk(addr + pos, zeros[..n]);
        pos := pos + max;
        assert Min(pos, len) == pos - max + n;
      }
    }

    /** A write and then a read of the same block: the bytes come back, and no byte outside the block has changed. */
    method RoundTrip(addr: nat, bytes: seq<Byte>) returns (back: array<Byte>)
      requires Valid() && |bytes| <= TWO_32
      modifies mem
      ensures fresh(back) && back[..] == bytes
      ensures forall x: Word :: Wrap(x - addr) >= |bytes| ==> mem.View()[x] == old(mem.View()[x])
    {
      hide mem.View, PowerOfTwo, ReadBytes, WriteBytes, Splice;
      ghost var m := mem.View();
      Write(addr, bytes);
      back := new Byte[|bytes|];
      ghost var was := back[..];
      Read(addr, |bytes|, back, 0);
      ReadAfterWrite(m, addr, bytes);
      SpliceWhole(was, bytes);
      forall x: Word | Wrap(x - addr) >= |bytes|
        ensures mem.View()[x] == m[x]
      {
        WriteElsewhere(m, addr, bytes, x);
      }
    }
  }

  method Copy(src: array<Byte>, off: nat, n: nat, dst: array<Byte>, at: nat)
    requires off + n <= src.Length && at + n <= dst.Length && src != dst
    modifies dst
    ensures dst[..] == Splice(old(dst[..]), at, src[off..off + n])
  {
    forall i | 0 <= i < n {
      dst[at + i] := src[off + i];
    }
  }

  lemma SpliceWhole(d: seq<Byte>, s: seq<Byte>)
    requires |s| == |d|
    ensures Splice(d, 0, s) == s
  {
  }

  lemma NoBytes(m: Memory, a: int)
    ensures ReadBytes(m, a, 0) == []
  {
  }

  // ---- Alignment ----

  lemma {:induction false} LowBits(x: nat, n: nat)
    ensures BitAnd(x, Pow2(n) - 1) == Offset(x, Pow2(n))
  {
    hide BitAnd, Offset;
    if n == 0 || x == 0 {
      NoBits(x, Pow2(n));
    } else {
      LowBits(x / 2, n - 1);
      ModTwice(x, Pow2(n - 1));
      HalfMask(x, Pow2(n - 1));
    }
  }

  lemma NoBits(x: nat, p: nat)
    requires p == 1 || (x == 0 && p > 0)
    ensures BitAnd(x, p - 1) == 0 == Offset(x, p)
  {
  }

  lemma HalfMask(x: nat, p: nat)
    requires p > 0 && x > 0
    ensures BitAnd(x, 2 * p - 1) == 2 * BitAnd(x / 2, p - 1) + x % 2
  {
    assert (2 * p - 1) / 2 == p - 1 && (2 * p - 1) % 2 == 1;
  }

  lemma ModTwice(x: nat, p: nat)
    requires p > 0
    ensures Offset(x, 2 * p) == 2 * Offset(x / 2, p) + x % 2
  {
    hide Mul, Div;
    var q := Div(x / 2, p);
    var t := DivIs(x / 2, p);
    QuotientIs(x / 2, p, q, t);
    MulTwice(q, p);
    QuotientIs(x, 2 * p, q, 2 * t + x % 2);
  }

  lemma {:induction false} ClearedRest(x: nat, y: nat)
    ensures BitAndNot(x, y) + BitAnd(x, y) == x
  {
    if x > 0 {
      ClearedRest(x / 2, y / 2);
    }
  }

  /** For a power of two the mask expressions of the source are remainder and rounding down. */
  lemma {:induction false} MaskIsOffset(x: nat, align: nat)
    requires PowerOfTwo(align)
    ensures align > 0 && BitAnd(x, align - 1) == Offset(x, align)
    ensures BitAndNot(x, align - 1) == x - Offset(x, align)
  {
    var n: nat :| align == Pow2(n);
    LowBits(x, n);
    ClearedRest(x, align - 1);
  }

  lemma MulMonotone(x: int, y: int, a: nat)
    requires x <= y
    ensures x * a <= y * a
  {
    assert 0 <= (y - x) * a;
  }

  lemma Quotient(x: int, a: nat) returns (q: int)
    requires a > 0
    ensures x == q * a + Offset(x, a)
  {
    q := x / a;
  }

  lemma MultipleMod(q: int, a: nat)
    requires a > 0
    ensures Offset(q * a, a) == 0
  {
    var p := Quotient(q * a, a);
    assert (p + 1) * a == p * a + a;
    if q > p {
      MulMonotone(p + 1, q, a);
    }
  }

  lemma {:induction false} AlignedSum(x: int, y: int, a: nat)
    requires a > 0 && Offset(x, a) == 0 && Offset(y, a) == 0
    ensures Offset(x + y, a) == 0 && Offset(x - y, a) == 0
  {
    var p := Quotient(x, a);
    var q := Quotient(y, a);
    MultipleMod(p + q, a);
    MultipleMod(p - q, a);
    assert (p + q) * a == p * a + q * a && (p - q) * a == p * a - q * a;
  }

  lemma {:induction false} RoundDown(x: nat, a: nat)
    requires a > 0
    ensures Offset(x - Offset(x, a), a) == 0 && x - Offset(x, a) >= 0
  {
    var q := Quotient(x, a);
    MultipleMod(q, a);
  }

  lemma Itself(a: nat)
    requires a > 0
    ensures Offset(a, a) == 0 && Offset(0, a) == 0
  {
  }

  lemma {:induction false} HeadFits(addr: nat, len: nat, align: nat)
    requires align > 0 && len > 0 && Offset(addr, align) != 0
    ensures var n := Min(len, align - Offset(addr, align));
            && addr >= Offset(addr, align) && Offset(addr - Offset(addr, align), align) == 0
            && (n < len ==> Offset(addr + n, align) == 0)
  {
    RoundDown(addr, align);
    Itself(align);
    AlignedSum(addr - Offset(addr, align), align, align);
  }

  lemma {:induction false} TailFits(addr: nat, len: nat, align: nat)
    requires align > 0 && (len > 0 ==> Offset(addr, align) == 0)
    ensures len >= Offset(len, align)
    ensures len > 0 ==> Offset(addr + (len - Offset(len, align)), align) == 0
    ensures Offset(len - Offset(len, align), align) == 0
  {
    RoundDown(len, align);
    if len > 0 {
      AlignedSum(addr, len - Offset(len, align), align);
    }
  }

  /** Less than the remaining aligned length, an aligned length leaves at least one unit. */
  lemma {:induction false} ChunkFits(align: nat, max: nat, addr: nat, len: nat, pos: nat)
    requires 0 < align <= max && Offset(max, align) == 0
    requires Offset(addr, align) == 0 && Offset(len, align) == 0 && Offset(pos, align) == 0 && pos < len
    ensures ChunkOk(align, max, addr + pos, Min(max, len - pos))
    ensures Offset(pos + max, align) == 0
  {
    AlignedSum(addr, pos, align);
    AlignedSum(pos, max, align);
    AlignedSum(len, pos, align);
  }

  lemma JoinReads(m: Memory, d: seq<Byte>, at: nat, a: nat, head: nat, mid: nat, tail: nat)
    requires at + head + mid + tail <= |d|
    ensures var e := Splice(d, at, ReadBytes(m, a, head));
            var f := Splice(e, at + head + mid, ReadBytes(m, a + head + mid, tail));
            Splice(f, at + head, ReadBytes(m, a + head, mid)) == Splice(d, at, ReadBytes(m, a, head + mid + tail))
  {
    hide ReadBytes;
    ReadConcat(m, a, head, mid);
    ReadConcat(m, a, head + mid, tail);
  }

  lemma ReadInside(m: Memory, a: int, n: nat, off: nat, k: nat)
    requires off + k <= n
    ensures ReadBytes(m, a + off, k) == ReadBytes(m, a, n)[off..off + k]
  {
    var r, s := ReadBytes(m, a + off, k), ReadBytes(m, a, n)[off..off + k];
    forall i | 0 <= i < k
      ensures r[i] == s[i]
    {
      assert a + off + i == a + (off + i);
    }
  }

  /** The start, then the end, then the middle: together one write of the whole block. */
  lemma JoinWrites(m: Memory, a: int, head: seq<Byte>, mid: seq<Byte>, tail: seq<Byte>)
    requires |head| + |mid| + |tail| <= TWO_32
    ensures var m1 := WriteBytes(m, a, head);
            var m2 := WriteBytes(m1, a + |head| + |mid|, tail);
            WriteBytes(m2, a + |head|, mid) == WriteBytes(m, a, head + mid + tail)
  {
    hide WriteBytes;
    WriteSwap(WriteBytes(m, a, head), a + |head|, mid, tail);
    WriteConcat(m, a, head, mid + tail);
    assert head + (mid + tail) == head + mid + tail;
  }
}
