/**
 Flat memory, and the sparse memory that stands for it (sim/sim_memory.cc).

 A flat memory is a sequence of 2^32 bytes; addresses wrap around. `BucketMemory` allocates 1 KiB buckets on first
 touch; its `View` is the flat memory it stands for.
 */
module Memories {
  import opened Arithmetics
  import opened MicroOps

  type Memory = m: seq<Byte> | |m| == 0x1_0000_0000 witness seq(0x1_0000_0000, i => 0)
  type Bucket = b: seq<Byte> | |b| == 1024 witness seq(1024, i => 0)

  const BUCKET_SIZE := 1024

  function Wrap(a: int): Word {
    a % TWO_32
  }

  function ReadBytes(m: Memory, a: int, n: nat): (r: seq<Byte>)
    ensures |r| == n
  {
    seq(n, i requires 0 <= i < n => m[Wrap(a + i)])
  }

  /** The byte at x after writing `src` at `a`: the one at its distance from a, if there is one. */
  function ByteAfter(m: Memory, a: int, src: seq<Byte>, x: Word): Byte {
    if Wrap(x - a) < |src| then src[Wrap(x - a)] else m[x]
  }

  function WriteBytes(m: Memory, a: int, src: seq<Byte>): (r: Memory) {
    seq(TWO_32, x requires 0 <= x < TWO_32 => ByteAfter(m, a, src, x))
  }

  /** A buffer whose bytes from `at` on are overwritten by `s`. */
  function Splice(d: seq<Byte>, at: nat, s: seq<Byte>): (r: seq<Byte>)
    requires at + |s| <= |d|
    ensures |r| == |d|
  {
    d[..at] + s + d[at + |s|..]
  }

  lemma SpliceSplice(d: seq<Byte>, at: nat, s: seq<Byte>, t: seq<Byte>)
    requires at + |s| + |t| <= |d|
    ensures Splice(Splice(d, at, s), at + |s|, t) == Splice(d, at, s + t)
  {
  }

  lemma SpliceNothing(d: seq<Byte>, at: nat)
    requires at <= |d|
    ensures Splice(d, at, []) == d
  {
  }

  // ---- Laws of byte maps ----

  lemma WrapSum(a: int, b: int)
    ensures Wrap(Wrap(a) + b) == Wrap(a + b)
    ensures Wrap(Wrap(a) - b) == Wrap(a - b)
    ensures Wrap(a - Wrap(b)) == Wrap(a - b)
  {
    var p, q := a / TWO_32, b / TWO_32;
    assert a == p * TWO_32 + Wrap(a) && b == q * TWO_32 + Wrap(b);
    WrapMultiple(Wrap(a) + b, p);
    WrapMultiple(Wrap(a) - b, p);
    WrapMultiple(a - Wrap(b), -q);
  }

  lemma WrapMultiple(a: int, k: int)
    ensures Wrap(a + k * TWO_32) == Wrap(a)
  {
  }

  lemma WrapWord(a: Word)
    ensures Wrap(a) == a
  {
  }

  lemma ReadWrap(m: Memory, a: int, n: nat)
    ensures ReadBytes(m, Wrap(a), n) == ReadBytes(m, a, n)
  {
    forall i | 0 <= i < n
      ensures ReadBytes(m, Wrap(a), n)[i] == ReadBytes(m, a, n)[i]
    {
      WrapSum(a, i);
    }
  }

  lemma WriteWrap(m: Memory, a: int, src: seq<Byte>)
    ensures WriteBytes(m, Wrap(a), src) == WriteBytes(m, a, src)
  {
    forall x: Word
      ensures WriteBytes(m, Wrap(a), src)[x] == WriteBytes(m, a, src)[x]
    {
      WrapSum(x, a);
    }
  }

  /** Reading back what was written. */
  lemma ReadAfterWrite(m: Memory, a: int, src: seq<Byte>)
    requires |src| <= TWO_32
    ensures ReadBytes(WriteBytes(m, a, src), a, |src|) == src
  {
    hide Wrap;
    var r := ReadBytes(WriteBytes(m, a, src), a, |src|);
    forall i | 0 <= i < |src|
      ensures r[i] == src[i]
    {
      WrapSum(a + i, a);
      assert a + i - a == i;
      WrapWord(i);
      assert r[i] == ByteAfter(m, a, src, Wrap(a + i));
    }
  }

  /** Bytes at other addresses never change. */
  lemma WriteElsewhere(m: Memory, a: int, src: seq<Byte>, x: Word)
    requires Wrap(x - a) >= |src|
    ensures WriteBytes(m, a, src)[x] == m[x]
  {
  }

  lemma WriteNothing(m: Memory, a: int)
    ensures WriteBytes(m, a, []) == m
  {
    assert forall x: Word :: WriteBytes(m, a, [])[x] == m[x];
  }

  /** Two writes one after the other in address order are one write. */
  lemma WriteConcat(m: Memory, a: int, s: seq<Byte>, t: seq<Byte>)
    requires |s| + |t| <= TWO_32
    ensures WriteBytes(WriteBytes(m, a, s), a + |s|, t) == WriteBytes(m, a, s + t)
  {
    forall x: Word
      ensures WriteBytes(WriteBytes(m, a, s), a + |s|, t)[x] == WriteBytes(m, a, s + t)[x]
    {
      WrapDistance(x - a, |s|, |t|);
      assert x - (a + |s|) == x - a - |s|;
    }
  }

  /** How the distance from the end of a block of n bytes follows from the distance from its start. */
  lemma WrapDistance(d: int, n: nat, k: nat)
    requires n + k <= TWO_32
    ensures Wrap(d) >= n ==> Wrap(d - n) == Wrap(d) - n
    ensures Wrap(d) < n ==> Wrap(d - n) >= k
  {
    if Wrap(d) < n {
      assert Wrap(d - n) == Wrap(d) - n + TWO_32;
    }
  }

  /** Writes to disjoint blocks commute: here s lies directly after t. */
  lemma WriteSwap(m: Memory, a: int, s: seq<Byte>, t: seq<Byte>)
    requires |s| + |t| <= TWO_32
    ensures WriteBytes(WriteBytes(m, a + |s|, t), a, s) == WriteBytes(m, a, s + t)
  {
    forall x: Word
      ensures WriteBytes(WriteBytes(m, a + |s|, t), a, s)[x] == WriteBytes(m, a, s + t)[x]
    {
      WrapDistance(x - a, |s|, |t|);
      assert x - (a + |s|) == x - a - |s|;
    }
  }

  /** Reading a block, changing part of it and writing it back changes just that part. */
  lemma ReadModifyWrite(m: Memory, a: int, n: nat, off: nat, src: seq<Byte>)
    requires n <= TWO_32 && off + |src| <= n
    ensures var c := ReadBytes(m, a, n);
            WriteBytes(m, a, c[..off] + src + c[off + |src|..]) == WriteBytes(m, a + off, src)
  {
    var c := ReadBytes(m, a, n);
    var d := c[..off] + src + c[off + |src|..];
    forall x: Word
      ensures WriteBytes(m, a, d)[x] == WriteBytes(m, a + off, src)[x]
    {
      WrapDistance(x - a, off, |src|);
      assert x - (a + off) == x - a - off;
      if Wrap(x - a) < n {
        assert Wrap(a + Wrap(x - a)) == x;
        assert c[Wrap(x - a)] == m[x];
      }
    }
  }

  lemma ReadConcat(m: Memory, a: int, n: nat, k: nat)
    ensures ReadBytes(m, a, n) + ReadBytes(m, a + n, k) == ReadBytes(m, a, n + k)
  {
    var r, t := ReadBytes(m, a, n + k), ReadBytes(m, a + n, k);
    forall i | n <= i < n + k
      ensures r[i] == t[i - n]
    {
      assert a + n + (i - n) == a + i;
    }
  }

  /** A buffer after reading n bytes of memory into it. */
  function Loaded(d: seq<Byte>, at: nat, m: Memory, a: int, n: nat): (r: seq<Byte>)
    requires at + n <= |d|
    ensures |r| == |d|
  {
    Splice(d, at, ReadBytes(m, a, n))
  }

  lemma ReadStart(m: Memory, d: seq<Byte>, at: nat, a: Word)
    requires at <= |d|
    ensures Loaded(d, at, m, a, 0) == d && Wrap(a) == a
  {
  }

  lemma ReadStep(m: Memory, d: seq<Byte>, at: nat, a: int, done: nat, n: nat)
    requires at + done + n <= |d|
    ensures Loaded(Loaded(d, at, m, a, done), at + done, m, Wrap(a + done), n) == Loaded(d, at, m, a, done + n)
    ensures Wrap(Wrap(a + done) + n) == Wrap(a + (done + n))
  {
    SpliceSplice(d, at, ReadBytes(m, a, done), ReadBytes(m, Wrap(a + done), n));
    ReadConcat(m, a, done, n);
    ReadWrap(m, a + done, n);
    WrapSum(a + done, n);
  }

  lemma WriteStep(m: Memory, a: int, src: seq<Byte>, done: nat, n: nat)
    requires done + n <= |src| <= TWO_32
    ensures WriteBytes(WriteBytes(m, a, src[..done]), Wrap(a + done), src[done..done + n]) ==
            WriteBytes(m, a, src[..done + n])
    ensures Wrap(Wrap(a + done) + n) == Wrap(a + (done + n))
  {
    WriteWrap(WriteBytes(m, a, src[..done]), a + done, src[done..done + n]);
    WriteConcat(m, a, src[..done], src[done..done + n]);
    assert src[..done] + src[done..done + n] == src[..done + n];
    WrapSum(a + done, n);
  }

  // ---- Buckets ----

  /** Distance from the start of a block that stays inside one bucket. */
  lemma InBucket(x: Word, a: Word, n: nat)
    requires a % BUCKET_SIZE + n <= BUCKET_SIZE
    ensures Wrap(x - a) < n <==>
            x / BUCKET_SIZE == a / BUCKET_SIZE && a % BUCKET_SIZE <= x % BUCKET_SIZE < a % BUCKET_SIZE + n
    ensures Wrap(x - a) < n ==> Wrap(x - a) == x % BUCKET_SIZE - a % BUCKET_SIZE
  {
    if x >= a {
      assert Wrap(x - a) == x - a;
    } else {
      assert Wrap(x - a) == x - a + TWO_32;
    }
  }

  class BucketMemory {
    var buckets: map<nat, Bucket>

    function ByteAt(a: Word): Byte
      reads this
    {
      if a / BUCKET_SIZE in buckets then buckets[a / BUCKET_SIZE][a % BUCKET_SIZE] else 0
    }

    ghost function View(): Memory
      reads this
    {
      seq(TWO_32, a requires 0 <= a < TWO_32 reads this => ByteAt(a))
    }

    constructor ()
      ensures View() == seq(TWO_32, i => 0)
    {
      buckets := map[];
    }

    /** `buckets[pos]`: a missing bucket is created with zero bytes. */
    method Touch(pos: nat)
      modifies this
      ensures View() == old(View()) && pos in buckets
    {
      if pos !in buckets {
        buckets := buckets[pos := seq(1024, i => 0)];
      }
    }

    /** Walk through the block bucket by bucket, copying out. Reads that create buckets are invisible. */
    method Read(dest: array<Byte>, at: nat, addr0: Word, size0: Word)
      requires at + size0 <= dest.Length
      modifies this, dest
      ensures View() == old(View())
      ensures dest[..] == Loaded(old(dest[..]), at, View(), addr0, size0)
    {
      hide *;
      var addr: Word, size: nat, done: nat := addr0, size0, 0;
      ghost var m, d := View(), dest[..];
      ReadStart(m, d, at, addr0);
      while size > 0
        invariant done <= size0 && size == size0 - done && addr == Wrap(addr0 + done)
        invariant View() == m
        invariant dest[..] == Loaded(d, at, m, addr0, done)
      {
        var n := CopyOut(dest, at + done, addr, size);
        ReadStep(m, d, at, addr0, done, n);
        size, done, addr := size - n, done + n, Wrap(addr + n);
      }
    }

    /** One visit of a bucket: memcpy of the bytes it holds of the block. */
    method CopyOut(dest: array<Byte>, at: nat, addr: Word, size: nat) returns (n: nat)
      requires size > 0 && at + size <= dest.Length
      modifies this, dest
      ensures View() == old(View())
      ensures 0 < n <= size
      ensures dest[..] == Loaded(old(dest[..]), at, View(), addr, n)
    {
      var pos, st := addr / BUCKET_SIZE, addr % BUCKET_SIZE;
      n := if BUCKET_SIZE - st < size then BUCKET_SIZE - st else size;
      Touch(pos);
      forall i | 0 <= i < n {
        dest[at + i] := buckets[pos][st + i];
      }
      ChunkRead(pos, st, n);
    }

    lemma ChunkRead(pos: nat, st: nat, n: nat)
      requires pos in buckets && pos * BUCKET_SIZE + st < TWO_32
      requires st < BUCKET_SIZE && st + n <= BUCKET_SIZE
      ensures ReadBytes(View(), pos * BUCKET_SIZE + st, n) == buckets[pos][st..st + n]
    {
      var r := ReadBytes(View(), pos * BUCKET_SIZE + st, n);
      forall i | 0 <= i < n
        ensures r[i] == buckets[pos][st..st + n][i]
      {
        var a := pos * BUCKET_SIZE + st + i;
        assert a / BUCKET_SIZE == pos && a % BUCKET_SIZE == st + i;
        assert a < TWO_32;
        assert Wrap(a) == a;
      }
    }

    /** Walk through the block bucket by bucket, copying in. */
    method Write(src: seq<Byte>, addr0: Word)
      requires |src| < TWO_32
      modifies this
      ensures View() == WriteBytes(old(View()), addr0, src)
    {
      var addr: Word, size: nat, done: nat := addr0, |src|, 0;
      ghost var m := View();
      WriteNothing(m, addr0);
      WrapWord(addr0);
      hide View, WriteBytes, Wrap;
      while size > 0
        invariant done <= |src| && size == |src| - done && addr == Wrap(addr0 + done)
        invariant View() == WriteBytes(m, addr0, src[..done])
      {
        var n := CopyIn(src, done, addr);
        WriteStep(m, addr0, src, done, n);
        size, done, addr := size - n, done + n, Wrap(addr + n);
      }
      assert src[..|src|] == src;
    }

    /** One visit of a bucket: the bytes of `src` from `done` on that belong into it. */
    method CopyIn(src: seq<Byte>, done: nat, addr: Word) returns (n: nat)
      requires done < |src|
      modifies this
      ensures 0 < n <= |src| - done
      ensures View() == WriteBytes(old(View()), addr, src[done..done + n])
    {
      var pos, st := addr / BUCKET_SIZE, addr % BUCKET_SIZE;
      n := if BUCKET_SIZE - st < |src| - done then BUCKET_SIZE - st else |src| - done;
      Touch(pos);
      var b := buckets[pos];
      buckets := buckets[pos := Splice(b, st, src[done..done + n])];
      forall x: Word
        ensures View()[x] == WriteBytes(old(View()), addr, src[done..done + n])[x]
      {
        InBucket(x, addr, n);
        assert old(View())[x] == old(ByteAt(x));
      }
    }
  }
}
