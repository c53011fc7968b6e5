/**
 Store buffer with store-to-load forwarding (sim/store_buffer.cc) and the clock edge that drives it
 (sim/sim_main2.cc).

 The buffer stands for the memory that results from applying all pending stores in order (`View`). Commits of
 ordinary stores leave the view alone, a flush resets it to backing memory, and a load returns its bytes.
 */
module StoreBuffers {
  import opened Arithmetics
  import opened MicroOps
  import opened Memories

  datatype StoreReq = StoreReq(addr: Word, data: nat, size: MemSize)

  /** Writing here prints a character instead of storing. */
  const PRINT_ADDR: Word := 0xFFFF_FFF8
  /** Writing here halts the simulation. */
  const HALT_ADDR: Word := 0xFFFF_FFFC

  function SizeBytes(s: MemSize): nat {
    match s case MemByte => 1 case MemHalf => 2 case MemWord => 4 case MemDword => 8
  }

  /** The n low bytes of a number, least significant first. */
  function LittleEndian(d: nat, n: nat): (r: seq<Byte>)
    ensures |r| == n
  {
    if n == 0 then [] else [d % 256] + LittleEndian(d / 256, n - 1)
  }

  function StoreBytes(r: StoreReq): (s: seq<Byte>)
    ensures |s| == SizeBytes(r.size) <= 8
  {
    LittleEndian(r.data, SizeBytes(r.size))
  }

  function ApplyStore(m: Memory, r: StoreReq): Memory {
    WriteBytes(m, r.addr, StoreBytes(r))
  }

  function ApplyAll(m: Memory, buf: seq<StoreReq>): Memory {
    if buf == [] then m else ApplyStore(ApplyAll(m, buf[..|buf| - 1]), buf[|buf| - 1])
  }

  predicate IsDevice(r: StoreReq) {
    r.addr == PRINT_ADDR || r.addr == HALT_ADDR
  }

  // ---- The view byte by byte ----

  predicate Covers(r: StoreReq, a: Word) {
    Wrap(a - r.addr) < SizeBytes(r.size)
  }

  /** The youngest pending store that covers the byte at a, -1 when there is none. */
  function Youngest(buf: seq<StoreReq>, a: Word): (k: int)
    ensures -1 <= k < |buf|
    ensures k >= 0 ==> Covers(buf[k], a)
    ensures forall j :: k < j < |buf| ==> !Covers(buf[j], a)
  {
    if buf == [] then -1
    else if Covers(buf[|buf| - 1], a) then |buf| - 1
    else Youngest(buf[..|buf| - 1], a)
  }

  lemma StoredByte(m: Memory, r: StoreReq, a: Word)
    ensures ApplyStore(m, r)[a] == if Covers(r, a) then StoreBytes(r)[Wrap(a - r.addr)] else m[a]
  {
  }

  /** Every byte of the view comes from the youngest store that covers it, or else from memory. */
  lemma {:induction false} ViewByte(m: Memory, buf: seq<StoreReq>, a: Word)
    ensures var k := Youngest(buf, a);
            ApplyAll(m, buf)[a] == if k >= 0 then StoreBytes(buf[k])[Wrap(a - buf[k].addr)] else m[a]
  {
    hide Wrap, StoreBytes, ApplyStore;
    if buf != [] {
      var before, r := buf[..|buf| - 1], buf[|buf| - 1];
      ViewByte(m, before, a);
      StoredByte(ApplyAll(m, before), r, a);
    }
  }

  lemma {:induction false} ApplyFront(m: Memory, buf: seq<StoreReq>)
    requires buf != []
    ensures ApplyAll(m, buf) == ApplyAll(ApplyStore(m, buf[0]), buf[1..])
  {
    if |buf| > 1 {
      ApplyFront(m, buf[..|buf| - 1]);
      assert buf[1..][..|buf| - 2] == buf[..|buf| - 1][1..];
    }
  }

  // ---- Commit ----

  /** Memory and buffer after a commit, the code that stops the simulation if it is -1, and what was printed. */
  datatype Committed = Committed(mem: Memory, buf: seq<StoreReq>, code: int, printed: seq<Byte>)

  /** What an ordinary store does to memory; a store to a device does nothing to it. */
  function Effect(m: Memory, r: StoreReq): Memory {
    if IsDevice(r) then m else ApplyStore(m, r)
  }

  function EffectAll(m: Memory, buf: seq<StoreReq>): Memory {
    if buf == [] then m else Effect(EffectAll(m, buf[..|buf| - 1]), buf[|buf| - 1])
  }

  /** The byte at a does not come from a pending store to a device. */
  predicate Ordinary(buf: seq<StoreReq>, a: Word) {
    Youngest(buf, a) >= 0 ==> !IsDevice(buf[Youngest(buf, a)])
  }

  /** Such a byte of the view is the byte that memory will hold. */
  lemma {:induction false} OrdinaryByte(m: Memory, buf: seq<StoreReq>, a: Word)
    requires Ordinary(buf, a)
    ensures ApplyAll(m, buf)[a] == EffectAll(m, buf)[a]
  {
    hide Wrap, StoreBytes, ApplyStore;
    if buf != [] {
      var before, r := buf[..|buf| - 1], buf[|buf| - 1];
      StoredByte(ApplyAll(m, before), r, a);
      StoredByte(EffectAll(m, before), r, a);
      if !Covers(r, a) {
        OrdinaryByte(m, before, a);
      }
    }
  }

  /** The character that a store prints when it commits. */
  function Printed(r: StoreReq): seq<Byte> {
    if r.addr == PRINT_ADDR then [r.data % 256] else []
  }

  /** The commit loop, with what has been printed before: code -1 stops the simulation. */
  function CommitLoop(m: Memory, buf: seq<StoreReq>, n: nat, printed: seq<Byte>): Committed
    requires n <= |buf|
    decreases n
  {
    if n == 0 then Committed(m, buf, 0, printed)
    else if buf[0].addr == HALT_ADDR then Committed(m, [], -1, printed)
    else CommitLoop(Effect(m, buf[0]), buf[1..], n - 1, printed + Printed(buf[0]))
  }

  function Commit(m: Memory, buf: seq<StoreReq>, n: nat): Committed {
    if n > |buf| then Committed(m, [], -1, []) else CommitLoop(m, buf, n, [])
  }

  lemma CommitStart(m: Memory, buf: seq<StoreReq>, n: nat)
    ensures Commit(m, buf, n) == if n > |buf| then Committed(m, [], -1, []) else CommitLoop(m, buf, n, [])
    ensures forall printed :: CommitLoop(m, buf, 0, printed) == Committed(m, buf, 0, printed)
  {
  }

  lemma CommitStep(m: Memory, buf: seq<StoreReq>, n: nat, printed: seq<Byte>)
    requires 0 < n <= |buf|
    ensures var r := buf[0];
            CommitLoop(m, buf, n, printed) ==
            if r.addr == HALT_ADDR then Committed(m, [], -1, printed)
            else if r.addr == PRINT_ADDR then CommitLoop(m, buf[1..], n - 1, printed + [r.data % 256])
            else CommitLoop(WriteBytes(m, r.addr, StoreBytes(r)), buf[1..], n - 1, printed)
  {
    assert printed + [] == printed;
  }

  /** Committing k ordinary stores moves them to memory in order, prints nothing and leaves the view as it was. */
  lemma {:induction false} CommitKeepsView(m: Memory, buf: seq<StoreReq>, n: nat)
    requires n <= |buf| && forall i :: 0 <= i < n ==> !IsDevice(buf[i])
    ensures Commit(m, buf, n) == Committed(ApplyAll(m, buf[..n]), buf[n..], 0, [])
    ensures ApplyAll(ApplyAll(m, buf[..n]), buf[n..]) == ApplyAll(m, buf)
    decreases n
  {
    if n > 0 {
      hide ApplyStore;
      ApplyFront(m, buf);
      ApplyFront(m, buf[..n]);
      assert buf[..n][1..] == buf[1..][..n - 1] && [] + Printed(buf[0]) == [];
      CommitKeepsView(ApplyStore(m, buf[0]), buf[1..], n - 1);
    }
  }

  /**
   Exactly when the commit of the oldest store leaves the view alone: it is an ordinary store, or it prints and
   every byte it would have changed is written again by a younger store.
   */
  lemma {:induction false} CommitFrontExact(m: Memory, buf: seq<StoreReq>)
    requires buf != [] && buf[0].addr != HALT_ADDR
    ensures var c := Commit(m, buf, 1);
            ApplyAll(c.mem, c.buf) == ApplyAll(m, buf) <==>
            buf[0].addr != PRINT_ADDR ||
            forall a: Word :: Covers(buf[0], a) && m[a] != StoreBytes(buf[0])[Wrap(a - buf[0].addr)] ==>
              Youngest(buf[1..], a) >= 0
  {
    hide Youngest, ApplyAll, ApplyStore, Commit;
    CommitFront(m, buf);
    BytesDecide(m, ApplyStore(m, buf[0]), buf[1..]);
    forall a: Word
      ensures ApplyStore(m, buf[0])[a] != m[a] <==>
              Covers(buf[0], a) && m[a] != StoreBytes(buf[0])[Wrap(a - buf[0].addr)]
    {
      StoredByte(m, buf[0], a);
    }
  }

  lemma {:induction false} CommitFront(m: Memory, buf: seq<StoreReq>)
    requires buf != [] && buf[0].addr != HALT_ADDR
    ensures ApplyAll(m, buf) == ApplyAll(ApplyStore(m, buf[0]), buf[1..])
    ensures Commit(m, buf, 1).buf == buf[1..]
    ensures Commit(m, buf, 1).mem == if buf[0].addr == PRINT_ADDR then m else ApplyStore(m, buf[0])
  {
    hide ApplyAll, ApplyStore;
    ApplyFront(m, buf);
    CommitStart(Effect(m, buf[0]), buf[1..], 0);
  }

  /** Two memories look alike through the same pending stores exactly where these cover their differences. */
  lemma BytesDecide(m: Memory, m': Memory, rest: seq<StoreReq>)
    ensures ApplyAll(m, rest) == ApplyAll(m', rest) <==>
            forall a: Word :: m'[a] != m[a] ==> Youngest(rest, a) >= 0
  {
    hide Youngest, ApplyAll;
    forall a: Word
      ensures ApplyAll(m, rest)[a] == ApplyAll(m', rest)[a] <==> Youngest(rest, a) >= 0 || m[a] == m'[a]
    {
      ViewByte(m, rest, a);
      ViewByte(m', rest, a);
    }
    if forall a: Word :: ApplyAll(m, rest)[a] == ApplyAll(m', rest)[a] {
      assert ApplyAll(m, rest) == ApplyAll(m', rest);
    }
  }

  /** A store to the print address is visible to loads before its commit and gone after it. */
  lemma PrintStoreIsLost()
    ensures var m: Memory := seq(TWO_32, i => 0);
            var buf := [StoreReq(PRINT_ADDR, 65, MemByte)];
            var c := Commit(m, buf, 1);
            ApplyAll(m, buf)[PRINT_ADDR] == 65 && ApplyAll(c.mem, c.buf)[PRINT_ADDR] == 0
  {
    var m: Memory := seq(TWO_32, i => 0);
    var buf := [StoreReq(PRINT_ADDR, 65, MemByte)];
    ViewByte(m, buf, PRINT_ADDR);
    assert buf[1..] == [];
    CommitStart(m, [], 0);
  }

  // ---- Forwarding ----

  /** The eight loaded bytes with those covered by the store replaced. */
  function Overlay(d: seq<Byte>, la: Word, r: StoreReq): (o: seq<Byte>)
    requires |d| == 8
    ensures |o| == 8
  {
    seq(8, k requires 0 <= k < 8 => OverlayByte(d[k], Wrap(la + k), r))
  }

  function OverlayByte(b: Byte, a: Word, r: StoreReq): Byte {
    if Covers(r, a) then StoreBytes(r)[Wrap(a - r.addr)] else b
  }

  lemma OverlayIsStore(m: Memory, la: Word, r: StoreReq)
    ensures Overlay(ReadBytes(m, la, 8), la, r) == ReadBytes(ApplyStore(m, r), la, 8)
  {
    hide Wrap, StoreBytes;
    var d, e := ReadBytes(m, la, 8), ReadBytes(ApplyStore(m, r), la, 8);
    forall k | 0 <= k < 8
      ensures Overlay(d, la, r)[k] == e[k]
    {
      assert e[k] == ByteAfter(m, r.addr, StoreBytes(r), Wrap(la + k));
    }
  }

  /** `int offset = addr - load_addr` on 32-bit operands. */
  function SignedOffset(addr: Word, la: Word): int {
    var d := Wrap(addr - la);
    if d < 0x8000_0000 then d else d - TWO_32
  }

  /** Which bytes of the load a store of n bytes at a signed distance covers. */
  lemma {:induction false} OffsetCovers(r: StoreReq, la: Word, k: nat)
    requires k < 8
    ensures var off := SignedOffset(r.addr, la);
            && (Covers(r, Wrap(la + k)) <==> 0 <= k - off < SizeBytes(r.size))
            && (Covers(r, Wrap(la + k)) ==> Wrap(Wrap(la + k) - r.addr) == k - off)
  {
    hide Wrap, SignedOffset, SizeBytes;
    var off := SignedOffset(r.addr, la);
    var q := OffsetTurns(r.addr, la);
    SizeFits(r.size);
    WrapSum(la + k, r.addr);
    assert la + k - r.addr == k - off + -q * TWO_32;
    WrapMultiple(k - off, -q);
    WrapNear(k - off);
  }

  lemma SizeFits(size: MemSize)
    ensures 0 < SizeBytes(size) <= 8
  {
  }

  lemma OffsetTurns(addr: Word, la: Word) returns (q: int)
    ensures addr - la == SignedOffset(addr, la) + q * TWO_32
    ensures -0x8000_0000 <= SignedOffset(addr, la) < 0x8000_0000
  {
    q := (addr - la) / TWO_32 + (if Wrap(addr - la) < 0x8000_0000 then 0 else 1);
  }

  lemma WrapNear(d: int)
    requires -0x8000_0000 <= d < TWO_32
    ensures Wrap(d) == if d >= 0 then d else d + TWO_32
  {
  }

  class StoreBuffer {
    const dmem: BucketMemory
    var buffer: seq<StoreReq>

    ghost function View(): Memory
      reads this, dmem
    {
      ApplyAll(dmem.View(), buffer)
    }

    constructor (dm: BucketMemory)
      ensures dmem == dm && buffer == [] && View() == dm.View()
    {
      dmem := dm;
      buffer := [];
    }

    method AddStoreRequest(req: StoreReq)
      modifies this
      ensures buffer == old(buffer) + [req]
      ensures View() == ApplyStore(old(View()), req)
    {
      buffer := buffer + [req];
    }

    method FlushStoreBuffer()
      modifies this
      ensures buffer == [] && View() == dmem.View()
    {
      while buffer != []
        decreases |buffer|
      {
        buffer := buffer[1..];
      }
    }

    method CommitStoreRequest(numCommit: nat) returns (code: int, printed: seq<Byte>)
      modifies this, dmem
      ensures Committed(dmem.View(), buffer, code, printed) == Commit(old(dmem.View()), old(buffer), numCommit)
      ensures numCommit <= old(|buffer|) && (forall i :: 0 <= i < numCommit ==> !IsDevice(old(buffer)[i])) ==>
                code == 0 && View() == old(View()) && buffer == old(buffer)[numCommit..]
    {
      hide IsDevice, Commit, CommitLoop, ApplyStore, ApplyAll, WriteBytes, StoreBytes, dmem.View;
      if numCommit <= |buffer| && forall i :: 0 <= i < numCommit ==> !IsDevice(buffer[i]) {
        CommitKeepsView(dmem.View(), buffer, numCommit);
      }
      CommitStart(dmem.View(), buffer, numCommit);
      printed := [];
      if numCommit > |buffer| {
        FlushStoreBuffer();
        return -1, printed;
      }
      ghost var all := Commit(dmem.View(), buffer, numCommit);
      for i := 0 to numCommit
        invariant numCommit - i <= |buffer|
        invariant CommitLoop(dmem.View(), buffer, numCommit - i, printed) == all
      {
        CommitStep(dmem.View(), buffer, numCommit - i, printed);
        var req := buffer[0];
        if req.addr == HALT_ADDR {
          FlushStoreBuffer();
          return -1, printed;
        } else if req.addr == PRINT_ADDR {
          printed := printed + [req.data % 256];
        } else {
          dmem.Write(StoreBytes(req), req.addr);
        }
        buffer := buffer[1..];
      }
      CommitStart(dmem.View(), buffer, 0);
      code := 0;
    }

    /** Eight bytes at load_addr: memory first, then every pending store, oldest first, laid over it. */
    method LoadData(loadAddr: Word, dest: array<Byte>)
      requires dest.Length == 8
      modifies dmem, dest
      ensures View() == old(View()) && dmem.View() == old(dmem.View())
      ensures dest[..] == ReadBytes(View(), loadAddr, 8)
    {
      dmem.Read(dest, 0, loadAddr, 8);
      ghost var m := dmem.View();
      for i := 0 to |buffer|
        invariant dmem.View() == m
        invariant dest[..] == ReadBytes(ApplyAll(m, buffer[..i]), loadAddr, 8)
      {
        assert buffer[..i + 1][..i] == buffer[..i];
        OverlayIsStore(ApplyAll(m, buffer[..i]), loadAddr, buffer[i]);
        Forward(dest, loadAddr, buffer[i]);
      }
      assert buffer[..|buffer|] == buffer;
    }

    /** memcpy(dest + to, data + from, n). */
    static method Memcpy(dest: array<Byte>, to: nat, data: seq<Byte>, from: nat, n: nat)
      requires to + n <= dest.Length && from + n <= |data|
      modifies dest
      ensures forall k :: 0 <= k < dest.Length ==>
                dest[k] == if to <= k < to + n then data[from + k - to] else old(dest[k])
    {
      forall k | 0 <= k < n {
        dest[to + k] := data[from + k];
      }
    }

    /** The branches of the forwarding loop, one per overlap shape. */
    static method Forward(dest: array<Byte>, loadAddr: Word, r: StoreReq)
      requires dest.Length == 8
      modifies dest
      ensures dest[..] == Overlay(old(dest[..]), loadAddr, r)
    {
      var size := SizeBytes(r.size);
      var data := StoreBytes(r);
      var offset := SignedOffset(r.addr, loadAddr);
      ForwardBytes(dest, offset, data, size);
      forall k | 0 <= k < 8
        ensures dest[k] == Overlay(old(dest[..]), loadAddr, r)[k]
      {
        OffsetCovers(r, loadAddr, k);
      }
    }

    static method ForwardBytes(dest: array<Byte>, offset: int, data: seq<Byte>, size: nat)
      requires dest.Length == 8 && size in {1, 2, 4, 8} && |data| == size
      modifies dest
      ensures forall k :: 0 <= k < 8 ==> dest[k] == if 0 <= k - offset < size then data[k - offset] else old(dest[k])
    {
      if size == 1 {
        if offset >= 0 && offset <= 7 {
          Memcpy(dest, offset, data, 0, size);
        }
      } else if size == 2 {
        if offset >= 0 && offset <= 6 {
          Memcpy(dest, offset, data, 0, size);
        } else if offset == 7 {
          Memcpy(dest, offset, data, 0, 8 - offset);
        } else if offset == -1 {
          Memcpy(dest, 0, data, -offset, size + offset);
        }
      } else if size == 4 {
        if offset >= 0 && offset <= 4 {
          Memcpy(dest, offset, data, 0, size);
        } else if offset > 4 && offset <= 7 {
          Memcpy(dest, offset, data, 0, 8 - offset);
        } else if offset >= -3 && offset < 0 {
          Memcpy(dest, 0, data, -offset, size + offset);
        }
      } else if size == 8 {
        if offset == 0 {
          Memcpy(dest, offset, data, 0, size);
        } else if offset > 0 && offset <= 7 {
          Memcpy(dest, offset, data, 0, 8 - offset);
        } else if offset >= -7 && offset < 0 {
          Memcpy(dest, 0, data, -offset, size + offset);
        }
      }
    }

    /**
     The falling clock edge of the driver: commit what retired, flush on a misprediction, then either take the
     store of the memory pipe or serve its load. `stop` says that the simulation ends here.
     */
    method FallingEdge(storeRetire: nat, recover: bool, we: bool, addr: Word, data: nat, size: MemSize,
                       dest: array<Byte>)
      returns (stop: bool, printed: seq<Byte>)
      requires dest.Length == 8
      modifies this, dmem, dest
      ensures var c := Commit(old(dmem.View()), old(buffer), storeRetire);
              var kept := if recover then [] else c.buf;
              && stop == (c.code == -1) && printed == c.printed
              && dmem.View() == c.mem
              && (!stop ==> buffer == if we then kept + [StoreReq(addr, data, size)] else kept)
              && (!stop && !we ==> dest[..] == ReadBytes(ApplyAll(c.mem, kept), addr, 8))
    {
      var code;
      code, printed := CommitStoreRequest(storeRetire);
      if code == -1 {
        return true, printed;
      }
      if recover {
        FlushStoreBuffer();
      }
      if we {
        AddStoreRequest(StoreReq(addr, data, size));
      } else {
        LoadData(addr, dest);
      }
      stop := false;
    }
  }
}
