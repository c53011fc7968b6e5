/**
 What single instructions do on the in-order machine, in the terms of the RISC-V Unprivileged ISA 20191213 (sections 2.4
 to 2.6): branches compare integers, targets and addresses are sums modulo 2^32, a load returns what was stored.
 */
module Instructions {
  import opened Arithmetics
  import opened MicroOps
  import opened Memories
  import opened StoreBuffers
  import opened RegisterFiles
  import opened Sequential

  // ---- Branches ----

  /** Two registers that hold x and y in two's complement. */
  lemma {:induction false} BranchesCompareIntegers(i: Inst, x: int, y: int)
    requires -0x8000_0000 <= x < 0x8000_0000 && -0x8000_0000 <= y < 0x8000_0000
    ensures var taken := BranchTaken(i, x % TWO_32, y % TWO_32);
            && (i.brType == BrLt ==> (taken <==> x < y))
            && (i.brType == BrGe ==> (taken <==> x >= y))
            && (i.brType == BrEq ==> (taken <==> x == y))
            && (i.brType == BrNe ==> (taken <==> x != y))
  {
    assert x % TWO_32 == if x < 0 then x + TWO_32 else x;
    assert y % TWO_32 == if y < 0 then y + TWO_32 else y;
  }

  lemma {:induction false} BranchesCompareWords(i: Inst, a: Word, b: Word)
    ensures i.brType == BrLtu ==> (BranchTaken(i, a, b) <==> a < b)
    ensures i.brType == BrGeu ==> (BranchTaken(i, a, b) <==> a >= b)
    ensures i.brType == BrEq ==> (BranchTaken(i, a, b) <==> a == b)
    ensures i.brType == BrNe ==> (BranchTaken(i, a, b) <==> a != b)
    ensures i.brType == BrJal || i.brType == BrJalr ==> BranchTaken(i, a, b)
    ensures i.brType == BrX ==> !BranchTaken(i, a, b)
  {
  }

  /** Where a branch at pc goes. */
  lemma {:induction false} BranchesGo(i: Inst, pc: Word, a: Word, b: Word)
    requires InstOk(i, pc)
    ensures BranchTarget(i, a, b) ==
            if i.brType == BrJalr then (a + i.imm) % TWO_32
            else if BranchTaken(i, a, b) then (pc + i.imm) % TWO_32 else (pc + 4) % TWO_32
  {
  }

  // ---- Operands and results ----

  /** An operand comes from its register, which is 0 for register 0, from the immediate, or from the program counter. */
  lemma {:induction false} OperandsAre(a: Arch, i: Inst, pc: Word)
    requires InstOk(i, pc)
    ensures Op1(a, i) == OperandValue(a, i.rs1Source, i.rs1, i.imm, pc)
    ensures Op2(a, i) == OperandValue(a, i.rs2Source, i.rs2, i.imm, pc)
  {
  }

  function OperandValue(a: Arch, src: Source, r: Arf, imm: Word, pc: Word): Word {
    if src == RsFromRf && r != 0 then a.regs[r]
    else if src == RsFromImm then imm
    else if src == RsFromPc then pc
    else if src == RsFromNpc then (pc + 4) % TWO_32
    else 0
  }

  /** One step of the machine: the next address, at most one register, and at most the bytes of one store change. */
  lemma {:induction false} OneStep(m: Machine, a: Arch, i: Inst)
    requires InstOk(i, a.pc)
    ensures var d := Exec(m, a, i);
            && d.pc == (if i.brType == BrX then (a.pc + 4) % TWO_32 else BranchTarget(i, Op1(a, i), Op2(a, i)))
            && (forall r: Arf :: !(i.rdValid && i.rd == r) ==> d.regs[r] == a.regs[r])
            && (i.rdValid && i.iqCode != IqMem ==> d.regs[i.rd] == m.alu(i, Op1(a, i), Op2(a, i)))
            && (i.iqCode == IqMem && i.memType == MemSt ==> d.regs == a.regs)
            && (!(i.iqCode == IqMem && i.memType == MemSt) ==> d.mem == a.mem && d.printed == a.printed)
  {
    hide Op1, Op2, BranchTarget, LoadValue, Effect, ReadBytes;
  }

  // ---- Bytes ----

  function Pow256(n: nat): (p: nat)
    ensures p > 0
  {
    if n == 0 then 1 else 256 * Pow256(n - 1)
  }

  lemma {:induction false} DivDiv(n: nat, p: nat)
    requires p > 0
    ensures Div(n / 256, p) == Div(n, 256 * p)
  {
    hide Mul, Div;
    var q, r := n / 256, n % 256;
    var t := DivIs(q, p);
    var s := Div(q, p);
    MulBy256(s, p);
    DivUnique(n, 256 * p, s, 256 * t + r);
  }

  lemma MulBy256(s: nat, p: nat)
    ensures Mul(s, 256 * p) == 256 * Mul(s, p)
  {
    hide Mul;
    MulTwice(s, p);
    MulTwice(s, 2 * p);
    MulTwice(s, 4 * p);
    MulTwice(s, 8 * p);
    MulTwice(s, 16 * p);
    MulTwice(s, 32 * p);
    MulTwice(s, 64 * p);
    MulTwice(s, 128 * p);
  }

  lemma {:induction false} LittleEndianByte(d: nat, n: nat, k: nat)
    requires k < n
    ensures LittleEndian(d, n)[k] == Div(d, Pow256(k)) % 256
  {
    if k == 0 {
      assert Pow256(0) == 1;
    } else {
      LittleEndianByte(d / 256, n - 1, k - 1);
      hide Div;
      DivDiv(d, Pow256(k - 1));
    }
  }

  /** Byte k of a store is digit k of its data in base 256. */
  lemma {:induction false} StoredDigit(r: StoreReq, k: nat)
    requires k < SizeBytes(r.size)
    ensures StoreBytes(r)[k] == r.data / Pow256(k) % 256
  {
    LittleEndianByte(r.data, SizeBytes(r.size), k);
  }

  /** The four low bytes of a word make up the word. */
  lemma FourBytes(r: StoreReq)
    requires r.data < TWO_32
    ensures SizeBytes(r.size) >= 1 ==> StoreBytes(r)[0] as int == r.data % 0x100
    ensures SizeBytes(r.size) >= 2 ==> StoreBytes(r)[0] as int + 0x100 * StoreBytes(r)[1] as int == r.data % 0x1_0000
    ensures SizeBytes(r.size) >= 4 ==>
              StoreBytes(r)[0] as int + 0x100 * StoreBytes(r)[1] as int
              + 0x1_0000 * StoreBytes(r)[2] as int + 0x100_0000 * StoreBytes(r)[3] as int == r.data
  {
    var s := StoreBytes(r);
    assert Pow256(1) == 256 && Pow256(2) == 0x1_0000 && Pow256(3) == 0x100_0000;
    forall k | 0 <= k < |s| {
      StoredDigit(r, k);
    }
    var a, b, c := r.data / 256, r.data / 0x1_0000, r.data / 0x100_0000;
    assert a == 256 * b + a % 256 && b == 256 * c + b % 256 && c < 256;
  }

  /** A size of n bytes. */
  predicate IsSize(size: MemSize, n: nat) {
    (size == MemByte && n == 1) || (size == MemHalf && n == 2) || (size == MemWord && n == 4) || (size == MemDword && n == 8)
  }

  /** A store of n bytes writes the n low digits of its data from its address on, modulo 2^32, and nothing else. */
  lemma {:induction false} StoreWrites(m: Memory, r: StoreReq, n: nat, x: Word)
    requires IsSize(r.size, n)
    ensures var k := (x - r.addr) % TWO_32;
            ApplyStore(m, r)[x] as int == if k < n then r.data / Pow256(k) % 256 else m[x]
  {
    var k := (x - r.addr) % TWO_32;
    StoredByte(m, r, x);
    if k < n {
      StoredDigit(r, k);
    }
    hide Div, Pow256, StoreBytes;
  }

  /** A store instruction writes those bytes, or prints its low byte, or (at the halt address) does neither. */
  lemma {:induction false} OneStore(m: Machine, a: Arch, i: Inst, n: nat, x: Word)
    requires i.iqCode == IqMem && i.memType == MemSt && IsSize(i.memSize, n)
    ensures var d, addr := Exec(m, a, i), (Op1(a, i) + i.imm) % TWO_32;
            var k := (x - addr) % TWO_32;
            && d.mem[x] as int == (if addr != 0xFFFF_FFF8 && addr != 0xFFFF_FFFC && k < n then Op2(a, i) / Pow256(k) % 256
                                   else a.mem[x])
            && d.printed == a.printed + if addr == 0xFFFF_FFF8 then [Op2(a, i) % 256] else []
  {
    StoreWrites(a.mem, Request(a, i), n, x);
    hide ApplyStore, Op1, Op2, Pow256;
  }

  // ---- Loads return what was stored ----

  /** What a load of n bytes makes of a word: its n low bytes, the sign repeated if the load is signed. */
  function Widened(d: Word, n: nat, signed: bool): int {
    var low := if n == 1 then d % 0x100 else if n == 2 then d % 0x1_0000 else d;
    if signed && n == 1 && low >= 0x80 then low - 0x100 + TWO_32
    else if signed && n == 2 && low >= 0x8000 then low - 0x1_0000 + TWO_32
    else low
  }

  lemma {:induction false} LoadsExtend(i: Inst, n: nat, r: StoreReq, d: seq<Byte>)
    requires IsSize(i.memSize, n) && n <= 4 && r.size == i.memSize && r.data < TWO_32 && |d| == 8
    requires forall k :: 0 <= k < n ==> d[k] == StoreBytes(r)[k]
    ensures LoadValue(i, d) == Widened(r.data, n, i.memType == MemLd)
  {
    FourBytes(r);
    hide StoreBytes;
  }

  lemma StoreIsRead(m: Memory, r: StoreReq, k: nat)
    requires k < SizeBytes(r.size)
    ensures ReadBytes(ApplyStore(m, r), r.addr, 8)[k] == StoreBytes(r)[k]
  {
    StoredByte(m, r, Wrap(r.addr + k));
    hide StoreBytes, ApplyStore;
    assert Wrap(Wrap(r.addr + k) - r.addr) == k;
  }

  /**
   A load after a store of the same size and address returns what was stored, while the store is pending, whatever else
   is, and once it is committed with everything before it.
   */
  lemma {:induction false} LoadAfterStore(m: Memory, buf: seq<StoreReq>, i: Inst, n: nat, addr: Word, d: Word)
    requires IsSize(i.memSize, n) && n <= 4
    ensures var after := buf + [StoreReq(addr, d, i.memSize)];
            && LoadValue(i, ReadBytes(ApplyAll(m, after), addr, 8)) == Widened(d, n, i.memType == MemLd)
            && ((forall k :: 0 <= k < |after| ==> !IsDevice(after[k])) ==>
                 var c := Commit(m, after, |after|);
                 && c.code == 0 && c.buf == []
                 && LoadValue(i, ReadBytes(c.mem, addr, 8)) == Widened(d, n, i.memType == MemLd))
  {
    var r := StoreReq(addr, d, i.memSize);
    var after := buf + [r];
    hide LoadValue, StoreBytes, ReadBytes, ApplyStore, Commit, Widened, IsDevice;
    assert after[..|buf|] == buf && after[..|after|] == after && after[|after|..] == [];
    forall k | 0 <= k < n
      ensures ReadBytes(ApplyAll(m, after), addr, 8)[k] == StoreBytes(r)[k]
    {
      StoreIsRead(ApplyAll(m, buf), r, k);
    }
    LoadsExtend(i, n, r, ReadBytes(ApplyAll(m, after), addr, 8));
    if forall k :: 0 <= k < |after| ==> !IsDevice(after[k]) {
      CommitKeepsView(m, after, |after|);
    }
  }

  /** A store instruction and then a load instruction of the same size at the same address. */
  lemma {:induction false} LoadInstAfterStoreInst(m: Machine, a: Arch, st: Inst, ld: Inst, n: nat)
    requires st.iqCode == ld.iqCode == IqMem && st.memType == MemSt && ld.memType != MemSt && ld.rdValid
    requires st.memSize == ld.memSize && IsSize(st.memSize, n) && n <= 4
    requires var b := Exec(m, a, st); (Op1(a, st) + st.imm) % TWO_32 == (Op1(b, ld) + ld.imm) % TWO_32
    requires (Op1(a, st) + st.imm) % TWO_32 < 0xFFFF_FFF8
    ensures Exec(m, Exec(m, a, st), ld).regs[ld.rd] == Widened(Op2(a, st), n, ld.memType == MemLd)
  {
    hide LoadValue, ReadBytes, ApplyStore, ApplyAll, Commit, Widened, Op1, Op2, StoreBytes;
    var r, b := Request(a, st), Exec(m, a, st);
    OneApplied(a.mem, r);
    assert b.mem == ApplyStore(a.mem, r);
    LoadAfterStore(a.mem, [], ld, n, r.addr, r.data);
  }

  lemma OneApplied(m: Memory, r: StoreReq)
    ensures [] + [r] == [r] && ApplyAll(m, [r]) == ApplyStore(m, r)
  {
    hide ApplyStore;
    assert [r][..0] == [];
    assert ApplyAll(m, []) == m;
  }
}
