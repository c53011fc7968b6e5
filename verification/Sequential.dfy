/**
 The in-order machine that the out-of-order core has to match: program counter, 32 registers, flat memory and the
 characters printed, one instruction at a time. The ALU is any function of the instruction and its operands; branches and memory accesses are
 those of the execution units (src/backend/function_unit.sv, src/backend/execution_unit.sv).
 */
module Sequential {
  import opened Arithmetics
  import opened MicroOps
  import opened Memories
  import opened StoreBuffers
  import opened RegisterFiles

  type ArchRegs = s: seq<Word> | |s| == 32 witness seq(32, i => 0)

  datatype Arch = Arch(pc: Word, regs: ArchRegs, mem: Memory, printed: seq<Byte>)

  /** The parts of the machine that are left open: decoded instruction memory and the ALU. */
  datatype Machine = Machine(program: Word -> Inst, alu: (Inst, Word, Word) -> Word)

  predicate IsMem(i: Inst) {
    i.iqCode == IqMem
  }

  predicate IsStoreInst(i: Inst) {
    IsMem(i) && i.memType == MemSt
  }

  /** What decode guarantees about the instruction at pc. */
  predicate InstOk(i: Inst, pc: Word) {
    && i.pc == pc && i.npc == Add32(pc, 4)
    && (i.rdValid ==> i.rd != 0)
    && (IsStoreInst(i) ==> !i.rdValid)
    && (i.memType == MemSt ==> IsMem(i))
    && (i.brType != BrX ==> !IsMem(i))
  }

  ghost predicate ProgramOk(m: Machine) {
    forall pc: Word :: InstOk(m.program(pc), pc)
  }

  // ---- Execution units ----

  function Signed(w: Word): int {
    if w < 0x8000_0000 then w else w - TWO_32
  }

  /** The branch unit: condition and target. */
  function BranchTaken(i: Inst, a: Word, b: Word): bool {
    match i.brType
    case BrX => false
    case BrEq => a == b
    case BrNe => a != b
    case BrLt => Signed(a) < Signed(b)
    case BrGe => Signed(a) >= Signed(b)
    case BrLtu => a < b
    case BrGeu => a >= b
    case BrJal => true
    case BrJalr => true
  }

  function BranchTarget(i: Inst, a: Word, b: Word): Word {
    if i.brType == BrJalr then Add32(a, i.imm)
    else if BranchTaken(i, a, b) then Add32(i.pc, i.imm) else i.npc
  }

  /** The load result that pipe 3 extracts from the eight bytes at the address. */
  function LoadValue(i: Inst, d: seq<Byte>): Word
    requires |d| == 8
  {
    var low: int := d[0];
    var half: int := low + 256 * d[1] as int;
    var word: int := half + 0x1_0000 * d[2] as int + 0x100_0000 * d[3] as int;
    match i.memSize
    case MemByte => if i.memType == MemLd && low >= 0x80 then low + 0xFFFF_FF00 else low
    case MemHalf => if i.memType == MemLd && half >= 0x8000 then half + 0xFFFF_0000 else half
    case MemWord => word
    case MemDword => word
  }

  /** A load looks at no more bytes than its size says. */
  lemma LoadValueBytes(i: Inst, d: seq<Byte>, e: seq<Byte>)
    requires |d| == |e| == 8
    requires forall k :: 0 <= k < 8 && k < SizeBytes(i.memSize) ==> d[k] == e[k]
    ensures LoadValue(i, d) == LoadValue(i, e)
  {
  }

  // ---- One instruction ----

  function Op1(a: Arch, i: Inst): Word {
    Operand(i, i.rs1Source, if i.rs1 == 0 then 0 else a.regs[i.rs1])
  }

  function Op2(a: Arch, i: Inst): Word {
    Operand(i, i.rs2Source, if i.rs2 == 0 then 0 else a.regs[i.rs2])
  }

  function Address(i: Inst, op1: Word): Word {
    Add32(op1, i.imm)
  }

  function Request(a: Arch, i: Inst): StoreReq {
    StoreReq(Address(i, Op1(a, i)), Op2(a, i), i.memSize)
  }

  function Result(m: Machine, a: Arch, i: Inst): Word {
    if IsMem(i) then LoadValue(i, ReadBytes(a.mem, Address(i, Op1(a, i)), 8)) else m.alu(i, Op1(a, i), Op2(a, i))
  }

  function NextPc(i: Inst, op1: Word, op2: Word): Word {
    if i.brType == BrX then i.npc else BranchTarget(i, op1, op2)
  }

  function Exec(m: Machine, a: Arch, i: Inst): Arch {
    Arch(NextPc(i, Op1(a, i), Op2(a, i)),
         if i.rdValid then a.regs[i.rd := Result(m, a, i)] else a.regs,
         if IsStoreInst(i) then Effect(a.mem, Request(a, i)) else a.mem,
         if IsStoreInst(i) then a.printed + Printed(Request(a, i)) else a.printed)
  }

  /** The state after n instructions of the program. */
  function RunProgram(m: Machine, a0: Arch, n: nat): Arch {
    if n == 0 then a0 else
      var a := RunProgram(m, a0, n - 1);
      Exec(m, a, m.program(a.pc))
  }

  /** A branch that is not taken falls through. */
  lemma NotTakenFallsThrough(i: Inst, a: Word, b: Word)
    requires !BranchTaken(i, a, b)
    ensures BranchTarget(i, a, b) == i.npc
  {
  }
}
