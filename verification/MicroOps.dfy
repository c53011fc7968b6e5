/**
 The micro-operation record of the core (src/common/micro_op.svh) and the widths of src/common/defines.svh.

 The packed struct is split in two: `Inst` holds the fields fixed by decode, `MicroOp` adds the fields that
 prediction, renaming, the reorder buffer and execution fill in later. Fields that only multiply, divide and
 floating point use are not modelled.
 */
module MicroOps {
  import opened Arithmetics

  const RENAME_WIDTH := 4
  const DISPATCH_WIDTH := 4
  const COMMIT_WIDTH := 6
  const PRF_SIZE := 64
  const ROB_SIZE := 64

  type Arf = n: nat | n < 32
  type Prf = n: nat | n < 64
  type RobIndex = n: nat | n < 64
  type Word = n: nat | n < 0x1_0000_0000
  type Byte = n: nat | n < 256

  datatype IqCode = IqX | IqInt | IqMem | IqFp
  datatype FuCode = FuX | FuAlu | FuBr | FuImul | FuIdiv | FuMem
  datatype BrType = BrX | BrEq | BrNe | BrLt | BrGe | BrLtu | BrGeu | BrJal | BrJalr
  datatype MemType = MemLd | MemLdu | MemSt
  datatype MemSize = MemByte | MemHalf | MemWord | MemDword
  datatype Source = RsInvalid | RsFromRf | RsFromImm | RsFromZero | RsFromPc | RsFromNpc

  datatype Inst = Inst(
    pc: Word, npc: Word, iqCode: IqCode, fuCode: FuCode, brType: BrType, memType: MemType, memSize: MemSize,
    imm: Word, rs1Source: Source, rs1: Arf, rs2Source: Source, rs2: Arf, rd: Arf, rdValid: bool)

  datatype MicroOp = MicroOp(
    inst: Inst, valid: bool, complete: bool, robIndex: RobIndex,
    predTaken: bool, predAddr: Word, brTaken: bool, brAddr: Word,
    rs1Prf: Prf, rs2Prf: Prf, rdPrf: Prf, prevPrf: Prf, prevValid: bool)

  const NO_INST := Inst(0, 0, IqX, FuX, BrX, MemLd, MemByte, 0, RsInvalid, 0, RsInvalid, 0, 0, false)
  /** The all-zero record: an empty lane or slot. */
  const NO_UOP := MicroOp(NO_INST, false, false, 0, false, 0, false, 0, 0, 0, 0, 0, false)

  type Bitmap = s: seq<bool> | |s| == 64 witness seq(64, i => false)
  type MapTable = s: seq<Prf> | |s| == 32 witness seq(32, i => 0)
  type ArfBits = s: seq<bool> | |s| == 32 witness seq(32, i => false)

  function Add32(a: int, b: int): Word {
    (a + b) % TWO_32
  }

  function CountValid(us: seq<MicroOp>): (n: nat)
    ensures n <= |us|
  {
    if us == [] then 0 else CountValid(us[..|us| - 1]) + (if us[|us| - 1].valid then 1 else 0)
  }

  /** The valid lanes of a group, in order. */
  function ValidOnly(us: seq<MicroOp>): (r: seq<MicroOp>)
    ensures |r| == CountValid(us)
  {
    if us == [] then [] else
      ValidOnly(us[..|us| - 1]) + (if us[|us| - 1].valid then [us[|us| - 1]] else [])
  }

  /** Valid lanes come first: what dispatch delivers. */
  predicate Packed(us: seq<MicroOp>) {
    forall i, j :: 0 <= i < j < |us| && us[j].valid ==> us[i].valid
  }

  lemma {:induction false} PackedPrefix(us: seq<MicroOp>)
    requires Packed(us)
    ensures ValidOnly(us) == us[..CountValid(us)]
    ensures forall i :: 0 <= i < |us| ==> us[i].valid == (i < CountValid(us))
  {
    if us != [] {
      var us' := us[..|us| - 1];
      PackedPrefix(us');
      if us[|us| - 1].valid {
        assert us' != [] ==> us[|us'| - 1].valid && us'[|us'| - 1].valid;
      }
    }
  }
}
