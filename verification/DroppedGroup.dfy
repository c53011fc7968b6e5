/**
 A run in which rename drops a group: 63 instructions take all registers, the next one finds none and disappears
 (src/frontend/rat.sv, src/core.sv), fetch goes on behind it, and after the 63 have retired the core continues with the
 instruction after the missing one.
 */
module DroppedGroups {
  import opened Arithmetics
  import opened MicroOps
  import opened Memories
  import opened Selectors
  import opened FreeLists
  import opened RegisterFiles
  import opened MappingTables
  import opened Renaming
  import opened Sequential
  import opened OutOfOrder
  import opened OutOfOrderProof
  import opened StoreBuffers

  /** A program of instructions that all write register 1. */
  function Plain(pc: Word): Inst {
    Inst(pc, Add32(pc, 4), IqInt, FuAlu, BrX, MemLd, MemByte, 1, RsFromImm, 0, RsFromImm, 0, 1, true)
  }

  function PlainUop(pc: Word): MicroOp {
    NO_UOP.(inst := Plain(pc), valid := true)
  }

  function PlainMachine(alu: (Inst, Word, Word) -> Word): Machine {
    Machine((pc: Word) => Plain(pc), alu)
  }

  function Renames(n: nat): (es: seq<Event>)
    ensures |es| == n
  {
    if n == 0 then [] else Renames(n - 1) + [Rename(PlainUop(Add32(4 * (n - 1), 0)))]
  }

  function Round(k: nat): seq<Event> {
    [Dispatch(k), IssueInt(k), Read(k), Execute(k), Retire]
  }

  function Rounds(n: nat): seq<Event> {
    if n == 0 then [] else Rounds(n - 1) + Round(n - 1)
  }

  lemma PlainProgram(alu: (Inst, Word, Word) -> Word)
    ensures ProgramOk(PlainMachine(alu))
  {
  }

  lemma {:induction false} InOrderPc(alu: (Inst, Word, Word) -> Word, mem: Memory, n: nat)
    requires 4 * n < TWO_32
    ensures RunProgram(PlainMachine(alu), ResetArch(0, mem), n).pc == 4 * n
  {
    if n > 0 {
      InOrderPc(alu, mem, n - 1);
    }
  }

  lemma RunSnoc(m: Machine, c0: Core, es: seq<Event>, e: Event)
    ensures var c := Run(m, c0, es);
            Run(m, c0, es + [e]) == if Enabled(m, c, e) then Step(m, c, e) else c
  {
    assert (es + [e])[..|es|] == es;
  }

  /** After n renames, before anything else. */
  ghost predicate Full(c: Core, n: nat) {
    && |c.log| == |c.st| == n && c.ret == 0 && c.hole == -1 && c.fetchPc == 4 * n % TWO_32
    && (forall j :: 0 <= j < n ==> c.st[j] == InRename && c.log[j].inst == Plain(c.log[j].inst.pc))
  }

  lemma {:induction false} FullAfter(alu: (Inst, Word, Word) -> Word, mem: Memory, n: nat)
    requires n <= 63
    ensures var c := Run(PlainMachine(alu), ResetCore(0, mem), Renames(n));
            Full(c, n) && c.rat.free.num == 63 - n
  {
    hide Run, RenameStep, Enabled, ResetCore, Full, PlainMachine;
    var m, c0 := PlainMachine(alu), ResetCore(0, mem);
    if n == 0 {
      RunNone(m, c0);
      FullAtReset(mem);
    } else {
      FullAfter(alu, mem, n - 1);
      var c, u := Run(m, c0, Renames(n - 1)), PlainUop(Add32(4 * (n - 1), 0));
      RunSnoc(m, c0, Renames(n - 1), Rename(u));
      FullStep(alu, c, n - 1);
    }
  }

  lemma FullAtReset(mem: Memory)
    ensures Full(ResetCore(0, mem), 0) && ResetCore(0, mem).rat.free.num == 63
  {
  }

  lemma FullStep(alu: (Inst, Word, Word) -> Word, c: Core, n: nat)
    requires n < 63 && Full(c, n) && c.rat.free.num == 63 - n
    ensures var u := PlainUop(Add32(4 * n, 0));
            && Enabled(PlainMachine(alu), c, Rename(u)) && Step(PlainMachine(alu), c, Rename(u)) == RenameStep(c, u)
            && Full(RenameStep(c, u), n + 1) && RenameStep(c, u).rat.free.num == 62 - n
  {
    hide RenameUop, Renamed;
    RenamedPlain(c.rat, PlainUop(Add32(4 * n, 0)));
  }

  lemma RunNone(m: Machine, c0: Core)
    ensures Run(m, c0, []) == c0
  {
  }

  lemma RenamedPlain(s: RatState, u: MicroOp)
    requires u.valid && u.inst.rdValid && s.free.num > 0
    ensures Renamed(s, u).inst == u.inst && RenameUop(s, u).free.num == s.free.num - 1
  {
    hide LowestFree;
  }

  /** With the dropped group behind the log: k uops have retired, uop k is under way, the others wait in rename. */
  ghost predicate Half(c: Core, k: nat) {
    && |c.log| == |c.st| == 63 && c.ret == k <= 63 && c.hole == 63 && c.fetchPc == 256
    && (forall j :: 0 <= j < 63 ==> c.log[j].inst == Plain(c.log[j].inst.pc))
    && (forall j :: 0 <= j < k ==> c.st[j].Done?) && (forall j :: k < j < 63 ==> c.st[j] == InRename)
  }

  ghost predicate At(c: Core, k: nat, s: Status) {
    Half(c, k) && (k < 63 ==> c.st[k] == s)
  }

  lemma DropEnabled(m: Machine, c: Core, alu: (Inst, Word, Word) -> Word)
    requires m == PlainMachine(alu) && Full(c, 63) && c.rat.free.num == 0
    ensures CanDrop(m, c, [PlainUop(252)]) && At(DropStep(c, [PlainUop(252)]), 0, InRename)
  {
    var u := PlainUop(252);
    var b := MappingTables.Wants(Reqs([u]));
    assert b == [true] && b[..0] == [];
    assert CountTrue(b) == 1;
    assert Fetched(m, Follow(u), [u][1..]);
    assert FetchEnd(252, [u]) == FetchEnd(256, []);
  }

  lemma Dispatches(m: Machine, c: Core, k: nat)
    requires k < 63 && At(c, k, InRename)
    ensures Enabled(m, c, Dispatch(k)) && At(Step(m, c, Dispatch(k)), k, Waiting)
  {
  }

  lemma Issues(m: Machine, c: Core, k: nat)
    requires k < 63 && At(c, k, Waiting)
    ensures Enabled(m, c, IssueInt(k)) && At(Step(m, c, IssueInt(k)), k, Issued)
  {
  }

  lemma Reads(m: Machine, c: Core, k: nat)
    requires k < 63 && At(c, k, Issued)
    ensures Enabled(m, c, Read(k)) && At(Step(m, c, Read(k)), k, HasOperands(1, 1))
  {
  }

  lemma Executes(m: Machine, c: Core, k: nat)
    requires k < 63 && At(c, k, HasOperands(1, 1))
    ensures Enabled(m, c, Execute(k)) && At(Step(m, c, Execute(k)), k, Done(false, c.log[k].inst.npc))
    ensures Step(m, c, Execute(k)).log == c.log
  {
  }

  lemma Retires(m: Machine, c: Core, k: nat, addr: Word)
    requires k < 63 && At(c, k, Done(false, addr))
    ensures Enabled(m, c, Retire) && At(Step(m, c, Retire), k + 1, InRename)
  {
    hide RetireUop, Commit;
  }

  /** One uop goes through the machine. */
  lemma RoundKeeps(m: Machine, c0: Core, es: seq<Event>, k: nat)
    requires k < 63 && At(Run(m, c0, es), k, InRename)
    ensures At(Run(m, c0, es + Round(k)), k + 1, InRename)
  {
    hide Run, Enabled, Step, At;
    var c := Run(m, c0, es);
    RunSnoc(m, c0, es, Dispatch(k));
    Dispatches(m, c, k);
    RunSnoc(m, c0, es + [Dispatch(k)], IssueInt(k));
    Issues(m, Step(m, c, Dispatch(k)), k);
    RunSnoc(m, c0, es + [Dispatch(k)] + [IssueInt(k)], Read(k));
    var d := Run(m, c0, es + [Dispatch(k)] + [IssueInt(k)]);
    Reads(m, d, k);
    RunSnoc(m, c0, es + [Dispatch(k)] + [IssueInt(k)] + [Read(k)], Execute(k));
    var e := Step(m, d, Read(k));
    LastRounds(m, e, k);
    RunSnoc(m, c0, es + [Dispatch(k)] + [IssueInt(k)] + [Read(k)] + [Execute(k)], Retire);
    assert es + Round(k) == es + [Dispatch(k)] + [IssueInt(k)] + [Read(k)] + [Execute(k)] + [Retire];
  }

  lemma LastRounds(m: Machine, c: Core, k: nat)
    requires k < 63 && At(c, k, HasOperands(1, 1))
    ensures Enabled(m, c, Execute(k)) && Enabled(m, Step(m, c, Execute(k)), Retire)
    ensures At(Step(m, Step(m, c, Execute(k)), Retire), k + 1, InRename)
  {
    InLog(c, k);
    hide Enabled, Step, At;
    Executes(m, c, k);
    Retires(m, Step(m, c, Execute(k)), k, c.log[k].inst.npc);
  }

  lemma InLog(c: Core, k: nat)
    requires k < 63 && Half(c, k)
    ensures k < |c.log|
  {
  }

  lemma {:induction false} RoundsKeep(m: Machine, c0: Core, es: seq<Event>, k: nat)
    requires k <= 63 && At(Run(m, c0, es), 0, InRename)
    ensures At(Run(m, c0, es + Rounds(k)), k, InRename)
  {
    hide Run, At;
    if k == 0 {
      assert es + Rounds(0) == es;
    } else {
      RoundsKeep(m, c0, es, k - 1);
      RoundKeeps(m, c0, es + Rounds(k - 1), k - 1);
      assert es + Rounds(k - 1) + Round(k - 1) == es + Rounds(k);
    }
  }

  /**
   All 63 uops before the dropped group have retired, exactly as in order; the next uop to retire is the one after the
   dropped instruction, which the in-order machine executes next.
   */
  lemma {:induction false} DroppedGroupIsSkipped(alu: (Inst, Word, Word) -> Word, mem: Memory)
    ensures var m, es := PlainMachine(alu), Renames(63) + [DropGroup([PlainUop(252)])] + Rounds(63);
            var c, a := Run(m, ResetCore(0, mem), es), RunProgram(m, ResetArch(0, mem), 63);
            c.ret == c.hole == 63 && RetiredPcOf(c) == 256 && a.pc == 252
  {
    hide Run, RunProgram, Renames, Rounds, DropStep, CanDrop;
    var m, c0, e := PlainMachine(alu), ResetCore(0, mem), DropGroup([PlainUop(252)]);
    FullAfter(alu, mem, 63);
    var c := Run(m, c0, Renames(63));
    DropEnabled(m, c, alu);
    RunSnoc(m, c0, Renames(63), e);
    RoundsKeep(m, c0, Renames(63) + [e], 63);
    InOrderPc(alu, mem, 63);
  }
}
