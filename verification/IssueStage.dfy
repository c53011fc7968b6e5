/**
 The pipeline registers of src/core.sv together with the two issue queues they feed. Every call of a queue's clock here
 meets that queue's demands: whatever the queues report and whatever leaves them, a group that arrives finds the load
 signal up and a free slot for each of its uops.
 */
module IssueStages {
  import opened MicroOps
  import opened Selectors
  import opened Dispatches
  import opened Pipelines
  import opened RegisterFiles
  import opened IssueQueueInts
  import opened IssueQueueMems

  class IssueStage {
    var id: Group
    var rrIn: Group
    var idTmp: Group
    var rrStall: bool
    var robIn: Group
    var rrTmp: Group
    var dpStall: bool
    var isInt: Group
    var isMem: Group
    var intTmp: Group
    var memTmp: Group
    var isStall: bool
    var iqFullReg: bool
    const intQueue: IssueQueueInt
    const memQueue: IssueQueueMem

    function State(): Stages
      reads this
    {
      Stages(id, rrIn, idTmp, rrStall, robIn, rrTmp, dpStall, isInt, isMem, intTmp, memTmp, isStall)
    }

    /** Nothing waits at a queue whose load signal is down, and while it is up both queues have room for a group. */
    ghost predicate Valid()
      reads this, intQueue, memQueue
    {
      && intQueue.Valid() && memQueue.Valid() && Elastic(State())
      && (iqFullReg ==> Idle(isInt) && Idle(isMem))
      && (!iqFullReg ==> intQueue.freeCount >= DISPATCH_WIDTH && memQueue.freeCount >= DISPATCH_WIDTH)
    }

    constructor ()
      ensures Valid() && fresh(intQueue) && fresh(memQueue) && State() == Reset()
    {
      id, rrIn, idTmp, rrStall := NoGroup(), NoGroup(), NoGroup(), false;
      robIn, rrTmp, dpStall := NoGroup(), NoGroup(), false;
      isInt, isMem, intTmp, memTmp, isStall := NoGroup(), NoGroup(), NoGroup(), NoGroup(), false;
      iqFullReg := false;
      intQueue := new IssueQueueInt();
      memQueue := new IssueQueueMem();
      new;
      NoGroupIdle();
    }

    lemma GroupsFit()
      requires Valid()
      ensures CountValid(isInt) > 0 || CountValid(isMem) > 0 ==> !iqFullReg
      ensures forall i :: 0 <= i < |isInt| && isInt[i].valid ==> i < intQueue.freeCount
      ensures CountValid(isMem) <= memQueue.freeCount && Packed(isMem)
    {
      if iqFullReg {
        IdleGroup(isInt);
        IdleGroup(isMem);
      }
    }

    /** One clock. `placed` and `renamed` are the groups leaving the reorder buffer and rename. */
    method Step(clear: bool, rrAllocatable: bool, cmAllocatable: bool, fetched: Group, renamed: Group, placed: Group,
                sb: Bitmap, clears: seq<Strobe>, rs1Busy: SlotBits, rs2Busy: SlotBits)
      returns (intOut: seq<MicroOp>, memOut: MicroOp)
      requires Valid()
      requires QuietOk(State(), Wires(false, rrAllocatable, cmAllocatable, fetched, renamed, placed))
      modifies this, intQueue, memQueue
      ensures Valid()
      ensures var w := Wires(iqFullReg, rrAllocatable, cmAllocatable, fetched, renamed, placed);
              State() == if clear then Reset() else Next(old(State()), w)
      ensures !clear ==> IntLoaded(old(intQueue.slots), sb, clears, old(isInt), intQueue.slots)
      ensures !clear ==> MemLoaded(old(memQueue.Contents()), old(isMem), memQueue.Contents())
    {
      hide Next, Elastic, Idle, QuietOk, IntLoaded, MemLoaded, FreeBits, CountTrue, Reset;
      var iqFull;
      intOut, memOut, iqFull := StepQueues(clear, sb, clears, rs1Busy, rs2Busy);
      var w := Wires(iqFull, rrAllocatable, cmAllocatable, fetched, renamed, placed);
      QuietAnyFull(State(), w);
      StepRegisters(clear, w);
    }

    lemma QuietAnyFull(s: Stages, w: Wires)
      requires QuietOk(s, w.(iqFull := false))
      ensures QuietOk(s, w)
    {
    }

    static ghost predicate IntLoaded(was: seq<MicroOp>, sb: Bitmap, clears: seq<Strobe>, group: Group, now: seq<MicroOp>)
    {
      now == IssueQueueInts.After(was, AluBrBits(was, sb, clears), MulDivBits(was, sb, clears), group)
    }

    static ghost predicate MemLoaded(was: seq<MicroOp>, group: Group, now: seq<MicroOp>) {
      exists sel :: sel < |was| && now == RemoveAt(was, sel) + ValidOnly(group)
    }

    method StepQueues(clear: bool, sb: Bitmap, clears: seq<Strobe>, rs1Busy: SlotBits, rs2Busy: SlotBits)
      returns (intOut: seq<MicroOp>, memOut: MicroOp, iqFull: bool)
      requires Valid()
      modifies intQueue, memQueue
      ensures intQueue.Valid() && memQueue.Valid()
      ensures clear || !iqFull ==> intQueue.freeCount >= DISPATCH_WIDTH && memQueue.freeCount >= DISPATCH_WIDTH
      ensures !clear ==> IntLoaded(old(intQueue.slots), sb, clears, isInt, intQueue.slots)
      ensures !clear ==> MemLoaded(old(memQueue.Contents()), isMem, memQueue.Contents())
    {
      hide Elastic, IntLoaded, MemLoaded, Idle, FreeBits, CountTrue, CountValid, Packed, ValidOnly;
      GroupsFit();
      var intFull, memFull;
      intOut, intFull := StepInt(clear, sb, clears);
      memOut, memFull := StepMem(clear, rs1Busy, rs2Busy);
      iqFull := memFull || intFull;
    }

    method StepInt(clear: bool, sb: Bitmap, clears: seq<Strobe>) returns (intOut: seq<MicroOp>, full: bool)
      requires intQueue.Valid() && (CountValid(isInt) > 0 ==> !iqFullReg)
      requires forall i :: 0 <= i < |isInt| && isInt[i].valid ==> i < intQueue.freeCount
      modifies intQueue
      ensures intQueue.Valid() && (clear || !full ==> intQueue.freeCount >= DISPATCH_WIDTH)
      ensures !clear ==> IntLoaded(old(intQueue.slots), sb, clears, isInt, intQueue.slots)
    {
      hide FreeBits, CountTrue, Filter, CountValid, IssueQueueInts.After, AluBrBits, MulDivBits, Lane;
      intOut, full := intQueue.Step(clear, !iqFullReg, sb, clears, isInt);
    }

    method StepMem(clear: bool, rs1Busy: SlotBits, rs2Busy: SlotBits) returns (memOut: MicroOp, full: bool)
      requires memQueue.Valid() && (CountValid(isMem) > 0 ==> !iqFullReg)
      requires CountValid(isMem) <= memQueue.freeCount && Packed(isMem)
      modifies memQueue
      ensures memQueue.Valid() && (clear || !full ==> memQueue.freeCount >= DISPATCH_WIDTH)
      ensures !clear ==> MemLoaded(old(memQueue.Contents()), isMem, memQueue.Contents())
    {
      hide Packed, ValidOnly, CountValid, Select, RemoveAt, Permitted;
      memOut, full := memQueue.Step(clear, !iqFullReg, rs1Busy, rs2Busy, isMem);
      assert clear ==> memQueue.tail == |memQueue.Contents()|;
    }

    method StepRegisters(clear: bool, w: Wires)
      requires Elastic(State()) && QuietOk(State(), w)
      modifies this
      ensures Elastic(State()) && (w.iqFull ==> Idle(isInt) && Idle(isMem)) && iqFullReg == w.iqFull
      ensures State() == if clear then Reset() else Next(old(State()), w)
    {
      hide Elastic, Idle, QuietOk, Next, Reset;
      RegistersStayElastic(State(), w);
      if clear {
        Clear();
      } else {
        Edges(w);
      }
      iqFullReg := w.iqFull;
    }

    lemma RegistersStayElastic(s: Stages, w: Wires)
      requires Elastic(s) && QuietOk(s, w)
      ensures Elastic(Next(s, w)) && Elastic(Reset()) && Idle(Reset().isInt) && Idle(Reset().isMem)
      ensures w.iqFull ==> Idle(Next(s, w).isInt) && Idle(Next(s, w).isMem)
    {
      StepKeepsElastic(s, w);
      hide Elastic;
      NoGroupIdle();
      ResetElastic(IqInt);
    }

    method Edges(w: Wires)
      modifies this
      ensures State() == Next(old(State()), w)
    {
      IssueEdge(w);
      DispatchEdge(w);
      RenameEdge(w);
      hide Boundary, Port, NoGroup;
    }

    method Clear()
      modifies this
      ensures State() == Reset() && iqFullReg == old(iqFullReg)
    {
      id, rrIn, idTmp, rrStall := NoGroup(), NoGroup(), NoGroup(), false;
      robIn, rrTmp, dpStall := NoGroup(), NoGroup(), false;
      isInt, isMem, intTmp, memTmp, isStall := NoGroup(), NoGroup(), NoGroup(), NoGroup(), false;
    }

    /** Decode and its boundary to rename. */
    method RenameEdge(w: Wires)
      modifies `id, `rrIn, `idTmp, `rrStall
      ensures (rrIn, idTmp, rrStall) == old(Boundary(w.RrFull(), rrStall, id, idTmp))
      ensures id == if w.RrFull() then NoGroup() else w.fetched
    {
      if w.RrFull() && !rrStall {
        rrIn, idTmp, rrStall := NoGroup(), id, true;
      } else if rrStall && !w.RrFull() {
        rrIn, idTmp, rrStall := idTmp, NoGroup(), false;
      } else if w.RrFull() {
        rrIn := NoGroup();
      } else {
        rrIn := id;
      }
      id := if w.RrFull() then NoGroup() else w.fetched;
    }

    /** The boundary from rename to the reorder buffer. */
    method DispatchEdge(w: Wires)
      modifies `robIn, `rrTmp, `dpStall
      ensures (robIn, rrTmp, dpStall) == old(Boundary(w.CmFull(), dpStall, w.renamed, rrTmp))
    {
      if w.CmFull() && !dpStall {
        robIn, rrTmp, dpStall := NoGroup(), w.renamed, true;
      } else if dpStall && !w.CmFull() {
        robIn, rrTmp, dpStall := rrTmp, NoGroup(), false;
      } else if w.CmFull() {
        robIn := NoGroup();
      } else {
        robIn := w.renamed;
      }
    }

    /** The boundary from dispatch to the issue queues. */
    method IssueEdge(w: Wires)
      modifies `isInt, `isMem, `intTmp, `memTmp, `isStall
      ensures (isInt, intTmp, isStall) == old(Boundary(w.iqFull, isStall, Port(w.placed, IqInt), intTmp))
      ensures (isMem, memTmp, isStall) == old(Boundary(w.iqFull, isStall, Port(w.placed, IqMem), memTmp))
    {
      var toInt, toMem := Port(w.placed, IqInt), Port(w.placed, IqMem);
      if w.iqFull && !isStall {
        isInt, isMem := NoGroup(), NoGroup();
        intTmp, memTmp, isStall := toInt, toMem, true;
      } else if isStall && !w.iqFull {
        isInt, isMem := intTmp, memTmp;
        intTmp, memTmp, isStall := NoGroup(), NoGroup(), false;
      } else if w.iqFull {
        isInt, isMem := NoGroup(), NoGroup();
      } else {
        isInt, isMem := toInt, toMem;
      }
    }
  }
}
