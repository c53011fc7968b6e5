/**
 The out-of-order core as a machine of interleaved events, and its invariant.

 The events are the stages of src/core.sv: renaming (on the alias table of src/frontend/rat.sv), in-order dispatch,
 issue of a uop none of whose sources is busy (src/backend/scoreboard_int.sv), operand read and write-back
 (src/backend/prf_int.sv), memory accesses in the order of the memory pipe through the store buffer
 (src/backend/issue_queue_mem.sv, sim/store_buffer.cc), in-order retirement and squash after a misprediction
 (src/frontend/rob.sv). Events interleave arbitrarily, so every timing of the pipeline registers is covered.
 */
module OutOfOrder {
  import opened MicroOps
  import opened Memories
  import opened StoreBuffers
  import opened RegisterFiles
  import opened FreeLists
  import Robs
  import opened MappingTables
  import opened Renaming
  import opened Sequential
  import opened IssueQueueMems

  /** Renamed, in an issue queue, issued, operands read, completed (with the branch unit's outcome). */
  datatype Status = InRename | Waiting | Issued | HasOperands(a: Word, b: Word) | Done(taken: bool, addr: Word)

  /**
   `log` holds the renamed uops of the current path in program order, `ret` of them retired; `mq` and `pipe` hold
   positions of the log: the memory queue and the memory pipe behind it. `hole` is the position before which rename
   dropped a group of the current path, for want of registers; it is -1 if there was none. `printed` is what
   retired stores to the print address have put out.
   */
  datatype Core = Core(
    rat: RatState, sb: Bitmap, prf: Regs, mem: Memory, buf: seq<StoreReq>, fetchPc: Word,
    log: seq<MicroOp>, st: seq<Status>, ret: nat, mq: seq<nat>, pipe: seq<nat>, hole: int, printed: seq<Byte>)

  function EmptyBoard(): Bitmap {
    seq(64, i => false)
  }

  function ZeroRegs(): Regs {
    seq(64, i => 0)
  }

  function ZeroArch(): ArchRegs {
    seq(32, i => 0)
  }

  function ResetArch(pc: Word, mem: Memory): Arch {
    Arch(pc, ZeroArch(), mem, [])
  }

  function ResetCore(pc: Word, mem: Memory): Core {
    Core(RatReset(), EmptyBoard(), ZeroRegs(), mem, [], pc, [], [], 0, [], [], -1, [])
  }

  // ---- Events ----

  /** Where fetch continues after a uop. */
  function Follow(u: MicroOp): Word {
    if u.predTaken then u.predAddr else u.inst.npc
  }

  predicate Mispredicted(u: MicroOp, taken: bool, addr: Word) {
    Robs.Mispredicts(u.(brTaken := taken, brAddr := addr))
  }

  predicate CanRename(m: Machine, c: Core, u: MicroOp) {
    && u.valid && u.inst == m.program(c.fetchPc)
    && (u.predTaken ==> u.inst.brType != BrX)
    && (u.inst.rdValid ==> c.rat.free.num > 0)
  }

  function RenameStep(c: Core, u: MicroOp): Core {
    c.(rat := RenameUop(c.rat, u), log := c.log + [Renamed(c.rat, u)], st := c.st + [InRename], fetchPc := Follow(u))
  }

  /** A group that fetch delivers from pc on, along its predictions. */
  ghost predicate Fetched(m: Machine, pc: Word, us: seq<MicroOp>)
    decreases us
  {
    us != [] ==>
      && us[0].valid && us[0].inst == m.program(pc) && (us[0].predTaken ==> us[0].inst.brType != BrX)
      && Fetched(m, Follow(us[0]), us[1..])
  }

  function FetchEnd(pc: Word, us: seq<MicroOp>): Word
    decreases us
  {
    if us == [] then pc else FetchEnd(Follow(us[0]), us[1..])
  }

  /** A group for which registers are missing: rename shows nothing of it, and fetch goes on behind it. */
  ghost predicate CanDrop(m: Machine, c: Core, us: seq<MicroOp>) {
    |us| <= RENAME_WIDTH && Fetched(m, c.fetchPc, us) && Demand(us) > c.rat.free.num
  }

  function DropStep(c: Core, us: seq<MicroOp>): Core {
    c.(fetchPc := FetchEnd(c.fetchPc, us), hole := if c.hole < 0 then |c.log| else c.hole)
  }

  predicate CanDispatch(c: Core, i: nat) {
    i < |c.st| == |c.log| && c.st[i] == InRename && forall j :: 0 <= j < i ==> c.st[j] != InRename
  }

  function DispatchStep(c: Core, i: nat): Core
    requires CanDispatch(c, i)
  {
    c.(st := c.st[i := Waiting],
       sb := if c.log[i].inst.rdValid then c.sb[c.log[i].rdPrf := true] else c.sb,
       mq := if IsMem(c.log[i].inst) then c.mq + [i] else c.mq)
  }

  predicate SourcesReady(c: Core, u: MicroOp) {
    && !SeenBusy(c.sb, [], SourceIndex(u.inst.rs1Source, u.rs1Prf))
    && !SeenBusy(c.sb, [], SourceIndex(u.inst.rs2Source, u.rs2Prf))
  }

  predicate CanIssueInt(c: Core, i: nat) {
    i < |c.st| == |c.log| && c.st[i] == Waiting && !IsMem(c.log[i].inst) && SourcesReady(c, c.log[i])
  }

  function IssueIntStep(c: Core, i: nat): Core
    requires CanIssueInt(c, i)
  {
    c.(st := c.st[i := Issued])
  }

  predicate InLog(c: Core, ps: seq<nat>) {
    |c.st| == |c.log| && forall k :: 0 <= k < |ps| ==> ps[k] < |c.log|
  }

  /** What the selector of the memory queue permits: a store only from the front, nothing past a store. */
  predicate CanIssueMem(c: Core, k: nat) {
    && InLog(c, c.mq) && k < |c.mq| && SourcesReady(c, c.log[c.mq[k]])
    && (IsStore(c.log[c.mq[k]]) ==> k == 0)
    && (forall j :: 0 <= j < k ==> !IsStore(c.log[c.mq[j]]))
  }

  function IssueMemStep(c: Core, k: nat): Core
    requires CanIssueMem(c, k)
  {
    c.(st := c.st[c.mq[k] := Issued], pipe := c.pipe + [c.mq[k]], mq := RemoveAt(c.mq, k))
  }

  predicate CanRead(c: Core, i: nat) {
    i < |c.st| == |c.log| && c.st[i] == Issued
  }

  function ReadOperands(c: Core, i: nat): Core
    requires CanRead(c, i)
  {
    var u := c.log[i];
    c.(st := c.st[i := HasOperands(
                  Operand(u.inst, u.inst.rs1Source, ReadReg(c.prf, SourceIndex(u.inst.rs1Source, u.rs1Prf))),
                  Operand(u.inst, u.inst.rs2Source, ReadReg(c.prf, SourceIndex(u.inst.rs2Source, u.rs2Prf))))])
  }

  /** Completion of uop i with a result: register write, end of busy. */
  function Complete(c: Core, i: nat, result: Word, outcome: Status): Core
    requires i < |c.st| == |c.log|
  {
    var u := c.log[i];
    c.(st := c.st[i := outcome],
       prf := WriteOne(c.prf, WritePort(u.inst.rdValid, u.rdPrf, result)),
       sb := if u.inst.rdValid then c.sb[u.rdPrf := false] else c.sb)
  }

  predicate CanExecute(c: Core, i: nat) {
    i < |c.st| == |c.log| && c.st[i].HasOperands? && !IsMem(c.log[i].inst)
  }

  function ExecuteStep(m: Machine, c: Core, i: nat): Core
    requires CanExecute(c, i)
  {
    var j, a, b := c.log[i].inst, c.st[i].a, c.st[i].b;
    Complete(c, i, m.alu(j, a, b), Done(BranchTaken(j, a, b), BranchTarget(j, a, b)))
  }

  /** The memory pipe serves its uops in order. */
  predicate Serves(c: Core) {
    InLog(c, c.pipe) && c.pipe != [] && c.st[c.pipe[0]].HasOperands?
  }

  /** No load asks for a byte that is on its way to a device. */
  predicate CanAccess(c: Core) {
    && Serves(c)
    && (!IsStore(c.log[c.pipe[0]]) ==> NoDeviceByte(c.buf, AccessRequest(c)))
  }

  predicate NoDeviceByte(buf: seq<StoreReq>, r: StoreReq) {
    forall a: Word :: Covers(r, a) ==> Ordinary(buf, a)
  }

  function AccessRequest(c: Core): StoreReq
    requires Serves(c)
  {
    var i := c.pipe[0];
    StoreReq(Address(c.log[i].inst, c.st[i].a), c.st[i].b, c.log[i].inst.memSize)
  }

  function AccessStep(c: Core): Core
    requires CanAccess(c)
  {
    var i := c.pipe[0];
    var addr := Address(c.log[i].inst, c.st[i].a);
    Complete(c, i, LoadValue(c.log[i].inst, ReadBytes(ApplyAll(c.mem, c.buf), addr, 8)), Done(false, 0))
    .(pipe := c.pipe[1..], buf := if IsStore(c.log[i]) then c.buf + [AccessRequest(c)] else c.buf)
  }

  /** The run ends when a store to the halt address would commit. */
  predicate CanRetire(c: Core) {
    && c.ret < |c.st| == |c.log| && c.st[c.ret].Done?
    && (IsStore(c.log[c.ret]) && c.buf != [] ==> c.buf[0].addr != HALT_ADDR)
  }

  /** The oldest uop leaves; a retiring store commits the front of the store buffer. */
  function RetireStep(c: Core): Core
    requires CanRetire(c)
  {
    var k := Commit(c.mem, c.buf, if IsStore(c.log[c.ret]) then 1 else 0);
    c.(rat := RetireUop(c.rat, c.log[c.ret]), ret := c.ret + 1, mem := k.mem, buf := k.buf,
       printed := c.printed + k.printed)
  }

  /** Retirement of a mispredicted branch: everything younger is squashed, fetch restarts at its target. */
  function SquashStep(c: Core): Core
    requires CanRetire(c)
  {
    var d := RetireStep(c);
    d.(rat := Recover(d.rat), log := c.log[..d.ret], st := c.st[..d.ret], sb := EmptyBoard(),
       buf := [], mq := [], pipe := [], fetchPc := c.st[c.ret].addr,
       hole := if c.hole < d.ret then c.hole else -1)
  }

  function RetireEvent(c: Core): Core
    requires CanRetire(c)
  {
    if Mispredicted(c.log[c.ret], c.st[c.ret].taken, c.st[c.ret].addr) then SquashStep(c) else RetireStep(c)
  }

  datatype Event =
    | Rename(u: MicroOp) | DropGroup(us: seq<MicroOp>) | Dispatch(i: nat) | IssueInt(i: nat) | IssueMem(k: nat)
    | Read(i: nat) | Execute(i: nat) | Access | Retire

  ghost predicate Enabled(m: Machine, c: Core, e: Event) {
    match e
    case Rename(u) => CanRename(m, c, u)
    case DropGroup(us) => CanDrop(m, c, us)
    case Dispatch(i) => CanDispatch(c, i)
    case IssueInt(i) => CanIssueInt(c, i)
    case IssueMem(k) => CanIssueMem(c, k)
    case Read(i) => CanRead(c, i)
    case Execute(i) => CanExecute(c, i)
    case Access => CanAccess(c)
    case Retire => CanRetire(c)
  }

  ghost function Step(m: Machine, c: Core, e: Event): Core
    requires Enabled(m, c, e)
  {
    match e
    case Rename(u) => RenameStep(c, u)
    case DropGroup(us) => DropStep(c, us)
    case Dispatch(i) => DispatchStep(c, i)
    case IssueInt(i) => IssueIntStep(c, i)
    case IssueMem(k) => IssueMemStep(c, k)
    case Read(i) => ReadOperands(c, i)
    case Execute(i) => ExecuteStep(m, c, i)
    case Access => AccessStep(c)
    case Retire => RetireEvent(c)
  }

  // ---- In-order meaning of the log ----

  /** The in-order states before each uop of the log, and after the last. */
  function Archs(m: Machine, a0: Arch, log: seq<MicroOp>): (r: seq<Arch>)
    ensures |r| == |log| + 1
  {
    if log == [] then [a0] else NextArchs(m, Archs(m, a0, log[..|log| - 1]), log[|log| - 1])
  }

  function NextArchs(m: Machine, archs: seq<Arch>, u: MicroOp): (r: seq<Arch>)
    requires archs != []
    ensures |r| == |archs| + 1
  {
    archs + [Exec(m, archs[|archs| - 1], u.inst)]
  }

  ghost predicate ArchsOk(m: Machine, log: seq<MicroOp>, archs: seq<Arch>) {
    && |archs| == |log| + 1 && archs[0].regs == ZeroArch()
    && forall i :: 0 <= i < |log| ==> archs[i + 1] == Exec(m, archs[i], log[i].inst)
  }

  lemma {:induction false} ArchsAreOk(m: Machine, a0: Arch, log: seq<MicroOp>)
    requires a0.regs == ZeroArch()
    ensures ArchsOk(m, log, Archs(m, a0, log)) && Archs(m, a0, log)[0] == a0
  {
    hide Exec;
    if log != [] {
      var n := |log| - 1;
      ArchsAreOk(m, a0, log[..n]);
      ArchsOkNext(m, log[..n], Archs(m, a0, log[..n]), log[n]);
      assert log == log[..n] + [log[n]];
    }
  }

  lemma ArchsOkNext(m: Machine, log: seq<MicroOp>, archs: seq<Arch>, u: MicroOp)
    requires ArchsOk(m, log, archs)
    ensures ArchsOk(m, log + [u], NextArchs(m, archs, u)) && NextArchs(m, archs, u)[0] == archs[0]
  {
    hide Exec;
    var r := NextArchs(m, archs, u);
    assert forall i :: 0 <= i <= |log| ==> r[i] == archs[i];
  }

  lemma ArchsAppend(m: Machine, a0: Arch, log: seq<MicroOp>, u: MicroOp)
    ensures Archs(m, a0, log + [u]) == NextArchs(m, Archs(m, a0, log), u)
  {
    assert (log + [u])[..|log|] == log;
  }

  lemma {:induction false} ArchsPrefix(m: Machine, a0: Arch, log: seq<MicroOp>, k: nat)
    requires k <= |log|
    ensures Archs(m, a0, log[..k]) == Archs(m, a0, log)[..k + 1]
    decreases |log| - k
  {
    hide Archs, Exec;
    if k < |log| {
      ArchsPrefix(m, a0, log, k + 1);
      assert log[..k + 1] == log[..k] + [log[k]];
      ArchsAppend(m, a0, log[..k], log[k]);
      ShorterPrefix(Archs(m, a0, log[..k]), Archs(m, a0, log[..k + 1])[k + 1], Archs(m, a0, log));
    } else {
      assert log[..k] == log;
    }
  }

  lemma ShorterPrefix(p: seq<Arch>, a: Arch, r: seq<Arch>)
    requires |p| < |r| && p + [a] == r[..|p| + 1]
    ensures p == r[..|p|]
  {
    assert (p + [a])[..|p|] == p;
  }

  /** The value of register r before uop i is what its last writer left, or the initial zero. */
  lemma {:induction false} LastWriterValue(m: Machine, log: seq<MicroOp>, ws: seq<WriterTable>, archs: seq<Arch>,
                                           i: nat, r: Arf)
    requires WritersOk(log, ws) && ArchsOk(m, log, archs) && i <= |log|
    ensures archs[i].regs[r] == if ws[i][r] >= 0 then archs[ws[i][r] + 1].regs[r] else 0
    decreases i
  {
    if i > 0 {
      LastWriterValue(m, log, ws, archs, i - 1, r);
      assert ws[i - 1 + 1] == Written(ws[i - 1], log[i - 1], i - 1);
      assert archs[i - 1 + 1] == Exec(m, archs[i - 1], log[i - 1].inst);
    }
  }

  // ---- Invariant ----

  /** Completed live uops hold their in-order result; read operands and branch outcomes are the in-order ones. */
  ghost predicate ValuesOk(m: Machine, c: Core, ws: seq<WriterTable>, archs: seq<Arch>)
    requires |c.st| == |c.log| && |ws| == |archs| == |c.log| + 1 && c.ret <= |c.log|
  {
    && (forall j :: Live(c.log, ws, c.ret, j) && c.st[j].Done? ==>
          c.prf[c.log[j].rdPrf] == archs[j + 1].regs[c.log[j].inst.rd])
    && (forall j :: 0 <= j < |c.log| ==> StatusOk(c, ws, archs[j], j))
  }

  ghost predicate StatusOk(c: Core, ws: seq<WriterTable>, a: Arch, j: nat)
    requires |c.st| == |c.log| && |ws| == |c.log| + 1 && j < |c.log|
  {
    var i := c.log[j].inst;
    && (j < c.ret ==> c.st[j].Done?)
    && (c.st[j] == Issued ==> SourceDone(c, ws[j], i.rs1Source, i.rs1) && SourceDone(c, ws[j], i.rs2Source, i.rs2))
    && (c.st[j].HasOperands? ==> c.st[j] == HasOperands(Op1(a, i), Op2(a, i)))
    && (c.st[j].Done? && i.brType != BrX ==>
          c.st[j] == Done(BranchTaken(i, Op1(a, i), Op2(a, i)), BranchTarget(i, Op1(a, i), Op2(a, i))))
  }

  /** The producer of a register source has completed. */
  ghost predicate SourceDone(c: Core, w: WriterTable, src: Source, r: Arf)
    requires |c.st| == |c.log|
  {
    src == RsFromRf ==> w[r] < |c.st| && (w[r] >= 0 ==> c.st[w[r]].Done?)
  }

  /** Dispatch is in order, and the board is set for every dispatched destination that is not complete. */
  ghost predicate BoardOk(c: Core)
    requires |c.st| == |c.log|
  {
    && (forall i, j :: 0 <= i < j < |c.st| && c.st[i] == InRename ==> c.st[j] == InRename)
    && (forall j :: c.ret <= j < |c.st| && c.log[j].inst.rdValid && c.st[j] != InRename && !c.st[j].Done? ==>
          c.sb[c.log[j].rdPrf])
  }

  // Memory

  ghost predicate Pending(c: Core, i: nat)
    requires |c.st| == |c.log|
  {
    c.ret <= i < |c.log| && IsMem(c.log[i].inst) && c.st[i] != InRename && !c.st[i].Done?
  }

  /** The queue and the pipe hold exactly the dispatched, uncompleted memory uops, stores in program order. */
  ghost predicate QueuesOk(c: Core)
    requires |c.st| == |c.log|
  {
    var o := c.pipe + c.mq;
    && (forall i :: 0 <= i < |c.log| ==> (Pending(c, i) <==> i in o))
    && StoreOrdered(c.log, o) && Once(0, o) && Ascending(c.mq)
    && (forall i :: 0 <= i < |c.log| ==> (c.st[i] == Waiting && IsMem(c.log[i].inst) <==> i in c.mq))
  }

  /** Before a completed in-flight store every memory uop has completed. */
  ghost predicate StoresInOrder(c: Core)
    requires |c.st| == |c.log|
  {
    forall i, k :: c.ret <= i < k < |c.log| && IsStoreInst(c.log[k].inst) && c.st[k].Done? && IsMem(c.log[i].inst) ==>
      c.st[i].Done?
  }

  /** Requests of the completed stores among uops lo..hi-1, in program order. */
  function DoneStores(log: seq<MicroOp>, st: seq<Status>, archs: seq<Arch>, lo: nat, hi: nat): seq<StoreReq>
    requires |st| == |log| && |archs| == |log| + 1 && hi <= |log|
    decreases hi
  {
    if hi <= lo then []
    else DoneStores(log, st, archs, lo, hi - 1) + DoneStore(log[hi - 1], st[hi - 1], archs[hi - 1])
  }

  function DoneStore(u: MicroOp, s: Status, a: Arch): seq<StoreReq> {
    if IsStoreInst(u.inst) && s.Done? then [Request(a, u.inst)] else []
  }

  ghost predicate MemoryOk(c: Core, archs: seq<Arch>)
    requires |c.st| == |c.log| && |archs| == |c.log| + 1 && c.ret <= |c.log|
  {
    && c.mem == archs[c.ret].mem && c.printed == archs[c.ret].printed
    && c.buf == DoneStores(c.log, c.st, archs, c.ret, |c.log|)
  }

  // Path

  /** How many uops of the log follow one another without a dropped group between them. */
  function Solid(c: Core): nat {
    if 0 <= c.hole <= |c.log| then c.hole else |c.log|
  }

  ghost predicate PathOk(m: Machine, c: Core, archs: seq<Arch>)
    requires |archs| == |c.log| + 1 && c.ret <= |c.log|
  {
    && -1 <= c.hole <= |c.log|
    && (forall i :: 0 <= i < |c.log| ==> UopFits(m, c.log[i]))
    && (forall i :: 0 <= i < Solid(c) && i <= c.ret ==> c.log[i].inst.pc == archs[i].pc)
    && (forall i :: c.ret <= i < Solid(c) - 1 ==> c.log[i + 1].inst.pc == Follow(c.log[i]))
    && (c.hole < 0 ==> c.fetchPc == if c.ret < |c.log| then Follow(c.log[|c.log| - 1]) else archs[c.ret].pc)
  }

  ghost predicate UopFits(m: Machine, u: MicroOp) {
    u.inst == m.program(u.inst.pc) && (u.predTaken ==> u.inst.brType != BrX)
  }

  ghost predicate Shapes(c: Core, ws: seq<WriterTable>, archs: seq<Arch>) {
    |c.st| == |c.log| && |ws| == |archs| == |c.log| + 1 && c.ret <= |c.log|
  }

  ghost predicate InvAt(m: Machine, c: Core, ws: seq<WriterTable>, archs: seq<Arch>) {
    && Shapes(c, ws, archs)
    && ValuesOk(m, c, ws, archs) && BoardOk(c) && QueuesOk(c) && StoresInOrder(c) && MemoryOk(c, archs)
    && PathOk(m, c, archs)
  }

  ghost predicate Inv(m: Machine, a0: Arch, c: Core) {
    RatInv(c.rat, c.log, c.ret) && InvAt(m, c, Writers(c.log), Archs(m, a0, c.log))
  }
}
