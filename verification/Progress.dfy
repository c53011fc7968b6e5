/**
 The out-of-order core never comes to rest: as long as a renamed uop has not retired, some stage behind rename can move,
 and each such move brings the end nearer. What is renamed therefore retires without any further fetch, unless the
 program halts the simulation or a load asks for a byte on its way to a device.
 */
module Progress {
  import opened MicroOps
  import opened Memories
  import opened RegisterFiles
  import opened MappingTables
  import opened Renaming
  import opened Sequential
  import opened StoreBuffers
  import opened IssueQueueMems
  import opened OutOfOrder
  import opened OutOfOrderProof

  // ---- A set bit of the board has an owner ----

  predicate UnderWay(c: Core, j: int)
    requires |c.st| == |c.log|
  {
    c.ret <= j < |c.log| && c.log[j].inst.rdValid && c.st[j] != InRename && !c.st[j].Done?
  }

  /** A register is busy only if a dispatched uop will write it. */
  ghost predicate BusyOwned(c: Core) {
    |c.st| == |c.log| && forall p: Prf :: c.sb[p] ==> exists j :: UnderWay(c, j) && c.log[j].rdPrf == p
  }

  /** A change that keeps every owner of a bit that stays set. */
  lemma BusyKeeps(c: Core, d: Core, i: int)
    requires BusyOwned(c) && |d.st| == |d.log| && |c.log| <= |d.log|
    requires forall j :: UnderWay(c, j) && j != i ==> UnderWay(d, j) && d.log[j].rdPrf == c.log[j].rdPrf
    requires forall p: Prf :: d.sb[p] ==> c.sb[p]
    requires UnderWay(c, i) ==> !d.sb[c.log[i].rdPrf] || (UnderWay(d, i) && d.log[i].rdPrf == c.log[i].rdPrf)
    ensures BusyOwned(d)
  {
    forall p: Prf | d.sb[p]
      ensures exists j :: UnderWay(d, j) && d.log[j].rdPrf == p
    {
      var j :| UnderWay(c, j) && c.log[j].rdPrf == p;
      assert UnderWay(d, j) && d.log[j].rdPrf == p;
    }
  }

  lemma BusyDispatch(c: Core, i: nat)
    requires BusyOwned(c) && CanDispatch(c, i) && c.ret <= i
    ensures BusyOwned(DispatchStep(c, i))
  {
    var d := DispatchStep(c, i);
    forall p: Prf | d.sb[p]
      ensures exists j :: UnderWay(d, j) && d.log[j].rdPrf == p
    {
      if c.log[i].inst.rdValid && c.log[i].rdPrf == p {
        assert UnderWay(d, i);
      } else {
        var j :| UnderWay(c, j) && c.log[j].rdPrf == p;
        assert UnderWay(d, j);
      }
    }
  }

  lemma BusyComplete(c: Core, d: Core, i: nat)
    requires BusyOwned(c) && i < |c.log| && d.log == c.log && d.ret == c.ret && |d.st| == |c.st|
    requires forall j :: 0 <= j < |c.st| && j != i ==> d.st[j] == c.st[j]
    requires d.sb == if c.log[i].inst.rdValid then c.sb[c.log[i].rdPrf := false] else c.sb
    ensures BusyOwned(d)
  {
    BusyKeeps(c, d, i);
  }

  lemma BusyRename(c: Core, u: MicroOp)
    requires BusyOwned(c)
    ensures BusyOwned(RenameStep(c, u))
  {
    hide RenameUop, Renamed;
    var d := RenameStep(c, u);
    forall j | UnderWay(c, j)
      ensures UnderWay(d, j) && d.log[j].rdPrf == c.log[j].rdPrf
    {
      assert d.log[j] == c.log[j] && d.st[j] == c.st[j];
    }
    BusyKeeps(c, d, -1);
  }

  lemma BusyRetire(c: Core)
    requires BusyOwned(c) && CanRetire(c)
    ensures BusyOwned(RetireEvent(c))
  {
    hide RetireUop, Recover, Commit, Mispredicted;
    var d := RetireStep(c);
    assert forall j :: UnderWay(c, j) ==> UnderWay(d, j);
    BusyKeeps(c, d, -1);
  }

  /** A uop that is not complete has not retired. */
  lemma NotYetRetired(m: Machine, c: Core, ws: seq<WriterTable>, archs: seq<Arch>, i: nat)
    requires FullInv(m, c, ws, archs) && i < |c.st| && !c.st[i].Done?
    ensures c.ret <= i
  {
    NotRetired(m, c, ws, archs, i);
  }

  lemma BusyStep(m: Machine, c: Core, ws: seq<WriterTable>, archs: seq<Arch>, e: Event)
    requires FullInv(m, c, ws, archs) && BusyOwned(c) && Enabled(m, c, e)
    ensures BusyOwned(Step(m, c, e))
  {
    hide FullInv, BusyOwned, CanRename, CanDrop, SourcesReady, DispatchStep, RenameStep, RetireEvent;
    match e {
      case Rename(u) => BusyRename(c, u);
      case DropGroup(us) => BusyDrop(c, us);
      case Dispatch(i) =>
        NotYetRetired(m, c, ws, archs, i);
        BusyDispatch(c, i);
      case IssueInt(i) => BusyInt(c, i);
      case IssueMem(k) => BusyMem(c, k);
      case Read(i) => BusyRead(c, i);
      case Execute(i) => BusyComplete(c, ExecuteStep(m, c, i), i);
      case Access => BusyAccess(c);
      case Retire => BusyRetire(c);
    }
  }

  lemma BusyDrop(c: Core, us: seq<MicroOp>)
    requires BusyOwned(c)
    ensures BusyOwned(DropStep(c, us))
  {
    assert forall j :: UnderWay(c, j) ==> UnderWay(DropStep(c, us), j);
    BusyKeeps(c, DropStep(c, us), -1);
  }

  lemma BusyInt(c: Core, i: nat)
    requires BusyOwned(c) && CanIssueInt(c, i)
    ensures BusyOwned(IssueIntStep(c, i))
  {
    assert forall j :: UnderWay(c, j) ==> UnderWay(IssueIntStep(c, i), j);
    BusyKeeps(c, IssueIntStep(c, i), -1);
  }

  lemma BusyMem(c: Core, k: nat)
    requires BusyOwned(c) && CanIssueMem(c, k)
    ensures BusyOwned(IssueMemStep(c, k))
  {
    var d := IssueMemStep(c, k);
    forall j | UnderWay(c, j)
      ensures UnderWay(d, j)
    {
      assert d.st[j] == if j == c.mq[k] then Issued else c.st[j];
    }
    BusyKeeps(c, d, -1);
  }

  lemma BusyRead(c: Core, i: nat)
    requires BusyOwned(c) && CanRead(c, i)
    ensures BusyOwned(ReadOperands(c, i))
  {
    hide Operand, ReadReg;
    assert forall j :: UnderWay(c, j) ==> UnderWay(ReadOperands(c, i), j);
    BusyKeeps(c, ReadOperands(c, i), -1);
  }

  lemma BusyAccess(c: Core)
    requires BusyOwned(c) && CanAccess(c)
    ensures BusyOwned(AccessStep(c))
  {
    hide LoadValue, ReadBytes, ApplyAll, NoDeviceByte;
    BusyComplete(c, AccessStep(c), c.pipe[0]);
  }

  lemma {:induction false} RunBusy(m: Machine, pc: Word, mem: Memory, es: seq<Event>)
    requires ProgramOk(m)
    ensures BusyOwned(OutOfOrderProof.Run(m, ResetCore(pc, mem), es))
  {
    hide Inv, FullInv, Step, Enabled, ProgramOk;
    if es != [] {
      var c := OutOfOrderProof.Run(m, ResetCore(pc, mem), es[..|es| - 1]);
      RunBusy(m, pc, mem, es[..|es| - 1]);
      RunKeeps(m, pc, mem, es[..|es| - 1]);
      Unfold(m, ResetArch(pc, mem), c);
      if Enabled(m, c, es[|es| - 1]) {
        BusyStep(m, c, Writers(c.log), Archs(m, ResetArch(pc, mem), c.log), es[|es| - 1]);
      }
    }
  }

  // ---- The oldest uop moves ----

  /** The oldest uop is a store to the halt address: its commit ends the run. */
  predicate Halts(c: Core) {
    && c.ret < |c.st| == |c.log| && c.st[c.ret].Done?
    && IsStore(c.log[c.ret]) && c.buf != [] && c.buf[0].addr == HALT_ADDR
  }

  /** The uop that the memory pipe serves is a load of a byte on its way to a device. */
  ghost predicate AsksDevice(c: Core) {
    Serves(c) && !IsStore(c.log[c.pipe[0]]) && !NoDeviceByte(c.buf, AccessRequest(c))
  }

  /** A source of the oldest uop is not busy: its producer has retired. */
  lemma OldestReady(m: Machine, c: Core, ws: seq<WriterTable>, archs: seq<Arch>, r: Arf, p: Prf)
    requires FullInv(m, c, ws, archs) && BusyOwned(c) && c.ret < |c.log| && p == Holder(c.log, ws[c.ret], r)
    ensures p == 0 || !c.sb[p]
  {
    hide ValuesOk, BoardOk, QueuesOk, StoresInOrder, MemoryOk, PathOk, ArchsOk, TallyOk, MapOk, LogOk;
    var w := ws[c.ret][r];
    if w >= 0 {
      assert Writes(c.log[w], r) && Live(c.log, ws, c.ret, w);
      forall j | UnderWay(c, j)
        ensures c.log[j].rdPrf != p
      {
        assert Live(c.log, ws, c.ret, j);
      }
    }
  }

  lemma OldestSources(m: Machine, c: Core, ws: seq<WriterTable>, archs: seq<Arch>)
    requires FullInv(m, c, ws, archs) && BusyOwned(c) && c.ret < |c.log|
    ensures SourcesReady(c, c.log[c.ret])
  {
    hide InvAt, TallyOk, ArchsOk, WritersOk, BusyOwned, MapOk, Distinct, RatInvAt, Holder, Strobed;
    var u := c.log[c.ret];
    RatFacts(m, c, ws, archs);
    assert UopOk(c.log, ws[c.ret], u);
    OldestReady(m, c, ws, archs, u.inst.rs1, u.rs1Prf);
    OldestReady(m, c, ws, archs, u.inst.rs2, u.rs2Prf);
  }

  lemma OldestDispatches(m: Machine, c: Core, ws: seq<WriterTable>, archs: seq<Arch>)
    requires FullInv(m, c, ws, archs) && c.ret < |c.log| && c.st[c.ret] == InRename
    ensures CanDispatch(c, c.ret)
  {
    forall j | 0 <= j < c.ret
      ensures c.st[j] != InRename
    {
      assert StatusOk(c, ws, archs[j], j);
    }
  }

  /** A waiting memory uop that is the oldest is the front of its queue. */
  lemma OldestIsFront(m: Machine, c: Core, ws: seq<WriterTable>, archs: seq<Arch>)
    requires FullInv(m, c, ws, archs) && c.ret < |c.log| && c.st[c.ret] == Waiting && IsMem(c.log[c.ret].inst)
    ensures InLog(c, c.mq) && c.mq != [] && c.mq[0] == c.ret
  {
    hide ValuesOk, BoardOk, StoresInOrder, MemoryOk, PathOk, ArchsOk, TallyOk, RatInvAt, WritersOk, StoreOrdered, Once;
    assert c.ret in c.mq;
    forall a | 0 <= a < |c.mq|
      ensures c.ret <= c.mq[a] < |c.log|
    {
      assert (c.pipe + c.mq)[|c.pipe| + a] == c.mq[a];
      QueuedPending(c, c.mq[a]);
    }
  }

  lemma QueuedPending(c: Core, x: nat)
    requires |c.st| == |c.log| && QueuesOk(c) && x in c.pipe + c.mq
    ensures c.ret <= x < |c.log|
  {
    var o := c.pipe + c.mq;
    assert exists k :: 0 <= k < |o| && o[k] == x;
    assert Pending(c, x);
  }

  /** A memory uop with operands is in the pipe, whose front has been issued. */
  lemma PipeFront(m: Machine, c: Core, ws: seq<WriterTable>, archs: seq<Arch>)
    requires FullInv(m, c, ws, archs) && c.ret < |c.log| && c.st[c.ret].HasOperands? && IsMem(c.log[c.ret].inst)
    ensures InLog(c, c.pipe) && c.pipe != [] && c.ret <= c.pipe[0]
    ensures c.st[c.pipe[0]] == Issued || c.st[c.pipe[0]].HasOperands?
  {
    hide ValuesOk, BoardOk, StoresInOrder, MemoryOk, PathOk, ArchsOk, TallyOk, RatInvAt, WritersOk;
    var o := c.pipe + c.mq;
    assert Pending(c, c.ret) && c.ret in o && c.ret !in c.mq;
    assert c.ret in c.pipe;
    var f := c.pipe[0];
    assert o[0] == f && f in o && f < |c.log| && Pending(c, f);
    assert forall a :: 0 <= a < |c.pipe| ==> o[a] == c.pipe[a];
    forall k | 0 <= k < |c.mq|
      ensures c.mq[k] != f
    {
      assert o[|c.pipe| + k] == c.mq[k];
    }
  }

  predicate IsFetch(e: Event) {
    e.Rename? || e.DropGroup?
  }

  /** The event that moves the oldest uop, or the front of the memory pipe ahead of it. */
  lemma OldestMoves(m: Machine, c: Core, ws: seq<WriterTable>, archs: seq<Arch>) returns (e: Event)
    requires FullInv(m, c, ws, archs) && BusyOwned(c) && c.ret < |c.log| && !Halts(c) && !AsksDevice(c)
    ensures Enabled(m, c, e) && !IsFetch(e)
  {
    hide FullInv, BusyOwned, SourcesReady, NoDeviceByte;
    var i := c.ret;
    StatusShape(m, c, ws, archs);
    match c.st[i] {
      case InRename =>
        OldestDispatches(m, c, ws, archs);
        e := Dispatch(i);
      case Waiting =>
        OldestSources(m, c, ws, archs);
        if IsMem(c.log[i].inst) {
          OldestIsFront(m, c, ws, archs);
          e := IssueMem(0);
        } else {
          e := IssueInt(i);
        }
      case Issued => e := Read(i);
      case HasOperands(_, _) =>
        if IsMem(c.log[i].inst) {
          PipeFront(m, c, ws, archs);
          e := if c.st[c.pipe[0]] == Issued then Read(c.pipe[0]) else Access;
        } else {
          e := Execute(i);
        }
      case Done(_, _) => e := Retire;
    }
  }

  lemma StatusShape(m: Machine, c: Core, ws: seq<WriterTable>, archs: seq<Arch>)
    requires FullInv(m, c, ws, archs)
    ensures |c.st| == |c.log|
  {
  }

  // ---- Each move brings the end nearer ----

  function Rank(s: Status): nat {
    match s
    case InRename => 5
    case Waiting => 4
    case Issued => 3
    case HasOperands(_, _) => 2
    case Done(_, _) => 1
  }

  /** What is left to do for the uops from position lo on. */
  function WorkFrom(st: seq<Status>, lo: nat): nat
    decreases |st| - lo
  {
    if lo >= |st| then 0 else Rank(st[lo]) + WorkFrom(st, lo + 1)
  }

  function Work(c: Core): nat {
    WorkFrom(c.st, c.ret)
  }

  lemma {:induction false} WorkLess(st: seq<Status>, lo: nat, i: nat, s: Status)
    requires lo <= i < |st| && Rank(s) < Rank(st[i])
    ensures WorkFrom(st[i := s], lo) < WorkFrom(st, lo)
    decreases i - lo
  {
    hide Rank;
    if lo == i {
      WorkSame(st, st[i := s], i + 1);
    } else {
      WorkLess(st, lo + 1, i, s);
    }
  }

  lemma {:induction false} WorkSame(st: seq<Status>, st': seq<Status>, lo: nat)
    requires |st| == |st'| && forall j :: lo <= j < |st| ==> st[j] == st'[j]
    ensures WorkFrom(st, lo) == WorkFrom(st', lo)
    decreases |st| - lo
  {
    if lo < |st| {
      WorkSame(st, st', lo + 1);
    }
  }

  /** Which uop an event moves on; retirement moves none. */
  ghost predicate MovesOn(c: Core, d: Core, i: nat) {
    && i < |c.st| == |d.st| && !c.st[i].Done? && d.ret == c.ret
    && d.st == c.st[i := d.st[i]] && Rank(d.st[i]) < Rank(c.st[i])
  }

  lemma InnerMoves(m: Machine, c: Core, e: Event) returns (i: nat)
    requires Enabled(m, c, e) && !IsFetch(e) && !e.Retire?
    requires e.IssueMem? && InLog(c, c.mq) ==> e.k < |c.mq| && c.st[c.mq[e.k]] == Waiting
    ensures i < |c.st| == |Step(m, c, e).st| && MovesOn(c, Step(m, c, e), i)
  {
    hide SourcesReady, NoDeviceByte, Operand, LoadValue, ApplyAll, ReadBytes, BranchTaken, BranchTarget;
    match e
    case Dispatch(j) => i := j;
    case IssueInt(j) => i := j;
    case IssueMem(k) => i := c.mq[k];
    case Read(j) => i := j;
    case Execute(j) => i := j;
    case Access => i := c.pipe[0];
  }

  lemma RetireWork(c: Core)
    requires CanRetire(c)
    ensures Work(RetireEvent(c)) < Work(c)
  {
    hide RetireUop, Recover, Commit, Mispredicted;
  }

  lemma WaitsInQueue(m: Machine, c: Core, ws: seq<WriterTable>, archs: seq<Arch>, k: nat)
    requires FullInv(m, c, ws, archs) && CanIssueMem(c, k)
    ensures c.st[c.mq[k]] == Waiting
  {
    QueuedIsWaiting(c, k);
  }

  lemma WorkFalls(m: Machine, c: Core, ws: seq<WriterTable>, archs: seq<Arch>, e: Event)
    requires FullInv(m, c, ws, archs) && Enabled(m, c, e) && !IsFetch(e)
    ensures Work(Step(m, c, e)) < Work(c)
  {
    hide FullInv, RetireEvent, CanRetire, Rank, WorkFrom;
    StatusShape(m, c, ws, archs);
    if e.Retire? {
      RetireWork(c);
    } else {
      if e.IssueMem? {
        WaitsInQueue(m, c, ws, archs, e.k);
      }
      hide Enabled, Step;
      var i := InnerMoves(m, c, e);
      NotYetRetired(m, c, ws, archs, i);
      WorkLess(c.st, c.ret, i, Step(m, c, e).st[i]);
    }
  }

  lemma RunMore(m: Machine, c0: Core, es: seq<Event>, e: Event)
    requires Enabled(m, OutOfOrderProof.Run(m, c0, es), e)
    ensures OutOfOrderProof.Run(m, c0, es + [e]) == Step(m, OutOfOrderProof.Run(m, c0, es), e)
  {
    assert (es + [e])[..|es|] == es;
  }

  /**
   From every reachable state, without any further fetch, the stages can go on until everything renamed has retired or
   been squashed, or the program halts the simulation, or a load asks for a byte on its way to a device.
   */
  lemma {:induction false} Drains(m: Machine, pc: Word, mem: Memory, es: seq<Event>) returns (more: seq<Event>)
    requires ProgramOk(m)
    ensures forall e <- more :: !IsFetch(e)
    ensures var c := OutOfOrderProof.Run(m, ResetCore(pc, mem), es + more);
            c.ret == |c.log| || Halts(c) || AsksDevice(c)
    decreases Work(OutOfOrderProof.Run(m, ResetCore(pc, mem), es))
  {
    hide Inv, FullInv, BusyOwned, OutOfOrderProof.Run, Work, Step, Enabled, ProgramOk, Halts, AsksDevice, ResetCore, IsFetch;
    var c := OutOfOrderProof.Run(m, ResetCore(pc, mem), es);
    RunKeeps(m, pc, mem, es);
    RunBusy(m, pc, mem, es);
    Unfold(m, ResetArch(pc, mem), c);
    var ws, archs := Writers(c.log), Archs(m, ResetArch(pc, mem), c.log);
    hide Writers, Archs;
    if c.ret == |c.log| || Halts(c) || AsksDevice(c) {
      more := [];
      assert es + more == es;
    } else {
      RetBound(m, c, ws, archs);
      var e := OldestMoves(m, c, ws, archs);
      WorkFalls(m, c, ws, archs, e);
      RunMore(m, ResetCore(pc, mem), es, e);
      var rest := Drains(m, pc, mem, es + [e]);
      more := [e] + rest;
      assert es + more == (es + [e]) + rest;
    }
  }

  lemma RetBound(m: Machine, c: Core, ws: seq<WriterTable>, archs: seq<Arch>)
    requires FullInv(m, c, ws, archs)
    ensures c.ret <= |c.log|
  {
  }
}
