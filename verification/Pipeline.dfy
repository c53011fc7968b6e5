/**
 The elastic part of the core (src/core.sv): the registers between decode, rename, dispatch and issue. Each boundary
 has a second group register that catches what is in flight when the stages behind the queues report that they are full.
 */
module Pipelines {
  import opened MicroOps
  import opened Selectors
  import opened Dispatches

  type Group = us: seq<MicroOp> | |us| == 4 witness [NO_UOP, NO_UOP, NO_UOP, NO_UOP]

  function NoGroup(): Group {
    [NO_UOP, NO_UOP, NO_UOP, NO_UOP]
  }

  /** The registers, from decode to the inputs of the issue queues. */
  datatype Stages = Stages(
    id: Group,
    rrIn: Group, idTmp: Group, rrStall: bool,
    robIn: Group, rrTmp: Group, dpStall: bool,
    isInt: Group, isMem: Group, intTmp: Group, memTmp: Group, isStall: bool)

  function Reset(): Stages {
    Stages(NoGroup(), NoGroup(), NoGroup(), false, NoGroup(), NoGroup(), false,
           NoGroup(), NoGroup(), NoGroup(), NoGroup(), false)
  }

  /** What the surroundings contribute in one clock; `renamed` and `placed` leave rename and the reorder buffer. */
  datatype Wires = Wires(
    iqFull: bool, rrAllocatable: bool, cmAllocatable: bool, fetched: Group, renamed: Group, placed: Group)
  {
    predicate CmFull() {
      iqFull || !cmAllocatable
    }

    predicate RrFull() {
      CmFull() || !rrAllocatable
    }
  }

  /** One boundary: its register, its second register and the stall bit, given what arrives and whether it is held. */
  function Boundary(full: bool, stall: bool, arriving: Group, tmp: Group): (Group, Group, bool) {
    if full && !stall then (NoGroup(), arriving, true)
    else if stall && !full then (tmp, NoGroup(), false)
    else if full then (NoGroup(), tmp, stall)
    else (arriving, tmp, stall)
  }

  function Next(s: Stages, w: Wires): Stages {
    var (rrIn, idTmp, rrStall) := Boundary(w.RrFull(), s.rrStall, s.id, s.idTmp);
    var (robIn, rrTmp, dpStall) := Boundary(w.CmFull(), s.dpStall, w.renamed, s.rrTmp);
    var (isInt, intTmp, isStall) := Boundary(w.iqFull, s.isStall, Port(w.placed, IqInt), s.intTmp);
    var (isMem, memTmp, _) := Boundary(w.iqFull, s.isStall, Port(w.placed, IqMem), s.memTmp);
    Stages(if w.RrFull() then NoGroup() else w.fetched,
           rrIn, idTmp, rrStall, robIn, rrTmp, dpStall, isInt, isMem, intTmp, memTmp, isStall)
  }

  // ---- Streams ----

  function Insts(us: seq<MicroOp>): (r: seq<Inst>)
    ensures |r| == |us|
  {
    seq(|us|, i requires 0 <= i < |us| => us[i].inst)
  }

  /** The instructions of a group that go to one queue, in program order. */
  function Flow(us: seq<MicroOp>, code: IqCode): seq<Inst> {
    Insts(For(us, code))
  }

  function IssueReg(s: Stages, code: IqCode): Group {
    if code == IqInt then s.isInt else s.isMem
  }

  function IssueTmp(s: Stages, code: IqCode): Group {
    if code == IqInt then s.intTmp else s.memTmp
  }

  /** The instructions a queue takes over in this clock. */
  function Delivered(s: Stages, code: IqCode): seq<Inst> {
    Insts(ValidOnly(IssueReg(s, code)))
  }

  /** The instructions for one queue between decode and the queue, in program order. */
  function Stream(s: Stages, code: IqCode): seq<Inst> {
    Delivered(s, code) + Insts(ValidOnly(IssueTmp(s, code))) + Flow(s.robIn, code) + Flow(s.rrTmp, code)
    + Flow(s.rrIn, code) + Flow(s.idTmp, code) + Flow(s.id, code)
  }

  // ---- Invariant ----

  predicate Idle(us: seq<MicroOp>) {
    forall i :: 0 <= i < |us| ==> !us[i].valid
  }

  /** The second register of a boundary is in use exactly while its stall bit is set, and then nothing arrives. */
  predicate Elastic(s: Stages) {
    && (if s.rrStall then Idle(s.rrIn) && Idle(s.id) else Idle(s.idTmp))
    && (if s.dpStall then Idle(s.robIn) && Idle(s.rrIn) else Idle(s.rrTmp))
    && (if s.isStall then Idle(s.isInt) && Idle(s.isMem) && Idle(s.robIn) else Idle(s.intTmp) && Idle(s.memTmp))
    && Packed(s.isInt) && Packed(s.isMem) && Packed(s.intTmp) && Packed(s.memTmp)
  }

  /** Rename and the reorder buffer pass empty groups through. */
  predicate QuietOk(s: Stages, w: Wires) {
    && (Idle(s.rrIn) ==> Idle(w.renamed))
    && (Idle(s.robIn) ==> Idle(w.placed))
  }

  lemma {:induction false} IdleGroup(us: seq<MicroOp>)
    requires Idle(us)
    ensures ValidOnly(us) == [] && Packed(us)
    ensures forall code :: Flow(us, code) == []
    ensures forall code :: Idle(Port(us, code))
  {
    PrefixIsValid(us, 0);
    forall code
      ensures Flow(us, code) == []
      ensures Idle(Port(us, code))
    {
      IdleFor(us, code);
      PortIsStableSplit(us, code);
      IdlePort(us, code);
    }
  }

  lemma {:induction false} IdleFor(us: seq<MicroOp>, code: IqCode)
    requires Idle(us)
    ensures For(us, code) == []
  {
    if us != [] {
      ForSnoc(us, code);
      IdleFor(us[..|us| - 1], code);
    }
  }

  lemma IdlePort(us: seq<MicroOp>, code: IqCode)
    requires Idle(us)
    ensures Idle(Port(us, code))
  {
  }

  lemma NoGroupIdle()
    ensures Idle(NoGroup()) && Packed(NoGroup())
  {
  }

  /** Every clock keeps the invariant, for every pattern of full signals. */
  lemma StepKeepsElastic(s: Stages, w: Wires)
    requires Elastic(s) && QuietOk(s, w)
    ensures Elastic(Next(s, w))
  {
    hide Port, Packed;
    NoGroupIdle();
    PortIsStableSplit(w.placed, IqInt);
    PortIsStableSplit(w.placed, IqMem);
  }

  // ---- Who is held back ----

  /**
   The group in decode moves on to rename exactly if no queue is full, the reorder buffer has room and rename finds
   registers; otherwise rename gets nothing, nothing is fetched, and the group waits behind what already waits.
   */
  lemma {:induction false} DecodeWaits(s: Stages, w: Wires)
    requires Elastic(s)
    ensures var t := Next(s, w);
            if w.iqFull || !w.cmAllocatable || !w.rrAllocatable then
              && Idle(t.rrIn) && Idle(t.id) && t.rrStall
              && t.idTmp == if s.rrStall then s.idTmp else s.id
            else
              t.rrIn == (if s.rrStall then s.idTmp else s.id) && t.id == w.fetched && !t.rrStall
  {
    hide Port, Packed;
    NoGroupIdle();
  }

  /** A renamed group waits for the queues and the reorder buffer, but not for registers. */
  lemma {:induction false} RenamedWaits(s: Stages, w: Wires)
    requires Elastic(s)
    ensures var t := Next(s, w);
            if w.iqFull || !w.cmAllocatable then
              Idle(t.robIn) && t.dpStall && t.rrTmp == if s.dpStall then s.rrTmp else w.renamed
            else
              t.robIn == (if s.dpStall then s.rrTmp else w.renamed) && !t.dpStall
  {
    hide Port, Packed;
    NoGroupIdle();
  }

  /** Dispatched groups wait for the queues only. */
  lemma {:induction false} DispatchedWaits(s: Stages, w: Wires)
    requires Elastic(s)
    ensures var t := Next(s, w);
            if w.iqFull then
              && Idle(t.isInt) && Idle(t.isMem) && t.isStall
              && t.intTmp == (if s.isStall then s.intTmp else Port(w.placed, IqInt))
              && t.memTmp == (if s.isStall then s.memTmp else Port(w.placed, IqMem))
            else
              && t.isInt == (if s.isStall then s.intTmp else Port(w.placed, IqInt))
              && t.isMem == (if s.isStall then s.memTmp else Port(w.placed, IqMem)) && !t.isStall
  {
    hide Port, Packed;
    NoGroupIdle();
  }

  // ---- Nothing is lost, repeated or reordered ----

  /** What a boundary holds next is what it held and then what arrives. */
  lemma BoundaryKeeps(full: bool, stall: bool, arriving: Group, tmp: Group, code: IqCode)
    requires Idle(if stall then arriving else tmp)
    ensures var (reg', tmp', _) := Boundary(full, stall, arriving, tmp);
            Flow(reg', code) + Flow(tmp', code) == Flow(tmp, code) + Flow(arriving, code)
  {
    hide Flow;
    NoGroupIdle();
    IdleGroup(NoGroup());
    IdleGroup(if stall then arriving else tmp);
  }

  lemma IssueBoundaryKeeps(full: bool, stall: bool, arriving: Group, tmp: Group)
    requires Idle(if stall then arriving else tmp)
    ensures var (reg', tmp', _) := Boundary(full, stall, arriving, tmp);
            Insts(ValidOnly(reg')) + Insts(ValidOnly(tmp')) == Insts(ValidOnly(tmp)) + Insts(ValidOnly(arriving))
  {
    hide ValidOnly;
    NoGroupIdle();
    IdleGroup(NoGroup());
    IdleGroup(if stall then arriving else tmp);
  }

  /** The stream for one queue if rename and the reorder buffer had not changed what they pass on. */
  function Passed(s: Stages, w: Wires, code: IqCode): seq<Inst> {
    Delivered(s, code) + Insts(ValidOnly(IssueTmp(s, code))) + Flow(w.placed, code) + Flow(s.rrTmp, code)
    + Flow(w.renamed, code) + Flow(s.idTmp, code) + Flow(s.id, code)
  }

  /** The fetched instructions that enter decode in this clock. */
  function Entering(w: Wires, code: IqCode): seq<Inst> {
    if w.RrFull() then [] else Flow(w.fetched, code)
  }

  lemma BoundaryFlows(s: Stages, w: Wires, code: IqCode)
    requires Elastic(s) && QuietOk(s, w) && code in {IqInt, IqMem}
    ensures var t := Next(s, w);
            && Flow(t.rrIn, code) + Flow(t.idTmp, code) == Flow(s.idTmp, code) + Flow(s.id, code)
            && Flow(t.robIn, code) + Flow(t.rrTmp, code) == Flow(s.rrTmp, code) + Flow(w.renamed, code)
            && Insts(ValidOnly(IssueReg(t, code))) + Insts(ValidOnly(IssueTmp(t, code))) ==
               Insts(ValidOnly(IssueTmp(s, code))) + Flow(w.placed, code)
  {
    IdleArrivals(s, w, code);
    hide Port, For, Packed, ValidOnly, Flow, Insts, Elastic, QuietOk, Boundary, Idle;
    BoundaryKeeps(w.RrFull(), s.rrStall, s.id, s.idTmp, code);
    BoundaryKeeps(w.CmFull(), s.dpStall, w.renamed, s.rrTmp, code);
    IssueBoundaryKeeps(w.iqFull, s.isStall, Port(w.placed, code), IssueTmp(s, code));
  }

  lemma IdleArrivals(s: Stages, w: Wires, code: IqCode)
    requires Elastic(s) && QuietOk(s, w) && code in {IqInt, IqMem}
    ensures Idle(if s.rrStall then s.id else s.idTmp)
    ensures Idle(if s.dpStall then w.renamed else s.rrTmp)
    ensures Idle(if s.isStall then Port(w.placed, code) else IssueTmp(s, code))
    ensures Insts(ValidOnly(Port(w.placed, code))) == Flow(w.placed, code)
  {
    PortIsStableSplit(w.placed, code);
    if s.isStall {
      IdlePort(w.placed, code);
    }
  }

  lemma EnteringFlow(s: Stages, w: Wires, code: IqCode)
    ensures Flow(Next(s, w).id, code) == Entering(w, code)
  {
    NoGroupIdle();
    IdleGroup(NoGroup());
  }

  lemma Glue(d: seq<Inst>, a: seq<Inst>, b: seq<Inst>, c: seq<Inst>, e: seq<Inst>, f: seq<Inst>, g: seq<Inst>,
             a': seq<Inst>, b': seq<Inst>, c': seq<Inst>, e': seq<Inst>, f': seq<Inst>, g': seq<Inst>, h': seq<Inst>)
    requires a' + b' == a + b && c' + e' == c + e && f' + g' == f + g
    ensures d + (a' + b' + c' + e' + f' + g' + h') == (d + a + b + c + e + f + g) + h'
  {
    assert a' + b' + c' + e' + f' + g' == (a' + b') + (c' + e') + (f' + g');
    assert d + a + b + c + e + f + g == d + ((a + b) + (c + e) + (f + g));
  }

  /**
   The conservation law of one clock, for every pattern of full signals: what is delivered and what then lies between
   decode and the queue is what lay there, with the groups that rename and the reorder buffer passed on, and what enters.
   */
  lemma {:induction false} ClockConserves(s: Stages, w: Wires, code: IqCode)
    requires Elastic(s) && QuietOk(s, w) && code in {IqInt, IqMem}
    ensures Delivered(s, code) + Stream(Next(s, w), code) == Passed(s, w, code) + Entering(w, code)
  {
    hide Port, For, Packed, ValidOnly, Boundary, Flow, Insts, Elastic, QuietOk, Next, IssueReg, IssueTmp;
    var t := Next(s, w);
    BoundaryFlows(s, w, code);
    EnteringFlow(s, w, code);
    Glue(Delivered(s, code), Insts(ValidOnly(IssueTmp(s, code))), Flow(w.placed, code), Flow(s.rrTmp, code),
         Flow(w.renamed, code), Flow(s.idTmp, code), Flow(s.id, code),
         Insts(ValidOnly(IssueReg(t, code))), Insts(ValidOnly(IssueTmp(t, code))), Flow(t.robIn, code),
         Flow(t.rrTmp, code), Flow(t.rrIn, code), Flow(t.idTmp, code), Flow(t.id, code));
  }

  /** What rename and the reorder buffer do: pass a group on whole, or (out of registers, out of entries) lose uops. */
  predicate SourcesOk(s: Stages, w: Wires) {
    && (if w.rrAllocatable then forall code :: Flow(w.renamed, code) == Flow(s.rrIn, code) else Idle(w.renamed))
    && (forall code :: Flow(w.placed, code) <= Flow(s.robIn, code))
  }

  predicate Lossless(s: Stages, w: Wires, code: IqCode) {
    && (w.rrAllocatable || Flow(s.rrIn, code) == [])
    && Flow(w.placed, code) == Flow(s.robIn, code)
  }

  /** A clock loses nothing exactly if the group in rename finds registers and the group in dispatch finds entries. */
  lemma {:induction false} LosslessExactly(s: Stages, w: Wires, code: IqCode)
    requires Elastic(s) && QuietOk(s, w) && SourcesOk(s, w) && code in {IqInt, IqMem}
    ensures Delivered(s, code) + Stream(Next(s, w), code) == Stream(s, code) + Entering(w, code)
            <==> Lossless(s, w, code)
  {
    ClockConserves(s, w, code);
    PassedExactly(s, w, code);
    hide Passed, Lossless, Stream, Delivered, Next, Entering, Elastic, QuietOk, SourcesOk;
    CancelEnd(Passed(s, w, code), Stream(s, code), Entering(w, code));
  }

  lemma PassedExactly(s: Stages, w: Wires, code: IqCode)
    requires SourcesOk(s, w)
    ensures Passed(s, w, code) == Stream(s, code) <==> Lossless(s, w, code)
  {
    if !w.rrAllocatable {
      IdleGroup(w.renamed);
    }
    hide Port, For, Packed, ValidOnly, Flow, Insts, Delivered, IssueTmp;
    SameSum(Delivered(s, code) + Insts(ValidOnly(IssueTmp(s, code))), Flow(w.placed, code), Flow(s.robIn, code),
            Flow(s.rrTmp, code), Flow(w.renamed, code), Flow(s.rrIn, code), Flow(s.idTmp, code) + Flow(s.id, code));
    hide Idle;
    Nested(Delivered(s, code), Insts(ValidOnly(IssueTmp(s, code))), Flow(w.placed, code), Flow(s.rrTmp, code),
           Flow(w.renamed, code), Flow(s.idTmp, code), Flow(s.id, code));
    Nested(Delivered(s, code), Insts(ValidOnly(IssueTmp(s, code))), Flow(s.robIn, code), Flow(s.rrTmp, code),
           Flow(s.rrIn, code), Flow(s.idTmp, code), Flow(s.id, code));
  }

  lemma CancelEnd(a: seq<Inst>, b: seq<Inst>, e: seq<Inst>)
    ensures a + e == b + e <==> a == b
  {
    if a + e == b + e {
      assert a == (a + e)[..|a|];
    }
  }

  lemma Nested(a: seq<Inst>, b: seq<Inst>, c: seq<Inst>, d: seq<Inst>, e: seq<Inst>, f: seq<Inst>, g: seq<Inst>)
    ensures a + b + c + d + e + f + g == ((a + b) + c + d + e) + (f + g)
  {
  }

  /** Of five pieces two may be shorter; the whole is the same only if none is. */
  lemma SameSum(a: seq<Inst>, p: seq<Inst>, p': seq<Inst>, b: seq<Inst>, r: seq<Inst>, r': seq<Inst>, c: seq<Inst>)
    requires p <= p' && (r == r' || r == [])
    ensures a + p + b + r + c == a + p' + b + r' + c <==> p == p' && r == r'
  {
    assert |a + p + b + r + c| == |a| + |p| + |b| + |r| + |c|;
    assert |a + p' + b + r' + c| == |a| + |p'| + |b| + |r'| + |c|;
    if |p| == |p'| {
      assert p' == p;
    }
  }

  lemma SoleUop(u: MicroOp)
    requires u.valid && u.inst.iqCode == IqInt
    ensures For([u, NO_UOP, NO_UOP, NO_UOP], IqInt) == [u]
  {
    hide For;
    var a := [u];
    var b, c := [u, NO_UOP], [u, NO_UOP, NO_UOP];
    var d := [u, NO_UOP, NO_UOP, NO_UOP];
    assert d[..3] == c && c[..2] == b && b[..1] == a && a[..0] == [];
    IdleFor([], IqInt);
    ForSnoc(a, IqInt);
    ForSnoc(b, IqInt);
    ForSnoc(c, IqInt);
    ForSnoc(d, IqInt);
  }

  // ---- Runs ----

  datatype Tick = Tick(clear: bool, wires: Wires)

  /** The registers, and what has entered and what was delivered since the last clear. */
  datatype Passage = Passage(stages: Stages, entered: seq<Inst>, delivered: seq<Inst>)

  function After(p: Passage, t: Tick, code: IqCode): Passage {
    if t.clear then Passage(Reset(), [], []) else
      Passage(Next(p.stages, t.wires), p.entered + Entering(t.wires, code), p.delivered + Delivered(p.stages, code))
  }

  function Run(ticks: seq<Tick>, code: IqCode): Passage {
    if ticks == [] then Passage(Reset(), [], []) else After(Run(ticks[..|ticks| - 1], code), ticks[|ticks| - 1], code)
  }

  /** Rename has registers and the reorder buffer has room in every clock; `iqFull` follows any pattern. */
  ghost predicate RunOk(ticks: seq<Tick>, code: IqCode) {
    ticks != [] ==>
      var p, t := Run(ticks[..|ticks| - 1], code), ticks[|ticks| - 1];
      && RunOk(ticks[..|ticks| - 1], code)
      && QuietOk(p.stages, t.wires) && SourcesOk(p.stages, t.wires) && Lossless(p.stages, t.wires, code)
  }

  /** In every run the queue receives, in program order, exactly what entered decode, less what is on its way. */
  lemma {:induction false} DeliveredInOrder(ticks: seq<Tick>, code: IqCode)
    requires RunOk(ticks, code) && code in {IqInt, IqMem}
    ensures var p := Run(ticks, code);
            Elastic(p.stages) && p.delivered + Stream(p.stages, code) == p.entered
  {
    hide Elastic, Next, Stream, Lossless, SourcesOk, QuietOk, Entering, Delivered;
    if ticks == [] || ticks[|ticks| - 1].clear {
      ResetElastic(code);
    } else {
      var p, w := Run(ticks[..|ticks| - 1], code), ticks[|ticks| - 1].wires;
      DeliveredInOrder(ticks[..|ticks| - 1], code);
      StepKeepsElastic(p.stages, w);
      LosslessExactly(p.stages, w, code);
      assert p.delivered + (Delivered(p.stages, code) + Stream(Next(p.stages, w), code)) ==
             p.delivered + Stream(p.stages, code) + Entering(w, code);
    }
  }

  lemma ResetElastic(code: IqCode)
    ensures Elastic(Reset()) && Stream(Reset(), code) == []
  {
    NoGroupIdle();
    IdleGroup(NoGroup());
  }
}
