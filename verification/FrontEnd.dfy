/**
 The clocked front end as src/core.sv wires it: pipeline registers, renaming and the reorder buffer in one machine. What
 the buffer retires is registered and reaches the alias table one clock later, together with the recovery; a recovery
 clears the pipeline registers in the clock in which the buffer reports it. Over all runs the retired stream is what
 renaming expects, so its partition and its precise recovery hold of the whole machine.
 */
module FrontEnds {
  import opened MicroOps
  import opened Selectors
  import opened MappingTables
  import opened Renaming
  import opened RenamingRuns
  import Dispatches
  import opened Pipelines
  import opened PipelineSources
  import Robs
  import RobRuns

  /** `retired` and `recover` are the registers between the reorder buffer and the alias table. */
  datatype Front = Front(stages: Stages, rat: RatRun, rob: RobRuns.History, retired: seq<MicroOp>, recover: bool)

  /** What the rest of the machine contributes in one clock. */
  datatype FrontInput = FrontInput(iqFull: bool, fetched: Group, completions: seq<MicroOp>)

  function FrontReset(): Front {
    Front(Pipelines.Reset(), RenamingRuns.Start(), RobRuns.Start(), [], false)
  }

  function RatPorts(f: Front): RatInput {
    RatInput(f.recover, Robs.RetireLanes(f.retired), f.stages.rrIn)
  }

  /** The tables with which the group in rename is renamed: after the retirements of this clock. */
  function Tables(f: Front): RatState {
    RetireUops(f.rat.s, Robs.RetireLanes(f.retired))
  }

  function RobOutcome(f: Front, i: FrontInput): Robs.Outcome {
    Robs.Clock(f.rob.queue, f.rob.head, i.completions, f.stages.robIn)
  }

  /** Entries that stay in the buffer. */
  function Left(f: Front, i: FrontInput): nat {
    var o := RobOutcome(f, i);
    if |o.accepted| <= |o.queue| then |o.queue| - |o.accepted| else 0
  }

  function WiresOf(f: Front, i: FrontInput): Wires {
    var o, left := RobOutcome(f, i), Left(f, i);
    Wires(i.iqFull, Demand(f.stages.rrIn) <= Tables(f).free.num,
          o.recover || left + CountValid(f.stages.robIn[..3]) < 64, i.fetched,
          RenameOutput(Tables(f), f.recover, f.stages.rrIn),
          if o.recover then NoGroup() else Robs.Placed(left, o.head, f.stages.robIn))
  }

  ghost function NextFront(f: Front, i: FrontInput): Front {
    var o := RobOutcome(f, i);
    Front(if o.recover then Pipelines.Reset() else Pipelines.Next(f.stages, WiresOf(f, i)),
          RenamingRuns.Clock(f.rat, RatPorts(f)),
          RobRuns.Next(f.rob, RobRuns.Input(i.completions, f.stages.robIn)),
          o.retired, o.recover)
  }

  // ---- Assumptions ----

  /** What decode delivers. */
  predicate Clean(us: seq<MicroOp>) {
    forall u <- us :: !u.complete && (u.inst.rdValid ==> u.inst.rd != 0)
  }

  /** The group entering the reorder buffer fits, unless the buffer recovers and takes nothing. */
  predicate RoomOk(f: Front, i: FrontInput) {
    !RobOutcome(f, i).recover ==> Left(f, i) + CountValid(f.stages.robIn) <= 64
  }

  ghost predicate FrontOk(f: Front, i: FrontInput) {
    Clean(i.fetched) && RobRuns.Returns(f.rob, i.completions) && RoomOk(f, i)
  }

  // ---- Invariant ----

  predicate CleanStages(s: Stages) {
    Clean(s.id) && Clean(s.rrIn) && Clean(s.idTmp) && RobRuns.Incomplete(s.robIn) && RobRuns.Incomplete(s.rrTmp)
  }

  /** Renamed uops on their way to the reorder buffer, oldest first. */
  function Between(s: Stages): seq<MicroOp> {
    ValidOnly(s.robIn) + ValidOnly(s.rrTmp)
  }

  /**
   The renamed uops that have not reached the alias table again are, in program order, those in the retire register,
   those in the reorder buffer and those before it. After a recovery only the retire register counts.
   */
  ghost predicate Aligned(f: Front) {
    var flight := f.retired + f.rob.queue + Between(f.stages);
    if f.recover then
      RetireInOrder(f.rat.log, f.rat.ret, f.retired) && f.rob.queue == [] && f.stages == Pipelines.Reset()
    else
      RetireInOrder(f.rat.log, f.rat.ret, flight) && f.rat.ret + |flight| == |f.rat.log|
  }

  ghost predicate FrontInv(f: Front) {
    && RatInv(f.rat.s, f.rat.log, f.rat.ret) && RobRuns.Good(f.rob) && Elastic(f.stages)
    && CleanStages(f.stages) && Aligned(f) && |f.retired| <= COMMIT_WIDTH
  }

  // ---- The signals between the stages ----

  /**
   What the two signals mean. `cmAllocatable` low: the buffer is full after this clock; high: a group enters whole.
   `rrAllocatable` high: every uop of the group in rename is renamed; low: the group needs a register and none of it is.
   */
  lemma {:induction false} Signals(f: Front, i: FrontInput)
    requires FrontInv(f)
    ensures var o, w := RobOutcome(f, i), WiresOf(f, i);
            && (o.recover ==> w.cmAllocatable)
            && (!o.recover && w.cmAllocatable ==> |o.accepted| == CountValid(f.stages.robIn))
            && (!w.cmAllocatable ==> |o.queue| == 64)
    ensures var w, log := WiresOf(f, i), NextFront(f, i).rat.log;
            !f.recover ==>
              if w.rrAllocatable then |log| == |f.rat.log| + CountValid(f.stages.rrIn)
              else log == f.rat.log && exists u <- f.stages.rrIn :: u.valid && u.inst.rdValid
  {
    hide RobOutcome, WiresOf, NextFront, FrontInv, CountValid;
    CmSignal(f, i);
    RrSignal(f, i);
  }

  lemma CmSignal(f: Front, i: FrontInput)
    requires FrontInv(f)
    ensures var o, w := RobOutcome(f, i), WiresOf(f, i);
            && (o.recover ==> w.cmAllocatable)
            && (!o.recover && w.cmAllocatable ==> |o.accepted| == CountValid(f.stages.robIn))
            && (!w.cmAllocatable ==> |o.queue| == 64)
  {
    QueueBound(f.rob);
    hide FrontInv, RobRuns.Good, Demand, RenameOutput, Robs.Placed, Robs.Clock, CountValid, Tables;
    RobSignal(f.rob.queue, f.rob.head, i.completions, f.stages.robIn);
  }

  lemma RrSignal(f: Front, i: FrontInput)
    ensures var w, log := WiresOf(f, i), NextFront(f, i).rat.log;
            !f.recover ==>
              if w.rrAllocatable then |log| == |f.rat.log| + CountValid(f.stages.rrIn)
              else log == f.rat.log && exists u <- f.stages.rrIn :: u.valid && u.inst.rdValid
  {
    hide RobOutcome, WiresOf, Demand, RenamedUops, CountValid, ValidOnly, RetireUops, RatCycle, RobRuns.Next, Pipelines.Next,
      NextFront;
    var t, g := Tables(f), f.stages.rrIn;
    RrWire(f, i);
    if !f.recover {
      LogAfter(f, i);
    }
    RenamedCount(t, g);
    if Demand(g) > 0 {
      SomeDemand(g);
    }
  }

  lemma LogAfter(f: Front, i: FrontInput)
    requires !f.recover
    ensures NextFront(f, i).rat.log ==
            if Demand(f.stages.rrIn) <= Tables(f).free.num then f.rat.log + ValidOnly(RenamedUops(Tables(f), f.stages.rrIn))
            else f.rat.log
  {
    hide RobOutcome, WiresOf, Demand, RenamedUops, ValidOnly, RetireUops, RatCycle, RobRuns.Next, Pipelines.Next;
  }

  lemma RrWire(f: Front, i: FrontInput)
    ensures WiresOf(f, i).rrAllocatable == (Demand(f.stages.rrIn) <= Tables(f).free.num)
  {
  }

  lemma RobSignal(q: seq<MicroOp>, head: RobIndex, cs: seq<MicroOp>, us: Group)
    requires |q| <= 64
    ensures var o := Robs.Clock(q, head, cs, us);
            !o.recover ==>
              var left := |o.queue| - |o.accepted|;
              && 0 <= left <= 64
              && (left + CountValid(us[..3]) < 64 ==> |o.accepted| == CountValid(us))
              && (left + CountValid(us[..3]) >= 64 ==> |o.queue| == 64)
  {
    var done := Robs.CompleteQueue(q, head, cs);
    var (n, recover) := Robs.Scan(done, 0);
    Robs.ClockIs(q, head, cs, us);
    Robs.AcceptCount(|done| - n, Robs.Slot(head, n), us);
    hide Robs.CompleteQueue, Robs.Scan, Robs.Accept, Robs.Slot, Robs.Clock;
    assert CountValid(us) == CountValid(us[..3]) + if us[3].valid then 1 else 0;
  }

  lemma {:induction false} RenamedCount(t: RatState, us: seq<MicroOp>)
    ensures CountValid(RenamedUops(t, us)) == CountValid(us)
  {
    if us != [] {
      RenamedCount(t, us[..|us| - 1]);
      var r := RenamedUops(t, us);
      assert r[..|r| - 1] == RenamedUops(t, us[..|us| - 1]);
      hide RenameUops;
    }
  }

  lemma {:induction false} SomeDemand(us: seq<MicroOp>)
    requires Demand(us) > 0
    ensures exists u <- us :: u.valid && u.inst.rdValid
  {
    if forall u <- us :: !(u.valid && u.inst.rdValid) {
      NoTrue(MappingTables.Wants(Reqs(us)));
    }
  }

  lemma {:induction false} NoTrue(b: seq<bool>)
    requires forall k :: 0 <= k < |b| ==> !b[k]
    ensures CountTrue(b) == 0
  {
    if b != [] {
      NoTrue(b[..|b| - 1]);
    }
  }

  // ---- One clock ----

  lemma {:induction false} AllValid(us: seq<MicroOp>, n: nat)
    requires forall u <- us :: u.valid
    ensures ValidOnly(us + seq(n, k => NO_UOP)) == us
  {
    var v := us + seq(n, k => NO_UOP);
    Dispatches.PrefixIsValid(v, |us|);
    assert v[..|us|] == us;
  }

  /** The retire register is what renaming expects. */
  lemma RegisterObeys(f: Front)
    requires Aligned(f) && CleanStages(f.stages) && |f.retired| <= COMMIT_WIDTH
    ensures Obeys(f.rat, RatPorts(f)) && ValidOnly(RatPorts(f).retire) == f.retired
    ensures CountValid(RatPorts(f).retire) == |f.retired|
  {
    var flight := f.retired + f.rob.queue + Between(f.stages);
    assert !f.recover ==> forall k :: 0 <= k < |f.retired| ==> f.retired[k] == flight[k];
    assert RetireInOrder(f.rat.log, f.rat.ret, f.retired);
    AllValid(f.retired, COMMIT_WIDTH - |f.retired|);
  }

  /** Uops that retirement cannot tell apart. */
  predicate SamePorts(a: seq<MicroOp>, b: seq<MicroOp>) {
    |a| == |b| && forall k :: 0 <= k < |a| ==> a[k].valid && b[k].valid && Port(a[k]) == Port(b[k])
  }

  lemma SwapPorts(log: seq<MicroOp>, ret: nat, a: seq<MicroOp>, b: seq<MicroOp>)
    requires RetireInOrder(log, ret, a) && SamePorts(a, b)
    ensures RetireInOrder(log, ret, b)
  {
    hide Port;
  }

  /** The second half of a matching sequence matches further on. */
  lemma DropPorts(log: seq<MicroOp>, ret: nat, a: seq<MicroOp>, b: seq<MicroOp>)
    requires RetireInOrder(log, ret, a + b)
    ensures RetireInOrder(log, ret, a) && RetireInOrder(log, ret + |a|, b)
  {
    hide Port;
    forall k | 0 <= k < |b|
      ensures Retires(b[k], log[ret + |a| + k])
    {
      assert (a + b)[|a| + k] == b[k];
    }
    forall k | 0 <= k < |a|
      ensures Retires(a[k], log[ret + k])
    {
      assert (a + b)[k] == a[k];
    }
  }

  /** A log that grows by valid uops matches the same uops at its end. */
  lemma GrowPorts(log: seq<MicroOp>, ret: nat, a: seq<MicroOp>, new_: seq<MicroOp>)
    requires RetireInOrder(log, ret, a) && ret + |a| == |log| && forall u <- new_ :: u.valid
    ensures RetireInOrder(log + new_, ret, a + new_)
  {
    hide Port;
    forall k | 0 <= k < |a + new_|
      ensures Retires((a + new_)[k], (log + new_)[ret + k])
    {
      if k < |a| {
        assert Retires(a[k], log[ret + k]);
      } else {
        assert (log + new_)[ret + k] == new_[k - |a|];
        assert new_[k - |a|] in new_;
      }
    }
  }

  lemma SamePortsConcat(a: seq<MicroOp>, a': seq<MicroOp>, b: seq<MicroOp>, b': seq<MicroOp>)
    requires SamePorts(a, a') && SamePorts(b, b')
    ensures SamePorts(a + b, a' + b')
  {
    hide Port;
  }

  lemma {:induction false} ValidAll(us: seq<MicroOp>)
    ensures forall u <- ValidOnly(us) :: u.valid
    ensures SamePorts(ValidOnly(us), ValidOnly(us))
  {
    if us != [] {
      ValidAll(us[..|us| - 1]);
    }
  }

  /** Completion and allocation change nothing that retirement reads. */
  lemma StripKeepsPort(u: MicroOp, v: MicroOp)
    requires RobRuns.Strip(u) == RobRuns.Strip(v)
    ensures Port(u) == Port(v) && u.valid == v.valid
  {
    assert u.rdPrf == RobRuns.Strip(u).rdPrf && u.prevPrf == RobRuns.Strip(u).prevPrf && u.inst == RobRuns.Strip(u).inst;
    assert v.rdPrf == RobRuns.Strip(v).rdPrf && v.prevPrf == RobRuns.Strip(v).prevPrf && v.inst == RobRuns.Strip(v).inst;
    assert u.valid == RobRuns.Strip(u).valid && u.prevValid == RobRuns.Strip(u).prevValid;
    assert v.valid == RobRuns.Strip(v).valid && v.prevValid == RobRuns.Strip(v).prevValid;
  }

  lemma {:induction false} AcceptedPorts(size: nat, head: RobIndex, us: seq<MicroOp>)
    requires size + CountValid(us) <= 64
    ensures SamePorts(ValidOnly(us), Robs.Accept(size, head, us))
  {
    hide Robs.Slot, Robs.Accept;
    Robs.AcceptCount(size, head, us);
    Robs.AcceptKeeps(size, head, us);
    ValidAll(us);
  }

  /** The entries after the completions of this clock. */
  function Done(f: Front, i: FrontInput): seq<MicroOp> {
    Robs.CompleteQueue(f.rob.queue, f.rob.head, i.completions)
  }

  lemma DonePorts(f: Front, i: FrontInput)
    requires RobRuns.Good(f.rob) && RobRuns.Returns(f.rob, i.completions)
    ensures SamePorts(f.rob.queue, Done(f, i))
  {
    hide Robs.Slot, RobRuns.Strip, Robs.Mispredicts, Port, RobRuns.Returns;
    var h, j := f.rob, RobRuns.Input(i.completions, []);
    RobRuns.CompleteKeeps(h, j);
    forall k | 0 <= k < |h.queue|
      ensures h.queue[k].valid && Done(f, i)[k].valid && Port(h.queue[k]) == Port(Done(f, i)[k])
    {
      StripKeepsPort(h.queue[k], Done(f, i)[k]);
    }
  }

  /** What the buffer does to the order of the uops in flight. */
  lemma RobOrder(f: Front, i: FrontInput)
    requires RobRuns.Good(f.rob) && RobRuns.Returns(f.rob, i.completions) && RoomOk(f, i)
    ensures var o, left, done := RobOutcome(f, i), Left(f, i), Done(f, i);
            && |o.retired| <= COMMIT_WIDTH && |o.retired| <= |done| && o.retired == done[..|o.retired|]
            && (o.recover ==> o.queue == [])
            && (!o.recover ==>
                 && left <= 64 && o.accepted == Robs.Accept(left, o.head, f.stages.robIn)
                 && o.retired + o.queue == done + o.accepted
                 && SamePorts(ValidOnly(f.stages.robIn), o.accepted))
  {
    hide Robs.Slot, Robs.CompleteQueue, Robs.Scan, Robs.Accept, Robs.Clock, RobRuns.Returns, SamePorts, CountValid;
    QueueBound(f.rob);
    var done := Done(f, i);
    Robs.ClockIs(f.rob.queue, f.rob.head, i.completions, f.stages.robIn);
    Robs.ScanBounds(done, 0);
    var o, n := RobOutcome(f, i), Robs.Scan(done, 0).0;
    if !o.recover {
      assert Left(f, i) == |done| - n;
      assert done[..n] + done[n..] == done;
      AcceptedPorts(|done| - n, Robs.Slot(f.rob.head, n), f.stages.robIn);
    }
  }

  lemma QueueBound(h: RobRuns.History)
    requires RobRuns.Good(h)
    ensures |h.queue| <= 64
  {
  }

  /** The pipeline registers pass on what they held and then what rename delivers. */
  lemma BetweenNext(s: Stages, w: Wires)
    requires Elastic(s) && QuietOk(s, w)
    ensures Between(Next(s, w)) == ValidOnly(s.rrTmp) + ValidOnly(w.renamed)
  {
    hide ValidOnly;
    NoGroupIdle();
    IdleGroup(NoGroup());
    IdleGroup(if s.dpStall then w.renamed else s.rrTmp);
  }

  lemma WiresQuiet(f: Front, i: FrontInput)
    requires RobRuns.Good(f.rob) && RobRuns.Returns(f.rob, i.completions) && RoomOk(f, i)
    ensures QuietOk(f.stages, WiresOf(f, i))
  {
    hide RobRuns.Good, RobRuns.Returns, Demand, ValidOnly, Robs.Accept, Robs.Clock, Robs.Placed, Idle;
    RobOrder(f, i);
    NoGroupIdle();
    RenamePassesOn(Tables(f), f.stages.rrIn, IqInt);
    var o, left := RobOutcome(f, i), Left(f, i);
    if !o.recover {
      Robs.PlacedAreAccepted(left, o.head, f.stages.robIn);
      RobPassesOn(left, o.head, f.stages.robIn, Robs.Placed(left, o.head, f.stages.robIn), IqInt);
    }
  }

  lemma {:induction false} RenamedIncomplete(t: RatState, us: seq<MicroOp>)
    requires Clean(us)
    ensures RobRuns.Incomplete(RenamedUops(t, us))
  {
    if us != [] {
      RenamedIncomplete(t, us[..|us| - 1]);
      assert us[|us| - 1] in us;
    }
  }

  lemma CleanNext(s: Stages, w: Wires)
    requires CleanStages(s) && Clean(w.fetched) && RobRuns.Incomplete(w.renamed)
    ensures CleanStages(Pipelines.Next(s, w)) && CleanStages(Pipelines.Reset())
  {
    hide Dispatches.Port;
  }

  lemma RenameOutputIncomplete(t: RatState, recover: bool, group: Group)
    requires Clean(group)
    ensures RobRuns.Incomplete(RenameOutput(t, recover, group))
  {
    RenamedIncomplete(t, group);
  }

  /** What renaming does to the log. */
  lemma LogGrows(f: Front)
    requires Aligned(f) && CleanStages(f.stages) && |f.retired| <= COMMIT_WIDTH
    ensures var c := RenamingRuns.Clock(f.rat, RatPorts(f));
            && c.ret == f.rat.ret + |f.retired| <= |f.rat.log|
            && c.log == if f.recover then f.rat.log[..c.ret]
                        else f.rat.log + ValidOnly(RenameOutput(Tables(f), false, f.stages.rrIn))
  {
    RegisterObeys(f);
    NoGroupIdle();
    IdleGroup(NoGroup());
    hide Demand, RetireUops, Retires, RenamedUops, RatCycle;
  }

  lemma OrderAfter(f: Front, i: FrontInput)
    requires FrontInv(f) && FrontOk(f, i) && !f.recover && !RobOutcome(f, i).recover
    ensures var o, w := RobOutcome(f, i), WiresOf(f, i);
            var flight := o.retired + o.queue + Between(Pipelines.Next(f.stages, w));
            var log := f.rat.log + ValidOnly(w.renamed);
            RetireInOrder(log, f.rat.ret + |f.retired|, flight) && f.rat.ret + |f.retired| + |flight| == |log|
  {
    hide RatInv, RobRuns.Good, Elastic, CleanStages, RobOutcome, RetireInOrder, ValidOnly, SamePorts, QuietOk, Between,
      RoomOk, Pipelines.Next, WiresOf, RobRuns.Returns, Done, Clean;
    var o, w, s, done := RobOutcome(f, i), WiresOf(f, i), f.stages, Done(f, i);
    WiresQuiet(f, i);
    BetweenNext(s, w);
    BetweenIs(s);
    RobOrder(f, i);
    DonePorts(f, i);
    ValidAll(s.rrTmp);
    ValidAll(w.renamed);
    var tail := f.rob.queue + (ValidOnly(s.robIn) + ValidOnly(s.rrTmp));
    var tail' := done + (o.accepted + ValidOnly(s.rrTmp));
    assert f.retired + f.rob.queue + Between(s) == f.retired + tail;
    DropPorts(f.rat.log, f.rat.ret, f.retired, tail);
    SamePortsConcat(ValidOnly(s.robIn), o.accepted, ValidOnly(s.rrTmp), ValidOnly(s.rrTmp));
    SamePortsConcat(f.rob.queue, done, ValidOnly(s.robIn) + ValidOnly(s.rrTmp), o.accepted + ValidOnly(s.rrTmp));
    SamePortsSize(tail, tail');
    SwapPorts(f.rat.log, f.rat.ret + |f.retired|, tail, tail');
    GrowPorts(f.rat.log, f.rat.ret + |f.retired|, tail', ValidOnly(w.renamed));
    assert o.retired + o.queue + Between(Pipelines.Next(s, w)) == tail' + ValidOnly(w.renamed) by {
      assert o.retired + o.queue == done + o.accepted;
    }
  }

  lemma BetweenIs(s: Stages)
    ensures Between(s) == ValidOnly(s.robIn) + ValidOnly(s.rrTmp)
  {
  }

  lemma SamePortsSize(a: seq<MicroOp>, b: seq<MicroOp>)
    requires SamePorts(a, b)
    ensures |a| == |b|
  {
  }

  /** With a recovery under way the buffer and the pipeline are empty, and the clock leaves nothing in flight. */
  lemma OrderAfterRecovery(f: Front, i: FrontInput)
    requires FrontInv(f) && FrontOk(f, i) && f.recover
    ensures var o := RobOutcome(f, i);
            && !o.recover && o.retired == o.queue == []
            && Between(Pipelines.Next(f.stages, WiresOf(f, i))) == []
  {
    hide RatInv, RobRuns.Good, RetireInOrder, RobRuns.Returns, CleanStages, Robs.Placed, Demand, RetireUops;
    WiresQuiet(f, i);
    BetweenNext(f.stages, WiresOf(f, i));
    NoGroupIdle();
    IdleGroup(NoGroup());
    hide ValidOnly, QuietOk, Pipelines.Next;
    NothingIn(f.rob.head, i.completions);
  }

  lemma NothingIn(head: RobIndex, cs: seq<MicroOp>)
    ensures var o := Robs.Clock([], head, cs, NoGroup());
            !o.recover && o.retired == o.queue == []
  {
    NoGroupIdle();
    IdleGroup(NoGroup());
    Robs.AcceptKeeps(0, Robs.Slot(head, 0), NoGroup());
    assert Robs.CompleteQueue([], head, cs) == [];
  }

  /** With a recovery the retire register alone is in order. */
  lemma OrderAtRecovery(f: Front, i: FrontInput)
    requires FrontInv(f) && FrontOk(f, i) && !f.recover && RobOutcome(f, i).recover
    ensures var o, w := RobOutcome(f, i), WiresOf(f, i);
            RetireInOrder(f.rat.log + ValidOnly(w.renamed), f.rat.ret + |f.retired|, o.retired) && o.queue == []
  {
    hide RatInv, RobRuns.Good, Elastic, CleanStages, RobOutcome, ValidOnly, RoomOk, WiresOf, RobRuns.Returns, Done, Clean,
      Port, Between;
    RobOrder(f, i);
    DonePorts(f, i);
    var o, q := RobOutcome(f, i), f.rob.queue;
    DropPorts(f.rat.log, f.rat.ret, f.retired + q, Between(f.stages));
    DropPorts(f.rat.log, f.rat.ret, f.retired, q);
    SwapPorts(f.rat.log, f.rat.ret + |f.retired|, q, Done(f, i));
    DropPorts(f.rat.log, f.rat.ret + |f.retired|, o.retired, Done(f, i)[|o.retired|..]);
    var log := f.rat.log + ValidOnly(WiresOf(f, i).renamed);
    assert forall k :: 0 <= k < |f.rat.log| ==> log[k] == f.rat.log[k];
  }

  lemma {:induction false} AlignedNext(f: Front, i: FrontInput)
    requires FrontInv(f) && FrontOk(f, i)
    ensures Aligned(NextFront(f, i)) && |NextFront(f, i).retired| <= COMMIT_WIDTH
  {
    hide RatInv, RobRuns.Good, Elastic, CleanStages, RobOutcome, RetireInOrder, ValidOnly, RoomOk, WiresOf,
      RobRuns.Returns, RenamingRuns.Clock, RobRuns.Next, Pipelines.Next, Pipelines.Reset, RatPorts, Between,
      RenameOutput, Tables, SamePorts, Done, Robs.Accept;
    RobOrder(f, i);
    LogGrows(f);
    RobNextQueue(f, i);
    WiresRenamed(f, i);
    if f.recover {
      OrderAfterRecovery(f, i);
      NoneInOrder(NextFront(f, i).rat.log);
    } else if RobOutcome(f, i).recover {
      OrderAtRecovery(f, i);
    } else {
      OrderAfter(f, i);
    }
  }

  /** One clock of the whole front end keeps its invariant. */
  lemma {:induction false} FrontKeeps(f: Front, i: FrontInput)
    requires FrontInv(f) && FrontOk(f, i)
    ensures FrontInv(NextFront(f, i))
  {
    hide RatInv, RobRuns.Good, Elastic, RobOutcome, ValidOnly, RoomOk, WiresOf, RobRuns.Returns, RobRuns.Incomplete,
      RenamingRuns.Clock, RobRuns.Next, Pipelines.Next, Pipelines.Reset, RatPorts, Obeys, QuietOk, Between, RenameOutput,
      Tables, Aligned, Clean;
    var s, w := f.stages, WiresOf(f, i);
    RegisterObeys(f);
    ClockPreserves(f.rat, RatPorts(f));
    RobRuns.StepPreserves(f.rob, RobRuns.Input(i.completions, s.robIn));
    WiresQuiet(f, i);
    StepKeepsElastic(s, w);
    ResetElastic(IqInt);
    WiresRenamed(f, i);
    RenameOutputIncomplete(Tables(f), f.recover, s.rrIn);
    CleanNext(s, w);
    AlignedNext(f, i);
  }

  lemma WiresRenamed(f: Front, i: FrontInput)
    ensures WiresOf(f, i).renamed == RenameOutput(Tables(f), f.recover, f.stages.rrIn)
    ensures WiresOf(f, i).fetched == i.fetched
  {
  }

  lemma RobNextQueue(f: Front, i: FrontInput)
    ensures NextFront(f, i).rob.queue == RobOutcome(f, i).queue
  {
  }

  lemma NoneInOrder(log: seq<MicroOp>)
    ensures RetireInOrder(log, |log|, [])
  {
  }

  // ---- Runs ----

  ghost function RunFront(ins: seq<FrontInput>): Front {
    if ins == [] then FrontReset() else NextFront(RunFront(ins[..|ins| - 1]), ins[|ins| - 1])
  }

  ghost predicate RunFrontOk(ins: seq<FrontInput>) {
    ins != [] ==> RunFrontOk(ins[..|ins| - 1]) && FrontOk(RunFront(ins[..|ins| - 1]), ins[|ins| - 1])
  }

  /** The inputs that renaming gets in a run of the whole front end. */
  ghost function RatInputs(ins: seq<FrontInput>): (r: seq<RatInput>)
    ensures |r| == |ins|
  {
    if ins == [] then [] else RatInputs(ins[..|ins| - 1]) + [RatPorts(RunFront(ins[..|ins| - 1]))]
  }

  lemma {:induction false} FrontRunKeeps(ins: seq<FrontInput>)
    requires RunFrontOk(ins)
    ensures FrontInv(RunFront(ins))
  {
    hide FrontInv, FrontOk, NextFront;
    if ins == [] {
      ResetInv();
    } else {
      FrontRunKeeps(ins[..|ins| - 1]);
      FrontKeeps(RunFront(ins[..|ins| - 1]), ins[|ins| - 1]);
    }
  }

  lemma ResetInv()
    ensures FrontInv(FrontReset())
  {
    hide RatInv;
    InitialRat();
    ResetElastic(IqInt);
    NoGroupIdle();
    IdleGroup(NoGroup());
  }

  /**
   In every run of the whole front end the retirements reach renaming as it expects them: they are, uop by uop, the
   renamed uops in program order, although the buffer has completed them and given them indices.
   */
  lemma {:induction false} FrontObeys(ins: seq<FrontInput>)
    requires RunFrontOk(ins)
    ensures RunObeys(RatInputs(ins)) && RenamingRuns.Run(RatInputs(ins)) == RunFront(ins).rat
  {
    hide FrontInv, FrontOk, Obeys, RenamingRuns.Clock, RatPorts, RunObeys, RenamingRuns.Run, RobOutcome, WiresOf;
    if ins == [] {
      RatRunStart();
    } else {
      var before := ins[..|ins| - 1];
      var f := RunFront(before);
      FrontObeys(before);
      FrontRunKeeps(before);
      InvParts(f);
      RegisterObeys(f);
      RatRunSnoc(RatInputs(before), RatPorts(f));
    }
  }

  lemma RatRunStart()
    ensures RunObeys([]) && RenamingRuns.Run([]) == RenamingRuns.Start()
  {
  }

  lemma RatRunSnoc(rs: seq<RatInput>, r: RatInput)
    requires RunObeys(rs) && Obeys(RenamingRuns.Run(rs), r)
    ensures RunObeys(rs + [r]) && RenamingRuns.Run(rs + [r]) == RenamingRuns.Clock(RenamingRuns.Run(rs), r)
  {
    hide Obeys, RenamingRuns.Clock;
    assert (rs + [r])[..|rs|] == rs;
  }

  lemma InvParts(f: Front)
    requires FrontInv(f)
    ensures Aligned(f) && CleanStages(f.stages) && |f.retired| <= COMMIT_WIDTH
  {
  }

  /** In every reachable state of the whole front end the busy registers are partitioned among their owners. */
  lemma {:induction false} FrontPartition(ins: seq<FrontInput>)
    requires RunFrontOk(ins)
    ensures Partitioned(RunFront(ins).rat)
  {
    hide Partitioned, RunFront, RunObeys, RenamingRuns.Run;
    FrontObeys(ins);
    PhysicalPartition(RatInputs(ins));
  }

  /** Whenever the recovery register is set, the next clock restores exactly the map of the retired uops. */
  lemma {:induction false} FrontRecovery(ins: seq<FrontInput>)
    requires RunFrontOk(ins) && ins != [] && RunFront(ins[..|ins| - 1]).recover
    ensures RecoveredExactly(RunFront(ins[..|ins| - 1]).rat, RunFront(ins).rat)
  {
    hide RecoveredExactly, RunObeys, RenamingRuns.Run, NextFront, FrontOk;
    var k := |ins| - 1;
    var rs := RatInputs(ins);
    FrontObeys(ins);
    FrontObeys(ins[..k]);
    assert rs[..k] == RatInputs(ins[..k]) && rs[k] == RatPorts(RunFront(ins[..k]));
    PreciseRecovery(rs);
  }
}
