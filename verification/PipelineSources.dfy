/**
 The two sources of the elastic pipeline: the groups that rename (src/frontend/rat.sv) and the reorder buffer
 (src/frontend/rob.sv) pass on are what `Pipelines` expects of them, and a clock is lossless when both have room.
 */
module PipelineSources {
  import opened MicroOps
  import opened Selectors
  import opened Dispatches
  import opened MappingTables
  import opened Renaming
  import RenamingRuns
  import opened Pipelines
  import Robs

  /** Two groups with the same instructions in the same valid lanes. */
  ghost predicate SameInsts(a: seq<MicroOp>, b: seq<MicroOp>) {
    |a| == |b| && forall i :: 0 <= i < |a| ==> a[i].inst == b[i].inst && a[i].valid == b[i].valid
  }

  lemma FlowSnoc(us: seq<MicroOp>, code: IqCode)
    ensures us == [] ==> Flow(us, code) == []
    ensures us != [] ==>
              var u := us[|us| - 1];
              Flow(us, code) ==
              Flow(us[..|us| - 1], code) + (if u.valid && u.inst.iqCode == code then [u.inst] else [])
  {
    if us == [] {
      IdleFor(us, code);
    } else {
      ForSnoc(us, code);
    }
  }

  lemma {:induction false} SameFlow(a: seq<MicroOp>, b: seq<MicroOp>, code: IqCode)
    requires SameInsts(a, b)
    ensures Flow(a, code) == Flow(b, code)
  {
    hide Flow;
    FlowSnoc(a, code);
    FlowSnoc(b, code);
    if a != [] {
      SameFlow(a[..|a| - 1], b[..|b| - 1], code);
    }
  }

  lemma {:induction false} FlowPrefix(us: seq<MicroOp>, n: nat, code: IqCode)
    requires n <= |us|
    ensures Flow(us[..n], code) <= Flow(us, code)
  {
    if n < |us| {
      FlowPrefix(us[..|us| - 1], n, code);
      assert us[..|us| - 1][..n] == us[..n];
      FlowSnoc(us, code);
    } else {
      assert us[..n] == us;
    }
  }

  lemma {:induction false} FlowOfValid(us: seq<MicroOp>, code: IqCode)
    ensures Flow(ValidOnly(us), code) == Flow(us, code)
  {
    hide Flow;
    FlowSnoc(us, code);
    if us != [] {
      var us', u := us[..|us| - 1], us[|us| - 1];
      FlowOfValid(us', code);
      if u.valid {
        var v := ValidOnly(us') + [u];
        assert v[..|v| - 1] == ValidOnly(us');
        FlowSnoc(v, code);
        assert ValidOnly(us) == v;
      } else {
        assert ValidOnly(us) == ValidOnly(us');
      }
    } else {
      assert ValidOnly(us) == us;
    }
  }

  /** The group leaving rename: renamed if registers suffice, empty otherwise and on recovery. */
  function RenameOutput(t: RatState, recover: bool, group: Group): Group {
    if recover || Demand(group) > t.free.num then NoGroup() else RenamedUops(t, group)
  }

  lemma {:induction false} RenamedSame(t: RatState, us: seq<MicroOp>)
    ensures SameInsts(RenamedUops(t, us), us)
  {
    if us != [] {
      RenamedSame(t, us[..|us| - 1]);
    }
  }

  /** Rename passes every group on whole when registers suffice, and passes nothing on otherwise. */
  lemma RenamePassesOn(t: RatState, group: Group, code: IqCode)
    ensures Demand(group) <= t.free.num ==> Flow(RenameOutput(t, false, group), code) == Flow(group, code)
    ensures Demand(group) > t.free.num ==> Idle(RenameOutput(t, false, group))
    ensures Idle(group) ==> Idle(RenameOutput(t, false, group))
  {
    NoGroupIdle();
    if Demand(group) <= t.free.num {
      RenamedSame(t, group);
      SameFlow(RenamedUops(t, group), group, code);
    }
  }

  /** The reorder buffer passes a prefix of the valid uops on, and all of them if they fit. */
  lemma {:induction false} RobPassesOn(size: nat, head: RobIndex, group: seq<MicroOp>, placed: seq<MicroOp>, code: IqCode)
    requires size <= 64 && ValidOnly(placed) == Robs.Accept(size, head, group)
    ensures Flow(placed, code) <= Flow(group, code)
    ensures size + CountValid(group) <= 64 ==> Flow(placed, code) == Flow(group, code)
    ensures Idle(group) ==> Idle(placed)
  {
    hide Flow;
    var r, v := Robs.Accept(size, head, group), ValidOnly(group);
    Robs.AcceptCount(size, head, group);
    Robs.AcceptKeeps(size, head, group);
    FlowOfValid(placed, code);
    FlowOfValid(group, code);
    SameFlow(r, v[..|r|], code);
    FlowPrefix(v, |r|, code);
    assert |r| == |v| ==> v[..|r|] == v;
    if Idle(group) {
      PrefixIsValid(group, 0);
      NoneValid(placed);
    }
  }

  lemma {:induction false} NoneValid(us: seq<MicroOp>)
    requires ValidOnly(us) == []
    ensures Idle(us)
  {
    if us != [] {
      NoneValid(us[..|us| - 1]);
    }
  }

  /** The wires of a clock in which rename is in state t and `left` entries stay in the reorder buffer. */
  predicate Wired(s: Stages, w: Wires, t: RatState, left: nat, head: RobIndex) {
    && left <= 64
    && w.rrAllocatable == (Demand(s.rrIn) <= t.free.num) && w.renamed == RenameOutput(t, false, s.rrIn)
    && ValidOnly(w.placed) == Robs.Accept(left, head, s.robIn)
  }

  /**
   What the pipeline expects of rename and the reorder buffer always holds; and a clock loses nothing when the group in
   rename finds registers and the group in dispatch fits into the reorder buffer.
   */
  lemma {:induction false} SourcesDeliver(s: Stages, w: Wires, t: RatState, left: nat, head: RobIndex, code: IqCode)
    requires Wired(s, w, t, left, head)
    ensures QuietOk(s, w) && SourcesOk(s, w)
    ensures Demand(s.rrIn) <= t.free.num && left + CountValid(s.robIn) <= 64 ==> Lossless(s, w, code)
  {
    hide Flow, Idle, Demand, RenameOutput, CountValid, ValidOnly;
    forall c
      ensures w.rrAllocatable ==> Flow(w.renamed, c) == Flow(s.rrIn, c)
      ensures Flow(w.placed, c) <= Flow(s.robIn, c)
    {
      RenamePassesOn(t, s.rrIn, c);
      RobPassesOn(left, head, s.robIn, w.placed, c);
    }
    RenamePassesOn(t, s.rrIn, code);
    RobPassesOn(left, head, s.robIn, w.placed, code);
  }

  // ---- Exactly when a clock loses nothing ----

  /** Every uop of the group for this queue finds an entry: its rank among the valid lanes is below the free entries. */
  predicate RoomFor(us: seq<MicroOp>, left: nat, code: IqCode) {
    forall i :: 0 <= i < |us| && us[i].valid && us[i].inst.iqCode == code ==> left + CountValid(us[..i]) < 64
  }

  predicate NoneFor(us: seq<MicroOp>, code: IqCode) {
    forall i :: 0 <= i < |us| && us[i].valid ==> us[i].inst.iqCode != code
  }

  lemma {:induction false} AcceptedFlow(size: nat, head: RobIndex, us: seq<MicroOp>, code: IqCode)
    requires size <= 64
    ensures Flow(Robs.Accept(size, head, us), code) == Flow(us, code) <==> RoomFor(us, size, code)
    ensures Flow(Robs.Accept(size, head, us), code) <= Flow(us, code)
  {
    hide Flow, CountValid, Robs.Accept, Robs.Placed, RoomFor, Robs.Slot;
    if us == [] {
      Robs.AcceptNone(size, head, us);
      RoomForAll(us, size, code);
    } else {
      var n := |us| - 1;
      var us' := us[..n];
      AcceptedFlow(size, head, us', code);
      AcceptedSnoc(size, head, us, code);
      FlowSnoc(us, code);
      RoomForSnoc(us, size, code);
      if us[n].valid && size + CountValid(us') < 64 {
        RoomForAll(us', size, code);
      }
    }
  }

  /** A lane is taken exactly if it is valid and its rank is below the free entries. */
  lemma AcceptedSnoc(size: nat, head: RobIndex, us: seq<MicroOp>, code: IqCode)
    requires size <= 64 && us != []
    ensures var n := |us| - 1;
            var u, f := us[n], Flow(Robs.Accept(size, head, us[..n]), code);
            Flow(Robs.Accept(size, head, us), code) ==
            if u.valid && u.inst.iqCode == code && size + CountValid(us[..n]) < 64 then f + [u.inst] else f
  {
    hide Flow, CountValid, Robs.Accept, Robs.Placed, Robs.Slot;
    var n := |us| - 1;
    var r := Robs.Accept(size, head, us[..n]);
    Robs.AcceptSnoc(size, head, us, n);
    Robs.AcceptCount(size, head, us[..n]);
    assert us[..n + 1] == us;
    var taken := Robs.Taken(size + |r|, head, us[n]);
    assert taken != [] ==> (r + taken)[..|r|] == r;
    FlowSnoc(r + taken, code);
    assert taken == [] ==> r + taken == r;
  }

  lemma {:induction false} RoomForAll(us: seq<MicroOp>, left: nat, code: IqCode)
    requires left + CountValid(us) <= 64
    ensures RoomFor(us, left, code)
  {
    if us != [] {
      RoomForAll(us[..|us| - 1], left, code);
      RoomForSnoc(us, left, code);
    }
  }

  lemma RoomForSnoc(us: seq<MicroOp>, left: nat, code: IqCode)
    requires us != []
    ensures var n := |us| - 1;
            RoomFor(us, left, code) <==>
            RoomFor(us[..n], left, code) &&
            (us[n].valid && us[n].inst.iqCode == code ==> left + CountValid(us[..n]) < 64)
  {
    hide CountValid;
    var n := |us| - 1;
    assert forall i :: 0 <= i < n ==> us[..n][..i] == us[..i];
  }

  lemma {:induction false} NoFlow(us: seq<MicroOp>, code: IqCode)
    ensures Flow(us, code) == [] <==> NoneFor(us, code)
  {
    hide Flow;
    FlowSnoc(us, code);
    if us != [] {
      NoFlow(us[..|us| - 1], code);
      assert forall i :: 0 <= i < |us| - 1 ==> us[..|us| - 1][i] == us[i];
    }
  }

  /** For one queue, on guards alone: registers for the group in rename, an entry for each uop in dispatch. */
  lemma {:induction false} LosslessOnGuards(s: Stages, w: Wires, t: RatState, left: nat, head: RobIndex, code: IqCode)
    requires Wired(s, w, t, left, head)
    ensures Lossless(s, w, code) <==>
            (Demand(s.rrIn) <= t.free.num || NoneFor(s.rrIn, code)) && RoomFor(s.robIn, left, code)
  {
    hide Flow, Demand, CountValid, ValidOnly, RoomFor, NoneFor;
    NoFlow(s.rrIn, code);
    AcceptedFlow(left, head, s.robIn, code);
    FlowOfValid(w.placed, code);
  }

  predicate Queued(u: MicroOp) {
    u.valid && (u.inst.iqCode == IqInt || u.inst.iqCode == IqMem)
  }

  /** Nothing for this queue is lost in the clock. */
  predicate Keeps(s: Stages, w: Wires, code: IqCode) {
    Delivered(s, code) + Stream(Pipelines.Next(s, w), code) == Stream(s, code) + Entering(w, code)
  }

  /**
   Neither queue loses anything in a clock if and only if the group in rename finds registers or holds no uop for a
   queue, and every uop for a queue in dispatch finds an entry in the reorder buffer.
   */
  lemma {:induction false} LosslessIff(s: Stages, w: Wires, t: RatState, left: nat, head: RobIndex)
    requires Elastic(s) && Wired(s, w, t, left, head)
    ensures Keeps(s, w, IqInt) && Keeps(s, w, IqMem) <==>
            && (Demand(s.rrIn) <= t.free.num || forall i :: 0 <= i < |s.rrIn| ==> !Queued(s.rrIn[i]))
            && (forall i :: 0 <= i < |s.robIn| && Queued(s.robIn[i]) ==> left + CountValid(s.robIn[..i]) < 64)
  {
    hide Elastic, QuietOk, SourcesOk, Wired, Demand, CountValid, Delivered, Stream, Pipelines.Next, Entering, Lossless;
    SourcesDeliver(s, w, t, left, head, IqInt);
    LosslessExactly(s, w, IqInt);
    LosslessExactly(s, w, IqMem);
    LosslessOnGuards(s, w, t, left, head, IqInt);
    LosslessOnGuards(s, w, t, left, head, IqMem);
  }

  // ---- Running out of registers ----

  /** Clocks of renaming that each rename one uop and retire nothing. */
  function OneEach(u: MicroOp, n: nat): (ins: seq<RenamingRuns.RatInput>)
    ensures |ins| == n
  {
    seq(n, k => RenamingRuns.RatInput(false, [], [u, NO_UOP, NO_UOP, NO_UOP]))
  }

  lemma DemandOfOne(u: MicroOp)
    requires u.valid && u.inst.rdValid
    ensures Demand([u, NO_UOP, NO_UOP, NO_UOP]) == 1
  {
    var a, b, c, d := [true], [true, false], [true, false, false], [true, false, false, false];
    assert MappingTables.Wants(Reqs([u, NO_UOP, NO_UOP, NO_UOP])) == d;
    assert d[..3] == c && c[..2] == b && b[..1] == a && a[..0] == [];
    assert CountTrue(a) == 1;
    assert CountTrue(b) == 1;
    assert CountTrue(c) == 1;
  }

  /** After n such clocks from reset 63 - n registers are free. */
  lemma {:induction false} RegistersRunOut(u: MicroOp, n: nat)
    requires u.valid && u.inst.rdValid && u.inst.rd != 0 && n <= 63
    ensures RenamingRuns.RunObeys(OneEach(u, n)) && RenamingRuns.Run(OneEach(u, n)).s.free.num == 63 - n
  {
    hide RatInv, Demand, RenamingRuns.Clock, RenamingRuns.Obeys;
    if n > 0 {
      var ins := OneEach(u, n);
      assert ins[..n - 1] == OneEach(u, n - 1);
      RegistersRunOut(u, n - 1);
      RenamingRuns.RunPreserves(ins[..n - 1]);
      RenamesOne(RenamingRuns.Run(ins[..n - 1]), u);
    }
  }

  lemma RenamesOne(c: RenamingRuns.RatRun, u: MicroOp)
    requires RatInv(c.s, c.log, c.ret) && c.s.free.num > 0
    requires u.valid && u.inst.rdValid && u.inst.rd != 0
    ensures var i := RenamingRuns.RatInput(false, [], [u, NO_UOP, NO_UOP, NO_UOP]);
            RenamingRuns.Obeys(c, i) && RenamingRuns.Clock(c, i).s.free.num == c.s.free.num - 1
  {
    DemandOfOne(u);
    assert c.ret <= |c.log|;
    hide RatInv, Demand, RenameUops, RenamedUops;
    RenamingRuns.RenameAllPreserve(c.s, c.log, c.ret, [u, NO_UOP, NO_UOP, NO_UOP]);
    assert RetireUops(c.s, []) == c.s;
  }

  /**
   A reachable state of renaming without a free register: a group that then needs one disappears in rename, whatever
   the reorder buffer and the queues do.
   */
  lemma {:induction false} ExhaustedRenameLosesGroup(u: MicroOp, w: Wires, left: nat, head: RobIndex)
    requires u.valid && u.inst.rdValid && u.inst.rd != 0 && u.inst.iqCode == IqInt
    requires var s := Reset().(rrIn := [u, NO_UOP, NO_UOP, NO_UOP]);
             Wired(s, w, RenamingRuns.Run(OneEach(u, 63)).s, left, head)
    ensures RenamingRuns.RunObeys(OneEach(u, 63))
    ensures var s := Reset().(rrIn := [u, NO_UOP, NO_UOP, NO_UOP]);
            Stream(s, IqInt) == [u.inst] && Delivered(s, IqInt) + Stream(Pipelines.Next(s, w), IqInt) == Entering(w, IqInt)
  {
    var s, t := Reset().(rrIn := [u, NO_UOP, NO_UOP, NO_UOP]), RenamingRuns.Run(OneEach(u, 63)).s;
    RegistersRunOut(u, 63);
    DemandOfOne(u);
    hide For, ValidOnly, Pipelines.Next, Demand, RenamingRuns.RunObeys, RenamingRuns.Run, Robs.Accept, Stream, Delivered,
      Entering, Elastic, QuietOk, SourcesOk, Flow;
    AloneInRename(u);
    SourcesDeliver(s, w, t, left, head, IqInt);
    ClockConserves(s, w, IqInt);
    NothingPassed(s, w);
  }

  lemma AloneInRename(u: MicroOp)
    requires u.valid && u.inst.iqCode == IqInt
    ensures var s := Reset().(rrIn := [u, NO_UOP, NO_UOP, NO_UOP]); Elastic(s) && Stream(s, IqInt) == [u.inst]
  {
    SoleUop(u);
    NoGroupIdle();
    IdleGroup(NoGroup());
    hide For, ValidOnly;
  }

  lemma NothingPassed(s: Stages, w: Wires)
    requires s == Reset().(rrIn := s.rrIn) && QuietOk(s, w) && Idle(w.renamed)
    ensures Passed(s, w, IqInt) == []
  {
    NoGroupIdle();
    IdleGroup(NoGroup());
    IdleGroup(w.placed);
    IdleGroup(w.renamed);
    hide For, ValidOnly, Flow;
  }
}
