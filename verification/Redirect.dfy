/**
 Two places decide that a branch was mispredicted: the reorder buffer (src/frontend/rob.sv), which squashes, and the
 retire loop of the predictor (src/frontend/branch_pred.sv), which redirects fetch. Their tests differ; that they agree
 rests on the default prediction of decode (src/frontend/inst_decode.sv) and the branch unit (function_unit.sv).
 */
module Redirects {
  import opened MicroOps
  import opened Robs
  import opened RobRuns
  import opened Sequential

  /** The test of the predictor: it compares the addresses of branches that were not predicted taken, too. */
  predicate PredictorTest(u: MicroOp) {
    u.inst.brType != BrX && (u.predTaken != u.brTaken || u.brAddr != u.predAddr)
  }

  /** The two tests disagree exactly on a branch that is neither taken nor predicted taken and whose addresses differ. */
  lemma TestsDisagreeExactly(u: MicroOp)
    ensures PredictorTest(u) != Mispredicts(u) <==>
            u.inst.brType != BrX && !u.predTaken && !u.brTaken && u.brAddr != u.predAddr
  {
  }

  // ---- Where the fields of a retired branch come from ----

  /** What fetch predicted for a uop, and the operands the branch unit got. */
  datatype Origin = Origin(predTaken: bool, predAddr: Word, op1: Word, op2: Word)

  /** Decode: the next address is the default prediction. */
  function Decode(i: Inst, o: Origin): MicroOp {
    NO_UOP.(inst := i, valid := true, predTaken := o.predTaken,
            predAddr := if o.predTaken then o.predAddr else Add32(i.pc, 4))
  }

  /** The branch unit fills in outcome and target. */
  function Branched(u: MicroOp, o: Origin): MicroOp {
    u.(brTaken := BranchTaken(u.inst, o.op1, o.op2), brAddr := BranchTarget(u.inst, o.op1, o.op2))
  }

  /** A retired uop, if it is a branch, carries what decode and the branch unit gave it. */
  predicate Genuine(u: MicroOp, o: Origin) {
    && u.valid
    && (u.inst.brType != BrX ==>
          var b := Branched(Decode(u.inst, o), o);
          && u.inst.npc == Add32(u.inst.pc, 4)
          && u.predTaken == b.predTaken && u.predAddr == b.predAddr
          && u.brTaken == b.brTaken && u.brAddr == b.brAddr)
  }

  lemma GenuineTestsAgree(u: MicroOp, o: Origin)
    requires Genuine(u, o)
    ensures PredictorTest(u) == Mispredicts(u)
  {
    if u.inst.brType != BrX && !u.brTaken {
      NotTakenFallsThrough(u.inst, o.op1, o.op2);
    }
  }

  // ---- The retire loop of the predictor ----

  /** The first lane that the predictor takes for a misprediction, from lane i on; the number of lanes if none. */
  function FirstMiss(us: seq<MicroOp>, i: nat): (k: nat)
    requires i <= |us|
    ensures i <= k <= |us| && forall j :: i <= j < k ==> !(us[j].valid && PredictorTest(us[j]))
    ensures k < |us| ==> us[k].valid && PredictorTest(us[k])
    decreases |us| - i
  {
    if i == |us| || (us[i].valid && PredictorTest(us[i])) then i else FirstMiss(us, i + 1)
  }

  /** Only `mispredict` and `nextPc` of the loop are modelled, not the tables it trains. */
  method CheckRetired(pc: Word, uopRetire: seq<MicroOp>) returns (mispredict: bool, nextPc: Word)
    ensures var k := FirstMiss(uopRetire, 0);
            && (mispredict <==> k < |uopRetire|)
            && nextPc == (if k < |uopRetire| then uopRetire[k].brAddr else Add32(pc, 16))
  {
    mispredict, nextPc := false, Add32(pc, 16);
    for i := 0 to |uopRetire|
      invariant !mispredict && nextPc == Add32(pc, 16) && FirstMiss(uopRetire, 0) == FirstMiss(uopRetire, i)
    {
      var u := uopRetire[i];
      if u.valid && u.inst.brType != BrX {
        if u.predTaken != u.brTaken {
          mispredict, nextPc := true, u.brAddr;
          break;
        }
        if u.brAddr != u.predAddr {
          mispredict, nextPc := true, u.brAddr;
          break;
        }
      }
    }
  }

  ghost predicate FromSomewhere(u: MicroOp) {
    exists o :: Genuine(u, o)
  }

  /**
   In every clock in which the retiring branches are genuine, the predictor reports a misprediction exactly if the
   reorder buffer recovers, and then redirects fetch to the target of the uop that the buffer recovers from.
   */
  lemma RedirectAgrees(q: seq<MicroOp>, head: RobIndex, cs: seq<MicroOp>, us: seq<MicroOp>)
    requires forall u <- Clock(q, head, cs, us).retired :: FromSomewhere(u)
    ensures var o := Clock(q, head, cs, us);
            && |o.retired| <= COMMIT_WIDTH
            && var k := FirstMiss(RetireLanes(o.retired), 0);
               && (k < COMMIT_WIDTH <==> o.recover)
               && (o.recover ==> k == |o.retired| - 1 &&
                                 RetireLanes(o.retired)[k].brAddr == o.retired[|o.retired| - 1].brAddr)
  {
    hide CompleteQueue, Accept, Slot, Scan, Mispredicts, PredictorTest, Genuine;
    var done := CompleteQueue(q, head, cs);
    var (n, recover) := Scan(done, 0);
    ScanBounds(done, 0);
    ScanStops(done, 0);
    var o := Clock(q, head, cs, us);
    assert o.retired == done[..n] && o.recover == recover;
    forall k | 0 <= k < n
      ensures PredictorTest(o.retired[k]) <==> recover && k == n - 1
      ensures o.retired[k].valid
    {
      assert o.retired[k] in o.retired;
      var from_ :| Genuine(o.retired[k], from_);
      GenuineTestsAgree(o.retired[k], from_);
      GenuineValid(o.retired[k], from_);
    }
    var shown, k := RetireLanes(o.retired), FirstMiss(RetireLanes(o.retired), 0);
    assert forall j :: 0 <= j < n ==> shown[j] == o.retired[j];
    assert forall j :: n <= j < COMMIT_WIDTH ==> shown[j] == NO_UOP && !shown[j].valid;
    if recover {
      assert shown[n - 1].valid && PredictorTest(shown[n - 1]);
    }
  }

  lemma GenuineValid(u: MicroOp, o: Origin)
    requires Genuine(u, o)
    ensures u.valid
  {
  }

  // ---- Genuine branches over runs of the reorder buffer ----

  /** Decode gives a branch the next address as its default prediction. */
  predicate Decoded(u: MicroOp) {
    u.inst.brType != BrX ==> u.inst.npc == Add32(u.inst.pc, 4) && (!u.predTaken ==> u.predAddr == Add32(u.inst.pc, 4))
  }

  /** Outcome and target are those of the branch unit for some operands. */
  ghost predicate FromUnit(i: Inst, b: Branch) {
    i.brType != BrX ==> exists x, y :: b == Branch(BranchTaken(i, x, y), BranchTarget(i, x, y))
  }

  /** Groups come from decode, and completions of entries in flight come from the branch unit if they are branches. */
  ghost predicate Executed(h: History, i: Input) {
    && (forall k :: 0 <= k < |i.group| && i.group[k].valid ==> Decoded(i.group[k]))
    && forall j, k :: 0 <= j < |i.completions| && i.completions[j].valid && 0 <= k < |h.queue| &&
                        i.completions[j].robIndex == Slot(h.head, k) ==>
                        FromUnit(i.completions[j].inst, BranchOf(i.completions[j]))
  }

  ghost predicate Sourced(e: Epoch) {
    && |e.accepted| == |e.named| == |e.reported|
    && forall n :: 0 <= n < |e.accepted| ==>
         e.accepted[n].valid && Decoded(e.accepted[n]) && (e.named[n] ==> FromUnit(e.accepted[n].inst, e.reported[n]))
  }

  lemma {:induction false} ValidDecoded(us: seq<MicroOp>)
    requires forall k :: 0 <= k < |us| && us[k].valid ==> Decoded(us[k])
    ensures forall k :: 0 <= k < CountValid(us) ==> ValidOnly(us)[k].valid && Decoded(ValidOnly(us)[k])
  {
    hide Decoded;
    if us != [] {
      ValidDecoded(us[..|us| - 1]);
    }
  }

  lemma AcceptedDecoded(size: nat, head: RobIndex, us: seq<MicroOp>)
    requires size <= 64 && forall k :: 0 <= k < |us| && us[k].valid ==> Decoded(us[k])
    ensures forall u <- Accept(size, head, us) :: u.valid && Decoded(u)
  {
    AcceptKeeps(size, head, us);
    ValidDecoded(us);
  }

  /** A uop that a completion of this clock names. */
  lemma NamedFromUnit(h: History, i: Input, k: nat)
    requires Good(h) && Honest(h, i) && Executed(h, i) && Sourced(h.now) && k < |h.queue|
    ensures var n := |h.now.retired| + k;
            Note(h, i)[n] ==> FromUnit(h.now.accepted[n].inst, Reports(h, i)[n])
  {
    hide FromUnit, Decoded, Mispredicts, RetiredInOrder, Note, Reports, LastNaming, Slot, IndexOk, BranchOf;
    var n, slot := |h.now.retired| + k, Slot(h.head, k);
    NotedAt(h, i, k);
    assert Strip(h.queue[k]) == Strip(h.now.accepted[n]);
    StripInst(h.queue[k], h.now.accepted[n]);
    var j := LastNaming(i.completions, slot);
    if j >= 0 {
      StripInst(i.completions[j], h.queue[k]);
    }
  }

  lemma StripInst(u: MicroOp, v: MicroOp)
    requires Strip(u) == Strip(v)
    ensures u.inst == v.inst && u.valid == v.valid && u.predTaken == v.predTaken && u.predAddr == v.predAddr
  {
    assert u.inst == Strip(u).inst && u.valid == Strip(u).valid;
    assert u.predTaken == Strip(u).predTaken && u.predAddr == Strip(u).predAddr;
  }

  /** What is in an epoch after a clock is what was in it, and what entered. */
  lemma SourcedGrows(h: History, i: Input)
    requires Good(h) && Honest(h, i) && Executed(h, i) && Sourced(h.now)
    ensures Sourced(Grown(h, i))
  {
    hide FromUnit, Decoded, Mispredicts, RetiredInOrder, Note, Reports, Clock, IndexOk, Strip, Honest, Executed;
    var o, e := Clock(h.queue, h.head, i.completions, i.group), Grown(h, i);
    EntersDecoded(h, i);
    forall n | 0 <= n < |e.accepted|
      ensures e.accepted[n].valid && Decoded(e.accepted[n])
      ensures e.named[n] ==> FromUnit(e.accepted[n].inst, e.reported[n])
    {
      if n >= |h.now.accepted| {
        assert e.accepted[n] == o.accepted[n - |h.now.accepted|] && !e.named[n];
      } else {
        assert e.named[n] == Note(h, i)[n] && e.reported[n] == Reports(h, i)[n];
        if n < |h.now.retired| {
          assert h.now.named[n] by {
            assert RetiredInOrder(h.now);
            AllNamed(h.now, n);
          }
          Settled(h, i, n);
        } else {
          NamedFromUnit(h, i, n - |h.now.retired|);
        }
      }
    }
  }

  lemma AllNamed(e: Epoch, n: nat)
    requires RetiredInOrder(e) && n < |e.retired|
    ensures e.named[n]
  {
    assert RetiredWell(e, n);
  }

  lemma EntersDecoded(h: History, i: Input)
    requires Good(h) && Executed(h, i)
    ensures forall u <- Clock(h.queue, h.head, i.completions, i.group).accepted :: u.valid && Decoded(u)
  {
    var done := CompleteQueue(h.queue, h.head, i.completions);
    var (n, recover) := Scan(done, 0);
    ClockIs(h.queue, h.head, i.completions, i.group);
    AcceptedDecoded(|done| - n, Slot(h.head, n), i.group);
    hide CompleteQueue, Scan, Accept, Decoded, FromUnit, Slot, Clock;
  }

  ghost predicate RunExecuted(ins: seq<Input>) {
    ins != [] ==> RunExecuted(ins[..|ins| - 1]) && Executed(RobRuns.Run(ins[..|ins| - 1]), ins[|ins| - 1])
  }

  lemma {:induction false} RunSourced(ins: seq<Input>)
    requires RunOk(ins) && RunExecuted(ins)
    ensures Sourced(RobRuns.Run(ins).now)
  {
    hide Sourced, Good, Honest, Executed, Grown, Clock;
    if ins != [] {
      RunSourced(ins[..|ins| - 1]);
      RunIsQueue(ins[..|ins| - 1]);
      SourcedGrows(RobRuns.Run(ins[..|ins| - 1]), ins[|ins| - 1]);
    }
    NothingSourced();
  }

  lemma NothingSourced()
    ensures Sourced(NO_EPOCH)
  {
  }

  /** What a retired uop carries is genuine. */
  lemma RetiredGenuine(e: Epoch, n: nat)
    requires Sourced(e) && RetiredInOrder(e) && n < |e.retired|
    ensures FromSomewhere(e.retired[n])
  {
    hide Strip, BranchTaken, BranchTarget;
    var u, b := e.retired[n], e.reported[n];
    assert RetiredWell(e, n);
    StripInst(u, e.accepted[n]);
    if u.inst.brType == BrX {
      assert Genuine(u, Origin(false, 0, 0, 0));
    } else {
      var x, y :| b == Branch(BranchTaken(u.inst, x, y), BranchTarget(u.inst, x, y));
      assert Genuine(u, Origin(u.predTaken, u.predAddr, x, y));
    }
  }

  /**
   Over all runs of the reorder buffer: if groups come from decode and completions from the branch unit, then in every
   clock the predictor reports a misprediction exactly if the buffer recovers, and redirects to the same target.
   */
  lemma {:induction false} RedirectAgreesInRuns(ins: seq<Input>, i: Input)
    requires RunOk(ins + [i]) && RunExecuted(ins + [i])
    ensures var h := RobRuns.Run(ins);
            var o := Clock(h.queue, h.head, i.completions, i.group);
            var k := FirstMiss(RetireLanes(o.retired), 0);
            && (forall u <- o.retired :: FromSomewhere(u))
            && |o.retired| <= COMMIT_WIDTH && (k < COMMIT_WIDTH <==> o.recover)
            && (o.recover ==> RetireLanes(o.retired)[k].brAddr == o.retired[|o.retired| - 1].brAddr)
  {
    hide Sourced, Good, Honest, Executed, Clock, FromSomewhere, Grown, RobRuns.Next, FirstMiss, RetireLanes;
    assert (ins + [i])[..|ins|] == ins;
    var h := RobRuns.Run(ins);
    RunIsQueue(ins);
    RunSourced(ins);
    ClockGenuine(h, i);
    RedirectAgrees(h.queue, h.head, i.completions, i.group);
  }

  lemma ClockGenuine(h: History, i: Input)
    requires Good(h) && Honest(h, i) && Executed(h, i) && Sourced(h.now)
    ensures forall u <- Clock(h.queue, h.head, i.completions, i.group).retired :: FromSomewhere(u)
  {
    hide Sourced, Honest, Executed, Clock, FromSomewhere, RetiredInOrder, InFlight, Note, Reports, IndexOk;
    var o, e := Clock(h.queue, h.head, i.completions, i.group), Grown(h, i);
    SourcedGrows(h, i);
    StepPreserves(h, i);
    assert RetiredInOrder(e) by {
      var h' := RobRuns.Next(h, i);
      if o.recover {
        assert h'.past[|h.past|] == e && Ended(e);
      } else {
        assert h'.now == e;
      }
    }
    RetiredSizes(e);
    forall k | 0 <= k < |o.retired|
      ensures FromSomewhere(o.retired[k])
    {
      assert e.retired[|h.now.retired| + k] == o.retired[k];
      RetiredGenuine(e, |h.now.retired| + k);
    }
  }

  lemma RetiredSizes(e: Epoch)
    requires RetiredInOrder(e)
    ensures |e.retired| <= |e.accepted| == |e.named| == |e.reported|
  {
  }
}
