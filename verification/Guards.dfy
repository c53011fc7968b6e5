/**
 The guards of the core's events are the decisions of its hardware: a memory uop may issue exactly where the selector of
 the memory queue permits it and the scoreboard answers that no source is busy, an integer uop exactly when its queue
 finds it awake, and the oldest uop may retire exactly when the reorder buffer would retire it.
 */
module Guards {
  import opened MicroOps
  import opened RegisterFiles
  import opened Sequential
  import IssueQueueInts
  import IssueQueueMems
  import Robs
  import RobRuns
  import StoreBuffers
  import opened OutOfOrder

  /** Which slots hold a store when the queue shows these positions of the log. */
  function StoreSlots(c: Core): (b: IssueQueueMems.SlotBits)
    requires InLog(c, c.mq)
  {
    seq(16, k requires 0 <= k < 16 => k < |c.mq| && c.log[c.mq[k]].inst.memType == MemSt)
  }

  lemma {:induction false} IssueMemIsSelector(c: Core, k: nat)
    requires InLog(c, c.mq) && k < |c.mq| <= 16
    ensures CanIssueMem(c, k) <==>
            IssueQueueMems.Permitted(StoreSlots(c), k) && SourcesReady(c, c.log[c.mq[k]])
  {
    hide SourcesReady;
    var b := StoreSlots(c);
    assert forall j :: 0 <= j <= k ==> b[j] == IssueQueueMems.IsStore(c.log[c.mq[j]]);
  }

  lemma {:induction false} IssueIntIsAwake(c: Core, i: nat)
    requires i < |c.st| == |c.log| && c.log[i].valid && c.st[i] == Waiting && c.log[i].inst.iqCode != IqMem
    ensures CanIssueInt(c, i) <==> IssueQueueInts.WaitsForNothing(c.log[i], c.sb, [])
  {
    IssueQueueInts.AwakeIs(c.log[i], c.sb, []);
    hide SeenBusy;
  }

  /** What the buffer holds of a uop of the log. */
  function Entry(c: Core, j: nat): MicroOp
    requires j < |c.st| == |c.log|
  {
    var s := c.st[j];
    c.log[j].(complete := s.Done?, brTaken := s.Done? && s.taken, brAddr := if s.Done? then s.addr else 0)
  }

  function Entries(c: Core): (q: seq<MicroOp>)
    requires |c.st| == |c.log| && c.ret <= |c.log|
    ensures |q| == |c.log| - c.ret
  {
    seq(|c.log| - c.ret, k requires 0 <= k < |c.log| - c.ret => Entry(c, c.ret + k))
  }

  lemma {:induction false} RetireIsScan(c: Core)
    requires |c.st| == |c.log| && c.ret < |c.log|
    requires c.buf != [] ==> c.buf[0].addr != StoreBuffers.HALT_ADDR
    ensures CanRetire(c) <==> Robs.Scan(Entries(c), 0).0 > 0
    ensures CanRetire(c) ==>
              (Mispredicted(c.log[c.ret], c.st[c.ret].taken, c.st[c.ret].addr) <==> Robs.Scan(Entries(c), 0) == (1, true))
  {
    var q := Entries(c);
    RobRuns.RetiresExactly(q, 0, 0);
    assert q[0] == Entry(c, c.ret);
    if q[0].complete && !Robs.Mispredicts(q[0]) {
      Robs.ScanStops(q, 0);
    }
  }
}
