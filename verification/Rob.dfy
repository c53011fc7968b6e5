/**
 Reorder buffer (src/frontend/rob.sv): a circular buffer of 64 entries with multi-way completion, retirement, squash
 and allocation in one clock. It refines a queue. Indices are taken modulo 64, as 6-bit indices are.
 */
module Robs {
  import opened MicroOps

  type Entries = s: seq<MicroOp> | |s| == 64 witness seq(64, i => NO_UOP)

  function Slot(head: RobIndex, k: nat): RobIndex {
    (head + k) % 64
  }

  /** The entries in flight, oldest first. */
  function Queue(list: Entries, head: RobIndex, size: nat): (q: seq<MicroOp>)
    requires size <= 64
    ensures |q| == size
  {
    seq(size, k requires 0 <= k < size => list[Slot(head, k)])
  }

  predicate Mispredicts(u: MicroOp) {
    u.inst.brType != BrX && (u.predTaken != u.brTaken || (u.brAddr != u.predAddr && u.predTaken))
  }

  // ---- Queue-level meaning of one clock ----

  /** The entry that a queue position holds after the completions of this clock. */
  function Latest(cs: seq<MicroOp>, slot: RobIndex, u: MicroOp): MicroOp {
    if cs == [] then u else
      var c := cs[|cs| - 1];
      if c.valid && c.robIndex == slot then c.(complete := true) else Latest(cs[..|cs| - 1], slot, u)
  }

  function CompleteQueue(q: seq<MicroOp>, head: RobIndex, cs: seq<MicroOp>): (r: seq<MicroOp>)
    ensures |r| == |q|
  {
    seq(|q|, k requires 0 <= k < |q| => Latest(cs, Slot(head, k), q[k]))
  }

  /** How many entries retire, and whether the last of them is a misprediction, scanning from lane i. */
  function Scan(q: seq<MicroOp>, i: nat): (r: (nat, bool))
    requires i <= |q|
    ensures i <= r.0 <= |q| && (r.1 ==> i < r.0)
    decreases |q| - i
  {
    if i >= COMMIT_WIDTH || i >= |q| - i || !q[i].complete then (i, false)
    else if Mispredicts(q[i]) then (i + 1, true)
    else Scan(q, i + 1)
  }

  /** Valid lanes are taken while there is room; the others are lost. */
  function Accept(size: nat, head: RobIndex, us: seq<MicroOp>): (r: seq<MicroOp>)
    ensures size <= 64 ==> size + |r| <= 64
  {
    if us == [] then [] else
      var r := Accept(size, head, us[..|us| - 1]);
      var u := us[|us| - 1];
      if size + |r| < 64 && u.valid then r + [u.(robIndex := Slot(head, size + |r|))] else r
  }

  function Taken(size: nat, head: RobIndex, u: MicroOp): seq<MicroOp> {
    if size < 64 && u.valid then [u.(robIndex := Slot(head, size))] else []
  }

  function OutLane(size: nat, head: RobIndex, u: MicroOp): MicroOp {
    if Taken(size, head, u) == [] then NO_UOP else Taken(size, head, u)[0]
  }

  /** The output lanes: a lane that is taken shows its entry, every other one is empty. */
  function Placed(size: nat, head: RobIndex, us: seq<MicroOp>): (r: seq<MicroOp>)
    ensures |r| == |us|
  {
    if us == [] then [] else
      var us', u := us[..|us| - 1], us[|us| - 1];
      Placed(size, head, us') + [OutLane(size + |Accept(size, head, us')|, head, u)]
  }

  /** The retire port: the retired entries in the first of its six lanes. */
  function RetireLanes(retired: seq<MicroOp>): seq<MicroOp> {
    if |retired| <= COMMIT_WIDTH then retired + seq(COMMIT_WIDTH - |retired|, i => NO_UOP) else retired
  }

  datatype Outcome = Outcome(queue: seq<MicroOp>, head: RobIndex, retired: seq<MicroOp>, recover: bool,
                             accepted: seq<MicroOp>)

  function Clock(q: seq<MicroOp>, head: RobIndex, cs: seq<MicroOp>, us: seq<MicroOp>): Outcome
  {
    var done := CompleteQueue(q, head, cs);
    var (n, recover) := Scan(done, 0);
    var rest, head' := done[n..], Slot(head, n);
    if recover then Outcome([], 0, done[..n], true, [])
    else
      var new_ := Accept(|rest|, head', us);
      Outcome(rest + new_, head', done[..n], false, new_)
  }

  lemma ClockIs(q: seq<MicroOp>, head: RobIndex, cs: seq<MicroOp>, us: seq<MicroOp>)
    ensures var done := CompleteQueue(q, head, cs);
            var (n, recover) := Scan(done, 0);
            var new_ := Accept(|done| - n, Slot(head, n), us);
            Clock(q, head, cs, us) ==
            if recover then Outcome([], 0, done[..n], true, [])
            else Outcome(done[n..] + new_, Slot(head, n), done[..n], false, new_)
  {
  }

  /** Every entry sits at the slot named by its index. */
  ghost predicate IndexOk(q: seq<MicroOp>, head: RobIndex) {
    forall k :: 0 <= k < |q| ==> q[k].robIndex == Slot(head, k)
  }

  // ---- What one clock guarantees ----

  /** At most six and at most half of the entries, rounded up, retire; the first entry always makes progress. */
  lemma {:induction false} ScanBounds(q: seq<MicroOp>, i: nat)
    requires i <= |q| && i <= COMMIT_WIDTH && i <= (|q| + 1) / 2
    ensures var n := Scan(q, i).0; n <= COMMIT_WIDTH && n <= (|q| + 1) / 2
    ensures i < COMMIT_WIDTH && i < |q| - i && q[i].complete ==> Scan(q, i).0 > i
    decreases |q| - i
  {
    if !(i >= COMMIT_WIDTH || i >= |q| - i || !q[i].complete || Mispredicts(q[i])) {
      ScanBounds(q, i + 1);
    }
  }

  /** Exactly the last retired entry is a misprediction if there is a recovery, and none otherwise. */
  lemma {:induction false} ScanStops(q: seq<MicroOp>, i: nat)
    requires i <= |q|
    ensures var (n, recover) := Scan(q, i);
            && (forall k :: i <= k < n ==> q[k].complete)
            && (forall k :: i <= k < n ==> (Mispredicts(q[k]) <==> recover && k == n - 1))
    decreases |q| - i
  {
    if !(i >= COMMIT_WIDTH || i >= |q| - i || !q[i].complete || Mispredicts(q[i])) {
      ScanStops(q, i + 1);
    }
  }

  /** As many valid lanes are accepted as there is room for; all of them exactly when they fit. */
  lemma {:induction false} AcceptCount(size: nat, head: RobIndex, us: seq<MicroOp>)
    requires size <= 64
    ensures |Accept(size, head, us)| == (if size + CountValid(us) <= 64 then CountValid(us) else 64 - size)
  {
    if us != [] {
      AcceptCount(size, head, us[..|us| - 1]);
    }
  }

  /** The accepted lanes are the first valid ones, changed only in the index of the slot they go to. */
  lemma {:induction false} AcceptKeeps(size: nat, head: RobIndex, us: seq<MicroOp>)
    requires size <= 64
    ensures |Accept(size, head, us)| <= CountValid(us)
    ensures forall k :: 0 <= k < |Accept(size, head, us)| ==>
              Accept(size, head, us)[k] == ValidOnly(us)[k].(robIndex := Slot(head, size + k))
  {
    AcceptCount(size, head, us);
    if us != [] {
      AcceptKeeps(size, head, us[..|us| - 1]);
      AcceptCount(size, head, us[..|us| - 1]);
    }
  }

  lemma {:induction false} ValidOnlyValid(us: seq<MicroOp>)
    ensures forall k :: 0 <= k < CountValid(us) ==> ValidOnly(us)[k].valid
  {
    if us != [] {
      ValidOnlyValid(us[..|us| - 1]);
    }
  }

  // ---- Circular buffer ----

  lemma SlotSum(head: RobIndex, n: nat, k: nat)
    ensures Slot(Slot(head, n), k) == Slot(head, n + k)
  {
  }

  lemma SlotInjective(head: RobIndex, i: nat, k: nat)
    requires i < 64 && k < 64 && Slot(head, i) == Slot(head, k)
    ensures i == k
  {
  }

  lemma QueueDrop(list: Entries, head: RobIndex, size: nat, n: nat)
    requires n <= size <= 64
    ensures Queue(list, Slot(head, n), size - n) == Queue(list, head, size)[n..]
  {
    forall k | 0 <= k < size - n
      ensures Slot(Slot(head, n), k) == Slot(head, n + k)
    {
      SlotSum(head, n, k);
    }
  }

  lemma QueueAppend(list: Entries, head: RobIndex, size: nat, u: MicroOp)
    requires size < 64
    ensures Queue(list[Slot(head, size) := u], head, size + 1) == Queue(list, head, size) + [u]
  {
    forall k | 0 <= k < size
      ensures Slot(head, k) != Slot(head, size)
    {
      if Slot(head, k) == Slot(head, size) {
        SlotInjective(head, k, size);
      }
    }
  }

  class Rob {
    var opList: Entries
    var head: RobIndex
    var size: nat

    predicate Valid()
      reads this
    {
      size <= 64
    }

    function Contents(): seq<MicroOp>
      reads this
      requires Valid()
    {
      Queue(opList, head, size)
    }

    constructor ()
      ensures Valid() && Contents() == [] && head == 0
    {
      opList, head, size := seq(64, i => NO_UOP), 0, 0;
    }

    /** One clock has exactly the effect of `Clock` on the queue; stale completions of free slots have none. */
    method Step(uopComplete: seq<MicroOp>, uopIn: seq<MicroOp>)
      returns (uopOut: seq<MicroOp>, recover: bool, uopRecover: MicroOp, uopRetire: seq<MicroOp>, allocatable: bool)
      requires Valid() && |uopComplete| == COMMIT_WIDTH && |uopIn| == RENAME_WIDTH
      modifies this
      ensures Valid()
      ensures var o := Clock(old(Contents()), old(head), uopComplete, uopIn);
              && Contents() == o.queue && head == o.head && recover == o.recover
              && |o.retired| <= COMMIT_WIDTH
              && uopRetire == RetireLanes(o.retired)
              && (recover ==> o.retired != [] && uopRecover == o.retired[|o.retired| - 1])
              && uopOut == (if recover then [NO_UOP, NO_UOP, NO_UOP, NO_UOP]
                            else Placed(|o.queue| - |o.accepted|, o.head, uopIn))
              && (allocatable <==> recover || |o.queue| - |o.accepted| + CountValid(uopIn[..3]) < 64)
    {
      hide Scan, CompleteQueue, CompleteAll, Queue, Clock, Accept, Placed, CountValid, RetireLanes, Slot;
      ClockIs(Contents(), head, uopComplete, uopIn);
      CompleteIsQueue(opList, head, size, uopComplete);
      var next := CompletePhase(opList, uopComplete);
      var headNext, sizeNext;
      headNext, sizeNext, uopRetire, recover, uopRecover := RetirePhase(next, head, size);
      uopOut, allocatable := [NO_UOP, NO_UOP, NO_UOP, NO_UOP], true;
      if !recover {
        next, sizeNext, uopOut, allocatable := AllocatePhase(next, headNext, sizeNext, uopIn);
      }
      opList, head, size := next, headNext, sizeNext;
      EmptyQueue(opList, head);
    }

    static lemma EmptyQueue(list: Entries, head: RobIndex)
      ensures Queue(list, head, 0) == []
    {
    }

    static method CompletePhase(list: Entries, cs: seq<MicroOp>) returns (next: Entries)
      ensures next == CompleteAll(list, cs)
    {
      next := list;
      for i := 0 to |cs|
        invariant next == CompleteAll(list, cs[..i])
      {
        assert cs[..i + 1][..i] == cs[..i];
        if cs[i].valid {
          next := next[cs[i].robIndex := cs[i]];
          next := next[cs[i].robIndex := next[cs[i].robIndex].(complete := true)];
        }
      }
      assert cs[..|cs|] == cs;
    }

    static method RetirePhase(list: Entries, head: RobIndex, size: nat)
      returns (headNext: RobIndex, sizeNext: nat, uopRetire: seq<MicroOp>, recover: bool, uopRecover: MicroOp)
      requires size <= 64
      ensures var q := Queue(list, head, size);
              var (n, rec) := Scan(q, 0);
              && n <= COMMIT_WIDTH && recover == rec
              && uopRetire == RetireLanes(q[..n])
              && (recover ==> uopRecover == q[n - 1] && headNext == 0 && sizeNext == 0)
              && (!recover ==> headNext == Slot(head, n) && sizeNext == size - n &&
                               Queue(list, headNext, sizeNext) == q[n..])
    {
      hide Scan, Slot, Queue;
      ScanBounds(Queue(list, head, size), 0);
      QueueDrop(list, head, size, Scan(Queue(list, head, size), 0).0);
      var retired;
      headNext, sizeNext, retired, recover, uopRecover := RetireLoop(list, head, size);
      uopRetire := retired + seq(COMMIT_WIDTH - |retired|, k => NO_UOP);
    }

    /** The retire loop: the guard compares the lane with a size that shrinks as entries leave. */
    static method RetireLoop(list: Entries, head: RobIndex, size: nat)
      returns (headNext: RobIndex, sizeNext: nat, retired: seq<MicroOp>, recover: bool, uopRecover: MicroOp)
      requires size <= 64
      ensures var q := Queue(list, head, size);
              var (n, rec) := Scan(q, 0);
              && recover == rec && retired == q[..n] && |retired| <= COMMIT_WIDTH
              && (recover ==> uopRecover == q[n - 1] && headNext == 0 && sizeNext == 0)
              && (!recover ==> headNext == Slot(head, n) && sizeNext == size - n)
    {
      headNext, sizeNext, recover, uopRecover, retired := head, size, false, NO_UOP, [];
      ghost var q := Queue(list, head, size);
      assert Slot(head, 0) == head;
      hide Mispredicts, Slot, Queue;
      var i := 0;
      while i < COMMIT_WIDTH
        invariant 0 <= i <= COMMIT_WIDTH && i <= size
        invariant !recover && retired == q[..i]
        invariant headNext == Slot(head, i) && sizeNext == size - i
        invariant Scan(q, 0) == Scan(q, i)
      {
        if i >= sizeNext {
          break;
        }
        QueueAt(list, head, size, i);
        if list[Slot(head, i)].complete {
          headNext := Slot(head, i + 1);
          sizeNext := sizeNext - 1;
          var u := list[Slot(head, i)];
          retired := retired + [u];
          var miss := Misses(u);
          if miss {
            recover, uopRecover, headNext, sizeNext := true, u, 0, 0;
            break;
          }
        } else {
          break;
        }
        i := i + 1;
      }
    }

    static method Misses(u: MicroOp) returns (miss: bool)
      ensures miss == Mispredicts(u)
    {
      if u.inst.brType != BrX {
        if u.predTaken != u.brTaken {
          return true;
        }
        if u.brAddr != u.predAddr && u.predTaken {
          return true;
        }
      }
      return false;
    }

    static lemma QueueAt(list: Entries, head: RobIndex, size: nat, k: nat)
      requires k < size <= 64
      ensures Queue(list, head, size)[k] == list[Slot(head, k)]
    {
    }

    /** One lane of the allocation loop: it is stored while there is room, and dropped otherwise. */
    static method AllocateLane(list: Entries, head: RobIndex, size: nat, u: MicroOp)
      returns (next: Entries, sizeNext: nat, out: MicroOp)
      requires size <= 64
      ensures var taken := Taken(size, head, u);
              && sizeNext == size + |taken| && Queue(next, head, sizeNext) == Queue(list, head, size) + taken
              && out == OutLane(size, head, u)
    {
      next, sizeNext, out := list, size, NO_UOP;
      if size < ROB_SIZE {
        if u.valid {
          out := u.(robIndex := Slot(head, size));
          QueueAppend(list, head, size, out);
          next := list[Slot(head, size) := out];
          sizeNext := size + 1;
        }
      }
      hide Queue;
    }

    static method AllocatePhase(list: Entries, head: RobIndex, size: nat, uopIn: seq<MicroOp>)
      returns (next: Entries, sizeNext: nat, uopOut: seq<MicroOp>, allocatable: bool)
      requires size <= 64 && |uopIn| == RENAME_WIDTH
      ensures var r := Accept(size, head, uopIn);
              && sizeNext == size + |r| && Queue(next, head, sizeNext) == Queue(list, head, size) + r
              && uopOut == Placed(size, head, uopIn)
              && (allocatable <==> size + CountValid(uopIn[..3]) < 64)
    {
      hide Queue, CountValid, Accept, Slot, Placed, Taken, OutLane;
      next, sizeNext, uopOut, allocatable := list, size, [], true;
      AcceptNone(size, head, uopIn[..0]);
      for i := 0 to RENAME_WIDTH
        invariant uopOut == Placed(size, head, uopIn[..i])
        invariant var r := Accept(size, head, uopIn[..i]);
                  && sizeNext == size + |r|
                  && Queue(next, head, sizeNext) == Queue(list, head, size) + r
        invariant allocatable <==> i == 0 || size + CountValid(uopIn[..i - 1]) < 64
      {
        AcceptSnoc(size, head, uopIn, i);
        AcceptCount(size, head, uopIn[..i]);
        CountMonotone(uopIn, i);
        allocatable := allocatable && sizeNext < ROB_SIZE;
        var out;
        next, sizeNext, out := AllocateLane(next, head, sizeNext, uopIn[i]);
        uopOut := uopOut + [out];
      }
      assert uopIn[..RENAME_WIDTH] == uopIn;
    }
  }

  lemma AcceptNone(size: nat, head: RobIndex, us: seq<MicroOp>)
    requires size <= 64 && us == []
    ensures Accept(size, head, us) == [] && Placed(size, head, us) == []
  {
  }

  lemma AcceptSnoc(size: nat, head: RobIndex, us: seq<MicroOp>, i: nat)
    requires size <= 64 && i < |us|
    ensures var r := Accept(size, head, us[..i]);
            && Accept(size, head, us[..i + 1]) == r + Taken(size + |r|, head, us[i])
            && Placed(size, head, us[..i + 1]) ==
               Placed(size, head, us[..i]) + [OutLane(size + |r|, head, us[i])]
  {
    assert us[..i + 1][..i] == us[..i];
  }

  /** The valid output lanes are the accepted uops. */
  lemma {:induction false} PlacedAreAccepted(size: nat, head: RobIndex, us: seq<MicroOp>)
    ensures ValidOnly(Placed(size, head, us)) == Accept(size, head, us)
  {
    if us != [] {
      var us', u := us[..|us| - 1], us[|us| - 1];
      PlacedAreAccepted(size, head, us');
      ValidOnlySnoc(Placed(size, head, us'), OutLane(size + |Accept(size, head, us')|, head, u));
    }
  }

  lemma ValidOnlySnoc(us: seq<MicroOp>, u: MicroOp)
    ensures ValidOnly(us + [u]) == ValidOnly(us) + (if u.valid then [u] else [])
  {
    assert (us + [u])[..|us|] == us;
  }

  lemma CountMonotone(us: seq<MicroOp>, i: nat)
    requires i < |us|
    ensures i > 0 ==> CountValid(us[..i - 1]) <= CountValid(us[..i])
  {
    if i > 0 {
      assert us[..i][..i - 1] == us[..i - 1];
    }
  }

  function CompleteAll(list: Entries, cs: seq<MicroOp>): Entries {
    if cs == [] then list else
      var t := CompleteAll(list, cs[..|cs| - 1]);
      var c := cs[|cs| - 1];
      if c.valid then t[c.robIndex := c.(complete := true)] else t
  }

  lemma {:induction false} CompleteAt(list: Entries, cs: seq<MicroOp>, slot: RobIndex)
    ensures CompleteAll(list, cs)[slot] == Latest(cs, slot, list[slot])
  {
    if cs != [] {
      CompleteAt(list, cs[..|cs| - 1], slot);
    }
  }

  lemma CompleteIsQueue(list: Entries, head: RobIndex, size: nat, cs: seq<MicroOp>)
    requires size <= 64
    ensures Queue(CompleteAll(list, cs), head, size) == CompleteQueue(Queue(list, head, size), head, cs)
  {
    forall k | 0 <= k < size
      ensures Queue(CompleteAll(list, cs), head, size)[k] == CompleteQueue(Queue(list, head, size), head, cs)[k]
    {
      CompleteAt(list, cs, Slot(head, k));
    }
  }
}
