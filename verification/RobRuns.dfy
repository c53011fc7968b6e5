/**
 Runs of the reorder buffer (src/frontend/rob.sv). The accepted uops form epochs: a misprediction ends one and the next
 starts empty. Within an epoch the retired stream is a prefix of the accepted stream, whatever the order in which
 entries complete and however often the buffer wraps around.
 */
module RobRuns {
  import opened MicroOps
  import opened Robs

  /** What execution may change in a uop: the rest must come back as it was handed out. */
  function Strip(u: MicroOp): MicroOp {
    u.(complete := false, brTaken := false, brAddr := 0)
  }

  /** What the branch unit reports of a uop. */
  datatype Branch = Branch(taken: bool, addr: Word)

  function BranchOf(u: MicroOp): Branch {
    Branch(u.brTaken, u.brAddr)
  }

  /**
   `named[i]`: a completion has named accepted uop i while it was in flight; `reported[i]`: what the last such completion
   brought, and before the first what the uop was accepted with.
   */
  datatype Epoch = Epoch(accepted: seq<MicroOp>, named: seq<bool>, reported: seq<Branch>, retired: seq<MicroOp>)

  const NO_EPOCH := Epoch([], [], [], [])

  datatype History = History(queue: seq<MicroOp>, head: RobIndex, now: Epoch, past: seq<Epoch>)

  datatype Input = Input(completions: seq<MicroOp>, group: seq<MicroOp>)

  function Start(): History {
    History([], 0, NO_EPOCH, [])
  }

  ghost predicate Names(cs: seq<MicroOp>, slot: RobIndex) {
    exists j :: 0 <= j < |cs| && cs[j].valid && cs[j].robIndex == slot
  }

  /** The last completion that names a slot, -1 if there is none. */
  function LastNaming(cs: seq<MicroOp>, slot: RobIndex): (j: int)
    ensures -1 <= j < |cs| && (j >= 0 ==> cs[j].valid && cs[j].robIndex == slot)
    ensures forall k :: j < k < |cs| ==> !(cs[k].valid && cs[k].robIndex == slot)
  {
    if cs == [] then -1
    else if cs[|cs| - 1].valid && cs[|cs| - 1].robIndex == slot then |cs| - 1
    else LastNaming(cs[..|cs| - 1], slot)
  }

  /** The valid completions that name an in-flight entry return that entry, changed only by execution. */
  ghost predicate Returns(h: History, cs: seq<MicroOp>) {
    forall j, k :: 0 <= j < |cs| && cs[j].valid && 0 <= k < |h.queue| && cs[j].robIndex == Slot(h.head, k) ==>
                     Strip(cs[j]) == Strip(h.queue[k])
  }

  /** Nothing in the group is complete: decode clears the bit. */
  predicate Incomplete(us: seq<MicroOp>) {
    forall k :: 0 <= k < |us| ==> !us[k].complete
  }

  ghost predicate Honest(h: History, i: Input) {
    Incomplete(i.group) && Returns(h, i.completions)
  }

  ghost function Note(h: History, i: Input): (r: seq<bool>)
    ensures |r| == |h.now.named|
  {
    seq(|h.now.named|, n requires 0 <= n < |h.now.named| =>
      h.now.named[n] || (n >= |h.now.retired| && Names(i.completions, Slot(h.head, n - |h.now.retired|))))
  }

  /** The reports after the completions of this clock. */
  function Reports(h: History, i: Input): (r: seq<Branch>)
    ensures |r| == |h.now.reported|
  {
    seq(|h.now.reported|, n requires 0 <= n < |h.now.reported| => Report(h, i, n))
  }

  function Report(h: History, i: Input, n: nat): Branch
    requires n < |h.now.reported|
  {
    var j := if n >= |h.now.retired| then LastNaming(i.completions, Slot(h.head, n - |h.now.retired|)) else -1;
    if j >= 0 then BranchOf(i.completions[j]) else h.now.reported[n]
  }

  function Branches(us: seq<MicroOp>): (r: seq<Branch>)
    ensures |r| == |us|
  {
    seq(|us|, k requires 0 <= k < |us| => BranchOf(us[k]))
  }

  /** The epoch under way after this clock. */
  ghost function Grown(h: History, i: Input): Epoch {
    var o := Clock(h.queue, h.head, i.completions, i.group);
    Epoch(h.now.accepted + o.accepted, Note(h, i) + seq(|o.accepted|, n => false),
          Reports(h, i) + Branches(o.accepted), h.now.retired + o.retired)
  }

  ghost function Next(h: History, i: Input): History
  {
    var o := Clock(h.queue, h.head, i.completions, i.group);
    if o.recover then History(o.queue, o.head, NO_EPOCH, h.past + [Grown(h, i)])
    else History(o.queue, o.head, Grown(h, i), h.past)
  }

  // ---- What holds in every reachable history ----

  /**
   The retired uops are the first accepted ones, in order; each of them was completed after its acceptance and carries
   the branch outcome that its last completion brought.
   */
  ghost predicate RetiredInOrder(e: Epoch) {
    && |e.retired| <= |e.accepted| == |e.named| == |e.reported|
    && forall n :: 0 <= n < |e.retired| ==> RetiredWell(e, n)
  }

  ghost predicate RetiredWell(e: Epoch, n: nat)
    requires n < |e.retired| <= |e.accepted| == |e.named| == |e.reported|
  {
    && Strip(e.retired[n]) == Strip(e.accepted[n]) && e.named[n]
    && e.retired[n].brTaken == e.reported[n].taken && e.retired[n].brAddr == e.reported[n].addr
  }

  ghost predicate NoMispredict(us: seq<MicroOp>) {
    forall n :: 0 <= n < |us| ==> !Mispredicts(us[n])
  }

  /** A finished epoch: its last retired uop is its only mispredicted one. */
  ghost predicate Ended(e: Epoch) {
    && RetiredInOrder(e) && e.retired != []
    && Mispredicts(e.retired[|e.retired| - 1]) && NoMispredict(e.retired[..|e.retired| - 1])
  }

  /** The entries in flight are the accepted ones that have not retired; one is complete exactly if it was named. */
  ghost predicate InFlight(h: History) {
    && |h.now.accepted| == |h.now.retired| + |h.queue|
    && |h.now.named| == |h.now.reported| == |h.now.accepted|
    && forall k :: 0 <= k < |h.queue| ==>
         && Strip(h.queue[k]) == Strip(h.now.accepted[|h.now.retired| + k])
         && h.queue[k].complete == h.now.named[|h.now.retired| + k]
         && BranchOf(h.queue[k]) == h.now.reported[|h.now.retired| + k]
         && h.queue[k].valid
  }

  ghost predicate Good(h: History) {
    && |h.queue| <= 64 && IndexOk(h.queue, h.head) && InFlight(h)
    && RetiredInOrder(h.now) && NoMispredict(h.now.retired)
    && forall n :: 0 <= n < |h.past| ==> Ended(h.past[n])
  }

  lemma {:induction false} LatestCases(cs: seq<MicroOp>, slot: RobIndex, u: MicroOp)
    requires forall j :: 0 <= j < |cs| && cs[j].valid && cs[j].robIndex == slot ==> Strip(cs[j]) == Strip(u)
    ensures var r := Latest(cs, slot, u);
            Strip(r) == Strip(u) && (r.complete <==> u.complete || Names(cs, slot))
    ensures u.robIndex == slot ==> Latest(cs, slot, u).robIndex == slot
    ensures u.valid ==> Latest(cs, slot, u).valid
  {
    if cs != [] {
      var c, cs' := cs[|cs| - 1], cs[..|cs| - 1];
      LatestCases(cs', slot, u);
      if c.valid && c.robIndex == slot {
        assert Names(cs, slot);
      } else {
        assert Names(cs, slot) <==> Names(cs', slot) by {
          if Names(cs', slot) {
            var j :| 0 <= j < |cs'| && cs'[j].valid && cs'[j].robIndex == slot;
            assert cs[j].valid && cs[j].robIndex == slot;
          }
          if Names(cs, slot) {
            var j :| 0 <= j < |cs| && cs[j].valid && cs[j].robIndex == slot;
            assert cs'[j].valid && cs'[j].robIndex == slot;
          }
        }
      }
    }
  }

  /** The branch outcome of an entry is that of the last completion that names it. */
  lemma {:induction false} LatestBranch(cs: seq<MicroOp>, slot: RobIndex, u: MicroOp)
    ensures var j, r := LastNaming(cs, slot), Latest(cs, slot, u);
            BranchOf(r) == BranchOf(if j >= 0 then cs[j] else u)
  {
    if cs != [] {
      LatestBranch(cs[..|cs| - 1], slot, u);
    }
  }

  /** Completions change no entry but in its branch outcome and its completion bit. */
  ghost predicate DoneOk(h: History, i: Input, done: seq<MicroOp>)
    requires InFlight(h)
  {
    && |done| == |h.queue|
    && forall k :: 0 <= k < |done| ==>
         && Strip(done[k]) == Strip(h.now.accepted[|h.now.retired| + k])
         && done[k].complete == Note(h, i)[|h.now.retired| + k]
         && BranchOf(done[k]) == Reports(h, i)[|h.now.retired| + k]
         && done[k].valid && done[k].robIndex == Slot(h.head, k)
  }

  lemma CompleteKeeps(h: History, i: Input)
    requires Good(h) && Honest(h, i)
    ensures DoneOk(h, i, CompleteQueue(h.queue, h.head, i.completions))
  {
    hide Mispredicts, RetiredInOrder, Slot, Latest, Note, Reports, LastNaming, Names, BranchOf;
    var done := CompleteQueue(h.queue, h.head, i.completions);
    forall k | 0 <= k < |done|
      ensures Strip(done[k]) == Strip(h.now.accepted[|h.now.retired| + k])
      ensures done[k].complete == Note(h, i)[|h.now.retired| + k]
      ensures BranchOf(done[k]) == Reports(h, i)[|h.now.retired| + k]
      ensures done[k].valid && done[k].robIndex == Slot(h.head, k)
    {
      LatestCases(i.completions, Slot(h.head, k), h.queue[k]);
      LatestBranch(i.completions, Slot(h.head, k), h.queue[k]);
      NotedAt(h, i, k);
    }
  }

  lemma NotedAt(h: History, i: Input, k: nat)
    requires |h.now.retired| + k < |h.now.named| == |h.now.reported|
    ensures Note(h, i)[|h.now.retired| + k] <==>
            h.now.named[|h.now.retired| + k] || Names(i.completions, Slot(h.head, k))
    ensures var j := LastNaming(i.completions, Slot(h.head, k));
            Reports(h, i)[|h.now.retired| + k] ==
            if j >= 0 then BranchOf(i.completions[j]) else h.now.reported[|h.now.retired| + k]
  {
    hide Names, LastNaming, Slot;
  }

  lemma BranchFields(u: MicroOp)
    ensures BranchOf(u).taken == u.brTaken && BranchOf(u).addr == u.brAddr
  {
  }

  /** The retired entries extend the retired stream of the epoch. */
  lemma RetireKeeps(h: History, i: Input, now: Epoch, done: seq<MicroOp>, n: nat)
    requires Good(h) && DoneOk(h, i, done) && n <= |done|
    requires forall k :: 0 <= k < n ==> done[k].complete
    requires h.now.accepted <= now.accepted && Note(h, i) <= now.named && Reports(h, i) <= now.reported
    requires |now.named| == |now.reported| == |now.accepted|
    requires now.retired == h.now.retired + done[..n]
    ensures RetiredInOrder(now)
  {
    hide Mispredicts, Strip, Slot, Names, IndexOk, Ended, NoMispredict, Note, Reports, BranchOf;
    var r := |h.now.retired|;
    forall m | 0 <= m < |now.retired|
      ensures RetiredWell(now, m)
    {
      assert now.accepted[m] == h.now.accepted[m];
      assert now.named[m] == Note(h, i)[m] && now.reported[m] == Reports(h, i)[m];
      BranchFields(now.retired[m]);
      if m >= r {
        assert now.retired[m] == done[m - r];
      } else {
        Settled(h, i, m);
        assert RetiredWell(h.now, m);
      }
    }
  }

  /** Completions no longer reach a uop that has retired. */
  lemma Settled(h: History, i: Input, m: nat)
    requires m < |h.now.retired| && |h.now.retired| <= |h.now.named| == |h.now.reported|
    ensures h.now.named[m] ==> Note(h, i)[m]
    ensures Reports(h, i)[m] == h.now.reported[m]
  {
  }

  ghost predicate NewOk(new_: seq<MicroOp>, head: RobIndex, rest: nat) {
    forall k :: 0 <= k < |new_| ==> new_[k].valid && !new_[k].complete && new_[k].robIndex == Slot(head, rest + k)
  }

  lemma {:induction false} FlightKeeps(h: History, i: Input, h': History, done: seq<MicroOp>, n: nat, new_: seq<MicroOp>)
    requires Good(h) && DoneOk(h, i, done) && n <= |done|
    requires h'.now == Epoch(h.now.accepted + new_, Note(h, i) + seq(|new_|, m => false),
                             Reports(h, i) + Branches(new_), h.now.retired + done[..n])
    requires h'.queue == done[n..] + new_ && h'.head == Slot(h.head, n)
    requires NewOk(new_, h'.head, |done| - n)
    ensures InFlight(h') && IndexOk(h'.queue, h'.head)
  {
    hide Mispredicts, Strip, Names, RetiredInOrder, NoMispredict, Ended, Slot, IndexOk, Note, Reports, BranchOf;
    var r, rest := |h.now.retired|, |done| - n;
    forall k | 0 <= k < |h'.queue|
      ensures Strip(h'.queue[k]) == Strip(h'.now.accepted[r + n + k])
      ensures h'.queue[k].complete == h'.now.named[r + n + k]
      ensures BranchOf(h'.queue[k]) == h'.now.reported[r + n + k]
      ensures h'.queue[k].valid && h'.queue[k].robIndex == Slot(h'.head, k)
    {
      if k < rest {
        assert h'.queue[k] == done[n + k] && h'.now.accepted[r + n + k] == h.now.accepted[r + n + k];
        assert h'.now.named[r + n + k] == Note(h, i)[r + n + k];
        assert h'.now.reported[r + n + k] == Reports(h, i)[r + n + k];
        SlotSum(h.head, n, k);
      } else {
        assert h'.queue[k] == new_[k - rest] && h'.now.accepted[r + n + k] == new_[k - rest];
        assert !h'.now.named[r + n + k] && h'.now.reported[r + n + k] == Branches(new_)[k - rest];
      }
    }
    assert InFlight(h');
    IndexHolds(h'.queue, h'.head);
  }

  lemma IndexHolds(q: seq<MicroOp>, head: RobIndex)
    requires forall k :: 0 <= k < |q| ==> q[k].robIndex == Slot(head, k)
    ensures IndexOk(q, head)
  {
  }

  lemma AcceptShape(size: nat, head: RobIndex, us: seq<MicroOp>)
    requires size <= 64 && forall k :: 0 <= k < |us| ==> !us[k].complete
    ensures var r := Accept(size, head, us);
            NewOk(r, head, size)
  {
    AcceptKeeps(size, head, us);
    ValidOnlyFresh(us);
  }

  lemma {:induction false} ValidOnlyFresh(us: seq<MicroOp>)
    requires forall k :: 0 <= k < |us| ==> !us[k].complete
    ensures forall k :: 0 <= k < CountValid(us) ==> ValidOnly(us)[k].valid && !ValidOnly(us)[k].complete
  {
    if us != [] {
      ValidOnlyFresh(us[..|us| - 1]);
    }
  }

  lemma NextShape(h: History, i: Input)
    ensures var done := CompleteQueue(h.queue, h.head, i.completions);
            var (n, recover) := Scan(done, 0);
            var rest := done[n..];
            var new_ := if recover then [] else Accept(|rest|, Slot(h.head, n), i.group);
            var now := Epoch(h.now.accepted + new_, Note(h, i) + seq(|new_|, m => false),
                             Reports(h, i) + Branches(new_), h.now.retired + done[..n]);
            Next(h, i) == if recover then History([], 0, NO_EPOCH, h.past + [now])
                          else History(rest + new_, Slot(h.head, n), now, h.past)
  {
    hide CompleteQueue, Scan, Accept, Note, Reports, Slot;
  }

  /** One clock keeps the refinement. */
  lemma {:induction false} StepPreserves(h: History, i: Input)
    requires Good(h) && Honest(h, i)
    ensures Good(Next(h, i))
  {
    hide *;
    var done := CompleteQueue(h.queue, h.head, i.completions);
    var (n, recover) := Scan(done, 0);
    CompleteKeeps(h, i);
    GoodParts(h);
    assert |done| == |h.queue|;
    ScanStops(done, 0);
    NextShape(h, i);
    var h' := Next(h, i);
    var new_ := if recover then [] else Accept(|done| - n, Slot(h.head, n), i.group);
    var now := Epoch(h.now.accepted + new_, Note(h, i) + seq(|new_|, m => false),
                     Reports(h, i) + Branches(new_), h.now.retired + done[..n]);
    RetireKeeps(h, i, now, done, n);
    if recover {
      StartFlight(h');
      EpochEnds(h.now.retired, done, n, now);
    } else {
      FreshGroup(h, i);
      AcceptShape(|done| - n, Slot(h.head, n), i.group);
      FlightKeeps(h, i, h', done, n, new_);
      NoMissExtends(h.now.retired, done, n);
    }
    GoodAgain(h, h', now);
  }

  lemma GoodParts(h: History)
    requires Good(h)
    ensures InFlight(h) && |h.queue| <= 64 && RetiredInOrder(h.now) && NoMispredict(h.now.retired)
    ensures |h.now.named| == |h.now.reported| == |h.now.accepted| == |h.now.retired| + |h.queue|
  {
  }

  lemma NoMissExtends(retired: seq<MicroOp>, done: seq<MicroOp>, n: nat)
    requires NoMispredict(retired) && n <= |done| && forall k :: 0 <= k < n ==> !Mispredicts(done[k])
    ensures NoMispredict(retired + done[..n])
  {
    hide Mispredicts;
  }

  lemma EpochEnds(retired: seq<MicroOp>, done: seq<MicroOp>, n: nat, now: Epoch)
    requires NoMispredict(retired) && 0 < n <= |done| && now.retired == retired + done[..n] && RetiredInOrder(now)
    requires forall k :: 0 <= k < n ==> (Mispredicts(done[k]) <==> k == n - 1)
    ensures Ended(now)
  {
    hide Mispredicts, RetiredInOrder;
    NoMissExtends(retired, done, n - 1);
    assert now.retired[..|now.retired| - 1] == retired + done[..n - 1];
  }

  lemma GoodAgain(h: History, h': History, now: Epoch)
    requires Good(h) && InFlight(h') && IndexOk(h'.queue, h'.head) && |h'.queue| <= 64
    requires RetiredInOrder(h'.now) && NoMispredict(h'.now.retired)
    requires h'.past == h.past || (h'.past == h.past + [now] && Ended(now))
    ensures Good(h')
  {
    hide InFlight, IndexOk, RetiredInOrder, NoMispredict, Ended;
  }

  lemma StartFlight(h: History)
    requires h.now == NO_EPOCH && h.queue == []
    ensures InFlight(h) && RetiredInOrder(h.now) && NoMispredict(h.now.retired) && IndexOk(h.queue, h.head)
  {
  }

  lemma FreshGroup(h: History, i: Input)
    requires Honest(h, i)
    ensures forall k :: 0 <= k < |i.group| ==> !i.group[k].complete
  {
  }

  // ---- Runs ----

  ghost function Run(ins: seq<Input>): History {
    if ins == [] then Start() else Next(Run(ins[..|ins| - 1]), ins[|ins| - 1])
  }

  ghost predicate RunOk(ins: seq<Input>) {
    ins != [] ==> RunOk(ins[..|ins| - 1]) && Honest(Run(ins[..|ins| - 1]), ins[|ins| - 1])
  }

  /**
   In every run the retired stream of each epoch is a prefix of its accepted stream in program order, every retired
   uop was completed after it was accepted and carries the outcome of its last completion, nothing after a mispredicted branch retires, and each entry in flight
   sits at the slot named by its index.
   */
  lemma {:induction false} RunIsQueue(ins: seq<Input>)
    requires RunOk(ins)
    ensures Good(Run(ins))
  {
    if ins != [] {
      RunIsQueue(ins[..|ins| - 1]);
      StepPreserves(Run(ins[..|ins| - 1]), ins[|ins| - 1]);
    }
  }

  // ---- What is accepted, and progress ----

  /** The entries that may retire in one clock. */
  ghost predicate Retirable(q: seq<MicroOp>, k: nat) {
    && k < COMMIT_WIDTH && 2 * k < |q|
    && (forall j :: 0 <= j <= k ==> q[j].complete)
    && (forall j :: 0 <= j < k ==> !Mispredicts(q[j]))
  }

  /**
   Exactly the retirable entries retire. With n entries these are at most ceil(n / 2), because the guard compares the
   lane with a size that shrinks; the oldest entry is always among them once it is complete.
   */
  lemma {:induction false} RetiresExactly(q: seq<MicroOp>, i: nat, k: nat)
    requires i <= |q| && (i > 0 ==> Retirable(q, i - 1) && !Mispredicts(q[i - 1])) && k < |q|
    ensures k < Scan(q, i).0 <==> k < i || Retirable(q, k)
    decreases |q| - i
  {
    if !(i >= COMMIT_WIDTH || i >= |q| - i || !q[i].complete || Mispredicts(q[i])) {
      RetiresExactly(q, i + 1, k);
    }
  }

  /** A group enters whole, in order, exactly if it fits in what retirement leaves; a recovery takes nothing. */
  lemma GroupEntersExactlyIfItFits(q: seq<MicroOp>, head: RobIndex, i: Input)
    requires |q| <= 64
    ensures var o := Clock(q, head, i.completions, i.group);
            var left := |q| - |o.retired|;
            && (o.recover ==> o.accepted == [])
            && (!o.recover ==>
                 && |o.accepted| <= CountValid(i.group)
                 && (|o.accepted| == CountValid(i.group) <==> left + CountValid(i.group) <= 64)
                 && (forall k :: 0 <= k < |o.accepted| ==>
                       Strip(o.accepted[k]) == Strip(ValidOnly(i.group)[k].(robIndex := Slot(o.head, left + k)))))
  {
    hide CompleteQueue, Scan, Slot;
    var done := CompleteQueue(q, head, i.completions);
    var (n, recover) := Scan(done, 0);
    if !recover {
      AcceptCount(|done| - n, Slot(head, n), i.group);
      AcceptKeeps(|done| - n, Slot(head, n), i.group);
    }
  }

  // ---- A full buffer ----

  /** A group of one uop. */
  function Alone(u: MicroOp): seq<MicroOp> {
    [u, NO_UOP, NO_UOP, NO_UOP]
  }

  function Filling(u: MicroOp, n: nat): (ins: seq<Input>)
    ensures |ins| == n
  {
    seq(n, k => Input([], Alone(u)))
  }

  function Indexed(u: MicroOp, n: nat): (q: seq<MicroOp>)
    requires n <= 64
    ensures |q| == n
  {
    seq(n, k requires 0 <= k < n => u.(robIndex := k))
  }

  lemma AcceptAlone(size: nat, head: RobIndex, u: MicroOp)
    requires u.valid && size < 64
    ensures Accept(size, head, Alone(u)) == [u.(robIndex := Slot(head, size))]
  {
    hide Slot, Accept, Placed;
    var g := Alone(u);
    AcceptNone(size, head, g[..0]);
    AcceptSnoc(size, head, g, 0);
    AcceptSnoc(size, head, g, 1);
    AcceptSnoc(size, head, g, 2);
    AcceptSnoc(size, head, g, 3);
    assert g[..4] == g;
  }

  lemma NothingDone(q: seq<MicroOp>, head: RobIndex, us: seq<MicroOp>)
    requires Incomplete(q)
    ensures var o := Clock(q, head, [], us);
            && !o.recover && o.retired == [] && o.head == head && o.accepted == Accept(|q|, head, us)
            && o.queue == q + o.accepted
  {
    assert CompleteQueue(q, head, []) == q;
    assert Slot(head, 0) == head;
    assert q[0..] == q && q[..0] == [];
    hide Accept, Slot;
    ClockIs(q, head, [], us);
  }

  /** A reachable history: n uops have entered, and nothing has completed. */
  lemma {:induction false} Fills(u: MicroOp, n: nat)
    requires u.valid && !u.complete && n <= 64
    ensures var h := Run(Filling(u, n));
            RunOk(Filling(u, n)) && h.queue == Indexed(u, n) && h.head == 0
  {
    hide Next, Honest, Clock, Accept;
    if n > 0 {
      var ins := Filling(u, n);
      assert ins[..n - 1] == Filling(u, n - 1);
      Fills(u, n - 1);
      FillsOne(Run(ins[..n - 1]), u);
      assert Indexed(u, n) == Indexed(u, n - 1) + [u.(robIndex := n - 1)];
    }
  }

  lemma FillsOne(h: History, u: MicroOp)
    requires u.valid && !u.complete && |h.queue| < 64 && h.head == 0 && Incomplete(h.queue)
    ensures var i := Input([], Alone(u));
            && Honest(h, i)
            && Next(h, i).queue == h.queue + [u.(robIndex := |h.queue|)] && Next(h, i).head == 0
  {
    NothingDone(h.queue, 0, Alone(u));
    AcceptAlone(|h.queue|, 0, u);
    assert Slot(0, |h.queue|) == |h.queue|;
    hide Accept, Clock, Note;
  }

  /** A buffer filled up to one entry: of a group of two, one uop is lost, in a clock in which `allocatable` is low. */
  lemma {:induction false} FullBufferLosesUops(u: MicroOp)
    requires u.valid && !u.complete
    ensures var h := Run(Filling(u, 63));
            var o := Clock(h.queue, h.head, [], [u, u, NO_UOP, NO_UOP]);
            && RunOk(Filling(u, 63)) && |h.queue| == 63
            && !o.recover && o.retired == [] && CountValid([u, u, NO_UOP, NO_UOP]) == 2 && |o.accepted| == 1
            && 63 + CountValid([u, u, NO_UOP]) >= 64
  {
    Fills(u, 63);
    var h, g := Run(Filling(u, 63)), [u, u, NO_UOP, NO_UOP];
    NothingDone(h.queue, h.head, g);
    CountPair(u);
    AcceptCount(63, h.head, g);
  }

  lemma CountPair(u: MicroOp)
    requires u.valid
    ensures CountValid([u, u, NO_UOP]) == 2 && CountValid([u, u, NO_UOP, NO_UOP]) == 2
  {
    var a, b, c, d := [u], [u, u], [u, u, NO_UOP], [u, u, NO_UOP, NO_UOP];
    assert d[..3] == c && c[..2] == b && b[..1] == a && a[..0] == [];
    assert CountValid(a[..0]) == 0;
    assert CountValid(a) == 1;
    assert CountValid(b) == 2;
    assert CountValid(c) == 2;
  }
}
