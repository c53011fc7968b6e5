/**
 Memory issue queue (src/backend/issue_queue_mem.sv): a compressing queue of 16 slots from which one uop leaves per
 clock. Its slots refine a list in program order.
 */
module IssueQueueMems {
  import opened MicroOps
  import opened Selectors

  const IQ_MEM_SIZE := 16

  type Slots = s: seq<MicroOp> | |s| == 16 witness seq(16, i => NO_UOP)
  type SlotBits = s: seq<bool> | |s| == 16 witness seq(16, i => false)

  predicate IsStore(u: MicroOp) {
    u.inst.memType == MemSt
  }

  /** Bit i of the store mask: the slots held back because of the first store. */
  function StoreMask(isStore: SlotBits, i: nat): bool {
    var k := FirstTrue(isStore, 0);
    k < IQ_MEM_SIZE && (if k == 0 then i >= 1 else i >= k)
  }

  /** The selected slot, -1 when none may issue. */
  function Select(ready: SlotBits, isStore: SlotBits): int {
    var k := FirstTrue(seq(16, i requires 0 <= i < 16 => ready[i] && !StoreMask(isStore, i)), 0);
    if k < IQ_MEM_SIZE then k else -1
  }

  /** A slot of the queue may issue before the others exactly when no ordering with a store is broken. */
  ghost predicate Permitted(isStore: SlotBits, k: int) {
    0 <= k < IQ_MEM_SIZE && (isStore[k] ==> k == 0) && forall j :: 0 <= j < k ==> !isStore[j]
  }

  /** The selector picks the oldest ready slot that may issue, and picks none only if there is none. */
  lemma SelectIsOldestPermitted(ready: SlotBits, isStore: SlotBits)
    ensures var k := Select(ready, isStore);
            && (k >= 0 ==> Permitted(isStore, k) && ready[k])
            && (forall j :: Permitted(isStore, j) && ready[j] ==> 0 <= k <= j)
  {
    var s := FirstTrue(isStore, 0);
    forall j | 0 <= j < IQ_MEM_SIZE
      ensures !StoreMask(isStore, j) <==> Permitted(isStore, j)
    {
      assert s < j ==> isStore[s];
    }
    var masked: SlotBits := seq(16, i requires 0 <= i < 16 => ready[i] && !StoreMask(isStore, i));
    var k := FirstTrue(masked, 0);
    forall j | Permitted(isStore, j) && ready[j]
      ensures k <= j
    {
      assert masked[j];
    }
  }

  function RemoveAt<T>(s: seq<T>, k: int): seq<T>
    requires k < |s|
  {
    if k < 0 then s else s[..k] + s[k + 1..]
  }

  class IssueQueueMem {
    var slots: Slots
    var isNew: SlotBits
    var tail: nat
    var freeCount: nat
    /** What has happened since the last clear. */
    ghost var steps: seq<Arrival>

    predicate Packing()
      reads this
    {
      && tail <= IQ_MEM_SIZE && freeCount == IQ_MEM_SIZE - tail
      && (forall k :: 0 <= k < tail ==> slots[k].valid)
      && (forall k :: tail <= k < IQ_MEM_SIZE ==> slots[k] == NO_UOP)
    }

    /** The slots hold, in order, the uops that wait after these steps. */
    ghost predicate Valid()
      reads this
    {
      Packing() && HasRoom(steps) && InRange(Run(steps)) && Contents() == Shown(Run(steps))
    }

    /** The uops waiting, in program order. */
    function Contents(): seq<MicroOp>
      reads this
      requires Packing()
    {
      slots[..tail]
    }

    function Ready(rs1Busy: SlotBits, rs2Busy: SlotBits): SlotBits
      reads this
    {
      seq(16, k requires 0 <= k < 16 reads this => !rs1Busy[k] && !rs2Busy[k] && !isNew[k] && slots[k].valid)
    }

    function Stores(): SlotBits
      reads this
    {
      seq(16, k requires 0 <= k < 16 reads this => IsStore(slots[k]))
    }

    constructor ()
      ensures Valid() && Contents() == []
    {
      slots, isNew := seq(16, i => NO_UOP), seq(16, i => false);
      tail, freeCount := 0, IQ_MEM_SIZE;
      steps := [];
    }

    /** What slot k takes over: a loaded uop, or what it or its right neighbour held; slot 16 reads as empty. */
    function Incoming(k: nat, sel: int, loadEn: bool, uopIn: seq<MicroOp>): (MicroOp, bool)
      reads this
      requires k < IQ_MEM_SIZE && |uopIn| == DISPATCH_WIDTH
    {
      var lane := k - tail + (if sel >= 0 then 1 else 0);
      if 0 <= lane < DISPATCH_WIDTH && loadEn && uopIn[lane].valid then (uopIn[lane], true)
      else if sel >= 0 && k >= sel then (if k + 1 < IQ_MEM_SIZE then slots[k + 1] else NO_UOP, false)
      else (slots[k], false)
    }

    /** One clock. A group with valid uops needs room for them and the load signal. */
    method Step(clearEn: bool, loadEn: bool, rs1Busy: SlotBits, rs2Busy: SlotBits, uopIn: seq<MicroOp>)
      returns (uopOut: MicroOp, iqFull: bool)
      requires Valid() && |uopIn| == DISPATCH_WIDTH && Packed(uopIn)
      requires CountValid(uopIn) > 0 ==> loadEn
      requires CountValid(uopIn) <= freeCount
      modifies this
      ensures Valid()
      ensures var sel := old(Select(Ready(rs1Busy, rs2Busy), Stores()));
              && sel < old(tail)
              && uopOut == (if sel >= 0 then old(Contents())[sel] else NO_UOP)
              && Contents() == (if clearEn then [] else RemoveAt(old(Contents()), sel) + ValidOnly(uopIn))
              && (!clearEn ==> iqFull == (freeCount < DISPATCH_WIDTH))
      ensures tail + freeCount == IQ_MEM_SIZE
      ensures steps == if clearEn then []
                       else old(steps) + [Arrival(old(Ready(rs1Busy, rs2Busy)), ValidOnly(uopIn))]
      ensures uopOut.valid ==>
                exists k :: 0 <= k < IQ_MEM_SIZE && uopOut == old(slots)[k] &&
                            !rs1Busy[k] && !rs2Busy[k] && !old(isNew)[k]
      ensures forall k :: 0 <= k < IQ_MEM_SIZE && old(slots)[k].valid && !rs1Busy[k] && !rs2Busy[k] && !old(isNew)[k] &&
                          (old(slots)[k].inst.memType == MemSt ==> k == 0) &&
                          (forall j :: 0 <= j < k ==> old(slots)[j].inst.memType != MemSt) ==>
                uopOut.valid && exists j :: 0 <= j <= k && uopOut == old(slots)[j]
      ensures forall k :: 0 <= k < IQ_MEM_SIZE ==> isNew[k] == (!clearEn && tail - CountValid(uopIn) <= k < tail)
    {
      hide HasRoom, Run, Shown, InRange, Select, Ready, Stores, RemoveAt, Packed, CountValid, ValidOnly, Clock, Chosen;
      ghost var t, a := Run(steps), Arrival(Ready(rs1Busy, rs2Busy), ValidOnly(uopIn));
      SelectsChosen(t, rs1Busy, rs2Busy);
      SelectsAwake(rs1Busy, rs2Busy);
      ShownClock(t, a);
      uopOut, iqFull := Advance(clearEn, loadEn, rs1Busy, rs2Busy, uopIn);
      steps := if clearEn then [] else steps + [a];
      if clearEn {
        NoSteps();
      } else {
        RunSnoc(old(steps), a);
      }
    }

    /** On the fields: a slot that is selected is awake, and an awake slot that may go first is not passed over. */
    lemma SelectsAwake(rs1Busy: SlotBits, rs2Busy: SlotBits)
      requires Packing()
      ensures var sel := Select(Ready(rs1Busy, rs2Busy), Stores());
              && (sel >= 0 ==> slots[sel].valid && !rs1Busy[sel] && !rs2Busy[sel] && !isNew[sel])
              && (forall k :: 0 <= k < IQ_MEM_SIZE && slots[k].valid && !rs1Busy[k] && !rs2Busy[k] && !isNew[k] &&
                              (slots[k].inst.memType == MemSt ==> k == 0) &&
                              (forall j :: 0 <= j < k ==> slots[j].inst.memType != MemSt) ==>
                    0 <= sel <= k)
    {
      var ready, isStore := Ready(rs1Busy, rs2Busy), Stores();
      SelectIsOldestPermitted(ready, isStore);
      forall k | 0 <= k < IQ_MEM_SIZE && slots[k].valid && !rs1Busy[k] && !rs2Busy[k] && !isNew[k] &&
                 (slots[k].inst.memType == MemSt ==> k == 0) &&
                 (forall j :: 0 <= j < k ==> slots[j].inst.memType != MemSt)
        ensures 0 <= Select(ready, isStore) <= k
      {
        assert Permitted(isStore, k) && ready[k];
      }
      hide Select, Permitted;
    }

    lemma SelectsValid(rs1Busy: SlotBits, rs2Busy: SlotBits)
      requires Packing()
      ensures var sel := Select(Ready(rs1Busy, rs2Busy), Stores());
              -1 <= sel < tail && (sel >= 0 ==> slots[sel].valid && Contents()[sel] == slots[sel])
    {
      var ready := Ready(rs1Busy, rs2Busy);
      SelectIsOldestPermitted(ready, Stores());
      assert Select(ready, Stores()) >= -1;
      hide Select, Permitted;
    }

    method Advance(clearEn: bool, loadEn: bool, rs1Busy: SlotBits, rs2Busy: SlotBits, uopIn: seq<MicroOp>)
      returns (uopOut: MicroOp, iqFull: bool)
      requires Packing() && |uopIn| == DISPATCH_WIDTH && Packed(uopIn)
      requires CountValid(uopIn) > 0 ==> loadEn
      requires CountValid(uopIn) <= freeCount
      modifies `slots, `isNew, `tail, `freeCount
      ensures Packing()
      ensures var sel := old(Select(Ready(rs1Busy, rs2Busy), Stores()));
              && sel < old(tail)
              && uopOut == (if sel >= 0 then old(Contents())[sel] else NO_UOP)
              && Contents() == (if clearEn then [] else RemoveAt(old(Contents()), sel) + ValidOnly(uopIn))
              && (!clearEn ==> iqFull == (freeCount < DISPATCH_WIDTH))
      ensures tail + freeCount == IQ_MEM_SIZE
      ensures forall k :: 0 <= k < IQ_MEM_SIZE ==> isNew[k] == (!clearEn && tail - CountValid(uopIn) <= k < tail)
    {
      PackedPrefix(uopIn);
      var ready, isStore := Ready(rs1Busy, rs2Busy), Stores();
      SelectsValid(rs1Busy, rs2Busy);
      var sel := Select(ready, isStore);
      hide Ready, Stores, Select, Permitted, CountValid, ValidOnly, Packed, Incoming, RemoveAt;
      var inCount := CountValid(uopIn);
      var outCount := if sel >= 0 then 1 else 0;
      uopOut := if sel >= 0 then slots[sel] else NO_UOP;
      var free := freeCount - inCount + outCount;
      iqFull := free < DISPATCH_WIDTH;
      if clearEn {
        slots, isNew := seq(16, i => NO_UOP), seq(16, i => false);
        tail, freeCount := 0, IQ_MEM_SIZE;
      } else {
        ghost var want := RemoveAt(Contents(), sel) + ValidOnly(uopIn);
        var nextSlots, nextNew := ShiftAndLoad(sel, loadEn, uopIn);
        NextIsList(sel, loadEn, uopIn, nextSlots, nextNew);
        slots, isNew := nextSlots, nextNew;
        tail, freeCount := tail + inCount - outCount, free;
        assert tail == |want|;
      }
    }

    lemma NextIsList(sel: int, loadEn: bool, uopIn: seq<MicroOp>, nextSlots: Slots, nextNew: SlotBits)
      requires Packing() && |uopIn| == DISPATCH_WIDTH && Packed(uopIn) && sel < tail
      requires CountValid(uopIn) > 0 ==> loadEn
      requires CountValid(uopIn) <= freeCount
      requires forall k :: 0 <= k < IQ_MEM_SIZE ==> (nextSlots[k], nextNew[k]) == Incoming(k, sel, loadEn, uopIn)
      ensures var want := RemoveAt(Contents(), sel) + ValidOnly(uopIn);
              && |want| == tail + CountValid(uopIn) - (if sel >= 0 then 1 else 0) <= IQ_MEM_SIZE
              && nextSlots[..|want|] == want
              && (forall k :: 0 <= k < |want| ==> nextSlots[k].valid)
              && (forall k :: |want| <= k < IQ_MEM_SIZE ==> nextSlots[k] == NO_UOP)
              && (forall k :: 0 <= k < IQ_MEM_SIZE ==> nextNew[k] == (|want| - CountValid(uopIn) <= k < |want|))
    {
      SlotsAreList(sel, loadEn, uopIn);
      hide Incoming, ValidOnly, CountValid, Packed;
      var want := RemoveAt(Contents(), sel) + ValidOnly(uopIn);
      forall k | 0 <= k < IQ_MEM_SIZE
        ensures nextSlots[k] == Incoming(k, sel, loadEn, uopIn).0 && nextNew[k] == Incoming(k, sel, loadEn, uopIn).1
      {
        assert (nextSlots[k], nextNew[k]).0 == Incoming(k, sel, loadEn, uopIn).0;
      }
    }

    /** The slots and the list of waiting uops select the same entry. */
    lemma SelectsChosen(t: Traffic, rs1Busy: SlotBits, rs2Busy: SlotBits)
      requires Packing() && InRange(t) && Contents() == Shown(t)
      ensures Chosen(t, Ready(rs1Busy, rs2Busy)) == Select(Ready(rs1Busy, rs2Busy), Stores())
    {
      hide Select;
      var ready := Ready(rs1Busy, rs2Busy);
      forall k | 0 <= k < IQ_MEM_SIZE
        ensures Stores()[k] == StoreBits(t)[k] && ready[k] == (ready[k] && k < |t.waiting|)
      {
        if k < tail {
          assert Contents()[k] == slots[k] && Shown(t)[k] == slots[k];
        }
      }
      assert Stores() == StoreBits(t);
      assert ready == seq(16, k requires 0 <= k < 16 => ready[k] && k < |t.waiting|);
    }

    /** Of the uops that have issued since the last clear, those that must keep their order have kept it. */
    lemma IssuedInOrder(i: nat, b: nat)
      requires Valid()
      requires b < |Run(steps).issued| && MustPrecede(Run(steps).dispatched, i, Run(steps).issued[b])
      ensures exists a :: 0 <= a < b && Run(steps).issued[a] == i
    {
      IssueOrder(steps, i, b);
    }

    /** All slots at once: load where a lane points, else keep or compress. */
    method ShiftAndLoad(sel: int, loadEn: bool, uopIn: seq<MicroOp>) returns (nextSlots: Slots, nextNew: SlotBits)
      requires |uopIn| == DISPATCH_WIDTH
      ensures forall k :: 0 <= k < IQ_MEM_SIZE ==> (nextSlots[k], nextNew[k]) == Incoming(k, sel, loadEn, uopIn)
    {
      nextSlots, nextNew := slots, isNew;
      for k := 0 to IQ_MEM_SIZE
        invariant forall j :: 0 <= j < k ==> (nextSlots[j], nextNew[j]) == Incoming(j, sel, loadEn, uopIn)
      {
        var (u, fresh_) := Incoming(k, sel, loadEn, uopIn);
        nextSlots, nextNew := nextSlots[k := u], nextNew[k := fresh_];
      }
    }

    /** The incoming values are the list with the issued uop removed and the group appended, then empty slots. */
    lemma SlotsAreList(sel: int, loadEn: bool, uopIn: seq<MicroOp>)
      requires Packing() && |uopIn| == DISPATCH_WIDTH && Packed(uopIn) && sel < tail
      requires CountValid(uopIn) > 0 ==> loadEn
      requires CountValid(uopIn) <= freeCount
      ensures var want := RemoveAt(Contents(), sel) + ValidOnly(uopIn);
              && |want| == tail + CountValid(uopIn) - (if sel >= 0 then 1 else 0) <= IQ_MEM_SIZE
              && (forall k :: 0 <= k < |want| ==> Incoming(k, sel, loadEn, uopIn).0 == want[k] && want[k].valid)
              && (forall k :: |want| <= k < IQ_MEM_SIZE ==> Incoming(k, sel, loadEn, uopIn).0 == NO_UOP)
              && (forall k :: 0 <= k < IQ_MEM_SIZE ==>
                    Incoming(k, sel, loadEn, uopIn).1 == (|want| - CountValid(uopIn) <= k < |want|))
    {
      PackedPrefix(uopIn);
      var kept, n := RemoveAt(Contents(), sel), CountValid(uopIn);
      var want := kept + ValidOnly(uopIn);
      forall k | 0 <= k < |want|
        ensures Incoming(k, sel, loadEn, uopIn).0 == want[k] && want[k].valid
      {
        if k >= |kept| {
          assert want[k] == uopIn[k - |kept|];
        }
      }
    }
  }

  // ---- Issue order over whole runs ----

  /** All memory uops dispatched since the last clear, which of them wait (in queue order) and which have issued. */
  datatype Traffic = Traffic(dispatched: seq<MicroOp>, waiting: seq<nat>, issued: seq<nat>)

  /** One clock: which slots have their sources ready, and the uops that arrive. */
  datatype Arrival = Arrival(ready: SlotBits, group: seq<MicroOp>)

  predicate InRange(t: Traffic) {
    |t.waiting| <= IQ_MEM_SIZE && forall a :: 0 <= a < |t.waiting| ==> t.waiting[a] < |t.dispatched|
  }

  function StoreAt(t: Traffic, k: nat): bool {
    k < |t.waiting| && t.waiting[k] < |t.dispatched| && IsStore(t.dispatched[t.waiting[k]])
  }

  function StoreBits(t: Traffic): SlotBits {
    seq(16, k requires 0 <= k < 16 => StoreAt(t, k))
  }

  function Chosen(t: Traffic, ready: SlotBits): (k: int)
    ensures k < |t.waiting|
  {
    var bits: SlotBits := seq(16, k requires 0 <= k < 16 => ready[k] && k < |t.waiting|);
    SelectIsOldestPermitted(bits, StoreBits(t));
    Select(bits, StoreBits(t))
  }

  function Leave(t: Traffic, k: int): Traffic
    requires k < |t.waiting|
  {
    Traffic(t.dispatched, RemoveAt(t.waiting, k), if k >= 0 then t.issued + [t.waiting[k]] else t.issued)
  }

  function Enter(t: Traffic, group: seq<MicroOp>): Traffic {
    Traffic(t.dispatched + group, t.waiting + Fresh(|t.dispatched|, |group|), t.issued)
  }

  function Clock(t: Traffic, a: Arrival): Traffic {
    Enter(Leave(t, Chosen(t, a.ready)), a.group)
  }

  /** The waiting uops, oldest first: what the slots of the queue hold. */
  function Shown(t: Traffic): (r: seq<MicroOp>)
    requires InRange(t)
    ensures |r| == |t.waiting|
  {
    seq(|t.waiting|, i requires 0 <= i < |t.waiting| => t.dispatched[t.waiting[i]])
  }

  lemma ShownLeave(t: Traffic, k: int)
    requires InRange(t) && k < |t.waiting|
    ensures InRange(Leave(t, k)) && Shown(Leave(t, k)) == RemoveAt(Shown(t), k)
  {
    RemoveAtIs(t.waiting, k);
    RemoveAtIs(Shown(t), k);
    hide RemoveAt;
  }

  lemma RemoveAtIs<T>(s: seq<T>, k: int)
    requires k < |s|
    ensures |RemoveAt(s, k)| == if k < 0 then |s| else |s| - 1
    ensures forall a :: 0 <= a < |RemoveAt(s, k)| ==> RemoveAt(s, k)[a] == s[if k < 0 || a < k then a else a + 1]
  {
  }

  lemma ShownEnter(t: Traffic, group: seq<MicroOp>)
    requires InRange(t) && |t.waiting| + |group| <= IQ_MEM_SIZE
    ensures InRange(Enter(t, group)) && Shown(Enter(t, group)) == Shown(t) + group
  {
    var u := Enter(t, group);
    forall a | 0 <= a < |u.waiting|
      ensures u.waiting[a] < |u.dispatched| && u.dispatched[u.waiting[a]] == (Shown(t) + group)[a]
    {
      if a < |t.waiting| {
        assert u.waiting[a] == t.waiting[a];
      } else {
        assert u.waiting[a] == |t.dispatched| + (a - |t.waiting|);
      }
    }
  }

  /** A step of the list is, on the uops it shows, the removal of the chosen entry and the arrival of the group. */
  lemma ShownClock(t: Traffic, a: Arrival)
    requires InRange(t)
    ensures var u := Clock(t, a);
            && |u.waiting| == |RemoveAt(Shown(t), Chosen(t, a.ready))| + |a.group|
            && (|u.waiting| <= IQ_MEM_SIZE ==>
                  InRange(u) && Shown(u) == RemoveAt(Shown(t), Chosen(t, a.ready)) + a.group)
  {
    hide Chosen, Shown, InRange, Enter, Leave, RemoveAt;
    var k := Chosen(t, a.ready);
    ShownLeave(t, k);
    ClockRoom(t, a);
    if |Leave(t, k).waiting| + |a.group| <= IQ_MEM_SIZE {
      ShownEnter(Leave(t, k), a.group);
    }
  }

  lemma NoSteps()
    ensures HasRoom([]) && InRange(Run([])) && Shown(Run([])) == []
  {
  }

  lemma RunSnoc(steps: seq<Arrival>, a: Arrival)
    requires HasRoom(steps) && |Clock(Run(steps), a).waiting| <= IQ_MEM_SIZE
    ensures HasRoom(steps + [a]) && Run(steps + [a]) == Clock(Run(steps), a)
  {
    hide Clock;
    assert (steps + [a])[..|steps|] == steps;
  }

  /** Any two positions of which one holds a store are in program order. */
  ghost predicate StoreOrdered(d: seq<MicroOp>, o: seq<nat>) {
    && (forall a :: 0 <= a < |o| ==> o[a] < |d|)
    && (forall a, b :: 0 <= a < b < |o| && (IsStore(d[o[a]]) || IsStore(d[o[b]])) ==> o[a] < o[b])
  }

  ghost predicate Once(n: nat, o: seq<nat>) {
    && (forall a, b :: 0 <= a < b < |o| ==> o[a] != o[b])
    && (forall i :: 0 <= i < n ==> i in o)
  }

  ghost predicate Ascending(o: seq<nat>) {
    forall a, b :: 0 <= a < b < |o| ==> o[a] < o[b]
  }

  ghost predicate TrafficOk(t: Traffic) {
    && |t.waiting| <= IQ_MEM_SIZE
    && Ascending(t.waiting)
    && StoreOrdered(t.dispatched, t.issued + t.waiting)
    && Once(|t.dispatched|, t.issued + t.waiting)
  }

  /** Where position a of the list with entry k moved forward to n comes from, and the way back. */
  function Moved(a: nat, n: nat, k: nat): nat {
    if a == n then k else if n < a <= k then a - 1 else a
  }

  function MovedBack(a: nat, n: nat, k: nat): nat {
    if a == k then n else if n <= a < k then a + 1 else a
  }

  lemma LeaveMoves(t: Traffic, k: nat)
    requires k < |t.waiting|
    ensures var n, o, t' := |t.issued|, t.issued + t.waiting, Leave(t, k);
            var o' := t'.issued + t'.waiting;
            && |o'| == |o|
            && (forall a :: 0 <= a < |o| ==> o'[a] == o[Moved(a, n, n + k)])
            && (forall a :: 0 <= a < |o| ==> o[a] == o'[MovedBack(a, n, n + k)])
  {
  }

  /** Moving entry p forward to n past entries that are not stores, a store not at all, keeps store order. */
  lemma MoveKeepsOrder(d: seq<MicroOp>, o: seq<nat>, o': seq<nat>, n: nat, p: nat)
    requires StoreOrdered(d, o) && n <= p < |o| == |o'|
    requires forall a :: 0 <= a < |o| ==> o'[a] == o[Moved(a, n, p)]
    requires IsStore(d[o[p]]) ==> p == n
    requires forall x :: n <= x < p ==> !IsStore(d[o[x]])
    ensures StoreOrdered(d, o')
  {
    forall a, b | 0 <= a < b < |o'| && (IsStore(d[o'[a]]) || IsStore(d[o'[b]]))
      ensures o'[a] < o'[b]
    {
      var x, y := Moved(a, n, p), Moved(b, n, p);
      assert o'[a] == o[x] && o'[b] == o[y];
      assert y < x ==> x == p && n <= y;
    }
  }

  lemma MoveKeepsOnce(m: nat, o: seq<nat>, o': seq<nat>, n: nat, p: nat)
    requires Once(m, o) && n <= p < |o| == |o'|
    requires forall a :: 0 <= a < |o| ==> o'[a] == o[Moved(a, n, p)]
    requires forall a :: 0 <= a < |o| ==> o[a] == o'[MovedBack(a, n, p)]
    ensures Once(m, o')
  {
    forall i | 0 <= i < m
      ensures i in o'
    {
      assert i in o;
      var a :| 0 <= a < |o| && o[a] == i;
      assert o'[MovedBack(a, n, p)] == i;
    }
    forall a, b | 0 <= a < b < |o'|
      ensures o'[a] != o'[b]
    {
      var x, y := Moved(a, n, p), Moved(b, n, p);
      assert x != y && (x < y || y < x);
      assert o'[a] == o[x] && o'[b] == o[y];
    }
  }

  /** The combined order seen from the waiting list. */
  lemma WaitingStores(t: Traffic, k: nat)
    requires StoreOrdered(t.dispatched, t.issued + t.waiting) && k < |t.waiting|
    requires StoreAt(t, k) ==> k == 0
    requires forall j :: 0 <= j < k ==> !StoreAt(t, j)
    ensures var o, n := t.issued + t.waiting, |t.issued|;
            && (IsStore(t.dispatched[o[n + k]]) ==> k == 0)
            && (forall x :: n <= x < n + k ==> !IsStore(t.dispatched[o[x]]))
  {
    var o, n := t.issued + t.waiting, |t.issued|;
    assert forall x :: n <= x < |o| ==> o[x] == t.waiting[x - n] && StoreAt(t, x - n) == IsStore(t.dispatched[o[x]]);
  }

  lemma LeaveAscending(t: Traffic, k: nat)
    requires Ascending(t.waiting) && k < |t.waiting|
    ensures Ascending(Leave(t, k).waiting) && |Leave(t, k).waiting| == |t.waiting| - 1
  {
  }

  lemma LeaveOrder(t: Traffic, k: nat, m: nat)
    requires StoreOrdered(t.dispatched, t.issued + t.waiting) && Once(m, t.issued + t.waiting) && Ascending(t.waiting)
    requires k < |t.waiting| && (StoreAt(t, k) ==> k == 0)
    requires forall j :: 0 <= j < k ==> !StoreAt(t, j)
    ensures var t' := Leave(t, k);
            && StoreOrdered(t.dispatched, t'.issued + t'.waiting) && Once(m, t'.issued + t'.waiting)
            && Ascending(t'.waiting) && |t'.waiting| == |t.waiting| - 1
  {
    hide Moved, MovedBack, Once, StoreOrdered, Ascending;
    var d, n, o, t' := t.dispatched, |t.issued|, t.issued + t.waiting, Leave(t, k);
    LeaveMoves(t, k);
    LeaveAscending(t, k);
    WaitingStores(t, k);
    MoveKeepsOrder(d, o, t'.issued + t'.waiting, n, n + k);
    MoveKeepsOnce(m, o, t'.issued + t'.waiting, n, n + k);
  }

  lemma LeaveKeeps(t: Traffic, k: nat)
    requires TrafficOk(t) && k < |t.waiting|
    requires StoreAt(t, k) ==> k == 0
    requires forall j :: 0 <= j < k ==> !StoreAt(t, j)
    ensures TrafficOk(Leave(t, k))
  {
    LeaveOrder(t, k, |t.dispatched|);
  }

  function Fresh(n: nat, c: nat): (r: seq<nat>)
    ensures |r| == c
  {
    seq(c, i => n + i)
  }

  lemma FreshOrder(d: seq<MicroOp>, o: seq<nat>, group: seq<MicroOp>)
    requires StoreOrdered(d, o)
    ensures StoreOrdered(d + group, o + Fresh(|d|, |group|))
  {
    var o' := o + Fresh(|d|, |group|);
    assert forall a :: 0 <= a < |o'| ==> o'[a] < |d| + |group| && (a < |o| <==> o'[a] < |d|);
  }

  lemma FreshOnce(n: nat, o: seq<nat>, c: nat)
    requires Once(n, o) && forall a :: 0 <= a < |o| ==> o[a] < n
    ensures Once(n + c, o + Fresh(n, c))
  {
    var o' := o + Fresh(n, c);
    forall i | 0 <= i < n + c
      ensures i in o'
    {
      if i < n {
        assert i in o;
      } else {
        assert o'[|o| + i - n] == i;
      }
    }
  }

  lemma EnterKeeps(t: Traffic, group: seq<MicroOp>)
    requires TrafficOk(t) && |t.waiting| + |group| <= IQ_MEM_SIZE
    ensures TrafficOk(Enter(t, group))
  {
    var o, fresh_ := t.issued + t.waiting, Fresh(|t.dispatched|, |group|);
    WaitingInRange(t);
    AscendingFresh(t.waiting, |t.dispatched|, |group|);
    FreshOrder(t.dispatched, o, group);
    FreshOnce(|t.dispatched|, o, |group|);
    assert t.issued + (t.waiting + fresh_) == o + fresh_;
    hide StoreOrdered, Once, Ascending, Fresh;
  }

  lemma WaitingInRange(t: Traffic)
    requires StoreOrdered(t.dispatched, t.issued + t.waiting)
    ensures forall a :: 0 <= a < |t.waiting| ==> t.waiting[a] < |t.dispatched|
    ensures forall a :: 0 <= a < |t.issued + t.waiting| ==> (t.issued + t.waiting)[a] < |t.dispatched|
  {
    var o := t.issued + t.waiting;
    assert forall a :: 0 <= a < |t.waiting| ==> t.waiting[a] == o[|t.issued| + a];
  }

  lemma AscendingFresh(o: seq<nat>, n: nat, c: nat)
    requires Ascending(o) && forall a :: 0 <= a < |o| ==> o[a] < n
    ensures Ascending(o + Fresh(n, c))
  {
  }

  lemma ClockKeepsTraffic(t: Traffic, a: Arrival)
    requires TrafficOk(t) && |Leave(t, Chosen(t, a.ready)).waiting| + |a.group| <= IQ_MEM_SIZE
    ensures TrafficOk(Clock(t, a))
  {
    var k := Chosen(t, a.ready);
    var bits: SlotBits := seq(16, i requires 0 <= i < 16 => a.ready[i] && i < |t.waiting|);
    SelectIsOldestPermitted(bits, StoreBits(t));
    hide Select, Once, StoreOrdered, Ascending;
    if k >= 0 {
      assert StoreBits(t)[k] == StoreAt(t, k);
      assert forall j :: 0 <= j < k ==> StoreBits(t)[j] == StoreAt(t, j);
      LeaveKeeps(t, k);
    }
    EnterKeeps(Leave(t, k), a.group);
  }

  function Run(steps: seq<Arrival>): Traffic {
    if steps == [] then Traffic([], [], []) else Clock(Run(steps[..|steps| - 1]), steps[|steps| - 1])
  }

  /** Groups arrive only when there is room, which the full signal guarantees. */
  ghost predicate HasRoom(steps: seq<Arrival>) {
    steps == [] || (HasRoom(steps[..|steps| - 1]) && |Run(steps).waiting| <= IQ_MEM_SIZE)
  }

  lemma {:induction false} RunKeepsTraffic(steps: seq<Arrival>)
    requires HasRoom(steps)
    ensures TrafficOk(Run(steps))
  {
    hide TrafficOk, Clock;
    if steps != [] {
      RunKeepsTraffic(steps[..|steps| - 1]);
      assert |Run(steps).waiting| <= IQ_MEM_SIZE;
      ClockRoom(Run(steps[..|steps| - 1]), steps[|steps| - 1]);
      ClockKeepsTraffic(Run(steps[..|steps| - 1]), steps[|steps| - 1]);
    } else {
      EmptyTraffic();
    }
  }

  lemma ClockRoom(t: Traffic, a: Arrival)
    ensures |Clock(t, a).waiting| == |Leave(t, Chosen(t, a.ready)).waiting| + |a.group|
  {
  }

  lemma EmptyTraffic()
    ensures TrafficOk(Traffic([], [], []))
  {
  }

  /** `i` is an older memory uop than `j` and one of them is a store. */
  predicate MustPrecede(d: seq<MicroOp>, i: nat, j: nat) {
    i < j < |d| && (IsStore(d[i]) || IsStore(d[j]))
  }

  /**
   Over every run, every issued memory uop was preceded by all program-order-older memory uops of which it or the
   older one is a store.
   */
  lemma IssueOrder(steps: seq<Arrival>, i: nat, b: nat)
    requires HasRoom(steps)
    requires b < |Run(steps).issued| && MustPrecede(Run(steps).dispatched, i, Run(steps).issued[b])
    ensures exists a :: 0 <= a < b && Run(steps).issued[a] == i
  {
    hide Run, TrafficOk;
    RunKeepsTraffic(steps);
    TrafficOrder(Run(steps), i, b);
  }

  lemma TrafficOrder(t: Traffic, i: nat, b: nat)
    requires TrafficOk(t) && b < |t.issued| && MustPrecede(t.dispatched, i, t.issued[b])
    ensures exists a :: 0 <= a < b && t.issued[a] == i
  {
    var o := t.issued + t.waiting;
    assert i in o;
    var a :| 0 <= a < |o| && o[a] == i;
    assert o[b] == t.issued[b];
    assert t.issued[a] == i;
  }
}
