/**
 Free list of physical registers (src/frontend/free_list.sv).

 The registers hold a speculative busy bitmap with its count of free registers, and the same pair for retired
 state. Every register is replaced as a whole at the clock edge by its next-state value, so the registers are
 fields of value type and one call of `Step` is one clock cycle.
 */
module FreeLists {
  import opened MicroOps
  import opened Selectors

  type Count6 = n: nat | n < 64

  datatype RetirePort = RetirePort(preValid: bool, pre: Prf, valid: bool, prf: Prf, arf: Arf)

  datatype FreeListState = FreeListState(busy: Bitmap, num: Count6, retiredBusy: Bitmap, retiredNum: Count6)

  function ResetBits(): Bitmap {
    seq(64, i => i == 0)
  }

  function FreeListReset(): FreeListState {
    FreeListState(ResetBits(), 63, ResetBits(), 63)
  }

  function RetireOne(s: FreeListState, p: RetirePort): FreeListState {
    var s1 := if p.preValid then
                FreeListState(s.busy[p.pre := false], (s.num + 1) % 64,
                              s.retiredBusy[p.pre := false], (s.retiredNum + 1) % 64)
              else s;
    if p.valid then s1.(retiredBusy := s1.retiredBusy[p.prf := true], retiredNum := (s1.retiredNum + 63) % 64)
    else s1
  }

  function RetireAll(s: FreeListState, ports: seq<RetirePort>): FreeListState {
    if ports == [] then s else RetireOne(RetireAll(s, ports[..|ports| - 1]), ports[|ports| - 1])
  }

  /** The lowest index from `i` on whose bit is zero, 64 when there is none. */
  function FirstFree(busy: Bitmap, i: nat): (k: nat)
    requires i <= 64
    ensures i <= k <= 64
    ensures k < 64 ==> !busy[k]
    ensures forall j :: i <= j < k ==> busy[j]
    decreases |busy| - i
  {
    if i == 64 || !busy[i] then i else FirstFree(busy, i + 1)
  }

  /** The register handed to a single request: the lowest free one, 0 when all are busy. */
  function LowestFree(busy: Bitmap): Prf {
    var k := FirstFree(busy, 0);
    if k < 64 then k else 0
  }

  /** One request served on its own. */
  function AllocateOne(s: FreeListState): FreeListState {
    s.(busy := s.busy[LowestFree(s.busy) := true], num := (s.num + 63) % 64)
  }

  /** Requests of a group served one after the other, each from the bitmap its predecessors left. */
  function AllocateAll(s: FreeListState, req: seq<bool>): FreeListState {
    if req == [] then s else
      var t := AllocateAll(s, req[..|req| - 1]);
      if req[|req| - 1] then AllocateOne(t) else t
  }

  function Granted(s: FreeListState, req: seq<bool>): (out: seq<Prf>)
    ensures |out| == |req|
  {
    if req == [] then [] else
      Granted(s, req[..|req| - 1]) +
      [if req[|req| - 1] then LowestFree(AllocateAll(s, req[..|req| - 1]).busy) else 0]
  }

  predicate CanAllocate(s: FreeListState, req: seq<bool>) {
    CountTrue(req) <= s.num
  }

  function Recovered(s: FreeListState): FreeListState {
    FreeListState(s.retiredBusy, s.retiredNum, s.retiredBusy, s.retiredNum)
  }

  function Next(s: FreeListState, recover: bool, ports: seq<RetirePort>, req: seq<bool>): FreeListState {
    var t := RetireAll(s, ports);
    if recover then Recovered(t) else if CanAllocate(t, req) then AllocateAll(t, req) else t
  }

  // ---- The one-pass search of the hardware against requests served one by one ----

  /** The first `n` free indices from `i` on, ascending. */
  function Picks(busy: Bitmap, i: nat, n: nat): (r: seq<Prf>)
    requires i <= 64
    ensures |r| <= n
    decreases |busy| - i
  {
    if n == 0 || i == 64 then [] else if busy[i] then Picks(busy, i + 1, n) else [i] + Picks(busy, i + 1, n - 1)
  }

  function PickAt(r: seq<Prf>, k: nat): Prf {
    if k < |r| then r[k] else 0
  }

  /** Marking the first pick busy and searching again gives the remaining picks. */
  lemma {:induction false} PicksAfterFirst(busy: Bitmap, i: nat, n: nat)
    requires i <= 64 && n > 0
    ensures var k := FirstFree(busy, i);
            if k < 64 then Picks(busy, i, n) == [k] + Picks(busy[k := true], i, n - 1)
            else Picks(busy, i, n) == []
    decreases |busy| - i
  {
    if i < 64 && busy[i] {
      PicksAfterFirst(busy, i + 1, n);
    } else if i < 64 {
      PicksSkip(busy, i + 1, n - 1, i);
      assert Picks(busy[i := true], i, n - 1) == Picks(busy[i := true], i + 1, n - 1);
    }
  }

  lemma {:induction false} PicksSkip(busy: Bitmap, i: nat, n: nat, k: nat)
    requires k < i <= 64
    ensures Picks(busy[k := true], i, n) == Picks(busy, i, n)
    decreases |busy| - i
  {
    if n > 0 && i < 64 {
      PicksSkip(busy, i + 1, n, k);
      PicksSkip(busy, i + 1, n - 1, k);
    }
  }

  lemma {:induction false} PicksEmpty(busy: Bitmap, i: nat, n: nat)
    requires i <= 64 && FirstFree(busy, i) == 64
    ensures Picks(busy, i, n) == []
    decreases |busy| - i
  {
    if n > 0 && i < 64 {
      PicksEmpty(busy, i + 1, n);
    }
  }

  /** Serving one request takes the first pick and leaves the others. */
  lemma PicksAfterOne(s: FreeListState, n: nat, k: nat)
    requires n > 0
    ensures PickAt(Picks(s.busy, 0, n), 0) == LowestFree(s.busy)
    ensures PickAt(Picks(s.busy, 0, n), k + 1) == PickAt(Picks(AllocateOne(s).busy, 0, n - 1), k)
  {
    PicksAfterFirst(s.busy, 0, n);
    if FirstFree(s.busy, 0) == 64 {
      assert s.busy[0 := true] == s.busy;
      PicksEmpty(s.busy, 0, n - 1);
    }
  }

  /** The picks a group has not used yet are the picks of the bitmap its requests have left. */
  lemma {:induction false} PicksAfterAll(s: FreeListState, req: seq<bool>, n: nat, k: nat)
    requires CountTrue(req) <= n
    ensures PickAt(Picks(s.busy, 0, n), CountTrue(req) + k) ==
            PickAt(Picks(AllocateAll(s, req).busy, 0, n - CountTrue(req)), k)
  {
    if req != [] {
      var r := req[..|req| - 1];
      var t, c := AllocateAll(s, r), CountTrue(r);
      if req[|req| - 1] {
        PicksAfterAll(s, r, n, k + 1);
        PicksAfterOne(t, n - c, k);
        assert AllocateAll(s, req) == AllocateOne(t) && CountTrue(req) == c + 1;
      } else {
        PicksAfterAll(s, r, n, k);
        assert AllocateAll(s, req) == t && CountTrue(req) == c;
      }
    }
  }

  /** The register a lane of the group gets from the one-pass search is its sequential grant. */
  lemma PickIsGrant(s: FreeListState, req: seq<bool>, n: nat)
    requires CountTrue(req) < n
    ensures PickAt(Picks(s.busy, 0, n), CountTrue(req)) == LowestFree(AllocateAll(s, req).busy)
  {
    PicksAfterAll(s, req, n, 0);
    PicksAfterOne(AllocateAll(s, req), n - CountTrue(req), 0);
  }

  class FreeList {
    var busy: Bitmap
    var num: Count6
    var retiredBusy: Bitmap
    var retiredNum: Count6

    function State(): FreeListState
      reads this
    {
      FreeListState(busy, num, retiredBusy, retiredNum)
    }

    constructor ()
      ensures State() == FreeListReset()
    {
      busy, num, retiredBusy, retiredNum := ResetBits(), 63, ResetBits(), 63;
    }

    /** One clock: free and retire, then grant the requests if enough registers are free; recovery overrides. */
    method Step(recover: bool, ports: seq<RetirePort>, req: seq<bool>)
      returns (prfOut: seq<Prf>, allocatable: bool)
      requires |ports| == COMMIT_WIDTH && |req| == RENAME_WIDTH
      modifies this
      ensures State() == Next(old(State()), recover, ports, req)
      ensures var t := RetireAll(old(State()), ports);
              allocatable == CanAllocate(t, req) &&
              prfOut == if allocatable then Granted(t, req) else [0, 0, 0, 0]
    {
      var next := RetirePhase(State(), ports);
      prfOut, allocatable, next := GrantPhase(next, req);
      if recover {
        RetiredPairUnchanged(RetireAll(State(), ports), req);
        busy, num, retiredBusy, retiredNum := next.retiredBusy, next.retiredNum, next.retiredBusy, next.retiredNum;
      } else {
        busy, num, retiredBusy, retiredNum := next.busy, next.num, next.retiredBusy, next.retiredNum;
      }
    }

    static lemma RetireSnoc(s: FreeListState, ports: seq<RetirePort>, i: nat)
      requires i < |ports|
      ensures RetireAll(s, ports[..i + 1]) == RetireOne(RetireAll(s, ports[..i]), ports[i])
      ensures RetireAll(s, []) == s
    {
      assert ports[..i + 1][..i] == ports[..i];
    }

    /** The loop over the retire ports. */
    static method RetirePhase(s: FreeListState, ports: seq<RetirePort>) returns (next: FreeListState)
      ensures next == RetireAll(s, ports)
    {
      next := s;
      for i := 0 to |ports|
        invariant next == RetireAll(s, ports[..i])
      {
        RetireSnoc(s, ports, i);
        hide RetireAll;
        if ports[i].preValid {
          next := next.(num := (next.num + 1) % 64, busy := next.busy[ports[i].pre := false]);
          next := next.(retiredNum := (next.retiredNum + 1) % 64,
                        retiredBusy := next.retiredBusy[ports[i].pre := false]);
        }
        if ports[i].valid {
          next := next.(retiredNum := (next.retiredNum + 63) % 64,
                        retiredBusy := next.retiredBusy[ports[i].prf := true]);
        }
      }
      assert ports[..|ports|] == ports;
    }

    /** Count the requests, search once, hand the found registers to the requesting lanes. */
    static method GrantPhase(t: FreeListState, req: seq<bool>)
      returns (prfOut: seq<Prf>, allocatable: bool, next: FreeListState)
      requires |req| == RENAME_WIDTH
      ensures allocatable == CanAllocate(t, req)
      ensures prfOut == if allocatable then Granted(t, req) else [0, 0, 0, 0]
      ensures next == if allocatable then AllocateAll(t, req) else t
    {
      next := t;
      var reqCount := CountBits(req);
      prfOut := [0, 0, 0, 0];
      allocatable := reqCount <= next.num;
      if allocatable {
        var picked := SearchFree(next.busy, reqCount);
        var busyNext := next.busy;
        var used := 0;
        prfOut := [];
        for i := 0 to RENAME_WIDTH
          invariant used == CountTrue(req[..i])
          invariant prfOut == Granted(t, req[..i])
          invariant busyNext == AllocateAll(t, req[..i]).busy
        {
          assert req[..i + 1][..i] == req[..i];
          CountWhole(req, i + 1);
          if req[i] {
            PickIsGrant(t, req[..i], reqCount);
            prfOut := prfOut + [picked[used]];
            busyNext := busyNext[picked[used] := true];
            used := used + 1;
          } else {
            prfOut := prfOut + [0];
          }
        }
        assert req[..RENAME_WIDTH] == req;
        AllocateAllNum(t, req);
        next := next.(busy := busyNext, num := (next.num - reqCount) % 64);
      }
    }

    /** The search loop: the lowest free indices, at most as many as asked for; unused entries stay 0. */
    static method SearchFree(busyNext: Bitmap, reqCount: nat) returns (picked: seq<Prf>)
      requires reqCount <= RENAME_WIDTH
      ensures |picked| == RENAME_WIDTH
      ensures forall k :: 0 <= k < reqCount ==> picked[k] == PickAt(Picks(busyNext, 0, reqCount), k)
    {
      hide Picks, PickAt, Searched;
      picked := [0, 0, 0, 0];
      var reqIdx := 0;
      var i := 0;
      SearchStart(busyNext, reqCount);
      while i < PRF_SIZE
        invariant 0 <= i <= PRF_SIZE && reqIdx <= reqCount && |picked| == RENAME_WIDTH
        invariant if i == 0 then reqIdx == 0 else reqIdx < reqCount
        invariant Searched(busyNext, reqCount, i, reqIdx, picked)
        decreases PRF_SIZE - i
      {
        SearchStep(busyNext, reqCount, i, reqIdx, picked);
        if !busyNext[i] {
          picked := picked[reqIdx := i];
          reqIdx := reqIdx + 1;
        }
        if reqIdx >= reqCount {
          if reqCount > 0 {
            SearchEnd(busyNext, reqCount, i + 1, reqIdx, picked);
          }
          return;
        }
        i := i + 1;
      }
      SearchEnd(busyNext, reqCount, i, reqIdx, picked);
    }
  }

  /** The search has reached index i and found r of n registers. */
  ghost predicate Searched(busy: Bitmap, n: nat, i: nat, r: nat, picked: seq<Prf>) {
    && i <= 64 && r <= n <= |picked|
    && Picks(busy, 0, n) == picked[..r] + Picks(busy, i, n - r)
    && forall k :: r <= k < |picked| ==> picked[k] == 0
  }

  lemma SearchStart(busy: Bitmap, n: nat)
    requires n <= RENAME_WIDTH
    ensures Searched(busy, n, 0, 0, [0, 0, 0, 0])
  {
    hide Picks;
  }

  lemma SearchStep(busy: Bitmap, n: nat, i: nat, r: nat, picked: seq<Prf>)
    requires Searched(busy, n, i, r, picked) && i < 64
    ensures busy[i] || r == n ==> Searched(busy, n, i + 1, r, picked)
    ensures !busy[i] && r < n ==> Searched(busy, n, i + 1, r + 1, picked[r := i])
  {
    if !busy[i] && r < n {
      assert picked[r := i][..r + 1] == picked[..r] + [i];
      assert Picks(busy, i, n - r) == [i] + Picks(busy, i + 1, n - r - 1);
    } else {
      assert Picks(busy, i, n - r) == Picks(busy, i + 1, n - r);
    }
    hide Picks;
  }

  lemma SearchEnd(busy: Bitmap, n: nat, i: nat, r: nat, picked: seq<Prf>)
    requires Searched(busy, n, i, r, picked) && (i == 64 || r == n)
    ensures forall k :: 0 <= k < n ==> picked[k] == PickAt(Picks(busy, 0, n), k)
  {
    assert Picks(busy, i, n - r) == [];
    hide Picks;
  }

  lemma RetiredPairUnchanged(s: FreeListState, req: seq<bool>)
    ensures var t := AllocateAll(s, req); t.retiredBusy == s.retiredBusy && t.retiredNum == s.retiredNum
  {
    AllocateAllNum(s, req);
  }

  /** Granting a group lowers the count by its number of requests and touches nothing of the retired pair. */
  lemma {:induction false} AllocateAllNum(s: FreeListState, req: seq<bool>)
    ensures AllocateAll(s, req) == s.(busy := AllocateAll(s, req).busy, num := (s.num - CountTrue(req)) % 64)
  {
    if req != [] {
      AllocateAllNum(s, req[..|req| - 1]);
    }
  }
}
