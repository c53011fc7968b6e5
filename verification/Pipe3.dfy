/**
 The load/store pipe (`pipe_3` of src/backend/execution_unit.sv): it holds one memory uop, shows it to the data cache
 and extends what a load returns.
 */
module Pipe3s {
  import opened Arithmetics
  import opened MicroOps
  import opened Memories
  import opened Selectors
  import opened Sequential
  import opened StoreBuffers
  import OutOfOrder

  /** What the pipe shows to the data cache. */
  datatype Request = Request(addr: Word, data: Word, we: bool, size: MemSize)

  const NO_REQUEST := Request(0, 0, false, MemByte)

  datatype PipeState = PipeState(busy: bool, isLd: bool, isLdu: bool, isSt: bool, uop: MicroOp, req: Request)
  {
    predicate Complete(dataValid: bool) {
      ((isLd || isLdu) && dataValid) || isSt
    }
  }

  datatype PipeInput = PipeInput(uop: MicroOp, in1: Word, in2: Word, dataValid: bool)
  {
    predicate Valid() {
      uop.valid && uop.inst.fuCode == FuMem
    }

    function Req(): Request {
      Request(Add32(in1, uop.inst.imm), in2, uop.inst.memType == MemSt, uop.inst.memSize)
    }
  }

  function Idle(): PipeState {
    PipeState(false, false, false, false, NO_UOP, NO_REQUEST)
  }

  function NextPipe(s: PipeState, clear: bool, i: PipeInput): PipeState {
    var t := if i.Valid() then s.(isLd := i.uop.inst.memType == MemLd, isLdu := i.uop.inst.memType == MemLdu,
                                  isSt := i.uop.inst.memType == MemSt) else s;
    if clear then t.(busy := false, uop := NO_UOP, req := NO_REQUEST)
    else if (!s.busy || s.Complete(i.dataValid)) && i.Valid() then t.(busy := true, uop := i.uop, req := i.Req())
    else if s.busy && s.Complete(i.dataValid) && !i.Valid() then t.(busy := false, uop := NO_UOP, req := NO_REQUEST)
    else t
  }

  /** The 64-bit load result: the bytes of the access, extended with their sign for a signed load. */
  function Extended(d: seq<Byte>, size: MemSize, signed: bool): nat
    requires |d| == 8
  {
    var low: int := d[0];
    var half: int := low + 0x100 * d[1] as int;
    var word: int := half + 0x1_0000 * d[2] as int + 0x100_0000 * d[3] as int;
    var high: int := d[4] as int + 0x100 * d[5] as int + 0x1_0000 * d[6] as int + 0x100_0000 * d[7] as int;
    match size
    case MemByte => if signed && low >= 0x80 then low + 0xFFFF_FFFF_FFFF_FF00 else low
    case MemHalf => if signed && half >= 0x8000 then half + 0xFFFF_FFFF_FFFF_0000 else half
    case MemWord => if signed && word >= 0x8000_0000 then word + 0xFFFF_FFFF_0000_0000 else word
    case MemDword => word + TWO_32 * high
  }

  /** The recorded kind is that of the uop held. */
  predicate Kinds(s: PipeState) {
    s.busy ==>
      && s.isLd == (s.uop.inst.memType == MemLd) && s.isLdu == (s.uop.inst.memType == MemLdu)
      && s.isSt == (s.uop.inst.memType == MemSt)
  }

  class Pipe3 {
    var busy: bool
    var isLd: bool
    var isLdu: bool
    var isSt: bool
    var uop: MicroOp
    var req: Request

    function State(): PipeState
      reads this
    {
      PipeState(busy, isLd, isLdu, isSt, uop, req)
    }

    constructor ()
      ensures State() == Idle()
    {
      busy, isLd, isLdu, isSt, uop, req := false, false, false, false, NO_UOP, NO_REQUEST;
    }

    method Step(clear: bool, i: PipeInput)
      modifies this
      ensures State() == NextPipe(old(State()), clear, i)
      ensures !clear && i.uop.valid && i.uop.inst.fuCode == FuMem &&
              (!old(busy) || old(isSt) || ((old(isLd) || old(isLdu)) && i.dataValid)) ==>
                && busy && uop == i.uop
                && req.addr == (i.in1 + i.uop.inst.imm) % TWO_32 && req.data == i.in2
                && (req.we <==> i.uop.inst.memType == MemSt) && req.size == i.uop.inst.memSize
      ensures !clear && old(busy) && !old(isSt) && !((old(isLd) || old(isLdu)) && i.dataValid) ==>
                busy && uop == old(uop) && req == old(req)
      ensures clear ==> !busy
      ensures !clear && !(i.uop.valid && i.uop.inst.fuCode == FuMem) &&
              (!old(busy) || old(isSt) || ((old(isLd) || old(isLdu)) && i.dataValid)) ==>
                !busy
    {
      hide Add32;
      var inputValid := i.uop.valid && i.uop.inst.fuCode == FuMem;
      var complete := ((isLd || isLdu) && i.dataValid) || isSt;
      if inputValid {
        isLd, isLdu, isSt := i.uop.inst.memType == MemLd, i.uop.inst.memType == MemLdu, i.uop.inst.memType == MemSt;
      }
      if clear {
        busy, uop, req := false, NO_UOP, NO_REQUEST;
      } else if (!busy || (busy && complete)) && inputValid {
        busy, uop := true, i.uop;
        req := Request(Add32(i.in1, i.uop.inst.imm), i.in2, i.uop.inst.memType == MemSt, i.uop.inst.memSize);
      } else if busy && complete && !inputValid {
        busy, uop, req := false, NO_UOP, NO_REQUEST;
      }
      assert State() == NextPipe(old(State()), clear, i);
      NextFields(old(State()), i);
      hide NextPipe;
    }

    static lemma NextFields(s: PipeState, i: PipeInput)
      ensures var t := NextPipe(s, false, i);
              && (Taken(s, i) ==>
                    && t.busy && t.uop == i.uop
                    && t.req.addr == (i.in1 + i.uop.inst.imm) % TWO_32 && t.req.data == i.in2
                    && (t.req.we <==> i.uop.inst.memType == MemSt) && t.req.size == i.uop.inst.memSize)
              && (s.busy && !s.Complete(i.dataValid) ==> t.busy && t.uop == s.uop && t.req == s.req)
              && (!i.Valid() && (!s.busy || s.Complete(i.dataValid)) ==> !t.busy)
      ensures !NextPipe(s, true, i).busy
    {
    }

    /** The result of this clock: zero unless a load is held and its data have come. */
    method Out(dataValid: bool, d: seq<Byte>) returns (out: Word)
      requires |d| == 8
      ensures busy && dataValid && Kinds(State()) && uop.inst.memType != MemSt ==> out == LoadValue(uop.inst, d)
      ensures !(busy && dataValid && (isLd || isLdu)) ==> out == 0
    {
      var dataOut := 0;
      if busy && dataValid {
        if isLd {
          dataOut := Extended(d, uop.inst.memSize, true);
        }
        if isLdu {
          dataOut := Extended(d, uop.inst.memSize, false);
        }
      }
      out := dataOut % TWO_32;
      if uop.inst.memType != MemSt {
        ExtendedIsLoadValue(uop.inst, d, uop.inst.memType == MemLd);
      }
      hide Extended, LoadValue;
    }
  }

  /** The low half of it is the load result of the in-order machine. */
  lemma ExtendedIsLoadValue(i: Inst, d: seq<Byte>, signed: bool)
    requires |d| == 8 && i.memType == (if signed then MemLd else MemLdu)
    ensures Extended(d, i.memSize, signed) % TWO_32 == LoadValue(i, d)
  {
    var low: int := d[0];
    var half: int := low + 0x100 * d[1] as int;
    var word: int := half + 0x1_0000 * d[2] as int + 0x100_0000 * d[3] as int;
    var high: int := d[4] as int + 0x100 * d[5] as int + 0x1_0000 * d[6] as int + 0x100_0000 * d[7] as int;
    match i.memSize
    case MemByte => LowHalf(low + 0xFFFF_FF00, 0xFFFF_FFFF);
    case MemHalf => LowHalf(half + 0xFFFF_0000, 0xFFFF_FFFF);
    case MemWord => LowHalf(word, 0xFFFF_FFFF);
    case MemDword => LowHalf(word, high);
  }

  lemma LowHalf(low: nat, high: nat)
    ensures low < TWO_32 ==> (low + TWO_32 * high) % TWO_32 == low
  {
  }

  // ---- Requests ----

  /** An input that the pipe takes. */
  predicate Taken(s: PipeState, i: PipeInput) {
    i.uop.valid && i.uop.inst.fuCode == FuMem && (!s.busy || s.Complete(i.dataValid))
  }

  /** With the operands of an in-order state the pipe asks for what the in-order machine accesses. */
  lemma {:induction false} RequestIsInOrder(s: PipeState, i: PipeInput, a: Arch)
    requires Taken(s, i) && i.uop.inst.iqCode == IqMem
    requires i.in1 == Op1(a, i.uop.inst) && i.in2 == Op2(a, i.uop.inst)
    ensures var t := NextPipe(s, false, i);
            && t.busy && t.uop == i.uop && t.req.we == IsStoreInst(i.uop.inst)
            && StoreReq(t.req.addr, t.req.data, t.req.size) == Sequential.Request(a, i.uop.inst)
  {
    hide Op1, Op2;
  }

  /** What the pipe asks for is what the memory events of the whole core use. */
  lemma {:induction false} RequestIsAccess(s: PipeState, i: PipeInput, c: OutOfOrder.Core)
    requires Taken(s, i) && OutOfOrder.Serves(c) && i.uop == c.log[c.pipe[0]]
    requires i.in1 == c.st[c.pipe[0]].a && i.in2 == c.st[c.pipe[0]].b
    ensures var t := NextPipe(s, false, i);
            StoreReq(t.req.addr, t.req.data, t.req.size) == OutOfOrder.AccessRequest(c)
  {
  }

  // ---- Runs ----

  datatype PipeTick = PipeTick(clear: bool, i: PipeInput)

  /**
   The pipe and, since the last clear: the requests that arrived, for each of them whether it was taken (no other one was
   held without being complete), and the requests that the data cache completed.
   */
  datatype PipeRun = PipeRun(s: PipeState, arrived: seq<Request>, taken: seq<bool>, completed: seq<Request>)

  predicate Blocked(s: PipeState, i: PipeInput) {
    s.busy && !s.Complete(i.dataValid)
  }

  function AfterTick(r: PipeRun, t: PipeTick): PipeRun {
    var s := NextPipe(r.s, t.clear, t.i);
    if t.clear then PipeRun(s, [], [], []) else
      PipeRun(s,
              if t.i.Valid() then r.arrived + [t.i.Req()] else r.arrived,
              if t.i.Valid() then r.taken + [!Blocked(r.s, t.i)] else r.taken,
              if r.s.busy && r.s.Complete(t.i.dataValid) then r.completed + [r.s.req] else r.completed)
  }

  function RunPipe(ticks: seq<PipeTick>): PipeRun {
    if ticks == [] then PipeRun(Idle(), [], [], []) else AfterTick(RunPipe(ticks[..|ticks| - 1]), ticks[|ticks| - 1])
  }

  function Held(s: PipeState): seq<Request> {
    if s.busy then [s.req] else []
  }

  /**
   In every run, exactly the blocked requests are lost: the others, and no other ones, are completed or held, each once
   and in order of arrival.
   */
  lemma {:induction false} CompletedInOrder(ticks: seq<PipeTick>)
    ensures var r := RunPipe(ticks);
            && |r.taken| == |r.arrived|
            && r.completed + Held(r.s) == Filter(r.arrived, r.taken)
            && ((forall k :: 0 <= k < |r.taken| ==> r.taken[k]) ==> Kinds(r.s))
  {
    hide NextPipe, AfterTick, Kinds, Blocked, Filter, Idle;
    if ticks != [] {
      CompletedInOrder(ticks[..|ticks| - 1]);
      TickKeepsOrder(RunPipe(ticks[..|ticks| - 1]), ticks[|ticks| - 1]);
    } else {
      PipeStart();
    }
  }

  ghost predicate InOrder(r: PipeRun) {
    && |r.taken| == |r.arrived|
    && r.completed + Held(r.s) == Filter(r.arrived, r.taken)
    && ((forall k :: 0 <= k < |r.taken| ==> r.taken[k]) ==> Kinds(r.s))
  }

  lemma PipeStart()
    ensures InOrder(RunPipe([])) && RunPipe([]) == PipeRun(Idle(), [], [], [])
  {
  }

  lemma TickKeepsOrder(r: PipeRun, t: PipeTick)
    requires InOrder(r)
    ensures InOrder(AfterTick(r, t))
  {
    TickShape(r, t);
    hide NextPipe, AfterTick, Kinds, Blocked, Filter, Held;
    var r' := AfterTick(r, t);
    if t.clear {
      FilterNone(r'.arrived, r'.taken);
    } else if t.i.Valid() {
      FilterSnoc(r.arrived, r.taken, t.i.Req(), !Blocked(r.s, t.i));
      assert r'.taken[|r.taken|] == !Blocked(r.s, t.i) && forall k :: 0 <= k < |r.taken| ==> r'.taken[k] == r.taken[k];
    }
  }

  lemma FilterNone(rs: seq<Request>, b: seq<bool>)
    requires rs == [] && b == []
    ensures Filter(rs, b) == []
  {
  }

  lemma FilterSnoc(rs: seq<Request>, b: seq<bool>, r: Request, c: bool)
    requires |rs| == |b|
    ensures Filter(rs + [r], b + [c]) == Filter(rs, b) + if c then [r] else []
  {
    assert (rs + [r])[..|rs|] == rs && (b + [c])[..|b|] == b;
  }

  lemma TickShape(r: PipeRun, t: PipeTick)
    ensures var r' := AfterTick(r, t);
            if t.clear then r'.completed == r'.arrived == Held(r'.s) == [] && r'.taken == []
            else if t.i.Valid() then
              && r'.completed + Held(r'.s) == r.completed + Held(r.s) + (if Blocked(r.s, t.i) then [] else [t.i.Req()])
              && r'.arrived == r.arrived + [t.i.Req()] && r'.taken == r.taken + [!Blocked(r.s, t.i)]
            else
              r'.completed + Held(r'.s) == r.completed + Held(r.s) && r'.arrived == r.arrived && r'.taken == r.taken
    ensures t.clear ==> Kinds(AfterTick(r, t).s)
    ensures Kinds(r.s) && !(t.i.Valid() && Blocked(r.s, t.i)) ==> Kinds(AfterTick(r, t).s)
  {
  }

  /** A held uop is of one of the three kinds, so with data that come at once every request takes exactly one clock. */
  lemma {:induction false} NothingBlocked(ticks: seq<PipeTick>)
    requires forall k :: 0 <= k < |ticks| ==> ticks[k].i.dataValid
    ensures var r := RunPipe(ticks);
            (forall k :: 0 <= k < |r.taken| ==> r.taken[k]) && (r.s.busy ==> r.s.Complete(true))
  {
    if ticks != [] {
      NothingBlocked(ticks[..|ticks| - 1]);
    }
  }

  /** Without data, a store that arrives behind a load ends the load, and is itself lost. */
  lemma StoreBehindWaitingLoad(load: MicroOp, store: MicroOp)
    requires load.valid && load.inst.fuCode == FuMem && load.inst.memType == MemLd
    requires store.valid && store.inst.fuCode == FuMem && store.inst.memType == MemSt
    ensures var a, b := PipeInput(load, 0, 0, false), PipeInput(store, 0, 0, false);
            var held := NextPipe(NextPipe(Idle(), false, a), false, b);
            held.busy && held.uop == load && held.Complete(false)
  {
  }
}
