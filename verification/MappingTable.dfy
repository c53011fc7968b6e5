/**
 Mapping table and register alias table (src/frontend/mapping_table.sv, src/frontend/rat.sv).

 `RetireUop`, `RenameUop` and `Recovered` are the effects of one uop; `Cycle` is the clock of the hardware, which
 retires up to six and renames up to four uops at once. `MappingTable.Step` performs the loops of the source and is
 proved to have the effect of `Cycle`; every property of renaming is then proved about single uops.
 */
module MappingTables {
  import opened MicroOps
  import opened FreeLists
  import opened Selectors

  datatype RatState = RatState(
    map_: MapTable, rRat: MapTable, valid: ArfBits, recoverValid: ArfBits, free: FreeListState)

  /** One lane of the rename ports, and what it gets back. */
  datatype RenameReq = RenameReq(rdValid: bool, rs1: Arf, rs2: Arf, rd: Arf)
  datatype RenameOut = RenameOut(prs1: Prf, prs2: Prf, prd: Prf, prev: Prf, prevValid: bool)

  const NO_OUT := RenameOut(0, 0, 0, 0, false)

  function ResetMap(): MapTable {
    seq(32, i => 0)
  }

  function ResetValid(): ArfBits {
    seq(32, i => i == 0)
  }

  function RatReset(): RatState {
    RatState(ResetMap(), ResetMap(), ResetValid(), ResetValid(), FreeListReset())
  }

  function Port(u: MicroOp): RetirePort {
    if u.valid then RetirePort(u.prevValid, u.prevPrf, u.inst.rdValid, u.rdPrf, u.inst.rd)
    else RetirePort(false, 0, false, 0, 0)
  }

  function Req(u: MicroOp): RenameReq {
    if u.valid then RenameReq(u.inst.rdValid, u.inst.rs1, u.inst.rs2, u.inst.rd) else RenameReq(false, 0, 0, 0)
  }

  function Fill(u: MicroOp, o: RenameOut): MicroOp {
    u.(rs1Prf := o.prs1, rs2Prf := o.prs2, rdPrf := o.prd, prevPrf := o.prev, prevValid := o.prevValid)
  }

  // ---- Effect of one uop ----

  function RetirePortOne(s: RatState, p: RetirePort): RatState {
    s.(rRat := if p.valid then s.rRat[p.arf := p.prf] else s.rRat,
       recoverValid := if p.valid then s.recoverValid[p.arf := true] else s.recoverValid,
       free := RetireOne(s.free, p))
  }

  function Lookup(m: MapTable, r: Arf): Prf {
    if r == 0 then 0 else m[r]
  }

  function RenameReqOne(s: RatState, q: RenameReq): RatState {
    if q.rdValid then
      s.(map_ := s.map_[q.rd := LowestFree(s.free.busy)], valid := s.valid[q.rd := true],
         free := AllocateOne(s.free))
    else s
  }

  function RenameReqOut(s: RatState, q: RenameReq): RenameOut {
    if q.rdValid then
      RenameOut(Lookup(s.map_, q.rs1), Lookup(s.map_, q.rs2), LowestFree(s.free.busy), s.map_[q.rd], s.valid[q.rd])
    else RenameOut(Lookup(s.map_, q.rs1), Lookup(s.map_, q.rs2), 0, 0, false)
  }

  function RetireUop(s: RatState, u: MicroOp): RatState {
    RetirePortOne(s, Port(u))
  }

  function RenameUop(s: RatState, u: MicroOp): RatState {
    RenameReqOne(s, Req(u))
  }

  function Renamed(s: RatState, u: MicroOp): MicroOp {
    Fill(u, RenameReqOut(s, Req(u)))
  }

  function Recover(s: RatState): RatState {
    RatState(s.rRat, s.rRat, s.recoverValid, s.recoverValid, Recovered(s.free))
  }

  /**
   What renaming writes into a uop: sources from the map, 0 for register 0; a destination gets the lowest register that is
   not busy, and the uop remembers the register it replaces; without one nothing is taken. The rest stays.
   */
  lemma {:induction false} RenamedFields(s: RatState, u: MicroOp)
    requires u.valid && exists p: Prf :: !s.free.busy[p]
    ensures var v, t := Renamed(s, u), RenameUop(s, u);
            && v == u.(rs1Prf := v.rs1Prf, rs2Prf := v.rs2Prf, rdPrf := v.rdPrf, prevPrf := v.prevPrf,
                       prevValid := v.prevValid)
            && v.rs1Prf == (if u.inst.rs1 == 0 then 0 else s.map_[u.inst.rs1])
            && v.rs2Prf == (if u.inst.rs2 == 0 then 0 else s.map_[u.inst.rs2])
            && (if u.inst.rdValid then
                  && !s.free.busy[v.rdPrf] && (forall p :: 0 <= p < v.rdPrf ==> s.free.busy[p])
                  && t.free.busy == s.free.busy[v.rdPrf := true] && t.map_ == s.map_[u.inst.rd := v.rdPrf]
                  && v.prevPrf == s.map_[u.inst.rd] && v.prevValid == s.valid[u.inst.rd]
                else v.rdPrf == 0 && v.prevPrf == 0 && !v.prevValid && t == s)
  {
    var k := FirstFree(s.free.busy, 0);
    var p: Prf :| !s.free.busy[p];
    assert k <= p;
  }

  // ---- A clock cycle, uop by uop ----

  function RetirePorts(s: RatState, ps: seq<RetirePort>): RatState {
    if ps == [] then s else RetirePortOne(RetirePorts(s, ps[..|ps| - 1]), ps[|ps| - 1])
  }

  function RenameReqs(s: RatState, qs: seq<RenameReq>): RatState {
    if qs == [] then s else RenameReqOne(RenameReqs(s, qs[..|qs| - 1]), qs[|qs| - 1])
  }

  function RenameOuts(s: RatState, qs: seq<RenameReq>): (r: seq<RenameOut>)
    ensures |r| == |qs|
  {
    if qs == [] then [] else
      RenameOuts(s, qs[..|qs| - 1]) + [RenameReqOut(RenameReqs(s, qs[..|qs| - 1]), qs[|qs| - 1])]
  }

  function Wants(qs: seq<RenameReq>): (r: seq<bool>)
    ensures |r| == |qs|
  {
    seq(|qs|, i requires 0 <= i < |qs| => qs[i].rdValid)
  }

  function CycleState(s: RatState, recover: bool, ps: seq<RetirePort>, qs: seq<RenameReq>): RatState {
    var t := RetirePorts(s, ps);
    if recover then Recover(t) else if CanAllocate(t.free, Wants(qs)) then RenameReqs(t, qs) else t
  }

  // ---- The parts of a folded state that the loops of the source keep apart ----

  lemma {:induction false} RetirePortsParts(s: RatState, ps: seq<RetirePort>)
    ensures var t := RetirePorts(s, ps);
            t.free == RetireAll(s.free, ps) && t.map_ == s.map_ && t.valid == s.valid
  {
    if ps != [] {
      RetirePortsParts(s, ps[..|ps| - 1]);
    }
  }

  lemma {:induction false} RenameReqsParts(s: RatState, qs: seq<RenameReq>)
    ensures var t := RenameReqs(s, qs);
            t.free == AllocateAll(s.free, Wants(qs)) && t.rRat == s.rRat && t.recoverValid == s.recoverValid
  {
    if qs != [] {
      RenameReqsParts(s, qs[..|qs| - 1]);
      assert Wants(qs)[..|qs| - 1] == Wants(qs[..|qs| - 1]);
    }
  }

  class MappingTable {
    var mpTb: MapTable
    var rRat: MapTable
    var arfValid: ArfBits
    var arfRecover: ArfBits
    const freeList: FreeList

    function State(): RatState
      reads this, freeList
    {
      RatState(mpTb, rRat, arfValid, arfRecover, freeList.State())
    }

    constructor ()
      ensures State() == RatReset() && fresh(freeList)
    {
      mpTb, rRat, arfValid, arfRecover := ResetMap(), ResetMap(), ResetValid(), ResetValid();
      freeList := new FreeList();
    }

    /** One clock of the mapping table together with its free list. */
    method Step(recover: bool, ps: seq<RetirePort>, qs: seq<RenameReq>)
      returns (outs: seq<RenameOut>, allocatable: bool)
      requires |ps| == COMMIT_WIDTH && |qs| == RENAME_WIDTH
      modifies this, freeList
      ensures State() == CycleState(old(State()), recover, ps, qs)
      ensures var t := RetirePorts(old(State()), ps);
              allocatable == CanAllocate(t.free, Wants(qs)) &&
              outs == if allocatable then RenameOuts(t, qs) else [NO_OUT, NO_OUT, NO_OUT, NO_OUT]
    {
      ghost var s := State();
      ghost var t := RetirePorts(s, ps);
      RetirePortsParts(s, ps);
      RenameReqsParts(t, qs);
      var prfOut;
      prfOut, allocatable := freeList.Step(recover, ps, Wants(qs));
      RetiredPairUnchanged(t.free, Wants(qs));
      var rRatNext, recoverNext := RetireLoop(s, ps);
      outs := [NO_OUT, NO_OUT, NO_OUT, NO_OUT];
      var mapNext, validNext := mpTb, arfValid;
      if allocatable {
        outs, mapNext, validNext := RenameLoop(t, qs, prfOut, mapNext, validNext);
      }
      if recover {
        mpTb, rRat, arfValid, arfRecover := rRatNext, rRatNext, recoverNext, recoverNext;
      } else {
        mpTb, rRat, arfValid, arfRecover := mapNext, rRatNext, validNext, recoverNext;
      }
    }

    method RetireLoop(ghost s: RatState, ps: seq<RetirePort>) returns (rRatNext: MapTable, recoverNext: ArfBits)
      requires s.rRat == rRat && s.recoverValid == arfRecover
      ensures rRatNext == RetirePorts(s, ps).rRat && recoverNext == RetirePorts(s, ps).recoverValid
    {
      rRatNext, recoverNext := rRat, arfRecover;
      for i := 0 to |ps|
        invariant rRatNext == RetirePorts(s, ps[..i]).rRat && recoverNext == RetirePorts(s, ps[..i]).recoverValid
      {
        assert ps[..i + 1][..i] == ps[..i];
        if ps[i].valid {
          recoverNext := recoverNext[ps[i].arf := true];
          rRatNext := rRatNext[ps[i].arf := ps[i].prf];
        }
      }
      assert ps[..|ps|] == ps;
    }

    /** The rename loop threads the next map through the lanes, so a lane sees the destinations before it. */
    method RenameLoop(ghost t: RatState, qs: seq<RenameReq>, prfOut: seq<Prf>, map0: MapTable, valid0: ArfBits)
      returns (outs: seq<RenameOut>, mapNext: MapTable, validNext: ArfBits)
      requires t.map_ == map0 && t.valid == valid0 && prfOut == Granted(t.free, Wants(qs))
      ensures outs == RenameOuts(t, qs)
      ensures mapNext == RenameReqs(t, qs).map_ && validNext == RenameReqs(t, qs).valid
    {
      outs, mapNext, validNext := [], map0, valid0;
      for i := 0 to |qs|
        invariant outs == RenameOuts(t, qs[..i])
        invariant mapNext == RenameReqs(t, qs[..i]).map_ && validNext == RenameReqs(t, qs[..i]).valid
      {
        assert qs[..i + 1][..i] == qs[..i];
        RenameReqsParts(t, qs[..i]);
        GrantedAt(t.free, Wants(qs), i);
        assert Wants(qs)[..i] == Wants(qs[..i]);
        var q := qs[i];
        var out := NO_OUT;
        out := out.(prs1 := if q.rs1 == 0 then 0 else mapNext[q.rs1]);
        out := out.(prs2 := if q.rs2 == 0 then 0 else mapNext[q.rs2]);
        if q.rdValid {
          out := out.(prev := mapNext[q.rd]);
          if validNext[q.rd] {
            out := out.(prevValid := true);
          }
          out := out.(prd := prfOut[i]);
          mapNext := mapNext[q.rd := prfOut[i]];
          validNext := validNext[q.rd := true];
        }
        outs := outs + [out];
      }
      assert qs[..|qs|] == qs;
    }
  }

  lemma {:induction false} GrantedAt(s: FreeListState, req: seq<bool>, i: nat)
    requires i < |req|
    ensures Granted(s, req)[i] == if req[i] then LowestFree(AllocateAll(s, req[..i]).busy) else 0
  {
    if i < |req| - 1 {
      GrantedAt(s, req[..|req| - 1], i);
      assert req[..|req| - 1][..i] == req[..i];
    }
  }

  // ---- The alias table: uop fields wired to the ports ----

  function Ports(us: seq<MicroOp>): (r: seq<RetirePort>)
    ensures |r| == |us|
  {
    seq(|us|, i requires 0 <= i < |us| => Port(us[i]))
  }

  function Reqs(us: seq<MicroOp>): (r: seq<RenameReq>)
    ensures |r| == |us|
  {
    seq(|us|, i requires 0 <= i < |us| => Req(us[i]))
  }

  function RetireUops(s: RatState, us: seq<MicroOp>): RatState {
    if us == [] then s else RetireUop(RetireUops(s, us[..|us| - 1]), us[|us| - 1])
  }

  function RenameUops(s: RatState, us: seq<MicroOp>): RatState {
    if us == [] then s else RenameUop(RenameUops(s, us[..|us| - 1]), us[|us| - 1])
  }

  function RenamedUops(s: RatState, us: seq<MicroOp>): (r: seq<MicroOp>)
    ensures |r| == |us|
  {
    if us == [] then [] else
      RenamedUops(s, us[..|us| - 1]) + [Renamed(RenameUops(s, us[..|us| - 1]), us[|us| - 1])]
  }

  /** Number of lanes that need a destination register. */
  function Demand(us: seq<MicroOp>): nat {
    CountTrue(Wants(Reqs(us)))
  }

  /** The alias table's clock, uop by uop: retire in order, then recover or rename in order. */
  function RatCycle(s: RatState, recover: bool, retire: seq<MicroOp>, group: seq<MicroOp>): RatState {
    var t := RetireUops(s, retire);
    if recover then Recover(t) else if Demand(group) <= t.free.num then RenameUops(t, group) else t
  }

  lemma {:induction false} PortsAreUops(s: RatState, us: seq<MicroOp>)
    ensures RetirePorts(s, Ports(us)) == RetireUops(s, us)
  {
    if us != [] {
      PortsAreUops(s, us[..|us| - 1]);
      assert Ports(us)[..|us| - 1] == Ports(us[..|us| - 1]);
    }
  }

  lemma {:induction false} ReqsAreUops(s: RatState, us: seq<MicroOp>)
    ensures RenameReqs(s, Reqs(us)) == RenameUops(s, us)
    ensures forall i :: 0 <= i < |us| ==> RenamedUops(s, us)[i] == Fill(us[i], RenameOuts(s, Reqs(us))[i])
  {
    if us != [] {
      ReqsAreUops(s, us[..|us| - 1]);
      assert Reqs(us)[..|us| - 1] == Reqs(us[..|us| - 1]);
    }
  }

  class Rat {
    const table: MappingTable

    constructor ()
      ensures table.State() == RatReset() && fresh(table) && fresh(table.freeList)
    {
      table := new MappingTable();
    }

    /** The whole hardware clock of renaming has exactly the effect of its uops taken one by one. */
    method Step(recover: bool, uopRetire: seq<MicroOp>, uopIn: seq<MicroOp>)
      returns (uopOut: seq<MicroOp>, allocatable: bool)
      requires |uopRetire| == COMMIT_WIDTH && |uopIn| == RENAME_WIDTH
      modifies table, table.freeList
      ensures table.State() == RatCycle(old(table.State()), recover, uopRetire, uopIn)
      ensures var t := RetireUops(old(table.State()), uopRetire);
              allocatable == (Demand(uopIn) <= t.free.num) &&
              uopOut == if recover || !allocatable then [NO_UOP, NO_UOP, NO_UOP, NO_UOP] else RenamedUops(t, uopIn)
    {
      ghost var s := table.State();
      PortsAreUops(s, uopRetire);
      ReqsAreUops(RetireUops(s, uopRetire), uopIn);
      var outs;
      outs, allocatable := table.Step(recover, Ports(uopRetire), Reqs(uopIn));
      uopOut := [NO_UOP, NO_UOP, NO_UOP, NO_UOP];
      if !recover && allocatable {
        uopOut := seq(RENAME_WIDTH, i requires 0 <= i < RENAME_WIDTH => Fill(uopIn[i], outs[i]));
      }
    }
  }
}
