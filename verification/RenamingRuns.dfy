/**
 Renaming over whole runs of clock cycles: the partition of the physical registers and precise recovery
 (src/frontend/mapping_table.sv, src/frontend/free_list.sv, src/frontend/rat.sv).
 */
module RenamingRuns {
  import opened MicroOps
  import opened FreeLists
  import opened Selectors
  import opened MappingTables
  import opened Renaming

  /** Inputs of one clock; lanes without a valid uop are empty. */
  datatype RatInput = RatInput(recover: bool, retire: seq<MicroOp>, group: seq<MicroOp>)

  datatype RatRun = RatRun(s: RatState, log: seq<MicroOp>, ret: nat)

  function Start(): RatRun {
    RatRun(RatReset(), [], 0)
  }

  /**
   A retiring uop as the table needs it: valid, and with the register fields that renaming gave it. Completion,
   the index in the reorder buffer and the outcome of a branch may have been filled in since.
   */
  predicate Retires(u: MicroOp, renamed: MicroOp) {
    u.valid && Port(u) == Port(renamed)
  }

  ghost predicate RetireInOrder(log: seq<MicroOp>, ret: nat, us: seq<MicroOp>) {
    && ret + |us| <= |log|
    && forall k :: 0 <= k < |us| ==> Retires(us[k], log[ret + k])
  }

  /** What the rest of the core promises: uops retire in program order, register 0 is never a destination. */
  ghost predicate Obeys(c: RatRun, i: RatInput) {
    && RetireInOrder(c.log, c.ret, ValidOnly(i.retire))
    && forall u <- i.group :: u.inst.rdValid ==> u.inst.rd != 0
  }

  function Clock(c: RatRun, i: RatInput): RatRun {
    var t := RetireUops(c.s, i.retire);
    var ret := c.ret + CountValid(i.retire);
    RatRun(RatCycle(c.s, i.recover, i.retire, i.group),
           if i.recover then c.log[..if ret <= |c.log| then ret else |c.log|]
           else if Demand(i.group) <= t.free.num then c.log + ValidOnly(RenamedUops(t, i.group))
           else c.log,
           ret)
  }

  function Run(ins: seq<RatInput>): RatRun {
    if ins == [] then Start() else Clock(Run(ins[..|ins| - 1]), ins[|ins| - 1])
  }

  ghost predicate RunObeys(ins: seq<RatInput>) {
    ins == [] || (RunObeys(ins[..|ins| - 1]) && Obeys(Run(ins[..|ins| - 1]), ins[|ins| - 1]))
  }

  lemma EmptyLane(s: RatState, u: MicroOp)
    requires !u.valid
    ensures RetireUop(s, u) == s && RenameUop(s, u) == s && !Renamed(s, u).valid
  {
  }

  lemma {:induction false} RetireAllPreserve(s: RatState, log: seq<MicroOp>, ret: nat, us: seq<MicroOp>)
    requires RatInv(s, log, ret) && RetireInOrder(log, ret, ValidOnly(us))
    ensures RatInv(RetireUops(s, us), log, ret + CountValid(us))
  {
    hide RatInv, RetireUop, Port;
    if us != [] {
      var us', u := us[..|us| - 1], us[|us| - 1];
      var c := CountValid(us');
      assert ValidOnly(us') == ValidOnly(us)[..c];
      RetireAllPreserve(s, log, ret, us');
      if u.valid {
        assert ValidOnly(us)[c] == u && Retires(u, log[ret + c]);
        RetirePreserves(RetireUops(s, us'), log, ret + c);
        SamePort(RetireUops(s, us'), u, log[ret + c]);
      } else {
        EmptyLane(RetireUops(s, us'), u);
      }
    }
  }

  /** Retirement reads nothing but the port. */
  lemma SamePort(s: RatState, u: MicroOp, v: MicroOp)
    requires Port(u) == Port(v)
    ensures RetireUop(s, u) == RetireUop(s, v)
  {
  }

  lemma {:induction false} RenameAllPreserve(s: RatState, log: seq<MicroOp>, ret: nat, us: seq<MicroOp>)
    requires RatInv(s, log, ret) && Demand(us) <= s.free.num
    requires forall u <- us :: u.inst.rdValid ==> u.inst.rd != 0
    ensures RatInv(RenameUops(s, us), log + ValidOnly(RenamedUops(s, us)), ret)
    ensures RenameUops(s, us).free.num == s.free.num - Demand(us)
  {
    hide RatInv, RenameUop, Renamed;
    if us == [] {
      assert log + ValidOnly(RenamedUops(s, us)) == log;
    } else {
      var us', u := us[..|us| - 1], us[|us| - 1];
      assert Wants(Reqs(us))[..|us| - 1] == Wants(Reqs(us'));
      RenameAllPreserve(s, log, ret, us');
      var t, log' := RenameUops(s, us'), log + ValidOnly(RenamedUops(s, us'));
      assert RenamedUops(s, us)[..|us| - 1] == RenamedUops(s, us');
      RenameDemand(t, u);
      if u.valid {
        RenamePreserves(t, log', ret, u);
        assert log + ValidOnly(RenamedUops(s, us)) == log' + [Renamed(t, u)];
      } else {
        EmptyLane(t, u);
        assert ValidOnly(RenamedUops(s, us)) == ValidOnly(RenamedUops(s, us'));
      }
    }
  }

  lemma RenameDemand(s: RatState, u: MicroOp)
    ensures Req(u).rdValid && s.free.num > 0 ==> RenameUop(s, u).free.num == s.free.num - 1
    ensures !Req(u).rdValid ==> RenameUop(s, u).free.num == s.free.num
    ensures Req(u).rdValid == (u.valid && u.inst.rdValid)
    ensures Renamed(s, u).valid == u.valid
  {
  }

  lemma {:induction false} ClockPreserves(c: RatRun, i: RatInput)
    requires RatInv(c.s, c.log, c.ret) && Obeys(c, i)
    ensures var d := Clock(c, i); RatInv(d.s, d.log, d.ret)
  {
    hide RatInv;
    RetireAllPreserve(c.s, c.log, c.ret, i.retire);
    var t, ret := RetireUops(c.s, i.retire), c.ret + CountValid(i.retire);
    if i.recover {
      RecoverPreserves(t, c.log, ret);
    } else if Demand(i.group) <= t.free.num {
      RenameAllPreserve(t, c.log, ret, i.group);
    }
  }

  /** The invariant holds after every run of the renaming hardware. */
  lemma {:induction false} RunPreserves(ins: seq<RatInput>)
    requires RunObeys(ins)
    ensures var c := Run(ins); RatInv(c.s, c.log, c.ret)
  {
    hide RatInv, Obeys, Clock;
    if ins == [] {
      InitialRat();
    } else {
      RunPreserves(ins[..|ins| - 1]);
      ClockPreserves(Run(ins[..|ins| - 1]), ins[|ins| - 1]);
    }
  }

  // ---- Partition of the physical registers ----

  ghost predicate HoldsArch(s: RatState, r: Arf, p: Prf) {
    s.recoverValid[r] && s.rRat[r] == p
  }

  ghost predicate HoldsInFlight(c: RatRun, j: nat, p: Prf) {
    c.ret <= j < |c.log| && c.log[j].inst.rdValid && c.log[j].rdPrf == p
  }

  /**
   The busy registers are exactly the retired mappings of valid registers (register 0 maps to physical register 0)
   and the destinations of in-flight uops; no register has two of these roles; the free count is the number of
   zero bits, and what valid registers and in-flight destinations leave of the 63 allocatable registers.
   */
  ghost predicate Partitioned(c: RatRun) {
    && c.ret <= |c.log|
    && (forall p: Prf :: c.s.free.busy[p] <==>
          (exists r: Arf :: HoldsArch(c.s, r, p)) || (exists j: nat :: HoldsInFlight(c, j, p)))
    && (forall r: Arf, r': Arf, p: Prf :: HoldsArch(c.s, r, p) && HoldsArch(c.s, r', p) ==> r == r')
    && (forall r: Arf, j: nat, p: Prf :: !(HoldsArch(c.s, r, p) && HoldsInFlight(c, j, p)))
    && (forall j: nat, k: nat, p: Prf :: HoldsInFlight(c, j, p) && HoldsInFlight(c, k, p) ==> j == k)
    && c.s.free.num == 64 - CountTrue(c.s.free.busy)
    && c.s.free.num == 63 - (CountTrue(c.s.recoverValid) - 1) - InFlight(c.log, c.ret)
  }

  /** The partition holds in every reachable state, so no live register is ever handed out again. */
  lemma {:induction false} PhysicalPartition(ins: seq<RatInput>)
    requires RunObeys(ins)
    ensures Partitioned(Run(ins))
  {
    hide *;
    RunPreserves(ins);
    StatePartition(Run(ins));
  }

  lemma StatePartition(c: RatRun)
    requires RatInv(c.s, c.log, c.ret)
    ensures Partitioned(c)
  {
    forall p: Prf
      ensures c.s.free.busy[p] <==>
                (exists r: Arf :: HoldsArch(c.s, r, p)) || (exists j: nat :: HoldsInFlight(c, j, p))
    {
      OwnerRoles(c, p);
    }
    forall r: Arf, r': Arf, p: Prf | HoldsArch(c.s, r, p) && HoldsArch(c.s, r', p)
      ensures r == r'
    {
      ArchIsWriter(c, r, p);
      ArchIsWriter(c, r', p);
    }
    forall r: Arf, j: nat, p: Prf
      ensures !(HoldsArch(c.s, r, p) && HoldsInFlight(c, j, p))
    {
      ArchIsWriter(c, r, p);
      InFlightIsLive(c, j, p);
    }
    forall j: nat, k: nat, p: Prf | HoldsInFlight(c, j, p) && HoldsInFlight(c, k, p)
      ensures j == k
    {
      InFlightIsLive(c, j, p);
      InFlightIsLive(c, k, p);
    }
  }

  lemma InFlightIsLive(c: RatRun, j: nat, p: Prf)
    requires RatInv(c.s, c.log, c.ret)
    ensures HoldsInFlight(c, j, p) ==>
              Live(c.log, Writers(c.log), c.ret, j) && c.log[j].rdPrf == p && p != 0 && c.ret <= j
  {
    if HoldsInFlight(c, j, p) {
      assert UopOk(c.log, Writers(c.log)[j], c.log[j]);
    }
  }

  /** Register r is held by its last retired writer, which is live. */
  ghost predicate ArchWriter(c: RatRun, r: Arf, p: Prf) {
    var ws := Writers(c.log);
    c.ret <= |c.log| && var j := ws[c.ret][r];
    0 <= j < c.ret && Live(c.log, ws, c.ret, j) && c.log[j].rdPrf == p && p != 0 && c.log[j].inst.rd == r
  }

  lemma ArchIsWriter(c: RatRun, r: Arf, p: Prf)
    requires RatInv(c.s, c.log, c.ret)
    ensures HoldsArch(c.s, r, p) ==> (r == 0 && p == 0) || ArchWriter(c, r, p)
  {
    var ws := Writers(c.log);
    WritersAreOk(c.log);
    ZeroUnwritten(c.log, ws, c.ret);
    if HoldsArch(c.s, r, p) && r != 0 {
      var j := ws[c.ret][r];
      assert Writes(c.log[j], r) && UopOk(c.log, ws[j], c.log[j]);
    }
  }

  lemma OwnerRoles(c: RatRun, p: Prf)
    requires RatInv(c.s, c.log, c.ret)
    ensures c.s.free.busy[p] <==>
              (exists r: Arf :: HoldsArch(c.s, r, p)) || (exists j: nat :: HoldsInFlight(c, j, p))
  {
    var ws := Writers(c.log);
    WritersAreOk(c.log);
    ZeroUnwritten(c.log, ws, c.ret);
    assert HoldsArch(c.s, 0, 0);
    if c.s.free.busy[p] && p != 0 {
      var j :| Live(c.log, ws, c.ret, j) && c.log[j].rdPrf == p;
      if j >= c.ret {
        assert HoldsInFlight(c, j, p);
      } else {
        assert HoldsArch(c.s, c.log[j].inst.rd, p);
      }
    }
    if r: Arf :| HoldsArch(c.s, r, p) {
      ArchIsWriter(c, r, p);
      assert p == 0 || Live(c.log, ws, c.ret, ws[c.ret][r]);
    } else if j: nat :| HoldsInFlight(c, j, p) {
      assert Live(c.log, ws, c.ret, j);
    }
  }

  // ---- The maps as renames in program order; precise recovery ----

  function RenameMap(m: MapTable, us: seq<MicroOp>): MapTable {
    if us == [] then m else
      var t := RenameMap(m, us[..|us| - 1]);
      var u := us[|us| - 1];
      if u.inst.rdValid then t[u.inst.rd := u.rdPrf] else t
  }

  function RenameValid(v: ArfBits, us: seq<MicroOp>): ArfBits {
    if us == [] then v else
      var t := RenameValid(v, us[..|us| - 1]);
      var u := us[|us| - 1];
      if u.inst.rdValid then t[u.inst.rd := true] else t
  }

  /** Tables that agree with the writers at `ret` give, after the renames up to `k`, those of the writers at k. */
  lemma {:induction false} MapsFold(m: MapTable, v: ArfBits, log: seq<MicroOp>, ws: seq<WriterTable>, ret: nat, k: nat)
    requires WritersOk(log, ws) && ret <= k <= |log| && MapOk(m, v, log, ws[ret])
    ensures MapOk(RenameMap(m, log[ret..k]), RenameValid(v, log[ret..k]), log, ws[k])
    decreases k
  {
    hide MapOk;
    if ret < k {
      MapsFold(m, v, log, ws, ret, k - 1);
      assert log[ret..k][..k - ret - 1] == log[ret..k - 1];
      assert ws[k - 1 + 1] == Written(ws[k - 1], log[k - 1], k - 1);
      MapStep(RenameMap(m, log[ret..k - 1]), RenameValid(v, log[ret..k - 1]), log, ws[k - 1], k - 1);
    }
  }

  lemma MapStep(m: MapTable, v: ArfBits, log: seq<MicroOp>, w: WriterTable, i: nat)
    requires MapOk(m, v, log, w) && i < |log|
    ensures var u := log[i];
            MapOk(if u.inst.rdValid then m[u.inst.rd := u.rdPrf] else m,
                  if u.inst.rdValid then v[u.inst.rd := true] else v, log, Written(w, u, i))
  {
  }

  lemma MapUnique(m: MapTable, v: ArfBits, m': MapTable, v': ArfBits, log: seq<MicroOp>, w: WriterTable)
    requires MapOk(m, v, log, w) && MapOk(m', v', log, w)
    ensures m == m' && v == v'
  {
  }

  /** The speculative map is always the in-flight renames applied in program order to the retired map. */
  lemma MapsAreInFlightRenames(ins: seq<RatInput>)
    requires RunObeys(ins)
    ensures var c := Run(ins);
            && c.ret <= |c.log|
            && c.s.map_ == RenameMap(c.s.rRat, c.log[c.ret..])
            && c.s.valid == RenameValid(c.s.recoverValid, c.log[c.ret..])
  {
    RunPreserves(ins);
    hide Run;
    StateMaps(Run(ins));
  }

  lemma StateMaps(c: RatRun)
    requires RatInv(c.s, c.log, c.ret)
    ensures c.s.map_ == RenameMap(c.s.rRat, c.log[c.ret..])
    ensures c.s.valid == RenameValid(c.s.recoverValid, c.log[c.ret..])
  {
    hide Distinct, BusyOk, RetiredBusyOk, CountsOk, LogOk, TallyOk, MapOk, Writers;
    WritersAreOk(c.log);
    var ws := Writers(c.log);
    MapsFold(c.s.rRat, c.s.recoverValid, c.log, ws, c.ret, |c.log|);
    assert c.log[c.ret..] == c.log[c.ret..|c.log|];
    MapUnique(c.s.map_, c.s.valid, RenameMap(c.s.rRat, c.log[c.ret..]), RenameValid(c.s.recoverValid, c.log[c.ret..]),
              c.log, ws[|c.log|]);
  }

  /**
   A recovery in the same clock as any retirements restores the map that the retired uops alone, renamed from
   reset, would have left, and frees every destination of the squashed uops.
   */
  ghost predicate RecoveredExactly(c: RatRun, d: RatRun) {
    && c.ret <= d.ret <= |c.log| && d.log == c.log[..d.ret]
    && d.s.map_ == d.s.rRat == RenameMap(ResetMap(), d.log)
    && d.s.valid == d.s.recoverValid == RenameValid(ResetValid(), d.log)
    && (forall j :: d.ret <= j < |c.log| && c.log[j].inst.rdValid ==> !d.s.free.busy[c.log[j].rdPrf])
  }

  lemma {:induction false} PreciseRecovery(ins: seq<RatInput>)
    requires RunObeys(ins) && ins != [] && ins[|ins| - 1].recover
    ensures RecoveredExactly(Run(ins[..|ins| - 1]), Run(ins))
  {
    hide RatInv, Obeys, Clock, RecoveredExactly;
    var k := |ins| - 1;
    RunPreserves(ins[..k]);
    ClockRecovers(Run(ins[..k]), ins[k]);
  }

  lemma {:induction false} ClockRecovers(c: RatRun, i: RatInput)
    requires RatInv(c.s, c.log, c.ret) && Obeys(c, i) && i.recover
    ensures RecoveredExactly(c, Clock(c, i))
  {
    hide RatInv, RetireUops, RenameMap, RenameValid;
    var t, ret := RetireUops(c.s, i.retire), c.ret + CountValid(i.retire);
    RetireAllPreserve(c.s, c.log, c.ret, i.retire);
    RecoverPreserves(t, c.log, ret);
    SquashedAreFree(t, c.log, ret);
    FullyRetired(Recover(t), c.log[..ret]);
  }

  /** With everything retired, both maps are the renames from reset. */
  lemma FullyRetired(s: RatState, log: seq<MicroOp>)
    requires RatInv(s, log, |log|)
    ensures s.map_ == s.rRat == RenameMap(ResetMap(), log)
    ensures s.valid == s.recoverValid == RenameValid(ResetValid(), log)
  {
    hide Distinct, BusyOk, RetiredBusyOk, CountsOk, LogOk, TallyOk, Writers;
    WritersAreOk(log);
    var ws := Writers(log);
    assert MapOk(ResetMap(), ResetValid(), log, ws[0]);
    hide MapOk;
    MapsFold(ResetMap(), ResetValid(), log, ws, 0, |log|);
    assert log[0..|log|] == log;
    MapUnique(s.map_, s.valid, RenameMap(ResetMap(), log), RenameValid(ResetValid(), log), log, ws[|log|]);
    MapUnique(s.rRat, s.recoverValid, s.map_, s.valid, log, ws[|log|]);
  }

  lemma SquashedAreFree(s: RatState, log: seq<MicroOp>, ret: nat)
    requires RatInv(s, log, ret)
    ensures forall j :: ret <= j < |log| && log[j].inst.rdValid ==> !Recover(s).free.busy[log[j].rdPrf]
  {
    var ws := Writers(log);
    forall j | ret <= j < |log| && log[j].inst.rdValid
      ensures !s.free.retiredBusy[log[j].rdPrf]
    {
      assert UopOk(log, ws[j], log[j]);
      assert Live(log, ws, ret, j);
      assert forall k :: Live(log, ws, ret, k) && k < ret ==> log[k].rdPrf != log[j].rdPrf;
    }
  }
}
