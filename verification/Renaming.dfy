/**
 What renaming keeps over every run (src/frontend/mapping_table.sv, src/frontend/free_list.sv).

 `log` is the program-order sequence of renamed uops on the current path, `ret` how many of them have retired.
 `Writers(log)[i][r]` names the last of the first `i` uops that writes register `r`, -1 when there is none, so the
 in-order meaning of "the register that holds r before uop i" is fixed without mentioning the hardware tables.
 A uop is live when its destination can still be read: it is in flight, or it is the last retired writer of its
 register. `RatInv` says that the tables, the bitmaps and the counters are exactly what the live uops dictate.
 */
module Renaming {
  import opened MicroOps
  import opened FreeLists
  import opened Selectors
  import opened MappingTables

  type WriterTable = s: seq<int> | |s| == 32 witness seq(32, i => -1)

  function NoWriters(): WriterTable {
    seq(32, i => -1)
  }

  function Written(w: WriterTable, u: MicroOp, i: nat): WriterTable {
    if u.inst.rdValid then w[u.inst.rd := i] else w
  }

  function Writers(log: seq<MicroOp>): (ws: seq<WriterTable>)
    ensures |ws| == |log| + 1
  {
    if log == [] then [NoWriters()] else NextWriters(Writers(log[..|log| - 1]), log[|log| - 1])
  }

  function NextWriters(ws: seq<WriterTable>, u: MicroOp): seq<WriterTable>
    requires ws != []
  {
    ws + [Written(ws[|ws| - 1], u, |ws| - 1)]
  }

  /** What a table of writers says about every position. */
  ghost predicate WritersOk(log: seq<MicroOp>, ws: seq<WriterTable>) {
    && |ws| == |log| + 1
    && ws[0] == NoWriters()
    && (forall i :: 0 <= i < |log| ==> ws[i + 1] == Written(ws[i], log[i], i))
    && (forall i, r :: 0 <= i <= |log| && 0 <= r < 32 ==>
          -1 <= ws[i][r] < i && (ws[i][r] >= 0 ==> Writes(log[ws[i][r]], r)))
  }

  predicate Writes(u: MicroOp, r: nat) {
    u.inst.rdValid && u.inst.rd == r
  }

  lemma NextWritersOk(log: seq<MicroOp>, ws: seq<WriterTable>, u: MicroOp)
    requires WritersOk(log, ws)
    ensures WritersOk(log + [u], NextWriters(ws, u))
  {
    var log', ws' := log + [u], NextWriters(ws, u);
    forall i | 0 <= i < |log'|
      ensures ws'[i + 1] == Written(ws'[i], log'[i], i)
    {
      if i < |log| {
        assert ws'[i + 1] == ws[i + 1] && ws'[i] == ws[i];
      }
    }
  }

  lemma {:induction false} WritersAreOk(log: seq<MicroOp>)
    ensures WritersOk(log, Writers(log))
  {
    if log != [] {
      var n := |log| - 1;
      WritersAreOk(log[..n]);
      NextWritersOk(log[..n], Writers(log[..n]), log[n]);
      assert log == log[..n] + [log[n]];
    }
  }

  lemma WritersAppend(log: seq<MicroOp>, u: MicroOp)
    ensures Writers(log + [u]) == NextWriters(Writers(log), u)
  {
    assert (log + [u])[..|log|] == log;
  }

  lemma {:induction false} WritersPrefix(log: seq<MicroOp>, k: nat)
    requires k <= |log|
    ensures Writers(log[..k]) == Writers(log)[..k + 1]
    decreases |log| - k
  {
    if k < |log| {
      WritersPrefix(log, k + 1);
      assert log[..k + 1][..k] == log[..k];
      var p := Writers(log[..k]);
      assert NextWriters(p, log[k])[..k + 1] == p;
      assert Writers(log)[..k + 2][..k + 1] == Writers(log)[..k + 1];
    } else {
      assert log[..k] == log;
    }
  }

  /** A writer older than position i that is still the writer at a later position k was the writer at i. */
  lemma {:induction false} WriterStable(log: seq<MicroOp>, ws: seq<WriterTable>, i: nat, k: nat, r: nat)
    requires WritersOk(log, ws) && i <= k <= |log| && r < 32
    ensures ws[k][r] < i ==> ws[k][r] == ws[i][r]
    ensures ws[k][r] >= ws[i][r]
    decreases k
  {
    if i < k {
      WriterStable(log, ws, i, k - 1, r);
      assert ws[k - 1 + 1] == Written(ws[k - 1], log[k - 1], k - 1);
    }
  }

  // ---- The invariant ----

  /** The destination of uop j can still be read when the first `ret` uops have retired. */
  predicate Live(log: seq<MicroOp>, ws: seq<WriterTable>, ret: nat, j: int)
    requires |ws| == |log| + 1 && ret <= |log|
  {
    0 <= j < |log| && log[j].inst.rdValid && (j >= ret || ws[ret][log[j].inst.rd] == j)
  }

  ghost predicate Owned(log: seq<MicroOp>, ws: seq<WriterTable>, ret: nat, p: Prf)
    requires |ws| == |log| + 1 && ret <= |log|
  {
    exists j :: Live(log, ws, ret, j) && log[j].rdPrf == p
  }

  ghost predicate RetiredOwned(log: seq<MicroOp>, ws: seq<WriterTable>, ret: nat, p: Prf)
    requires |ws| == |log| + 1 && ret <= |log|
  {
    exists j :: Live(log, ws, ret, j) && j < ret && log[j].rdPrf == p
  }

  /** A map and its valid bits hold the destinations of the writers of table `w`. */
  ghost predicate MapOk(m: MapTable, v: ArfBits, log: seq<MicroOp>, w: WriterTable) {
    forall r: Arf :: m[r] == Holder(log, w, r) && v[r] == (r == 0 || w[r] >= 0)
  }

  /** The physical register that holds r before a position with writers w. */
  function Holder(log: seq<MicroOp>, w: WriterTable, r: Arf): Prf {
    if 0 <= w[r] < |log| then log[w[r]].rdPrf else 0
  }

  ghost predicate UopOk(log: seq<MicroOp>, w: WriterTable, u: MicroOp) {
    && u.valid
    && (u.inst.rdValid ==> u.inst.rd != 0 && u.rdPrf != 0)
    && u.rs1Prf == Holder(log, w, u.inst.rs1)
    && u.rs2Prf == Holder(log, w, u.inst.rs2)
    && u.prevValid == (u.inst.rdValid && w[u.inst.rd] >= 0)
    && (u.prevValid ==> u.prevPrf == Holder(log, w, u.inst.rd))
  }

  ghost predicate LogOk(log: seq<MicroOp>, ws: seq<WriterTable>)
    requires |ws| == |log| + 1
  {
    forall j :: 0 <= j < |log| ==> UopOk(log, ws[j], log[j])
  }

  ghost predicate Distinct(log: seq<MicroOp>, ws: seq<WriterTable>, ret: nat)
    requires |ws| == |log| + 1 && ret <= |log|
  {
    forall j, k :: Live(log, ws, ret, j) && Live(log, ws, ret, k) && j != k ==> log[j].rdPrf != log[k].rdPrf
  }

  ghost predicate BusyOk(busy: Bitmap, log: seq<MicroOp>, ws: seq<WriterTable>, ret: nat)
    requires |ws| == |log| + 1 && ret <= |log|
  {
    forall p: Prf :: busy[p] <==> p == 0 || Owned(log, ws, ret, p)
  }

  ghost predicate RetiredBusyOk(busy: Bitmap, log: seq<MicroOp>, ws: seq<WriterTable>, ret: nat)
    requires |ws| == |log| + 1 && ret <= |log|
  {
    forall p: Prf :: busy[p] <==> p == 0 || RetiredOwned(log, ws, ret, p)
  }

  ghost predicate CountsOk(f: FreeListState) {
    f.num == 64 - CountTrue(f.busy) && f.retiredNum == 64 - CountTrue(f.retiredBusy)
  }

  ghost predicate RatInvAt(s: RatState, log: seq<MicroOp>, ws: seq<WriterTable>, ret: nat)
    requires |ws| == |log| + 1
  {
    && ret <= |log|
    && LogOk(log, ws)
    && MapOk(s.map_, s.valid, log, ws[|log|])
    && MapOk(s.rRat, s.recoverValid, log, ws[ret])
    && Distinct(log, ws, ret)
    && BusyOk(s.free.busy, log, ws, ret)
    && RetiredBusyOk(s.free.retiredBusy, log, ws, ret)
    && CountsOk(s.free)
  }

  /** Number of in-flight destinations. */
  function InFlight(log: seq<MicroOp>, ret: nat): nat {
    if |log| <= ret then 0 else InFlight(log[..|log| - 1], ret) + (if log[|log| - 1].inst.rdValid then 1 else 0)
  }

  /** Busy registers are as many as valid architectural registers and in-flight destinations together. */
  ghost predicate TallyOk(s: RatState, log: seq<MicroOp>, ret: nat) {
    && CountTrue(s.free.busy) == CountTrue(s.recoverValid) + InFlight(log, ret)
    && CountTrue(s.free.retiredBusy) == CountTrue(s.recoverValid)
  }

  ghost predicate RatInv(s: RatState, log: seq<MicroOp>, ret: nat) {
    RatInvAt(s, log, Writers(log), ret) && TallyOk(s, log, ret)
  }

  // ---- Counting ----

  lemma {:induction false} CountUpdate(s: seq<bool>, i: nat, b: bool)
    requires i < |s|
    ensures CountTrue(s[i := b]) == CountTrue(s) - (if s[i] then 1 else 0) + (if b then 1 else 0)
  {
    var n := |s| - 1;
    if i < n {
      CountUpdate(s[..n], i, b);
      assert s[i := b][..n] == s[..n][i := b];
    } else {
      assert s[i := b][..n] == s[..n];
    }
  }

  lemma {:induction false} CountFull(s: seq<bool>)
    ensures (forall i :: 0 <= i < |s| ==> s[i]) ==> CountTrue(s) == |s|
    ensures forall i :: 0 <= i < |s| && s[i] ==> CountTrue(s) >= 1
  {
    if s != [] {
      CountFull(s[..|s| - 1]);
      assert forall i :: 0 <= i < |s| - 1 ==> s[..|s| - 1][i] == s[i];
    }
  }

  /** A positive count of free registers means the search finds one, and never register 0. */
  lemma FoundFree(f: FreeListState)
    requires f.busy[0] && f.num == 64 - CountTrue(f.busy) && f.num > 0
    ensures var p := LowestFree(f.busy); p != 0 && !f.busy[p]
  {
    CountFull(f.busy);
  }

  // ---- Preservation ----

  lemma ResetCounts()
    ensures CountTrue(ResetBits()) == 1 && CountTrue(ResetValid()) == 1
  {
    CountNone(seq(64, i => false));
    CountNone(seq(32, i => false));
    CountUpdate(seq(64, i => false), 0, true);
    CountUpdate(seq(32, i => false), 0, true);
    assert ResetBits() == seq(64, i => false)[0 := true];
    assert ResetValid() == seq(32, i => false)[0 := true];
  }

  lemma InitialRat()
    ensures RatInv(RatReset(), [], 0)
  {
    hide CountTrue;
    ResetCounts();
    assert Writers([]) == [NoWriters()];
    assert MapOk(ResetMap(), ResetValid(), [], NoWriters());
  }

  lemma {:induction false} CountNone(s: seq<bool>)
    requires forall i :: 0 <= i < |s| ==> !s[i]
    ensures CountTrue(s) == 0
  {
    if s != [] {
      CountNone(s[..|s| - 1]);
    }
  }

  // ---- Renaming one uop ----

  /** Appending a uop leaves older uops as live as they were. */
  lemma AppendLive(log: seq<MicroOp>, ws: seq<WriterTable>, v: MicroOp, ret: nat)
    requires WritersOk(log, ws) && ret <= |log|
    ensures forall j :: j != |log| ==> Live(log + [v], NextWriters(ws, v), ret, j) == Live(log, ws, ret, j)
    ensures Live(log + [v], NextWriters(ws, v), ret, |log|) == v.inst.rdValid
  {
  }

  lemma AppendOwned(log: seq<MicroOp>, ws: seq<WriterTable>, v: MicroOp, ret: nat, p: Prf)
    requires WritersOk(log, ws) && ret <= |log|
    ensures Owned(log + [v], NextWriters(ws, v), ret, p) <==>
            Owned(log, ws, ret, p) || (v.inst.rdValid && v.rdPrf == p)
    ensures RetiredOwned(log + [v], NextWriters(ws, v), ret, p) <==> RetiredOwned(log, ws, ret, p)
  {
    var log', ws' := log + [v], NextWriters(ws, v);
    AppendLive(log, ws, v, ret);
    if Owned(log, ws, ret, p) {
      var j :| Live(log, ws, ret, j) && log[j].rdPrf == p;
      assert Live(log', ws', ret, j) && log'[j].rdPrf == p;
    }
    if v.inst.rdValid && v.rdPrf == p {
      assert Live(log', ws', ret, |log|) && log'[|log|].rdPrf == p;
    }
    if RetiredOwned(log, ws, ret, p) {
      var j :| Live(log, ws, ret, j) && j < ret && log[j].rdPrf == p;
      assert Live(log', ws', ret, j) && log'[j].rdPrf == p;
    }
    if Owned(log', ws', ret, p) {
      var j :| Live(log', ws', ret, j) && log'[j].rdPrf == p;
      assert j == |log| || Live(log, ws, ret, j);
    }
    if RetiredOwned(log', ws', ret, p) {
      var j :| Live(log', ws', ret, j) && j < ret && log'[j].rdPrf == p;
      assert Live(log, ws, ret, j);
    }
  }

  lemma AppendBusy(busy: Bitmap, rBusy: Bitmap, log: seq<MicroOp>, ws: seq<WriterTable>, ret: nat, v: MicroOp)
    requires WritersOk(log, ws) && ret <= |log|
    requires BusyOk(busy, log, ws, ret) && RetiredBusyOk(rBusy, log, ws, ret)
    ensures BusyOk(if v.inst.rdValid then busy[v.rdPrf := true] else busy, log + [v], NextWriters(ws, v), ret)
    ensures RetiredBusyOk(rBusy, log + [v], NextWriters(ws, v), ret)
  {
    forall p: Prf
      ensures Owned(log + [v], NextWriters(ws, v), ret, p) <==>
              Owned(log, ws, ret, p) || (v.inst.rdValid && v.rdPrf == p)
      ensures RetiredOwned(log + [v], NextWriters(ws, v), ret, p) <==> RetiredOwned(log, ws, ret, p)
    {
      AppendOwned(log, ws, v, ret, p);
    }
  }

  /** A register that is not owned can become the destination of the next uop. */
  lemma AppendDistinct(log: seq<MicroOp>, ws: seq<WriterTable>, ret: nat, v: MicroOp)
    requires WritersOk(log, ws) && ret <= |log| && Distinct(log, ws, ret)
    requires v.inst.rdValid ==> !Owned(log, ws, ret, v.rdPrf)
    ensures Distinct(log + [v], NextWriters(ws, v), ret)
  {
    AppendLive(log, ws, v, ret);
    assert v.inst.rdValid ==> forall j :: Live(log, ws, ret, j) ==> log[j].rdPrf != v.rdPrf;
  }

  lemma AppendLog(log: seq<MicroOp>, ws: seq<WriterTable>, v: MicroOp)
    requires WritersOk(log, ws) && LogOk(log, ws) && UopOk(log, ws[|log|], v)
    ensures LogOk(log + [v], NextWriters(ws, v))
  {
    var log', ws' := log + [v], NextWriters(ws, v);
    forall j | 0 <= j < |log'|
      ensures UopOk(log', ws'[j], log'[j])
    {
      UopOkAppend(log, ws[j], if j < |log| then log[j] else v, v);
    }
  }

  lemma UopOkAppend(log: seq<MicroOp>, w: WriterTable, u: MicroOp, v: MicroOp)
    requires UopOk(log, w, u) && forall r :: 0 <= r < 32 ==> w[r] < |log|
    ensures UopOk(log + [v], w, u)
  {
  }

  lemma AppendMap(m: MapTable, b: ArfBits, log: seq<MicroOp>, w: WriterTable, v: MicroOp)
    requires MapOk(m, b, log, w) && forall r :: 0 <= r < 32 ==> w[r] < |log|
    ensures MapOk(m, b, log + [v], w)
    ensures v.inst.rdValid ==>
              MapOk(m[v.inst.rd := v.rdPrf], b[v.inst.rd := true], log + [v], Written(w, v, |log|))
  {
  }

  lemma RenamedUopOk(s: RatState, log: seq<MicroOp>, w: WriterTable, u: MicroOp)
    requires MapOk(s.map_, s.valid, log, w) && u.valid && w[0] < 0
    requires u.inst.rdValid ==> u.inst.rd != 0 && LowestFree(s.free.busy) != 0
    ensures UopOk(log, w, Renamed(s, u))
  {
  }

  lemma {:induction false} AppendAt(s: RatState, log: seq<MicroOp>, ws: seq<WriterTable>, ret: nat, u: MicroOp)
    requires WritersOk(log, ws) && RatInvAt(s, log, ws, ret) && u.valid
    requires ws[|log|][0] < 0
    requires u.inst.rdValid ==> u.inst.rd != 0 && s.free.num > 0
    ensures RatInvAt(RenameUop(s, u), log + [Renamed(s, u)], NextWriters(ws, Renamed(s, u)), ret)
  {
    hide UopOk, Live, Distinct, LogOk, NextWriters, Renamed, RenameUop, LowestFree, CountsOk, MapOk;
    var v := Renamed(s, u);
    RenameShape(s, u);
    RenameFree(s, log, ws, ret, u);
    RenamedUopOk(s, log, ws[|log|], u);
    AppendLog(log, ws, v);
    WritersBelow(log, ws);
    AppendMap(s.map_, s.valid, log, ws[|log|], v);
    AppendMap(s.rRat, s.recoverValid, log, ws[ret], v);
    AppendDistinct(log, ws, ret, v);
    AppendBusy(s.free.busy, s.free.retiredBusy, log, ws, ret, v);
    hide WritersOk, BusyOk, RetiredBusyOk, Owned, RetiredOwned;
    NextWritersAt(log, ws, v, ret);
  }

  lemma WritersBelow(log: seq<MicroOp>, ws: seq<WriterTable>)
    requires WritersOk(log, ws)
    ensures forall i, r :: 0 <= i <= |log| && 0 <= r < 32 ==> ws[i][r] < |log|
  {
  }

  lemma NextWritersAt(log: seq<MicroOp>, ws: seq<WriterTable>, v: MicroOp, ret: nat)
    requires |ws| == |log| + 1 && ret <= |log|
    ensures var ws' := NextWriters(ws, v);
            |ws'| == |log + [v]| + 1 && ws'[ret] == ws[ret] && ws'[|log| + 1] == Written(ws[|log|], v, |log|)
    ensures !v.inst.rdValid ==> Written(ws[|log|], v, |log|) == ws[|log|]
  {
  }

  /** What renaming changes, in terms of the renamed uop. */
  lemma RenameShape(s: RatState, u: MicroOp)
    ensures var t, v := RenameUop(s, u), Renamed(s, u);
            && v.inst == u.inst && t.rRat == s.rRat && t.recoverValid == s.recoverValid
            && t.free.retiredBusy == s.free.retiredBusy
            && t.map_ == (if u.inst.rdValid && u.valid then s.map_[u.inst.rd := v.rdPrf] else s.map_)
            && t.valid == (if u.inst.rdValid && u.valid then s.valid[u.inst.rd := true] else s.valid)
            && t.free.busy == (if u.inst.rdValid && u.valid then s.free.busy[v.rdPrf := true] else s.free.busy)
  {
  }

  /** The register that renaming takes is not zero and owned by nobody, and the counts stay right. */
  lemma RenameFree(s: RatState, log: seq<MicroOp>, ws: seq<WriterTable>, ret: nat, u: MicroOp)
    requires |ws| == |log| + 1 && RatInvAt(s, log, ws, ret) && u.valid && (u.inst.rdValid ==> s.free.num > 0)
    ensures var v := Renamed(s, u);
            u.inst.rdValid ==> v.rdPrf != 0 && v.rdPrf == LowestFree(s.free.busy) && !Owned(log, ws, ret, v.rdPrf)
    ensures CountsOk(RenameUop(s, u).free)
  {
    hide UopOk, Live, Distinct, LogOk, MapOk, Owned;
    var v := Renamed(s, u);
    if u.inst.rdValid {
      FoundFree(s.free);
      CountUpdate(s.free.busy, v.rdPrf, true);
    }
  }

  /** No uop of a well-formed log writes register 0. */
  lemma {:induction false} ZeroUnwritten(log: seq<MicroOp>, ws: seq<WriterTable>, i: nat)
    requires WritersOk(log, ws) && LogOk(log, ws) && i <= |log|
    ensures ws[i][0] < 0
  {
    if i > 0 {
      ZeroUnwritten(log, ws, i - 1);
      assert UopOk(log, ws[i - 1], log[i - 1]) && ws[i - 1 + 1] == Written(ws[i - 1], log[i - 1], i - 1);
    }
  }

  /** Renaming one uop, with a register left for its destination, keeps the invariant. */
  lemma {:induction false} RenamePreserves(s: RatState, log: seq<MicroOp>, ret: nat, u: MicroOp)
    requires RatInv(s, log, ret) && u.valid
    requires u.inst.rdValid ==> u.inst.rd != 0 && s.free.num > 0
    ensures RatInv(RenameUop(s, u), log + [Renamed(s, u)], ret)
  {
    WritersAreOk(log);
    WritersAppend(log, Renamed(s, u));
    ZeroUnwritten(log, Writers(log), |log|);
    AppendAt(s, log, Writers(log), ret, u);
    AppendTally(s, log, ret, u);
  }

  lemma AppendTally(s: RatState, log: seq<MicroOp>, ret: nat, u: MicroOp)
    requires TallyOk(s, log, ret) && ret <= |log| && u.valid && CountsOk(s.free) && s.free.busy[0]
    requires u.inst.rdValid ==> s.free.num > 0
    ensures TallyOk(RenameUop(s, u), log + [Renamed(s, u)], ret)
  {
    assert (log + [Renamed(s, u)])[..|log|] == log;
    if u.inst.rdValid {
      FoundFree(s.free);
      CountUpdate(s.free.busy, LowestFree(s.free.busy), true);
    }
  }

  // ---- Retiring the oldest uop ----

  /** The uop that retirement ends the life of: the previous writer of the same register, -1 when there is none. */
  function Victim(ws: seq<WriterTable>, ret: nat, u: MicroOp): int
    requires ret < |ws|
  {
    if u.inst.rdValid then ws[ret][u.inst.rd] else -1
  }

  lemma RetireLive(log: seq<MicroOp>, ws: seq<WriterTable>, ret: nat)
    requires WritersOk(log, ws) && ret < |log|
    ensures forall j :: Live(log, ws, ret + 1, j) <==> Live(log, ws, ret, j) && j != Victim(ws, ret, log[ret])
  {
    var u := log[ret];
    assert ws[ret + 1] == Written(ws[ret], u, ret);
    forall j
      ensures Live(log, ws, ret + 1, j) <==> Live(log, ws, ret, j) && j != Victim(ws, ret, u)
    {
      if j == Victim(ws, ret, u) && j >= 0 {
        assert Writes(log[j], u.inst.rd);
      }
    }
  }

  /** The victim is live, retired, and its register is the one the retiring uop gives back. */
  lemma VictimIsPrev(log: seq<MicroOp>, ws: seq<WriterTable>, ret: nat)
    requires WritersOk(log, ws) && LogOk(log, ws) && ret < |log|
    ensures var u, k := log[ret], Victim(ws, ret, log[ret]);
            && u.prevValid == (k >= 0)
            && (k >= 0 ==> k < ret && Live(log, ws, ret, k) && log[k].rdPrf == u.prevPrf && u.prevPrf != 0)
  {
    var u, k := log[ret], Victim(ws, ret, log[ret]);
    assert UopOk(log, ws[ret], u);
    if k >= 0 {
      assert Writes(log[k], u.inst.rd) && UopOk(log, ws[k], log[k]);
    }
  }

  lemma RetireOwned(log: seq<MicroOp>, ws: seq<WriterTable>, ret: nat, p: Prf)
    requires WritersOk(log, ws) && LogOk(log, ws) && ret < |log| && Distinct(log, ws, ret)
    ensures var u := log[ret];
            Owned(log, ws, ret + 1, p) <==> Owned(log, ws, ret, p) && !(u.prevValid && p == u.prevPrf)
  {
    VictimIsPrev(log, ws, ret);
    RetireLive(log, ws, ret);
    if Owned(log, ws, ret, p) {
      var j :| Live(log, ws, ret, j) && log[j].rdPrf == p;
      assert j == Victim(ws, ret, log[ret]) || Live(log, ws, ret + 1, j);
    }
    if Owned(log, ws, ret + 1, p) {
      var j :| Live(log, ws, ret + 1, j) && log[j].rdPrf == p;
      assert Live(log, ws, ret, j);
    }
  }

  lemma RetireRetiredOwned(log: seq<MicroOp>, ws: seq<WriterTable>, ret: nat, p: Prf)
    requires WritersOk(log, ws) && LogOk(log, ws) && ret < |log| && Distinct(log, ws, ret)
    ensures var u := log[ret];
            RetiredOwned(log, ws, ret + 1, p) <==>
            (RetiredOwned(log, ws, ret, p) && !(u.prevValid && p == u.prevPrf)) || (u.inst.rdValid && p == u.rdPrf)
  {
    VictimIsPrev(log, ws, ret);
    RetireLive(log, ws, ret);
    var u := log[ret];
    if RetiredOwned(log, ws, ret, p) {
      var j :| Live(log, ws, ret, j) && j < ret && log[j].rdPrf == p;
      assert j == Victim(ws, ret, log[ret]) || Live(log, ws, ret + 1, j);
    }
    if u.inst.rdValid && p == u.rdPrf {
      assert Live(log, ws, ret, ret) && Live(log, ws, ret + 1, ret);
    }
    if RetiredOwned(log, ws, ret + 1, p) {
      var j :| Live(log, ws, ret + 1, j) && j < ret + 1 && log[j].rdPrf == p;
      assert Live(log, ws, ret, j);
    }
  }

  function FreedBy(u: MicroOp, busy: Bitmap): Bitmap {
    if u.prevValid then busy[u.prevPrf := false] else busy
  }

  function MarkedBy(u: MicroOp, busy: Bitmap): Bitmap {
    if u.inst.rdValid then busy[u.rdPrf := true] else busy
  }

  lemma RetireBusy(busy: Bitmap, rBusy: Bitmap, log: seq<MicroOp>, ws: seq<WriterTable>, ret: nat)
    requires WritersOk(log, ws) && LogOk(log, ws) && ret < |log| && Distinct(log, ws, ret)
    requires BusyOk(busy, log, ws, ret) && RetiredBusyOk(rBusy, log, ws, ret)
    ensures BusyOk(FreedBy(log[ret], busy), log, ws, ret + 1)
    ensures RetiredBusyOk(MarkedBy(log[ret], FreedBy(log[ret], rBusy)), log, ws, ret + 1)
  {
    VictimIsPrev(log, ws, ret);
    var u := log[ret];
    assert UopOk(log, ws[ret], u);
    forall p: Prf
      ensures FreedBy(u, busy)[p] <==> p == 0 || Owned(log, ws, ret + 1, p)
    {
      RetireOwned(log, ws, ret, p);
    }
    forall p: Prf
      ensures MarkedBy(u, FreedBy(u, rBusy))[p] <==> p == 0 || RetiredOwned(log, ws, ret + 1, p)
    {
      RetireRetiredOwned(log, ws, ret, p);
    }
  }

  /** A retiring destination is not yet retired state, and the register it replaces is busy in both bitmaps. */
  lemma RetireBits(busy: Bitmap, rBusy: Bitmap, log: seq<MicroOp>, ws: seq<WriterTable>, ret: nat)
    requires WritersOk(log, ws) && LogOk(log, ws) && ret < |log| && Distinct(log, ws, ret)
    requires BusyOk(busy, log, ws, ret) && RetiredBusyOk(rBusy, log, ws, ret)
    ensures var u := log[ret];
            && (u.prevValid ==> u.prevPrf != 0 && busy[u.prevPrf] && rBusy[u.prevPrf])
            && (u.inst.rdValid ==> !rBusy[u.rdPrf] && (u.prevValid ==> u.prevPrf != u.rdPrf))
  {
    var u, k := log[ret], Victim(ws, ret, log[ret]);
    VictimIsPrev(log, ws, ret);
    assert UopOk(log, ws[ret], u);
    if u.prevValid {
      assert Owned(log, ws, ret, u.prevPrf) && RetiredOwned(log, ws, ret, u.prevPrf);
    }
    if u.inst.rdValid {
      assert Live(log, ws, ret, ret);
      assert forall j :: Live(log, ws, ret, j) && j < ret ==> log[j].rdPrf != u.rdPrf;
    }
  }

  lemma RetireCounts(f: FreeListState, u: MicroOp)
    requires CountsOk(f) && f.busy[0] && f.retiredBusy[0] && u.valid
    requires u.prevValid ==> u.prevPrf != 0 && f.busy[u.prevPrf] && f.retiredBusy[u.prevPrf]
    requires u.inst.rdValid ==> !f.retiredBusy[u.rdPrf] && (u.prevValid ==> u.prevPrf != u.rdPrf)
    ensures var t := RetireOne(f, Port(u));
            CountsOk(t) && t.busy == FreedBy(u, f.busy) && t.retiredBusy == MarkedBy(u, FreedBy(u, f.retiredBusy))
  {
    hide CountTrue;
    if u.prevValid {
      FreeCount(f.busy, f.num, u.prevPrf);
      FreeCount(f.retiredBusy, f.retiredNum, u.prevPrf);
    }
    if u.inst.rdValid {
      MarkCount(FreedBy(u, f.retiredBusy), u.rdPrf);
    }
  }

  lemma FreeCount(b: Bitmap, n: nat, p: Prf)
    requires b[0] && b[p] && p != 0 && n == 64 - CountTrue(b)
    ensures (n + 1) % 64 == 64 - CountTrue(b[p := false])
  {
    CountUpdate(b, p, false);
    CountFull(b[p := false]);
    assert b[p := false][0];
  }

  lemma MarkCount(b: Bitmap, p: Prf)
    requires !b[p] && b[0]
    ensures CountTrue(b[p := true]) == CountTrue(b) + 1
    ensures 1 <= CountTrue(b) < 64
  {
    CountUpdate(b, p, true);
    CountFull(b);
  }

  lemma RetireMap(s: RatState, log: seq<MicroOp>, ws: seq<WriterTable>, ret: nat)
    requires WritersOk(log, ws) && ret < |log| && MapOk(s.rRat, s.recoverValid, log, ws[ret]) && log[ret].valid
    ensures MapOk(RetireUop(s, log[ret]).rRat, RetireUop(s, log[ret]).recoverValid, log, ws[ret + 1])
  {
    assert ws[ret + 1] == Written(ws[ret], log[ret], ret);
  }

  lemma {:induction false} RetireAt(s: RatState, log: seq<MicroOp>, ws: seq<WriterTable>, ret: nat)
    requires WritersOk(log, ws) && RatInvAt(s, log, ws, ret) && ret < |log|
    ensures RatInvAt(RetireUop(s, log[ret]), log, ws, ret + 1)
  {
    assert UopOk(log, ws[ret], log[ret]);
    RetireMap(s, log, ws, ret);
    RetireLive(log, ws, ret);
    RetireBits(s.free.busy, s.free.retiredBusy, log, ws, ret);
    RetireBusy(s.free.busy, s.free.retiredBusy, log, ws, ret);
    RetireCounts(s.free, log[ret]);
  }

  /** Retiring the oldest in-flight uop keeps the invariant. */
  lemma {:induction false} RetirePreserves(s: RatState, log: seq<MicroOp>, ret: nat)
    requires RatInv(s, log, ret) && ret < |log|
    ensures RatInv(RetireUop(s, log[ret]), log, ret + 1)
  {
    WritersAreOk(log);
    RetireAt(s, log, Writers(log), ret);
    RetireTally(s, log, ret);
  }

  lemma {:induction false} InFlightSplit(log: seq<MicroOp>, ret: nat)
    requires ret < |log|
    ensures InFlight(log, ret) == InFlight(log, ret + 1) + (if log[ret].inst.rdValid then 1 else 0)
  {
    if ret + 1 < |log| {
      InFlightSplit(log[..|log| - 1], ret);
    }
  }

  lemma {:induction false} RetireTally(s: RatState, log: seq<MicroOp>, ret: nat)
    requires RatInv(s, log, ret) && ret < |log|
    ensures TallyOk(RetireUop(s, log[ret]), log, ret + 1)
  {
    var u, ws := log[ret], Writers(log);
    WritersAreOk(log);
    assert UopOk(log, ws[ret], u);
    InFlightSplit(log, ret);
    RetireBits(s.free.busy, s.free.retiredBusy, log, ws, ret);
    RetireCounts(s.free, u);
    if u.prevValid {
      CountUpdate(s.free.busy, u.prevPrf, false);
      CountUpdate(s.free.retiredBusy, u.prevPrf, false);
    }
    if u.inst.rdValid {
      CountUpdate(FreedBy(u, s.free.retiredBusy), u.rdPrf, true);
      CountUpdate(s.recoverValid, u.inst.rd, true);
    }
  }

  // ---- Recovery ----

  lemma CutOwned(log: seq<MicroOp>, ws: seq<WriterTable>, ret: nat, p: Prf)
    requires WritersOk(log, ws) && ret <= |log|
    ensures Owned(log[..ret], ws[..ret + 1], ret, p) <==> RetiredOwned(log, ws, ret, p)
    ensures RetiredOwned(log[..ret], ws[..ret + 1], ret, p) <==> RetiredOwned(log, ws, ret, p)
  {
    var log', ws' := log[..ret], ws[..ret + 1];
    if RetiredOwned(log, ws, ret, p) {
      var j :| Live(log, ws, ret, j) && j < ret && log[j].rdPrf == p;
      assert Live(log', ws', ret, j) && log'[j].rdPrf == p;
    }
    if Owned(log', ws', ret, p) {
      var j :| Live(log', ws', ret, j) && log'[j].rdPrf == p;
      assert Live(log, ws, ret, j);
    }
  }

  lemma CutUopOk(log: seq<MicroOp>, w: WriterTable, u: MicroOp, ret: nat)
    requires UopOk(log, w, u) && ret <= |log| && forall r :: 0 <= r < 32 ==> w[r] < ret
    ensures UopOk(log[..ret], w, u)
  {
  }

  lemma RecoverAt(s: RatState, log: seq<MicroOp>, ws: seq<WriterTable>, ret: nat)
    requires WritersOk(log, ws) && RatInvAt(s, log, ws, ret)
    ensures RatInvAt(Recover(s), log[..ret], ws[..ret + 1], ret)
  {
    var log', ws' := log[..ret], ws[..ret + 1];
    assert LogOk(log', ws') by {
      forall j | 0 <= j < ret
        ensures UopOk(log', ws'[j], log'[j])
      {
        CutUopOk(log, ws[j], log[j], ret);
      }
    }
    assert Distinct(log', ws', ret) by {
      assert forall j :: Live(log', ws', ret, j) ==> Live(log, ws, ret, j) && log'[j] == log[j];
    }
    assert BusyOk(s.free.retiredBusy, log', ws', ret) && RetiredBusyOk(s.free.retiredBusy, log', ws', ret) by {
      forall p: Prf
        ensures Owned(log', ws', ret, p) <==> RetiredOwned(log, ws, ret, p)
        ensures RetiredOwned(log', ws', ret, p) <==> RetiredOwned(log, ws, ret, p)
      {
        CutOwned(log, ws, ret, p);
      }
    }
  }

  /** Recovery restores exactly the state in which only the retired uops were ever renamed. */
  lemma RecoverPreserves(s: RatState, log: seq<MicroOp>, ret: nat)
    requires RatInv(s, log, ret)
    ensures RatInv(Recover(s), log[..ret], ret)
  {
    WritersAreOk(log);
    WritersPrefix(log, ret);
    RecoverAt(s, log, Writers(log), ret);
  }
}
