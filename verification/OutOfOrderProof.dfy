/**
 Every event of the out-of-order core keeps its invariant, hence the core refines the in-order machine.
 */
module OutOfOrderProof {
  import opened MicroOps
  import opened Memories
  import opened StoreBuffers
  import opened RegisterFiles
  import opened MappingTables
  import opened Renaming
  import opened Sequential
  import opened IssueQueueMems
  import opened OutOfOrder

  // ---- Registers: sources and results ----

  /** What a ready board says about one source of a waiting uop. */
  lemma SourceIsDone(m: Machine, c: Core, ws: seq<WriterTable>, archs: seq<Arch>, j: nat, src: Source, r: Arf, p: Prf)
    requires Shapes(c, ws, archs) && WritersOk(c.log, ws) && LogOk(c.log, ws)
    requires ValuesOk(m, c, ws, archs) && BoardOk(c)
    requires c.ret <= j < |c.log| && c.st[j] == Waiting
    requires p == Holder(c.log, ws[j], r) && !SeenBusy(c.sb, [], SourceIndex(src, p))
    ensures SourceDone(c, ws[j], src, r)
  {
    var w := ws[j][r];
    if src == RsFromRf && w >= 0 {
      assert Writes(c.log[w], r) && UopOk(c.log, ws[w], c.log[w]);
      assert StatusOk(c, ws, archs[w], w);
      assert !Strobed([], p);
    }
  }

  /** The register file gives a source of uop j the value it has in order. */
  lemma SourceValue(m: Machine, c: Core, ws: seq<WriterTable>, archs: seq<Arch>, j: nat, src: Source, r: Arf, p: Prf)
    requires Shapes(c, ws, archs) && WritersOk(c.log, ws) && LogOk(c.log, ws) && ArchsOk(m, c.log, archs)
    requires ValuesOk(m, c, ws, archs)
    requires c.ret <= j < |c.log| && SourceDone(c, ws[j], src, r) && p == Holder(c.log, ws[j], r)
    ensures var i := c.log[j].inst;
            Operand(i, src, ReadReg(c.prf, SourceIndex(src, p))) ==
            Operand(i, src, if r == 0 then 0 else archs[j].regs[r])
  {
    if src == RsFromRf {
      var w := ws[j][r];
      ZeroUnwritten(c.log, ws, j);
      LastWriterValue(m, c.log, ws, archs, j, r);
      if w >= 0 {
        WriterStable(c.log, ws, c.ret, j, r);
        assert Writes(c.log[w], r) && UopOk(c.log, ws[w], c.log[w]);
        assert Live(c.log, ws, c.ret, w);
      }
    }
  }

  /** A status change that neither starts nor ends completion. */
  lemma ValuesAfterStatus(m: Machine, c: Core, d: Core, ws: seq<WriterTable>, archs: seq<Arch>, i: nat)
    requires Shapes(c, ws, archs) && ValuesOk(m, c, ws, archs)
    requires i < |c.st| == |d.st| && d.log == c.log && d.ret == c.ret && d.prf == c.prf
    requires !c.st[i].Done? && !d.st[i].Done? && d.st == c.st[i := d.st[i]]
    requires StatusOk(d, ws, archs[i], i)
    ensures ValuesOk(m, d, ws, archs)
  {
    forall j | 0 <= j < |d.log|
      ensures StatusOk(d, ws, archs[j], j)
    {
      assert StatusOk(c, ws, archs[j], j);
    }
  }

  lemma ValuesAfterComplete(m: Machine, c: Core, ws: seq<WriterTable>, archs: seq<Arch>, i: nat, result: Word,
                            outcome: Status)
    requires Shapes(c, ws, archs) && ValuesOk(m, c, ws, archs) && LogOk(c.log, ws) && Distinct(c.log, ws, c.ret)
    requires c.ret <= i < |c.log| && !c.st[i].Done? && outcome.Done?
    requires c.log[i].inst.rdValid ==> result == archs[i + 1].regs[c.log[i].inst.rd]
    requires StatusOk(Complete(c, i, result, outcome), ws, archs[i], i)
    ensures ValuesOk(m, Complete(c, i, result, outcome), ws, archs)
  {
    var d := Complete(c, i, result, outcome);
    assert UopOk(c.log, ws[i], c.log[i]);
    hide LogOk, Distinct, UopOk;
    CompleteRegisters(m, c, ws, archs, i, result, outcome);
    hide Live;
    forall j | 0 <= j < |d.log|
      ensures StatusOk(d, ws, archs[j], j)
    {
      assert StatusOk(c, ws, archs[j], j);
      if j != i {
        StatusAfterComplete(c, ws, archs[j], i, j, result, outcome);
      }
    }
    hide StatusOk, Complete;
  }

  lemma StatusAfterComplete(c: Core, ws: seq<WriterTable>, a: Arch, i: nat, j: nat, result: Word, outcome: Status)
    requires |c.st| == |c.log| && |ws| == |c.log| + 1 && i < |c.log| && j < |c.log| && i != j
    requires StatusOk(c, ws, a, j) && outcome.Done?
    ensures StatusOk(Complete(c, i, result, outcome), ws, a, j)
  {
  }

  lemma CompleteRegisters(m: Machine, c: Core, ws: seq<WriterTable>, archs: seq<Arch>, i: nat, result: Word,
                          outcome: Status)
    requires Shapes(c, ws, archs) && ValuesOk(m, c, ws, archs) && Distinct(c.log, ws, c.ret)
    requires c.ret <= i < |c.log| && outcome.Done?
    requires c.log[i].inst.rdValid ==> c.log[i].rdPrf != 0 && result == archs[i + 1].regs[c.log[i].inst.rd]
    ensures var d := Complete(c, i, result, outcome);
            forall j :: Live(d.log, ws, d.ret, j) && d.st[j].Done? ==>
              d.prf[d.log[j].rdPrf] == archs[j + 1].regs[d.log[j].inst.rd]
  {
    hide StatusOk;
    var d := Complete(c, i, result, outcome);
    forall j | Live(d.log, ws, d.ret, j) && d.st[j].Done?
      ensures d.prf[d.log[j].rdPrf] == archs[j + 1].regs[d.log[j].inst.rd]
    {
      if c.log[i].inst.rdValid {
        assert Live(c.log, ws, c.ret, i) && Live(c.log, ws, c.ret, j);
      }
    }
  }

  lemma BoardAfterComplete(c: Core, ws: seq<WriterTable>, i: nat, result: Word, outcome: Status)
    requires |c.st| == |c.log| && |ws| == |c.log| + 1 && c.ret <= |c.log| && BoardOk(c) && Distinct(c.log, ws, c.ret)
    requires c.ret <= i < |c.log| && c.st[i].HasOperands? && outcome.Done?
    ensures BoardOk(Complete(c, i, result, outcome))
  {
    var d := Complete(c, i, result, outcome);
    forall j | d.ret <= j < |d.st| && d.log[j].inst.rdValid && d.st[j] != InRename && !d.st[j].Done?
      ensures d.sb[d.log[j].rdPrf]
    {
      assert c.log[i].inst.rdValid ==> Live(c.log, ws, c.ret, i) && Live(c.log, ws, c.ret, j);
    }
  }

  lemma ValuesAfterRename(m: Machine, c: Core, d: Core, ws: seq<WriterTable>, archs: seq<Arch>)
    requires Shapes(c, ws, archs) && ValuesOk(m, c, ws, archs) && WritersOk(c.log, ws)
    requires |d.log| == |c.log| + 1 && d.log[..|c.log|] == c.log && d.st == c.st + [InRename]
    requires d.ret == c.ret && d.prf == c.prf
    ensures var v := d.log[|c.log|]; ValuesOk(m, d, NextWriters(ws, v), NextArchs(m, archs, v))
  {
    var v := d.log[|c.log|];
    var ws', archs' := NextWriters(ws, v), NextArchs(m, archs, v);
    assert d.log == c.log + [v];
    AppendLive(c.log, ws, v, c.ret);
    hide Exec;
    forall j | 0 <= j < |d.log|
      ensures StatusOk(d, ws', archs'[j], j)
    {
      if j < |c.log| {
        assert ws'[j] == ws[j] && archs'[j] == archs[j];
        StatusAfterAppend(c, d, ws, ws', archs[j], j);
      }
    }
    forall j | Live(d.log, ws', d.ret, j) && d.st[j].Done?
      ensures d.prf[d.log[j].rdPrf] == archs'[j + 1].regs[d.log[j].inst.rd]
    {
      assert Live(c.log, ws, c.ret, j) && d.log[j] == c.log[j] && archs'[j + 1] == archs[j + 1];
    }
  }

  lemma StatusAfterAppend(c: Core, d: Core, ws: seq<WriterTable>, ws': seq<WriterTable>, a: Arch, j: nat)
    requires |c.st| == |c.log| && |ws| == |c.log| + 1 && j < |c.log| && StatusOk(c, ws, a, j)
    requires |d.log| == |d.st| == |c.log| + 1 && |ws'| == |d.log| + 1
    requires d.log[..|c.log|] == c.log && d.st == c.st + [InRename]
    requires d.ret == c.ret && ws'[j] == ws[j]
    ensures StatusOk(d, ws', a, j)
  {
    hide Op1, Op2, BranchTaken, BranchTarget;
    assert d.log[j] == c.log[j];
  }

  lemma ValuesAfterRetire(m: Machine, c: Core, d: Core, ws: seq<WriterTable>, archs: seq<Arch>)
    requires Shapes(c, ws, archs) && ValuesOk(m, c, ws, archs) && WritersOk(c.log, ws) && CanRetire(c)
    requires d.log == c.log && d.st == c.st && d.prf == c.prf && d.ret == c.ret + 1
    ensures ValuesOk(m, d, ws, archs)
  {
    RetireLive(c.log, ws, c.ret);
    forall j | 0 <= j < |d.log|
      ensures StatusOk(d, ws, archs[j], j)
    {
      assert StatusOk(c, ws, archs[j], j);
    }
  }

  lemma ValuesAfterCut(m: Machine, c: Core, d: Core, ws: seq<WriterTable>, archs: seq<Arch>)
    requires Shapes(c, ws, archs) && ValuesOk(m, c, ws, archs) && WritersOk(c.log, ws)
    requires d.log == c.log[..c.ret] && d.st == c.st[..c.ret] && d.prf == c.prf && d.ret == c.ret
    ensures ValuesOk(m, d, ws[..c.ret + 1], archs[..c.ret + 1])
  {
    forall j | 0 <= j < |d.log|
      ensures StatusOk(d, ws[..c.ret + 1], archs[j], j)
    {
      assert StatusOk(c, ws, archs[j], j);
    }
    forall j | Live(d.log, ws[..c.ret + 1], d.ret, j)
      ensures d.st[j].Done? ==> d.prf[d.log[j].rdPrf] == archs[j + 1].regs[d.log[j].inst.rd]
    {
      assert Live(c.log, ws, c.ret, j);
    }
  }

  // ---- Stores and loads ----

  /** DoneStores only looks at which stores have completed. */
  lemma {:induction false} DoneStoresSame(c: Core, d: Core, archs: seq<Arch>, lo: nat, hi: nat)
    requires |c.st| == |c.log| == |d.st| && |archs| == |c.log| + 1 && hi <= |c.log| && d.log == c.log
    requires forall j :: lo <= j < hi && IsStoreInst(c.log[j].inst) ==> c.st[j].Done? == d.st[j].Done?
    ensures DoneStores(d.log, d.st, archs, lo, hi) == DoneStores(c.log, c.st, archs, lo, hi)
    decreases hi
  {
    if lo < hi {
      DoneStoresSame(c, d, archs, lo, hi - 1);
    }
  }

  lemma {:induction false} DoneStoresAppend(m: Machine, log: seq<MicroOp>, st: seq<Status>, archs: seq<Arch>,
                                            v: MicroOp, s: Status, lo: nat, hi: nat)
    requires |st| == |log| && |archs| == |log| + 1 && hi <= |log|
    ensures DoneStores(log + [v], st + [s], NextArchs(m, archs, v), lo, hi) == DoneStores(log, st, archs, lo, hi)
    decreases hi
  {
    hide Exec;
    if lo < hi {
      DoneStoresAppend(m, log, st, archs, v, s, lo, hi - 1);
    }
  }

  /** No completed store at or after i: only the part before i counts. */
  lemma {:induction false} DoneStoresUpTo(c: Core, archs: seq<Arch>, lo: nat, i: nat, hi: nat)
    requires |c.st| == |c.log| && |archs| == |c.log| + 1 && lo <= i <= hi <= |c.log|
    requires forall k :: i <= k < hi && IsStoreInst(c.log[k].inst) ==> !c.st[k].Done?
    ensures DoneStores(c.log, c.st, archs, lo, hi) == DoneStores(c.log, c.st, archs, lo, i)
    decreases hi
  {
    if i < hi {
      DoneStoresUpTo(c, archs, lo, i, hi - 1);
    }
  }

  lemma ExecMemory(m: Machine, a: Arch, i: Inst)
    ensures Exec(m, a, i).mem == if IsStoreInst(i) then Effect(a.mem, Request(a, i)) else a.mem
    ensures Exec(m, a, i).printed == a.printed + if IsStoreInst(i) then Printed(Request(a, i)) else []
  {
  }

  lemma DoneStoresLast(c: Core, archs: seq<Arch>, lo: nat, i: nat)
    requires |c.st| == |c.log| && |archs| == |c.log| + 1 && lo <= i < |c.log|
    ensures DoneStores(c.log, c.st, archs, lo, i + 1) ==
            DoneStores(c.log, c.st, archs, lo, i) + DoneStore(c.log[i], c.st[i], archs[i])
  {
  }

  lemma ApplyLast(m: Memory, buf: seq<StoreReq>, r: StoreReq)
    ensures EffectAll(m, buf + [r]) == Effect(EffectAll(m, buf), r)
  {
    assert (buf + [r])[..|buf|] == buf;
  }

  /** With every store before hi completed, applying them gives the in-order memory before uop hi. */
  lemma {:induction false} DoneStoresMemory(m: Machine, c: Core, archs: seq<Arch>, lo: nat, hi: nat)
    requires |c.st| == |c.log| && ArchsOk(m, c.log, archs) && lo <= hi <= |c.log|
    requires forall k :: lo <= k < hi && IsStoreInst(c.log[k].inst) ==> c.st[k].Done?
    ensures EffectAll(archs[lo].mem, DoneStores(c.log, c.st, archs, lo, hi)) == archs[hi].mem
    decreases hi
  {
    hide Exec, Request, Effect, EffectAll, IsStoreInst, DoneStores;
    if lo < hi {
      var i, p := hi - 1, DoneStores(c.log, c.st, archs, lo, hi - 1);
      var u, q := c.log[i], DoneStore(c.log[i], c.st[i], archs[i]);
      DoneStoresMemory(m, c, archs, lo, i);
      DoneStoresLast(c, archs, lo, i);
      ExecMemory(m, archs[i], u.inst);
      assert archs[i + 1] == Exec(m, archs[i], u.inst);
      if IsStoreInst(u.inst) {
        assert q == [Request(archs[i], u.inst)];
        ApplyLast(archs[lo].mem, p, Request(archs[i], u.inst));
      } else {
        assert p + q == p;
      }
    } else {
      NoDoneStores(m, c, archs, lo);
    }
  }

  lemma NoDoneStores(m: Machine, c: Core, archs: seq<Arch>, lo: nat)
    requires |c.st| == |c.log| && |archs| == |c.log| + 1 && lo <= |c.log|
    ensures EffectAll(archs[lo].mem, DoneStores(c.log, c.st, archs, lo, lo)) == archs[lo].mem
  {
  }

  /** The request of the oldest uop, if it is a completed store, is the front. */
  lemma {:induction false} DoneStoresFront(c: Core, archs: seq<Arch>, hi: nat)
    requires |c.st| == |c.log| && |archs| == |c.log| + 1 && c.ret < hi <= |c.log|
    ensures DoneStores(c.log, c.st, archs, c.ret, hi) ==
            DoneStore(c.log[c.ret], c.st[c.ret], archs[c.ret]) + DoneStores(c.log, c.st, archs, c.ret + 1, hi)
    decreases hi
  {
    hide DoneStore;
    if c.ret + 1 < hi {
      DoneStoresFront(c, archs, hi - 1);
    } else {
      assert DoneStores(c.log, c.st, archs, c.ret, c.ret) == [];
      assert DoneStores(c.log, c.st, archs, c.ret + 1, hi) == [];
    }
  }

  lemma {:induction false} DoneStoresCut(c: Core, archs: seq<Arch>, k: nat, lo: nat, hi: nat)
    requires |c.st| == |c.log| && |archs| == |c.log| + 1 && hi <= k <= |c.log|
    ensures DoneStores(c.log[..k], c.st[..k], archs[..k + 1], lo, hi) == DoneStores(c.log, c.st, archs, lo, hi)
    decreases hi
  {
    if lo < hi {
      DoneStoresCut(c, archs, k, lo, hi - 1);
    }
  }

  /** A dispatched, uncompleted memory uop other than the front of the pipe comes later in the queues. */
  lemma BehindFront(c: Core, x: nat)
    requires |c.st| == |c.log| && QueuesOk(c) && c.pipe != [] && Pending(c, x)
    requires IsStore(c.log[x]) || (c.pipe[0] < |c.log| && IsStore(c.log[c.pipe[0]]))
    ensures c.pipe[0] <= x
  {
    var o := c.pipe + c.mq;
    assert o[0] == c.pipe[0] && x in o;
    var b :| 0 <= b < |o| && o[b] == x;
  }


  // ---- Events ----

  /** All facts about a state, in terms of the in-order meaning of its log. */
  ghost predicate FullInv(m: Machine, c: Core, ws: seq<WriterTable>, archs: seq<Arch>) {
    && Shapes(c, ws, archs)
    && RatInvAt(c.rat, c.log, ws, c.ret) && TallyOk(c.rat, c.log, c.ret)
    && WritersOk(c.log, ws) && ArchsOk(m, c.log, archs)
    && InvAt(m, c, ws, archs)
  }

  // Predicates look only at some of the fields.

  lemma ValuesFrame(m: Machine, c: Core, d: Core, ws: seq<WriterTable>, archs: seq<Arch>)
    requires Shapes(c, ws, archs) && ValuesOk(m, c, ws, archs)
    requires d.log == c.log && d.st == c.st && d.ret == c.ret && d.prf == c.prf
    ensures ValuesOk(m, d, ws, archs)
  {
    forall j | 0 <= j < |d.log|
      ensures StatusOk(d, ws, archs[j], j)
    {
      assert StatusOk(c, ws, archs[j], j);
    }
  }

  lemma PathFrame(m: Machine, c: Core, d: Core, archs: seq<Arch>)
    requires |archs| == |c.log| + 1 && c.ret <= |c.log| && PathOk(m, c, archs)
    requires d.log == c.log && d.ret == c.ret && d.fetchPc == c.fetchPc && d.hole == c.hole
    ensures PathOk(m, d, archs)
  {
  }

  lemma MemoryFrame(c: Core, d: Core, ws: seq<WriterTable>, archs: seq<Arch>)
    requires Shapes(c, ws, archs) && MemoryOk(c, archs)
    requires d.log == c.log && d.ret == c.ret && d.mem == c.mem && d.buf == c.buf && |d.st| == |c.st|
    requires d.printed == c.printed
    requires forall j :: c.ret <= j < |c.log| && IsStoreInst(c.log[j].inst) ==> c.st[j].Done? == d.st[j].Done?
    ensures MemoryOk(d, archs)
  {
    DoneStoresSame(c, d, archs, c.ret, |c.log|);
  }

  lemma NotRetired(m: Machine, c: Core, ws: seq<WriterTable>, archs: seq<Arch>, i: nat)
    requires Shapes(c, ws, archs) && ValuesOk(m, c, ws, archs) && i < |c.log| && !c.st[i].Done?
    ensures c.ret <= i
  {
    assert StatusOk(c, ws, archs[i], i);
  }

  lemma RatFacts(m: Machine, c: Core, ws: seq<WriterTable>, archs: seq<Arch>)
    requires FullInv(m, c, ws, archs)
    ensures LogOk(c.log, ws) && Distinct(c.log, ws, c.ret)
  {
  }

  // Rename

  lemma RenameShape(c: Core, u: MicroOp)
    ensures var v := Renamed(c.rat, u);
            v.inst == u.inst && v.predTaken == u.predTaken && v.predAddr == u.predAddr && Follow(v) == Follow(u)
  {
  }

  lemma RenameQueues(c: Core, d: Core)
    requires |c.st| == |c.log| && c.ret <= |c.log| && QueuesOk(c) && BoardOk(c) && StoresInOrder(c)
    requires |d.log| == |c.log| + 1 && d.log[..|c.log|] == c.log && d.st == c.st + [InRename]
    requires d.ret == c.ret && d.mq == c.mq && d.pipe == c.pipe && d.sb == c.sb
    ensures QueuesOk(d) && BoardOk(d) && StoresInOrder(d)
  {
    assert forall j :: 0 <= j < |c.log| ==> d.log[j] == c.log[j] && d.st[j] == c.st[j];
    var o := c.pipe + c.mq;
    assert forall i :: 0 <= i < |c.log| ==> (Pending(d, i) <==> Pending(c, i));
    assert |c.log| !in o;
    assert forall a :: 0 <= a < |c.mq| ==> c.mq[a] == o[|c.pipe| + a];
  }

  lemma RenamePath(m: Machine, c: Core, d: Core, archs: seq<Arch>)
    requires |archs| == |c.log| + 1 && c.ret <= |c.log| && PathOk(m, c, archs)
    requires |d.log| == |c.log| + 1 && d.log[..|c.log|] == c.log && d.ret == c.ret && d.hole == c.hole
    requires var v := d.log[|c.log|];
             && v.inst == m.program(c.fetchPc) && (v.predTaken ==> v.inst.brType != BrX)
             && InstOk(v.inst, c.fetchPc) && d.fetchPc == Follow(v)
    ensures PathOk(m, d, NextArchs(m, archs, d.log[|c.log|]))
  {
    hide Exec;
    assert forall j :: 0 <= j < |c.log| ==> d.log[j] == c.log[j];
  }

  lemma {:induction false} RenameMemory(m: Machine, c: Core, d: Core, ws: seq<WriterTable>, archs: seq<Arch>, v: MicroOp)
    requires Shapes(c, ws, archs) && MemoryOk(c, archs)
    requires d.log == c.log + [v] && d.st == c.st + [InRename] && d.ret == c.ret && d.mem == c.mem && d.buf == c.buf
    requires d.printed == c.printed
    ensures MemoryOk(d, NextArchs(m, archs, v))
  {
    hide Exec;
    DoneStoresAppend(m, c.log, c.st, archs, v, InRename, c.ret, |c.log|);
    assert DoneStores(d.log, d.st, NextArchs(m, archs, v), c.ret, |d.log|) ==
           DoneStores(d.log, d.st, NextArchs(m, archs, v), c.ret, |c.log|);
  }

  lemma RenameKeeps(m: Machine, c: Core, u: MicroOp, ws: seq<WriterTable>, archs: seq<Arch>)
    requires ProgramOk(m) && FullInv(m, c, ws, archs) && CanRename(m, c, u)
    ensures var d, v := RenameStep(c, u), Renamed(c.rat, u);
            InvAt(m, d, NextWriters(ws, v), NextArchs(m, archs, v))
  {
    hide Exec, ValuesOk, StatusOk, BoardOk, QueuesOk, StoresInOrder, MemoryOk, PathOk, RatInvAt, TallyOk, WritersOk,
      ArchsOk, LogOk, Distinct, RenameUop, Renamed, InstOk;
    var d, v := RenameStep(c, u), Renamed(c.rat, u);
    assert InstOk(m.program(c.fetchPc), c.fetchPc);
    RenameShape(c, u);
    assert d.log[..|c.log|] == c.log;
    ValuesAfterRename(m, c, d, ws, archs);
    RenameQueues(c, d);
    RenameMemory(m, c, d, ws, archs, v);
    RenamePath(m, c, d, archs);
  }

  // Issue and operand read

  /** Status changes that concern neither queues nor completion. */
  lemma StatusKeeps(m: Machine, c: Core, ws: seq<WriterTable>, archs: seq<Arch>, i: nat, x: Status)
    requires Shapes(c, ws, archs) && InvAt(m, c, ws, archs) && i < |c.st|
    requires !c.st[i].Done? && !x.Done? && c.st[i] != InRename && x != InRename
    requires IsMem(c.log[i].inst) ==> c.st[i] != Waiting && x != Waiting
    requires StatusOk(c.(st := c.st[i := x]), ws, archs[i], i)
    ensures InvAt(m, c.(st := c.st[i := x]), ws, archs)
  {
    hide Exec, ValuesOk, StatusOk, BoardOk, QueuesOk, StoresInOrder, MemoryOk, PathOk, RatInvAt, TallyOk, WritersOk,
      ArchsOk, LogOk, Distinct;
    var d := c.(st := c.st[i := x]);
    ValuesAfterStatus(m, c, d, ws, archs, i);
    MemoryFrame(c, d, ws, archs);
    PathFrame(m, c, d, archs);
    StatusQueues(c, i, x);
  }

  lemma StatusQueues(c: Core, i: nat, x: Status)
    requires |c.st| == |c.log| && i < |c.st| && QueuesOk(c) && BoardOk(c) && StoresInOrder(c)
    requires !c.st[i].Done? && !x.Done? && c.st[i] != InRename && x != InRename
    requires IsMem(c.log[i].inst) ==> c.st[i] != Waiting && x != Waiting
    ensures var d := c.(st := c.st[i := x]); QueuesOk(d) && BoardOk(d) && StoresInOrder(d)
  {
    var d := c.(st := c.st[i := x]);
    assert forall y :: 0 <= y < |c.log| ==> (Pending(d, y) <==> Pending(c, y));
  }

  lemma IssuedOk(m: Machine, c: Core, i: nat, ws: seq<WriterTable>, archs: seq<Arch>, d: Core)
    requires Shapes(c, ws, archs) && ValuesOk(m, c, ws, archs) && BoardOk(c)
    requires WritersOk(c.log, ws) && LogOk(c.log, ws)
    requires c.ret <= i < |c.log| && c.st[i] == Waiting && SourcesReady(c, c.log[i])
    requires d.log == c.log && d.ret == c.ret && d.st == c.st[i := Issued]
    ensures StatusOk(d, ws, archs[i], i)
  {
    hide ValuesOk, BoardOk, WritersOk;
    var u := c.log[i];
    assert UopOk(c.log, ws[i], u);
    SourceIsDone(m, c, ws, archs, i, u.inst.rs1Source, u.inst.rs1, u.rs1Prf);
    SourceIsDone(m, c, ws, archs, i, u.inst.rs2Source, u.inst.rs2, u.rs2Prf);
    WritersBound(c.log, ws, i);
  }

  lemma WritersBound(log: seq<MicroOp>, ws: seq<WriterTable>, i: nat)
    requires WritersOk(log, ws) && i <= |log|
    ensures forall r: Arf :: ws[i][r] < i
  {
  }

  lemma IssueIntKeeps(m: Machine, c: Core, i: nat, ws: seq<WriterTable>, archs: seq<Arch>)
    requires FullInv(m, c, ws, archs) && CanIssueInt(c, i)
    ensures InvAt(m, IssueIntStep(c, i), ws, archs)
  {
    RatFacts(m, c, ws, archs);
    hide Exec, ValuesOk, StatusOk, BoardOk, QueuesOk, StoresInOrder, MemoryOk, PathOk, RatInvAt, TallyOk, WritersOk,
      ArchsOk, LogOk, Distinct, SourcesReady;
    NotRetired(m, c, ws, archs, i);
    IssuedOk(m, c, i, ws, archs, IssueIntStep(c, i));
    StatusKeeps(m, c, ws, archs, i, Issued);
  }

  lemma {:induction false} ReadKeeps(m: Machine, c: Core, i: nat, ws: seq<WriterTable>, archs: seq<Arch>)
    requires FullInv(m, c, ws, archs) && CanRead(c, i)
    ensures InvAt(m, ReadOperands(c, i), ws, archs)
  {
    RatFacts(m, c, ws, archs);
    hide Exec, ValuesOk, StatusOk, BoardOk, QueuesOk, StoresInOrder, MemoryOk, PathOk, RatInvAt, TallyOk, WritersOk,
      ArchsOk, LogOk, Distinct, Operand, ReadReg;
    NotRetired(m, c, ws, archs, i);
    ReadOk(m, c, i, ws, archs);
    StatusKeeps(m, c, ws, archs, i, ReadOperands(c, i).st[i]);
  }

  lemma ReadOk(m: Machine, c: Core, i: nat, ws: seq<WriterTable>, archs: seq<Arch>)
    requires Shapes(c, ws, archs) && ValuesOk(m, c, ws, archs) && CanRead(c, i) && c.ret <= i
    requires WritersOk(c.log, ws) && LogOk(c.log, ws) && ArchsOk(m, c.log, archs)
    ensures StatusOk(ReadOperands(c, i), ws, archs[i], i)
  {
    var u := c.log[i];
    assert UopOk(c.log, ws[i], u) && StatusOk(c, ws, archs[i], i);
    hide Operand;
    SourceValue(m, c, ws, archs, i, u.inst.rs1Source, u.inst.rs1, u.rs1Prf);
    SourceValue(m, c, ws, archs, i, u.inst.rs2Source, u.inst.rs2, u.rs2Prf);
  }

  // Dispatch

  lemma DispatchBoard(c: Core, i: nat)
    requires |c.st| == |c.log| && CanDispatch(c, i) && BoardOk(c) && StoresInOrder(c)
    ensures BoardOk(DispatchStep(c, i)) && StoresInOrder(DispatchStep(c, i))
  {
  }

  /** Dispatched uops come before the one that is dispatched now. */
  lemma DispatchFront(c: Core, i: nat)
    requires |c.st| == |c.log| && CanDispatch(c, i) && BoardOk(c) && QueuesOk(c)
    ensures forall a :: 0 <= a < |c.pipe + c.mq| ==> (c.pipe + c.mq)[a] < i
    ensures forall a :: 0 <= a < |c.mq| ==> c.mq[a] < i
  {
    var o := c.pipe + c.mq;
    forall a | 0 <= a < |o|
      ensures o[a] < i
    {
      assert o[a] in o && o[a] < |c.log|;
      assert Pending(c, o[a]);
    }
    assert forall a :: 0 <= a < |c.mq| ==> c.mq[a] == o[|c.pipe| + a];
  }

  lemma DispatchOrder(log: seq<MicroOp>, o: seq<nat>, mq: seq<nat>, i: nat)
    requires StoreOrdered(log, o) && Once(0, o) && Ascending(mq) && i < |log|
    requires forall a :: 0 <= a < |o| ==> o[a] < i
    requires forall a :: 0 <= a < |mq| ==> mq[a] < i
    ensures StoreOrdered(log, o + [i]) && Once(0, o + [i]) && Ascending(mq + [i])
  {
  }

  lemma DispatchPending(c: Core, i: nat)
    requires |c.st| == |c.log| && c.ret <= i && CanDispatch(c, i)
    ensures var d := DispatchStep(c, i);
            forall x :: 0 <= x < |c.log| ==> (Pending(d, x) <==> Pending(c, x) || (x == i && IsMem(c.log[i].inst)))
    ensures var d := DispatchStep(c, i);
            forall x :: 0 <= x < |c.log| ==>
              (d.st[x] == Waiting && IsMem(d.log[x].inst) <==>
               (c.st[x] == Waiting && IsMem(c.log[x].inst)) || (x == i && IsMem(c.log[i].inst)))
  {
  }

  lemma DispatchQueues(c: Core, i: nat)
    requires |c.st| == |c.log| && c.ret <= i && CanDispatch(c, i) && BoardOk(c) && QueuesOk(c)
    ensures QueuesOk(DispatchStep(c, i))
  {
    DispatchFront(c, i);
    DispatchPending(c, i);
    var d := DispatchStep(c, i);
    var o := c.pipe + c.mq;
    DispatchOrder(c.log, o, c.mq, i);
    hide BoardOk, Pending, StoreOrdered, Once, Ascending;
    assert d.log == c.log && |d.st| == |c.st|;
    assert d.pipe + d.mq == if IsMem(c.log[i].inst) then o + [i] else o;
  }

  lemma DispatchKeeps(m: Machine, c: Core, i: nat, ws: seq<WriterTable>, archs: seq<Arch>)
    requires FullInv(m, c, ws, archs) && CanDispatch(c, i)
    ensures InvAt(m, DispatchStep(c, i), ws, archs)
  {
    hide Exec, ValuesOk, StatusOk, BoardOk, QueuesOk, StoresInOrder, MemoryOk, PathOk, RatInvAt, TallyOk, WritersOk,
      ArchsOk, LogOk, Distinct,
      DispatchStep, IsStoreInst;
    var d := DispatchStep(c, i);
    var e := c.(st := c.st[i := Waiting]);
    DispatchShape(c, i);
    NotRetired(m, c, ws, archs, i);
    WaitingOk(e, ws, archs, i);
    ValuesAfterStatus(m, c, e, ws, archs, i);
    ValuesFrame(m, e, d, ws, archs);
    DispatchBoard(c, i);
    DispatchQueues(c, i);
    MemoryFrame(c, d, ws, archs);
    PathFrame(m, c, d, archs);
  }

  lemma DispatchShape(c: Core, i: nat)
    requires CanDispatch(c, i)
    ensures var d := DispatchStep(c, i);
            && d.log == c.log && d.st == c.st[i := Waiting] && d.ret == c.ret && d.prf == c.prf
            && d.mem == c.mem && d.buf == c.buf && d.fetchPc == c.fetchPc && d.hole == c.hole
            && d.printed == c.printed
  {
  }

  lemma WaitingOk(d: Core, ws: seq<WriterTable>, archs: seq<Arch>, i: nat)
    requires |d.st| == |d.log| && |ws| == |archs| == |d.log| + 1 && d.ret <= i < |d.log| && d.st[i] == Waiting
    ensures StatusOk(d, ws, archs[i], i)
  {
  }

  // Issue from the memory queue

  lemma IssueMemOrder(log: seq<MicroOp>, pipe: seq<nat>, mq: seq<nat>, k: nat)
    requires StoreOrdered(log, pipe + mq) && Once(0, pipe + mq) && Ascending(mq) && k < |mq|
    requires forall x :: 0 <= x < |mq| ==> mq[x] < |log|
    requires (IsStore(log[mq[k]]) ==> k == 0) && forall j :: 0 <= j < k ==> !IsStore(log[mq[j]])
    ensures var o := (pipe + [mq[k]]) + RemoveAt(mq, k);
            StoreOrdered(log, o) && Once(0, o) && Ascending(RemoveAt(mq, k))
  {
    hide Once, StoreOrdered, Ascending, RemoveAt;
    var t := Traffic(log, mq, pipe);
    assert StoreAt(t, k) == IsStore(log[mq[k]]) && forall j :: 0 <= j < k ==> StoreAt(t, j) == IsStore(log[mq[j]]);
    LeaveOrder(t, k, 0);
    assert Leave(t, k) == Traffic(log, RemoveAt(mq, k), pipe + [mq[k]]);
  }

  lemma IssueMemMembers(pipe: seq<nat>, mq: seq<nat>, k: nat)
    requires k < |mq| && Ascending(mq)
    ensures forall x :: x in (pipe + [mq[k]]) + RemoveAt(mq, k) <==> x in pipe + mq
    ensures forall x :: x in RemoveAt(mq, k) <==> x in mq && x != mq[k]
  {
    assert mq == mq[..k] + [mq[k]] + mq[k + 1..];
  }

  lemma IssueMemQueues(c: Core, d: Core, k: nat)
    requires |c.st| == |c.log| && QueuesOk(c) && BoardOk(c) && StoresInOrder(c) && k < |c.mq|
    requires InLog(c, c.mq) && (IsStore(c.log[c.mq[k]]) ==> k == 0)
    requires forall j :: 0 <= j < k ==> !IsStore(c.log[c.mq[j]])
    requires d.log == c.log && d.ret == c.ret && d.sb == c.sb && d.st == c.st[c.mq[k] := Issued]
    requires d.pipe == c.pipe + [c.mq[k]] && d.mq == RemoveAt(c.mq, k)
    ensures QueuesOk(d) && BoardOk(d) && StoresInOrder(d)
  {
    var i := c.mq[k];
    IssueMemOrder(c.log, c.pipe, c.mq, k);
    IssueMemMembers(c.pipe, c.mq, k);
    assert i in c.mq && i < |c.log|;
    hide StoreOrdered, Once, Ascending, RemoveAt, InLog;
    assert forall x :: 0 <= x < |c.log| ==> (Pending(d, x) <==> Pending(c, x));
  }

  lemma QueuedIsWaiting(c: Core, k: nat)
    requires |c.st| == |c.log| && QueuesOk(c) && k < |c.mq|
    ensures c.mq[k] < |c.log| && c.st[c.mq[k]] == Waiting
  {
    var o := c.pipe + c.mq;
    assert o[|c.pipe| + k] == c.mq[k] && c.mq[k] in c.mq;
  }

  lemma IssueMemShape(c: Core, k: nat)
    requires CanIssueMem(c, k)
    ensures var d, i := IssueMemStep(c, k), c.mq[k];
            && d.log == c.log && d.st == c.st[i := Issued] && d.ret == c.ret && d.prf == c.prf && d.sb == c.sb
            && d.mem == c.mem && d.buf == c.buf && d.fetchPc == c.fetchPc && d.hole == c.hole
            && d.printed == c.printed
            && d.pipe == c.pipe + [i] && d.mq == RemoveAt(c.mq, k)
  {
  }

  lemma IssueMemKeeps(m: Machine, c: Core, k: nat, ws: seq<WriterTable>, archs: seq<Arch>)
    requires FullInv(m, c, ws, archs) && CanIssueMem(c, k)
    ensures InvAt(m, IssueMemStep(c, k), ws, archs)
  {
    hide Exec, ValuesOk, StatusOk, BoardOk, QueuesOk, StoresInOrder, MemoryOk, PathOk, RatInvAt, TallyOk, WritersOk,
      ArchsOk, LogOk, Distinct,
      SourcesReady, IssueMemStep, RemoveAt, IsMem, IsStoreInst;
    var d, i := IssueMemStep(c, k), c.mq[k];
    var e := c.(st := c.st[i := Issued]);
    IssueMemShape(c, k);
    RatFacts(m, c, ws, archs);
    QueuedIsWaiting(c, k);
    NotRetired(m, c, ws, archs, i);
    IssuedOk(m, c, i, ws, archs, e);
    ValuesAfterStatus(m, c, e, ws, archs, i);
    ValuesFrame(m, e, d, ws, archs);
    IssueMemQueues(c, d, k);
    MemoryFrame(c, d, ws, archs);
    PathFrame(m, c, d, archs);
  }

  // Execution

  lemma ExecuteQueues(c: Core, d: Core, i: nat)
    requires |c.st| == |c.log| && i < |c.log| && !IsMem(c.log[i].inst) && QueuesOk(c) && StoresInOrder(c)
    requires d.log == c.log && d.ret == c.ret && d.mq == c.mq && d.pipe == c.pipe
    requires |d.st| == |c.st| && d.st == c.st[i := d.st[i]]
    ensures QueuesOk(d) && StoresInOrder(d)
  {
    assert forall x :: 0 <= x < |c.log| ==> (Pending(d, x) <==> Pending(c, x));
  }

  lemma ExecuteOk(m: Machine, c: Core, i: nat, ws: seq<WriterTable>, archs: seq<Arch>)
    requires Shapes(c, ws, archs) && ValuesOk(m, c, ws, archs) && ArchsOk(m, c.log, archs) && CanExecute(c, i)
    ensures var j := c.log[i].inst;
            && StatusOk(ExecuteStep(m, c, i), ws, archs[i], i)
            && (j.rdValid ==> m.alu(j, c.st[i].a, c.st[i].b) == archs[i + 1].regs[j.rd])
  {
    assert StatusOk(c, ws, archs[i], i);
    assert archs[i + 1] == Exec(m, archs[i], c.log[i].inst);
    hide BranchTaken, BranchTarget, Op1, Op2;
  }

  lemma ExecuteShape(m: Machine, c: Core, i: nat)
    requires CanExecute(c, i)
    ensures var d, result := ExecuteStep(m, c, i), m.alu(c.log[i].inst, c.st[i].a, c.st[i].b);
            && i < |c.st| == |c.log| && c.st[i].HasOperands? && |d.st| == |c.st| && d.st[i].Done?
            && d == Complete(c, i, result, d.st[i]) && d.st == c.st[i := d.st[i]] && d.log == c.log && d.ret == c.ret
            && d.mem == c.mem && d.buf == c.buf && d.fetchPc == c.fetchPc && d.hole == c.hole
            && d.printed == c.printed
            && !IsMem(c.log[i].inst)
  {
    hide BranchTaken, BranchTarget;
  }

  lemma ExecuteValues(m: Machine, c: Core, i: nat, ws: seq<WriterTable>, archs: seq<Arch>)
    requires FullInv(m, c, ws, archs) && CanExecute(c, i)
    ensures ValuesOk(m, ExecuteStep(m, c, i), ws, archs)
  {
    RatFacts(m, c, ws, archs);
    hide Exec, ValuesOk, StatusOk, BoardOk, QueuesOk, StoresInOrder, MemoryOk, PathOk, RatInvAt, TallyOk, WritersOk,
      ArchsOk, LogOk, Distinct, BranchTaken, BranchTarget, ExecuteStep, Complete;
    var result := m.alu(c.log[i].inst, c.st[i].a, c.st[i].b);
    ExecuteShape(m, c, i);
    NotRetired(m, c, ws, archs, i);
    ExecuteOk(m, c, i, ws, archs);
    ValuesAfterComplete(m, c, ws, archs, i, result, ExecuteStep(m, c, i).st[i]);
  }

  lemma ExecuteBoards(m: Machine, c: Core, i: nat, ws: seq<WriterTable>, archs: seq<Arch>)
    requires FullInv(m, c, ws, archs) && CanExecute(c, i)
    ensures var d := ExecuteStep(m, c, i);
            |d.st| == |d.log| && d.ret <= |d.log| && BoardOk(d) && QueuesOk(d) && StoresInOrder(d)
  {
    RatFacts(m, c, ws, archs);
    hide Exec, ValuesOk, StatusOk, BoardOk, QueuesOk, StoresInOrder, MemoryOk, PathOk, RatInvAt, TallyOk, WritersOk,
      ArchsOk, LogOk, Distinct, BranchTaken, BranchTarget, ExecuteStep;
    var d := ExecuteStep(m, c, i);
    var result := m.alu(c.log[i].inst, c.st[i].a, c.st[i].b);
    ExecuteShape(m, c, i);
    NotRetired(m, c, ws, archs, i);
    BoardAfterComplete(c, ws, i, result, d.st[i]);
    ExecuteQueues(c, d, i);
  }

  lemma ExecuteKeeps(m: Machine, c: Core, i: nat, ws: seq<WriterTable>, archs: seq<Arch>)
    requires FullInv(m, c, ws, archs) && CanExecute(c, i)
    ensures InvAt(m, ExecuteStep(m, c, i), ws, archs)
  {
    hide Exec, ValuesOk, StatusOk, BoardOk, QueuesOk, StoresInOrder, MemoryOk, PathOk, RatInvAt, TallyOk, WritersOk,
      ArchsOk, LogOk, Distinct, ExecuteStep, Complete, CanExecute;
    var d := ExecuteStep(m, c, i);
    ExecuteShape(m, c, i);
    ExecuteValues(m, c, i, ws, archs);
    ExecuteBoards(m, c, i, ws, archs);
    IsStoreIsMem(c);
    MemoryFrame(c, d, ws, archs);
    PathFrame(m, c, d, archs);
  }

  lemma IsStoreIsMem(c: Core)
    ensures forall j :: 0 <= j < |c.log| && IsStoreInst(c.log[j].inst) ==> IsMem(c.log[j].inst)
  {
  }

  // Memory access

  ghost predicate StoresMatch(c: Core) {
    forall j :: 0 <= j < |c.log| ==> (IsStore(c.log[j]) <==> IsStoreInst(c.log[j].inst))
  }

  /** Store uops are exactly the store instructions of the program. */
  lemma StoreKinds(m: Machine, c: Core, archs: seq<Arch>)
    requires ProgramOk(m) && |archs| == |c.log| + 1 && c.ret <= |c.log| && PathOk(m, c, archs)
    ensures StoresMatch(c) && forall j :: 0 <= j < |c.log| ==> InstOk(c.log[j].inst, c.log[j].inst.pc)
  {
    forall j | 0 <= j < |c.log|
      ensures IsStore(c.log[j]) <==> IsStoreInst(c.log[j].inst)
      ensures InstOk(c.log[j].inst, c.log[j].inst.pc)
    {
      assert UopFits(m, c.log[j]) && InstOk(m.program(c.log[j].inst.pc), c.log[j].inst.pc);
    }
  }

  /** What has completed around the front of the memory pipe when it accesses memory. */
  ghost predicate InTurn(c: Core, i: nat)
    requires |c.st| == |c.log|
  {
    && Pending(c, i)
    && (forall k :: i <= k < |c.log| && IsStoreInst(c.log[k].inst) ==> !c.st[k].Done?)
    && (forall k :: c.ret <= k < i && IsStoreInst(c.log[k].inst) ==> c.st[k].Done?)
    && (IsStore(c.log[i]) ==> forall k :: c.ret <= k < i && IsMem(c.log[k].inst) ==> c.st[k].Done?)
  }

  lemma AccessOrder(c: Core)
    requires |c.st| == |c.log| && BoardOk(c) && QueuesOk(c) && StoresInOrder(c) && Serves(c) && StoresMatch(c)
    ensures InTurn(c, c.pipe[0])
  {
    var i := c.pipe[0];
    var o := c.pipe + c.mq;
    assert i == o[0] && i in o;
    assert Pending(c, i);
    forall k | c.ret <= k < i && IsMem(c.log[k].inst) && (IsStore(c.log[k]) || IsStore(c.log[i]))
      ensures c.st[k].Done?
    {
      if !c.st[k].Done? {
        assert c.st[k] != InRename;
        assert Pending(c, k);
        BehindFront(c, k);
      }
    }
  }

  /** The pending stores, devices aside, lead to in-order memory before the uop that is served. */
  lemma ViewIsInOrder(m: Machine, c: Core, ws: seq<WriterTable>, archs: seq<Arch>)
    requires Shapes(c, ws, archs) && ArchsOk(m, c.log, archs) && MemoryOk(c, archs)
    requires Serves(c) && InTurn(c, c.pipe[0])
    ensures EffectAll(c.mem, c.buf) == archs[c.pipe[0]].mem
  {
    var i := c.pipe[0];
    DoneStoresUpTo(c, archs, c.ret, i, |c.log|);
    DoneStoresMemory(m, c, archs, c.ret, i);
  }

  lemma CoversOwn(r: StoreReq, k: nat)
    requires k < SizeBytes(r.size)
    ensures Covers(r, Wrap(r.addr + k))
  {
  }

  /** A load that asks for no byte on its way to a device gets the bytes of memory. */
  lemma LoadsAgree(i: Inst, m: Memory, buf: seq<StoreReq>, r: StoreReq)
    requires NoDeviceByte(buf, r) && r.size == i.memSize
    ensures LoadValue(i, ReadBytes(ApplyAll(m, buf), r.addr, 8)) == LoadValue(i, ReadBytes(EffectAll(m, buf), r.addr, 8))
  {
    hide LoadValue, ApplyAll, EffectAll, Ordinary;
    var d, e := ReadBytes(ApplyAll(m, buf), r.addr, 8), ReadBytes(EffectAll(m, buf), r.addr, 8);
    forall k | 0 <= k < 8 && k < SizeBytes(r.size)
      ensures d[k] == e[k]
    {
      CoversOwn(r, k);
      OrdinaryByte(m, buf, Wrap(r.addr + k));
    }
    LoadValueBytes(i, d, e);
  }

  lemma AccessOk(m: Machine, c: Core, ws: seq<WriterTable>, archs: seq<Arch>)
    requires Shapes(c, ws, archs) && ArchsOk(m, c.log, archs) && ValuesOk(m, c, ws, archs)
    requires CanAccess(c) && Pending(c, c.pipe[0]) && EffectAll(c.mem, c.buf) == archs[c.pipe[0]].mem
    requires IsStore(c.log[c.pipe[0]]) <==> IsStoreInst(c.log[c.pipe[0]].inst)
    requires InstOk(c.log[c.pipe[0]].inst, c.log[c.pipe[0]].inst.pc)
    ensures var i := c.pipe[0];
            && StatusOk(AccessStep(c), ws, archs[i], i)
            && (c.log[i].inst.rdValid ==>
                  LoadValue(c.log[i].inst,
                            ReadBytes(ApplyAll(c.mem, c.buf), Address(c.log[i].inst, c.st[i].a), 8)) ==
                  archs[i + 1].regs[c.log[i].inst.rd])
            && AccessRequest(c) == Request(archs[i], c.log[i].inst)
  {
    var i := c.pipe[0];
    hide LoadValue, ReadBytes, ApplyAll, EffectAll, Op1, Op2, Address, BranchTaken, BranchTarget, NoDeviceByte;
    if !IsStore(c.log[i]) {
      LoadsAgree(c.log[i].inst, c.mem, c.buf, AccessRequest(c));
    }
    assert StatusOk(c, ws, archs[i], i);
    assert archs[i + 1] == Exec(m, archs[i], c.log[i].inst);
  }

  lemma AccessQueues(c: Core, d: Core, i: nat)
    requires |c.st| == |c.log| && QueuesOk(c) && StoresInOrder(c) && c.pipe != [] && c.pipe[0] == i
    requires InTurn(c, i) && StoresMatch(c) && c.st[i] != Waiting
    requires d.log == c.log && d.ret == c.ret && d.mq == c.mq && d.pipe == c.pipe[1..]
    requires d.st == c.st[i := Done(false, 0)]
    ensures QueuesOk(d) && StoresInOrder(d)
  {
    var o, o' := c.pipe + c.mq, d.pipe + d.mq;
    assert o' == o[1..] && o[0] == i;
    AccessMembers(o, i);
    assert forall x :: 0 <= x < |c.log| ==> (Pending(d, x) <==> Pending(c, x) && x != i);
  }

  lemma AccessMembers(o: seq<nat>, i: nat)
    requires o != [] && o[0] == i && Once(0, o)
    ensures forall x :: x in o[1..] <==> x in o && x != i
  {
    assert o == [o[0]] + o[1..];
  }

  lemma AccessMemory(c: Core, d: Core, archs: seq<Arch>, i: nat, req: StoreReq)
    requires |c.st| == |c.log| && |archs| == |c.log| + 1 && c.ret <= |c.log| && MemoryOk(c, archs)
    requires i < |c.log| && InTurn(c, i) && StoresMatch(c)
    requires req == Request(archs[i], c.log[i].inst)
    requires d.log == c.log && d.ret == c.ret && d.mem == c.mem && d.printed == c.printed && d.st == c.st[i := Done(false, 0)]
    requires d.buf == if IsStore(c.log[i]) then c.buf + [req] else c.buf
    ensures MemoryOk(d, archs)
  {
    hide Request, DoneStores;
    DoneStoresUpTo(c, archs, c.ret, i, |c.log|);
    DoneStoresUpTo(d, archs, c.ret, i + 1, |c.log|);
    DoneStoresSame(c, d, archs, c.ret, i);
    DoneStoresLast(d, archs, c.ret, i);
  }

  lemma AccessKeeps(m: Machine, c: Core, ws: seq<WriterTable>, archs: seq<Arch>)
    requires ProgramOk(m) && FullInv(m, c, ws, archs) && CanAccess(c)
    ensures InvAt(m, AccessStep(c), ws, archs)
  {
    RatFacts(m, c, ws, archs);
    hide Exec, ValuesOk, StatusOk, BoardOk, QueuesOk, StoresInOrder, MemoryOk, PathOk, RatInvAt, TallyOk, WritersOk,
      ArchsOk, LogOk, Distinct, LoadValue, ReadBytes, ApplyAll, Op1, Op2, Request, Address, AccessRequest, StoresMatch,
      InstOk, ProgramOk;
    var d, i := AccessStep(c), c.pipe[0];
    var result := LoadValue(c.log[i].inst, ReadBytes(ApplyAll(c.mem, c.buf), Address(c.log[i].inst, c.st[i].a), 8));
    var e := Complete(c, i, result, Done(false, 0));
    StoreKinds(m, c, archs);
    AccessOrder(c);
    NotRetired(m, c, ws, archs, i);
    ViewIsInOrder(m, c, ws, archs);
    AccessOk(m, c, ws, archs);
    StatusFrame(d, e, ws, archs, i);
    ValuesAfterComplete(m, c, ws, archs, i, result, Done(false, 0));
    BoardAfterComplete(c, ws, i, result, Done(false, 0));
    ValuesFrame(m, e, d, ws, archs);
    BoardFrame(e, d);
    AccessQueues(c, d, i);
    AccessMemory(c, d, archs, i, AccessRequest(c));
    PathFrame(m, c, d, archs);
  }

  lemma StatusFrame(c: Core, d: Core, ws: seq<WriterTable>, archs: seq<Arch>, i: nat)
    requires |c.st| == |c.log| && |ws| == |archs| == |c.log| + 1 && i < |c.log| && StatusOk(c, ws, archs[i], i)
    requires d.log == c.log && d.st == c.st && d.ret == c.ret
    ensures StatusOk(d, ws, archs[i], i)
  {
  }

  lemma BoardFrame(c: Core, d: Core)
    requires |c.st| == |c.log| && BoardOk(c)
    requires d.log == c.log && d.st == c.st && d.ret == c.ret && d.sb == c.sb
    ensures BoardOk(d)
  {
  }

  // Retirement and squash

  lemma CommitOne(mem: Memory, buf: seq<StoreReq>)
    requires buf != [] && buf[0].addr != HALT_ADDR
    ensures Commit(mem, buf, 1) == Committed(Effect(mem, buf[0]), buf[1..], 0, Printed(buf[0]))
  {
    CommitStart(Effect(mem, buf[0]), buf[1..], 0);
    assert [] + Printed(buf[0]) == Printed(buf[0]);
    hide Effect, Printed;
  }

  lemma CommitNone(mem: Memory, buf: seq<StoreReq>)
    ensures Commit(mem, buf, 0) == Committed(mem, buf, 0, [])
  {
  }

  lemma RetireMemory(m: Machine, c: Core, d: Core, ws: seq<WriterTable>, archs: seq<Arch>)
    requires Shapes(c, ws, archs) && ArchsOk(m, c.log, archs) && MemoryOk(c, archs) && StoresMatch(c) && CanRetire(c)
    requires d.log == c.log && d.st == c.st && d.ret == c.ret + 1
    requires var k := Commit(c.mem, c.buf, if IsStore(c.log[c.ret]) then 1 else 0);
             d.mem == k.mem && d.buf == k.buf && d.printed == c.printed + k.printed
    ensures MemoryOk(d, archs)
  {
    var u := c.log[c.ret];
    hide Exec, Request, Effect, Printed, Commit;
    DoneStoresFront(c, archs, |c.log|);
    DoneStoresSame(c, d, archs, c.ret + 1, |c.log|);
    assert archs[c.ret + 1] == Exec(m, archs[c.ret], u.inst);
    ExecMemory(m, archs[c.ret], u.inst);
    if IsStore(u) {
      assert c.buf[0] == Request(archs[c.ret], u.inst);
      CommitOne(c.mem, c.buf);
    } else {
      CommitNone(c.mem, c.buf);
    }
  }

  lemma RetireQueues(c: Core, d: Core)
    requires |c.st| == |c.log| && QueuesOk(c) && StoresInOrder(c) && BoardOk(c) && CanRetire(c)
    requires d.log == c.log && d.st == c.st && d.ret == c.ret + 1 && d.mq == c.mq && d.pipe == c.pipe && d.sb == c.sb
    ensures QueuesOk(d) && StoresInOrder(d) && BoardOk(d)
  {
    assert forall x :: 0 <= x < |c.log| ==> (Pending(d, x) <==> Pending(c, x));
  }

  /** In-order execution continues where fetch went, or at the branch unit's address after a misprediction. */
  lemma RetiredPc(m: Machine, c: Core, ws: seq<WriterTable>, archs: seq<Arch>)
    requires ProgramOk(m) && Shapes(c, ws, archs) && ArchsOk(m, c.log, archs) && ValuesOk(m, c, ws, archs)
    requires PathOk(m, c, archs) && CanRetire(c)
    ensures var u, s := c.log[c.ret], c.st[c.ret];
            archs[c.ret + 1].pc == (if Mispredicted(u, s.taken, s.addr) then s.addr else Follow(u))
  {
    var u, s, a := c.log[c.ret], c.st[c.ret], archs[c.ret];
    StoreKinds(m, c, archs);
    assert StatusOk(c, ws, a, c.ret) && UopFits(m, u);
    assert archs[c.ret + 1] == Exec(m, a, u.inst);
    if !BranchTaken(u.inst, Op1(a, u.inst), Op2(a, u.inst)) {
      NotTakenFallsThrough(u.inst, Op1(a, u.inst), Op2(a, u.inst));
    }
    hide Op1, Op2, Result, BranchTarget;
  }

  lemma RetirePath(m: Machine, c: Core, d: Core, archs: seq<Arch>)
    requires |archs| == |c.log| + 1 && c.ret < |c.log| && PathOk(m, c, archs)
    requires archs[c.ret + 1].pc == Follow(c.log[c.ret])
    requires d.log == c.log && d.ret == c.ret + 1 && d.fetchPc == c.fetchPc && d.hole == c.hole
    ensures PathOk(m, d, archs)
  {
  }

  lemma RetireKeeps(m: Machine, c: Core, ws: seq<WriterTable>, archs: seq<Arch>)
    requires ProgramOk(m) && FullInv(m, c, ws, archs) && CanRetire(c)
    requires !Mispredicted(c.log[c.ret], c.st[c.ret].taken, c.st[c.ret].addr)
    ensures InvAt(m, RetireStep(c), ws, archs)
  {
    hide Exec, ValuesOk, StatusOk, BoardOk, QueuesOk, StoresInOrder, MemoryOk, PathOk, RatInvAt, TallyOk, WritersOk,
      ArchsOk, LogOk, Distinct, Commit, RetireUop, Mispredicted, Follow, StoresMatch, ProgramOk, InstOk;
    var d := RetireStep(c);
    StoreKinds(m, c, archs);
    RetiredPc(m, c, ws, archs);
    ValuesAfterRetire(m, c, d, ws, archs);
    RetireMemory(m, c, d, ws, archs);
    RetireQueues(c, d);
    RetirePath(m, c, d, archs);
  }

  lemma SquashQueues(m: Machine, c: Core, d: Core, ws: seq<WriterTable>, archs: seq<Arch>)
    requires Shapes(c, ws, archs) && ValuesOk(m, c, ws, archs)
    requires d.log == c.log[..c.ret] && d.st == c.st[..c.ret] && d.ret == c.ret && d.mq == [] && d.pipe == []
    ensures QueuesOk(d) && StoresInOrder(d) && BoardOk(d)
  {
    assert forall x :: 0 <= x < |d.log| ==> StatusOk(c, ws, archs[x], x) && d.st[x] == c.st[x];
  }

  lemma SquashPath(m: Machine, c: Core, d: Core, archs: seq<Arch>)
    requires |archs| == |c.log| + 1 && 0 < c.ret <= |c.log|
    requires (forall i :: 0 <= i < |c.log| ==> UopFits(m, c.log[i])) && -1 <= c.hole <= |c.log|
    requires (forall i :: 0 <= i < c.ret && i < Solid(c) ==> c.log[i].inst.pc == archs[i].pc)
    requires d.log == c.log[..c.ret] && d.ret == c.ret && d.fetchPc == archs[c.ret].pc
    requires d.hole == if c.hole < c.ret then c.hole else -1
    ensures PathOk(m, d, archs[..c.ret + 1])
  {
  }

  lemma SquashKeeps(m: Machine, c: Core, ws: seq<WriterTable>, archs: seq<Arch>)
    requires ProgramOk(m) && FullInv(m, c, ws, archs) && CanRetire(c)
    requires Mispredicted(c.log[c.ret], c.st[c.ret].taken, c.st[c.ret].addr)
    ensures InvAt(m, SquashStep(c), ws[..c.ret + 2], archs[..c.ret + 2])
  {
    hide Exec, ValuesOk, StatusOk, BoardOk, QueuesOk, StoresInOrder, MemoryOk, PathOk, RatInvAt, TallyOk, WritersOk,
      ArchsOk, LogOk, Distinct,
      Mispredicted, Follow, StoresMatch, ProgramOk, InstOk, UopFits, SquashStep, RetireStep;
    var r, d := RetireStep(c), SquashStep(c);
    SquashShape(c);
    PathFacts(m, c, archs);
    StoreKinds(m, c, archs);
    RetiredPc(m, c, ws, archs);
    ValuesAfterRetire(m, c, r, ws, archs);
    RetireMemory(m, c, r, ws, archs);
    ValuesAfterCut(m, r, d, ws, archs);
    SquashQueues(m, r, d, ws, archs);
    SquashPath(m, r, d, archs);
    SquashMemory(r, d, ws, archs);
  }

  lemma SquashShape(c: Core)
    requires CanRetire(c)
    ensures var r, d, k := RetireStep(c), SquashStep(c), Commit(c.mem, c.buf, if IsStore(c.log[c.ret]) then 1 else 0);
            && r.log == c.log && r.st == c.st && r.ret == c.ret + 1 && r.prf == c.prf
            && r.mem == k.mem && r.buf == k.buf && r.printed == c.printed + k.printed && d.printed == r.printed
            && d.log == c.log[..r.ret] && d.st == c.st[..r.ret] && d.ret == r.ret && d.prf == c.prf && d.mem == r.mem
            && d.buf == [] && d.mq == [] && d.pipe == [] && d.fetchPc == c.st[c.ret].addr
            && r.hole == c.hole && d.hole == (if r.hole < r.ret then r.hole else -1)
  {
    hide Commit, RetireUop, Recover;
  }

  lemma PathFacts(m: Machine, c: Core, archs: seq<Arch>)
    requires |archs| == |c.log| + 1 && c.ret <= |c.log| && PathOk(m, c, archs)
    ensures forall i :: 0 <= i < |c.log| ==> UopFits(m, c.log[i])
    ensures forall i :: 0 <= i < Solid(c) && i <= c.ret ==> c.log[i].inst.pc == archs[i].pc
    ensures -1 <= c.hole <= |c.log|
  {
  }

  lemma SquashMemory(c: Core, d: Core, ws: seq<WriterTable>, archs: seq<Arch>)
    requires Shapes(c, ws, archs) && MemoryOk(c, archs)
    requires d.log == c.log[..c.ret] && d.st == c.st[..c.ret] && d.ret == c.ret && d.mem == c.mem && d.buf == []
    requires d.printed == c.printed
    ensures MemoryOk(d, archs[..c.ret + 1])
  {
    assert DoneStores(d.log, d.st, archs[..c.ret + 1], c.ret, c.ret) == [];
  }

  // ---- Every event keeps the invariant ----

  lemma Unfold(m: Machine, a0: Arch, c: Core)
    requires Inv(m, a0, c) && a0.regs == ZeroArch()
    ensures FullInv(m, c, Writers(c.log), Archs(m, a0, c.log))
  {
    hide Writers, Archs, InvAt, RatInvAt, TallyOk;
    WritersAreOk(c.log);
    ArchsAreOk(m, a0, c.log);
    InvShape(m, c, Writers(c.log), Archs(m, a0, c.log));
  }

  lemma InvShape(m: Machine, c: Core, ws: seq<WriterTable>, archs: seq<Arch>)
    requires InvAt(m, c, ws, archs)
    ensures Shapes(c, ws, archs)
  {
  }

  /** Everything but renaming and retirement leaves the log and the alias table alone. */
  lemma InnerStep(m: Machine, c: Core, e: Event)
    requires Enabled(m, c, e) && !e.Rename? && !e.Retire? && !e.DropGroup?
    ensures var d := Step(m, c, e); d.log == c.log && d.rat == c.rat && d.ret == c.ret
  {
  }

  lemma InnerStepKeeps(m: Machine, c: Core, e: Event, ws: seq<WriterTable>, archs: seq<Arch>)
    requires ProgramOk(m) && FullInv(m, c, ws, archs) && Enabled(m, c, e)
    requires !e.Rename? && !e.Retire? && !e.DropGroup?
    ensures InvAt(m, Step(m, c, e), ws, archs)
  {
    hide FullInv, InvAt, ProgramOk;
    match e
    case Dispatch(i) => DispatchKeeps(m, c, i, ws, archs);
    case IssueInt(i) => IssueIntKeeps(m, c, i, ws, archs);
    case IssueMem(k) => IssueMemKeeps(m, c, k, ws, archs);
    case Read(i) => ReadKeeps(m, c, i, ws, archs);
    case Execute(i) => ExecuteKeeps(m, c, i, ws, archs);
    case Access => AccessKeeps(m, c, ws, archs);
  }

  /** Every event keeps the invariant. */
  lemma {:induction false} StepKeeps(m: Machine, a0: Arch, c: Core, e: Event)
    requires ProgramOk(m) && a0.regs == ZeroArch() && Inv(m, a0, c) && Enabled(m, c, e)
    ensures Inv(m, a0, Step(m, c, e))
  {
    hide Inv, ProgramOk, RenameStep, DropStep, RetireEvent, CanRename, CanDrop, CanRetire;
    if e.Rename? {
      RenameInv(m, a0, c, e.u);
    } else if e.DropGroup? {
      DropInv(m, a0, c, e.us);
    } else if e.Retire? {
      RetireInv(m, a0, c);
    } else {
      InnerInv(m, a0, c, e);
    }
  }

  lemma {:induction false} InnerInv(m: Machine, a0: Arch, c: Core, e: Event)
    requires ProgramOk(m) && a0.regs == ZeroArch() && Inv(m, a0, c) && Enabled(m, c, e)
    requires !e.Rename? && !e.Retire? && !e.DropGroup?
    ensures Inv(m, a0, Step(m, c, e))
  {
    hide FullInv, InvAt, ProgramOk, RatInv, Step, Enabled, Writers, Archs;
    Unfold(m, a0, c);
    InnerStep(m, c, e);
    InnerStepKeeps(m, c, e, Writers(c.log), Archs(m, a0, c.log));
  }

  lemma {:induction false} DropInv(m: Machine, a0: Arch, c: Core, us: seq<MicroOp>)
    requires a0.regs == ZeroArch() && Inv(m, a0, c)
    ensures Inv(m, a0, DropStep(c, us))
  {
    hide RatInv, Writers, Archs, FetchEnd;
    DropKeeps(m, c, us, Writers(c.log), Archs(m, a0, c.log));
  }

  /** A dropped group leaves a hole in the path and changes nothing else. */
  lemma DropKeeps(m: Machine, c: Core, us: seq<MicroOp>, ws: seq<WriterTable>, archs: seq<Arch>)
    requires InvAt(m, c, ws, archs)
    ensures InvAt(m, DropStep(c, us), ws, archs)
  {
    var d := DropStep(c, us);
    ValuesFrame(m, c, d, ws, archs);
    MemoryFrame(c, d, ws, archs);
    DropQueues(c, d);
    DropPath(m, c, d, archs);
    hide ValuesOk, StatusOk, BoardOk, QueuesOk, StoresInOrder, MemoryOk, PathOk;
  }

  lemma DropQueues(c: Core, d: Core)
    requires |c.st| == |c.log| && c.ret <= |c.log| && QueuesOk(c) && BoardOk(c) && StoresInOrder(c)
    requires d == c.(fetchPc := d.fetchPc, hole := d.hole)
    ensures QueuesOk(d) && BoardOk(d) && StoresInOrder(d)
  {
    assert forall i: nat :: i < |c.log| ==> (Pending(d, i) <==> Pending(c, i));
  }

  lemma DropPath(m: Machine, c: Core, d: Core, archs: seq<Arch>)
    requires |archs| == |c.log| + 1 && c.ret <= |c.log| && PathOk(m, c, archs)
    requires d.log == c.log && d.ret == c.ret && d.hole == if c.hole < 0 then |c.log| else c.hole
    ensures PathOk(m, d, archs)
  {
  }

  lemma RenameInv(m: Machine, a0: Arch, c: Core, u: MicroOp)
    requires ProgramOk(m) && a0.regs == ZeroArch() && Inv(m, a0, c) && CanRename(m, c, u)
    ensures Inv(m, a0, RenameStep(c, u))
  {
    hide FullInv, InvAt, RatInv, Writers, Archs, RenameUop, Renamed;
    var v := Renamed(c.rat, u);
    Unfold(m, a0, c);
    assert InstOk(m.program(c.fetchPc), c.fetchPc);
    RenamePreserves(c.rat, c.log, c.ret, u);
    WritersAppend(c.log, v);
    ArchsAppend(m, a0, c.log, v);
    RenameKeeps(m, c, u, Writers(c.log), Archs(m, a0, c.log));
  }

  lemma RetireInv(m: Machine, a0: Arch, c: Core)
    requires ProgramOk(m) && a0.regs == ZeroArch() && Inv(m, a0, c) && CanRetire(c)
    ensures Inv(m, a0, RetireEvent(c))
  {
    hide FullInv, InvAt, RatInv, Writers, Archs, RetireUop, Recover, Mispredicted, ProgramOk;
    Unfold(m, a0, c);
    var s := c.st[c.ret];
    RetirePreserves(c.rat, c.log, c.ret);
    if Mispredicted(c.log[c.ret], s.taken, s.addr) {
      RecoverPreserves(RetireUop(c.rat, c.log[c.ret]), c.log, c.ret + 1);
      WritersPrefix(c.log, c.ret + 1);
      ArchsPrefix(m, a0, c.log, c.ret + 1);
      SquashKeeps(m, c, Writers(c.log), Archs(m, a0, c.log));
    } else {
      RetireKeeps(m, c, Writers(c.log), Archs(m, a0, c.log));
    }
  }

  lemma ResetInv(m: Machine, pc: Word, mem: Memory)
    ensures Inv(m, ResetArch(pc, mem), ResetCore(pc, mem))
  {
    InitialRat();
    ResetInvAt(m, ResetCore(pc, mem), Writers([]), [ResetArch(pc, mem)]);
    hide RatInv, Writers, InvAt;
    assert Archs(m, ResetArch(pc, mem), []) == [ResetArch(pc, mem)];
  }

  lemma ResetInvAt(m: Machine, c: Core, ws: seq<WriterTable>, archs: seq<Arch>)
    requires c.log == [] && c.st == [] && c.ret == 0 && c.mq == [] && c.pipe == [] && c.buf == [] && |ws| == 1
    requires |archs| == 1 && archs[0].mem == c.mem && archs[0].pc == c.fetchPc && c.hole == -1
    requires archs[0].printed == c.printed
    ensures InvAt(m, c, ws, archs)
  {
    ResetQueues(c);
    assert ValuesOk(m, c, ws, archs);
    assert MemoryOk(c, archs);
    assert PathOk(m, c, archs);
    hide ValuesOk, BoardOk, QueuesOk, StoresInOrder, MemoryOk, PathOk;
  }

  lemma ResetQueues(c: Core)
    requires c.log == [] && c.st == [] && c.ret == 0 && c.mq == [] && c.pipe == []
    ensures BoardOk(c) && QueuesOk(c) && StoresInOrder(c)
  {
    assert c.pipe + c.mq == [];
  }

  // ---- Runs ----

  /** The state after a sequence of events; an event that is not enabled does nothing. */
  ghost function Run(m: Machine, c0: Core, es: seq<Event>): Core {
    if es == [] then c0 else
      var c := Run(m, c0, es[..|es| - 1]);
      if Enabled(m, c, es[|es| - 1]) then Step(m, c, es[|es| - 1]) else c
  }

  lemma {:induction false} RunKeeps(m: Machine, pc: Word, mem: Memory, es: seq<Event>)
    requires ProgramOk(m)
    ensures Inv(m, ResetArch(pc, mem), Run(m, ResetCore(pc, mem), es))
  {
    hide Inv, Step, Enabled, ProgramOk, ResetCore;
    if es == [] {
      ResetInv(m, pc, mem);
    } else {
      RunKeeps(m, pc, mem, es[..|es| - 1]);
      var c := Run(m, ResetCore(pc, mem), es[..|es| - 1]);
      if Enabled(m, c, es[|es| - 1]) {
        StepKeeps(m, ResetArch(pc, mem), c, es[|es| - 1]);
      }
    }
  }

  /** Up to the first dropped group the in-order state after i retired uops of the log is i steps of the program. */
  lemma {:induction false} RetiredIsProgram(m: Machine, a0: Arch, c: Core, archs: seq<Arch>, i: nat)
    requires ArchsOk(m, c.log, archs) && archs[0] == a0 && c.ret <= |c.log| && PathOk(m, c, archs)
    requires i <= c.ret && i <= Solid(c)
    ensures archs[i] == RunProgram(m, a0, i)
  {
    hide Exec;
    if i > 0 {
      RetiredIsProgram(m, a0, c, archs, i - 1);
      assert UopFits(m, c.log[i - 1]);
      assert archs[i - 1 + 1] == Exec(m, archs[i - 1], c.log[i - 1].inst);
    }
  }

  /** The in-order machine after the instructions of a sequence of uops. */
  function Executed(m: Machine, a0: Arch, us: seq<MicroOp>): Arch {
    Archs(m, a0, us)[|us|]
  }

  /** The value of architectural register r as retired state shows it. */
  function RetiredReg(c: Core, r: Arf): Word {
    ReadReg(c.prf, Lookup(c.rat.rRat, r))
  }

  /** The program counter of the next uop to retire. */
  function RetiredPcOf(c: Core): Word {
    if c.ret < |c.log| then c.log[c.ret].inst.pc else c.fetchPc
  }

  lemma RetiredRegisters(m: Machine, c: Core, ws: seq<WriterTable>, archs: seq<Arch>, r: Arf)
    requires FullInv(m, c, ws, archs)
    ensures RetiredReg(c, r) == archs[c.ret].regs[r]
  {
    RatFacts(m, c, ws, archs);
    ZeroUnwritten(c.log, ws, c.ret);
    LastWriterValue(m, c.log, ws, archs, c.ret, r);
    var w := ws[c.ret][r];
    assert c.rat.rRat[r] == Holder(c.log, ws[c.ret], r);
    hide RatInvAt, Distinct, TallyOk, BoardOk, QueuesOk, StoresInOrder, MemoryOk, PathOk, Exec, ArchsOk;
    if w >= 0 {
      assert Writes(c.log[w], r) && UopOk(c.log, ws[w], c.log[w]);
      assert Live(c.log, ws, c.ret, w) && StatusOk(c, ws, archs[w], w);
    }
  }

  /**
   Out-of-order correctness. For every program, every ALU, every initial memory and every interleaving of events,
   with any predictions: the physical registers read through the retired map, committed memory and the characters
   printed are those of the in-order machine after exactly the retired instructions. These are the program, instruction by instruction, as long
   as nothing behind a dropped group has retired; and then the oldest uop is the next instruction of the program.
   */
  lemma {:induction false} OutOfOrderRefinesInOrder(m: Machine, pc: Word, mem: Memory, es: seq<Event>)
    requires ProgramOk(m)
    ensures var c := Run(m, ResetCore(pc, mem), es);
            c.ret <= |c.log| &&
            var a := Executed(m, ResetArch(pc, mem), c.log[..c.ret]);
            && (forall r: Arf :: RetiredReg(c, r) == a.regs[r])
            && c.mem == a.mem && c.printed == a.printed
            && (c.hole < 0 || c.ret <= c.hole ==> a == RunProgram(m, ResetArch(pc, mem), c.ret))
            && (c.hole < 0 || c.ret < c.hole ==> RetiredPcOf(c) == a.pc)
  {
    hide Inv, Run, ProgramOk;
    RunKeeps(m, pc, mem, es);
    StateRefines(m, ResetArch(pc, mem), Run(m, ResetCore(pc, mem), es));
  }

  lemma StateRefines(m: Machine, a0: Arch, c: Core)
    requires Inv(m, a0, c) && a0.regs == ZeroArch()
    ensures c.ret <= |c.log|
    ensures var a := Executed(m, a0, c.log[..c.ret]);
            && (forall r: Arf :: RetiredReg(c, r) == a.regs[r]) && c.mem == a.mem && c.printed == a.printed
            && (c.hole < 0 || c.ret <= c.hole ==> a == RunProgram(m, a0, c.ret))
            && (c.hole < 0 || c.ret < c.hole ==> RetiredPcOf(c) == a.pc)
  {
    Unfold(m, a0, c);
    var ws, archs := Writers(c.log), Archs(m, a0, c.log);
    ArchsAreOk(m, a0, c.log);
    ArchsPrefix(m, a0, c.log, c.ret);
    hide Archs, Writers, RunProgram, RetiredReg, RatInvAt, TallyOk, ValuesOk, BoardOk, QueuesOk, StoresInOrder, Exec,
      WritersOk, ArchsOk;
    assert Executed(m, a0, c.log[..c.ret]) == archs[c.ret];
    if c.ret <= Solid(c) {
      RetiredIsProgram(m, a0, c, archs, c.ret);
    }
    forall r: Arf
      ensures RetiredReg(c, r) == archs[c.ret].regs[r]
    {
      RetiredRegisters(m, c, ws, archs, r);
    }
  }

  /** Requests of all stores among uops lo..hi-1 of the log, in program order. */
  function OlderStores(log: seq<MicroOp>, archs: seq<Arch>, lo: nat, hi: nat): seq<StoreReq>
    requires |archs| == |log| + 1 && hi <= |log|
    decreases hi
  {
    if hi <= lo then [] else
      OlderStores(log, archs, lo, hi - 1) +
      (if IsStoreInst(log[hi - 1].inst) then [Request(archs[hi - 1], log[hi - 1].inst)] else [])
  }

  lemma {:induction false} DoneStoresAreOlder(c: Core, archs: seq<Arch>, lo: nat, hi: nat)
    requires |c.st| == |c.log| && |archs| == |c.log| + 1 && hi <= |c.log|
    requires forall k :: lo <= k < hi && IsStoreInst(c.log[k].inst) ==> c.st[k].Done?
    ensures DoneStores(c.log, c.st, archs, lo, hi) == OlderStores(c.log, archs, lo, hi)
    decreases hi
  {
    if lo < hi {
      DoneStoresAreOlder(c, archs, lo, hi - 1);
    }
  }

  /**
   End-to-end memory order: whenever the memory pipe serves a uop, the store buffer holds exactly the older stores of
   its path, in program order; so every byte of a load is that of the youngest older store that covers it, or else
   of committed memory, and no younger or squashed store is ever seen. Unless that store is one to a device, this is
   the byte of in-order memory.
   */
  lemma {:induction false} LoadsSeeOlderStores(m: Machine, pc: Word, mem: Memory, es: seq<Event>, a: Word)
    requires ProgramOk(m) && Serves(Run(m, ResetCore(pc, mem), es))
    ensures var c := Run(m, ResetCore(pc, mem), es);
            var i, archs := c.pipe[0], Archs(m, ResetArch(pc, mem), c.log);
            c.ret <= i < |c.log| && c.buf == OlderStores(c.log, archs, c.ret, i) && EffectAll(c.mem, c.buf) == archs[i].mem
    ensures var c := Run(m, ResetCore(pc, mem), es); ServedByte(c.mem, c.buf, a)
  {
    hide Inv, Run, ProgramOk, OlderStores, EffectAll, ServedByte, ResetCore, Serves;
    RunKeeps(m, pc, mem, es);
    var c := Run(m, ResetCore(pc, mem), es);
    AccessView(m, ResetArch(pc, mem), c);
    BytesServed(c.mem, c.buf, a);
  }

  /** The byte of the youngest pending store or of memory; unless the store is one to a device, the one memory will hold. */
  ghost predicate ServedByte(m: Memory, buf: seq<StoreReq>, a: Word) {
    var k, b := Youngest(buf, a), ApplyAll(m, buf)[a];
    && b == (if k >= 0 then StoreBytes(buf[k])[Wrap(a - buf[k].addr)] else m[a])
    && ((k >= 0 && IsDevice(buf[k])) || b == EffectAll(m, buf)[a])
  }

  lemma BytesServed(m: Memory, buf: seq<StoreReq>, a: Word)
    ensures ServedByte(m, buf, a)
  {
    hide Youngest, ApplyAll, EffectAll, StoreBytes, Wrap, IsDevice;
    ViewByte(m, buf, a);
    if Ordinary(buf, a) {
      OrdinaryByte(m, buf, a);
    }
  }

  lemma AccessView(m: Machine, a0: Arch, c: Core)
    requires ProgramOk(m) && a0.regs == ZeroArch() && Inv(m, a0, c) && Serves(c)
    ensures var i, archs := c.pipe[0], Archs(m, a0, c.log);
            && c.ret <= i < |c.log|
            && c.buf == OlderStores(c.log, archs, c.ret, i) && EffectAll(c.mem, c.buf) == archs[i].mem
  {
    Unfold(m, a0, c);
    var ws, archs, i := Writers(c.log), Archs(m, a0, c.log), c.pipe[0];
    hide Inv, Archs, Writers, RatInvAt, TallyOk, ValuesOk, BoardOk, QueuesOk, StoresInOrder, Exec, WritersOk, ArchsOk,
      PathOk, EffectAll, StoresMatch, ProgramOk;
    StoreKinds(m, c, archs);
    AccessOrder(c);
    ViewIsInOrder(m, c, ws, archs);
    DoneStoresUpTo(c, archs, c.ret, i, |c.log|);
    DoneStoresAreOlder(c, archs, c.ret, i);
  }

  /** Operands that have been read are the in-order ones: those the program-order producers wrote. */
  lemma {:induction false} OperandsAreInOrder(m: Machine, pc: Word, mem: Memory, es: seq<Event>, i: nat)
    requires ProgramOk(m)
    requires var c := Run(m, ResetCore(pc, mem), es); i < |c.st| && c.st[i].HasOperands?
    ensures var c := Run(m, ResetCore(pc, mem), es);
            var archs := Archs(m, ResetArch(pc, mem), c.log);
            i < |c.log| && c.st[i] == HasOperands(Op1(archs[i], c.log[i].inst), Op2(archs[i], c.log[i].inst))
  {
    hide Run, ProgramOk, Op1, Op2;
    RunKeeps(m, pc, mem, es);
    var c := Run(m, ResetCore(pc, mem), es);
    OperandsAt(m, c, Writers(c.log), Archs(m, ResetArch(pc, mem), c.log), i);
  }

  lemma OperandsAt(m: Machine, c: Core, ws: seq<WriterTable>, archs: seq<Arch>, i: nat)
    requires InvAt(m, c, ws, archs) && i < |c.st| && c.st[i].HasOperands?
    ensures i < |c.log| == |archs| - 1
    ensures c.st[i] == HasOperands(Op1(archs[i], c.log[i].inst), Op2(archs[i], c.log[i].inst))
  {
    assert StatusOk(c, ws, archs[i], i);
  }
}
