/**
 Physical register file (src/backend/prf_int.sv) and the scoreboard that gates issue (src/backend/scoreboard_int.sv).

 The register file is replicated once per read way and bypasses same-cycle writes; it refines a single array of
 64 words with a constant zero at index 0. The scoreboard bypasses same-cycle clears.
 */
module RegisterFiles {
  import opened MicroOps

  const WAYS := 4

  type Regs = s: seq<Word> | |s| == 64 witness seq(64, i => 0)

  datatype WritePort = WritePort(en: bool, index: Prf, data: Word)
  datatype Strobe = Strobe(valid: bool, index: Prf)

  // ---- One register file ----

  function WriteOne(r: Regs, w: WritePort): Regs {
    if w.en && w.index != 0 then r[w.index := w.data] else r
  }

  /** Ports in ascending order; the last write of an index wins. */
  function WriteAll(r: Regs, ws: seq<WritePort>): Regs {
    if ws == [] then r else WriteOne(WriteAll(r, ws[..|ws| - 1]), ws[|ws| - 1])
  }

  function ReadReg(r: Regs, p: Prf): Word {
    if p == 0 then 0 else r[p]
  }

  /** Selected operand: register data or one of the fields of the uop. */
  function Operand(i: Inst, src: Source, data: Word): Word {
    match src
    case RsFromRf => data
    case RsFromImm => i.imm
    case RsFromPc => i.pc
    case RsFromNpc => i.npc
    case RsInvalid => 0
    case RsFromZero => 0
  }

  /** Register index that a source reads: 0 unless it reads the register file. */
  function SourceIndex(src: Source, p: Prf): Prf {
    if src == RsFromRf then p else 0
  }

  class PrfIntData {
    var rf: seq<Regs>

    /** All banks hold the same values. */
    predicate Valid()
      reads this
    {
      |rf| == WAYS && forall i :: 0 <= i < WAYS ==> rf[i] == rf[0]
    }

    function Contents(): Regs
      reads this
      requires Valid()
    {
      rf[0]
    }

    constructor ()
      ensures Valid() && forall p: Prf :: Contents()[p] == 0
    {
      rf := seq(4, i => seq(64, j => 0));
    }

    /** Read port i with the bypass of the write ports: the value the register will hold after this clock. */
    method Read(i: nat, index: Prf, ws: seq<WritePort>) returns (data: Word)
      requires Valid() && i < WAYS
      ensures data == ReadReg(WriteAll(Contents(), ws), index)
    {
      data := if index != 0 then rf[i][index] else 0;
      for j := 0 to |ws|
        invariant data == ReadReg(WriteAll(Contents(), ws[..j]), index)
      {
        assert ws[..j + 1][..j] == ws[..j];
        if ws[j].en && ws[j].index == index && index != 0 {
          data := ws[j].data;
        }
      }
      assert ws[..|ws|] == ws;
    }

    /** One clock: every write goes to every bank. */
    method Step(ws: seq<WritePort>)
      requires Valid()
      modifies this
      ensures Valid() && Contents() == WriteAll(old(Contents()), ws)
    {
      ghost var r := Contents();
      for i := 0 to |ws|
        invariant Valid() && Contents() == WriteAll(r, ws[..i])
      {
        assert ws[..i + 1][..i] == ws[..i];
        if ws[i].en && ws[i].index != 0 {
          WriteBanks(ws[i]);
        }
      }
      assert ws[..|ws|] == ws;
    }

    method WriteBanks(w: WritePort)
      requires Valid() && w.en && w.index != 0
      modifies this
      ensures Valid() && Contents() == WriteOne(old(Contents()), w)
    {
      ghost var r := Contents();
      for j := 0 to WAYS
        invariant |rf| == WAYS
        invariant forall k :: 0 <= k < j ==> rf[k] == WriteOne(r, w)
        invariant forall k :: j <= k < WAYS ==> rf[k] == r
      {
        rf := rf[j := rf[j][w.index := w.data]];
      }
    }
  }

  /** Without two writes to one index, a written register reads as its data and every other one as before. */
  lemma {:induction false} WriteAllAt(r: Regs, ws: seq<WritePort>, p: Prf)
    requires forall i, j :: 0 <= i < j < |ws| && ws[i].en && ws[j].en ==> ws[i].index != ws[j].index
    ensures forall i :: 0 <= i < |ws| && ws[i].en && ws[i].index == p != 0 ==> WriteAll(r, ws)[p] == ws[i].data
    ensures p == 0 || (forall i :: 0 <= i < |ws| && ws[i].en ==> ws[i].index != p) ==> WriteAll(r, ws)[p] == r[p]
  {
    if ws != [] {
      var n := |ws| - 1;
      WriteAllAt(r, ws[..n], p);
      assert forall i :: 0 <= i < n ==> ws[..n][i] == ws[i];
    }
  }

  // ---- Scoreboard ----

  function Marked(b: Bitmap, ss: seq<Strobe>, v: bool): Bitmap {
    if ss == [] then b else
      var t := Marked(b, ss[..|ss| - 1], v);
      var s := ss[|ss| - 1];
      if s.valid then t[s.index := v] else t
  }

  predicate Strobed(ss: seq<Strobe>, p: Prf) {
    exists i :: 0 <= i < |ss| && ss[i].valid && ss[i].index == p
  }

  lemma {:induction false} MarkedAt(b: Bitmap, ss: seq<Strobe>, v: bool, p: Prf)
    ensures Marked(b, ss, v)[p] == if Strobed(ss, p) then v else b[p]
  {
    if ss != [] {
      var n := |ss| - 1;
      MarkedAt(b, ss[..n], v, p);
      if Strobed(ss[..n], p) {
        var i :| 0 <= i < n && ss[..n][i].valid && ss[..n][i].index == p;
        assert ss[i].valid && ss[i].index == p;
      }
      if Strobed(ss, p) && !(ss[n].valid && ss[n].index == p) {
        var i :| 0 <= i < |ss| && ss[i].valid && ss[i].index == p;
        assert ss[..n][i].valid && ss[..n][i].index == p;
      }
    }
  }

  /** A source as the queues see it: register 0 is never busy, a register written back now no longer is. */
  predicate SeenBusy(b: Bitmap, clears: seq<Strobe>, p: Prf) {
    p != 0 && b[p] && !Strobed(clears, p)
  }

  class ScoreboardInt {
    var sb: Bitmap

    constructor ()
      ensures forall p: Prf :: !sb[p]
    {
      sb := seq(64, i => false);
    }

    /** Busy answer for one source index. */
    method Inquire(index: Prf, clears: seq<Strobe>) returns (busy: bool)
      ensures busy == SeenBusy(sb, clears, index)
      ensures busy <==> index != 0 && sb[index] && forall j :: 0 <= j < |clears| && clears[j].valid ==> clears[j].index != index
    {
      busy := if index == 0 then false else sb[index];
      for j := 0 to |clears|
        invariant busy == (index != 0 && sb[index] && !Strobed(clears[..j], index))
      {
        if clears[j].valid && clears[j].index == index {
          busy := false;
          assert Strobed(clears[..j + 1], index) by {
            assert clears[..j + 1][j].valid && clears[..j + 1][j].index == index;
          }
        } else {
          assert forall i :: 0 <= i < j ==> clears[..j + 1][i] == clears[..j][i];
        }
      }
      assert clears[..|clears|] == clears;
    }

    /** One clock: a clear empties the board; else dispatched destinations become busy, written-back ones free. */
    method Step(clear: bool, sets: seq<Strobe>, clears: seq<Strobe>)
      modifies this
      ensures forall p: Prf :: sb[p] <==> !clear && (old(sb)[p] || Strobed(sets, p)) && !Strobed(clears, p)
    {
      var setReq := Requests(sets);
      var clearReq := Requests(clears);
      if clear {
        sb := seq(64, i => false);
      } else {
        sb := seq(64, p requires 0 <= p < 64 reads this => (sb[p] || setReq[p]) && !clearReq[p]);
      }
    }

    static method Requests(ss: seq<Strobe>) returns (req: Bitmap)
      ensures forall p: Prf :: req[p] == Strobed(ss, p)
    {
      ghost var none: Bitmap := seq(64, i => false);
      req := seq(64, i => false);
      for i := 0 to |ss|
        invariant req == Marked(none, ss[..i], true)
      {
        assert ss[..i + 1][..i] == ss[..i];
        if ss[i].valid {
          req := req[ss[i].index := true];
        }
      }
      assert ss[..|ss|] == ss;
      forall p: Prf {
        MarkedAt(none, ss, true, p);
      }
    }
  }
}
