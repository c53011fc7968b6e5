/** Dispatch (src/backend/dispatch.sv): the group leaving the reorder buffer is split by issue queue. */
module Dispatches {
  import opened MicroOps
  import opened Selectors

  function Wants(us: seq<MicroOp>, code: IqCode): (b: seq<bool>)
    ensures |b| == |us|
  {
    seq(|us|, i requires 0 <= i < |us| => us[i].valid && us[i].inst.iqCode == code)
  }

  /** The lanes of one output port: lane i carries the uop that its selector picks, or nothing. */
  function Port(us: seq<MicroOp>, code: IqCode): (r: seq<MicroOp>)
    ensures |r| == |us|
  {
    var b := Wants(us, code);
    seq(|us|, i requires 0 <= i < |us| => if Sel(b, i) < |us| then us[Sel(b, i)] else NO_UOP)
  }

  /** The valid uops of a group that belong to one queue, in program order. */
  function For(us: seq<MicroOp>, code: IqCode): (r: seq<MicroOp>) {
    Filter(us, Wants(us, code))
  }

  /** A port delivers exactly the uops of its queue, in program order, in its first lanes. */
  lemma PortIsStableSplit(us: seq<MicroOp>, code: IqCode)
    ensures Packed(Port(us, code))
    ensures ValidOnly(Port(us, code)) == For(us, code)
  {
    hide Filter, Sel;
    var b, port, n := Wants(us, code), Port(us, code), |For(us, code)|;
    LaneForwards(us, b, 0);
    forall i | 0 <= i < |us|
      ensures port[i].valid <==> i < n
      ensures i < n ==> port[i] == For(us, code)[i]
    {
      LaneForwards(us, b, i);
    }
    assert port[..n] == For(us, code);
    PrefixIsValid(port, n);
  }

  lemma {:induction false} PrefixIsValid(us: seq<MicroOp>, n: nat)
    requires n <= |us| && forall i :: 0 <= i < |us| ==> (us[i].valid <==> i < n)
    ensures ValidOnly(us) == us[..n]
  {
    if us != [] {
      var us' := us[..|us| - 1];
      PrefixIsValid(us', if n < |us| then n else n - 1);
      assert n == |us| ==> us'[..n - 1] + [us[n - 1]] == us[..n];
      assert n < |us| ==> us'[..n] == us[..n];
    }
  }

  /** Every valid uop of a group goes to exactly one port, unless decode gave it no queue. */
  lemma {:induction false} PortsPartition(us: seq<MicroOp>)
    ensures multiset(ValidOnly(us)) ==
            multiset(For(us, IqInt)) + multiset(For(us, IqMem)) + multiset(For(us, IqFp)) + multiset(For(us, IqX))
  {
    if us != [] {
      var us', u := us[..|us| - 1], us[|us| - 1];
      PortsPartition(us');
      ForSnoc(us, IqInt);
      ForSnoc(us, IqMem);
      ForSnoc(us, IqFp);
      ForSnoc(us, IqX);
      hide For;
      AddAll(ValidOnly(us'), For(us', IqInt), For(us', IqMem), For(us', IqFp), For(us', IqX),
             One(u, u.valid), Own(u, IqInt), Own(u, IqMem), Own(u, IqFp), Own(u, IqX));
    }
  }

  function One(u: MicroOp, c: bool): seq<MicroOp> {
    if c then [u] else []
  }

  function Own(u: MicroOp, code: IqCode): seq<MicroOp> {
    One(u, u.valid && u.inst.iqCode == code)
  }

  lemma AddAll(v: seq<MicroOp>, a: seq<MicroOp>, b: seq<MicroOp>, c: seq<MicroOp>, d: seq<MicroOp>,
               v': seq<MicroOp>, a': seq<MicroOp>, b': seq<MicroOp>, c': seq<MicroOp>, d': seq<MicroOp>)
    requires multiset(v) == multiset(a) + multiset(b) + multiset(c) + multiset(d)
    requires multiset(v') == multiset(a') + multiset(b') + multiset(c') + multiset(d')
    ensures multiset(v + v') == multiset(a + a') + multiset(b + b') + multiset(c + c') + multiset(d + d')
  {
  }

  lemma ForSnoc(us: seq<MicroOp>, code: IqCode)
    requires us != []
    ensures var u := us[|us| - 1];
            For(us, code) == For(us[..|us| - 1], code) + Own(u, code)
  {
    assert Wants(us, code)[..|us| - 1] == Wants(us[..|us| - 1], code);
  }
}
