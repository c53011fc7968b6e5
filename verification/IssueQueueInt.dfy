/**
 Integer issue queue (src/backend/issue_queue_int.sv): 32 unordered slots with a free counter. Up to two ALU or branch
 uops and one multiply or divide uop leave per clock; their sources are looked up in the scoreboard.
 */
module IssueQueueInts {
  import opened MicroOps
  import opened Selectors
  import opened RegisterFiles
  import Dispatches

  const IQ_INT_SIZE := 32
  const ISSUE_WIDTH_INT := 3

  type IntSlots = s: seq<MicroOp> | |s| == 32 witness seq(32, i => NO_UOP)

  // ---- Meaning of one clock ----

  function FreeBits(slots: seq<MicroOp>): (b: seq<bool>)
    ensures |b| == |slots|
  {
    seq(|slots|, k requires 0 <= k < |slots| => !slots[k].valid)
  }

  /** A uop none of whose sources the scoreboard shows as busy in this clock. */
  predicate Awake(u: MicroOp, sb: Bitmap, clears: seq<Strobe>) {
    && u.valid
    && !SeenBusy(sb, clears, SourceIndex(u.inst.rs1Source, u.rs1Prf))
    && !SeenBusy(sb, clears, SourceIndex(u.inst.rs2Source, u.rs2Prf))
  }

  predicate ForAluBr(u: MicroOp) {
    u.inst.fuCode == FuAlu || u.inst.fuCode == FuBr
  }

  predicate ForMulDiv(u: MicroOp) {
    u.inst.fuCode == FuImul || u.inst.fuCode == FuIdiv
  }

  function AluBrBits(slots: seq<MicroOp>, sb: Bitmap, clears: seq<Strobe>): (b: seq<bool>)
    ensures |b| == |slots|
  {
    seq(|slots|, k requires 0 <= k < |slots| => Awake(slots[k], sb, clears) && ForAluBr(slots[k]))
  }

  function MulDivBits(slots: seq<MicroOp>, sb: Bitmap, clears: seq<Strobe>): (b: seq<bool>)
    ensures |b| == |slots|
  {
    seq(|slots|, k requires 0 <= k < |slots| => Awake(slots[k], sb, clears) && ForMulDiv(slots[k]))
  }

  /** Slot k issues: it is one of the two lowest in its class, or the lowest of the multiply-divide class. */
  predicate Leaves(alu: seq<bool>, mul: seq<bool>, k: nat)
    requires k < |alu| == |mul|
  {
    || (alu[k] && CountTrue(alu[..k]) < 2)
    || (mul[k] && CountTrue(mul[..k]) < 1)
  }

  /** The lane that slot k takes: a free slot with i free slots below it takes lane i. */
  predicate Takes(free: seq<bool>, us: seq<MicroOp>, k: nat)
    requires k < |free|
    ensures Takes(free, us, k) ==> CountTrue(free[..k]) < |us|
  {
    free[k] && CountTrue(free[..k]) < |us| && us[CountTrue(free[..k])].valid
  }

  function After(slots: seq<MicroOp>, alu: seq<bool>, mul: seq<bool>, us: seq<MicroOp>): (r: seq<MicroOp>)
    requires |slots| == |alu| == |mul|
    ensures |r| == |slots|
  {
    var free := FreeBits(slots);
    seq(|slots|, k requires 0 <= k < |slots| =>
      if Leaves(alu, mul, k) then NO_UOP
      else if Takes(free, us, k) then us[CountTrue(free[..k])]
      else slots[k])
  }

  function Take<T>(s: seq<T>, n: nat): seq<T> {
    if n <= |s| then s[..n] else s
  }

  /** The uops that issue: first the ALU and branch lanes, then the multiply-divide lane. */
  function Issued(slots: seq<MicroOp>, alu: seq<bool>, mul: seq<bool>): seq<MicroOp>
    requires |slots| == |alu| == |mul|
  {
    Take(Filter(slots, alu), 2) + Take(Filter(slots, mul), 1)
  }

  /** The lanes that find a free slot. */
  function Stored(slots: seq<MicroOp>, us: seq<MicroOp>): seq<MicroOp> {
    ValidOnly(Take(us, CountTrue(FreeBits(slots))))
  }

  // ---- Conservation ----

  predicate BitsOk(slots: seq<MicroOp>, alu: seq<bool>, mul: seq<bool>) {
    && |slots| == |alu| == |mul|
    && forall k :: 0 <= k < |slots| ==> ((alu[k] || mul[k]) ==> slots[k].valid) && !(alu[k] && mul[k])
  }

  /** In every clock: what waits plus what issues is what waited plus what was stored. */
  lemma {:induction false} ClockConserves(slots: seq<MicroOp>, alu: seq<bool>, mul: seq<bool>, us: seq<MicroOp>)
    requires BitsOk(slots, alu, mul)
    ensures multiset(ValidOnly(After(slots, alu, mul, us))) + multiset(Issued(slots, alu, mul)) ==
            multiset(ValidOnly(slots)) + multiset(Stored(slots, us))
  {
    if slots == [] {
      assert After(slots, alu, mul, us) == [] && Issued(slots, alu, mul) == [] && Stored(slots, us) == [];
    } else {
      var n := |slots| - 1;
      ClockConserves(slots[..n], alu[..n], mul[..n], us);
      SlotConserves(slots, alu, mul, us);
    }
  }

  function OneIf(c: bool, u: MicroOp): seq<MicroOp> {
    if c then [u] else []
  }

  lemma SlotConserves(slots: seq<MicroOp>, alu: seq<bool>, mul: seq<bool>, us: seq<MicroOp>)
    requires BitsOk(slots, alu, mul) && slots != []
    requires var n := |slots| - 1;
             multiset(ValidOnly(After(slots[..n], alu[..n], mul[..n], us))) +
             multiset(Issued(slots[..n], alu[..n], mul[..n])) ==
             multiset(ValidOnly(slots[..n])) + multiset(Stored(slots[..n], us))
    ensures multiset(ValidOnly(After(slots, alu, mul, us))) + multiset(Issued(slots, alu, mul)) ==
            multiset(ValidOnly(slots)) + multiset(Stored(slots, us))
  {
    hide After, Issued, Stored, Leaves, Takes, ValidOnly, OneIf, Filter, CountTrue, FreeBits;
    var n, free := |slots| - 1, FreeBits(slots);
    var u, v := slots[n], After(slots, alu, mul, us)[n];
    var leaves, takes, lane := SlotFacts(slots, alu, mul, us);
    var slots', after' := slots[..n], After(slots, alu, mul, us)[..n];
    Balance(u, v, lane, leaves, takes);
    AfterSnoc(slots, alu, mul, us);
    IssuedSnoc(slots, alu, mul);
    StoredSnoc(slots, us);
    assert slots' + [u] == slots;
    ValidSnoc(slots', u);
    ValidSnoc(after', v);
    Sum(ValidOnly(after'), OneIf(v.valid, v), ValidOnly(slots'), OneIf(u.valid, u),
        multiset(Issued(slots', alu[..n], mul[..n])), multiset(OneIf(leaves, u)),
        Stored(slots', us), OneIf(takes, lane));
  }

  lemma Sum(a: seq<MicroOp>, da: seq<MicroOp>, b: seq<MicroOp>, db: seq<MicroOp>,
            i: multiset<MicroOp>, di: multiset<MicroOp>, s: seq<MicroOp>, ds: seq<MicroOp>)
    requires multiset(a) + i == multiset(b) + multiset(s)
    requires multiset(da) + di == multiset(db) + multiset(ds)
    ensures multiset(a + da) + (i + di) == multiset(b + db) + multiset(s + ds)
  {
    calc {
      multiset(a + da) + (i + di);
      (multiset(a) + i) + (multiset(da) + di);
      (multiset(b) + multiset(s)) + (multiset(db) + multiset(ds));
      multiset(b + db) + multiset(s + ds);
    }
  }

  lemma SlotFacts(slots: seq<MicroOp>, alu: seq<bool>, mul: seq<bool>, us: seq<MicroOp>)
    returns (leaves: bool, takes: bool, lane: MicroOp)
    requires BitsOk(slots, alu, mul) && slots != []
    ensures var n, free := |slots| - 1, FreeBits(slots);
            && leaves == Leaves(alu, mul, n) && takes == Takes(free, us, n)
            && (takes ==> !leaves && !slots[n].valid && lane.valid && CountTrue(free[..n]) < |us|)
            && lane == (if takes then us[CountTrue(free[..n])] else NO_UOP)
            && (leaves ==> slots[n].valid)
            && After(slots, alu, mul, us)[n] == (if leaves then NO_UOP else if takes then lane else slots[n])
  {
    var n, free := |slots| - 1, FreeBits(slots);
    leaves, takes := Leaves(alu, mul, n), Takes(free, us, n);
    lane := if takes then us[CountTrue(free[..n])] else NO_UOP;
  }

  /** One slot: what it holds next and what leaves it are what it held and what it took. */
  lemma Balance(u: MicroOp, v: MicroOp, lane: MicroOp, leaves: bool, takes: bool)
    requires takes ==> !leaves && !u.valid && lane.valid
    requires leaves ==> u.valid
    requires v == (if leaves then NO_UOP else if takes then lane else u)
    ensures multiset(OneIf(v.valid, v)) + multiset(OneIf(leaves, u)) ==
            multiset(OneIf(u.valid, u)) + multiset(OneIf(takes, lane))
  {
  }

  lemma ValidSnoc(us: seq<MicroOp>, u: MicroOp)
    ensures ValidOnly(us + [u]) == ValidOnly(us) + OneIf(u.valid, u)
  {
    assert (us + [u])[..|us|] == us;
  }

  lemma {:induction false} TakeFilterSnoc(us: seq<MicroOp>, b: seq<bool>, m: nat)
    requires |us| == |b| && us != []
    ensures var n := |us| - 1;
            Take(Filter(us, b), m) ==
            Take(Filter(us[..n], b[..n]), m) + OneIf(b[n] && CountTrue(b[..n]) < m, us[n])
  {
    var n := |us| - 1;
    FilterByRank(us[..n], b[..n]);
    assert Filter(us, b) == Filter(us[..n], b[..n]) + OneIf(b[n], us[n]);
    hide Filter, CountTrue;
    TakeSnoc(Filter(us[..n], b[..n]), b[n], us[n], m);
  }

  lemma TakeSnoc(s: seq<MicroOp>, c: bool, u: MicroOp, m: nat)
    ensures Take(s + OneIf(c, u), m) == Take(s, m) + OneIf(c && |s| < m, u)
  {
    if c && |s| >= m {
      assert (s + [u])[..m] == s[..m];
    }
  }

  lemma IssuedSnoc(slots: seq<MicroOp>, alu: seq<bool>, mul: seq<bool>)
    requires BitsOk(slots, alu, mul) && slots != []
    ensures var n := |slots| - 1;
            multiset(Issued(slots, alu, mul)) ==
            multiset(Issued(slots[..n], alu[..n], mul[..n])) + multiset(OneIf(Leaves(alu, mul, n), slots[n]))
  {
    hide Filter, Take, OneIf, CountTrue;
    var n := |slots| - 1;
    TakeFilterSnoc(slots, alu, 2);
    TakeFilterSnoc(slots, mul, 1);
    OneOf(alu[n] && CountTrue(alu[..n]) < 2, mul[n] && CountTrue(mul[..n]) < 1, slots[n]);
  }

  lemma OneOf(c: bool, d: bool, u: MicroOp)
    requires !(c && d)
    ensures multiset(OneIf(c || d, u)) == multiset(OneIf(c, u)) + multiset(OneIf(d, u))
  {
  }

  lemma StoredSnoc(slots: seq<MicroOp>, us: seq<MicroOp>)
    requires slots != []
    ensures var n, free := |slots| - 1, FreeBits(slots);
            Stored(slots, us) == Stored(slots[..n], us) +
                                 OneIf(Takes(free, us, n), if Takes(free, us, n) then us[CountTrue(free[..n])] else NO_UOP)
  {
    var n, free := |slots| - 1, FreeBits(slots);
    FreeSnoc(slots);
    var c := CountTrue(free[..n]);
    if free[n] && c < |us| {
      TakeOneMore(us, c);
    } else {
      TakeNoMore(us, c, CountTrue(free));
    }
  }

  lemma FreeSnoc(slots: seq<MicroOp>)
    requires slots != []
    ensures var n, free := |slots| - 1, FreeBits(slots);
            free[..n] == FreeBits(slots[..n]) && CountTrue(free) == CountTrue(free[..n]) + if free[n] then 1 else 0
  {
    assert FreeBits(slots)[..|slots| - 1] == FreeBits(slots[..|slots| - 1]);
  }

  lemma TakeOneMore(us: seq<MicroOp>, c: nat)
    requires c < |us|
    ensures ValidOnly(Take(us, c + 1)) == ValidOnly(Take(us, c)) + OneIf(us[c].valid, us[c])
  {
    assert Take(us, c + 1) == Take(us, c) + [us[c]];
    ValidSnoc(Take(us, c), us[c]);
  }

  lemma TakeNoMore(us: seq<MicroOp>, c: nat, d: nat)
    requires c == d || (c < d && |us| <= c)
    ensures Take(us, d) == Take(us, c)
  {
  }

  lemma AfterSnoc(slots: seq<MicroOp>, alu: seq<bool>, mul: seq<bool>, us: seq<MicroOp>)
    requires BitsOk(slots, alu, mul) && slots != []
    ensures var n, r := |slots| - 1, After(slots, alu, mul, us);
            r[..n] == After(slots[..n], alu[..n], mul[..n], us) && r == r[..n] + [r[n]]
  {
    var n := |slots| - 1;
    assert FreeBits(slots)[..n] == FreeBits(slots[..n]);
    forall k | 0 <= k < n
      ensures After(slots, alu, mul, us)[k] == After(slots[..n], alu[..n], mul[..n], us)[k]
    {
      assert alu[..n][..k] == alu[..k] && mul[..n][..k] == mul[..k];
      assert FreeBits(slots[..n])[..k] == FreeBits(slots)[..k];
    }
  }

  // ---- What issues and what is stored ----

  function Alu(slots: seq<MicroOp>, sb: Bitmap, clears: seq<Strobe>): seq<MicroOp> {
    Filter(slots, AluBrBits(slots, sb, clears))
  }

  function Mul(slots: seq<MicroOp>, sb: Bitmap, clears: seq<Strobe>): seq<MicroOp> {
    Filter(slots, MulDivBits(slots, sb, clears))
  }

  predicate Picked(slots: seq<MicroOp>, b: seq<bool>, u: MicroOp)
    requires |slots| == |b|
  {
    exists k :: 0 <= k < |slots| && b[k] && slots[k] == u
  }

  lemma {:induction false} FilterMembers(slots: seq<MicroOp>, b: seq<bool>)
    requires |slots| == |b|
    ensures forall u :: u in Filter(slots, b) <==> Picked(slots, b, u)
  {
    if slots != [] {
      var n := |slots| - 1;
      FilterMembers(slots[..n], b[..n]);
      forall u
        ensures Picked(slots, b, u) <==> Picked(slots[..n], b[..n], u) || (b[n] && slots[n] == u)
      {
        if Picked(slots[..n], b[..n], u) {
          var k :| 0 <= k < n && b[..n][k] && slots[..n][k] == u;
          assert b[k] && slots[k] == u;
        }
        if k :| 0 <= k < |slots| && b[k] && slots[k] == u {
          assert k < n ==> b[..n][k] && slots[..n][k] == u;
        }
      }
    }
  }

  lemma CandidatesAre(slots: seq<MicroOp>, sb: Bitmap, clears: seq<Strobe>)
    ensures forall u :: u in Alu(slots, sb, clears) <==> u in slots && Awake(u, sb, clears) && ForAluBr(u)
    ensures forall u :: u in Mul(slots, sb, clears) <==> u in slots && Awake(u, sb, clears) && ForMulDiv(u)
  {
    hide Filter, Awake, ForAluBr, ForMulDiv;
    var alu, mul := AluBrBits(slots, sb, clears), MulDivBits(slots, sb, clears);
    FilterMembers(slots, alu);
    FilterMembers(slots, mul);
    forall u
      ensures Picked(slots, alu, u) <==> u in slots && Awake(u, sb, clears) && ForAluBr(u)
      ensures Picked(slots, mul, u) <==> u in slots && Awake(u, sb, clears) && ForMulDiv(u)
    {
      if k :| 0 <= k < |slots| && slots[k] == u {
        assert alu[k] <==> Awake(u, sb, clears) && ForAluBr(u);
        assert mul[k] <==> Awake(u, sb, clears) && ForMulDiv(u);
      }
    }
  }

  /** A source does not wait: it is no register, or its register is not busy or is written back in this clock. */
  predicate Arrived(src: Source, p: Prf, sb: Bitmap, clears: seq<Strobe>) {
    src == RsFromRf && p != 0 && sb[p] ==> exists j :: 0 <= j < |clears| && clears[j].valid && clears[j].index == p
  }

  predicate WaitsForNothing(u: MicroOp, sb: Bitmap, clears: seq<Strobe>) {
    u.valid && Arrived(u.inst.rs1Source, u.rs1Prf, sb, clears) && Arrived(u.inst.rs2Source, u.rs2Prf, sb, clears)
  }

  lemma AwakeIs(u: MicroOp, sb: Bitmap, clears: seq<Strobe>)
    ensures Awake(u, sb, clears) <==> WaitsForNothing(u, sb, clears)
  {
  }

  /**
   No uop issues while one of its sources is busy, and while some uop of a class waits for no source one of that class
   issues.
   */
  lemma {:induction false} OnlyAwakeIssue(slots: seq<MicroOp>, sb: Bitmap, clears: seq<Strobe>)
    ensures var r := Issued(slots, AluBrBits(slots, sb, clears), MulDivBits(slots, sb, clears));
            && |r| <= ISSUE_WIDTH_INT
            && (forall u <- r :: u in slots && WaitsForNothing(u, sb, clears))
            && (forall u <- slots :: WaitsForNothing(u, sb, clears) ==>
                  && (u.inst.fuCode in {FuAlu, FuBr} ==> exists v :: v in r && v.inst.fuCode in {FuAlu, FuBr})
                  && (u.inst.fuCode in {FuImul, FuIdiv} ==> exists v :: v in r && v.inst.fuCode in {FuImul, FuIdiv}))
  {
    hide WaitsForNothing, Issued, AluBrBits, MulDivBits, Awake;
    var r := Issued(slots, AluBrBits(slots, sb, clears), MulDivBits(slots, sb, clears));
    IssueAwake(slots, sb, clears);
    forall u | u in r || u in slots
      ensures Awake(u, sb, clears) <==> WaitsForNothing(u, sb, clears)
    {
      AwakeIs(u, sb, clears);
    }
  }

  lemma IssueAwake(slots: seq<MicroOp>, sb: Bitmap, clears: seq<Strobe>)
    ensures var r := Issued(slots, AluBrBits(slots, sb, clears), MulDivBits(slots, sb, clears));
            && (forall u :: u in r ==> u in slots && Awake(u, sb, clears))
            && |r| <= ISSUE_WIDTH_INT
            && ((exists u :: u in slots && Awake(u, sb, clears) && ForAluBr(u)) ==> exists v :: v in r && ForAluBr(v))
            && ((exists u :: u in slots && Awake(u, sb, clears) && ForMulDiv(u)) ==> exists v :: v in r && ForMulDiv(v))
  {
    hide Filter, Awake, ForAluBr, ForMulDiv, AluBrBits, MulDivBits;
    var a, m := Alu(slots, sb, clears), Mul(slots, sb, clears);
    var r := Issued(slots, AluBrBits(slots, sb, clears), MulDivBits(slots, sb, clears));
    CandidatesAre(slots, sb, clears);
    assert r == Take(a, 2) + Take(m, 1);
    assert forall u :: u in r ==> u in a || u in m;
    if a != [] {
      assert r[0] == a[0] && a[0] in a;
    }
    if m != [] {
      assert r[|r| - 1] == m[0] && m[0] in m;
    }
  }

  /** A group is stored whole exactly if every valid lane has that many free slots before it. */
  lemma {:induction false} StoredExactly(slots: seq<MicroOp>, us: seq<MicroOp>)
    ensures var n := CountTrue(FreeBits(slots));
            && Stored(slots, us) <= ValidOnly(us)
            && (Stored(slots, us) == ValidOnly(us) <==> forall i :: 0 <= i < |us| && us[i].valid ==> i < n)
  {
    TakePrefix(us, CountTrue(FreeBits(slots)));
  }

  lemma {:induction false} TakePrefix(us: seq<MicroOp>, n: nat)
    ensures ValidOnly(Take(us, n)) <= ValidOnly(us)
    ensures ValidOnly(Take(us, n)) == ValidOnly(us) <==> forall i :: 0 <= i < |us| && us[i].valid ==> i < n
  {
    if us != [] && n < |us| {
      var us' := us[..|us| - 1];
      TakePrefix(us', n);
      assert Take(us, n) == Take(us', n);
      assert forall i :: 0 <= i < |us'| ==> us'[i] == us[i];
    } else {
      assert us[..|us|] == us;
    }
  }

  lemma {:induction false} FreeIsRest(slots: seq<MicroOp>)
    ensures CountTrue(FreeBits(slots)) + |ValidOnly(slots)| == |slots|
  {
    if slots != [] {
      var n := |slots| - 1;
      assert FreeBits(slots)[..n] == FreeBits(slots[..n]);
      FreeIsRest(slots[..n]);
    }
  }

  function LeaveBits(alu: seq<bool>, mul: seq<bool>): (b: seq<bool>)
    requires |alu| == |mul|
    ensures |b| == |alu|
  {
    seq(|alu|, k requires 0 <= k < |alu| => Leaves(alu, mul, k))
  }

  lemma {:induction false} LeaveCount(slots: seq<MicroOp>, alu: seq<bool>, mul: seq<bool>)
    requires BitsOk(slots, alu, mul)
    ensures CountTrue(LeaveBits(alu, mul)) == |Issued(slots, alu, mul)|
  {
    hide Issued, OneIf;
    var b := LeaveBits(alu, mul);
    if slots == [] {
      NothingIssued(alu, mul);
    } else {
      var n := |slots| - 1;
      LeaveCount(slots[..n], alu[..n], mul[..n]);
      IssuedSnoc(slots, alu, mul);
      OneIfSize(Leaves(alu, mul, n), slots[n]);
      forall k | 0 <= k < n
        ensures b[k] == LeaveBits(alu[..n], mul[..n])[k]
      {
        assert alu[..n][..k] == alu[..k] && mul[..n][..k] == mul[..k];
      }
      assert b[..n] == LeaveBits(alu[..n], mul[..n]);
      Sizes(Issued(slots, alu, mul), Issued(slots[..n], alu[..n], mul[..n]), OneIf(Leaves(alu, mul, n), slots[n]));
    }
  }

  lemma NothingIssued(alu: seq<bool>, mul: seq<bool>)
    requires alu == mul == []
    ensures Issued([], alu, mul) == [] && LeaveBits(alu, mul) == []
  {
  }

  lemma OneIfSize(c: bool, u: MicroOp)
    ensures |OneIf(c, u)| == if c then 1 else 0
  {
  }

  lemma Sizes(a: seq<MicroOp>, b: seq<MicroOp>, c: seq<MicroOp>)
    requires multiset(a) == multiset(b) + multiset(c)
    ensures |a| == |b| + |c|
  {
    assert |multiset(a)| == |a| && |multiset(b)| == |b| && |multiset(c)| == |c|;
  }

  /** The free slots after a clock: those before, less the stored uops, plus the issued ones. */
  lemma FreeCountMoves(slots: seq<MicroOp>, alu: seq<bool>, mul: seq<bool>, us: seq<MicroOp>)
    requires BitsOk(slots, alu, mul)
    ensures CountTrue(FreeBits(After(slots, alu, mul, us))) ==
            CountTrue(FreeBits(slots)) - |Stored(slots, us)| + |Issued(slots, alu, mul)|
  {
    hide After, Issued, Stored, ValidOnly, CountTrue, FreeBits;
    var r := After(slots, alu, mul, us);
    ClockConserves(slots, alu, mul, us);
    FreeIsRest(slots);
    FreeIsRest(r);
    assert |multiset(ValidOnly(r)) + multiset(Issued(slots, alu, mul))| == |ValidOnly(r)| + |Issued(slots, alu, mul)|;
    assert |multiset(ValidOnly(slots)) + multiset(Stored(slots, us))| == |ValidOnly(slots)| + |Stored(slots, us)|;
  }

  // ---- The queue ----

  function Lane(s: seq<MicroOp>, i: nat): MicroOp {
    if i < |s| then s[i] else NO_UOP
  }

  lemma EmptySlots(slots: seq<MicroOp>)
    requires forall k :: 0 <= k < |slots| ==> slots[k] == NO_UOP
    ensures ValidOnly(slots) == []
  {
    Dispatches.PrefixIsValid(slots, 0);
  }

  /** The slot loads of the first n lanes. */
  ghost predicate Filled(free: seq<bool>, us: seq<MicroOp>, n: nat, k: nat, toSlot: MicroOp, load: bool)
    requires k < |free| && n <= |us|
  {
    var lane := CountTrue(free[..k]);
    && (load <==> free[k] && lane < n && us[lane].valid)
    && toSlot == (if load then us[lane] else NO_UOP)
  }

  /** One lane of the allocation loop: it goes to the slot that its selector names. */
  method FillLane(free: seq<bool>, us: seq<MicroOp>, i: nat, toSlot: seq<MicroOp>, load: seq<bool>)
    returns (toSlot': seq<MicroOp>, load': seq<bool>)
    requires i < |us| && |free| == |toSlot| == |load|
    requires forall k :: 0 <= k < |free| ==> Filled(free, us, i, k, toSlot[k], load[k])
    ensures |free| == |toSlot'| == |load'|
    ensures forall k :: 0 <= k < |free| ==> Filled(free, us, i + 1, k, toSlot'[k], load'[k])
  {
    toSlot', load' := toSlot, load;
    var sel := Sel(free, i);
    for j := 0 to |free|
      invariant |free| == |toSlot'| == |load'|
      invariant forall k :: 0 <= k < j ==> Filled(free, us, i + 1, k, toSlot'[k], load'[k])
      invariant forall k :: j <= k < |free| ==> toSlot'[k] == toSlot[k] && load'[k] == load[k]
    {
      LaneTakesRank(free, i, j);
      if sel == j && us[i].valid {
        toSlot' := toSlot'[j := us[i]];
        load' := load'[j := true];
      }
    }
  }

  method AssignSlots(free: seq<bool>, us: seq<MicroOp>) returns (toSlot: seq<MicroOp>, load: seq<bool>)
    ensures |free| == |toSlot| == |load|
    ensures forall k :: 0 <= k < |free| ==> Filled(free, us, |us|, k, toSlot[k], load[k])
    ensures forall k :: 0 <= k < |free| && load[k] ==> free[k]
  {
    hide Sel;
    toSlot, load := seq(|free|, k => NO_UOP), seq(|free|, k => false);
    for i := 0 to |us|
      invariant |free| == |toSlot| == |load|
      invariant forall k :: 0 <= k < |free| ==> Filled(free, us, i, k, toSlot[k], load[k])
    {
      toSlot, load := FillLane(free, us, i, toSlot, load);
    }
  }

  method CountUops(us: seq<MicroOp>) returns (n: nat)
    ensures n == CountValid(us)
  {
    n := 0;
    for i := 0 to |us|
      invariant n == CountValid(us[..i])
    {
      assert us[..i + 1][..i] == us[..i];
      if us[i].valid {
        n := n + 1;
      }
    }
    assert us[..|us|] == us;
  }

  /** Three output lanes from the two selectors, and the slots they empty. */
  method SelectOutputs(slots: seq<MicroOp>, alu: seq<bool>, mul: seq<bool>)
    returns (uopOut: seq<MicroOp>, clear: seq<bool>)
    requires BitsOk(slots, alu, mul)
    ensures uopOut == [Lane(Filter(slots, alu), 0), Lane(Filter(slots, alu), 1), Lane(Filter(slots, mul), 0)]
    ensures clear == LeaveBits(alu, mul)
  {
    hide Filter, Sel;
    LaneForwards(slots, alu, 0);
    LaneForwards(slots, alu, 1);
    LaneForwards(slots, mul, 0);
    forall k: nat | k < |slots|
      ensures Sel(alu, 0) == k <==> alu[k] && CountTrue(alu[..k]) == 0
      ensures Sel(alu, 1) == k <==> alu[k] && CountTrue(alu[..k]) == 1
      ensures Sel(mul, 0) == k <==> mul[k] && CountTrue(mul[..k]) == 0
    {
      LaneTakesRank(alu, 0, k);
      LaneTakesRank(alu, 1, k);
      LaneTakesRank(mul, 0, k);
    }
    uopOut, clear := [NO_UOP, NO_UOP, NO_UOP], seq(|slots|, k => false);
    var a0, a1, m0 := Sel(alu, 0), Sel(alu, 1), Sel(mul, 0);
    if a0 < |slots| {
      uopOut, clear := uopOut[0 := slots[a0]], clear[a0 := true];
    }
    if a1 < |slots| {
      uopOut, clear := uopOut[1 := slots[a1]], clear[a1 := true];
    }
    if m0 < |slots| {
      uopOut, clear := uopOut[2 := slots[m0]], clear[m0 := true];
    }
  }

  lemma BitsAreOk(slots: seq<MicroOp>, sb: Bitmap, clears: seq<Strobe>)
    ensures BitsOk(slots, AluBrBits(slots, sb, clears), MulDivBits(slots, sb, clears))
  {
  }

  /** The counters of a clock in which no lane is lost. */
  lemma {:induction false} Counts(slots: seq<MicroOp>, alu: seq<bool>, mul: seq<bool>, us: seq<MicroOp>)
    requires BitsOk(slots, alu, mul)
    requires forall i :: 0 <= i < |us| && us[i].valid ==> i < CountTrue(FreeBits(slots))
    ensures CountTrue(FreeBits(After(slots, alu, mul, us))) ==
            CountTrue(FreeBits(slots)) - CountValid(us) + CountTrue(LeaveBits(alu, mul))
  {
    hide After, Issued, Stored, CountTrue, FreeBits, LeaveBits;
    FreeCountMoves(slots, alu, mul, us);
    StoredExactly(slots, us);
    LeaveCount(slots, alu, mul);
  }

  /** The register inputs of the slots are the slots of the next clock. */
  lemma {:induction false} NextSlots(slots: seq<MicroOp>, alu: seq<bool>, mul: seq<bool>, us: seq<MicroOp>,
                  toSlot: seq<MicroOp>, load: seq<bool>, loadEn: bool)
    requires BitsOk(slots, alu, mul) && |toSlot| == |load| == |slots|
    requires forall k :: 0 <= k < |slots| ==> Filled(FreeBits(slots), us, |us|, k, toSlot[k], load[k])
    requires CountValid(us) > 0 ==> loadEn
    ensures forall k :: 0 <= k < |slots| ==>
              After(slots, alu, mul, us)[k] ==
              if LeaveBits(alu, mul)[k] then NO_UOP
              else if load[k] && loadEn && toSlot[k].valid then toSlot[k] else slots[k]
  {
    hide CountTrue, CountValid;
    if !loadEn {
      NoneValid(us);
    }
  }

  lemma {:induction false} NoneValid(us: seq<MicroOp>)
    requires CountValid(us) == 0
    ensures forall i :: 0 <= i < |us| ==> !us[i].valid
  {
    if us != [] {
      NoneValid(us[..|us| - 1]);
    }
  }

  class IssueQueueInt {
    var slots: IntSlots
    var freeCount: nat

    predicate Valid()
      reads this
    {
      freeCount == CountTrue(FreeBits(slots))
    }

    constructor ()
      ensures Valid() && freeCount == IQ_INT_SIZE && ValidOnly(slots) == []
    {
      var empty: IntSlots := seq(32, i => NO_UOP);
      slots, freeCount := empty, IQ_INT_SIZE;
      new;
      EmptySlots(slots);
      FreeIsRest(slots);
    }

    /** One clock. A lane may be used only while that many slots are free, and only with the load signal. */
    method Step(clearEn: bool, loadEn: bool, sb: Bitmap, clears: seq<Strobe>, uopIn: seq<MicroOp>)
      returns (uopOut: seq<MicroOp>, iqFull: bool)
      requires Valid() && |uopIn| == DISPATCH_WIDTH
      requires CountValid(uopIn) > 0 ==> loadEn
      requires forall i :: 0 <= i < |uopIn| && uopIn[i].valid ==> i < freeCount
      modifies this
      ensures Valid()
      ensures var was := old(slots);
              var alu, mul := AluBrBits(was, sb, clears), MulDivBits(was, sb, clears);
              var next := After(was, alu, mul, uopIn);
              && slots == (if clearEn then seq(32, i => NO_UOP) else next)
              && uopOut == [Lane(Filter(was, alu), 0), Lane(Filter(was, alu), 1), Lane(Filter(was, mul), 0)]
              && iqFull == (CountTrue(FreeBits(next)) < DISPATCH_WIDTH)
              && freeCount == (if clearEn then IQ_INT_SIZE else CountTrue(FreeBits(next)))
    {
      hide After, AluBrBits, MulDivBits, FreeBits, CountTrue, Filter, LeaveBits, BitsOk, Filled, CountValid, Lane,
        Sel, ValidOnly;
      var free := FreeBits(slots);
      var toSlot, load := AssignSlots(free, uopIn);
      var alu, mul := Requests(toSlot, load, loadEn, sb, clears);
      BitsAreOk(slots, sb, clears);
      var clear;
      uopOut, clear := SelectOutputs(slots, alu, mul);
      var inCount := CountUops(uopIn);
      var outCount := CountBits(clear);
      Counts(slots, alu, mul, uopIn);
      var count := freeCount - inCount + outCount;
      iqFull := count < DISPATCH_WIDTH;
      NextSlots(slots, alu, mul, uopIn, toSlot, load, loadEn);
      var next: IntSlots := seq(32, k requires 0 <= k < 32 reads this =>
        if clear[k] || clearEn then NO_UOP else if load[k] && loadEn && toSlot[k].valid then toSlot[k] else slots[k]);
      ghost var after := After(slots, alu, mul, uopIn);
      assert !clearEn ==> next == after;
      slots := next;
      freeCount := if clearEn then IQ_INT_SIZE else count;
      if clearEn {
        EmptySlots(slots);
        FreeIsRest(slots);
      }
    }

    /** Ready bits by class. A slot shows the scoreboard the sources of the uop it loads, else those of its own. */
    method Requests(toSlot: seq<MicroOp>, load: seq<bool>, loadEn: bool, sb: Bitmap, clears: seq<Strobe>)
      returns (alu: seq<bool>, mul: seq<bool>)
      requires |toSlot| == |load| == IQ_INT_SIZE
      requires forall k :: 0 <= k < IQ_INT_SIZE && load[k] ==> FreeBits(slots)[k]
      ensures alu == AluBrBits(slots, sb, clears) && mul == MulDivBits(slots, sb, clears)
    {
      alu, mul := [], [];
      for k := 0 to IQ_INT_SIZE
        invariant |alu| == |mul| == k
        invariant alu == AluBrBits(slots, sb, clears)[..k] && mul == MulDivBits(slots, sb, clears)[..k]
      {
        var shown := if load[k] && loadEn && toSlot[k].valid then toSlot[k] else slots[k];
        var rs1Busy := SeenBusy(sb, clears, SourceIndex(shown.inst.rs1Source, shown.rs1Prf));
        var rs2Busy := SeenBusy(sb, clears, SourceIndex(shown.inst.rs2Source, shown.rs2Prf));
        var ready := !rs1Busy && !rs2Busy && slots[k].valid;
        assert ready == Awake(slots[k], sb, clears);
        hide Awake, SeenBusy;
        alu := alu + [ready && ForAluBr(slots[k])];
        mul := mul + [ready && ForMulDiv(slots[k])];
      }
    }
  }

  // ---- Runs ----

  datatype IntInput = IntInput(clearEn: bool, sb: Bitmap, clears: seq<Strobe>, group: seq<MicroOp>)

  /** The slots, and what was dispatched and what issued since the last clear. */
  datatype IntHistory = IntHistory(slots: seq<MicroOp>, dispatched: seq<MicroOp>, issued: seq<MicroOp>)

  function Empty(): IntHistory {
    IntHistory(seq(32, k => NO_UOP), [], [])
  }

  function IntNext(h: IntHistory, i: IntInput): IntHistory {
    if i.clearEn then Empty() else
      var alu, mul := AluBrBits(h.slots, i.sb, i.clears), MulDivBits(h.slots, i.sb, i.clears);
      IntHistory(After(h.slots, alu, mul, i.group), h.dispatched + ValidOnly(i.group),
                 h.issued + Issued(h.slots, alu, mul))
  }

  function IntRun(ins: seq<IntInput>): IntHistory {
    if ins == [] then Empty() else IntNext(IntRun(ins[..|ins| - 1]), ins[|ins| - 1])
  }

  /** No lane is used beyond the free slots. */
  ghost predicate IntRunOk(ins: seq<IntInput>) {
    ins != [] ==>
      var h, i := IntRun(ins[..|ins| - 1]), ins[|ins| - 1];
      && IntRunOk(ins[..|ins| - 1])
      && forall k :: 0 <= k < |i.group| && i.group[k].valid ==> k < CountTrue(FreeBits(h.slots))
  }

  lemma RunBalance(after: seq<MicroOp>, issued: seq<MicroOp>, now: seq<MicroOp>, before: seq<MicroOp>,
                   dispatched: seq<MicroOp>, stored: seq<MicroOp>)
    requires multiset(after) + multiset(now) == multiset(before) + multiset(stored)
    requires multiset(before) + multiset(issued) == multiset(dispatched)
    ensures multiset(after) + multiset(issued + now) == multiset(dispatched + stored)
  {
    calc {
      multiset(after) + multiset(issued + now);
      (multiset(after) + multiset(now)) + multiset(issued);
      (multiset(before) + multiset(issued)) + multiset(stored);
      multiset(dispatched + stored);
    }
  }

  /** In every run, what waits and what issued since the last clear is exactly what was dispatched since. */
  lemma {:induction false} QueueConserves(ins: seq<IntInput>)
    requires IntRunOk(ins)
    ensures var h := IntRun(ins);
            multiset(ValidOnly(h.slots)) + multiset(h.issued) == multiset(h.dispatched)
  {
    hide ValidOnly, After, Issued, AluBrBits, MulDivBits, FreeBits, CountTrue, Stored;
    if ins == [] || ins[|ins| - 1].clearEn {
      EmptySlots(Empty().slots);
    } else {
      var h, i := IntRun(ins[..|ins| - 1]), ins[|ins| - 1];
      QueueConserves(ins[..|ins| - 1]);
      var alu, mul := AluBrBits(h.slots, i.sb, i.clears), MulDivBits(h.slots, i.sb, i.clears);
      BitsAreOk(h.slots, i.sb, i.clears);
      ClockConserves(h.slots, alu, mul, i.group);
      StoredExactly(h.slots, i.group);
      RunBalance(ValidOnly(After(h.slots, alu, mul, i.group)), h.issued, Issued(h.slots, alu, mul), ValidOnly(h.slots),
                 h.dispatched, ValidOnly(i.group));
    }
  }
}
