/** The restoring divider (src/external/divider.sv): one quotient bit per clock, 32 clocks after `start`. */
module Dividers {
  import opened Arithmetics
  import opened MicroOps

  /** The registers: `result` begins as the dividend and ends as the quotient, `work` is the running remainder. */
  datatype DivState = DivState(active: bool, cycle: nat, result: Word, denom: Word, work: Word)

  function Iterated(s: DivState): DivState {
    var shifted: Word := s.work % TWO_31 * 2 + s.result / TWO_31;
    var result := s.result % TWO_31 * 2;
    DivState(
      s.cycle != 0, (s.cycle + 31) % 32,
      if shifted >= s.denom then result + 1 else result,
      s.denom,
      if shifted >= s.denom then shifted - s.denom else shifted)
  }

  function Clocked(s: DivState, start: bool, a: Word, b: Word): DivState {
    if start then DivState(true, 31, a, b, 0) else if s.active then Iterated(s) else s
  }

  /** n clocks without a start. */
  function Undisturbed(s: DivState, n: nat): DivState {
    if n == 0 then s else Clocked(Undisturbed(s, n - 1), false, 0, 0)
  }

  class Divider {
    var active: bool
    var cycle: nat
    var result: Word
    var denom: Word
    var work: Word

    function State(): DivState
      reads this
    {
      DivState(active, cycle, result, denom, work)
    }

    constructor ()
      ensures State() == DivState(false, 0, 0, 0, 0)
    {
      active, cycle, result, denom, work := false, 0, 0, 0, 0;
    }

    method Step(start: bool, a: Word, b: Word) returns (d: Word, r: Word, ok: bool)
      modifies this
      ensures State() == Clocked(old(State()), start, a, b)
      ensures d == result && r == work && ok == !active
    {
      if start {
        cycle, result, denom, work, active := 31, a, b, 0, true;
      } else if active {
        var shifted := work % TWO_31 * 2 + result / TWO_31;
        var sub := shifted - denom;
        if sub >= 0 {
          work, result := sub, result % TWO_31 * 2 + 1;
        } else {
          work, result := shifted, result % TWO_31 * 2;
        }
        if cycle == 0 {
          active := false;
        }
        cycle := (cycle + 31) % 32;
      }
      d, r, ok := result, work, !active;
    }

    /** A whole division: D and R are quotient and remainder; division by zero gives all ones and the dividend. */
    method Divide(a: Word, b: Word) returns (d: Word, r: Word)
      modifies this
      ensures !active
      ensures b > 0 ==> d == a / b && r == a % b
      ensures b == 0 ==> d == TWO_32 - 1 && r == a
    {
      var ok;
      d, r, ok := Step(true, a, b);
      ghost var s := State();
      for i := 0 to 32
        invariant State() == Undisturbed(s, i) && d == result && r == work
      {
        d, r, ok := Step(false, 0, 0);
      }
      DividesExactly(a, b);
    }
  }

  // ---- The division ----

  /**
   With k bits done, p is 2^k and h is 2^(32-k): `hi` is the number formed by the k leading bits of a, `lo` by the
   others, and q is the quotient so far. The remainder is below 2^k, so bit 31 of `work`, which the shift drops, is zero.
   */
  ghost predicate Partial(s: DivState, a: Word, b: Word, p: nat, h: nat, hi: nat, lo: nat, q: nat) {
    && s.denom == b && a == Mul(hi, h) + lo && lo < h
    && s.result == Mul(lo, p) + q && q < p
    && hi == Mul(q, b) + s.work && s.work < p
    && (b > 0 ==> s.work < b) && (b == 0 ==> q == p - 1)
  }

  /** The leading bit of what is left moves from `lo` to `hi`. */
  lemma SplitBit(h: nat, p: nat, lo: nat, q: nat) returns (bit: nat, lo': nat)
    requires Mul(h, p) == TWO_31 && lo < 2 * h && q < p
    ensures bit <= 1 && lo == Mul(bit, h) + lo' && lo' < h && lo == (if bit == 1 then h else 0) + lo'
    ensures (Mul(lo, p) + q) / TWO_31 == bit && (Mul(lo, p) + q) % TWO_31 == Mul(lo', p) + q
  {
    hide Mul;
    MulTwice(0, h);
    if lo >= h {
      bit, lo' := 1, lo - h;
      MulAdd(h, lo', p);
    } else {
      bit, lo' := 0, lo;
    }
    MulStep(lo', h, p);
  }

  /** One iteration of the divider on these numbers. */
  lemma PartialStep(s: DivState, a: Word, b: Word, p: nat, h: nat, hi: nat, lo: nat, q: nat)
    returns (hi': nat, lo': nat, q': nat)
    requires Mul(h, p) == TWO_31 && p <= TWO_31 && Partial(s, a, b, p, 2 * h, hi, lo, q)
    ensures Partial(Iterated(s), a, b, 2 * p, h, hi', lo', q')
  {
    hide Mul;
    var bit;
    bit, lo' := SplitBit(h, p, lo, q);
    hi' := 2 * hi + bit;
    var shifted := 2 * s.work + bit;
    q' := if shifted >= b then 2 * q + 1 else 2 * q;
    MulTwice(hi, h);
    MulAdd(2 * hi, bit, h);
    MulTwice(lo', p);
    MulTwice(q, b);
    MulTwice(0, b);
    MulAdd(2 * q, 1, b);
  }

  function Started(a: Word, b: Word): DivState {
    DivState(true, 31, a, b, 0)
  }

  /** The divider runs for exactly 32 clocks. */
  lemma {:induction false} RunsFor32(a: Word, b: Word, k: nat)
    requires k <= 32
    ensures var s := Undisturbed(Started(a, b), k);
            s.active == (k < 32) && s.cycle == (if k < 32 then 31 - k else 31)
    ensures k > 0 ==> Undisturbed(Started(a, b), k) == Iterated(Undisturbed(Started(a, b), k - 1))
  {
    hide Iterated;
    if k > 0 {
      RunsFor32(a, b, k - 1);
      IteratedCycle(Undisturbed(Started(a, b), k - 1));
    }
  }

  lemma IteratedCycle(s: DivState)
    ensures Iterated(s).active == (s.cycle != 0) && Iterated(s).cycle == (s.cycle + 31) % 32
  {
  }

  lemma {:induction false} AfterClocks(a: Word, b: Word, k: nat) returns (hi: nat, lo: nat, q: nat)
    requires k <= 32
    ensures Partial(Undisturbed(Started(a, b), k), a, b, Pow2(k), Pow2(32 - k), hi, lo, q)
  {
    if k == 0 {
      AtStart(a, b);
      hi, lo, q := 0, a, 0;
    } else {
      hide Mul, Partial, Pow2, Iterated, Undisturbed;
      hi, lo, q := AfterClocks(a, b, k - 1);
      RunsFor32(a, b, k);
      Powers(k);
      hi, lo, q := PartialStep(Undisturbed(Started(a, b), k - 1), a, b, Pow2(k - 1), Pow2(32 - k), hi, lo, q);
    }
  }

  lemma AtStart(a: Word, b: Word)
    ensures Partial(Started(a, b), a, b, Pow2(0), Pow2(32), 0, a, 0)
  {
    hide Mul;
    Pow2At31();
    assert Pow2(32) == 2 * Pow2(31);
    MulTwice(0, Pow2(32));
    MulTwice(0, b);
    MulOne(a);
  }

  lemma Powers(k: nat)
    requires 0 < k <= 32
    ensures Mul(Pow2(32 - k), Pow2(k - 1)) == TWO_31 && Pow2(k - 1) <= TWO_31
    ensures Pow2(k) == 2 * Pow2(k - 1) && Pow2(32 - (k - 1)) == 2 * Pow2(32 - k)
  {
    hide Mul;
    Pow2At31();
    Pow2Sum(32 - k, k - 1);
    PowMonotone(k - 1, 31);
  }

  /** Exactly 32 clocks after the start the divider is ready, not earlier, and holds quotient and remainder. */
  lemma DividesExactly(a: Word, b: Word)
    ensures forall k :: 0 <= k < 32 ==> Undisturbed(Started(a, b), k).active
    ensures var s := Undisturbed(Started(a, b), 32);
            && !s.active
            && (b > 0 ==> s.result == a / b && s.work == a % b)
            && (b == 0 ==> s.result == TWO_32 - 1 && s.work == a)
  {
    hide Undisturbed, Mul;
    forall k | 0 <= k < 32
      ensures Undisturbed(Started(a, b), k).active
    {
      RunsFor32(a, b, k);
    }
    RunsFor32(a, b, 32);
    var hi, lo, q := AfterClocks(a, b, 32);
    var s := Undisturbed(Started(a, b), 32);
    Pow2At31();
    MulOne(hi);
    MulTwice(0, Pow2(32));
    if b > 0 {
      QuotientIs(a, b, q, s.work);
    } else {
      MulZero(q);
    }
  }
}
