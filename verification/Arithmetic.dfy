/** Products under a name, so that the laws of multiplication are used one at a time, and powers of two. */
module Arithmetics {
  const TWO_31 := 0x8000_0000
  const TWO_32 := 0x1_0000_0000

  function Min(a: nat, b: nat): nat {
    if a < b then a else b
  }

  function Mul(a: nat, b: nat): nat {
    a * b
  }

  lemma MulAdd(a: nat, b: nat, c: nat)
    ensures Mul(a + b, c) == Mul(a, c) + Mul(b, c)
  {
  }

  lemma MulTwice(a: nat, c: nat)
    ensures Mul(2 * a, c) == 2 * Mul(a, c) == Mul(a, 2 * c)
    ensures Mul(1, c) == c && Mul(0, c) == 0
  {
  }

  lemma {:induction false} MulStep(c: nat, h: nat, p: nat)
    requires c < h
    ensures Mul(c, p) + p <= Mul(h, p)
  {
    hide Mul;
    MulAdd(c, h - c, p);
    MulAdd(1, h - c - 1, p);
    MulTwice(0, p);
  }

  function Pow2(n: nat): (p: nat)
    ensures p > 0
  {
    if n == 0 then 1 else 2 * Pow2(n - 1)
  }

  lemma {:induction false} Pow2Sum(a: nat, b: nat)
    ensures Mul(Pow2(a), Pow2(b)) == Pow2(a + b)
  {
    MulTwice(0, Pow2(b));
    if a > 0 {
      Pow2Sum(a - 1, b);
      MulTwice(Pow2(a - 1), Pow2(b));
    }
  }

  lemma Pow2At31()
    ensures Pow2(31) == TWO_31 && Pow2(0) == 1
  {
    assert Pow2(8) == 256;
    Pow2Sum(8, 8);
    assert Pow2(16) == 0x1_0000;
    Pow2Sum(16, 8);
    assert Pow2(7) == 128;
    Pow2Sum(24, 7);
  }

  lemma {:induction false} PowMonotone(a: nat, b: nat)
    requires a <= b
    ensures Pow2(a) <= Pow2(b)
  {
    if a < b {
      PowMonotone(a, b - 1);
    }
  }

  lemma MulOne(a: nat)
    ensures Mul(a, 1) == a
  {
  }

  lemma MulZero(a: nat)
    ensures Mul(a, 0) == 0
  {
  }

  lemma {:induction false} QuotientIs(a: nat, b: nat, q: nat, r: nat)
    requires b > 0 && r < b && a == Mul(q, b) + r
    ensures q == a / b && r == a % b
  {
    var p, t := a / b, a % b;
    assert a == Mul(p, b) + t;
    hide Mul;
    if p < q {
      MulStep(p, q, b);
    } else if q < p {
      MulStep(q, p, b);
    }
  }

  function Div(n: nat, p: nat): nat
    requires p > 0
  {
    n / p
  }

  lemma DivIs(n: nat, p: nat) returns (r: nat)
    requires p > 0
    ensures n == Mul(Div(n, p), p) + r && r < p
  {
    r := n % p;
  }

  lemma {:induction false} DivUnique(n: nat, p: nat, q: nat, r: nat)
    requires r < p && n == Mul(q, p) + r
    ensures q == Div(n, p)
  {
    QuotientIs(n, p, q, r);
  }

  lemma {:induction false} MulAtLeast(q: nat, p: nat)
    requires p > 0
    ensures Mul(q, p) >= q
  {
    hide Mul;
    MulTwice(0, p);
    if q > 0 {
      MulAtLeast(q - 1, p);
      MulAdd(q - 1, 1, p);
      MulTwice(1, p);
    }
  }

  lemma {:induction false} DivDown(n: nat, p: nat)
    requires p > 0
    ensures Div(n, p) <= n && (n < p ==> Div(n, p) == 0) && (Div(n, p) == n && p % 4 == 0 ==> n == 0)
  {
    hide Mul, Div;
    var r := DivIs(n, p);
    MulAtLeast(Div(n, p), p);
    if n < p {
      MulTwice(0, p);
      DivUnique(n, p, 0, n);
    }
    if Div(n, p) == n && p % 4 == 0 {
      var k := p / 4;
      MulTwice(n, 2 * k);
      MulTwice(n, k);
      MulAtLeast(n, k);
    }
  }

  lemma {:induction false} DivQuarter(n: nat, p: nat)
    requires p > 0
    ensures Div(n, 4 * p) == Div(n, p) / 4
  {
    hide Mul, Div;
    var q := Div(n, p);
    var r := DivIs(n, p);
    MulAdd(4 * (q / 4), q % 4, p);
    MulTwice(2 * (q / 4), p);
    MulTwice(q / 4, p);
    MulTwice(q / 4, 2 * p);
    MulStep(q % 4, 4, p);
    MulTwice(2, p);
    MulTwice(1, p);
    DivUnique(n, 4 * p, q / 4, Mul(q % 4, p) + r);
  }
}
