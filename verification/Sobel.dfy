/**
 The Sobel program (software/sobel/sobel.c): shift-and-add product, digit-by-digit square root, zero-padded 3x3
 correlation and the gradient magnitude. All arithmetic is 32-bit and wraps; shift amounts use five bits.
 */
module Sobels {
  import opened Arithmetics
  import opened Int32s

  // ---- Product ----

  function Magnitude(x: Int32): Int32 {
    if x < 0 then Wrap32(0 - x) else x
  }

  /** The product wraps as a 32-bit multiplication does. */
  method Times(a0: Int32, b0: Int32) returns (result: Int32)
    requires b0 != -TWO_31
    ensures result == Wrap32(a0 * b0)
  {
    hide Wrap32;
    var aNeg, bNeg := a0 < 0, b0 < 0;
    var a: Int32, b: Int32 := a0, b0;
    result := 0;
    if aNeg {
      a := Wrap32(0 - a);
    }
    if bNeg {
      b := Wrap32(0 - b);
    }
    ghost var p := (if aNeg then 0 - a0 else a0) * (if bNeg then 0 - b0 else b0);
    TimesStart(a0, b0);
    while b != 0
      invariant 0 <= b && Wrap32(result + a * b) == Wrap32(p)
      decreases b
    {
      TimesStep(result, a, b);
      if b % 2 == 1 {
        result := Wrap32(result + a);
      }
      a := Wrap32(a * 2);
      b := b / 2;
    }
    Fits(result);
    if (aNeg && !bNeg) || (!aNeg && bNeg) {
      WrapNeg(p);
      result := Wrap32(0 - result);
    }
    Signs(a0, b0);
  }

  lemma TimesStart(a: Int32, b: Int32)
    requires b != -TWO_31
    ensures b < 0 ==> Wrap32(0 - b) == 0 - b
    ensures var x, y := if a < 0 then 0 - a else a, if b < 0 then 0 - b else b;
            Wrap32(0 + Magnitude(a) * y) == Wrap32(x * y)
  {
    if b < 0 {
      Fits(0 - b);
    }
    hide Wrap32;
    WrapMul(if a < 0 then 0 - a else a, if b < 0 then 0 - b else b);
    Fits(a);
  }

  lemma Signs(a: int, b: int)
    ensures (0 - a) * b == 0 - a * b && a * (0 - b) == 0 - a * b && (0 - a) * (0 - b) == a * b
  {
  }

  lemma {:induction false} TimesStep(r: Int32, a: Int32, b: Int32)
    requires b > 0
    ensures var r' := if b % 2 == 1 then Wrap32(r + a) else r;
            Wrap32(r' + Wrap32(a * 2) * (b / 2)) == Wrap32(r + a * b)
  {
    hide Wrap32;
    var h, s := b / 2, if b % 2 == 1 then r + a else r;
    Fits(r);
    assert a * b == (a * 2) * h + (if b % 2 == 1 then a else 0) by {
      assert b == 2 * h + b % 2;
      assert a * (2 * h + b % 2) == (a * 2) * h + a * (b % 2);
    }
    WrapAdd(s, Wrap32(a * 2) * h);
    WrapMul(a * 2, h);
    WrapAdd(Wrap32(a * 2) * h, s);
    WrapAdd((a * 2) * h, s);
  }

  /** The loop variable of the product after n rounds: an arithmetic right shift rounds down. */
  function Shifted(b: Int32, n: nat): Int32 {
    if n == 0 then b else Shifted(b, n - 1) / 2
  }

  /** The loop of the product ends for every multiplier but -2^31, whose magnitude stays negative. */
  lemma TimesEndsExactly(b: Int32)
    ensures (exists n: nat :: Shifted(Magnitude(b), n) == 0) <==> b != -TWO_31
  {
    var m := Magnitude(b);
    if b == -TWO_31 {
      forall n: nat
        ensures Shifted(m, n) < 0
      {
        StaysNegative(m, n);
      }
    } else {
      Fits(0 - b);
      Pow2At31();
      ReachesZero(m, 31);
    }
  }

  lemma {:induction false} StaysNegative(b: Int32, n: nat)
    requires b < 0
    ensures Shifted(b, n) < 0
  {
    if n > 0 {
      StaysNegative(b, n - 1);
    }
  }

  lemma {:induction false} ReachesZero(b: Int32, n: nat)
    requires 0 <= b < Pow2(n)
    ensures Shifted(b, n) == 0
  {
    if n > 0 {
      ReachesZero(b / 2, n - 1);
      ShiftedFirst(b, n);
    }
  }

  lemma {:induction false} ShiftedFirst(b: Int32, n: nat)
    requires n > 0
    ensures Shifted(b, n) == Shifted(b / 2, n - 1)
  {
    if n > 1 {
      ShiftedFirst(b, n - 1);
    }
  }

  // ---- Square root ----

  ghost predicate IsRoot(r: int, n: int) {
    r >= 0 && r * r <= n < (r + 1) * (r + 1)
  }

  /** Arithmetic right shift by the five low bits of an amount; it rounds down. */
  function Shr(n: Int32, s: nat): Int32
    ensures if n >= 0 then 0 <= Shr(n, s) <= n else n <= Shr(n, s) < 0
  {
    var p := Pow2(s % 32);
    if n >= 0 then
      DivDown(n, p);
      Div(n, p)
    else
      DivDown(-1 - n, p);
      -1 - Div(-1 - n, p)
  }

  /** n without its s low bits. */
  function Above(n: Int32, s: nat): int
    requires n >= 0
  {
    Div(n, Pow2(s))
  }

  const ROOT_LIMIT := 46340 * 46340

  lemma ShiftOf32(n: Int32)
    ensures Shr(n, 32) == n
  {
    Pow2At31();
  }

  lemma Pow2Even(s: nat)
    ensures Pow2(s + 2) == 4 * Pow2(s)
  {
  }

  lemma AboveZero(n: Int32)
    requires n >= 0
    ensures Above(n, 0) == n && Above(n, 32) == 0
  {
    Pow2At31();
    assert Pow2(32) == 2 * Pow2(31);
    DivDown(n, Pow2(32));
  }

  /** The scan ends with no bits above the shift: only an amount of 32, taken as 0, or n = 0 can return n itself. */
  lemma {:induction false} ScanEnds(n: Int32, s: nat)
    requires n >= 0 && 2 <= s <= 32 && (Shr(n, s) == 0 || Shr(n, s) == n)
    ensures Above(n, s) == 0
  {
    AboveZero(n);
    if s < 32 {
      AboveSame(n, s);
    }
    hide Shr, Above;
  }

  lemma {:induction false} AboveSame(n: Int32, s: nat)
    requires n >= 0 && 2 <= s < 32
    ensures Above(n, s) == Shr(n, s) && (Above(n, s) == n ==> n == 0)
  {
    hide Div, Pow2;
    Pow2Even(s - 2);
    DivDown(n, Pow2(s));
  }

  lemma ShrIsAbove(n: Int32, s: nat)
    requires n >= 0 && s < 32
    ensures Shr(n, s) == Above(n, s) <= n
  {
    hide Div, Pow2;
  }

  lemma AboveQuarter(n: Int32, s: nat)
    requires n >= 0
    ensures Above(n, s + 2) == Above(n, s) / 4
  {
    Pow2Even(s);
    hide Div, Pow2;
    DivQuarter(n, Pow2(s));
  }

  /** Going two bits down. */
  lemma TwoBits(n: Int32, s: nat)
    requires n >= 0 && s <= 30
    ensures Above(n, s) == Shr(n, s) && Above(n, s + 2) == Above(n, s) / 4
    ensures s >= 2 ==> Above(n, s) < 0x2000_0000
  {
    hide Above, Shr;
    ShrIsAbove(n, s);
    AboveQuarter(n, s);
    if s >= 2 {
      AboveQuarter(n, s - 2);
      ShrIsAbove(n, s - 2);
    }
  }

  lemma RootBound(r: nat, n: nat, b: nat)
    requires r * r <= n < b * b
    ensures r < b
  {
    if r >= b {
      Square(b, r);
    }
  }

  lemma RootAtLeast(r: nat, n: nat, b: nat)
    requires b * b <= n < (r + 1) * (r + 1)
    ensures b <= r
  {
    RootBound(b, n, r + 1);
  }

  lemma Square(r: nat, b: nat)
    requires r <= b
    ensures r * r <= b * b
  {
  }

  lemma NextDigit(r: nat, s: nat)
    requires IsRoot(r, s / 4)
    ensures IsRoot(if (2 * r + 1) * (2 * r + 1) <= s then 2 * r + 1 else 2 * r, s)
  {
    assert (2 * r) * (2 * r) == 4 * (r * r);
    assert (2 * r + 2) * (2 * r + 2) == 4 * ((r + 1) * (r + 1));
  }

  lemma {:induction false} RootStep(n: Int32, s: nat, r: Int32)
    requires n >= 0 && s <= 30 && s % 2 == 0 && IsRoot(r, Above(n, s + 2))
    ensures 0 <= r <= 23170
    ensures s > 0 || n < ROOT_LIMIT ==>
              var square := Wrap32((2 * r + 1) * (2 * r + 1));
              IsRoot(if square <= Shr(n, s) then 2 * r + 1 else 2 * r, Above(n, s))
    ensures s == 0 && n >= ROOT_LIMIT ==> r == 23170 && Wrap32((2 * r + 1) * (2 * r + 1)) < 0
  {
    TwoBits(n, s);
    AboveZero(n);
    hide Above, Wrap32;
    var v := Shr(n, s);
    RootBound(r, v / 4, 23171);
    NextDigit(r, v);
    if s > 0 {
      RootBound(r, v / 4, 11586);
      Square(2 * r + 1, 23171);
      Fits((2 * r + 1) * (2 * r + 1));
    } else if n < ROOT_LIMIT {
      RootBound(r, v / 4, 23170);
      Square(2 * r + 1, 46339);
      Fits((2 * r + 1) * (2 * r + 1));
    } else {
      RootAtLeast(r, v / 4, 23170);
      WrapTurns(46341 * 46341, -1);
      Fits(46341 * 46341 - TWO_32);
    }
  }

  /**
   The square root is right exactly from 0 to below 46340^2: from there on 46341^2 wraps to a negative number, and a
   negative argument gives 0.
   */
  method IntSqrt(n: Int32) returns (result: Int32)
    ensures 0 <= n < ROOT_LIMIT ==> IsRoot(result, n)
    ensures n >= ROOT_LIMIT ==> result == 46341
    ensures n < 0 ==> result == 0
    ensures IsRoot(result, n) <==> 0 <= n < ROOT_LIMIT
  {
    hide Pow2, Shr, Above, Wrap32;
    ShiftOf32(n);
    var shift: int := 2;
    var nShifted := Shr(n, 2);
    while nShifted != 0 && nShifted != n
      invariant 2 <= shift <= 32 && shift % 2 == 0
      invariant nShifted == Shr(n, shift)
      decreases 32 - shift
    {
      shift := shift + 2;
      nShifted := Shr(n, shift);
    }
    if n >= 0 {
      AboveZero(n);
      ScanEnds(n, shift);
    }
    shift := shift - 2;
    result := 0;
    while shift >= 0
      invariant -2 <= shift <= 30 && shift % 2 == 0
      invariant 0 <= result
      invariant n >= 0 && (shift >= 0 || n < ROOT_LIMIT) ==> IsRoot(result, Above(n, shift + 2))
      invariant shift < 0 && n >= ROOT_LIMIT ==> result == 46341
      invariant n < 0 ==> result == 0
    {
      if n >= 0 {
        RootStep(n, shift, result);
      }
      Fits(result * 2);
      Fits(1);
      result := Wrap32(result * 2);
      var tmp := result + 1;
      var square := Times(tmp, tmp);
      if square <= Shr(n, shift) {
        result := tmp;
      }
      shift := shift - 2;
    }
  }

  // ---- Correlation ----

  const FM_DIM := 64
  const FM_SIZE := 4096

  type Weights = w: seq<Int32> | |w| == 9 witness seq(9, i => 0)
  type Image = m: seq<Int32> | |m| == 4096 witness seq(4096, i => 0)

  function SobelX(): Weights {
    [-1, 0, 1, -2, 0, 2, -1, 0, 1]
  }

  function SobelY(): Weights {
    [1, 2, 1, 0, 0, 0, -1, -2, -1]
  }

  /** The image, continued by zeros on all sides. */
  function Pixel(img: Image, row: int, col: int): Int32 {
    if 0 <= row < FM_DIM && 0 <= col < FM_DIM then img[64 * row + col] else 0
  }

  function Row(img: Image, w: Weights, row: int, col: int, m: nat): int
    requires m < 3
  {
    Pixel(img, row - 1 + m, col - 1) * w[3 * m] + Pixel(img, row - 1 + m, col) * w[3 * m + 1]
    + Pixel(img, row - 1 + m, col + 1) * w[3 * m + 2]
  }

  /** The 3x3 correlation at one pixel, over the integers. */
  function Correlation(img: Image, w: Weights, row: int, col: int): int {
    Row(img, w, row, col, 0) + Row(img, w, row, col, 1) + Row(img, w, row, col, 2)
  }

  function Term(img: Image, w: Weights, row: int, col: int, k: nat): int
    requires k < 9
  {
    Pixel(img, row - 1 + k / 3, col - 1 + k % 3) * w[k]
  }

  /** The first k products, in the order of the weights. */
  function Terms(img: Image, w: Weights, row: int, col: int, k: nat): int
    requires k <= 9
  {
    if k == 0 then 0 else Terms(img, w, row, col, k - 1) + Term(img, w, row, col, k - 1)
  }

  lemma TermsAreCorrelation(img: Image, w: Weights, row: int, col: int)
    ensures Terms(img, w, row, col, 9) == Correlation(img, w, row, col)
  {
    hide Pixel;
    var t := k requires 0 <= k <= 9 => Terms(img, w, row, col, k);
    assert t(3) == Row(img, w, row, col, 0) by {
      assert t(0) == 0 && t(1) == t(0) + Term(img, w, row, col, 0);
      assert t(2) == t(1) + Term(img, w, row, col, 1);
      assert t(3) == t(2) + Term(img, w, row, col, 2);
    }
    assert t(6) == t(3) + Row(img, w, row, col, 1) by {
      assert t(4) == t(3) + Term(img, w, row, col, 3);
      assert t(5) == t(4) + Term(img, w, row, col, 4);
      assert t(6) == t(5) + Term(img, w, row, col, 5);
    }
    assert t(9) == t(6) + Row(img, w, row, col, 2) by {
      assert t(7) == t(6) + Term(img, w, row, col, 6);
      assert t(8) == t(7) + Term(img, w, row, col, 7);
      assert t(9) == t(8) + Term(img, w, row, col, 8);
    }
  }

  /** One output pixel: the nine products are added up in the output array. */
  method Accumulate(ifm: array<Int32>, w: Weights, ofm: array<Int32>, at: nat, x: int, y: int)
    requires ifm.Length == ofm.Length == FM_SIZE && ifm != ofm && at < FM_SIZE
    requires forall k :: 0 <= k < 9 ==> w[k] != -TWO_31
    modifies ofm
    ensures ofm[..] == old(ofm[..])[at := Wrap32(Correlation(ifm[..], w, y, x))]
  {
    hide Wrap32;
    ofm[at] := 0;
    Fits(0);
    var m, n := 0, 0;
    for k := 0 to 9
      invariant m == k / 3 && n == k % 3
      invariant ofm[..] == old(ofm[..])[at := Wrap32(Terms(ifm[..], w, y, x, k))]
    {
      var idx, idy := x - 1 + n, y - 1 + m;
      var d: Int32 := 0;
      if !(idx < 0 || idx >= FM_DIM || idy < 0 || idy >= FM_DIM) {
        d := ifm[idy * 64 + idx];
      }
      var t := Times(d, w[k]);
      assert d * w[k] == Term(ifm[..], w, y, x, k);
      WrapAdd(d * w[k], ofm[at]);
      WrapAdd(Terms(ifm[..], w, y, x, k), d * w[k]);
      var sum: int := ofm[at];
      ofm[at] := Wrap32(sum + t);
      n := n + 1;
      if n == 3 {
        n := 0;
        m := m + 1;
      }
    }
    TermsAreCorrelation(ifm[..], w, y, x);
  }

  /** Every output pixel is the zero-padded correlation, wrapped to 32 bits, for any image and weights. */
  method Conv2D(ifm: array<Int32>, w: Weights, ofm: array<Int32>)
    requires ifm.Length == ofm.Length == FM_SIZE && ifm != ofm
    requires forall k :: 0 <= k < 9 ==> w[k] != -TWO_31
    modifies ofm
    ensures forall i :: 0 <= i < FM_SIZE ==> ofm[i] == Wrap32(Correlation(ifm[..], w, i / 64, i % 64))
  {
    hide Wrap32, Correlation;
    var x, y := 0, 0;
    for i := 0 to FM_SIZE
      invariant x == i % 64 && y == i / 64
      invariant forall j :: 0 <= j < i ==> ofm[j] == Wrap32(Correlation(ifm[..], w, j / 64, j % 64))
    {
      ghost var was := ofm[..];
      Accumulate(ifm, w, ofm, i, x, y);
      assert forall j :: 0 <= j < i ==> ofm[j] == was[j];
      x := x + 1;
      if x == FM_DIM {
        x := 0;
        y := y + 1;
      }
    }
  }

  /** Row by row inside the image, 0 outside. */
  lemma {:induction false} PixelIs(img: Image)
    ensures forall i :: 0 <= i < FM_SIZE ==> Pixel(img, i / 64, i % 64) == img[i]
    ensures forall row, col :: row < 0 || row > 63 || col < 0 || col > 63 ==> Pixel(img, row, col) == 0
  {
  }

  // ---- Edge image ----

  ghost predicate Grey(img: Image) {
    forall i :: 0 <= i < FM_SIZE ==> 0 <= img[i] <= 255
  }

  /** The horizontal gradient: what lies to the right less what lies to the left, the middle row counted twice. */
  lemma {:induction false} GradientX(img: Image, row: int, col: int)
    ensures Correlation(img, SobelX(), row, col) ==
            Pixel(img, row - 1, col + 1) - Pixel(img, row - 1, col - 1)
            + 2 * (Pixel(img, row, col + 1) - Pixel(img, row, col - 1))
            + Pixel(img, row + 1, col + 1) - Pixel(img, row + 1, col - 1)
  {
    hide Pixel;
  }

  /** The vertical gradient: what lies above less what lies below, the middle column counted twice. */
  lemma {:induction false} GradientY(img: Image, row: int, col: int)
    ensures Correlation(img, SobelY(), row, col) ==
            Pixel(img, row - 1, col - 1) + 2 * Pixel(img, row - 1, col) + Pixel(img, row - 1, col + 1)
            - Pixel(img, row + 1, col - 1) - 2 * Pixel(img, row + 1, col) - Pixel(img, row + 1, col + 1)
  {
    hide Pixel;
  }

  /** The sum of the positive (or of the negative) ones among the first k weights, as a magnitude. */
  function WeightSum(w: Weights, positive: bool, k: nat): nat
    requires k <= 9
  {
    if k == 0 then 0 else WeightSum(w, positive, k - 1) + Weight(w[k - 1], positive)
  }

  function Weight(x: int, positive: bool): nat {
    if positive == (x > 0) then Abs(x) else 0
  }

  function Abs(x: int): nat {
    if x < 0 then -x else x
  }

  /** Every running sum of the products lies between the sums that its negative and its positive weights allow. */
  lemma {:induction false} RunningSum(img: Image, w: Weights, row: int, col: int, k: nat)
    requires Grey(img) && k <= 9
    ensures -255 * WeightSum(w, false, k) <= Terms(img, w, row, col, k) <= 255 * WeightSum(w, true, k)
  {
    if k > 0 {
      RunningSum(img, w, row, col, k - 1);
      var p := Pixel(img, row - 1 + (k - 1) / 3, col - 1 + (k - 1) % 3);
      PixelBounds(img);
      ProductBound(p, w[k - 1]);
    }
  }

  lemma ProductBound(p: int, w: int)
    requires 0 <= p <= 255
    ensures if w > 0 then 0 <= p * w <= 255 * Abs(w) else -255 * Abs(w) <= p * w <= 0
  {
  }

  lemma {:induction false} WeightSumGrows(w: Weights, positive: bool, k: nat, l: nat)
    requires k <= l <= 9
    ensures WeightSum(w, positive, k) <= WeightSum(w, positive, l)
  {
    if k < l {
      WeightSumGrows(w, positive, k, l - 1);
    }
  }

  lemma SobelSums(positive: bool)
    ensures WeightSum(SobelX(), positive, 9) == WeightSum(SobelY(), positive, 9) == 4
  {
    WeightRow(SobelX(), positive, 0);
    WeightRow(SobelX(), positive, 3);
    WeightRow(SobelX(), positive, 6);
    WeightRow(SobelY(), positive, 0);
    WeightRow(SobelY(), positive, 3);
    WeightRow(SobelY(), positive, 6);
  }

  lemma WeightRow(w: Weights, positive: bool, k: nat)
    requires k <= 6
    ensures WeightSum(w, positive, 0) == 0
    ensures WeightSum(w, positive, k + 3) ==
            WeightSum(w, positive, k) + Weight(w[k], positive) + Weight(w[k + 1], positive) + Weight(w[k + 2], positive)
  {
    assert WeightSum(w, positive, k + 1) == WeightSum(w, positive, k) + Weight(w[k], positive);
    assert WeightSum(w, positive, k + 2) == WeightSum(w, positive, k + 1) + Weight(w[k + 1], positive);
  }

  /** Every running sum of the gradients of an 8-bit image is at most 1020 in size, so none of the additions wraps. */
  lemma {:induction false} RunningSumBounds(img: Image, row: int, col: int, k: nat)
    requires Grey(img) && k <= 9
    ensures -1020 <= Terms(img, SobelX(), row, col, k) <= 1020
    ensures -1020 <= Terms(img, SobelY(), row, col, k) <= 1020
  {
    hide Terms, WeightSum, SobelX, SobelY;
    RunningSum(img, SobelX(), row, col, k);
    RunningSum(img, SobelY(), row, col, k);
    SobelSums(true);
    SobelSums(false);
    WeightSumGrows(SobelX(), true, k, 9);
    WeightSumGrows(SobelX(), false, k, 9);
    WeightSumGrows(SobelY(), true, k, 9);
    WeightSumGrows(SobelY(), false, k, 9);
  }

  /** Gradients of an 8-bit image are at most 1020 in size. */
  lemma {:induction false} GradientBounds(img: Image, row: int, col: int)
    requires Grey(img)
    ensures -1020 <= Correlation(img, SobelX(), row, col) <= 1020
    ensures -1020 <= Correlation(img, SobelY(), row, col) <= 1020
  {
    hide Terms, Correlation, SobelX, SobelY;
    RunningSumBounds(img, row, col, 9);
    TermsAreCorrelation(img, SobelX(), row, col);
    TermsAreCorrelation(img, SobelY(), row, col);
  }

  lemma PixelBounds(img: Image)
    requires Grey(img)
    ensures forall row, col :: 0 <= Pixel(img, row, col) <= 255
  {
  }

  /** min(255, floor of the square root). */
  ghost predicate IsMagnitude(v: int, g: int) {
    0 <= v <= 255 && v * v <= g && (v < 255 ==> g < (v + 1) * (v + 1))
  }

  /** It is the smaller of 255 and the integer square root. */
  lemma {:induction false} MagnitudeIs(v: int, g: nat, r: int)
    requires IsMagnitude(v, g) && IsRoot(r, g)
    ensures v == if r < 255 then r else 255
  {
    if r < v {
      Square(r + 1, v);
    } else if v < r && v < 255 {
      Square(v + 1, r);
    }
  }

  ghost function GradientSquare(img: Image, row: int, col: int): int {
    var gx, gy := Correlation(img, SobelX(), row, col), Correlation(img, SobelY(), row, col);
    gx * gx + gy * gy
  }

  method MagnitudeOf(gx: Int32, gy: Int32) returns (v: Int32)
    requires -1020 <= gx <= 1020 && -1020 <= gy <= 1020
    ensures IsMagnitude(v, gx * gx + gy * gy)
  {
    SquareBound(gx);
    SquareBound(gy);
    Fits(gx * gx);
    Fits(gy * gy);
    Fits(gx * gx + gy * gy);
    hide Wrap32;
    var sx := Times(gx, gx);
    var sy := Times(gy, gy);
    v := IntSqrt(Wrap32(sx + sy));
    if v > 255 {
      Square(255, v);
      v := 255;
    }
  }

  lemma {:induction false} SquareBound(g: int)
    requires -1020 <= g <= 1020
    ensures 0 <= g * g <= 1020 * 1020
  {
    if g < 0 {
      assert g * g == (0 - g) * (0 - g);
      Square(0 - g, 1020);
    } else {
      Square(g, 1020);
    }
  }

  /** The whole program: every output pixel is the clipped gradient magnitude of the image. */
  method Sobel(img: array<Int32>, ofmX: array<Int32>, ofmY: array<Int32>, out_: array<Int32>)
    requires img.Length == ofmX.Length == ofmY.Length == out_.Length == FM_SIZE
    requires img != ofmX && img != ofmY && img != out_ && ofmX != ofmY && ofmX != out_ && ofmY != out_
    requires Grey(img[..])
    modifies ofmX, ofmY, out_
    ensures img[..] == old(img[..])
    ensures forall i :: 0 <= i < FM_SIZE ==> IsMagnitude(out_[i], GradientSquare(img[..], i / 64, i % 64))
  {
    hide Wrap32, Correlation, IsMagnitude;
    Conv2D(img, SobelX(), ofmX);
    Conv2D(img, SobelY(), ofmY);
    ghost var x, y := ofmX[..], ofmY[..];
    for i := 0 to FM_SIZE
      invariant ofmX[..] == x && ofmY[..] == y
      invariant forall j :: 0 <= j < i ==> IsMagnitude(out_[j], GradientSquare(img[..], j / 64, j % 64))
    {
      GradientBounds(img[..], i / 64, i % 64);
      Fits(Correlation(img[..], SobelX(), i / 64, i % 64));
      Fits(Correlation(img[..], SobelY(), i / 64, i % 64));
      assert ofmX[i] == x[i] && ofmY[i] == y[i];
      out_[i] := MagnitudeOf(ofmX[i], ofmY[i]);
    }
  }
}
