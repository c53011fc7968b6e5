/**
 Hexadecimal text (software/151_library/ascii.c): the printers and the parsers for 8-, 16- and 32-bit numbers, whose
 widths are m = 2, 4 and 8 digits. Characters are their codes.
 */
module Asciis {
  import opened Arithmetics

  function Pow16(n: nat): (p: nat)
    ensures p > 0
  {
    if n == 0 then 1 else 16 * Pow16(n - 1)
  }

  function HexDigit(d: nat): (c: int)
    requires d < 16
    ensures c > 0 && DigitValue(c) == d
  {
    if d <= 9 then d + '0' as int else d - 10 + 'a' as int
  }

  /** The value of a digit in either case; -1 for every other character. */
  function DigitValue(c: int): int {
    if '0' as int <= c <= '9' as int then c - '0' as int
    else if 'a' as int <= c <= 'f' as int then c - 'a' as int + 10
    else if 'A' as int <= c <= 'F' as int then c - 'A' as int + 10
    else -1
  }

  /** Digit i of the m digits of x, the most significant first. */
  function Digit(x: nat, m: nat, i: nat): (d: nat)
    requires i < m
    ensures d < 16
  {
    Div(x, Pow16(m - 1 - i)) % 16
  }

  /** The first k of the m digits of x as text. */
  function Text(x: nat, m: nat, k: nat): (s: seq<int>)
    requires k <= m
    ensures |s| == k
  {
    seq(k, i requires 0 <= i < k => HexDigit(Digit(x, m, i)))
  }

  /** One more digit in a number of m digits; a longer number wraps. */
  function Push(t: nat, d: nat, m: nat): nat {
    (t * 16 + d) % Pow16(m)
  }

  /** What the parser computes in m digits of width: characters that are no digits are skipped. */
  function Value(s: seq<int>, m: nat): nat {
    if s == [] then 0 else
      var t, d := Value(s[..|s| - 1], m), DigitValue(s[|s| - 1]);
      if d >= 0 then Push(t, d, m) else t
  }

  /** Either there are m characters or there is a terminator. */
  ghost predicate Readable(s: seq<int>, m: nat, i: nat) {
    i <= |s| && (m <= |s| || exists j :: i <= j < |s| && s[j] == 0)
  }

  /** Where the parser stops: at the terminator, or after m characters. */
  function Stop(s: seq<int>, m: nat, i: nat): (k: nat)
    requires Readable(s, m, i)
    ensures i <= k <= |s| && (i <= m ==> k <= m) && (k < m ==> k < |s| && s[k] == 0)
    ensures forall j :: i <= j < k ==> s[j] != 0
    decreases |s| - i
  {
    if i >= m || s[i] == 0 then i else Stop(s, m, i + 1)
  }

  method ToHex(x: nat, m: nat, buffer: array<int>, n: nat)
    requires 1 <= n <= buffer.Length
    modifies buffer
    ensures var k := Min(m, n - 1);
            && buffer[..k] == Text(x, m, k) && buffer[k] == 0
            && forall j :: k < j < buffer.Length ==> buffer[j] == old(buffer[j])
  {
    hide Div, Pow16;
    var i := 0;
    while i < m && i + 1 < n
      invariant i <= Min(m, n - 1)
      invariant buffer[..i] == Text(x, m, i)
      invariant forall j :: i <= j < buffer.Length ==> buffer[j] == old(buffer[j])
    {
      var t := Digit(x, m, i);
      if 0 <= t <= 9 {
        buffer[i] := t + '0' as int;
      }
      if 10 <= t <= 15 {
        buffer[i] := t - 10 + 'a' as int;
      }
      assert buffer[..i + 1] == buffer[..i] + [HexDigit(t)];
      i := i + 1;
    }
    buffer[i] := 0;
  }

  method FromHex(s: array<int>, m: nat) returns (t: nat)
    requires Readable(s[..], m, 0)
    ensures t == Value(s[..Stop(s[..], m, 0)], m)
  {
    hide Pow16, Push;
    t := 0;
    var i := 0;
    while i < m && s[i] != 0
      invariant i <= m && Readable(s[..], m, i) && Stop(s[..], m, 0) == Stop(s[..], m, i)
      invariant t == Value(s[..i], m)
    {
      assert s[..i + 1][..i] == s[..i];
      var c := s[i];
      if '0' as int <= c <= '9' as int {
        t := Push(t, c - '0' as int, m);
      }
      if 'a' as int <= c <= 'f' as int {
        t := Push(t, c - 'a' as int + 10, m);
      }
      if 'A' as int <= c <= 'F' as int {
        t := Push(t, c - 'A' as int + 10, m);
      }
      i := i + 1;
    }
  }

  lemma {:induction false} DivSixteen(x: nat, p: nat)
    requires p > 0
    ensures Div(x, 16 * p) == Div(x, p) / 16
  {
    DivQuarter(x, p);
    DivQuarter(x, 4 * p);
    hide Div;
  }

  /** Parsing the first k of m digits gives x without its m - k last digits. */
  lemma {:induction false} ValueOfText(x: nat, m: nat, k: nat)
    requires k <= m && x < Pow16(m)
    ensures Value(Text(x, m, k), m) == Div(x, Pow16(m - k))
  {
    hide Div, Pow16, Push;
    var p := Pow16(m - k);
    DivDown(x, p);
    if k > 0 {
      ValueOfText(x, m, k - 1);
      assert Text(x, m, k)[..k - 1] == Text(x, m, k - 1);
      PowStep(m - k);
      DivSixteen(x, p);
      PushFits(Div(x, p), m);
    }
  }

  lemma PowStep(n: nat)
    ensures Pow16(n + 1) == 16 * Pow16(n)
  {
  }

  lemma {:induction false} PushFits(v: nat, m: nat)
    requires v < Pow16(m)
    ensures Push(v / 16, v % 16, m) == v
  {
    hide Pow16;
    assert v / 16 * 16 + v % 16 == v;
    ModSmall(v, Pow16(m));
  }

  lemma ModSmall(v: nat, p: nat)
    requires v < p
    ensures v % p == v
  {
  }

  /** Digits are printed as '0' to '9' and 'a' to 'f' (codes 48 to 57 and 97 to 102), the most significant first. */
  lemma {:induction false} TextIs(x: nat, m: nat, k: nat, i: nat)
    requires i < k <= m
    ensures var d := x / Pow16(m - 1 - i) % 16;
            Text(x, m, k)[i] == if d < 10 then 48 + d else 87 + d
  {
    hide Pow16;
  }

  /** The parser takes 48 to 57, 65 to 70 and 97 to 102 as digits, and nothing else. */
  lemma {:induction false} DigitsAre(c: int, d: nat)
    ensures DigitValue(c) == d <==>
            (d < 10 && c == 48 + d) || (10 <= d < 16 && (c == 55 + d || c == 87 + d))
    ensures DigitValue(c) < 0 <==> !(48 <= c <= 57 || 65 <= c <= 70 || 97 <= c <= 102)
  {
  }

  /** The same text but for the case of its letters. */
  predicate SameButCase(s: seq<int>, t: seq<int>) {
    && |s| == |t|
    && forall k :: 0 <= k < |s| ==> s[k] == t[k] || (97 <= s[k] <= 102 && t[k] == s[k] - 32)
  }

  /** The parser reads digits in either case. */
  lemma {:induction false} CaseDoesNotMatter(s: seq<int>, t: seq<int>, m: nat)
    requires SameButCase(s, t)
    ensures Value(t, m) == Value(s, m)
  {
    hide Push;
    if s != [] {
      CaseDoesNotMatter(s[..|s| - 1], t[..|t| - 1], m);
    }
  }

  /** Printing into a buffer of n characters and parsing drops the digits that do not fit; with n > m, none. */
  method RoundTrip(x: nat, m: nat, n: nat) returns (t: nat)
    requires x < Pow16(m) && n >= 1
    ensures t == Div(x, Pow16(m - Min(m, n - 1)))
    ensures n > m ==> t == x
  {
    hide Div, Pow16, Value, Text;
    var buffer := new int[n];
    ToHex(x, m, buffer, n);
    t := FromHex(buffer, m);
    var k := Min(m, n - 1);
    StopsAfter(x, m, k, buffer[..]);
    ValueOfText(x, m, k);
    DivByOne(x);
  }

  lemma StopsAfter(x: nat, m: nat, k: nat, s: seq<int>)
    requires k <= m && k < |s| && s[..k] == Text(x, m, k) && s[k] == 0
    ensures Stop(s, m, 0) == k
  {
    forall j | 0 <= j < k
      ensures s[j] != 0
    {
      assert s[j] == s[..k][j] == HexDigit(Digit(x, m, j));
    }
    var stop := Stop(s, m, 0);
  }

  lemma DivByOne(x: nat)
    ensures Div(x, Pow16(0)) == x
  {
  }
}
