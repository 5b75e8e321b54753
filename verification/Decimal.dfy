/** Decimal printing with zero padding, parsing of unsigned integers, and splitting of text. */
module Decimal {
  import opened Basics
  import Lex

  predicate IsDigit(c: char) {
    '0' <= c <= '9'
  }

  predicate AllDigits(s: string) {
    forall i :: 0 <= i < |s| ==> IsDigit(s[i])
  }

  function DigitOf(d: nat): (c: char)
    requires d < 10
    ensures IsDigit(c) && c as int == '0' as int + d
  {
    ('0' as int + d) as char
  }

  /** The number a digit string spells. */
  function Value(s: string): nat
    requires AllDigits(s)
  {
    if s == [] then 0 else 10 * Value(s[..|s| - 1]) + (s[|s| - 1] as int - '0' as int)
  }

  function Digits(n: nat): (s: string)
    ensures |s| > 0 && AllDigits(s)
  {
    if n < 10 then [DigitOf(n)] else Digits(n / 10) + [DigitOf(n % 10)]
  }

  function Zeros(n: nat): (s: string)
    ensures |s| == n && AllDigits(s)
  {
    if n == 0 then [] else Zeros(n - 1) + ['0']
  }

  /** `n` in decimal, padded on the left with zeros to at least `width`. */
  function Padded(n: nat, width: nat): (s: string)
    ensures |s| > 0 && |s| >= width && AllDigits(s)
  {
    var d := Digits(n);
    if |d| >= width then d else Zeros(width - |d|) + d
  }

  function Pow10(n: nat): nat {
    if n == 0 then 1 else 10 * Pow10(n - 1)
  }

  lemma {:induction false} ValueOfDigits(n: nat)
    ensures Value(Digits(n)) == n
  {
    if n >= 10 {
      ValueOfDigits(n / 10);
      assert Digits(n)[..|Digits(n)| - 1] == Digits(n / 10);
    } else {
      assert Digits(n)[..0] == [];
    }
  }

  lemma {:induction false} LeadingZeros(k: nat, s: string)
    requires AllDigits(s)
    ensures AllDigits(Zeros(k) + s) && Value(Zeros(k) + s) == Value(s)
  {
    var t := Zeros(k) + s;
    if s != [] {
      LeadingZeros(k, s[..|s| - 1]);
      assert t[..|t| - 1] == Zeros(k) + s[..|s| - 1];
    } else if k > 0 {
      LeadingZeros(k - 1, s);
      assert t == Zeros(k) && t[..|t| - 1] == Zeros(k - 1) && Zeros(k - 1) + s == Zeros(k - 1);
    }
  }

  lemma {:induction false} ValueOfPadded(n: nat, width: nat)
    ensures Value(Padded(n, width)) == n
  {
    var d, p := Digits(n), Padded(n, width);
    ValueOfDigits(n);
    if |d| < width {
      LeadingZeros(width - |d|, d);
      assert p == Zeros(width - |d|) + d;
    } else {
      assert p == d;
    }
  }

  lemma {:induction false} DigitCount(n: nat, width: nat)
    requires width > 0 && n < Pow10(width)
    ensures |Digits(n)| <= width
  {
    if n >= 10 { DigitCount(n / 10, width - 1); }
  }

  lemma PaddedWidth(n: nat, width: nat)
    requires width > 0 && n < Pow10(width)
    ensures |Padded(n, width)| == width
  {
    DigitCount(n, width);
  }

  function Codes(s: string): (codes: seq<int>)
    ensures |codes| == |s| && forall i :: 0 <= i < |s| ==> codes[i] == s[i] as int
  {
    seq(|s|, i requires 0 <= i < |s| => s[i] as int)
  }

  /** Byte order of text. */
  predicate TextLess(a: string, b: string) {
    Lex.Less(Codes(a), Codes(b))
  }

  lemma TextSnoc(a: string, x: char, b: string, y: char)
    requires |a| == |b|
    ensures TextLess(a + [x], b + [y]) <==> TextLess(a, b) || (a == b && x < y)
  {
    assert Codes(a + [x]) == Codes(a) + [x as int] && Codes(b + [y]) == Codes(b) + [y as int];
    if a == b {
      Lex.CommonPrefix(Codes(a), [x as int], [y as int]);
      Lex.Trichotomy(Codes(a), Codes(a));
    } else {
      CodesInjective(a, b);
      Lex.EqualLengthHeads(Codes(a), Codes(b), [x as int], [y as int]);
    }
  }

  lemma CodesInjective(a: string, b: string)
    requires |a| == |b|
    ensures Codes(a) == Codes(b) <==> a == b
  {
    if Codes(a) == Codes(b) {
      forall i | 0 <= i < |a| ensures a[i] == b[i] { assert Codes(a)[i] == Codes(b)[i]; }
    }
  }

  /** Digit strings of one length sort like the numbers they spell. */
  lemma {:induction false} SameWidthOrder(a: string, b: string)
    requires |a| == |b| && AllDigits(a) && AllDigits(b)
    ensures TextLess(a, b) <==> Value(a) < Value(b)
    ensures a == b <==> Value(a) == Value(b)
  {
    if a != [] {
      var n := |a| - 1;
      var x, y := a[..n], b[..n];
      SameWidthOrder(x, y);
      TextSnoc(x, a[n], y, b[n]);
      assert a == x + [a[n]] && b == y + [b[n]];
      assert Value(a) == 10 * Value(x) + (a[n] as int - '0' as int);
      assert Value(b) == 10 * Value(y) + (b[n] as int - '0' as int);
    }
  }

  /** Padded numbers that fit their width sort numerically. */
  lemma PaddedOrder(m: nat, n: nat, width: nat)
    requires width > 0 && m < Pow10(width) && n < Pow10(width)
    ensures TextLess(Padded(m, width), Padded(n, width)) <==> m < n
    ensures Padded(m, width) == Padded(n, width) <==> m == n
  {
    PaddedWidth(m, width);
    PaddedWidth(n, width);
    ValueOfPadded(m, width);
    ValueOfPadded(n, width);
    SameWidthOrder(Padded(m, width), Padded(n, width));
  }

  // ---------------------------------------------------------------- parsing

  /** The standard parser of unsigned integers below `limit`: an optional plus sign, then digits. */
  function ParseUnsigned(s: string, limit: nat): (r: Option<nat>)
    ensures r.Some? ==> r.value < limit
  {
    var body := if s != [] && s[0] == '+' then s[1..] else s;
    if body == [] || !AllDigits(body) then None
    else if Value(body) < limit then Some(Value(body))
    else None
  }

  lemma ParsePadded(n: nat, width: nat, limit: nat)
    requires n < limit
    ensures ParseUnsigned(Padded(n, width), limit) == Some(n)
  {
    ValueOfPadded(n, width);
    assert IsDigit(Padded(n, width)[0]);
  }

  /** What is parsed: digits below the limit, with or without a plus sign. */
  lemma ParseExactly(s: string, body: string, limit: nat)
    requires body != [] && AllDigits(body) && (s == body || s == "+" + body)
    ensures ParseUnsigned(s, limit) == if Value(body) < limit then Some(Value(body)) else None
  {
    assert IsDigit(body[0]);
    if s == "+" + body { assert s[1..] == body; }
  }

  lemma ParsedIsDigits(s: string, limit: nat) returns (body: string)
    requires ParseUnsigned(s, limit).Some?
    ensures body != [] && AllDigits(body) && (s == body || s == "+" + body)
  {
    if s[0] == '+' {
      body := s[1..];
      assert s == [s[0]] + s[1..];
    } else {
      body := s;
    }
  }

  /** The parts of `s` between occurrences of `sep`; never empty. */
  function Split(s: string, sep: char): (parts: seq<string>)
    ensures |parts| > 0
  {
    if s == [] then [[]]
    else
      var rest := Split(s[1..], sep);
      if s[0] == sep then [[]] + rest else [[s[0]] + rest[0]] + rest[1..]
  }

  lemma {:induction false} SplitFirst(a: string, sep: char, b: string)
    requires sep !in a
    ensures Split(a + [sep] + b, sep) == [a] + Split(b, sep)
  {
    var s := a + [sep] + b;
    if a == [] {
      assert s[1..] == b;
    } else {
      SplitFirst(a[1..], sep, b);
      assert s[1..] == a[1..] + [sep] + b;
      assert [a[0]] + a[1..] == a;
    }
  }

  lemma {:induction false} SplitLast(a: string, sep: char)
    requires sep !in a
    ensures Split(a, sep) == [a]
  {
    if a != [] {
      SplitLast(a[1..], sep);
      assert [a[0]] + a[1..] == a;
    }
  }
}
