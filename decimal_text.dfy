/** How JavaScript writes the numbers of a transfer into a string: integers
    in decimal with a leading minus sign when negative, and an amount of
    money (integer cents, standing for the number cents / 100) with no
    fraction when it is whole and otherwise with the shortest of one or two
    decimals. The parsing functions exist to prove that the rendering loses
    nothing. */
module DecimalText {

  predicate IsDigit(c: char)
  {
    '0' <= c <= '9'
  }

  predicate AllDigits(s: string)
  {
    forall i :: 0 <= i < |s| ==> IsDigit(s[i])
  }

  function DigitChar(d: nat): (c: char)
    requires d < 10
    ensures IsDigit(c)
  {
    ((d + '0' as int) as char)
  }

  function DigitValue(c: char): int
  {
    c as int - '0' as int
  }

  /** The decimal digits of `n`, most significant first, with no leading zero. */
  function NatText(n: nat): (s: string)
    ensures |s| >= 1 && AllDigits(s)
    decreases n
  {
    if n < 10 then [DigitChar(n)] else NatText(n / 10) + [DigitChar(n % 10)]
  }

  /** The number a string of digits denotes. */
  function DigitsValue(s: string): int
    decreases |s|
  {
    if s == [] then 0 else DigitsValue(s[..|s| - 1]) * 10 + DigitValue(s[|s| - 1])
  }

  lemma {:induction false} NatTextRoundTrip(n: nat)
    ensures DigitsValue(NatText(n)) == n
    decreases n
  {
    if n >= 10 {
      NatTextRoundTrip(n / 10);
      var s := NatText(n);
      assert s[..|s| - 1] == NatText(n / 10);
    }
  }

  /** `${i}` for an integer-valued number. */
  function IntText(i: int): string
  {
    if i < 0 then "-" + NatText(-i) else NatText(i)
  }

  function ParseInt(s: string): int
  {
    if |s| > 0 && s[0] == '-' then -DigitsValue(s[1..]) else DigitsValue(s)
  }

  lemma IntTextRoundTrip(i: int)
    ensures ParseInt(IntText(i)) == i
  {
    if i < 0 {
      NatTextRoundTrip(-i);
      assert IntText(i)[1..] == NatText(-i);
    } else {
      NatTextRoundTrip(i);
      assert IsDigit(NatText(i)[0]);
    }
  }

  /** The decimals of a number of cents below 100, trailing zero dropped. */
  function FractionText(f: nat): string
    requires f < 100
  {
    if f == 0 then ""
    else if f % 10 == 0 then "." + [DigitChar(f / 10)]
    else "." + [DigitChar(f / 10), DigitChar(f % 10)]
  }

  function FractionValue(f: string): int
  {
    if |f| == 0 then 0
    else if |f| == 1 then DigitValue(f[0]) * 10
    else DigitValue(f[0]) * 10 + DigitValue(f[1])
  }

  /** `${amount}` for the number `cents / 100`. */
  function CentsText(cents: int): string
  {
    var m := if cents < 0 then -cents else cents;
    (if cents < 0 then "-" else "") + NatText(m / 100) + FractionText(m % 100)
  }

  /** The part of `s` before the first `sep` and the part after it; all of
      `s` and nothing when there is no `sep`. */
  function SplitAt(s: string, sep: char): (string, string)
    decreases |s|
  {
    if s == [] then ([], [])
    else if s[0] == sep then ([], s[1..])
    else
      var (a, b) := SplitAt(s[1..], sep);
      ([s[0]] + a, b)
  }

  lemma {:induction false} SplitAtJoin(a: string, b: string, sep: char)
    requires sep !in a
    ensures SplitAt(a + [sep] + b, sep) == (a, b)
    decreases |a|
  {
    if a != [] {
      assert a[0] in a;
      assert a == [a[0]] + a[1..];
      SplitAtJoin(a[1..], b, sep);
      assert (a + [sep] + b)[1..] == a[1..] + [sep] + b;
    }
  }

  lemma {:induction false} SplitAtNone(a: string, sep: char)
    requires sep !in a
    ensures SplitAt(a, sep) == (a, [])
    decreases |a|
  {
    if a != [] {
      assert a[0] in a;
      assert a == [a[0]] + a[1..];
      SplitAtNone(a[1..], sep);
      assert [a[0]] + a[1..] == a;
    }
  }

  lemma DigitsExclude(s: string, c: char)
    requires AllDigits(s) && !IsDigit(c)
    ensures c !in s
  {
  }

  function ParseUnsignedCents(s: string): int
  {
    var (whole, fraction) := SplitAt(s, '.');
    DigitsValue(whole) * 100 + FractionValue(fraction)
  }

  function ParseCents(s: string): int
  {
    if |s| > 0 && s[0] == '-' then -ParseUnsignedCents(s[1..]) else ParseUnsignedCents(s)
  }

  lemma UnsignedCentsRoundTrip(m: nat)
    ensures ParseUnsignedCents(NatText(m / 100) + FractionText(m % 100)) == m
  {
    var w := NatText(m / 100);
    NatTextRoundTrip(m / 100);
    DigitsExclude(w, '.');
    var f := m % 100;
    if f == 0 {
      SplitAtNone(w, '.');
      assert w + FractionText(f) == w;
    } else if f % 10 == 0 {
      SplitAtJoin(w, [DigitChar(f / 10)], '.');
      assert w + FractionText(f) == w + ['.'] + [DigitChar(f / 10)];
    } else {
      SplitAtJoin(w, [DigitChar(f / 10), DigitChar(f % 10)], '.');
      assert w + FractionText(f) == w + ['.'] + [DigitChar(f / 10), DigitChar(f % 10)];
    }
  }

  /** Reading an amount back gives the amount: no two amounts print alike. */
  lemma CentsTextRoundTrip(cents: int)
    ensures ParseCents(CentsText(cents)) == cents
  {
    var m := if cents < 0 then -cents else cents;
    var u := NatText(m / 100) + FractionText(m % 100);
    UnsignedCentsRoundTrip(m);
    if cents < 0 {
      assert CentsText(cents) == "-" + u;
      assert ("-" + u)[1..] == u;
    } else {
      assert CentsText(cents) == u;
      assert IsDigit(u[0]);
    }
  }

  /** The characters that can occur in a rendered number. */
  predicate IsNumberChar(c: char)
  {
    IsDigit(c) || c == '-' || c == '.'
  }

  lemma IntTextChars(i: int)
    ensures forall k :: 0 <= k < |IntText(i)| ==> IsNumberChar(IntText(i)[k])
  {
  }
}
