/** Strings as JavaScript code handles them: decimal digits of numbers,
    searching, counting, and the global newline replacement used by the
    contact routes. Strings are sequences of Unicode scalar values (`char`);
    a character outside the Basic Multilingual Plane is one `char` here but
    two UTF-16 code units in JavaScript. */
module Text {

  predicate IsDigit(c: char)
  {
    '0' <= c <= '9'
  }

  predicate AllDigits(s: string)
  {
    forall k :: 0 <= k < |s| ==> IsDigit(s[k])
  }

  function DigitChar(d: nat): (c: char)
    requires d < 10
    ensures IsDigit(c) && c as int - '0' as int == d
  {
    ('0' as int + d) as char
  }

  /** The decimal text of a natural number, as String(n) writes it
      (no leading zeros). */
  function NatToString(n: nat): (r: string)
    ensures 1 <= |r| && AllDigits(r)
    ensures r[0] == '0' ==> n == 0
    ensures n < 10 ==> |r| == 1
    ensures 10 <= n < 100 ==> |r| == 2
    decreases n
  {
    if n < 10 then [DigitChar(n)] else NatToString(n / 10) + [DigitChar(n % 10)]
  }

  /** The decimal text of an integer, with a leading '-' when negative. */
  function IntToString(n: int): (r: string)
    ensures 1 <= |r|
    ensures forall k :: 0 <= k < |r| ==> IsDigit(r[k]) || r[k] == '-'
  {
    if n < 0 then "-" + NatToString(-n) else NatToString(n)
  }

  /** The value of a string of decimal digits; leading zeros are allowed. */
  function ParseNat(s: string): nat
    requires AllDigits(s)
  {
    if s == [] then 0 else ParseNat(s[..|s| - 1]) * 10 + (s[|s| - 1] as int - '0' as int)
  }

  lemma {:induction false} ParseNatToString(n: nat)
    ensures ParseNat(NatToString(n)) == n
    decreases n
  {
    if n >= 10 {
      var s := NatToString(n);
      assert s[..|s| - 1] == NatToString(n / 10);
      ParseNatToString(n / 10);
    }
  }

  function Zeros(k: nat): (r: string)
    ensures |r| == k && AllDigits(r)
  {
    if k == 0 then "" else "0" + Zeros(k - 1)
  }

  /** The decimal text of n, padded on the left with '0' to at least `width`
      characters (String.prototype.padStart with "0"). */
  function PadLeft(n: nat, width: nat): (r: string)
    ensures AllDigits(r) && |r| >= width && |r| >= 1
  {
    var digits := NatToString(n);
    if |digits| >= width then digits else Zeros(width - |digits|) + digits
  }

  lemma {:induction false} ParseNatLeadingZeros(k: nat, s: string)
    requires AllDigits(s)
    ensures AllDigits(Zeros(k) + s) && ParseNat(Zeros(k) + s) == ParseNat(s)
    decreases |s|
  {
    var t := Zeros(k) + s;
    if s == [] {
      assert t == Zeros(k);
      ParseNatZeros(k);
    } else {
      assert t[..|t| - 1] == Zeros(k) + s[..|s| - 1];
      ParseNatLeadingZeros(k, s[..|s| - 1]);
    }
  }

  lemma {:induction false} ParseNatZeros(k: nat)
    ensures ParseNat(Zeros(k)) == 0
  {
    if k > 0 {
      assert Zeros(k)[..k - 1] == Zeros(k - 1) by {
        ZerosAreZeros(k);
        ZerosAreZeros(k - 1);
      }
      ParseNatZeros(k - 1);
    }
  }

  lemma {:induction false} ZerosAreZeros(k: nat)
    ensures forall i :: 0 <= i < k ==> Zeros(k)[i] == '0'
  {
    if k > 0 {
      ZerosAreZeros(k - 1);
    }
  }

  /** Padding loses nothing: the padded text still reads back as n. */
  lemma ParsePadLeft(n: nat, width: nat)
    ensures ParseNat(PadLeft(n, width)) == n
  {
    var digits := NatToString(n);
    ParseNatToString(n);
    if |digits| < width {
      ParseNatLeadingZeros(width - |digits|, digits);
      assert PadLeft(n, width) == Zeros(width - |digits|) + digits;
    } else {
      assert PadLeft(n, width) == digits;
    }
  }

  /** A number below 100 written as exactly two digits, tens then units. */
  function TwoDigits(n: nat): (r: string)
    requires n < 100
    ensures |r| == 2 && AllDigits(r)
  {
    [DigitChar(n / 10), DigitChar(n % 10)]
  }

  /** Two-digit text is the zero-padded decimal text of width 2. */
  lemma TwoDigitsIsPadded(n: nat)
    requires n < 100
    ensures TwoDigits(n) == PadLeft(n, 2)
  {
    if n >= 10 {
      assert NatToString(n / 10) == [DigitChar(n / 10)];
    }
  }

  lemma TwoDigitsInjective(a: nat, b: nat)
    requires a < 100 && b < 100 && TwoDigits(a) == TwoDigits(b)
    ensures a == b
  {
    assert TwoDigits(a)[0] == TwoDigits(b)[0] && TwoDigits(a)[1] == TwoDigits(b)[1];
    assert a / 10 == b / 10 && a % 10 == b % 10;
  }

  /** The first position of x in s, or -1 when x does not occur
      (Array.prototype.indexOf and String.prototype.indexOf). */
  function IndexOf<T(==)>(s: seq<T>, x: T): (r: int)
    ensures -1 <= r < |s|
    ensures r == -1 <==> x !in s
    ensures 0 <= r ==> s[r] == x && x !in s[..r]
  {
    if s == [] then -1
    else if s[0] == x then 0
    else
      var r := IndexOf(s[1..], x);
      assert s[1..][..if r < 0 then 0 else r] == s[1..if r < 0 then 1 else r + 1];
      if r < 0 then -1 else r + 1
  }

  /** The number of occurrences of c in s. */
  function CountChar(s: string, c: char): nat
  {
    if s == [] then 0 else (if s[0] == c then 1 else 0) + CountChar(s[1..], c)
  }

  lemma {:induction false} CountCharAppend(a: string, b: string, c: char)
    ensures CountChar(a + b, c) == CountChar(a, c) + CountChar(b, c)
  {
    if a != [] {
      assert (a + b)[1..] == a[1..] + b;
      CountCharAppend(a[1..], b, c);
    } else {
      assert a + b == b;
    }
  }

  lemma {:induction false} CountCharZero(s: string, c: char)
    ensures CountChar(s, c) == 0 <==> c !in s
  {
    if s != [] {
      CountCharZero(s[1..], c);
      assert s == [s[0]] + s[1..];
    }
  }

  /** `s.replace(/\n/g, replacement)`: every newline of s becomes `replacement`. */
  function ReplaceNewlines(s: string, replacement: string): string
  {
    if s == [] then ""
    else (if s[0] == '\n' then replacement else [s[0]]) + ReplaceNewlines(s[1..], replacement)
  }

  /** With a replacement free of newlines, no newline is left. */
  lemma {:induction false} ReplaceNewlinesRemovesAll(s: string, replacement: string)
    requires '\n' !in replacement
    ensures '\n' !in ReplaceNewlines(s, replacement)
  {
    if s != [] {
      ReplaceNewlinesRemovesAll(s[1..], replacement);
    }
  }

  /** Text without newlines passes through unchanged. */
  lemma {:induction false} ReplaceNewlinesKeepsOtherText(s: string, replacement: string)
    requires '\n' !in s
    ensures ReplaceNewlines(s, replacement) == s
  {
    if s != [] {
      assert s == [s[0]] + s[1..];
      ReplaceNewlinesKeepsOtherText(s[1..], replacement);
    }
  }

  /** The replacement works piece by piece: a message may be split anywhere. */
  lemma {:induction false} ReplaceNewlinesAppend(a: string, b: string, replacement: string)
    ensures ReplaceNewlines(a + b, replacement) == ReplaceNewlines(a, replacement) + ReplaceNewlines(b, replacement)
  {
    if a != [] {
      assert (a + b)[1..] == a[1..] + b;
      ReplaceNewlinesAppend(a[1..], b, replacement);
    } else {
      assert a + b == b;
    }
  }

  /** Each newline grows the text by |replacement| - 1 characters. */
  lemma {:induction false} ReplaceNewlinesLength(s: string, replacement: string)
    ensures |ReplaceNewlines(s, replacement)| == |s| + CountChar(s, '\n') * (|replacement| - 1)
  {
    if s != [] {
      ReplaceNewlinesLength(s[1..], replacement);
    }
  }
}
