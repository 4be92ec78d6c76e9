/** The string operations of JavaScript that the application relies on:
    `trim`, `toLowerCase`/`toUpperCase`, `includes`, `indexOf`/`lastIndexOf`,
    `startsWith`, `String(n)`, `padStart(2, "0")`, decimal `Number(s)` and the
    relational operators on strings. */
module Text {
  import opened Common

  predicate IsDigit(c: char) {
    '0' <= c <= '9'
  }

  predicate AllDigits(s: string) {
    forall i :: 0 <= i < |s| ==> IsDigit(s[i])
  }

  /** The characters `String.prototype.trim` removes: ECMAScript WhiteSpace
      (tab, vertical tab, form feed, space, no-break space, the byte order
      mark and the space separators of Unicode) and LineTerminator. */
  predicate IsSpace(c: char) {
    || c == '\t' || c == '\n' || c == '\U{000B}' || c == '\U{000C}' || c == '\r'
    || c == ' ' || c == '\U{00A0}' || c == '\U{1680}'
    || ('\U{2000}' <= c <= '\U{200A}')
    || c == '\U{2028}' || c == '\U{2029}' || c == '\U{202F}' || c == '\U{205F}'
    || c == '\U{3000}' || c == '\U{FEFF}'
  }

  predicate IsBlank(s: string) {
    forall i :: 0 <= i < |s| ==> IsSpace(s[i])
  }

  function TrimStart(s: string): (r: string)
    ensures |r| <= |s| && r == s[|s| - |r|..]
    ensures r == [] || !IsSpace(r[0])
    ensures IsBlank(s[..|s| - |r|])
  {
    if |s| > 0 && IsSpace(s[0]) then TrimStart(s[1..]) else s
  }

  function TrimEnd(s: string): (r: string)
    ensures |r| <= |s| && r == s[..|r|]
    ensures r == [] || !IsSpace(r[|r| - 1])
    ensures IsBlank(s[|r|..])
  {
    if |s| > 0 && IsSpace(s[|s| - 1]) then TrimEnd(s[..|s| - 1]) else s
  }

  /** Trimming both ends keeps a slice of `s` with only white space cut
      off either side. */
  /** A piece cut from the front of a string's suffix, where the prefix
      before the suffix and the rest after the piece are blank, is a slice
      of the string with white space only on either side of it. */
  lemma SliceBetweenBlanks(s: string, a: string, r: string)
    requires |a| <= |s| && a == s[|s| - |a|..] && IsBlank(s[..|s| - |a|])
    requires |r| <= |a| && r == a[..|r|] && IsBlank(a[|r|..])
    ensures exists i, j :: 0 <= i <= j <= |s| && r == s[i..j] && IsBlank(s[..i]) && IsBlank(s[j..])
  {
    var i, j := |s| - |a|, |s| - |a| + |r|;
    assert s[i..j] == r;
    assert s[j..] == a[|r|..];
  }

  /** `s.trim()`: what remains of `s` without its leading and trailing
      white space. */
  function Trim(s: string): (r: string)
    ensures |r| <= |s|
    ensures r == "" <==> IsBlank(s)
    ensures r == [] || (!IsSpace(r[0]) && !IsSpace(r[|r| - 1]))
  {
    var a := TrimStart(s);
    var r := TrimEnd(a);
    if r == "" then
      assert s == s[..|s| - |a|] + a;
      assert a == a[|r|..];
      r
    else
      assert r[0] == a[0];
      r
  }

  function LowerChar(c: char): char {
    if 'A' <= c <= 'Z' then (c as int + 32) as char else c
  }

  function UpperChar(c: char): char {
    if 'a' <= c <= 'z' then (c as int - 32) as char else c
  }

  /** `trim()` cuts only white space, and only from the two ends: what it
      keeps is a slice of the text. */
  lemma TrimIsSlice(s: string)
    ensures exists i, j :: 0 <= i <= j <= |s| && Trim(s) == s[i..j] && IsBlank(s[..i]) && IsBlank(s[j..])
  {
    SliceBetweenBlanks(s, TrimStart(s), Trim(s));
  }

  /** `s.toLowerCase()` on ASCII letters. */
  function ToLower(s: string): (r: string)
    ensures |r| == |s|
    ensures forall i :: 0 <= i < |s| ==> r[i] == LowerChar(s[i])
  {
    seq(|s|, i requires 0 <= i < |s| => LowerChar(s[i]))
  }

  /** `s.toUpperCase()` on ASCII letters. */
  function ToUpper(s: string): (r: string)
    ensures |r| == |s|
    ensures forall i :: 0 <= i < |s| ==> r[i] == UpperChar(s[i])
  {
    seq(|s|, i requires 0 <= i < |s| => UpperChar(s[i]))
  }

  predicate StartsWith(s: string, prefix: string) {
    |prefix| <= |s| && s[..|prefix|] == prefix
  }

  /** `s.includes(sub)`. */
  predicate Contains(s: string, sub: string) {
    exists i | 0 <= i <= |s| - |sub| :: OccursAt(s, sub, i)
  }

  predicate OccursAt(s: string, sub: string, i: int) {
    0 <= i <= |s| - |sub| && s[i..i + |sub|] == sub
  }

  /** `s.indexOf(c)` for a one-character needle: the first position of `c`,
      or -1. */
  function IndexOf(s: string, c: char): (r: int)
    ensures -1 <= r < |s|
    ensures r == -1 <==> c !in s
    ensures r >= 0 ==> s[r] == c && c !in s[..r]
  {
    if |s| == 0 then -1
    else if s[0] == c then 0
    else
      var k := IndexOf(s[1..], c);
      assert s[1..][..if k < 0 then 0 else k] == s[1..if k < 0 then 1 else k + 1];
      if k < 0 then -1 else k + 1
  }

  /** `s.lastIndexOf(c)` for a one-character needle: the last position of
      `c`, or -1. */
  function LastIndexOf(s: string, c: char): (r: int)
    ensures -1 <= r < |s|
    ensures r == -1 <==> c !in s
    ensures r >= 0 ==> s[r] == c && c !in s[r + 1..]
  {
    if |s| == 0 then -1
    else if s[|s| - 1] == c then |s| - 1
    else
      var init := s[..|s| - 1];
      var k := LastIndexOf(init, c);
      assert s == init + [s[|s| - 1]];
      assert k >= 0 ==> s[k + 1..] == init[k + 1..] + [s[|s| - 1]];
      k
  }

  function DigitChar(d: nat): char
    requires d < 10
  {
    ('0' as int + d) as char
  }

  function DigitValue(c: char): nat
    requires IsDigit(c)
  {
    c as int - '0' as int
  }

  /** `String(n)` for a non-negative integer: its decimal digits, with no
      leading zero. */
  function NatToString(n: nat): (r: string)
    ensures |r| >= 1 && AllDigits(r)
    ensures |r| > 1 ==> r[0] != '0'
    decreases n
  {
    if n < 10 then [DigitChar(n)] else NatToString(n / 10) + [DigitChar(n % 10)]
  }

  /** `String(i)` for any integer. */
  function IntToString(i: int): (r: string)
    ensures |r| >= 1
  {
    if i < 0 then "-" + NatToString(-i) else NatToString(i)
  }

  /** The value of a string of decimal digits (`Number(s)` on such a string). */
  function DecimalValue(s: string): nat
    requires AllDigits(s)
  {
    if s == [] then 0 else DecimalValue(s[..|s| - 1]) * 10 + DigitValue(s[|s| - 1])
  }

  /** `Number(s)` on an optionally signed string of decimal digits, which is
      how a rendered integer is read back; anything else gives `None`. */
  function IntValue(s: string): Option<int> {
    if |s| > 1 && s[0] == '-' && AllDigits(s[1..]) then Some(0 - DecimalValue(s[1..]) as int)
    else if |s| > 0 && AllDigits(s) then Some(DecimalValue(s))
    else None
  }

  lemma {:induction false} DecimalValueOfNatToString(n: nat)
    ensures DecimalValue(NatToString(n)) == n
    decreases n
  {
    if n >= 10 {
      var s := NatToString(n);
      assert s[..|s| - 1] == NatToString(n / 10);
      DecimalValueOfNatToString(n / 10);
    }
  }

  lemma IntValueOfIntToString(i: int)
    ensures IntValue(IntToString(i)) == Some(i)
  {
    if i < 0 {
      var t := NatToString(-i);
      assert IntToString(i)[1..] == t;
      DecimalValueOfNatToString(-i);
    } else {
      DecimalValueOfNatToString(i);
    }
  }

  /** The number of digits of `String(n)` grows with `n`: below 10 one,
      from 10^(k-1) to 10^k - 1 exactly k. Only the widths up to four are
      needed. */
  lemma NatToStringWidth(n: nat)
    ensures n < 10 ==> |NatToString(n)| == 1
    ensures 10 <= n < 100 ==> |NatToString(n)| == 2
    ensures 100 <= n < 1000 ==> |NatToString(n)| == 3
    ensures 1000 <= n < 10000 ==> |NatToString(n)| == 4
  {
  }

  /** `String(n)` padded to two digits reads back as `n`, however large. */
  lemma Pad2Value(n: nat)
    ensures |Pad2(NatToString(n))| >= 2 && AllDigits(Pad2(NatToString(n)))
    ensures DecimalValue(Pad2(NatToString(n))) == n
  {
    if n < 100 {
      Pad2Digits(n);
    } else {
      DecimalValueOfNatToString(n);
    }
  }

  /** `s.padStart(2, "0")`. */
  function Pad2(s: string): (r: string)
    ensures |r| == if |s| >= 2 then |s| else 2
  {
    if |s| >= 2 then s else if |s| == 1 then "0" + s else "00"
  }

  /** The zero-padded two-digit rendering of a number below 100 and its
      value read back. */
  lemma Pad2Digits(n: nat)
    requires n < 100
    ensures |Pad2(NatToString(n))| == 2 && AllDigits(Pad2(NatToString(n)))
    ensures DecimalValue(Pad2(NatToString(n))) == n
  {
    var s := NatToString(n);
    DecimalValueOfNatToString(n);
    NatToStringWidth(n);
    if n < 10 {
      assert Pad2(s) == "0" + s;
      assert Pad2(s)[..1] == "0";
    } else {
      assert Pad2(s) == s;
    }
  }

  /** The JavaScript `a < b` on strings: lexicographic order of characters,
      a proper prefix coming first. */
  predicate LexLess(a: string, b: string)
    decreases |a|
  {
    if |a| == 0 then |b| > 0
    else if |b| == 0 then false
    else if a[0] != b[0] then a[0] < b[0]
    else LexLess(a[1..], b[1..])
  }

  /** `a <= b` on strings. */
  predicate LexLessEq(a: string, b: string) {
    a == b || LexLess(a, b)
  }

  lemma {:induction false} LexLessIrreflexive(a: string)
    ensures !LexLess(a, a)
    decreases |a|
  {
    if |a| > 0 {
      LexLessIrreflexive(a[1..]);
    }
  }

  /** The string order is transitive. */
  lemma {:induction false} LexLessTransitive(a: string, b: string, c: string)
    requires LexLess(a, b) && LexLess(b, c)
    ensures LexLess(a, c)
    decreases |a|
  {
    if |a| > 0 && a[0] == b[0] && b[0] == c[0] {
      LexLessTransitive(a[1..], b[1..], c[1..]);
    }
  }

  /** The string order is total. */
  lemma {:induction false} LexLessTotal(a: string, b: string)
    ensures a == b || LexLess(a, b) || LexLess(b, a)
    decreases |a|
  {
    if |a| > 0 && |b| > 0 && a[0] == b[0] {
      LexLessTotal(a[1..], b[1..]);
      if a[1..] == b[1..] {
        assert a == [a[0]] + a[1..] && b == [b[0]] + b[1..];
      }
    }
  }

  lemma LexLessAsymmetric(a: string, b: string)
    requires LexLess(a, b)
    ensures !LexLess(b, a)
  {
    if LexLess(b, a) {
      LexLessTransitive(a, b, a);
      LexLessIrreflexive(a);
    }
  }

  /** Comparing two strings whose first parts have the same length compares
      the first parts, then the rest. */
  lemma {:induction false} LexLessConcat(x: string, y: string, x2: string, y2: string)
    requires |x| == |x2|
    ensures LexLess(x + y, x2 + y2) <==> LexLess(x, x2) || (x == x2 && LexLess(y, y2))
    decreases |x|
  {
    if |x| == 0 {
      assert x + y == y && x2 + y2 == y2;
      LexLessIrreflexive(x);
    } else {
      assert (x + y)[0] == x[0] && (x2 + y2)[0] == x2[0];
      assert (x + y)[1..] == x[1..] + y && (x2 + y2)[1..] == x2[1..] + y2;
      if x[0] == x2[0] {
        LexLessConcat(x[1..], y, x2[1..], y2);
        assert x == [x[0]] + x[1..] && x2 == [x2[0]] + x2[1..];
      }
    }
  }

  /** On digit strings of one length the string order is the numeric order. */
  lemma {:induction false} LexLessDigits(a: string, b: string)
    requires |a| == |b| && AllDigits(a) && AllDigits(b)
    ensures LexLess(a, b) <==> DecimalValue(a) < DecimalValue(b)
    ensures a == b <==> DecimalValue(a) == DecimalValue(b)
    decreases |a|
  {
    if |a| == 0 {
      LexLessIrreflexive(a);
    } else {
      var n := |a|;
      var a0, b0 := a[..n - 1], b[..n - 1];
      assert a == a0 + [a[n - 1]] && b == b0 + [b[n - 1]];
      LexLessDigits(a0, b0);
      LexLessConcat(a0, [a[n - 1]], b0, [b[n - 1]]);
      if a0 != b0 {
        LexLessTotal(a0, b0);
      }
    }
  }
}
