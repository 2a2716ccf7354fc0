/**
 * Character-level building blocks shared by the model: Python's `str(n)` on
 * integers, `int(s)` on decimal text, `"{:0w}".format(n)` zero padding,
 * `str.split` on a single separator character and its inverse join, and the
 * integer ceiling of a decimal logarithm.
 */
module Strings {
  import opened Wrappers

  /** 10 to the power k. */
  function Pow10(k: nat): (r: nat)
    ensures r >= 1
  {
    if k == 0 then 1 else 10 * Pow10(k - 1)
  }

  predicate IsDigit(c: char) {
    '0' <= c <= '9'
  }

  predicate AllDigits(s: string) {
    forall i :: 0 <= i < |s| ==> IsDigit(s[i])
  }

  function DigitChar(d: nat): (c: char)
    requires d < 10
    ensures IsDigit(c)
  {
    ('0' as int + d) as char
  }

  function DigitValue(c: char): (d: nat)
    requires IsDigit(c)
    ensures d < 10
  {
    c as int - '0' as int
  }

  /** Python's `str(n)` for a non-negative integer: decimal digits, no leading zero. */
  function NatToDecimal(n: nat): (s: string)
    ensures |s| >= 1
    ensures AllDigits(s)
    ensures s[0] == '0' ==> n == 0
    decreases n
  {
    if n < 10 then [DigitChar(n)] else NatToDecimal(n / 10) + [DigitChar(n % 10)]
  }

  /** The number denoted by a string of decimal digits (leading zeros allowed). */
  function DecimalValue(s: string): nat
    requires AllDigits(s)
    decreases |s|
  {
    if |s| == 0 then 0 else DecimalValue(s[..|s| - 1]) * 10 + DigitValue(s[|s| - 1])
  }

  /** Reading back what `NatToDecimal` wrote gives the original number. */
  lemma {:induction false} DecimalRoundTrip(n: nat)
    ensures DecimalValue(NatToDecimal(n)) == n
    decreases n
  {
    if n >= 10 {
      DecimalRoundTrip(n / 10);
      var s := NatToDecimal(n);
      assert s[..|s| - 1] == NatToDecimal(n / 10);
      assert DigitValue(s[|s| - 1]) == n % 10;
    } else {
      assert DigitValue(NatToDecimal(n)[0]) == n;
    }
  }

  /** `str(n)` has exactly as many characters as n has decimal digits. */
  lemma {:induction false} DecimalLength(n: nat)
    ensures n < Pow10(|NatToDecimal(n)|)
    ensures n >= 1 ==> Pow10(|NatToDecimal(n)| - 1) <= n
    decreases n
  {
    if n >= 10 {
      DecimalLength(n / 10);
    }
  }

  /** A string of k zero characters. */
  function Zeros(k: nat): (s: string)
    ensures |s| == k
    ensures AllDigits(s)
  {
    seq(k, _ => '0')
  }

  lemma {:induction false} ZerosValue(k: nat)
    ensures DecimalValue(Zeros(k)) == 0
  {
    if k > 0 {
      ZerosValue(k - 1);
      assert Zeros(k)[..k - 1] == Zeros(k - 1);
    }
  }

  /** Leading zeros do not change the number a digit string denotes. */
  lemma {:induction false} LeadingZerosValue(k: nat, s: string)
    requires AllDigits(s)
    ensures AllDigits(Zeros(k) + s)
    ensures DecimalValue(Zeros(k) + s) == DecimalValue(s)
    decreases |s|
  {
    var t := Zeros(k) + s;
    assert AllDigits(t);
    if |s| == 0 {
      assert t == Zeros(k);
      ZerosValue(k);
    } else {
      LeadingZerosValue(k, s[..|s| - 1]);
      assert t[..|t| - 1] == Zeros(k) + s[..|s| - 1];
    }
  }

  /** Python's `"{:0w}".format(n)` for n >= 0: the decimal text of n, left-padded with zeros to width w. */
  function FormatPadded(n: nat, w: int): (s: string)
    ensures AllDigits(s)
    ensures |s| == if w > |NatToDecimal(n)| then w else |NatToDecimal(n)|
    ensures DecimalValue(s) == n
  {
    var digits := NatToDecimal(n);
    DecimalRoundTrip(n);
    if |digits| < w then
      LeadingZerosValue(w - |digits|, digits);
      Zeros(w - |digits|) + digits
    else
      digits
  }

  /**
   * Python's `"{:0w}".format(i)` for any integer: a negative number keeps its
   * sign in front and the width counts the sign.
   */
  function FormatPaddedInt(i: int, w: int): (s: string)
    ensures |s| >= 1
    ensures i >= 0 ==> AllDigits(s) && DecimalValue(s) == i
    ensures i < 0 ==> s[0] == '-' && AllDigits(s[1..]) && DecimalValue(s[1..]) == -i
  {
    if i < 0 then "-" + FormatPadded(-i, w - 1) else FormatPadded(i, w)
  }

  /** `int` reads a padded number back, sign included. */
  lemma ParseFormatPaddedInt(i: int, w: int)
    ensures ParseInt(FormatPaddedInt(i, w)) == Some(i)
  {
    var s := FormatPaddedInt(i, w);
    if i < 0 {
      var digits := FormatPadded(-i, w - 1);
      assert s == "-" + digits && s[1..] == digits;
      assert IsDigit(s[|s| - 1]) by { assert s[|s| - 1] == digits[|digits| - 1]; }
      StripUnpadded(s);
    } else {
      assert IsDigit(s[0]) && IsDigit(s[|s| - 1]);
      StripUnpadded(s);
      assert s[0] != '-' && s[0] != '+';
    }
  }

  /** Different numbers never share a padded representation, whatever the width. */
  lemma FormatPaddedInjective(i: nat, j: nat, w: int)
    requires FormatPadded(i, w) == FormatPadded(j, w)
    ensures i == j
  {
    assert DecimalValue(FormatPadded(i, w)) == i;
  }

  /** A number below 10^w needs at most w digits, so padding to w gives exactly w characters. */
  lemma PaddedWidthIsCommon(n: nat, w: nat)
    requires n < Pow10(w)
    ensures |FormatPadded(n, w)| == if w == 0 then 1 else w
  {
    DecimalLength(n);
    var d := |NatToDecimal(n)|;
    if n >= 1 && w <= d - 1 {
      Pow10Monotone(w, d - 1);
    }
  }

  lemma {:induction false} Pow10Monotone(a: nat, b: nat)
    requires a <= b
    ensures Pow10(a) <= Pow10(b)
    decreases b
  {
    if a < b {
      Pow10Monotone(a, b - 1);
    }
  }

  /**
   * ceil(log10 n) computed on integers: the least k with 10^k >= n.
   * For n > 1, 10^k >= n exactly when 10^(k-1) >= ceil(n / 10).
   */
  function CeilLog10(n: nat): (k: nat)
    requires n >= 1
    ensures Pow10(k) >= n
    ensures k > 0 ==> Pow10(k - 1) < n
    decreases n
  {
    if n <= 1 then 0 else 1 + CeilLog10((n + 9) / 10)
  }

  /** Python's `str(i)` for any integer: a minus sign precedes the digits of a negative number. */
  function IntToDecimal(i: int): (s: string)
    ensures |s| >= 1
  {
    if i < 0 then "-" + NatToDecimal(-i) else NatToDecimal(i)
  }

  /** The characters Python's `str.isspace` accepts, which `int(s)` ignores around the number. */
  predicate IsSpace(c: char) {
    || c == ' ' || '\t' <= c <= '\r' || '\U{1c}' <= c <= '\U{1f}' || c == '\U{85}' || c == '\U{a0}'
    || c == '\U{1680}' || '\U{2000}' <= c <= '\U{200a}' || c == '\U{2028}' || c == '\U{2029}'
    || c == '\U{202f}' || c == '\U{205f}' || c == '\U{3000}'
  }

  predicate AllSpaces(s: string) {
    forall i :: 0 <= i < |s| ==> IsSpace(s[i])
  }

  /** `s` without its leading white space. */
  function TrimLeft(s: string): (r: string)
    ensures |r| <= |s|
    decreases |s|
  {
    if |s| > 0 && IsSpace(s[0]) then TrimLeft(s[1..]) else s
  }

  /** `s` without its trailing white space. */
  function TrimRight(s: string): (r: string)
    ensures |r| <= |s|
    decreases |s|
  {
    if |s| > 0 && IsSpace(s[|s| - 1]) then TrimRight(s[..|s| - 1]) else s
  }

  /** Python's `str.strip()`. */
  function Strip(s: string): string {
    TrimRight(TrimLeft(s))
  }

  /** An optional sign followed by at least one decimal digit, and nothing else. */
  function ParseSignedDigits(s: string): (r: Option<int>)
    ensures r.Some? ==> |s| >= 1
  {
    if |s| >= 2 && s[0] == '-' && AllDigits(s[1..]) then Some(-(DecimalValue(s[1..]) as int))
    else if |s| >= 2 && s[0] == '+' && AllDigits(s[1..]) then Some(DecimalValue(s[1..]))
    else if |s| >= 1 && AllDigits(s) then Some(DecimalValue(s))
    else None
  }

  /**
   * Python's `int(s)` on text: white space around the number is ignored, and
   * what remains must be an optional sign followed by at least one ASCII
   * decimal digit.
   */
  function ParseInt(s: string): (r: Option<int>)
    ensures r.Some? ==> |s| >= 1
  {
    ParseSignedDigits(Strip(s))
  }

  /** White space around a text never changes what `int` reads from it. */
  lemma ParseIntIgnoresSurroundingSpace(before: string, s: string, after: string)
    requires AllSpaces(before) && AllSpaces(after)
    ensures ParseInt(before + s + after) == ParseInt(s)
  {
    TrimLeftSkipsSpaces(before, s + after);
    assert before + s + after == before + (s + after);
    if AllSpaces(s) {
      AllSpacesTrimLeft(s + after);
      AllSpacesTrimLeft(s);
    } else {
      TrimLeftKeepsTail(s, after);
      TrimRightSkipsSpaces(TrimLeft(s), after);
    }
  }

  lemma {:induction false} TrimLeftSkipsSpaces(spaces: string, s: string)
    requires AllSpaces(spaces)
    ensures TrimLeft(spaces + s) == TrimLeft(s)
    decreases |spaces|
  {
    if |spaces| > 0 {
      assert (spaces + s)[1..] == spaces[1..] + s;
      TrimLeftSkipsSpaces(spaces[1..], s);
    } else {
      assert spaces + s == s;
    }
  }

  lemma {:induction false} TrimRightSkipsSpaces(s: string, spaces: string)
    requires AllSpaces(spaces)
    ensures TrimRight(s + spaces) == TrimRight(s)
    decreases |spaces|
  {
    if |spaces| > 0 {
      var n := |spaces|;
      assert (s + spaces)[..|s| + n - 1] == s + spaces[..n - 1];
      TrimRightSkipsSpaces(s, spaces[..n - 1]);
    } else {
      assert s + spaces == s;
    }
  }

  lemma AllSpacesTrimLeft(s: string)
    requires AllSpaces(s)
    ensures TrimLeft(s) == []
  {
  }

  /** Trimming the left of a text that is not all white space leaves what follows it alone. */
  lemma {:induction false} TrimLeftKeepsTail(s: string, tail: string)
    requires !AllSpaces(s)
    ensures TrimLeft(s + tail) == TrimLeft(s) + tail
    decreases |s|
  {
    if IsSpace(s[0]) {
      assert (s + tail)[1..] == s[1..] + tail;
      TrimLeftKeepsTail(s[1..], tail);
    }
  }

  /** Text that neither starts nor ends with white space is read as it is. */
  lemma StripUnpadded(s: string)
    requires |s| >= 1 && !IsSpace(s[0]) && !IsSpace(s[|s| - 1])
    ensures ParseInt(s) == ParseSignedDigits(s)
  {
  }

  /** `int(str(i)) == i`. */
  lemma ParseIntRoundTrip(i: int)
    ensures ParseInt(IntToDecimal(i)) == Some(i)
  {
    if i < 0 {
      ParseNegative(-i);
    } else {
      ParseNonNegative(i);
    }
  }

  lemma ParseNegative(n: nat)
    requires n > 0
    ensures ParseInt("-" + NatToDecimal(n)) == Some(-(n as int))
  {
    var digits := NatToDecimal(n);
    var s := "-" + digits;
    assert s[0] == '-';
    assert s[1..] == digits;
    assert IsDigit(s[|s| - 1]);
    StripUnpadded(s);
    DecimalRoundTrip(n);
  }

  lemma ParseNonNegative(n: nat)
    ensures ParseInt(NatToDecimal(n)) == Some(n)
  {
    var s := NatToDecimal(n);
    assert IsDigit(s[0]) && IsDigit(s[|s| - 1]);
    StripUnpadded(s);
    assert s[0] != '-' && s[0] != '+';
    DecimalRoundTrip(n);
    assert ParseSignedDigits(s) == Some(n);
  }

  /** Position of the first occurrence of c in s. */
  function IndexOf(s: string, c: char): (i: nat)
    requires c in s
    ensures i < |s| && s[i] == c
    ensures c !in s[..i]
  {
    if s[0] == c then 0
    else
      assert s == [s[0]] + s[1..];
      var j := IndexOf(s[1..], c);
      assert s[..j + 1] == [s[0]] + s[1..][..j];
      j + 1
  }

  /** Python's `s.split(sep)` for a one-character separator. */
  function Split(s: string, sep: char): (parts: seq<string>)
    ensures |parts| >= 1
    ensures forall k :: 0 <= k < |parts| ==> sep !in parts[k]
    ensures |parts| == multiset(s)[sep] + 1
    decreases |s|
  {
    if sep !in s then
      assert multiset(s)[sep] == 0;
      [s]
    else
      var i := IndexOf(s, sep);
      assert s == s[..i] + [sep] + s[i + 1..];
      assert multiset(s) == multiset(s[..i]) + multiset([sep]) + multiset(s[i + 1..]);
      [s[..i]] + Split(s[i + 1..], sep)
  }

  /** Python's `sep.join(parts)`. */
  function Join(parts: seq<string>, sep: char): string
    requires |parts| >= 1
    decreases |parts|
  {
    if |parts| == 1 then parts[0] else parts[0] + [sep] + Join(parts[1..], sep)
  }

  /** The first field of a joined string ends right before the first separator. */
  lemma FirstSeparator(a: string, sep: char, rest: string)
    requires sep !in a
    ensures sep in a + [sep] + rest
    ensures IndexOf(a + [sep] + rest, sep) == |a|
  {
    var s := a + [sep] + rest;
    assert s[|a|] == sep;
    assert s[..|a|] == a;
  }

  /** Splitting stops at the first separator after a separator-free field. */
  lemma SplitCons(a: string, sep: char, rest: string)
    requires sep !in a
    ensures Split(a + [sep] + rest, sep) == [a] + Split(rest, sep)
  {
    var s := a + [sep] + rest;
    FirstSeparator(a, sep, rest);
    assert s[..|a|] == a;
    assert s[|a| + 1..] == rest;
  }

  /** Splitting undoes joining when no part contains the separator. */
  lemma {:induction false} SplitJoin(parts: seq<string>, sep: char)
    requires |parts| >= 1
    requires forall k :: 0 <= k < |parts| ==> sep !in parts[k]
    ensures Split(Join(parts, sep), sep) == parts
    decreases |parts|
  {
    if |parts| > 1 {
      var rest := Join(parts[1..], sep);
      assert Join(parts, sep) == parts[0] + [sep] + rest;
      assert sep !in parts[0];
      SplitCons(parts[0], sep, rest);
      forall k | 0 <= k < |parts| - 1
        ensures sep !in parts[1..][k]
      {
        assert parts[1..][k] == parts[k + 1];
      }
      SplitJoin(parts[1..], sep);
      assert parts == [parts[0]] + parts[1..];
    } else {
      assert sep !in parts[0];
    }
  }

  /** Joining three fields writes them out with a separator between each. */
  lemma JoinThree(a: string, b: string, c: string, sep: char)
    ensures Join([a, b, c], sep) == a + [sep] + b + [sep] + c
  {
    assert [a, b, c][1..] == [b, c];
    assert [b, c][1..] == [c];
    assert Join([b, c], sep) == b + [sep] + c;
    assert a + [sep] + (b + [sep] + c) == a + [sep] + b + [sep] + c;
  }

  /** Joining four fields writes them out with a separator between each. */
  lemma JoinFour(a: string, b: string, c: string, d: string, sep: char)
    ensures Join([a, b, c, d], sep) == a + [sep] + b + [sep] + c + [sep] + d
  {
    assert [a, b, c, d][1..] == [b, c, d];
    JoinThree(b, c, d, sep);
    assert a + [sep] + (b + [sep] + c + [sep] + d) == a + [sep] + b + [sep] + c + [sep] + d;
  }

  /** Joining undoes splitting, for any text. */
  lemma {:induction false} JoinSplit(s: string, sep: char)
    ensures Join(Split(s, sep), sep) == s
    decreases |s|
  {
    if sep in s {
      var i := IndexOf(s, sep);
      var tail := Split(s[i + 1..], sep);
      JoinSplit(s[i + 1..], sep);
      assert Split(s, sep) == [s[..i]] + tail;
      assert ([s[..i]] + tail)[1..] == tail;
      assert s == s[..i] + [sep] + s[i + 1..];
    }
  }

  predicate StartsWith(s: string, prefix: string) {
    |prefix| <= |s| && s[..|prefix|] == prefix
  }

  predicate EndsWith(s: string, suffix: string) {
    |suffix| <= |s| && s[|s| - |suffix|..] == suffix
  }
}
