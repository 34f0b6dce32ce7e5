/**
  String operations the application relies on, stated over `seq<char>`:
  ASCII lower-casing (standing in for `toLowerCase`), substring search
  (`includes`), whitespace trimming (`trim`), splitting on a literal
  separator (`split`) and decimal rendering of integers (template literals).
 */
module Text {

  /** Lower-cases one character; only the ASCII letters A-Z change. */
  function LowerChar(c: char): char {
    if 'A' <= c <= 'Z' then (c as int + 32) as char else c
  }

  /** `s.toLowerCase()`, restricted to ASCII letters. */
  function Lower(s: string): (r: string)
    ensures |r| == |s|
    ensures forall i :: 0 <= i < |s| ==> r[i] == LowerChar(s[i])
  {
    seq(|s|, i requires 0 <= i < |s| => LowerChar(s[i]))
  }

  /** Lower-casing twice is lower-casing once. */
  lemma LowerIdempotent(s: string)
    ensures Lower(Lower(s)) == Lower(s)
  {
  }

  /** `sub` occurs in `s` starting at index `i`. */
  ghost predicate OccursAt(s: string, sub: string, i: int) {
    0 <= i && i + |sub| <= |s| && s[i..i + |sub|] == sub
  }

  /** An occurrence at `i + 1` in `s` is one at `i` in `s[1..]`, and back. */
  lemma OccursAtShift(s: string, sub: string, i: int)
    requires |s| > 0 && 0 <= i
    ensures OccursAt(s, sub, i + 1) <==> OccursAt(s[1..], sub, i)
  {
    if 0 <= i && i + 1 + |sub| <= |s| {
      assert s[1..][i..i + |sub|] == s[i + 1..i + 1 + |sub|];
    }
  }

  /** `s.includes(sub)`: some window of `s` equals `sub`. */
  function Contains(s: string, sub: string): (r: bool)
    ensures r <==> exists i :: OccursAt(s, sub, i)
    decreases |s|
  {
    if |s| < |sub| then
      assert forall i :: !OccursAt(s, sub, i);
      false
    else if s[..|sub|] == sub then
      assert OccursAt(s, sub, 0);
      true
    else
      var rest := Contains(s[1..], sub);
      assert rest ==> exists i :: OccursAt(s, sub, i) by {
        if rest {
          var k :| OccursAt(s[1..], sub, k);
          OccursAtShift(s, sub, k);
        }
      }
      assert (exists i :: OccursAt(s, sub, i)) ==> rest by {
        if exists i :: OccursAt(s, sub, i) {
          var k :| OccursAt(s, sub, k);
          assert k != 0;
          OccursAtShift(s, sub, k - 1);
        }
      }
      rest
  }

  /** A window of a window is a window: `includes` is transitive. */
  lemma ContainsTransitive(a: string, b: string, c: string)
    requires Contains(a, b) && Contains(b, c)
    ensures Contains(a, c)
  {
    var i :| OccursAt(a, b, i);
    var j :| OccursAt(b, c, j);
    forall k | 0 <= k < |c| ensures a[i + j + k] == c[k] {
      assert a[i..i + |b|][j + k] == b[j + k];
      assert b[j..j + |c|][k] == c[k];
    }
    assert a[i + j..i + j + |c|] == c;
    assert OccursAt(a, c, i + j);
  }

  /** The characters that JavaScript's `trim` removes (white space and line terminators). */
  predicate IsWhitespace(c: char) {
    var u := c as int;
    (0x09 <= u <= 0x0D) || u == 0x20 || u == 0xA0 || u == 0x1680
    || (0x2000 <= u <= 0x200A) || u == 0x2028 || u == 0x2029 || u == 0x202F
    || u == 0x205F || u == 0x3000 || u == 0xFEFF
  }

  /** Length of the longest all-whitespace prefix of `s`. */
  function LeadingSpace(s: string): (k: nat)
    ensures k <= |s|
    ensures forall i :: 0 <= i < k ==> IsWhitespace(s[i])
    ensures k == |s| || !IsWhitespace(s[k])
  {
    if s == [] || !IsWhitespace(s[0]) then 0
    else
      var k := LeadingSpace(s[1..]);
      assert forall i :: 1 <= i < k + 1 ==> s[i] == s[1..][i - 1];
      k + 1
  }

  /** Index where the longest all-whitespace suffix of `s` starts. */
  function TrailingSpace(s: string): (k: nat)
    ensures k <= |s|
    ensures forall i :: k <= i < |s| ==> IsWhitespace(s[i])
    ensures k == 0 || !IsWhitespace(s[k - 1])
  {
    if s == [] || !IsWhitespace(s[|s| - 1]) then |s|
    else
      var k := TrailingSpace(s[..|s| - 1]);
      assert forall i :: k <= i < |s| - 1 ==> s[i] == s[..|s| - 1][i];
      k
  }

  /** `s.trim()`: `s` without its leading and trailing white space. */
  function Trim(s: string): (r: string)
    ensures r == [] || (!IsWhitespace(r[0]) && !IsWhitespace(r[|r| - 1]))
  {
    var front := s[LeadingSpace(s)..];
    front[..TrailingSpace(front)]
  }

  /** Trimming keeps a middle part of the string and drops only white space around it. */
  lemma TrimIsInfix(s: string)
    ensures exists a, b :: 0 <= a <= b <= |s| && Trim(s) == s[a..b]
              && (forall i :: 0 <= i < a ==> IsWhitespace(s[i]))
              && (forall i :: b <= i < |s| ==> IsWhitespace(s[i]))
  {
    var a := LeadingSpace(s);
    var front := s[a..];
    var t := TrailingSpace(front);
    var b := a + t;
    assert Trim(s) == s[a..b];
    assert forall i :: b <= i < |s| ==> s[i] == front[i - a];
  }

  /** A string with no white space at either end is its own trim. */
  lemma TrimNoEdges(s: string)
    requires s == [] || (!IsWhitespace(s[0]) && !IsWhitespace(s[|s| - 1]))
    ensures Trim(s) == s
  {
    assert LeadingSpace(s) == 0;
    assert s[0..] == s;
  }

  /** Trimming is idempotent. */
  lemma TrimIdempotent(s: string)
    ensures Trim(Trim(s)) == Trim(s)
  {
    TrimNoEdges(Trim(s));
  }

  /** Index of the first occurrence of `sep` in `s` (`indexOf`), if any. */
  function IndexOf(s: string, sep: string): (r: int)
    ensures -1 <= r <= |s|
    ensures r == -1 <==> !Contains(s, sep)
    ensures r >= 0 ==> OccursAt(s, sep, r) && forall i :: 0 <= i < r ==> !OccursAt(s, sep, i)
    decreases |s|
  {
    if |s| < |sep| then -1
    else if s[..|sep|] == sep then 0
    else
      var k := IndexOf(s[1..], sep);
      if k == -1 then
        forall i ensures !OccursAt(s, sep, i) {
          if i > 0 { OccursAtShift(s, sep, i - 1); }
        }
        -1
      else
        OccursAtShift(s, sep, k);
        forall i | 0 <= i < k + 1 ensures !OccursAt(s, sep, i) {
          if i > 0 { OccursAtShift(s, sep, i - 1); }
        }
        k + 1
  }

  /** `parts.join(sep)`. */
  function Join(parts: seq<string>, sep: string): string
    decreases |parts|
  {
    if parts == [] then ""
    else if |parts| == 1 then parts[0]
    else parts[0] + sep + Join(parts[1..], sep)
  }

  /**
    The text before the first occurrence of `sep`, even with all but the last
    character of `sep` appended, does not contain `sep`.
   */
  lemma LeftmostOccurrence(s: string, sep: string, i: int)
    requires |sep| > 0 && 0 <= i && i + |sep| <= |s| && s[i..i + |sep|] == sep
    requires forall k :: 0 <= k < i ==> !OccursAt(s, sep, k)
    ensures !Contains(s[..i] + sep[..|sep| - 1], sep)
  {
    var m := i + |sep| - 1;
    NoOccurrenceBefore(s, sep, i, m);
    assert sep[..|sep| - 1] == s[i..m];
    assert s[..i] + sep[..|sep| - 1] == s[..m];
  }

  /** A prefix too short to hold an occurrence at or after `i` holds none. */
  lemma NoOccurrenceBefore(s: string, sep: string, i: int, m: int)
    requires |sep| > 0 && 0 <= i <= m <= |s| && m < i + |sep|
    requires forall k :: 0 <= k < i ==> !OccursAt(s, sep, k)
    ensures !Contains(s[..m], sep)
  {
    var prefix := s[..m];
    forall j ensures !OccursAt(prefix, sep, j) {
      if 0 <= j && j + |sep| <= m {
        assert j < i && !OccursAt(s, sep, j);
        assert prefix[j..j + |sep|] == s[j..j + |sep|];
      }
    }
  }

  /** The pieces before and after the first separator, put together. */
  lemma SplitStep(s: string, sep: string, i: int, rest: seq<string>)
    requires |sep| > 0 && 0 <= i && i + |sep| <= |s| && s[i..i + |sep|] == sep
    requires forall k :: 0 <= k < i ==> !OccursAt(s, sep, k)
    requires |rest| >= 1 && Join(rest, sep) == s[i + |sep|..]
    requires forall k :: 0 <= k < |rest| ==> !Contains(rest[k], sep)
    requires forall k :: 0 <= k < |rest| - 1 ==> !Contains(rest[k] + sep[..|sep| - 1], sep)
    ensures Join([s[..i]] + rest, sep) == s
    ensures forall k :: 0 <= k < |[s[..i]] + rest| ==> !Contains(([s[..i]] + rest)[k], sep)
    ensures forall k :: 0 <= k < |[s[..i]] + rest| - 1 ==> !Contains(([s[..i]] + rest)[k] + sep[..|sep| - 1], sep)
  {
    var parts := [s[..i]] + rest;
    assert parts[1..] == rest;
    assert s == s[..i] + sep + s[i + |sep|..];
    NoOccurrenceBefore(s, sep, i, i);
    LeftmostOccurrence(s, sep, i);
    forall k | 0 <= k < |parts|
      ensures !Contains(parts[k], sep)
      ensures k < |parts| - 1 ==> !Contains(parts[k] + sep[..|sep| - 1], sep)
    {
      if k > 0 {
        assert parts[k] == rest[k - 1];
      }
    }
  }

  /**
    `s.split(sep)` for a non-empty literal separator: the pieces between the
    occurrences of `sep`, found left to right without overlap.
   */
  function Split(s: string, sep: string): (parts: seq<string>)
    requires |sep| > 0
    ensures |parts| >= 1
    ensures Join(parts, sep) == s
    ensures forall k :: 0 <= k < |parts| ==> !Contains(parts[k], sep)
    ensures forall k :: 0 <= k < |parts| - 1 ==> !Contains(parts[k] + sep[..|sep| - 1], sep)
    decreases |s|
  {
    var i := IndexOf(s, sep);
    if i == -1 then [s]
    else
      var head, rest := s[..i], Split(s[i + |sep|..], sep);
      SplitStep(s, sep, i, rest);
      [head] + rest
  }

  /** Splitting a string that does not contain the separator yields the string alone. */
  lemma SplitWithout(s: string, sep: string)
    requires |sep| > 0 && !Contains(s, sep)
    ensures Split(s, sep) == [s]
  {
  }

  /** One separator between two separator-free parts splits into exactly those parts. */
  lemma SplitOnce(a: string, b: string, sep: string)
    requires |sep| > 0
    requires !Contains(a + sep[..|sep| - 1], sep)
    requires !Contains(b, sep)
    ensures Split(a + sep + b, sep) == [a, b]
  {
    var s := a + sep + b;
    var prefix := a + sep[..|sep| - 1];
    forall i | 0 <= i < |a| ensures !OccursAt(s, sep, i) {
      assert !OccursAt(prefix, sep, i);
      if i + |sep| <= |s| {
        assert s[i..i + |sep|] == prefix[i..i + |sep|];
      }
    }
    assert OccursAt(s, sep, |a|);
    assert IndexOf(s, sep) == |a|;
    assert s[|a| + |sep|..] == b;
  }

  /** An occurrence at or after `m` is an occurrence in the suffix from `m`. */
  lemma OccursInSuffix(s: string, sub: string, m: nat, j: int)
    requires m <= j && OccursAt(s, sub, j)
    ensures OccursAt(s[m..], sub, j - m)
  {
    assert s[m..][j - m..j - m + |sub|] == s[j..j + |sub|];
  }

  /** Two occurrences of the separator that do not overlap split the string into three parts or more. */
  lemma {:induction false} SplitTwoSeparators(s: string, sep: string, i: int, j: int)
    requires |sep| > 0 && OccursAt(s, sep, i) && OccursAt(s, sep, j) && i + |sep| <= j
    ensures |Split(s, sep)| >= 3
  {
    var first := IndexOf(s, sep);
    assert Contains(s, sep);
    assert first <= i;
    var rest := s[first + |sep|..];
    OccursInSuffix(s, sep, first + |sep|, j);
    assert Contains(rest, sep);
    assert IndexOf(rest, sep) != -1;
    assert Split(s, sep) == [s[..first]] + Split(rest, sep);
  }

  /**
    Overlapping occurrences are resolved leftmost first: in " - - " the
    separator " - " is cut at index 0, and the second, overlapping one is not.
   */
  lemma SplitOverlapping()
    ensures Split(" - - ", " - ") == ["", "- "]
  {
    var s, sep := " - - ", " - ";
    assert OccursAt(s, sep, 0);
    assert IndexOf(s, sep) == 0;
    assert s[3..] == "- ";
    SplitWithout("- ", sep);
  }

  /** The decimal digit for `d`. */
  function Digit(d: nat): char
    requires d < 10
  {
    "0123456789"[d]
  }

  /** The value of a decimal digit character (0 for any other character). */
  function DigitValue(c: char): nat {
    if '0' <= c <= '9' then c as int - '0' as int else 0
  }

  /** The number a string of decimal digits denotes, most significant digit first. */
  function DecimalValue(s: string): nat
    decreases |s|
  {
    if s == [] then 0 else 10 * DecimalValue(s[..|s| - 1]) + DigitValue(s[|s| - 1])
  }

  /** Each digit character stands for its own value, and only "0" stands for zero. */
  lemma DigitRoundTrip(d: nat)
    requires d < 10
    ensures '0' <= Digit(d) <= '9'
    ensures DigitValue(Digit(d)) == d
    ensures Digit(d) == '0' <==> d == 0
  {
    if d == 0 {} else if d == 1 {} else if d == 2 {} else if d == 3 {} else if d == 4 {}
    else if d == 5 {} else if d == 6 {} else if d == 7 {} else if d == 8 {} else {}
  }

  /** Appending one digit to a rendering multiplies its value by ten and adds the digit. */
  lemma DecimalValueSnoc(s: string, d: nat)
    requires d < 10
    ensures DecimalValue(s + [Digit(d)]) == 10 * DecimalValue(s) + d
  {
    DigitRoundTrip(d);
    assert (s + [Digit(d)])[..|s|] == s;
  }

  /** Decimal rendering of a natural number, as a template literal prints it: reading it back gives the number. */
  function NatToDecimal(n: nat): (r: string)
    ensures |r| >= 1
    ensures DecimalValue(r) == n
  {
    DigitRoundTrip(n % 10);
    if n < 10 then [Digit(n)]
    else
      var high := NatToDecimal(n / 10);
      DecimalValueSnoc(high, n % 10);
      high + [Digit(n % 10)]
  }

  /** The rendering is made of digits only, with no leading zero. */
  lemma {:induction false} NatToDecimalDigits(n: nat)
    ensures var r := NatToDecimal(n);
            && (forall i :: 0 <= i < |r| ==> '0' <= r[i] <= '9')
            && (r[0] == '0' <==> n == 0)
  {
    DigitRoundTrip(n % 10);
    if n >= 10 {
      NatToDecimalDigits(n / 10);
      assert NatToDecimal(n)[0] == NatToDecimal(n / 10)[0];
    }
  }

  /** Two numbers with the same rendering are equal. */
  lemma NatToDecimalInjective(m: nat, n: nat)
    requires NatToDecimal(m) == NatToDecimal(n)
    ensures m == n
  {
    assert DecimalValue(NatToDecimal(m)) == m;
  }

  /** Decimal rendering of an integer, with a leading minus sign when negative. */
  function IntToDecimal(n: int): (r: string)
    ensures |r| >= 1
    ensures n < 0 <==> r[0] == '-'
    ensures n >= 0 ==> DecimalValue(r) == n
    ensures n < 0 ==> |r| >= 2 && DecimalValue(r[1..]) == -n && r[1] != '0'
  {
    NatToDecimalDigits(if n < 0 then -n else n);
    if n < 0 then
      var digits := NatToDecimal(-n);
      assert ("-" + digits)[1..] == digits;
      "-" + digits
    else NatToDecimal(n)
  }

  /** A minus sign in front of digits is followed by digits only. */
  lemma SignedDigits(digits: string)
    requires forall i :: 0 <= i < |digits| ==> '0' <= digits[i] <= '9'
    ensures forall i :: 1 <= i < |digits| + 1 ==> '0' <= ("-" + digits)[i] <= '9'
  {
    forall i | 1 <= i < |digits| + 1 ensures '0' <= ("-" + digits)[i] <= '9' {
      assert ("-" + digits)[i] == digits[i - 1];
    }
  }

  /**
    The rendering is canonical: after the optional minus sign it holds decimal
    digits only, and a non-negative number starts with 0 only when it is zero.
   */
  lemma IntToDecimalDigits(n: int)
    ensures n >= 0 ==> forall i :: 0 <= i < |IntToDecimal(n)| ==> '0' <= IntToDecimal(n)[i] <= '9'
    ensures n < 0 ==> forall i :: 1 <= i < |IntToDecimal(n)| ==> '0' <= IntToDecimal(n)[i] <= '9'
    ensures n >= 0 ==> (IntToDecimal(n)[0] == '0' <==> n == 0)
  {
    if n < 0 {
      NatToDecimalDigits(-n);
      SignedDigits(NatToDecimal(-n));
      assert IntToDecimal(n) == "-" + NatToDecimal(-n);
    } else {
      NatToDecimalDigits(n);
      assert IntToDecimal(n) == NatToDecimal(n);
    }
  }
}
