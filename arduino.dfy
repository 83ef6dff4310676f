/** The parts of the Arduino `String` class that the firmware relies on:
    `trim`, `indexOf`, the clamped `substring`, and `toInt`. */
module Arduino {
  import opened Strings

  /** C `isspace` in the default locale. */
  predicate IsSpace(c: char) {
    c == ' ' || ('\t' <= c <= '\r')
  }

  /** `String::trim()`. */
  function TrimString(s: string): string {
    Trim(s, IsSpace)
  }

  /** `s.indexOf(c, from)`: the first index at or after `from` holding `c`, or -1. */
  function IndexOf(s: string, c: char, from: nat): (r: int)
    ensures r == -1 || (from <= r < |s| && s[r] == c)
    decreases |s| - from
  {
    if from >= |s| then -1
    else if s[from] == c then from
    else IndexOf(s, c, from + 1)
  }

  /** `indexOf` finds the first occurrence: none of the characters it passes
      over is `c`. */
  lemma {:induction false} IndexOfFirst(s: string, c: char, from: nat)
    ensures var r := IndexOf(s, c, from);
      forall j :: from <= j < |s| && (r == -1 || j < r) ==> s[j] != c
    decreases |s| - from
  {
    if from < |s| && s[from] != c {
      IndexOfFirst(s, c, from + 1);
    }
  }

  /** `s.substring(left, right)`: the bounds are swapped when reversed, the
      result is empty when `left` is past the end, and `right` is clamped. */
  function Substring(s: string, left: nat, right: nat): (r: string)
    ensures |r| <= |s|
    ensures left <= right <= |s| ==> r == s[left..right]
    ensures right <= left <= |s| ==> r == s[right..left]
    ensures left <= right && left <= |s| <= right ==> r == s[left..]
    ensures right <= left && right <= |s| <= left ==> r == s[right..]
    ensures left >= |s| && right >= |s| ==> r == []
  {
    var lo := if left <= right then left else right;
    var hi := if left <= right then right else left;
    if lo >= |s| then [] else s[lo..if hi <= |s| then hi else |s|]
  }

  /** `s.substring(left)`. */
  function SubstringFrom(s: string, left: nat): string {
    Substring(s, left, |s|)
  }

  /** The longest prefix of `s` made of decimal digits. */
  function LeadingDigits(s: string): (r: string)
    ensures r <= s && AllDigits(r)
    ensures |r| < |s| ==> !IsDigit(s[|r|])
  {
    if s != [] && IsDigit(s[0]) then [s[0]] + LeadingDigits(s[1..]) else []
  }

  /** `s.toInt()`, that is `atol`: leading white space is skipped, one
      optional sign is read, then as many decimal digits as follow; no
      digits gives 0. */
  function ToInt(s: string): int {
    var t := TrimStart(s, IsSpace);
    var signed := t != [] && (t[0] == '-' || t[0] == '+');
    var rest := if signed then t[1..] else t;
    var v: int := DigitsValue(LeadingDigits(rest));
    if signed && t[0] == '-' then -v else v
  }

  lemma {:induction false} LeadingDigitsOfNumeral(d: string, tail: string)
    requires AllDigits(d) && (tail == [] || !IsDigit(tail[0]))
    ensures LeadingDigits(d + tail) == d
    decreases |d|
  {
    if d == [] {
      assert d + tail == tail;
    } else {
      assert (d + tail)[0] == d[0];
      assert (d + tail)[1..] == d[1..] + tail;
      LeadingDigitsOfNumeral(d[1..], tail);
    }
  }

  /** `toInt` reads back a decimal numeral, whatever non-digit text follows it. */
  lemma ToIntOfDecimal(n: nat, tail: string)
    requires tail == [] || !IsDigit(tail[0])
    ensures ToInt(Decimal(n) + tail) == n
  {
    var d := Decimal(n);
    assert IsDigit(d[0]);
    assert (d + tail)[0] == d[0];
    assert TrimStart(d + tail, IsSpace) == d + tail;
    LeadingDigitsOfNumeral(d, tail);
    DecimalValue(n);
  }
}
