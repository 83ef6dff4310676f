/** Sequence and string primitives shared by the host client and the device
    firmware models: prefixes, substring search, splitting, trimming one
    character, replacement, and decimal numerals. */
module Strings {

  /** One octet on the serial line. */
  newtype byte = x: int | 0 <= x < 256

  datatype Option<T> = None | Some(value: T)

  predicate StartsWith(s: string, p: string) {
    |p| <= |s| && s[..|p|] == p
  }

  predicate EndsWith(s: string, p: string) {
    |p| <= |s| && s[|s| - |p|..] == p
  }

  /** `sub` occurs in `s` starting at index `i`. */
  predicate OccursAt(s: string, sub: string, i: int) {
    0 <= i && i + |sub| <= |s| && s[i..i + |sub|] == sub
  }

  /** Index of the first occurrence of `sub` in `s` at or after `from`, or -1. */
  function FindFrom(s: string, sub: string, from: nat): (r: int)
    ensures r == -1 || (from <= r && OccursAt(s, sub, r))
    ensures forall j :: from <= j && (r == -1 || j < r) ==> !OccursAt(s, sub, j)
    decreases |s| - from
  {
    if from + |sub| > |s| then -1
    else if s[from..from + |sub|] == sub then from
    else FindFrom(s, sub, from + 1)
  }

  /** Python's `s.find(sub)`. */
  function Find(s: string, sub: string): int {
    FindFrom(s, sub, 0)
  }

  /** Python's `sub in s`. */
  predicate Contains(s: string, sub: string) {
    Find(s, sub) >= 0
  }

  /** The last index of `s` holding `c`, or -1: Python's `s.rfind(c)` and
      Arduino's `s.lastIndexOf(c)`. */
  function LastIndex(s: string, c: char): (r: int)
    ensures r == -1 || (0 <= r < |s| && s[r] == c)
    ensures forall j :: r < j < |s| && 0 <= j ==> s[j] != c
  {
    if s == [] then -1
    else if s[|s| - 1] == c then |s| - 1
    else LastIndex(s[..|s| - 1], c)
  }

  /** Python's `s.split(sep)` for a non-empty separator: every part, left to right. */
  function Split(s: string, sep: string): (parts: seq<string>)
    requires sep != []
    ensures |parts| >= 1
    ensures Join(parts, sep) == s
    ensures forall k :: 0 <= k < |parts| ==> Find(parts[k], sep) == -1
    decreases |s|
  {
    var i := Find(s, sep);
    if i < 0 then [s]
    else
      FindBefore(s, sep, i);
      var rest := Split(s[i + |sep|..], sep);
      assert ([s[..i]] + rest)[1..] == rest;
      assert s == s[..i] + sep + s[i + |sep|..];
      [s[..i]] + rest
  }

  /** `sep.join(parts)`. */
  function Join(parts: seq<string>, sep: string): string {
    if parts == [] then []
    else if |parts| == 1 then parts[0]
    else parts[0] + sep + Join(parts[1..], sep)
  }

  /** Python's `s.split(sep, 1)`: the text before and after the first separator. */
  function SplitOnce(s: string, sep: string): (parts: seq<string>)
    requires sep != []
    ensures 1 <= |parts| <= 2
    ensures |parts| == 1 ==> parts[0] == s && Find(s, sep) == -1
    ensures |parts| == 2 ==> parts[0] + sep + parts[1] == s && Find(parts[0], sep) == -1
  {
    var i := Find(s, sep);
    if i < 0 then [s]
    else
      FindBefore(s, sep, i);
      assert s == s[..i] + sep + s[i + |sep|..];
      [s[..i], s[i + |sep|..]]
  }

  /** The text before the first occurrence of `sep` does not hold `sep`. */
  lemma FindBefore(s: string, sep: string, i: int)
    requires sep != [] && i >= 0 && i == Find(s, sep)
    ensures i + |sep| <= |s| && s[i..i + |sep|] == sep
    ensures Find(s[..i], sep) == -1
  {
    var j := Find(s[..i], sep);
    if j != -1 {
      assert OccursAt(s[..i], sep, j);
      assert s[..i][j..j + |sep|] == s[j..j + |sep|];
      assert OccursAt(s, sep, j);
      assert false;
    }
  }

  /** Python's `s.rstrip(c)` for a single character `c`. */
  function TrimRight(s: string, c: char): (r: string)
    ensures r <= s
    ensures r == [] || r[|r| - 1] != c
    ensures forall j :: |r| <= j < |s| ==> s[j] == c
  {
    if s != [] && s[|s| - 1] == c then TrimRight(s[..|s| - 1], c) else s
  }

  /** Python's `s.replace(pat, rep)`: non-overlapping occurrences, left to right. */
  function ReplaceAll(s: string, pat: string, rep: string): string
    requires pat != []
    decreases |s|
  {
    if s == [] then []
    else if StartsWith(s, pat) then rep + ReplaceAll(s[|pat|..], pat, rep)
    else [s[0]] + ReplaceAll(s[1..], pat, rep)
  }

  /** `s` without its leading characters that satisfy `ws`. */
  function TrimStart(s: string, ws: char -> bool): (r: string)
    ensures |r| <= |s|
  {
    if s != [] && ws(s[0]) then TrimStart(s[1..], ws) else s
  }

  /** What `TrimStart` removes satisfies `ws`, and what it leaves does not
      start with such a character. */
  lemma {:induction false} TrimStartRemoves(s: string, ws: char -> bool)
    ensures var r := TrimStart(s, ws);
      (r == [] || !ws(r[0])) && forall i :: 0 <= i < |s| - |r| ==> ws(s[i])
  {
    if s != [] && ws(s[0]) {
      TrimStartRemoves(s[1..], ws);
      var r := TrimStart(s, ws);
      forall i | 0 <= i < |s| - |r| ensures ws(s[i]) {
        if i > 0 { assert s[i] == s[1..][i - 1]; }
      }
    }
  }

  /** What `TrimStart` leaves is a suffix of its input. */
  lemma {:induction false} TrimStartSuffix(s: string, ws: char -> bool)
    ensures TrimStart(s, ws) == s[|s| - |TrimStart(s, ws)|..]
  {
    if s != [] && ws(s[0]) {
      TrimStartSuffix(s[1..], ws);
      assert s[1..][|s[1..]| - |TrimStart(s[1..], ws)|..] == s[|s| - |TrimStart(s, ws)|..];
    }
  }

  /** `s` without its trailing characters that satisfy `ws`. */
  function TrimEnd(s: string, ws: char -> bool): (r: string)
    ensures r <= s
  {
    if s != [] && ws(s[|s| - 1]) then TrimEnd(s[..|s| - 1], ws) else s
  }

  /** What `TrimEnd` removes satisfies `ws`, and what it leaves does not end
      with such a character. */
  lemma {:induction false} TrimEndRemoves(s: string, ws: char -> bool)
    ensures var r := TrimEnd(s, ws);
      (r == [] || !ws(r[|r| - 1])) && forall i :: |r| <= i < |s| ==> ws(s[i])
  {
    if s != [] && ws(s[|s| - 1]) {
      TrimEndRemoves(s[..|s| - 1], ws);
      var r := TrimEnd(s, ws);
      forall i | |r| <= i < |s| ensures ws(s[i]) {
        if i < |s| - 1 { assert s[i] == s[..|s| - 1][i]; }
      }
    }
  }

  /** `s` without leading and trailing characters that satisfy `ws`. */
  function Trim(s: string, ws: char -> bool): string {
    TrimEnd(TrimStart(s, ws), ws)
  }

  /** `s` neither starts nor ends with a character satisfying `ws`. */
  predicate Trimmed(s: string, ws: char -> bool) {
    s == [] || (!ws(s[0]) && !ws(s[|s| - 1]))
  }

  predicate AllSatisfy(s: string, ws: char -> bool) {
    forall i :: 0 <= i < |s| ==> ws(s[i])
  }

  lemma {:induction false} TrimStartSkips(pre: string, s: string, ws: char -> bool)
    requires AllSatisfy(pre, ws)
    ensures TrimStart(pre + s, ws) == TrimStart(s, ws)
    decreases |pre|
  {
    if pre == [] {
      assert pre + s == s;
    } else {
      assert (pre + s)[0] == pre[0] && ws(pre[0]);
      assert (pre + s)[1..] == pre[1..] + s;
      assert TrimStart(pre + s, ws) == TrimStart(pre[1..] + s, ws);
      TrimStartSkips(pre[1..], s, ws);
    }
  }

  lemma {:induction false} TrimEndSkips(s: string, post: string, ws: char -> bool)
    requires AllSatisfy(post, ws)
    ensures TrimEnd(s + post, ws) == TrimEnd(s, ws)
    decreases |post|
  {
    if post == [] {
      assert s + post == s;
    } else {
      var q := post[..|post| - 1];
      assert (s + post)[|s + post| - 1] == post[|post| - 1] && ws(post[|post| - 1]);
      assert (s + post)[..|s + post| - 1] == s + q;
      assert TrimEnd(s + post, ws) == TrimEnd(s + q, ws);
      TrimEndSkips(s, q, ws);
    }
  }

  /** Trimming removes exactly the padding around an already trimmed core. */
  lemma TrimPadded(pre: string, core: string, post: string, ws: char -> bool)
    requires AllSatisfy(pre, ws) && AllSatisfy(post, ws) && Trimmed(core, ws)
    ensures Trim(pre + core + post, ws) == core
  {
    assert pre + core + post == pre + (core + post);
    TrimStartSkips(pre, core + post, ws);
    if core == [] {
      assert core + post == post + [];
      TrimStartSkips(post, [], ws);
    } else {
      assert TrimStart(core + post, ws) == core + post;
    }
    TrimEndSkips(core, post, ws);
  }

  /** The number of occurrences of character `c` in `s` at or after index
      `from`. */
  function CountFrom(s: string, c: char, from: nat): nat
    decreases |s| - from
  {
    if from >= |s| then 0 else (if s[from] == c then 1 else 0) + CountFrom(s, c, from + 1)
  }

  predicate IsDigit(c: char) {
    '0' <= c <= '9'
  }

  predicate AllDigits(s: string) {
    forall i :: 0 <= i < |s| ==> IsDigit(s[i])
  }

  function DigitValue(c: char): nat
    requires IsDigit(c)
  {
    (c as int) - ('0' as int)
  }

  /** The value of a string of decimal digits, most significant first. */
  function DigitsValue(s: string): nat
    requires AllDigits(s)
  {
    if s == [] then 0 else DigitsValue(s[..|s| - 1]) * 10 + DigitValue(s[|s| - 1])
  }

  /** The decimal numeral of `n` without leading zeros, as both Python's
      `str(int)` and Arduino's `print` of an unsigned number write it. */
  function Decimal(n: nat): (r: string)
    ensures r != [] && AllDigits(r)
  {
    var d := [('0' as int + n % 10) as char];
    if n < 10 then d else Decimal(n / 10) + d
  }

  lemma {:induction false} DecimalValue(n: nat)
    ensures DigitsValue(Decimal(n)) == n
  {
    var r := Decimal(n);
    var d := [('0' as int + n % 10) as char];
    if n >= 10 {
      DecimalValue(n / 10);
      assert r[..|r| - 1] == Decimal(n / 10);
    }
  }

  lemma StartsWithAppend(s: string, p: string, t: string)
    requires StartsWith(s, p)
    ensures StartsWith(s + t, p)
  {
    assert (s + t)[..|p|] == s[..|p|];
  }

  /** A character that does not occur in `a` cannot begin an occurrence of a
      separator inside `a`, so the first occurrence in `a + sep + b` is at |a|. */
  lemma FindAfterPrefix(a: string, sep: string, b: string)
    requires sep != [] && forall i :: 0 <= i < |a| ==> a[i] != sep[0]
    ensures Find(a + sep + b, sep) == |a|
  {
    var s := a + sep + b;
    assert OccursAt(s, sep, |a|) by { assert s[|a|..|a| + |sep|] == sep; }
    forall j | 0 <= j < |a| ensures !OccursAt(s, sep, j) {
      assert s[j] == a[j];
    }
  }

  /** Searching a string that does not contain the separator finds nothing. */
  lemma FindAbsent(s: string, sep: string)
    requires sep != [] && forall i :: 0 <= i < |s| ==> s[i] != sep[0]
    ensures Find(s, sep) == -1
  {
    forall j | 0 <= j && j + |sep| <= |s| ensures !OccursAt(s, sep, j) {
      assert s[j..j + |sep|][0] == s[j];
    }
  }

  /** Concatenation regrouped. */
  lemma Regroup<T>(a: seq<T>, b: seq<T>, c: seq<T>)
    ensures a + (b + c) == (a + b) + c
  {
  }
}
