/** The parts of Python's string and integer semantics that the host client
    relies on: `str.strip()`, slicing, and `int(str)` with its exceptions. */
module Python {
  import opened Strings

  /** The exceptions the modelled host code can raise. */
  datatype PyError =
    | ValueError      // int() of text that is not an integer numeral
    | IndexError      // a missing element of a split
    | AttributeError  // use of the serial port while it is None

  datatype Result<T> = Ok(value: T) | Err(error: PyError)

  /** `str.isspace()` for one character. */
  predicate IsSpace(c: char) {
    c == ' ' || ('\t' <= c <= '\r') || ('\U{1c}' <= c <= '\U{1f}')
    || c == '\U{85}' || c == '\U{a0}' || c == '\U{1680}'
    || ('\U{2000}' <= c <= '\U{200a}') || c == '\U{2028}' || c == '\U{2029}'
    || c == '\U{202f}' || c == '\U{205f}' || c == '\U{3000}'
  }

  /** `s.strip()`. */
  function Strip(s: string): string {
    Trim(s, IsSpace)
  }

  /** `s` has no surrounding whitespace, so `s.strip() == s`. */
  predicate Stripped(s: string) {
    Trimmed(s, IsSpace)
  }

  lemma StripTrimmed(s: string)
    requires Stripped(s)
    ensures Strip(s) == s
  {
    TrimPadded([], s, [], IsSpace);
    assert [] + s + [] == s;
  }

  /** Whatever `strip()` returns is itself stripped. */
  lemma StripIsStripped(s: string)
    ensures Stripped(Strip(s))
  {
    var t := TrimStart(s, IsSpace);
    var r := TrimEnd(t, IsSpace);
    TrimStartRemoves(s, IsSpace);
    TrimEndRemoves(t, IsSpace);
    if r != [] {
      assert r[0] == t[0];
    }
  }

  /** `s[k:]` for a non-negative `k`: clamped at the end of `s`. */
  function SliceFrom(s: string, k: nat): (r: string)
    ensures |r| == if k < |s| then |s| - k else 0
    ensures k <= |s| ==> r == s[k..]
    ensures k >= |s| ==> r == []
  {
    if k >= |s| then [] else s[k..]
  }

  /** The body of an `int()` numeral: digits, with single underscores allowed
      between two digits. */
  predicate IsNumeral(s: string) {
    s != [] && IsDigit(s[0]) && NumeralChars(s)
    && forall i :: 0 <= i < |s| && s[i] == '_' ==> i + 1 < |s| && IsDigit(s[i + 1])
  }

  predicate NumeralChars(s: string) {
    forall i :: 0 <= i < |s| ==> IsDigit(s[i]) || s[i] == '_'
  }

  function DropUnderscores(s: string): (r: string)
    requires NumeralChars(s)
    ensures AllDigits(r)
  {
    if s == [] then []
    else (if s[0] == '_' then [] else [s[0]]) + DropUnderscores(s[1..])
  }

  /** `int(s)` for a string: surrounding whitespace is ignored, one optional
      sign, then a numeral; anything else raises ValueError. */
  function Int(s: string): Result<int> {
    var t := Strip(s);
    var signed := t != [] && (t[0] == '-' || t[0] == '+');
    var body := if signed then t[1..] else t;
    if !IsNumeral(body) then Err(ValueError)
    else
      var v: int := DigitsValue(DropUnderscores(body));
      Ok(if signed && t[0] == '-' then -v else v)
  }

  lemma {:induction false} DropUnderscoresDigits(s: string)
    requires AllDigits(s)
    ensures DropUnderscores(s) == s
  {
    if s != [] {
      DropUnderscoresDigits(s[1..]);
    }
  }

  /** `int(str(n)) == n`: a decimal numeral written by either side parses back. */
  lemma IntOfDecimal(n: nat)
    ensures Int(Decimal(n)) == Ok(n)
  {
    var d := Decimal(n);
    assert Stripped(d) by { assert IsDigit(d[0]) && IsDigit(d[|d| - 1]); }
    StripTrimmed(d);
    DropUnderscoresDigits(d);
    DecimalValue(n);
  }
}
