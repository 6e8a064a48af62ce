/** The parts of ECMAScript string semantics that the core relies on:
    `String.prototype.trim`, the `\s` / `\S` regular-expression classes and
    the decimal rendering of a non-negative integer. */
module JsString {

  /** The ECMAScript WhiteSpace and LineTerminator code points. These are
      exactly the characters that `trim` strips and that `\s` matches. */
  predicate IsWhitespace(c: char) {
    || c == '\t' || c == '\n' || c == '\U{000B}' || c == '\U{000C}' || c == '\r'
    || c == ' ' || c == '\U{00A0}' || c == '\U{1680}'
    || ('\U{2000}' <= c <= '\U{200A}')
    || c == '\U{2028}' || c == '\U{2029}' || c == '\U{202F}' || c == '\U{205F}'
    || c == '\U{3000}' || c == '\U{FEFF}'
  }

  predicate AllWhitespace(s: string) {
    forall k :: 0 <= k < |s| ==> IsWhitespace(s[k])
  }

  /** Number of whitespace characters at the start of `s`. */
  function LeadingWhitespace(s: string): (n: nat)
    ensures n <= |s|
    ensures forall k :: 0 <= k < n ==> IsWhitespace(s[k])
    ensures n < |s| ==> !IsWhitespace(s[n])
  {
    if s == [] || !IsWhitespace(s[0]) then 0 else 1 + LeadingWhitespace(s[1..])
  }

  /** Number of whitespace characters at the end of `s`. */
  function TrailingWhitespace(s: string): (n: nat)
    ensures n <= |s|
    ensures forall k :: |s| - n <= k < |s| ==> IsWhitespace(s[k])
    ensures n < |s| ==> !IsWhitespace(s[|s| - 1 - n])
  {
    if s == [] || !IsWhitespace(s[|s| - 1]) then 0
    else 1 + TrailingWhitespace(s[..|s| - 1])
  }

  /** `s.trim()`: `s` without its leading and trailing whitespace. */
  function Trim(s: string): (r: string)
    ensures |r| <= |s|
    ensures r == [] || (!IsWhitespace(r[0]) && !IsWhitespace(r[|r| - 1]))
  {
    var t := s[LeadingWhitespace(s)..];
    t[..|t| - TrailingWhitespace(t)]
  }

  /** The trimmed string is a slice of `s` with only whitespace around it;
      together with its visible ends this determines it (`TrimUnique`). */
  lemma TrimIsSlice(s: string)
    ensures exists a: nat | a + |Trim(s)| <= |s| ::
      Trim(s) == s[a..a + |Trim(s)|] && AllWhitespace(s[..a]) && AllWhitespace(s[a + |Trim(s)|..])
  {
    var a := LeadingWhitespace(s);
    var t := s[a..];
    var r := Trim(s);
    assert r == t[..|t| - TrailingWhitespace(t)];
    assert r == s[a..a + |r|];
    assert AllWhitespace(s[..a]);
    assert s[a + |r|..] == t[|r|..];
  }

  /** Any slice of `s` with only whitespace around it and none at its ends is
      the trimmed string: the characterisation in `Trim`'s contract is exact. */
  lemma {:induction false} TrimUnique(s: string, a: nat, r: string)
    requires a + |r| <= |s| && r == s[a..a + |r|]
    requires AllWhitespace(s[..a]) && AllWhitespace(s[a + |r|..])
    requires r == [] || (!IsWhitespace(r[0]) && !IsWhitespace(r[|r| - 1]))
    ensures Trim(s) == r
  {
    TrimIsSlice(s);
    var b: nat :| b + |Trim(s)| <= |s| && Trim(s) == s[b..b + |Trim(s)|]
      && AllWhitespace(s[..b]) && AllWhitespace(s[b + |Trim(s)|..]);
    var t := Trim(s);
    SliceBounds(s, a, r);
    SliceBounds(s, b, t);
    if r != [] && t != [] {
      // Both start at the first visible character and end at the last one.
      assert a == b;
      assert a + |r| == b + |t|;
    }
  }

  /** `!s.trim()`: the trimmed string is empty, hence falsy. */
  predicate IsBlank(s: string) {
    Trim(s) == ""
  }

  /** What a whitespace-surrounded slice says about the characters of `s`. */
  lemma SliceBounds(s: string, a: nat, r: string)
    requires a + |r| <= |s| && r == s[a..a + |r|]
    requires AllWhitespace(s[..a]) && AllWhitespace(s[a + |r|..])
    requires r == [] || (!IsWhitespace(r[0]) && !IsWhitespace(r[|r| - 1]))
    ensures forall k :: 0 <= k < a ==> IsWhitespace(s[k])
    ensures forall k :: a + |r| <= k < |s| ==> IsWhitespace(s[k])
    ensures r != [] ==> !IsWhitespace(s[a]) && !IsWhitespace(s[a + |r| - 1])
  {
    forall k | 0 <= k < a ensures IsWhitespace(s[k]) {
      assert s[..a][k] == s[k];
    }
    forall k | a + |r| <= k < |s| ensures IsWhitespace(s[k]) {
      assert s[a + |r|..][k - a - |r|] == s[k];
    }
  }

  /** A string trims to nothing exactly when every character of it is whitespace. */
  lemma BlankIffAllWhitespace(s: string)
    ensures IsBlank(s) <==> AllWhitespace(s)
  {
    var a := LeadingWhitespace(s);
    var t := s[a..];
    if a < |s| {
      assert t[0] == s[a];
      assert TrailingWhitespace(t) < |t|;
      assert !AllWhitespace(s);
    }
  }

  /** A string with a non-whitespace character is never blank. */
  lemma NotBlankWhenVisible(s: string, k: nat)
    requires k < |s| && !IsWhitespace(s[k])
    ensures !IsBlank(s)
  {
    BlankIffAllWhitespace(s);
  }

  function DigitChar(d: nat): (c: char)
    requires d < 10
    ensures '0' <= c <= '9'
  {
    ('0' as int + d) as char
  }

  function DigitValue(c: char): (d: nat)
    requires '0' <= c <= '9'
    ensures d < 10
  {
    c as int - '0' as int
  }

  predicate AllDigits(s: string) {
    forall k :: 0 <= k < |s| ==> '0' <= s[k] <= '9'
  }

  /** `String(n)` for a non-negative integer: its decimal digits, with no
      leading zero. */
  function NatToDecimal(n: nat): (s: string)
    ensures |s| >= 1 && AllDigits(s)
    ensures s[0] == '0' ==> n == 0
  {
    if n < 10 then [DigitChar(n)] else NatToDecimal(n / 10) + [DigitChar(n % 10)]
  }

  /** The number a string of decimal digits denotes; the reference reading of
      a decimal rendering. */
  function DecimalValue(s: string): nat
    requires AllDigits(s)
  {
    if s == [] then 0 else 10 * DecimalValue(s[..|s| - 1]) + DigitValue(s[|s| - 1])
  }

  /** Reading back the decimal rendering of `n` gives `n`. */
  lemma {:induction false} DecimalRoundTrip(n: nat)
    ensures DecimalValue(NatToDecimal(n)) == n
  {
    var s := NatToDecimal(n);
    if n < 10 {
      assert s[..|s| - 1] == [];
    } else {
      var p := NatToDecimal(n / 10);
      assert s == p + [DigitChar(n % 10)];
      assert s[..|s| - 1] == p;
      DecimalRoundTrip(n / 10);
    }
  }

  /** Distinct numbers render as distinct strings. */
  lemma DecimalInjective(m: nat, n: nat)
    requires NatToDecimal(m) == NatToDecimal(n)
    ensures m == n
  {
    DecimalRoundTrip(m);
    DecimalRoundTrip(n);
  }
}
