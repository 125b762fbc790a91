/** The few Python string operations the modelled code relies on:
    `str.split()` with no argument, `startswith`, slicing comparisons,
    the `in` substring test, and `str()` / `int()` on integers. */
module Text {
  import opened Base

  /** The characters Python's `str.split()` treats as separators. */
  predicate IsSpace(c: char) {
    || c == ' ' || c == '\t' || c == '\n' || c == '\r'
    || c == '\U{000B}' || c == '\U{000C}'
    || ('\U{001C}' <= c <= '\U{001F}')
    || c == '\U{0085}' || c == '\U{00A0}' || c == '\U{1680}'
    || ('\U{2000}' <= c <= '\U{200A}')
    || c == '\U{2028}' || c == '\U{2029}' || c == '\U{202F}' || c == '\U{205F}' || c == '\U{3000}'
  }

  /** A non-empty run of non-separator characters: what `split()` returns. */
  predicate IsToken(t: string) {
    |t| > 0 && forall i :: 0 <= i < |t| ==> !IsSpace(t[i])
  }

  /** The longest prefix of `s` without a separator. */
  function Word(s: string): (w: string)
    ensures w <= s
    ensures forall i :: 0 <= i < |w| ==> !IsSpace(w[i])
    ensures |w| < |s| ==> IsSpace(s[|w|])
  {
    if s == [] || IsSpace(s[0]) then [] else [s[0]] + Word(s[1..])
  }

  /** Python's `s.split()`: the maximal runs of non-separators, in order. */
  function Tokens(s: string): (ts: seq<string>)
    ensures forall i :: 0 <= i < |ts| ==> IsToken(ts[i])
    decreases |s|
  {
    if s == [] then []
    else if IsSpace(s[0]) then Tokens(s[1..])
    else
      var w := Word(s);
      assert w[0] == s[0];
      [w] + Tokens(s[|w|..])
  }

  /** Joins tokens with single blanks: a line that `split()` reads back. */
  function Unsplit(ts: seq<string>): string {
    if ts == [] then "" else if |ts| == 1 then ts[0] else ts[0] + " " + Unsplit(ts[1..])
  }

  lemma {:induction false} WordBeforeSpace(a: string, c: char, b: string)
    requires IsSpace(c)
    ensures Word(a + [c] + b) == Word(a)
  {
    if a == [] {
    } else if IsSpace(a[0]) {
      assert (a + [c] + b)[0] == a[0];
    } else {
      assert (a + [c] + b)[1..] == a[1..] + [c] + b;
      WordBeforeSpace(a[1..], c, b);
    }
  }

  /** A separator splits the tokens of a string into those before and after it. */
  lemma {:induction false} TokensAroundSpace(a: string, c: char, b: string)
    requires IsSpace(c)
    ensures Tokens(a + [c] + b) == Tokens(a) + Tokens(b)
    decreases |a|
  {
    var s := a + [c] + b;
    if a == [] {
      assert s[1..] == b;
    } else if IsSpace(a[0]) {
      assert s[1..] == a[1..] + [c] + b;
      TokensAroundSpace(a[1..], c, b);
    } else {
      WordBeforeSpace(a, c, b);
      var w := Word(a);
      assert |w| >= 1 by { assert w[0] == s[0]; }
      assert s[|w|..] == a[|w|..] + [c] + b;
      TokensAroundSpace(a[|w|..], c, b);
    }
  }

  lemma TokensOfToken(t: string)
    requires IsToken(t)
    ensures Tokens(t) == [t]
  {
    var w := Word(t);
    assert |w| == |t| by {
      if |w| < |t| { assert false; }
    }
    assert w == t;
    assert !IsSpace(t[0]);
    assert t[|w|..] == [];
  }

  /** `split()` reads back exactly the tokens `Unsplit` joined. */
  lemma {:induction false} TokensOfUnsplit(ts: seq<string>)
    requires forall i :: 0 <= i < |ts| ==> IsToken(ts[i])
    ensures Tokens(Unsplit(ts)) == ts
  {
    if ts == [] {
    } else if |ts| == 1 {
      TokensOfToken(ts[0]);
    } else {
      TokensOfUnsplit(ts[1..]);
      TokensOfToken(ts[0]);
      TokensAroundSpace(ts[0], ' ', Unsplit(ts[1..]));
      assert ts[0] + " " + Unsplit(ts[1..]) == ts[0] + [' '] + Unsplit(ts[1..]);
      assert [ts[0]] + ts[1..] == ts;
    }
  }

  /** A trailing separator (a line's newline) does not change `split()`. */
  lemma TokensTrailingSpace(a: string, c: char)
    requires IsSpace(c)
    ensures Tokens(a + [c]) == Tokens(a)
  {
    TokensAroundSpace(a, c, "");
    assert a + [c] + "" == a + [c];
  }

  /** `s.startswith(p)`, and also `s[:len(p)] == p`. */
  predicate StartsWith(s: string, p: string) {
    |p| <= |s| && s[..|p|] == p
  }

  /** Python's `sub in s`. */
  predicate Contains(s: string, sub: string)
    decreases |s|
  {
    StartsWith(s, sub) || (s != [] && Contains(s[1..], sub))
  }

  predicate IsDigit(c: char) {
    '0' <= c <= '9'
  }

  predicate IsNumeral(s: string) {
    |s| > 0 && forall i :: 0 <= i < |s| ==> IsDigit(s[i])
  }

  function DigitChar(d: nat): (c: char)
    requires d < 10
    ensures IsDigit(c)
  {
    "0123456789"[d]
  }

  function DigitValue(c: char): nat
    requires IsDigit(c)
  {
    c as int - '0' as int
  }

  /** Python's `str(n)` for a non-negative integer. */
  function NatToString(n: nat): (s: string)
    ensures IsNumeral(s)
  {
    if n < 10 then [DigitChar(n)] else NatToString(n / 10) + [DigitChar(n % 10)]
  }

  /** The value of a run of decimal digits. */
  function NumeralValue(s: string): nat
    requires forall i :: 0 <= i < |s| ==> IsDigit(s[i])
  {
    if s == [] then 0 else NumeralValue(s[..|s| - 1]) * 10 + DigitValue(s[|s| - 1])
  }

  lemma {:induction false} NatToStringRoundTrip(n: nat)
    ensures NumeralValue(NatToString(n)) == n
  {
    if n >= 10 {
      NatToStringRoundTrip(n / 10);
      var s := NatToString(n);
      assert s[..|s| - 1] == NatToString(n / 10);
    }
  }

  /** Python's `str(i)` for any integer. */
  function IntToString(i: int): (s: string)
    ensures |s| > 0
  {
    if i < 0 then "-" + NatToString(-i) else NatToString(i)
  }

  /** Python's `int(s)` restricted to the numerals `str` writes. */
  function IntValue(s: string): Option<int> {
    if |s| > 1 && s[0] == '-' && IsNumeral(s[1..]) then Some(0 - NumeralValue(s[1..]) as int)
    else if IsNumeral(s) then Some(NumeralValue(s))
    else None
  }

  lemma IntToStringRoundTrip(i: int)
    ensures IntValue(IntToString(i)) == Some(i)
  {
    if i < 0 {
      NatToStringRoundTrip(-i);
      assert IntToString(i)[1..] == NatToString(-i);
    } else {
      NatToStringRoundTrip(i);
      assert IntToString(i)[0] != '-';
    }
  }

  /** Different integers are written differently. */
  lemma IntToStringInjective(i: int, j: int)
    requires IntToString(i) == IntToString(j)
    ensures i == j
  {
    IntToStringRoundTrip(i);
    IntToStringRoundTrip(j);
  }
}
