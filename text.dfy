/**
 * The Python string operations the watchdog relies on: `strip`, `find`, slicing, `int(...)`,
 * `str(int)`, `str(list)`, `lower` and the ordering `<` on strings.
 */
module Text {
  import opened Wrappers

  /** `c.isspace()` for one character. */
  predicate IsSpace(c: char)
  {
    || c == ' '
    || ('\t' <= c <= '\r')
    || ('\U{1C}' <= c <= '\U{1F}')
    || c == '\U{85}' || c == '\U{A0}' || c == '\U{1680}'
    || ('\U{2000}' <= c <= '\U{200A}')
    || c == '\U{2028}' || c == '\U{2029}' || c == '\U{202F}' || c == '\U{205F}' || c == '\U{3000}'
  }

  /** `s.lstrip()` */
  function TrimStart(s: string): (r: string)
    ensures r == [] || !IsSpace(r[0])
    ensures |r| <= |s|
  {
    if |s| > 0 && IsSpace(s[0]) then TrimStart(s[1..]) else s
  }

  /** `lstrip` keeps a suffix. */
  lemma {:induction false} TrimStartSuffix(s: string)
    ensures TrimStart(s) == s[|s| - |TrimStart(s)|..]
    decreases |s|
  {
    if |s| > 0 && IsSpace(s[0]) {
      TrimStartSuffix(s[1..]);
    }
  }

  /** `s.rstrip()` */
  function TrimEnd(s: string): (r: string)
    ensures r == [] || !IsSpace(r[|r| - 1])
    ensures |r| <= |s|
  {
    if |s| > 0 && IsSpace(s[|s| - 1]) then TrimEnd(s[..|s| - 1]) else s
  }

  /** `rstrip` keeps a prefix. */
  lemma {:induction false} TrimEndPrefix(s: string)
    ensures TrimEnd(s) == s[..|TrimEnd(s)|]
    decreases |s|
  {
    if |s| > 0 && IsSpace(s[|s| - 1]) {
      TrimEndPrefix(s[..|s| - 1]);
    }
  }

  /** `s.strip()` */
  function Strip(s: string): string
  {
    TrimEnd(TrimStart(s))
  }

  /** Stripping twice is stripping once. */
  lemma StripIdempotent(s: string)
    ensures Strip(Strip(s)) == Strip(s)
  {
    var t := TrimStart(s);
    var x := TrimEnd(t);
    TrimEndPrefix(t);
    assert x == [] || x[0] == t[0];
    assert TrimStart(x) == x;
  }

  /** `strip()` keeps only characters of the string it strips. */
  lemma StripInside(s: string)
    ensures forall c :: c in Strip(s) ==> c in s
  {
    var t := TrimStart(s);
    TrimStartSuffix(s);
    TrimEndPrefix(t);
    assert forall c :: c in TrimEnd(t) ==> c in t;
  }

  /** A string that neither starts nor ends with white space is its own `strip()`. */
  lemma StripUnchanged(s: string)
    requires s == [] || (!IsSpace(s[0]) && !IsSpace(s[|s| - 1]))
    ensures Strip(s) == s
  {
  }

  /** `s.find(c)`: the index of the first `c` in `s`, or -1 when there is none. */
  function Find(s: string, c: char): (i: int)
    ensures -1 <= i < |s|
    ensures i == -1 <==> c !in s
    ensures 0 <= i ==> s[i] == c && c !in s[..i]
  {
    if |s| == 0 then -1
    else if s[0] == c then 0
    else
      var j := Find(s[1..], c);
      if j == -1 then -1
      else
        assert s[..j + 1] == [s[0]] + s[1..][..j];
        j + 1
  }

  /** `s[:i]` for a non-negative `i`: slicing past the end stops at the end. */
  function Prefix(s: string, i: nat): (r: string)
  {
    if i <= |s| then s[..i] else s
  }

  predicate IsDigit(c: char)
  {
    '0' <= c <= '9'
  }

  predicate AllDigits(s: string)
  {
    forall i :: 0 <= i < |s| ==> IsDigit(s[i])
  }

  function DigitValue(c: char): nat
    requires IsDigit(c)
  {
    c as int - '0' as int
  }

  /** The value of a string of decimal digits. */
  function DigitsValue(s: string): nat
    requires AllDigits(s)
    decreases |s|
  {
    if |s| == 0 then 0 else DigitsValue(s[..|s| - 1]) * 10 + DigitValue(s[|s| - 1])
  }

  /**
   * `int(s)` for a str: optional surrounding white space, an optional sign and one or more
   * decimal digits. None is where Python raises ValueError.
   */
  function PyInt(s: string): Option<int>
  {
    var t := Strip(s);
    if |t| > 0 && (t[0] == '+' || t[0] == '-') then
      if |t| > 1 && AllDigits(t[1..]) then
        Some(if t[0] == '-' then -(DigitsValue(t[1..]) as int) else DigitsValue(t[1..]) as int)
      else None
    else if |t| > 0 && AllDigits(t) then Some(DigitsValue(t))
    else None
  }

  function DigitChar(d: nat): (c: char)
    requires d < 10
    ensures IsDigit(c) && DigitValue(c) == d
  {
    ('0' as int + d) as char
  }

  /** `str(n)` for a non-negative int: its decimal digits, most significant first. */
  function NatText(n: nat): (r: string)
    ensures |r| > 0 && AllDigits(r)
  {
    if n < 10 then [DigitChar(n)] else NatText(n / 10) + [DigitChar(n % 10)]
  }

  /** Reading back the digits of `str(n)` gives `n`. */
  lemma {:induction false} NatTextValue(n: nat)
    ensures DigitsValue(NatText(n)) == n
  {
    if n >= 10 {
      NatTextValue(n / 10);
      var r := NatText(n);
      assert r[..|r| - 1] == NatText(n / 10);
    }
  }

  /** `str(n)` for any int. */
  function IntText(n: int): string
  {
    if n < 0 then "-" + NatText(-n) else NatText(n)
  }

  /** `int(str(n)) == n`. */
  lemma IntTextParses(n: int)
    ensures PyInt(IntText(n)) == Some(n)
  {
    if n < 0 {
      NatTextValue(-n);
      NegDigitsParse(NatText(-n), -n);
    } else {
      NatTextValue(n);
      DigitsParse(NatText(n), n);
    }
  }

  /** A non-empty string of digits parses to its value `v`. */
  lemma DigitsParse(r: string, v: nat)
    requires |r| > 0 && AllDigits(r) && DigitsValue(r) == v
    ensures PyInt(r) == Some(v)
  {
    assert IsDigit(r[0]) && IsDigit(r[|r| - 1]);
    StripUnchanged(r);
  }

  /** A minus sign before a non-empty string of digits of value `v` parses to `-v`. */
  lemma NegDigitsParse(r: string, v: nat)
    requires |r| > 0 && AllDigits(r) && DigitsValue(r) == v
    ensures PyInt("-" + r) == Some(-(v as int))
  {
    var t := "-" + r;
    assert t[0] == '-' && t[1..] == r;
    assert t[|t| - 1] == r[|r| - 1] && IsDigit(r[|r| - 1]);
    StripUnchanged(t);
    assert |t| > 1 && AllDigits(t[1..]) && DigitsValue(t[1..]) == v;
  }

  /** `str(n)` is made of digits and a minus sign only. */
  lemma IntTextChars(n: int, c: char)
    requires c in IntText(n)
    ensures IsDigit(c) || c == '-'
  {
    var r := IntText(n);
    var i :| 0 <= i < |r| && r[i] == c;
    if n < 0 && i > 0 {
      assert r[i] == NatText(-n)[i - 1];
    }
  }

  /** Python's `a < b` on str: lexicographic comparison of code points. */
  predicate LexLess(a: string, b: string)
    decreases |a|
  {
    if |a| == 0 then |b| > 0
    else |b| > 0 && (a[0] < b[0] || (a[0] == b[0] && LexLess(a[1..], b[1..])))
  }

  lemma {:induction false} LexIrreflexive(a: string)
    ensures !LexLess(a, a)
  {
    if |a| > 0 {
      LexIrreflexive(a[1..]);
    }
  }

  lemma {:induction false} LexTransitive(a: string, b: string, c: string)
    requires LexLess(a, b) && LexLess(b, c)
    ensures LexLess(a, c)
  {
    if |a| > 0 && a[0] == b[0] && b[0] == c[0] {
      LexTransitive(a[1..], b[1..], c[1..]);
    }
  }

  lemma {:induction false} LexTotal(a: string, b: string)
    ensures a == b || LexLess(a, b) || LexLess(b, a)
  {
    if |a| > 0 && |b| > 0 && a[0] == b[0] {
      LexTotal(a[1..], b[1..]);
      if a[1..] == b[1..] {
        assert a == [a[0]] + a[1..] && b == [b[0]] + b[1..];
      }
    }
  }

  lemma LexAsymmetric(a: string, b: string)
    requires LexLess(a, b)
    ensures !LexLess(b, a)
  {
    if LexLess(b, a) {
      LexTransitive(a, b, a);
      LexIrreflexive(a);
    }
  }

  /** `s.lower()` on the ASCII letters (other characters are kept as they are). */
  function LowerChar(c: char): char
  {
    if 'A' <= c <= 'Z' then (c as int + 32) as char else c
  }

  function Lower(s: string): (r: string)
    ensures |r| == |s| && forall i :: 0 <= i < |s| ==> r[i] == LowerChar(s[i])
  {
    seq(|s|, i requires 0 <= i < |s| => LowerChar(s[i]))
  }

  /** `str(s)` inside a list rendering: the item between single quotes. */
  function Quoted(s: string): string
  {
    "'" + s + "'"
  }

  function JoinQuoted(xs: seq<string>): string
  {
    if |xs| == 0 then ""
    else if |xs| == 1 then Quoted(xs[0])
    else Quoted(xs[0]) + ", " + JoinQuoted(xs[1..])
  }

  /** `str(xs)` for a list of strings, e.g. `['a', 'b']`. */
  function ListText(xs: seq<string>): string
  {
    "[" + JoinQuoted(xs) + "]"
  }

  /** `str(b)` for a bool. */
  function BoolText(b: bool): string
  {
    if b then "True" else "False"
  }

  /** `f"{x}"` for a value that is a str or None. */
  function OptionText(x: Option<string>): string
  {
    match x
    case None => "None"
    case Some(s) => s
  }
}
