/** The string primitives the grid designer relies on: `String.prototype.trim`,
    `parseInt(s, 10)`, `Number(s)` on decimal strings, template-literal
    rendering of integers, `split` on one character and `includes`. */
module Text {
  import opened Wrappers

  /** ECMAScript WhiteSpace and LineTerminator code points: what `trim`
      removes and what `parseInt` skips before the number. */
  predicate IsWhitespace(ch: char) {
    || ch == '\t' || ch == '\U{B}' || ch == '\U{C}' || ch == ' '
    || ch == '\U{A0}' || ch == '\U{FEFF}'
    || ch == '\n' || ch == '\r' || ch == '\U{2028}' || ch == '\U{2029}'
    || ch == '\U{1680}' || ('\U{2000}' <= ch <= '\U{200A}')
    || ch == '\U{202F}' || ch == '\U{205F}' || ch == '\U{3000}'
  }

  predicate AllWhitespace(s: string) {
    forall i :: 0 <= i < |s| ==> IsWhitespace(s[i])
  }

  /** Drops the longest all-whitespace prefix. */
  function TrimStart(s: string): (r: string)
    ensures |r| <= |s| && r == s[|s| - |r|..]
    ensures AllWhitespace(s[..|s| - |r|])
    ensures r == [] || !IsWhitespace(r[0])
  {
    if s != [] && IsWhitespace(s[0]) then
      var r := TrimStart(s[1..]);
      assert s[1..][..|s[1..]| - |r|] == s[1..|s| - |r|];
      r
    else s
  }

  /** Drops the longest all-whitespace suffix. */
  function TrimEnd(s: string): (r: string)
    ensures |r| <= |s| && r == s[..|r|]
    ensures AllWhitespace(s[|r|..])
    ensures r == [] || !IsWhitespace(r[|r| - 1])
  {
    if s != [] && IsWhitespace(s[|s| - 1]) then
      var r := TrimEnd(s[..|s| - 1]);
      assert forall j :: 0 <= j < |s| - 1 - |r| ==> s[..|s| - 1][|r|..][j] == s[|r|..][j];
      r
    else s
  }

  /** `s.trim()`: the slice of `s` left after removing whitespace at both ends. */
  function Trim(s: string): (r: string)
    ensures exists a, b :: TrimmedTo(s, r, a, b)
    ensures r == [] || (!IsWhitespace(r[0]) && !IsWhitespace(r[|r| - 1]))
  {
    var t := TrimStart(s);
    var r := TrimEnd(t);
    TrimSlices(s, t, r);
    r
  }

  /** Cutting a whitespace prefix and then a whitespace suffix leaves a
      middle slice of `s` with no whitespace at either end. */
  lemma TrimSlices(s: string, t: string, r: string)
    requires |t| <= |s| && t == s[|s| - |t|..] && AllWhitespace(s[..|s| - |t|])
    requires t == [] || !IsWhitespace(t[0])
    requires |r| <= |t| && r == t[..|r|] && AllWhitespace(t[|r|..])
    requires r == [] || !IsWhitespace(r[|r| - 1])
    ensures TrimmedTo(s, r, |s| - |t|, |s| - |t| + |r|)
    ensures r == [] || (!IsWhitespace(r[0]) && !IsWhitespace(r[|r| - 1]))
  {
    var a := |s| - |t|;
    assert forall j :: 0 <= j < |t| ==> t[j] == s[a + j];
    assert forall j :: 0 <= j < |r| ==> r[j] == t[j];
    assert r == s[a..a + |r|];
    assert s[a + |r|..] == t[|r|..];
  }

  /** `r` is the slice `s[a..b]` and everything outside it is whitespace. */
  ghost predicate TrimmedTo(s: string, r: string, a: int, b: int) {
    0 <= a <= b <= |s| && r == s[a..b] && AllWhitespace(s[..a]) && AllWhitespace(s[b..])
  }

  /** `!s.trim()` holds exactly for the strings made only of whitespace. */
  lemma TrimEmptyIffWhitespace(s: string)
    ensures Trim(s) == [] <==> AllWhitespace(s)
  {
    var r := Trim(s);
    var a, b :| TrimmedTo(s, r, a, b);
    assert r != [] ==> r[0] == s[a];
    forall i | 0 <= i < |s|
      ensures r == [] ==> IsWhitespace(s[i])
    {
      if i < a {
        assert s[..a][i] == s[i];
      } else if i >= b {
        assert s[b..][i - b] == s[i];
      }
    }
  }

  // ----- decimal digits -----

  predicate IsDigit(ch: char) {
    '0' <= ch <= '9'
  }

  predicate AllDigits(s: string) {
    forall i :: 0 <= i < |s| ==> IsDigit(s[i])
  }

  function DigitChar(d: nat): (ch: char)
    requires d < 10
    ensures IsDigit(ch) && ch as int - '0' as int == d
  {
    ('0' as int + d) as char
  }

  function DigitValue(ch: char): (d: nat)
    requires IsDigit(ch)
    ensures d < 10 && DigitChar(d) == ch
  {
    (ch as int - '0' as int) as nat
  }

  /** The value of a string of decimal digits (the empty string has value 0). */
  function DigitsValue(s: string): nat
    requires AllDigits(s)
  {
    if s == [] then 0 else DigitsValue(s[..|s| - 1]) * 10 + DigitValue(s[|s| - 1])
  }

  /** A natural number rendered in decimal, as `${n}` does. */
  function NatToString(n: nat): (s: string)
    ensures s != [] && AllDigits(s)
    ensures ',' !in s && '-' !in s
  {
    if n < 10 then [DigitChar(n)] else NatToString(n / 10) + [DigitChar(n % 10)]
  }

  /** An integer rendered in decimal, as `${i}` does for integral numbers. */
  function IntToString(i: int): (s: string)
    ensures s != [] && ',' !in s
  {
    if i < 0 then "-" + NatToString(-i) else NatToString(i)
  }

  lemma {:induction false} NatToStringValue(n: nat)
    ensures DigitsValue(NatToString(n)) == n
  {
    if n >= 10 {
      var s, p, last := NatToString(n), NatToString(n / 10), DigitChar(n % 10);
      assert s == p + [last];
      assert s[..|s| - 1] == p && s[|s| - 1] == last;
      NatToStringValue(n / 10);
      assert DigitValue(last) == n % 10;
    }
  }

  /** `Number(s)` restricted to the strings `-`? digit+, the only ones the
      shape editor ever decodes; `None` stands for every other string. */
  function ParseDecimal(s: string): Option<int> {
    if |s| > 1 && s[0] == '-' && AllDigits(s[1..]) then Some(-(DigitsValue(s[1..]) as int))
    else if s != [] && AllDigits(s) then Some(DigitsValue(s))
    else None
  }

  lemma IntToStringRoundTrip(i: int)
    ensures ParseDecimal(IntToString(i)) == Some(i)
  {
    if i < 0 {
      NegativeDecimal(-i);
    } else {
      NonNegativeDecimal(i);
    }
  }

  lemma NegativeDecimal(m: nat)
    requires m > 0
    ensures ParseDecimal("-" + NatToString(m)) == Some(-(m as int))
  {
    var d := NatToString(m);
    var s := "-" + d;
    assert |s| > 1 && s[0] == '-' && s[1..] == d;
    NatToStringValue(m);
  }

  lemma NonNegativeDecimal(n: nat)
    ensures ParseDecimal(NatToString(n)) == Some(n)
  {
    var d := NatToString(n);
    assert IsDigit(d[0]);
    NatToStringValue(n);
  }

  /** The longest prefix of `s` made of decimal digits. */
  function DigitPrefix(s: string): (r: string)
    ensures |r| <= |s| && r == s[..|r|] && AllDigits(r)
    ensures |r| == |s| || !IsDigit(s[|r|])
  {
    if s != [] && IsDigit(s[0]) then
      var r := DigitPrefix(s[1..]);
      assert [s[0]] + r == s[..|r| + 1];
      [s[0]] + r
    else []
  }

  /** `parseInt(s, 10)`: skip leading whitespace, read an optional sign and the
      longest run of digits; `None` is `NaN` (no digit after the sign). */
  function ParseInt(s: string): Option<int> {
    ParseSigned(TrimStart(s))
  }

  /** The part of `parseInt` after the leading whitespace. */
  function ParseSigned(t: string): Option<int> {
    if t != [] && t[0] == '-' then
      var digits := DigitPrefix(t[1..]);
      if digits == [] then None else Some(-(DigitsValue(digits) as int))
    else
      var digits := DigitPrefix(if t != [] && t[0] == '+' then t[1..] else t);
      if digits == [] then None else Some(DigitsValue(digits))
  }

  lemma DigitPrefixOfDigits(d: string, tail: string)
    requires AllDigits(d)
    requires tail == [] || !IsDigit(tail[0])
    ensures DigitPrefix(d + tail) == d
  {
    var s := d + tail;
    assert forall i :: 0 <= i < |d| ==> s[i] == d[i];
    assert tail != [] ==> s[|d|] == tail[0];
    assert s[..|d|] == d;
  }

  lemma TrimStartOfPadded(ws: string, t: string)
    requires AllWhitespace(ws)
    requires t == [] || !IsWhitespace(t[0])
    ensures TrimStart(ws + t) == t
  {
    var s := ws + t;
    assert forall i :: 0 <= i < |ws| ==> s[i] == ws[i];
    assert t != [] ==> s[|ws|] == t[0];
    assert s[|ws|..] == t;
  }

  /** The number typed into a settings field reads back as itself, whatever
      whitespace precedes it and whatever non-digit text follows it. */
  lemma ParseIntOfRendered(ws: string, n: int, tail: string)
    requires AllWhitespace(ws)
    requires tail == [] || !IsDigit(tail[0])
    ensures ParseInt(ws + IntToString(n) + tail) == Some(n)
  {
    var t := IntToString(n) + tail;
    assert ws + IntToString(n) + tail == ws + t;
    TrimStartOfPadded(ws, t);
    ParseSignedOfRendered(n, tail);
  }

  lemma ParseSignedOfRendered(n: int, tail: string)
    requires tail == [] || !IsDigit(tail[0])
    ensures ParseSigned(IntToString(n) + tail) == Some(n)
  {
    if n < 0 {
      NegativeRendered(-n, tail);
    } else {
      NonNegativeRendered(n, tail);
    }
  }

  lemma NegativeRendered(m: nat, tail: string)
    requires m > 0
    requires tail == [] || !IsDigit(tail[0])
    ensures ParseSigned("-" + NatToString(m) + tail) == Some(-(m as int))
  {
    var digits := NatToString(m);
    NatToStringValue(m);
    DigitPrefixOfDigits(digits, tail);
    var t := "-" + digits + tail;
    assert t[0] == '-' && t[1..] == digits + tail;
    assert ParseSigned(t) == Some(-(DigitsValue(digits) as int));
  }

  lemma NonNegativeRendered(n: nat, tail: string)
    requires tail == [] || !IsDigit(tail[0])
    ensures ParseSigned(NatToString(n) + tail) == Some(n)
  {
    var digits := NatToString(n);
    var t := digits + tail;
    assert t[0] == digits[0];
    assert IsDigit(t[0]);
    DigitPrefixOfDigits(digits, tail);
    NatToStringValue(n);
  }

  /** The text without a digit after the optional whitespace and sign is `NaN`. */
  lemma ParseIntOfNonNumeric(ws: string, tail: string)
    requires AllWhitespace(ws)
    requires tail == [] || (!IsDigit(tail[0]) && !IsWhitespace(tail[0]) && tail[0] != '-' && tail[0] != '+')
    ensures ParseInt(ws + tail) == None
  {
    TrimStartOfPadded(ws, tail);
  }

  // ----- split and includes -----

  /** `s.split(sep)` for a one-character separator. */
  function Split(s: string, sep: char): (parts: seq<string>)
    ensures |parts| >= 1
    decreases |s|
  {
    if sep !in s then [s]
    else
      var i := IndexOf(s, sep);
      [s[..i]] + Split(s[i + 1..], sep)
  }

  function IndexOf(s: string, ch: char): (i: nat)
    requires ch in s
    ensures i < |s| && s[i] == ch && ch !in s[..i]
  {
    if s[0] == ch then 0 else 1 + IndexOf(s[1..], ch)
  }

  lemma SplitTwo(a: string, b: string, sep: char)
    requires sep !in a && sep !in b
    ensures Split(a + [sep] + b, sep) == [a, b]
  {
    var s := a + [sep] + b;
    assert s[|a|] == sep;
    assert forall i :: 0 <= i < |a| ==> s[i] == a[i];
    assert s[..|a|] == a;
    assert s[|a| + 1..] == b;
  }

  /** `s.includes(t)` as the definition: `t` occurs somewhere in `s`. */
  ghost predicate Occurs(t: string, s: string) {
    exists i :: OccursAt(t, s, i)
  }

  ghost predicate OccursAt(t: string, s: string, i: int) {
    0 <= i <= |s| - |t| && s[i..i + |t|] == t
  }

  /** `s.includes(t)` as the search the runtime carries out. */
  function Includes(s: string, t: string): (b: bool)
    ensures b <==> Occurs(t, s)
    decreases |s|
  {
    if |s| < |t| then false
    else if s[..|t|] == t then assert OccursAt(t, s, 0); true
    else
      var b := Includes(s[1..], t);
      OccursInTail(s, t);
      b
  }

  lemma OccursInTail(s: string, t: string)
    requires |s| >= |t| && s[..|t|] != t
    ensures Occurs(t, s) <==> Occurs(t, s[1..])
  {
    if Occurs(t, s) {
      var i :| OccursAt(t, s, i);
      assert i != 0;
      assert s[1..][i - 1..i - 1 + |t|] == t;
      assert OccursAt(t, s[1..], i - 1);
    }
    if Occurs(t, s[1..]) {
      var i :| OccursAt(t, s[1..], i);
      assert s[i + 1..i + 1 + |t|] == t;
      assert OccursAt(t, s, i + 1);
    }
  }
}
