/**
 * The JavaScript string primitives the application relies on: the white-space
 * class shared by the regular-expression escape `\s` and `String.prototype.trim`,
 * `trim`, `split` on one character, decimal `String(n)` for integers and a
 * base-10 `parseInt`.
 */
module JsStrings {
  import opened Wrappers

  /** The characters matched by `\s` and removed by `trim` (ECMAScript WhiteSpace and LineTerminator). */
  predicate IsJsSpace(c: char) {
    c == '\t' || c == '\n' || c == '\U{000B}' || c == '\U{000C}' || c == '\r' || c == ' ' ||
    c == '\U{00A0}' || c == '\U{1680}' || ('\U{2000}' <= c <= '\U{200A}') ||
    c == '\U{2028}' || c == '\U{2029}' || c == '\U{202F}' || c == '\U{205F}' ||
    c == '\U{3000}' || c == '\U{FEFF}'
  }

  predicate NoJsSpace(s: string) {
    forall i :: 0 <= i < |s| ==> !IsJsSpace(s[i])
  }

  /** Drops the leading white space. */
  function TrimStart(s: string): (r: string)
    ensures |r| <= |s| && r == s[|s| - |r|..]
    ensures forall i :: 0 <= i < |s| - |r| ==> IsJsSpace(s[i])
    ensures r == [] || !IsJsSpace(r[0])
  {
    if |s| > 0 && IsJsSpace(s[0]) then TrimStart(s[1..]) else s
  }

  /** Drops the trailing white space. */
  function TrimEnd(s: string): (r: string)
    ensures |r| <= |s| && r == s[..|r|]
    ensures forall i :: |r| <= i < |s| ==> IsJsSpace(s[i])
    ensures r == [] || !IsJsSpace(r[|r| - 1])
  {
    if |s| > 0 && IsJsSpace(s[|s| - 1]) then TrimEnd(s[..|s| - 1]) else s
  }

  /** `s.trim()`: white space removed at both ends. */
  function Trim(s: string): (r: string)
    ensures |r| <= |s|
    ensures r == [] || (!IsJsSpace(r[0]) && !IsJsSpace(r[|r| - 1]))
  {
    TrimEnd(TrimStart(s))
  }

  predicate AllJsSpace(s: string) {
    forall i :: 0 <= i < |s| ==> IsJsSpace(s[i])
  }

  /** Leading white space in front of a string that starts otherwise is what `TrimStart` drops. */
  lemma {:induction false} TrimStartPadded(left: string, u: string)
    requires AllJsSpace(left) && (u == [] || !IsJsSpace(u[0]))
    ensures TrimStart(left + u) == u
  {
    if left != [] {
      assert (left + u)[0] == left[0];
      assert (left + u)[1..] == left[1..] + u;
      TrimStartPadded(left[1..], u);
    } else {
      assert left + u == u;
    }
  }

  /** Trailing white space after a string that ends otherwise is what `TrimEnd` drops. */
  lemma {:induction false} TrimEndPadded(u: string, right: string)
    requires AllJsSpace(right) && (u == [] || !IsJsSpace(u[|u| - 1]))
    ensures TrimEnd(u + right) == u
  {
    if right != [] {
      var s := u + right;
      var shorter := right[..|right| - 1];
      assert s[|s| - 1] == right[|right| - 1];
      assert s[..|s| - 1] == u + shorter;
      TrimEndPadded(u, shorter);
    } else {
      assert u + right == u;
    }
  }

  /** `trim` removes exactly the white space around a non-empty string without any. */
  lemma TrimPadded(left: string, t: string, right: string)
    requires AllJsSpace(left) && AllJsSpace(right) && t != [] && NoJsSpace(t)
    ensures Trim(left + t + right) == t
  {
    assert !IsJsSpace(t[0]) && !IsJsSpace(t[|t| - 1]);
    TrimStartPadded(left, t + right);
    assert left + t + right == left + (t + right);
    TrimEndPadded(t, right);
  }

  lemma TrimWithoutSpace(s: string)
    requires NoJsSpace(s)
    ensures Trim(s) == s
  {
    assert TrimStart(s) == s;
  }

  predicate IsDigit(c: char) {
    '0' <= c <= '9'
  }

  predicate AllDigits(s: string) {
    forall i :: 0 <= i < |s| ==> IsDigit(s[i])
  }

  function DigitChar(d: nat): (c: char)
    requires d < 10
    ensures IsDigit(c) && (c as int) - ('0' as int) == d
  {
    ((('0' as int) + d) as char)
  }

  /** The value of a string of decimal digits, most significant first. */
  function DigitsValue(s: string): (r: nat)
    requires AllDigits(s)
  {
    if s == [] then 0
    else DigitsValue(s[..|s| - 1]) * 10 + ((s[|s| - 1] as int) - ('0' as int))
  }

  /** `String(n)` for a non-negative integer: its shortest decimal numeral. */
  function NatToString(n: nat): (r: string)
    ensures |r| > 0 && AllDigits(r)
    ensures |r| > 1 ==> r[0] != '0'
    ensures DigitsValue(r) == n
  {
    if n < 10 then [DigitChar(n)]
    else
      var p := NatToString(n / 10);
      var r := p + [DigitChar(n % 10)];
      assert r[..|r| - 1] == p;
      r
  }

  /** `String(i)` for an integer: a minus sign before the numeral of a negative value. */
  function IntToString(i: int): (r: string)
    ensures i < 0 <==> (|r| > 0 && r[0] == '-')
  {
    if i < 0 then "-" + NatToString(-i) else NatToString(i)
  }

  /** The longest prefix of `s` made of decimal digits. */
  function DigitPrefix(s: string): (r: string)
    ensures AllDigits(r) && |r| <= |s| && r == s[..|r|]
    ensures |r| < |s| ==> !IsDigit(s[|r|])
  {
    if s != [] && IsDigit(s[0]) then [s[0]] + DigitPrefix(s[1..]) else []
  }

  /**
   * `parseInt(s)` with the default radix on strings without a hexadecimal
   * prefix: leading white space is skipped, one sign is accepted, and the
   * longest run of digits that follows is read; without a digit the result is
   * NaN, written `None`.
   */
  function ParseInt(s: string): (r: Option<int>)
    ensures r.None? <==> DigitPrefix(if TrimStart(s) != [] && TrimStart(s)[0] in "+-" then TrimStart(s)[1..] else TrimStart(s)) == []
  {
    var t := TrimStart(s);
    if t != [] && t[0] in "+-" then
      var d := DigitPrefix(t[1..]);
      if d == [] then None
      else if t[0] == '-' then Some(-(DigitsValue(d) as int)) else Some(DigitsValue(d))
    else
      var d := DigitPrefix(t);
      if d == [] then None else Some(DigitsValue(d))
  }

  lemma DigitPrefixOfDigits(s: string)
    requires AllDigits(s)
    ensures DigitPrefix(s) == s
  {
  }

  /** A string that starts with a digit or a minus sign has no leading white space. */
  lemma TrimStartOfNumeral(s: string)
    requires s != [] && (IsDigit(s[0]) || s[0] == '-')
    ensures TrimStart(s) == s
  {
    assert !IsJsSpace(s[0]);
  }

  /** `parseInt(String(i)) === i`: printing an integer and parsing it back is the identity. */
  lemma ParseIntOfIntToString(i: int)
    ensures ParseInt(IntToString(i)) == Some(i)
  {
    var s := IntToString(i);
    var n := NatToString(if i < 0 then -i else i);
    TrimStartOfNumeral(s);
    DigitPrefixOfDigits(n);
    if i < 0 {
      assert s[1..] == n;
    } else {
      assert s == n && s[0] !in "+-";
    }
  }

  /** The empty string parses to NaN. */
  lemma ParseIntOfEmpty()
    ensures ParseInt("") == None
  {
  }

  /** `s.split(sep)` for a one-character separator: the pieces between separators, in order. */
  function Split(s: string, sep: char): (r: seq<string>)
    ensures |r| >= 1
    ensures forall i :: 0 <= i < |r| ==> sep !in r[i]
  {
    if s == [] then [""]
    else
      var rest := Split(s[1..], sep);
      if s[0] == sep then [""] + rest
      else [[s[0]] + rest[0]] + rest[1..]
  }

  lemma {:induction false} SplitWithoutSeparator(s: string, sep: char)
    requires sep !in s
    ensures Split(s, sep) == [s]
  {
    if s != [] {
      SplitWithoutSeparator(s[1..], sep);
      assert [s[0]] + s[1..] == s;
    }
  }

  /** Splitting `a + [sep] + b`, where `a` has no separator, gives `a` followed by the pieces of `b`. */
  lemma {:induction false} SplitAtFirstSeparator(a: string, sep: char, b: string)
    requires sep !in a
    ensures Split(a + [sep] + b, sep) == [a] + Split(b, sep)
  {
    if a == [] {
      assert a + [sep] + b == [sep] + b;
      assert ([sep] + b)[1..] == b;
    } else {
      var s := a + [sep] + b;
      assert s[0] == a[0] && s[1..] == a[1..] + [sep] + b;
      SplitAtFirstSeparator(a[1..], sep, b);
      assert [a[0]] + a[1..] == a;
    }
  }

  /** Splitting past two leading pieces that have no separator. */
  lemma SplitPastTwo(a: string, b: string, sep: char, rest: string)
    requires sep !in a && sep !in b
    ensures Split(a + [sep] + (b + [sep] + rest), sep) == [a, b] + Split(rest, sep)
  {
    SplitAtFirstSeparator(b, sep, rest);
    SplitAtFirstSeparator(a, sep, b + [sep] + rest);
  }
}
