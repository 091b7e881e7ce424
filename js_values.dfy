/**
 * Spreadsheet cell values as JavaScript sees them, with the three coercions the
 * application applies to them: truthiness (`!x`, `x || d`), `String(x)` and
 * `Number(x)`.
 */
module JsValues {
  import opened Wrappers
  import opened JsStrings

  /** A cell as the spreadsheet reader delivers it; numbers are integers in this model. */
  datatype Cell = Str(s: string) | Num(n: int) | Null | Undef

  /** JavaScript truthiness: `""`, `0`, `null` and `undefined` are falsy. */
  predicate Truthy(c: Cell) {
    match c
    case Str(s) => s != ""
    case Num(n) => n != 0
    case Null => false
    case Undef => false
  }

  /** The test `x !== undefined && x !== null && x !== ""`. */
  predicate Present(c: Cell) {
    !c.Undef? && !c.Null? && c != Str("")
  }

  /**
   * `c || d` picks one of its two operands, the first one when it is truthy;
   * the result is truthy exactly when one of the operands is.
   */
  function Or(c: Cell, d: Cell): (r: Cell)
    ensures r == c || r == d
    ensures Truthy(c) ==> r == c
    ensures Truthy(r) <==> Truthy(c) || Truthy(d)
  {
    if Truthy(c) then c else d
  }

  /** A present value is falsy only when it is the number zero. */
  lemma PresentFalsyIsZero(c: Cell)
    requires Present(c) && !Truthy(c)
    ensures c == Num(0)
  {
  }

  /** `String(c)`. */
  function ToJsString(c: Cell): (r: string)
    ensures c.Str? ==> r == c.s
    ensures c.Num? ==> r == IntToString(c.n)
  {
    match c
    case Str(s) => s
    case Num(n) => IntToString(n)
    case Null => "null"
    case Undef => "undefined"
  }

  // ---------------------------------------------------------------- Number(x)

  /**
   * What `Number(x)` yields, as far as the application tells results apart:
   * an integer, a number that is not an integer (a fraction, or an infinity),
   * or NaN.
   */
  datatype JsNumber = Integral(n: int) | NonIntegral | NaN

  /** `v * 10^k`, one factor of ten at a time. */
  function TimesPow10(v: nat, k: nat): (r: nat)
    ensures v > 0 ==> r > 0
    ensures v == 0 ==> r == 0
  {
    if k == 0 then v else TimesPow10(v, k - 1) * 10
  }

  /** `k` zero digits. */
  function Zeros(k: nat): (r: string)
    ensures |r| == k && AllDigits(r)
  {
    if k == 0 then [] else Zeros(k - 1) + "0"
  }

  /** Appending a zero digit multiplies a numeral's value by ten. */
  lemma DigitsValueOfZeroDigit(y: string)
    requires AllDigits(y)
    ensures AllDigits(y + "0") && DigitsValue(y + "0") == DigitsValue(y) * 10
  {
    assert (y + "0")[..|y|] == y;
  }

  /** A digit of base `radix` (2, 8 or 16); hexadecimal letters in either case. */
  predicate IsRadixDigit(c: char, radix: nat) {
    ('0' <= c <= '9' && (c as int) - ('0' as int) < radix) ||
    (radix == 16 && ('a' <= c <= 'f' || 'A' <= c <= 'F'))
  }

  predicate AllRadixDigits(s: string, radix: nat) {
    forall i :: 0 <= i < |s| ==> IsRadixDigit(s[i], radix)
  }

  function RadixDigitValue(c: char): (d: nat)
    requires IsRadixDigit(c, 16)
    ensures d < 16
  {
    if '0' <= c <= '9' then (c as int) - ('0' as int)
    else if 'a' <= c <= 'f' then (c as int) - ('a' as int) + 10
    else (c as int) - ('A' as int) + 10
  }

  /** The value of a numeral in base `radix`, most significant digit first. */
  function RadixValue(s: string, radix: nat): (r: nat)
    requires AllRadixDigits(s, radix)
  {
    if s == [] then 0
    else RadixValue(s[..|s| - 1], radix) * radix + RadixDigitValue(s[|s| - 1])
  }

  /** The exponent part of a decimal literal: empty, or `e`/`E`, an optional sign and digits. */
  function ExponentPart(s: string): (r: Option<int>)
    ensures s == [] ==> r == Some(0)
    ensures r.Some? && s != [] ==> s[0] in "eE"
  {
    if s == [] then Some(0)
    else if s[0] !in "eE" then None
    else
      var t := s[1..];
      var d := if t != [] && t[0] in "+-" then t[1..] else t;
      if d == [] || !AllDigits(d) then None
      else if t[0] == '-' then Some(-(DigitsValue(d) as int))
      else Some(DigitsValue(d))
  }

  /** The value `digits * 10^exponent` of a decimal literal, with the digits kept as written. */
  datatype Decimal = Decimal(digits: string, exponent: int)

  /**
   * Reads an unsigned decimal literal from the left: digits, at most one point
   * (a digit after it lowers the scale by one), then the exponent part. The
   * literal needs at least one digit; `digits` holds those read so far and
   * `scale` how many of them followed the point.
   */
  function ReadDecimal(u: string, digits: string, point: bool, scale: nat): (r: Option<Decimal>)
    requires AllDigits(digits)
    decreases |u|
  {
    if u != [] && IsDigit(u[0]) then ReadDecimal(u[1..], digits + [u[0]], point, if point then scale + 1 else scale)
    else if u != [] && u[0] == '.' && !point then ReadDecimal(u[1..], digits, true, scale)
    else if digits == [] then None
    else
      match ExponentPart(u)
      case None => None
      case Some(e) => Some(Decimal(digits, e - scale))
  }

  /** Every decimal the reader returns has at least one digit, and only digits. */
  lemma {:induction false} ReadDecimalDigits(u: string, digits: string, point: bool, scale: nat)
    requires AllDigits(digits)
    ensures var r := ReadDecimal(u, digits, point, scale); r.Some? ==> r.value.digits != [] && AllDigits(r.value.digits)
    decreases |u|
  {
    if u != [] && IsDigit(u[0]) {
      ReadDecimalDigits(u[1..], digits + [u[0]], point, if point then scale + 1 else scale);
    } else if u != [] && u[0] == '.' && !point {
      ReadDecimalDigits(u[1..], digits, true, scale);
    }
  }

  /** An unsigned decimal literal: digits, an optional fraction after a point, and an optional exponent. */
  function UnsignedDecimal(u: string): (r: Option<Decimal>)
    ensures r.Some? ==> r.value.digits != [] && AllDigits(r.value.digits)
  {
    ReadDecimalDigits(u, [], false, 0);
    ReadDecimal(u, [], false, 0)
  }

  /** The reader takes a run of digits one by one. */
  lemma {:induction false} ReadDecimalOfDigits(n: string, rest: string, digits: string, point: bool, scale: nat)
    requires AllDigits(digits) && AllDigits(n)
    ensures AllDigits(digits + n)
    ensures ReadDecimal(n + rest, digits, point, scale) ==
              ReadDecimal(rest, digits + n, point, if point then scale + |n| else scale)
    decreases |n|
  {
    if n == [] {
      assert n + rest == rest && digits + n == digits;
    } else {
      assert (n + rest)[1..] == n[1..] + rest;
      ReadDecimalOfDigits(n[1..], rest, digits + [n[0]], point, if point then scale + 1 else scale);
      assert digits + [n[0]] + n[1..] == digits + n;
    }
  }

  /**
   * `d * 10^k` classified. A negative `k` is raised by dropping trailing zero
   * digits; what remains is an integer when `k` reaches 0 or no digit is left,
   * and a fraction when a non-zero digit would be cut.
   */
  function Scaled(d: string, k: int): (r: JsNumber)
    requires AllDigits(d)
    decreases if k < 0 then -k else 0
  {
    if k >= 0 then Integral(TimesPow10(DigitsValue(d), k))
    else if d == [] then Integral(0)
    else if d[|d| - 1] == '0' then Scaled(d[..|d| - 1], k + 1)
    else NonIntegral
  }

  /**
   * A scaled literal is a non-negative integer, and with a negative `k` that
   * integer times `10^-k` gives back the digits' value.
   */
  lemma {:induction false} ScaledValue(d: string, k: int)
    requires AllDigits(d)
    ensures Scaled(d, k).Integral? ==> Scaled(d, k).n >= 0
    ensures k >= 0 ==> Scaled(d, k) == Integral(TimesPow10(DigitsValue(d), k))
    ensures Scaled(d, k).Integral? && k < 0 ==> TimesPow10(Scaled(d, k).n, -k) == DigitsValue(d)
    decreases if k < 0 then -k else 0
  {
    if k < 0 && d != [] && d[|d| - 1] == '0' {
      var e := d[..|d| - 1];
      ScaledValue(e, k + 1);
      assert d == e + "0";
      DigitsValueOfZeroDigit(e);
    }
  }

  /** Unary minus: the negative of an integer, and NaN or a non-integer unchanged in kind. */
  function Negated(x: JsNumber): (r: JsNumber)
    ensures r.Integral? <==> x.Integral?
    ensures x.Integral? ==> r.n == -x.n
    ensures !x.Integral? ==> r == x
  {
    if x.Integral? then Integral(-x.n) else x
  }

  /** The letter after the `0` of a hexadecimal, octal or binary literal. */
  predicate IsRadixMark(c: char) {
    c == 'x' || c == 'X' || c == 'o' || c == 'O' || c == 'b' || c == 'B'
  }

  /** The base a radix mark stands for. */
  function RadixOf(c: char): (radix: nat)
    requires IsRadixMark(c)
    ensures radix in {2, 8, 16}
  {
    if c == 'x' || c == 'X' then 16 else if c == 'o' || c == 'O' then 8 else 2
  }

  /** `0x1F`, `0o17`, `0b11`: the digits after the mark in that base, or NaN. */
  function RadixLiteral(t: string): (r: JsNumber)
    requires |t| > 2 && IsRadixMark(t[1])
    ensures r.NaN? || (r.Integral? && r.n >= 0)
  {
    if AllRadixDigits(t[2..], RadixOf(t[1])) then Integral(RadixValue(t[2..], RadixOf(t[1]))) else NaN
  }

  /** An unsigned decimal literal or `Infinity`, or NaN. */
  function UnsignedToNumber(u: string): (r: JsNumber)
  {
    if u == "Infinity" then NonIntegral
    else
      match UnsignedDecimal(u)
      case None => NaN
      case Some(p) => Scaled(p.digits, p.exponent)
  }

  /** A decimal literal or `Infinity` after an optional sign; a minus sign negates. */
  function SignedToNumber(t: string): (r: JsNumber)
    requires t != []
  {
    var x := UnsignedToNumber(if t[0] == '-' || t[0] == '+' then t[1..] else t);
    if t[0] == '-' then Negated(x) else x
  }

  /**
   * `Number` of a trimmed string: empty is 0; a `0x`/`0o`/`0b` literal takes no
   * sign; otherwise a signed decimal literal or `Infinity`; anything else is NaN.
   */
  function TrimmedToNumber(t: string): (r: JsNumber)
  {
    if t == [] then Integral(0)
    else if |t| > 2 && t[0] == '0' && IsRadixMark(t[1]) then RadixLiteral(t)
    else SignedToNumber(t)
  }

  /** `Number(s)` on a string (ECMAScript StringToNumber): the literal between the white space. */
  function StringToNumber(s: string): (r: JsNumber)
  {
    TrimmedToNumber(Trim(s))
  }

  /** `Number(c)`: numbers stay, `null` is 0, `undefined` is NaN, strings are read as literals. */
  function ToNumber(c: Cell): (r: JsNumber)
    ensures c.Num? ==> r == Integral(c.n)
    ensures c.Null? ==> r == Integral(0)
    ensures c.Undef? ==> r == NaN
    ensures c.Str? ==> r == StringToNumber(c.s)
  {
    match c
    case Num(n) => Integral(n)
    case Null => Integral(0)
    case Undef => NaN
    case Str(s) => StringToNumber(s)
  }

  lemma TrimTwice(s: string)
    ensures Trim(Trim(s)) == Trim(s)
  {
    var t := Trim(s);
    if t != [] {
      assert TrimStart(t) == t;
      assert TrimEnd(t) == t;
    }
  }

  /** White space around a string does not change the number it reads as. */
  lemma ToNumberIgnoresSpace(s: string)
    ensures ToNumber(Str(s)) == ToNumber(Str(Trim(s)))
  {
    TrimTwice(s);
  }

  /** The magnitude of a printed integer. */
  function Magnitude(i: int): (r: string)
    ensures r == NatToString(if i < 0 then -i else i)
  {
    NatToString(if i < 0 then -i else i)
  }

  lemma PrintedWithoutSpace(i: int, tail: string)
    requires NoJsSpace(tail)
    ensures NoJsSpace(IntToString(i) + tail)
  {
    var n := Magnitude(i);
    var t := IntToString(i) + tail;
    var p := IntToString(i);
    assert NoJsSpace(p) by {
      forall j | 0 <= j < |p| ensures !IsJsSpace(p[j]) {
        if i < 0 {
          assert p == "-" + n;
          if j > 0 {
            assert p[j] == n[j - 1];
          }
        } else {
          assert p[j] == n[j];
        }
      }
    }
    forall j | 0 <= j < |t| ensures !IsJsSpace(t[j]) {
      if j < |p| {
        assert t[j] == p[j];
      } else {
        assert t[j] == tail[j - |p|];
      }
    }
  }

  /** No white space in a numeral. */
  lemma DigitsWithoutSpace(n: string)
    requires AllDigits(n)
    ensures NoJsSpace(n)
  {
    forall j | 0 <= j < |n| ensures !IsJsSpace(n[j]) {
      assert IsDigit(n[j]);
    }
  }

  /**
   * A numeral without a redundant leading zero, after an optional minus sign
   * and before a tail that starts with a point or an exponent, reads as the
   * numeral with the tail, negated when there is a sign.
   */
  lemma SignedNumeralThen(negative: bool, n: string, tail: string)
    requires n != [] && AllDigits(n) && (|n| > 1 ==> n[0] != '0')
    requires NoJsSpace(tail) && (tail == [] || tail[0] == '.' || tail[0] == 'e')
    ensures var t := (if negative then "-" else "") + n + tail;
            StringToNumber(t) == if negative then Negated(UnsignedToNumber(n + tail)) else UnsignedToNumber(n + tail)
  {
    var t := (if negative then "-" else "") + n + tail;
    NumeralWithoutSpace(negative, n, tail);
    if negative {
      assert t == "-" + (n + tail);
      assert t[1..] == n + tail;
    } else {
      assert t == n + tail;
      if |t| > 2 && t[0] == '0' {
        assert |n| == 1 && t[1] == tail[0];
      }
    }
    DecimalStringToNumber(t);
  }

  lemma NumeralWithoutSpace(negative: bool, n: string, tail: string)
    requires AllDigits(n) && NoJsSpace(tail)
    ensures NoJsSpace((if negative then "-" else "") + n + tail)
  {
    var p := if negative then "-" else "";
    var t := p + n + tail;
    forall j | 0 <= j < |t| ensures !IsJsSpace(t[j]) {
      if j < |p| {
        assert t[j] == '-';
      } else if j < |p| + |n| {
        assert t[j] == n[j - |p|];
        assert IsDigit(n[j - |p|]);
      } else {
        assert t[j] == tail[j - |p| - |n|];
      }
    }
  }

  /** A string without white space and without a radix prefix reads as a signed decimal literal. */
  lemma DecimalStringToNumber(t: string)
    requires NoJsSpace(t) && t != [] && !(|t| > 2 && t[0] == '0' && IsRadixMark(t[1]))
    ensures StringToNumber(t) == SignedToNumber(t)
  {
    TrimWithoutSpace(t);
  }

  /** A printed integer is its magnitude, after a minus sign when it is negative. */
  lemma IntToStringParts(i: int)
    ensures IntToString(i) == (if i < 0 then "-" else "") + Magnitude(i)
    ensures Magnitude(i) != [] && AllDigits(Magnitude(i)) && (|Magnitude(i)| > 1 ==> Magnitude(i)[0] != '0')
    ensures DigitsValue(Magnitude(i)) == if i < 0 then -i else i
  {
  }

  /**
   * A printed integer followed by a tail that starts with a point or an
   * exponent reads as its magnitude with the tail, negated when the integer is
   * negative.
   */
  lemma PrintedIntegerThen(i: int, tail: string)
    requires NoJsSpace(tail) && (tail == [] || tail[0] == '.' || tail[0] == 'e')
    ensures StringToNumber(IntToString(i) + tail) ==
              if i < 0 then Negated(UnsignedToNumber(Magnitude(i) + tail)) else UnsignedToNumber(Magnitude(i) + tail)
  {
    IntToStringParts(i);
    SignedNumeralThen(i < 0, Magnitude(i), tail);
  }

  /** A decimal numeral with nothing after it reads as its value. */
  lemma UnsignedOfNumeral(n: string)
    requires n != [] && AllDigits(n)
    ensures UnsignedToNumber(n) == Integral(DigitsValue(n))
  {
    ReadDecimalOfDigits(n, [], [], false, 0);
    assert n + [] == n && [] + n == n;
    UnsignedOfDecimal(n, Decimal(n, 0));
    ScaledValue(n, 0);
  }

  /** `Number(String(i)) === i` for a string cell holding a printed integer. */
  lemma ToNumberOfPrintedInteger(i: int)
    ensures ToNumber(Str(IntToString(i))) == Integral(i)
  {
    PrintedInteger(i);
    UnsignedOfNumeral(Magnitude(i));
  }

  lemma PrintedInteger(i: int)
    ensures StringToNumber(IntToString(i)) ==
              if i < 0 then Negated(UnsignedToNumber(Magnitude(i))) else UnsignedToNumber(Magnitude(i))
  {
    PrintedIntegerThen(i, []);
    assert IntToString(i) + [] == IntToString(i) && Magnitude(i) + [] == Magnitude(i);
  }

  /** `String` and then `Number` give back a numeric cell's value; a string cell prints as itself. */
  lemma ToJsStringRoundTrip(c: Cell)
    ensures c.Num? ==> ToNumber(Str(ToJsString(c))) == ToNumber(c)
    ensures c.Str? ==> Str(ToJsString(c)) == c
  {
    if c.Num? {
      ToNumberOfPrintedInteger(c.n);
    }
  }

  /** A literal that starts with a digit is no `Infinity`: its number is its decimal value, scaled. */
  lemma UnsignedOfDecimal(u: string, dec: Decimal)
    requires u != [] && IsDigit(u[0]) && UnsignedDecimal(u) == Some(dec)
    ensures UnsignedToNumber(u) == Scaled(dec.digits, dec.exponent)
  {
    assert u != "Infinity" by { assert u[0] != 'I'; }
  }

  /** Digits, a point and digits: the digits join and the exponent is minus the fraction's length. */
  lemma UnsignedDecimalOfFraction(n: string, f: string)
    requires n != [] && AllDigits(n) && AllDigits(f)
    ensures UnsignedDecimal(n + "." + f) == Some(Decimal(n + f, -|f|))
  {
    var u := n + "." + f;
    assert u == n + ("." + f);
    ReadDecimalOfDigits(n, "." + f, [], false, 0);
    assert [] + n == n && ("." + f)[1..] == f;
    ReadDecimalOfDigits(f, [], n, true, 0);
    assert f + [] == f;
  }

  /** A numeral, a point and `k` zeros: digits and zeros, scaled down by `10^k`. */
  lemma UnsignedDecimalOfZeroFraction(n: string, k: nat)
    requires n != [] && AllDigits(n)
    ensures UnsignedToNumber(n + "." + Zeros(k)) == Scaled(n + Zeros(k), -(k as int))
  {
    var u := n + "." + Zeros(k);
    UnsignedDecimalOfFraction(n, Zeros(k));
    assert u[0] == n[0];
    UnsignedOfDecimal(u, Decimal(n + Zeros(k), -(k as int)));
  }

  /** A numeral, a point and `k` zeros read as the numeral's value. */
  lemma UnsignedOfZeroFraction(n: string, k: nat)
    requires n != [] && AllDigits(n)
    ensures UnsignedToNumber(n + "." + Zeros(k)) == Integral(DigitsValue(n))
  {
    UnsignedDecimalOfZeroFraction(n, k);
    ScaledOfZeros(n, k);
  }

  /** Digits followed by `k` zeros, scaled down by `10^k`, are the digits. */
  lemma {:induction false} ScaledOfZeros(n: string, k: nat)
    requires AllDigits(n)
    ensures AllDigits(n + Zeros(k)) && Scaled(n + Zeros(k), -(k as int)) == Integral(DigitsValue(n))
  {
    if k == 0 {
      assert n + Zeros(0) == n;
    } else {
      ScaledOfZeros(n, k - 1);
      var shorter := n + Zeros(k - 1);
      ZerosStep(n, k);
      DigitsValueOfZeroDigit(shorter);
      ScaledOfZeroDigit(shorter, -(k as int));
    }
  }

  /** One more zero digit at the end. */
  lemma ZerosStep(n: string, k: nat)
    requires k > 0
    ensures n + Zeros(k) == (n + Zeros(k - 1)) + "0"
  {
    assert Zeros(k) == Zeros(k - 1) + "0";
  }

  /** Scaling down a numeral ending in a zero digit drops that digit. */
  lemma ScaledOfZeroDigit(d: string, k: int)
    requires AllDigits(d) && k < 0
    ensures AllDigits(d + "0") && Scaled(d + "0", k) == Scaled(d, k + 1)
  {
    var e := d + "0";
    assert e[|e| - 1] == '0' && e[..|e| - 1] == d;
  }

  /** A printed integer followed by a point and zeros is still that integer: `Number("2.00") === 2`. */
  lemma ToNumberOfDecimalPoint(i: int, k: nat)
    ensures ToNumber(Str(IntToString(i) + "." + Zeros(k))) == Integral(i)
  {
    var tail := "." + Zeros(k);
    assert IntToString(i) + "." + Zeros(k) == IntToString(i) + tail;
    assert Magnitude(i) + "." + Zeros(k) == Magnitude(i) + tail;
    PrintedIntegerThen(i, tail);
    UnsignedOfZeroFraction(Magnitude(i), k);
  }

  /** A fraction whose last digit is not zero is not an integer: `Number("2.5") === 2.5`. */
  lemma ToNumberOfFraction(i: int, f: string)
    requires f != [] && AllDigits(f) && f[|f| - 1] != '0'
    ensures ToNumber(Str(IntToString(i) + "." + f)) == NonIntegral
  {
    var tail := "." + f;
    assert IntToString(i) + "." + f == IntToString(i) + tail;
    assert Magnitude(i) + "." + f == Magnitude(i) + tail;
    PointThenDigitsWithoutSpace(f);
    PrintedIntegerThen(i, tail);
    UnsignedOfFraction(Magnitude(i), f);
  }

  lemma PointThenDigitsWithoutSpace(f: string)
    requires AllDigits(f)
    ensures NoJsSpace("." + f)
  {
    var tail := "." + f;
    forall k | 0 <= k < |tail| ensures !IsJsSpace(tail[k]) {
      if k > 0 {
        assert tail[k] == f[k - 1];
      }
    }
  }

  /** A numeral, a point and digits ending in a non-zero digit read as a non-integer. */
  lemma UnsignedOfFraction(n: string, f: string)
    requires n != [] && AllDigits(n) && f != [] && AllDigits(f) && f[|f| - 1] != '0'
    ensures UnsignedToNumber(n + "." + f) == NonIntegral
  {
    var u := n + "." + f;
    UnsignedDecimalOfFraction(n, f);
    assert u[0] == n[0];
    UnsignedOfDecimal(u, Decimal(n + f, -|f|));
    var d := n + f;
    assert d[|d| - 1] == f[|f| - 1];
  }

  /** A numeral, `e` and a second numeral read as the first times that power of ten. */
  lemma UnsignedOfExponent(n: string, k: nat)
    requires n != [] && AllDigits(n)
    ensures UnsignedToNumber(n + "e" + NatToString(k)) == Integral(TimesPow10(DigitsValue(n), k))
  {
    var tail := "e" + NatToString(k);
    var u := n + "e" + NatToString(k);
    assert u == n + tail;
    ReadDecimalOfDigits(n, tail, [], false, 0);
    assert [] + n == n;
    assert tail[1..] == NatToString(k);
    assert NatToString(k)[0] !in "+-" by { assert IsDigit(NatToString(k)[0]); }
    assert ExponentPart(tail) == Some(k);
    UnsignedOfDecimal(u, Decimal(n, k));
    ScaledValue(n, k);
  }

  /** A numeral with a non-negative exponent: `Number("25e2") === 2500`. */
  lemma ToNumberOfExponent(m: nat, k: nat)
    ensures ToNumber(Str(NatToString(m) + "e" + NatToString(k))) == Integral(TimesPow10(m, k))
  {
    var tail := "e" + NatToString(k);
    assert NatToString(m) + "e" + NatToString(k) == IntToString(m) + tail;
    assert Magnitude(m) + "e" + NatToString(k) == Magnitude(m) + tail;
    PrintedIntegerThen(m, tail);
    UnsignedOfExponent(NatToString(m), k);
  }

  lemma RadixDigitsWithoutSpace(d: string, radix: nat)
    requires AllRadixDigits(d, radix)
    ensures NoJsSpace(d)
  {
    forall k | 0 <= k < |d| ensures !IsJsSpace(d[k]) {
      assert IsRadixDigit(d[k], radix);
    }
  }

  /** `0x`, `0o` or `0b` and digits of that base read as their value: `Number("0x1F") === 31`. */
  lemma ToNumberOfRadixLiteral(mark: char, d: string)
    requires IsRadixMark(mark) && d != [] && AllRadixDigits(d, RadixOf(mark))
    ensures ToNumber(Str(['0', mark] + d)) == Integral(RadixValue(d, RadixOf(mark)))
  {
    var t := ['0', mark] + d;
    RadixDigitsWithoutSpace(d, RadixOf(mark));
    assert NoJsSpace(t) by {
      forall k | 0 <= k < |t| ensures !IsJsSpace(t[k]) {
        if k >= 2 {
          assert t[k] == d[k - 2];
        }
      }
    }
    TrimWithoutSpace(t);
    assert t[2..] == d;
  }

  /** Read as decimal, a radix literal stops at its mark. */
  lemma UnsignedOfRadixLiteral(mark: char, d: string)
    requires IsRadixMark(mark)
    ensures UnsignedToNumber(['0', mark] + d) == NaN
  {
    var u := ['0', mark] + d;
    assert u[1..] == [mark] + d;
    assert ReadDecimal(u, [], false, 0) == ReadDecimal([mark] + d, "0", false, 0);
    assert u != "Infinity";
  }

  /** A radix literal takes no sign: `Number("-0x2")` is NaN. */
  lemma ToNumberOfSignedRadixLiteral(sign: char, mark: char, d: string)
    requires (sign == '+' || sign == '-') && IsRadixMark(mark) && AllRadixDigits(d, RadixOf(mark))
    ensures ToNumber(Str([sign, '0', mark] + d)) == NaN
  {
    var t := [sign, '0', mark] + d;
    RadixDigitsWithoutSpace(d, RadixOf(mark));
    assert NoJsSpace(t) by {
      forall k | 0 <= k < |t| ensures !IsJsSpace(t[k]) {
        if k >= 3 {
          assert t[k] == d[k - 3];
        }
      }
    }
    TrimWithoutSpace(t);
    assert t[1..] == ['0', mark] + d;
    UnsignedOfRadixLiteral(mark, d);
  }

  /** White space around an integer is ignored: `Number(" 7\n") === 7`. */
  lemma ToNumberOfPaddedInteger(i: int, left: string, right: string)
    requires AllJsSpace(left) && AllJsSpace(right)
    ensures ToNumber(Str(left + IntToString(i) + right)) == Integral(i)
  {
    PaddedInteger(i, left, right);
    ToNumberIgnoresSpace(left + IntToString(i) + right);
    ToNumberOfPrintedInteger(i);
  }

  lemma PaddedInteger(i: int, left: string, right: string)
    requires AllJsSpace(left) && AllJsSpace(right)
    ensures Trim(left + IntToString(i) + right) == IntToString(i)
  {
    var p := IntToString(i);
    PrintedWithoutSpace(i, []);
    assert p + [] == p;
    TrimPadded(left, p, right);
  }

  /**
   * A string whose first character after the white space can start no numeric
   * literal (not a digit, a sign, a point or the `I` of `Infinity`) reads as
   * NaN: `Number("abc")`, `Number(" x1")`.
   */
  lemma ToNumberOfNonLiteral(s: string)
    requires Trim(s) != [] && !IsDigit(Trim(s)[0]) && Trim(s)[0] !in {'+', '-', '.', 'I'}
    ensures ToNumber(Str(s)) == NaN
  {
    var t := Trim(s);
    assert t != "Infinity";
  }
}
