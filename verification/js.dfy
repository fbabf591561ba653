/** The few JavaScript value semantics the application logic relies on:
    numbers that may be `NaN`, truthiness, `||`, and the three ways the code
    turns text into a number (`Number`, `parseInt`, `parseFloat`). Every
    number in the model is an integer; see README for what that leaves out. */
module Js {
  import opened Text
  import opened Maybe

  /** A JavaScript number restricted to integers, or `NaN`. */
  datatype Num = Int(v: int) | NaN

  /** A loosely typed field value as the code receives it: `null`,
      `undefined`, a number, a string, or some other (truthy) object. */
  datatype Value = Null | Undefined | Number(n: Num) | Str(s: string) | Object

  /** A plain object's own fields. */
  type Fields = map<string, Value>

  /** `o[field]`; an absent field reads as `undefined`. */
  function Get(o: Fields, field: string): Value
  {
    if field in o then o[field] else Undefined
  }

  predicate Truthy(x: Value)
  {
    match x
    case Null => false
    case Undefined => false
    case Number(n) => n.Int? && n.v != 0
    case Str(s) => s != ""
    case Object => true
  }

  /** `a || b`: the first operand when it is truthy, else the second. */
  function Or(a: Value, b: Value): (r: Value)
    ensures Truthy(a) ==> r == a
    ensures !Truthy(a) ==> r == b
  {
    if Truthy(a) then a else b
  }

  /** `a || b` on two strings. */
  function OrText(a: string, b: string): (r: string)
    ensures Str(r) == Or(Str(a), Str(b))
  {
    if a != "" then a else b
  }

  /** `Math.floor(a / b)` for a positive divisor: Dafny's division rounds
      toward negative infinity when the divisor is positive. */
  function FloorDiv(a: int, b: int): (q: int)
    requires b > 0
    ensures q * b <= a < q * b + b
  {
    a / b
  }

  /** `Math.ceil(a / b)` for a positive divisor. */
  function CeilDiv(a: int, b: int): (q: int)
    requires b > 0
    ensures q * b - b < a <= q * b
  {
    -((-a) / b)
  }

  /** Value of one decimal digit. */
  function DigitValue(c: char): (d: nat)
    requires IsDigit(c)
    ensures d < 10
  {
    c as int - '0' as int
  }

  predicate AllDigits(s: string)
  {
    forall i :: 0 <= i < |s| ==> IsDigit(s[i])
  }

  /** Value of a string of decimal digits, most significant first. */
  function DecimalValue(s: string): (n: nat)
    requires AllDigits(s)
  {
    if |s| == 0 then 0 else 10 * DecimalValue(s[..|s| - 1]) + DigitValue(s[|s| - 1])
  }

  /** Appending a digit multiplies by ten and adds it. */
  lemma DecimalValueBound(s: string)
    requires AllDigits(s)
    ensures DecimalValue(s) < Pow10(|s|)
  {
    if |s| > 0 {
      DecimalValueBound(s[..|s| - 1]);
    }
  }

  function Pow10(n: nat): (p: nat)
    ensures p >= 1
  {
    if n == 0 then 1 else 10 * Pow10(n - 1)
  }

  /** Number of leading digits of `s`. */
  function LeadingDigits(s: string): (n: nat)
    ensures n <= |s|
    ensures AllDigits(s[..n])
    ensures forall i :: 0 <= i < n ==> IsDigit(s[i])
    ensures n < |s| ==> !IsDigit(s[n])
  {
    if |s| == 0 || !IsDigit(s[0]) then 0
    else
      var m := LeadingDigits(s[1..]);
      assert s[..1 + m] == [s[0]] + s[1..][..m];
      1 + m
  }

  /** Sign of an optionally signed numeral and the offset where its digits
      start. */
  function SignOf(s: string): (r: (int, nat))
    ensures r.0 == 1 || r.0 == -1
    ensures r.1 <= 1 && r.1 <= |s|
  {
    if |s| > 0 && s[0] == '-' then (-1, 1)
    else if |s| > 0 && s[0] == '+' then (1, 1)
    else (1, 0)
  }

  /** `parseInt(s, 10)`: skip leading whitespace, read an optional sign and
      the longest run of digits; `NaN` when there is no digit. */
  function ParseInt(s: string): (r: Num)
    ensures r.NaN? <==>
      var t := s[LeadingSpaces(s)..]; LeadingDigits(t[SignOf(t).1..]) == 0
  {
    var t := s[LeadingSpaces(s)..];
    var (sign, start) := SignOf(t);
    var body := t[start..];
    var n := LeadingDigits(body);
    if n == 0 then NaN else Int(sign * DecimalValue(body[..n]))
  }

  /** `parseInt` of a string made only of digits is its decimal value. */
  lemma ParseIntOfDigits(s: string)
    requires |s| > 0 && AllDigits(s)
    ensures ParseInt(s) == Int(DecimalValue(s))
  {
    assert !IsSpace(s[0]);
    assert LeadingSpaces(s) == 0;
    assert s[0..] == s;
    assert SignOf(s) == (1, 0);
    LeadingDigitsOfDigits(s);
    assert s[..|s|] == s;
  }

  /** `parseInt` reads text laid out as whitespace, an optional sign,
      digits and then anything that does not start with a digit as the
      signed value of those digits. */
  lemma ParseIntOfParts(pre: string, sign: string, digits: string, rest: string)
    requires forall i :: 0 <= i < |pre| ==> IsSpace(pre[i])
    requires sign == "" || sign == "+" || sign == "-"
    requires |digits| > 0 && AllDigits(digits)
    requires rest == "" || !IsDigit(rest[0])
    ensures ParseInt(pre + (sign + (digits + rest))) == Int((if sign == "-" then -1 else 1) * DecimalValue(digits))
  {
    var t := sign + (digits + rest);
    NumeralStart(sign, digits + rest);
    ParseIntSkipsSpaces(pre, t);
    ParseIntOfSigned(sign, digits, rest);
  }

  lemma NumeralStart(sign: string, body: string)
    requires sign == "" || sign == "+" || sign == "-"
    requires |body| > 0 && IsDigit(body[0])
    ensures |sign + body| > 0 && !IsSpace((sign + body)[0])
  {
  }

  /** Whitespace in front of a numeral does not change what `parseInt`
      reads. */
  lemma ParseIntSkipsSpaces(pre: string, t: string)
    requires forall i :: 0 <= i < |pre| ==> IsSpace(pre[i])
    requires |t| > 0 && !IsSpace(t[0])
    ensures ParseInt(pre + t) == ParseInt(t)
  {
    SkipSpaces(pre, t);
    assert LeadingSpaces(t) == 0 && t[0..] == t;
  }

  lemma ParseIntOfSigned(sign: string, digits: string, rest: string)
    requires sign == "" || sign == "+" || sign == "-"
    requires |digits| > 0 && AllDigits(digits)
    requires rest == "" || !IsDigit(rest[0])
    ensures ParseInt(sign + (digits + rest)) == Int((if sign == "-" then -1 else 1) * DecimalValue(digits))
  {
    var body := digits + rest;
    var t := sign + body;
    assert !IsSpace(t[0]);
    assert LeadingSpaces(t) == 0 && t[0..] == t;
    assert t[|sign|..] == body;
    assert SignOf(t) == (if sign == "-" then -1 else 1, |sign|);
    DigitsThenOther(digits, rest);
    assert body[..|digits|] == digits;
  }

  /** Leading whitespace ends where the text after it begins. */
  lemma SkipSpaces(pre: string, t: string)
    requires forall i :: 0 <= i < |pre| ==> IsSpace(pre[i])
    requires |t| > 0 && !IsSpace(t[0])
    ensures LeadingSpaces(pre + t) == |pre| && (pre + t)[|pre|..] == t
  {
    var s := pre + t;
    var n := LeadingSpaces(s);
    assert forall i :: 0 <= i < |pre| ==> IsSpace(s[i]);
    assert s[|pre|] == t[0];
  }

  /** The leading digits of digits followed by a non-digit are those
      digits. */
  lemma DigitsThenOther(digits: string, rest: string)
    requires AllDigits(digits)
    requires rest == "" || !IsDigit(rest[0])
    ensures LeadingDigits(digits + rest) == |digits|
  {
    var body := digits + rest;
    assert forall i :: 0 <= i < |digits| ==> IsDigit(body[i]);
    assert |rest| > 0 ==> body[|digits|] == rest[0];
  }

  lemma {:induction false} LeadingDigitsOfDigits(s: string)
    requires AllDigits(s)
    ensures LeadingDigits(s) == |s|
  {
    if |s| > 0 {
      LeadingDigitsOfDigits(s[1..]);
    }
  }

  /** The numeral `parseFloat` reads: whether it carries a minus sign, the
      digits before the point and the digits after it. */
  datatype Decimal = Decimal(negative: bool, whole: string, fraction: string)

  /** The digits right after a leading '.', or none when `s` does not
      start with one. */
  function FractionDigits(s: string): (f: string)
    ensures AllDigits(f)
    ensures |f| > 0 ==> |s| > |f| && s[0] == '.' && s[1..1 + |f|] == f
    ensures |s| > 0 && s[0] == '.' ==> |s| == 1 + |f| || !IsDigit(s[1 + |f|])
  {
    if |s| > 0 && s[0] == '.' then s[1..][..LeadingDigits(s[1..])] else ""
  }

  /** `parseFloat(s)` up to the exponent: skip leading whitespace, read an
      optional sign, the digits before an optional point and the digits
      after it; `None` (`NaN`) when neither part has a digit. The part
      before the point is exactly what `parseInt` reads. */
  function ReadDecimal(s: string): (r: Option<Decimal>)
    ensures r.Some? ==> AllDigits(r.value.whole) && AllDigits(r.value.fraction)
    ensures r.Some? ==> |r.value.whole| + |r.value.fraction| > 0
    ensures ParseInt(s).Int? <==> r.Some? && |r.value.whole| > 0
    ensures ParseInt(s).Int? ==>
              ParseInt(s).v == (if r.value.negative then -1 else 1) * DecimalValue(r.value.whole)
  {
    var t := s[LeadingSpaces(s)..];
    var (sign, start) := SignOf(t);
    var body := t[start..];
    var n := LeadingDigits(body);
    var fraction := FractionDigits(body[n..]);
    if n == 0 && |fraction| == 0 then None
    else Some(Decimal(sign < 0, body[..n], fraction))
  }

  /** A minus sign and a leading point are both read: "-0.5" is a
      negative numeral and ".5" has no whole digits but one fraction
      digit. */
  lemma ReadSignAndPoint()
    ensures ReadDecimal("-0.5") == Some(Decimal(true, "0", "5")) && BelowZero(Decimal(true, "0", "5"))
    ensures ReadDecimal(".5") == Some(Decimal(false, "", "5")) && !BelowZero(Decimal(false, "", "5"))
  {
    var neg := "-0.5";
    assert !IsSpace(neg[0]) && neg[0..] == neg;
    assert SignOf(neg) == (-1, 1) && neg[1..] == "0.5";
    assert "0.5"[1..] == ".5" && ".5"[1..] == "5" && "5"[1..] == "";
    assert LeadingDigits("0.5") == 1 && "0.5"[..1] == "0" && "0.5"[1..] == ".5";
    assert LeadingDigits("5") == 1 && "5"[..1] == "5";
    assert FractionDigits(".5") == "5";
    assert DecimalValue("5") == 5 by { assert "5"[..0] == ""; }
    var point := ".5";
    assert !IsSpace(point[0]) && point[0..] == point;
    assert SignOf(point) == (1, 0) && point[0..] == point && LeadingDigits(point) == 0;
    assert point[0..] == point && point[..0] == "";
  }

  /** `parseFloat(String(n))` reads `n` back: the sign of `n`, its digits
      and no fraction. */
  lemma {:induction false} ReadDecimalOfString(n: int)
    ensures ReadDecimal(IntToString(n)) == Some(Decimal(n < 0, NatToString(if n < 0 then -n else n), ""))
  {
    var s := IntToString(n);
    var d := NatToString(if n < 0 then -n else n);
    assert !IsSpace(s[0]);
    assert LeadingSpaces(s) == 0 && s[0..] == s;
    LeadingDigitsOfDigits(d);
    assert d[..|d|] == d && d[|d|..] == "";
    if n >= 0 {
      assert SignOf(s) == (1, 0) && s[0..] == d;
    } else {
      assert SignOf(s) == (-1, 1) && s[1..] == d;
    }
  }

  /** `parseFloat(s) < 0`: a minus sign in front of a digit other than 0. */
  predicate BelowZero(d: Decimal)
    requires AllDigits(d.whole) && AllDigits(d.fraction)
  {
    d.negative && (DecimalValue(d.whole) > 0 || DecimalValue(d.fraction) > 0)
  }

  /** `isNaN(parseFloat(s)) || parseFloat(s) < 0`. */
  predicate FloatNaNOrNegative(s: string)
  {
    ReadDecimal(s).None? || BelowZero(ReadDecimal(s).value)
  }

  /** `Number(s)` for a string: surrounding whitespace is ignored, the
      empty string is 0, an optionally signed run of digits is its value,
      and anything else is `NaN`. */
  function StrToNumber(s: string): (r: Num)
    ensures Trim(s) == "" ==> r == Int(0)
    ensures r.Int? && Trim(s) != "" ==> |Trim(s)| > 0 && (IsDigit(Trim(s)[0]) || Trim(s)[0] in "+-")
  {
    var t := Trim(s);
    if t == "" then Int(0)
    else
      var (sign, start) := SignOf(t);
      var body := t[start..];
      if |body| > 0 && AllDigits(body) then Int(sign * DecimalValue(body)) else NaN
  }

  /** `Number(x)` for a field value. */
  function ToNumber(x: Value): (r: Num)
    ensures x.Number? ==> r == x.n
    ensures x.Null? ==> r == Int(0)
    ensures x.Object? || x.Undefined? ==> r == NaN
  {
    match x
    case Null => Int(0)
    case Undefined => NaN
    case Number(n) => n
    case Str(s) => StrToNumber(s)
    case Object => NaN
  }

  /** The decimal numeral of a non-negative integer, as `toString()`
      writes it. */
  function NatToString(n: nat): (s: string)
    ensures |s| > 0 && AllDigits(s)
    ensures DecimalValue(s) == n
    decreases n
  {
    if n < 10 then [('0' as int + n) as char]
    else
      var s := NatToString(n / 10) + [('0' as int + n % 10) as char];
      assert s[..|s| - 1] == NatToString(n / 10);
      s
  }

  /** `String(n)` for an integer. */
  function IntToString(n: int): (s: string)
    ensures |s| > 0
  {
    if n >= 0 then NatToString(n) else "-" + NatToString(-n)
  }

  /** Numbers round-trip through their decimal text: `Number(String(n))`
      is `n`. */
  lemma {:induction false} NumberOfString(n: int)
    ensures StrToNumber(IntToString(n)) == Int(n)
  {
    var s := IntToString(n);
    var d := if n >= 0 then NatToString(n) else NatToString(-n);
    assert !IsSpace(s[0]) && !IsSpace(s[|s| - 1]);
    assert LeadingSpaces(s) == 0;
    assert s[0..] == s;
    assert EndWithoutSpaces(s) == |s|;
    assert s[..|s|] == s;
    assert Trim(s) == s;
    if n >= 0 {
      assert SignOf(s) == (1, 0);
      assert s[0..] == d;
    } else {
      assert SignOf(s) == (-1, 1);
      assert s[1..] == d;
    }
  }

  /** `parseInt(String(n))` is `n`. */
  lemma {:induction false} ParseIntOfString(n: int)
    ensures ParseInt(IntToString(n)) == Int(n)
  {
    var s := IntToString(n);
    assert !IsSpace(s[0]);
    assert LeadingSpaces(s) == 0;
    assert s[0..] == s;
    if n >= 0 {
      assert SignOf(s) == (1, 0);
      LeadingDigitsOfDigits(s);
      assert s[..|s|] == s;
    } else {
      var d := NatToString(-n);
      assert SignOf(s) == (-1, 1);
      assert s[1..] == d;
      LeadingDigitsOfDigits(d);
      assert d[..|d|] == d;
    }
  }

  /** `String(n)`: the decimal numeral, or "NaN". */
  function NumToString(n: Num): (s: string)
    ensures |s| > 0
    ensures n.Int? ==> s == IntToString(n.v)
  {
    match n
    case Int(v) => IntToString(v)
    case NaN => "NaN"
  }

  /** Both `Number` and `parseInt` read `String(n)` back as `n`. */
  lemma NumToStringRoundTrip(n: Num)
    ensures StrToNumber(NumToString(n)) == n && ParseInt(NumToString(n)) == n
  {
    match n
    case Int(v) =>
      NumberOfString(v);
      ParseIntOfString(v);
    case NaN =>
      var s := "NaN";
      assert !IsSpace(s[0]) && !IsSpace(s[2]);
      assert LeadingSpaces(s) == 0 && s[0..] == s;
      assert EndWithoutSpaces(s) == 3 && s[..3] == s;
      assert SignOf(s) == (1, 0);
      assert !IsDigit(s[0]);
  }
}
