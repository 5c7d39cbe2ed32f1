/**
 * The number built-ins the query engine relies on: the global `parseInt`
 * (called without a radix), the global `parseFloat`, and `Math.ceil` of a
 * quotient. Numbers are exact: an integer is an `int`, a finite float a `real`.
 */
module JsNumber {
  import opened Wrappers

  /** A number as `parseFloat` can produce it. */
  datatype Num = NaN | Finite(value: real) | Infinity(negative: bool)

  /** The WhiteSpace and LineTerminator code points that parsing skips at the front. */
  predicate IsWhiteSpace(c: char)
  {
    c == '\t' || c == '\n' || c == '\U{000B}' || c == '\U{000C}' || c == '\r' || c == ' '
    || c == '\U{00A0}' || c == '\U{1680}' || ('\U{2000}' <= c <= '\U{200A}')
    || c == '\U{2028}' || c == '\U{2029}' || c == '\U{202F}' || c == '\U{205F}'
    || c == '\U{3000}' || c == '\U{FEFF}'
  }

  /** Drops the leading white space, as both parse functions do first. */
  function TrimStart(s: string): (r: string)
    ensures |r| <= |s|
  {
    if s != [] && IsWhiteSpace(s[0]) then TrimStart(s[1..]) else s
  }

  /** `TrimStart` drops only white space, and all of it: what is left is a suffix that does not start with any. */
  lemma {:induction false} TrimStartSpec(s: string)
    ensures var r := TrimStart(s);
            && r == s[|s| - |r|..]
            && (r != [] ==> !IsWhiteSpace(r[0]))
            && forall i :: 0 <= i < |s| - |r| ==> IsWhiteSpace(s[i])
  {
    if s != [] && IsWhiteSpace(s[0]) {
      TrimStartSpec(s[1..]);
      var r := TrimStart(s);
      assert forall i :: 1 <= i < |s| - |r| ==> s[i] == s[1..][i - 1];
    }
  }

  /** The value of a digit character in radix 36 (0-9, then a/A = 10 up to z/Z = 35). */
  function DigitValue(c: char): (d: nat)
    ensures d <= 36
  {
    if '0' <= c <= '9' then c as int - '0' as int
    else if 'a' <= c <= 'z' then c as int - 'a' as int + 10
    else if 'A' <= c <= 'Z' then c as int - 'A' as int + 10
    else 36
  }

  predicate IsDigit(c: char, radix: nat)
  {
    DigitValue(c) < radix
  }

  /** The longest prefix of `s` made of digits of the given radix. */
  function LeadingDigits(s: string, radix: nat): (r: string)
    ensures |r| <= |s|
  {
    if s != [] && IsDigit(s[0], radix) then [s[0]] + LeadingDigits(s[1..], radix) else []
  }

  /** `LeadingDigits` is a prefix made of digits, and the character after it is not one. */
  lemma {:induction false} LeadingDigitsSpec(s: string, radix: nat)
    ensures var r := LeadingDigits(s, radix);
            && r == s[..|r|]
            && (forall i :: 0 <= i < |r| ==> IsDigit(r[i], radix))
            && (|r| < |s| ==> !IsDigit(s[|r|], radix))
  {
    if s != [] && IsDigit(s[0], radix) {
      LeadingDigitsSpec(s[1..], radix);
      var r := LeadingDigits(s, radix);
      assert forall i :: 1 <= i < |r| ==> r[i] == LeadingDigits(s[1..], radix)[i - 1];
    }
  }

  /** The mathematical value of a digit string, most significant digit first. */
  function DigitsValue(ds: string, radix: nat): nat
  {
    if ds == [] then 0
    else DigitsValue(ds[..|ds| - 1], radix) * radix + DigitValue(ds[|ds| - 1])
  }

  /** Splits off one optional leading sign: whether it was `-`, and the rest. */
  function StripSign(t: string): (r: (bool, string))
    ensures r.0 <==> t != [] && t[0] == '-'
    ensures r.1 == if t != [] && (t[0] == '-' || t[0] == '+') then t[1..] else t
  {
    if t != [] && (t[0] == '-' || t[0] == '+') then (t[0] == '-', t[1..]) else (false, t)
  }

  /** The unsigned part of `parseInt`: hexadecimal after `0x`/`0X`, decimal otherwise. */
  function ParseUnsignedInt(u: string): (r: Option<nat>)
    ensures r.Some? ==> u != [] && IsDigit(u[0], 10)
  {
    var hex := |u| >= 2 && u[0] == '0' && (u[1] == 'x' || u[1] == 'X');
    var digits := if hex then LeadingDigits(u[2..], 16) else LeadingDigits(u, 10);
    if digits == [] then None
    else Some(DigitsValue(digits, if hex then 16 else 10))
  }

  /**
   * `parseInt(s)` with no radix: skip white space, take one optional sign,
   * read hexadecimal after a `0x`/`0X` prefix and decimal otherwise, and stop
   * at the first character that is not a digit. `None` is NaN: no digit at all.
   */
  function ParseInt(s: string): (r: Option<int>)
    ensures r.Some? ==> var u := StripSign(TrimStart(s)).1; u != [] && IsDigit(u[0], 10)
    ensures r.Some? ==> (r.value < 0 ==> StripSign(TrimStart(s)).0)
  {
    var (negative, unsigned) := StripSign(TrimStart(s));
    match ParseUnsignedInt(unsigned)
    case None => None
    case Some(magnitude) => Some(if negative then -(magnitude as int) else magnitude)
  }

  function Pow10(e: nat): (p: nat)
    ensures p >= 1
  {
    if e == 0 then 1 else 10 * Pow10(e - 1)
  }

  /** The factor `10^e` for an exponent of either sign. */
  function Scale(e: int): (f: real)
    ensures f > 0.0
  {
    if e >= 0 then Pow10(e) as real else 1.0 / Pow10(-e) as real
  }

  /** The value of an optional ExponentPart at the front of `s`; 0 when there is none. */
  function ExponentOf(s: string): int
  {
    if s != [] && (s[0] == 'e' || s[0] == 'E') then
      var (negative, unsigned) := StripSign(s[1..]);
      var digits := LeadingDigits(unsigned, 10);
      if digits == [] then 0
      else if negative then -(DigitsValue(digits, 10) as int) else DigitsValue(digits, 10)
    else 0
  }

  /** `u` begins with the characters of `w`. */
  predicate StartsWith(u: string, w: string)
  {
    |w| <= |u| && (w == [] || (u[0] == w[0] && StartsWith(u[1..], w[1..])))
  }

  /** The unsigned part of `parseFloat`: `Infinity`, or digits, fraction and exponent. */
  function ParseUnsignedFloat(u: string): (r: Num)
  {
    if StartsWith(u, "Infinity") then Infinity(false)
    else
      var whole := LeadingDigits(u, 10);
      AfterWholeDigits(whole, u[|whole|..])
  }

  /** After the whole digits: an optional point followed by fraction digits. */
  function AfterWholeDigits(whole: string, afterWhole: string): Num
  {
    if afterWhole != [] && afterWhole[0] == '.' then
      var fraction := LeadingDigits(afterWhole[1..], 10);
      DecimalLiteral(whole, fraction, afterWhole[1 + |fraction|..])
    else DecimalLiteral(whole, [], afterWhole)
  }

  /** A decimal literal needs a digit before or after the point; otherwise NaN. */
  function DecimalLiteral(whole: string, fraction: string, rest: string): Num
  {
    if whole == [] && fraction == [] then NaN
    else Finite(DecimalValue(whole, fraction, rest))
  }

  /** The value of a decimal literal: whole digits, fraction digits, then an optional exponent. */
  function DecimalValue(whole: string, fraction: string, rest: string): real
  {
    DigitsValue(whole + fraction, 10) as real / Pow10(|fraction|) as real * Scale(ExponentOf(rest))
  }

  /** Unary minus on a number; NaN stays NaN. */
  function Negate(x: Num): (r: Num)
    ensures r.NaN? <==> x.NaN?
    ensures x.Finite? ==> r == Finite(-x.value)
    ensures x.Infinity? ==> r == Infinity(!x.negative)
  {
    match x
    case NaN => NaN
    case Finite(v) => Finite(-v)
    case Infinity(neg) => Infinity(!neg)
  }

  /**
   * `parseFloat(s)`: skip white space, then read the longest prefix that is a
   * decimal literal: an optional sign, then `Infinity`, or digits with an
   * optional fraction and an optional exponent. NaN when no prefix qualifies.
   */
  function ParseFloat(s: string): (r: Num)
    ensures r.Infinity? <==> StartsWith(StripSign(TrimStart(s)).1, "Infinity")
    ensures r.Infinity? ==> (r.negative <==> StripSign(TrimStart(s)).0)
  {
    var (negative, unsigned) := StripSign(TrimStart(s));
    if negative then Negate(ParseUnsignedFloat(unsigned)) else ParseUnsignedFloat(unsigned)
  }

  /** The decimal digits of a natural number, as `String(n)` writes them. */
  function NatToString(n: nat): (s: string)
    ensures s != []
    ensures forall i :: 0 <= i < |s| ==> '0' <= s[i] <= '9'
    decreases n
  {
    if n < 10 then [('0' as int + n) as char]
    else NatToString(n / 10) + [('0' as int + n % 10) as char]
  }

  /** `String(n)` for an integer: a minus sign, then the digits of the magnitude. */
  function IntToString(n: int): string
  {
    if n < 0 then "-" + NatToString(-n) else NatToString(n)
  }

  /** Reading back the digits `NatToString` wrote gives the number. */
  lemma {:induction false} NatToStringValue(n: nat)
    ensures DigitsValue(NatToString(n), 10) == n
    decreases n
  {
    var s := NatToString(n);
    if n >= 10 {
      NatToStringValue(n / 10);
      assert s[..|s| - 1] == NatToString(n / 10);
    }
  }

  /** A decimal digit string followed by anything that does not continue it. */
  lemma {:induction false} LeadingDigitsOfDigits(ds: string, rest: string, radix: nat)
    requires forall i :: 0 <= i < |ds| ==> IsDigit(ds[i], radix)
    requires rest == [] || !IsDigit(rest[0], radix)
    ensures LeadingDigits(ds + rest, radix) == ds
    decreases |ds|
  {
    if ds != [] {
      LeadingDigitsOfDigits(ds[1..], rest, radix);
      assert (ds + rest)[1..] == ds[1..] + rest;
    } else {
      assert ds + rest == rest;
    }
  }

  /** The decimal form of a natural number, then text that does not continue it. */
  lemma ParseUnsignedOfNatToString(m: nat, rest: string)
    requires rest == [] || (!IsDigit(rest[0], 10) && (m != 0 || (rest[0] != 'x' && rest[0] != 'X')))
    ensures ParseUnsignedInt(NatToString(m) + rest) == Some(m)
  {
    var ds := NatToString(m);
    var u := ds + rest;
    assert forall i :: 0 <= i < |ds| ==> IsDigit(ds[i], 10);
    LeadingDigitsOfDigits(ds, rest, 10);
    NatToStringValue(m);
    if |u| >= 2 {
      if |ds| == 1 {
        assert u[1] == rest[0];
      } else {
        assert u[1] == ds[1];
      }
    }
  }

  /** Text that does not start with white space is left as it is by `TrimStart`. */
  lemma TrimStartNoSpace(t: string)
    requires t == [] || !IsWhiteSpace(t[0])
    ensures TrimStart(t) == t
  {
  }

  /** Text that starts with a digit has no sign and no white space to skip. */
  lemma StripDigitStart(t: string)
    requires t != [] && '0' <= t[0] <= '9'
    ensures StripSign(TrimStart(t)) == (false, t)
  {
    TrimStartNoSpace(t);
  }

  /** A minus sign in front is the only thing skipped. */
  lemma StripMinusStart(t: string)
    requires t != [] && t[0] == '-'
    ensures StripSign(TrimStart(t)) == (true, t[1..])
  {
    TrimStartNoSpace(t);
  }

  /**
   * `parseInt` reads back a natural number written in decimal, whatever
   * non-digit follows; only after a lone `0` would an `x` start a hexadecimal prefix.
   */
  lemma ParseIntOfNatToString(n: nat, rest: string)
    requires rest == [] || (!IsDigit(rest[0], 10) && (n != 0 || (rest[0] != 'x' && rest[0] != 'X')))
    ensures ParseInt(NatToString(n) + rest) == Some(n)
  {
    var t := NatToString(n) + rest;
    ParseUnsignedOfNatToString(n, rest);
    StripDigitStart(t);
  }

  /** `parseInt` reads back a negative number written as a minus sign and its digits. */
  lemma {:induction false} ParseIntOfNegated(n: nat, rest: string)
    requires rest == [] || (!IsDigit(rest[0], 10) && (n != 0 || (rest[0] != 'x' && rest[0] != 'X')))
    ensures ParseInt("-" + NatToString(n) + rest) == Some(-(n as int))
  {
    var t := "-" + NatToString(n) + rest;
    assert ParseUnsignedInt(t[1..]) == Some(n) by {
      ParseUnsignedOfNatToString(n, rest);
      assert t[1..] == NatToString(n) + rest;
    }
    ParseIntNegative(t, n);
  }

  /** `ParseInt` of a minus sign and more text is the negated unsigned parse of that text. */
  lemma ParseIntNegative(t: string, m: nat)
    requires t != [] && t[0] == '-'
    requires ParseUnsignedInt(t[1..]) == Some(m)
    ensures ParseInt(t) == Some(-(m as int))
  {
    StripMinusStart(t);
  }

  /**
   * `parseInt` reads back every integer written in decimal, also when other
   * text follows the digits (`parseInt("2000abc")` is 2000, `parseInt("5x")` is 5).
   * Only `0` followed by `x` or `X` reads differently: that is a hexadecimal prefix.
   */
  lemma ParseIntOfIntToString(n: int, rest: string)
    requires rest == [] || (!IsDigit(rest[0], 10) && (n != 0 || (rest[0] != 'x' && rest[0] != 'X')))
    ensures ParseInt(IntToString(n) + rest) == Some(n)
  {
    if n < 0 {
      ParseIntOfNegated(-n, rest);
    } else {
      ParseIntOfNatToString(n, rest);
    }
  }

  /** A string that starts with neither white space, a sign nor a digit parses to NaN: `parseInt("invalid")`. */
  lemma ParseIntOfNoDigits(s: string)
    requires s != [] && !IsWhiteSpace(s[0]) && s[0] != '-' && s[0] != '+'
    requires !IsDigit(s[0], 10)
    ensures ParseInt(s) == None
  {
    TrimStartNoSpace(s);
    assert StripSign(s) == (false, s);
  }

  /**
   * Text holding no decimal literal at its front: it does not start with
   * `Infinity`, with a digit, or with a point followed by a digit.
   */
  predicate NoNumericPrefix(u: string)
  {
    && !StartsWith(u, "Infinity")
    && (u == [] || !IsDigit(u[0], 10))
    && (|u| >= 2 && u[0] == '.' ==> !IsDigit(u[1], 10))
  }

  /**
   * `parseFloat` gives NaN exactly when, after the white space and one
   * optional sign, no numeric prefix follows: `parseFloat("abc")`,
   * `parseFloat(" -x")` and `parseFloat(".e1")` are NaN, `parseFloat(".5")` is not.
   */
  lemma ParseFloatIsNaN(s: string)
    ensures ParseFloat(s) == NaN <==> NoNumericPrefix(StripSign(TrimStart(s)).1)
  {
    var u := StripSign(TrimStart(s)).1;
    assert ParseFloat(s) == NaN <==> ParseUnsignedFloat(u) == NaN;
    if !StartsWith(u, "Infinity") {
      var whole := LeadingDigits(u, 10);
      assert whole == [] <==> u == [] || !IsDigit(u[0], 10);
      if whole == [] {
        assert u[|whole|..] == u;
        if u != [] && u[0] == '.' {
          assert LeadingDigits(u[1..], 10) == [] <==> |u| == 1 || !IsDigit(u[1], 10);
        }
      }
    }
  }

  /** A minus sign in front of text that starts with no white space or sign negates its value. */
  lemma ParseFloatOfMinus(u: string)
    requires u == [] || (!IsWhiteSpace(u[0]) && u[0] != '-' && u[0] != '+')
    ensures ParseFloat("-" + u) == Negate(ParseFloat(u))
  {
    StripMinusStart("-" + u);
    assert ("-" + u)[1..] == u;
    TrimStartNoSpace(u);
  }

  /** Without an exponent, a decimal literal is its digits scaled down by its fraction length. */
  lemma DecimalValueNoExponent(whole: string, fraction: string)
    ensures DecimalValue(whole, fraction, []) == DigitsValue(whole + fraction, 10) as real / Pow10(|fraction|) as real
  {
    assert ExponentOf([]) == 0;
    assert Scale(0) == 1.0;
  }

  /** The unsigned float syntax reads a digit string without fraction or exponent as its value. */
  lemma ParseUnsignedFloatOfNatToString(n: nat)
    ensures ParseUnsignedFloat(NatToString(n)) == Finite(n as real)
  {
    var ds := NatToString(n);
    assert forall i :: 0 <= i < |ds| ==> IsDigit(ds[i], 10);
    assert LeadingDigits(ds, 10) == ds by {
      LeadingDigitsOfDigits(ds, [], 10);
      assert ds + [] == ds;
    }
    assert ds[|ds|..] == [];
    assert AfterWholeDigits(ds, []) == DecimalLiteral(ds, [], []);
    assert DecimalValue(ds, [], []) == n as real by {
      DecimalValueNoExponent(ds, []);
      assert ds + [] == ds;
      NatToStringValue(n);
    }
  }

  /** `parseFloat` reads an integer written in decimal as that integer. */
  lemma ParseFloatOfIntToString(n: int)
    ensures ParseFloat(IntToString(n)) == Finite(n as real)
  {
    var t := IntToString(n);
    if n < 0 {
      ParseUnsignedFloatOfNatToString(-n);
      StripMinusStart(t);
    } else {
      ParseUnsignedFloatOfNatToString(n);
      StripDigitStart(t);
    }
  }

  /** Digits, a point and more digits, with nothing after: a decimal fraction. */
  lemma {:induction false} ParseUnsignedFloatOfFraction(ws: string, fs: string)
    requires ws != [] && '0' <= ws[0] <= '9'
    requires forall i :: 0 <= i < |ws| ==> IsDigit(ws[i], 10)
    requires forall i :: 0 <= i < |fs| ==> IsDigit(fs[i], 10)
    ensures ParseUnsignedFloat(ws + "." + fs)
            == Finite(DigitsValue(ws + fs, 10) as real / Pow10(|fs|) as real)
  {
    var u := ws + "." + fs;
    assert !StartsWith(u, "Infinity") by {
      assert '0' <= u[0] <= '9';
    }
    assert LeadingDigits(u, 10) == ws by {
      LeadingDigitsOfDigits(ws, "." + fs, 10);
      assert u == ws + ("." + fs);
    }
    assert u[|ws|..] == "." + fs;
    assert AfterWholeDigits(ws, "." + fs) == DecimalLiteral(ws, fs, []) by {
      assert ("." + fs)[1..] == fs;
      assert LeadingDigits(fs, 10) == fs by {
        LeadingDigitsOfDigits(fs, [], 10);
        assert fs + [] == fs;
      }
      assert ("." + fs)[1 + |fs|..] == [];
    }
    DecimalValueNoExponent(ws, fs);
  }

  /** Exact division of `10 * w + d` by ten. */
  lemma TenthsQuotient(whole: nat, tenth: nat)
    ensures (whole * 10 + tenth) as real / 10.0 == whole as real + tenth as real / 10.0
  {
  }

  /** Whole digits spelling `w` followed by one digit `d`, scaled down by ten: `w + d/10`. */
  lemma OneDecimalValue(ws: string, fs: string, whole: nat, tenth: nat)
    requires |fs| == 1
    requires DigitsValue(ws, 10) == whole && DigitValue(fs[0]) == tenth
    ensures DigitsValue(ws + fs, 10) as real / Pow10(|fs|) as real == whole as real + tenth as real / 10.0
  {
    assert (ws + fs)[..|ws + fs| - 1] == ws;
    assert DigitsValue(ws + fs, 10) == whole * 10 + tenth;
    assert Pow10(1) == 10;
    TenthsQuotient(whole, tenth);
  }

  /** Whole digits spelling `w`, a point and one digit `d`: the value `w + d/10`. */
  lemma ParseUnsignedFloatOfOneDecimal(ws: string, fs: string, whole: nat, tenth: nat)
    requires ws != [] && '0' <= ws[0] <= '9'
    requires forall i :: 0 <= i < |ws| ==> IsDigit(ws[i], 10)
    requires |fs| == 1 && IsDigit(fs[0], 10)
    requires DigitsValue(ws, 10) == whole && DigitValue(fs[0]) == tenth
    ensures ParseUnsignedFloat(ws + "." + fs) == Finite(whole as real + tenth as real / 10.0)
  {
    ParseUnsignedFloatOfFraction(ws, fs);
    OneDecimalValue(ws, fs, whole, tenth);
  }

  /** The unsigned float syntax reads `w.d` as w plus d tenths. */
  lemma ParseUnsignedFloatOfTenths(whole: nat, tenth: nat)
    requires tenth < 10
    ensures ParseUnsignedFloat(NatToString(whole) + "." + NatToString(tenth))
            == Finite(whole as real + tenth as real / 10.0)
  {
    NatToStringValue(whole);
    ParseUnsignedFloatOfOneDecimal(NatToString(whole), NatToString(tenth), whole, tenth);
  }

  /** `parseFloat("w.d")` with one fractional digit is w plus d tenths (`"4.8"` is 4.8). */
  lemma ParseFloatOfTenths(whole: nat, tenth: nat)
    requires tenth < 10
    ensures ParseFloat(NatToString(whole) + "." + NatToString(tenth))
            == Finite(whole as real + tenth as real / 10.0)
  {
    ParseUnsignedFloatOfTenths(whole, tenth);
    StripDigitStart(NatToString(whole) + "." + NatToString(tenth));
  }

  /**
   * `Math.ceil(a / b)` for integers: the least integer not below the exact quotient.
   */
  function CeilQuotient(a: int, b: int): (r: int)
    requires b != 0
    ensures b > 0 ==> (r - 1) * b < a <= r * b
    ensures b < 0 ==> r * b <= a < (r - 1) * b
  {
    if b > 0 then -((-a) / b) else -(a / (-b))
  }
}
