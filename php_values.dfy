/** PHP value semantics that the plugin relies on: the truthiness of an
    option value (`if ( $admin_only )`, `$url ? … : …`) and the `(int)` cast
    of an option string compared with `=== 1`.

    `get_option( $name )` returns PHP `false` for an option that was never
    stored, and the stored string otherwise; `Value` is that return type. */
module PhpValues {

  datatype Option<T> = None | Some(value: T) {
    function GetOr(default: T): T {
      match this
      case Some(v) => v
      case None => default
    }
  }

  /** What `get_option` hands back: `false` when nothing is stored, else a string. */
  datatype Value = False | Str(s: string)

  /** PHP truthiness: `false`, `""` and `"0"` are false, every other string is true. */
  predicate Truthy(v: Value) {
    v.Str? && v.s != "" && v.s != "0"
  }

  /** The six characters PHP skips before a numeric string: space, \t, \n, \r, \v, \f. */
  predicate IsWhitespace(c: char) {
    c == ' ' || c == '\t' || c == '\n' || c == '\r' || c == '\U{000B}' || c == '\U{000C}'
  }

  predicate IsDigit(c: char) {
    '0' <= c <= '9'
  }

  predicate AllDigits(d: string) {
    forall i :: 0 <= i < |d| ==> IsDigit(d[i])
  }

  /** The string with its leading PHP whitespace removed. */
  function SkipWhitespace(s: string): (r: string)
    ensures |r| <= |s| && r == s[|s| - |r|..]
    ensures forall i :: 0 <= i < |s| - |r| ==> IsWhitespace(s[i])
    ensures r == [] || !IsWhitespace(r[0])
  {
    if s != [] && IsWhitespace(s[0]) then SkipWhitespace(s[1..]) else s
  }

  /** The longest prefix of `s` made of decimal digits. */
  function DigitPrefix(s: string): (r: string)
    ensures |r| <= |s| && r == s[..|r|]
    ensures AllDigits(r)
    ensures |r| < |s| ==> !IsDigit(s[|r|])
  {
    if s != [] && IsDigit(s[0]) then [s[0]] + DigitPrefix(s[1..]) else []
  }

  function DigitValue(c: char): nat
    requires IsDigit(c)
  {
    (c as int) - ('0' as int)
  }

  /** The value of a string of decimal digits, most significant first. */
  function DigitsValue(d: string): nat
    requires AllDigits(d)
  {
    if d == [] then 0 else DigitsValue(d[..|d| - 1]) * 10 + DigitValue(d[|d| - 1])
  }

  function Pow10(n: nat): (r: nat)
    ensures r >= 1
  {
    if n == 0 then 1 else 10 * Pow10(n - 1)
  }

  /** The numeric prefix PHP recognises in a string: a sign, the digits
      before and after a decimal point, and a decimal exponent. */
  datatype Numeral = Numeral(negative: bool, whole: string, fraction: string, exponent: int)

  /** The exponent part `e[+-]digits` at the head of `t`, or 0 when `t` does
      not start with one (an `e` not followed by a digit is trailing data). */
  function ScanExponent(t: string): int
  {
    if |t| >= 2 && (t[0] == 'e' || t[0] == 'E') then
      var signed := t[1] == '+' || t[1] == '-';
      var digits := DigitPrefix(if signed then t[2..] else t[1..]);
      if digits == [] then 0
      else if t[1] == '-' then -(DigitsValue(digits) as int)
      else DigitsValue(digits)
    else 0
  }

  /** The leading numeric part of `s` as PHP's numeric-string scanner reads
      it: optional whitespace, an optional sign, then either digits with an
      optional `.` and more digits, or a `.` followed by at least one digit,
      then an optional exponent. None when `s` has no numeric prefix. */
  function ScanNumeral(s: string): (r: Option<Numeral>)
    ensures r.Some? ==> AllDigits(r.value.whole) && AllDigits(r.value.fraction)
    ensures r.Some? ==> r.value.whole != [] || r.value.fraction != []
  {
    ScanSigned(SkipWhitespace(s))
  }

  /** ScanNumeral once the leading whitespace is gone. */
  function ScanSigned(t: string): (r: Option<Numeral>)
    ensures r.Some? ==> AllDigits(r.value.whole) && AllDigits(r.value.fraction)
    ensures r.Some? ==> r.value.whole != [] || r.value.fraction != []
  {
    var negative := t != [] && t[0] == '-';
    var u := if t != [] && (t[0] == '-' || t[0] == '+') then t[1..] else t;
    var whole := DigitPrefix(u);
    var afterWhole := u[|whole|..];
    if whole == [] && !(|afterWhole| >= 2 && afterWhole[0] == '.' && IsDigit(afterWhole[1])) then
      None
    else
      var hasPoint := afterWhole != [] && afterWhole[0] == '.';
      var fraction := if hasPoint then DigitPrefix(afterWhole[1..]) else [];
      var rest := if hasPoint then afterWhole[1 + |fraction|..] else afterWhole;
      Some(Numeral(negative, whole, fraction, ScanExponent(rest)))
  }

  /** The numeral's value truncated toward zero, computed exactly. */
  function Truncated(n: Numeral): int
    requires AllDigits(n.whole) && AllDigits(n.fraction)
  {
    assert AllDigits(n.whole + n.fraction) by {
      forall i | 0 <= i < |n.whole + n.fraction| ensures IsDigit((n.whole + n.fraction)[i]) {
        if i >= |n.whole| { assert (n.whole + n.fraction)[i] == n.fraction[i - |n.whole|]; }
      }
    }
    var mantissa := DigitsValue(n.whole + n.fraction);
    var scale := |n.fraction|;
    var magnitude :=
      if n.exponent >= scale then mantissa * Pow10((n.exponent - scale) as nat)
      else mantissa / Pow10((scale - n.exponent) as nat);
    if n.negative then -magnitude else magnitude
  }

  const LongMin: int := -0x8000_0000_0000_0000
  const LongMax: int := 0x7FFF_FFFF_FFFF_FFFF

  /** A 64-bit PHP integer: out-of-range values saturate. */
  function Saturate(x: int): (r: int)
    ensures LongMin <= r <= LongMax
    ensures LongMin <= x <= LongMax ==> r == x
  {
    if x < LongMin then LongMin else if x > LongMax then LongMax else x
  }

  /** PHP's `(int)` cast of a `get_option` result: `false` is 0, a string is
      its leading numeral truncated toward zero, and 0 if it has none. The
      result is always a 64-bit PHP integer. */
  function IntCast(v: Value): (r: int)
    ensures LongMin <= r <= LongMax
    ensures v == False ==> r == 0
  {
    match v
    case False => 0
    case Str(s) => NumeralToInt(ScanNumeral(s))
  }

  /** A scanned numeral as a PHP integer; no numeral at all casts to 0. */
  function NumeralToInt(r: Option<Numeral>): int
    requires r.Some? ==> AllDigits(r.value.whole) && AllDigits(r.value.fraction)
  {
    match r
    case None => 0
    case Some(n) => Saturate(Truncated(n))
  }

  /** `(int) $v === 1`. */
  predicate IntIs1(v: Value) {
    IntCast(v) == 1
  }

  /** Leading whitespace never changes the cast. */
  lemma {:induction false} IntCastSkipsWhitespace(w: string, s: string)
    requires forall i :: 0 <= i < |w| ==> IsWhitespace(w[i])
    ensures IntCast(Str(w + s)) == IntCast(Str(s))
  {
    SkipWhitespaceOfPrefix(w, s);
  }

  lemma {:induction false} SkipWhitespaceOfPrefix(w: string, s: string)
    requires forall i :: 0 <= i < |w| ==> IsWhitespace(w[i])
    ensures SkipWhitespace(w + s) == SkipWhitespace(s)
  {
    if w != [] {
      assert (w + s)[0] == w[0] && IsWhitespace(w[0]);
      assert (w + s)[1..] == w[1..] + s;
      SkipWhitespaceOfPrefix(w[1..], s);
    } else {
      assert w + s == s;
    }
  }

  /** A plain string of decimal digits casts to the number it spells,
      saturated to 64 bits. */
  lemma DecimalStringCast(d: string)
    requires d != [] && AllDigits(d)
    ensures IntCast(Str(d)) == Saturate(DigitsValue(d))
  {
    assert SkipWhitespace(d) == d;
    ScanDecimal(d);
    assert ScanNumeral(d) == Some(Numeral(false, d, [], 0));
    TruncatedInteger(d);
    assert NumeralToInt(ScanNumeral(d)) == Saturate(DigitsValue(d));
  }

  lemma ScanDecimal(d: string)
    requires d != [] && AllDigits(d)
    ensures ScanSigned(d) == Some(Numeral(false, d, [], 0))
  {
    DigitPrefixOfDigits(d);
    assert d[|d|..] == [];
  }

  lemma TruncatedInteger(d: string)
    requires AllDigits(d)
    ensures Truncated(Numeral(false, d, [], 0)) == DigitsValue(d)
  {
    assert d + [] == d;
  }

  lemma {:induction false} DigitPrefixOfDigits(d: string)
    requires AllDigits(d)
    ensures DigitPrefix(d) == d
  {
    if d != [] {
      DigitPrefixOfDigits(d[1..]);
    }
  }

  /** A value that casts to 1 is truthy: `""`, `"0"` and `false` all cast to 0. */
  lemma IntIs1ImpliesTruthy(v: Value)
    ensures IntIs1(v) ==> Truthy(v)
  {
    if v == Str("0") {
      DecimalStringCast("0");
      assert DigitsValue("0") == 0 by { assert "0"[..0] == []; }
    } else if v == Str("") {
      assert ScanNumeral("") == None;
    }
  }

  /** The values the settings form stores for a checkbox (`"1"` when ticked,
      `""` when cleared) and an option never saved read the same way under
      both tests, so for them `(int) … === 1` and truthiness agree. */
  lemma CheckboxValuesAgree(v: Value)
    requires v == False || v == Str("") || v == Str("1")
    ensures IntIs1(v) <==> Truthy(v)
    ensures IntIs1(v) <==> v == Str("1")
  {
    if v == Str("1") {
      DecimalStringCast("1");
      assert DigitsValue("1") == 1 by { assert "1"[..0] == []; }
    } else if v == Str("") {
      assert ScanNumeral("") == None;
    }
  }
}
