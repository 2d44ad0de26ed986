/**
 * Reading numbers out of text as JavaScript does: parseInt without a radix,
 * and whether Number(value) is a number rather than NaN.
 */
module JsNumbers {
  import opened Wrappers
  import opened JsText
  import opened JsValues

  /** How many decimal digits `s` starts with. */
  function DigitRun(s: string): (n: nat)
    ensures n <= |s|
    ensures forall i :: 0 <= i < n ==> IsDigit(s[i])
    ensures n < |s| ==> !IsDigit(s[n])
  {
    if |s| > 0 && IsDigit(s[0]) then 1 + DigitRun(s[1..]) else 0
  }

  /** A string of digits followed by anything but a digit: the run is exactly those digits. */
  lemma {:induction false} DigitRunOfDigits(ds: string, rest: string)
    requires AllDigits(ds)
    requires |rest| == 0 || !IsDigit(rest[0])
    ensures DigitRun(ds + rest) == |ds|
  {
    if |ds| > 0 {
      assert (ds + rest)[1..] == ds[1..] + rest;
      DigitRunOfDigits(ds[1..], rest);
    } else {
      assert ds + rest == rest;
    }
  }

  /**
   * parseInt(s) without a radix on decimal text: leading white space is
   * skipped, an optional sign read, then the longest run of digits; None (NaN)
   * when there are no digits.
   */
  function ParseInt(s: string): (r: Option<int>)
    ensures r.None? <==> DigitRun(Unsigned(TrimStart(s))) == 0
  {
    var t := TrimStart(s);
    var digits := Unsigned(t);
    var n := DigitRun(digits);
    if n == 0 then None
    else
      var magnitude: int := DigitsValue(digits[..n]);
      Some(if |t| > 0 && t[0] == '-' then -magnitude else magnitude)
  }

  /** The text after an optional leading sign. */
  function Unsigned(t: string): string {
    if |t| > 0 && (t[0] == '-' || t[0] == '+') then t[1..] else t
  }

  /** parseInt reads back the decimal text of a number, whatever non-digit text follows it. */
  lemma ParseIntOfDecimal(n: nat, rest: string)
    requires |rest| == 0 || !IsDigit(rest[0])
    ensures ParseInt(NatToString(n) + rest) == Some(n)
  {
    var ds := NatToString(n);
    var s := ds + rest;
    assert s[0] == ds[0];
    DigitIsNotWhitespace(ds[0]);
    TrimStartKeeps(s);
    assert Unsigned(s) == s;
    DigitRunOfDigits(ds, rest);
    assert s[..|ds|] == ds;
  }

  // ----- Number(value) -----

  predicate IsSign(c: char) {
    c == '+' || c == '-'
  }

  /** Digits, optionally behind one sign, and at least one of them. */
  predicate SignedDigits(s: string) {
    if |s| > 0 && IsSign(s[0]) then |s| > 1 && AllDigits(s[1..]) else |s| > 0 && AllDigits(s)
  }

  /** An optional exponent: "e" or "E" and signed digits. */
  predicate ExponentPart(e: string) {
    e == [] || (|e| >= 2 && (e[0] == 'e' || e[0] == 'E') && SignedDigits(e[1..]))
  }

  /** "Infinity", or digits with an optional fraction and exponent, the mantissa holding a digit. */
  predicate UnsignedDecimal(t: string) {
    t == "Infinity"
    || var a := DigitRun(t);
       if a < |t| && t[a] == '.' then
         var b := DigitRun(t[a + 1..]);
         a + b > 0 && ExponentPart(t[a + 1 + b..])
       else
         a > 0 && ExponentPart(t[a..])
  }

  /** A decimal literal with an optional sign. */
  predicate DecimalLiteral(t: string) {
    UnsignedDecimal(t) || (|t| > 0 && IsSign(t[0]) && UnsignedDecimal(t[1..]))
  }

  predicate AllIn(s: string, digits: string) {
    forall i :: 0 <= i < |s| ==> s[i] in digits
  }

  /** "0x…", "0o…" or "0b…" with at least one digit of that base. */
  predicate NonDecimalLiteral(t: string) {
    |t| > 2 && t[0] == '0' &&
      (((t[1] == 'x' || t[1] == 'X') && AllIn(t[2..], "0123456789abcdefABCDEF"))
       || ((t[1] == 'o' || t[1] == 'O') && AllIn(t[2..], "01234567"))
       || ((t[1] == 'b' || t[1] == 'B') && AllIn(t[2..], "01")))
  }

  /** Number(s) is not NaN: the trimmed text is empty (0) or a numeric literal. */
  predicate NumericString(s: string) {
    var t := Trim(s);
    t == [] || DecimalLiteral(t) || NonDecimalLiteral(t)
  }

  /** Number(v) is not NaN, for the values a form holds. */
  predicate NumericValue(v: JsValue) {
    match v
    case JStr(s) => NumericString(s)
    case JNum(_) => true
    case JBool(_) => true
    case JNull => true
    case JArr(_) => false
    case JObj(_) => false
  }

  /** The decimal text of a natural number is numeric. */
  lemma NaturalIsNumeric(n: nat)
    ensures NumericString(NatToString(n))
  {
    var ds := NatToString(n);
    DigitIsNotWhitespace(ds[0]);
    DigitIsNotWhitespace(ds[|ds| - 1]);
    assert Trimmed(ds);
    DigitRunOfDigits(ds, "");
    assert ds + "" == ds;
    assert ds[|ds|..] == [];
    assert UnsignedDecimal(ds);
  }

  /** Digits, a point and digits form a decimal literal. */
  lemma FractionIsDecimal(da: string, db: string)
    requires |da| > 0 && AllDigits(da) && AllDigits(db)
    ensures UnsignedDecimal(da + "." + db)
  {
    var t := da + "." + db;
    assert t == da + ("." + db);
    DigitRunOfDigits(da, "." + db);
    assert t[|da|] == '.';
    assert t[|da| + 1..] == db;
    DigitRunOfDigits(db, "");
    assert db + "" == db;
    assert t[|da| + 1 + |db|..] == [];
  }

  /** A decimal fraction "a.b" is numeric. */
  lemma FractionIsNumeric(a: nat, b: nat)
    ensures NumericString(NatToString(a) + "." + NatToString(b))
  {
    var da, db := NatToString(a), NatToString(b);
    var t := da + "." + db;
    assert t[0] == da[0];
    assert t[|t| - 1] == db[|db| - 1];
    DigitIsNotWhitespace(da[0]);
    DigitIsNotWhitespace(db[|db| - 1]);
    TrimStartKeeps(t);
    TrimEndKeeps(t);
    assert Trim(t) == t;
    FractionIsDecimal(da, db);
    assert DecimalLiteral(t);
  }

  /** Spaces around the decimal text of a number are ignored. */
  lemma PaddedIsNumeric(n: nat)
    ensures NumericString(" " + NatToString(n) + " ")
  {
    var ds := NatToString(n);
    NaturalIsNumeric(n);
    DigitIsNotWhitespace(ds[0]);
    DigitIsNotWhitespace(ds[|ds| - 1]);
    var padded := " " + ds + " ";
    assert padded == [' '] + (ds + " ");
    TrimStartSkips(' ', ds + " ");
    assert (ds + " ")[0] == ds[0];
    TrimStartKeeps(ds + " ");
    TrimEndSkips(ds, ' ');
    TrimEndKeeps(ds);
    assert Trim(padded) == ds;
  }

  /** Text starting with a letter other than "I" (of "Infinity") is NaN. */
  lemma WordIsNotNumeric(s: string)
    requires Trimmed(s) && |s| > 0
    requires !IsDigit(s[0]) && !IsSign(s[0]) && s[0] != '.' && s[0] != 'I'
    ensures !NumericString(s)
  {
    assert Trim(s) == s;
    assert DigitRun(s) == 0;
  }

  /**
   * Digits followed by a separator or a unit are NaN: "1,000", "12kg". The
   * character after the digits is none that a literal may continue with.
   */
  lemma SuffixIsNotNumeric(n: nat, rest: string)
    requires |rest| > 0 && !IsJsWhitespace(rest[|rest| - 1])
    requires !IsDigit(rest[0]) && rest[0] !in ".eExXoObB"
    ensures !NumericString(NatToString(n) + rest)
  {
    var ds := NatToString(n);
    var t := ds + rest;
    assert t[0] == ds[0] && t[|t| - 1] == rest[|rest| - 1];
    DigitIsNotWhitespace(ds[0]);
    assert Trimmed(t);
    assert Trim(t) == t;
    DigitRunOfDigits(ds, rest);
    assert t[|ds|..] == rest;
    assert t != "Infinity" by {
      assert IsDigit(t[0]);
    }
    assert !UnsignedDecimal(t);
    assert !IsSign(t[0]);
    assert !NonDecimalLiteral(t);
  }
}
