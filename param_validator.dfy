/**
 * The check the `write-sys-param` handler applies before writing:
 * `/^[1-9]\d*$/.test(value)`. In JavaScript `\d` is an ASCII digit, and
 * without the `m` flag `$` matches only at the end of the input.
 */
module ParamValidator {

  predicate IsAsciiDigit(c: char) {
    '0' <= c <= '9'
  }

  /** `\d*$`: nothing but ASCII digits up to the end of the input. */
  predicate DigitsToEnd(s: string) {
    s == [] || (IsAsciiDigit(s[0]) && DigitsToEnd(s[1..]))
  }

  /** `/^[1-9]\d*$/.test(value)` */
  predicate IsPositiveIntegerText(value: string) {
    |value| > 0 && '1' <= value[0] <= '9' && DigitsToEnd(value[1..])
  }

  predicate AllDigits(s: string) {
    forall i :: 0 <= i < |s| ==> IsAsciiDigit(s[i])
  }

  lemma {:induction false} DigitsToEndIff(s: string)
    ensures DigitsToEnd(s) <==> AllDigits(s)
  {
    if s != [] {
      DigitsToEndIff(s[1..]);
      assert AllDigits(s) <==> IsAsciiDigit(s[0]) && AllDigits(s[1..]) by {
        if IsAsciiDigit(s[0]) && AllDigits(s[1..]) {
          forall i | 0 <= i < |s| ensures IsAsciiDigit(s[i]) {
            if i > 0 { assert s[i] == s[1..][i - 1]; }
          }
        }
      }
    }
  }

  /** A value is accepted iff it is non-empty, all ASCII digits, and does not start with '0'. */
  lemma AcceptedIff(value: string)
    ensures IsPositiveIntegerText(value) <==> |value| > 0 && value[0] != '0' && AllDigits(value)
  {
    if |value| > 0 {
      DigitsToEndIff(value[1..]);
      if AllDigits(value) {
        assert forall i :: 0 <= i < |value| - 1 ==> value[1..][i] == value[i + 1];
      }
      if IsPositiveIntegerText(value) {
        forall i | 0 <= i < |value| ensures IsAsciiDigit(value[i]) {
          if i > 0 { assert value[i] == value[1..][i - 1]; }
        }
      }
    }
  }

  /** The examples of the validator's contract. */
  lemma AcceptanceExamples()
    ensures IsPositiveIntegerText("1") && IsPositiveIntegerText("42") && IsPositiveIntegerText("999999")
    ensures !IsPositiveIntegerText("0") && !IsPositiveIntegerText("01") && !IsPositiveIntegerText("-1")
    ensures !IsPositiveIntegerText("") && !IsPositiveIntegerText("1.5") && !IsPositiveIntegerText("abc")
    ensures !IsPositiveIntegerText(" 1") && !IsPositiveIntegerText("1\n")
  {
    assert DigitsToEnd("2") && DigitsToEnd("99999");
    assert "1.5"[1..] == ".5" && "1\n"[1..] == "\n";
  }

  function DigitValue(c: char): (d: nat)
    requires IsAsciiDigit(c)
    ensures d < 10
  {
    (c as int) - ('0' as int)
  }

  function DigitChar(d: nat): (c: char)
    requires d < 10
    ensures IsAsciiDigit(c) && DigitValue(c) == d
  {
    (('0' as int) + d) as char
  }

  /** The number a string of ASCII digits denotes in base ten. */
  function DecimalValue(s: string): nat
    requires AllDigits(s)
  {
    if s == [] then 0 else DecimalValue(s[..|s| - 1]) * 10 + DigitValue(s[|s| - 1])
  }

  /** The base-ten text of a positive number, without leading zeros. */
  function DecimalText(n: nat): (s: string)
    requires n > 0
    ensures |s| > 0 && s[0] != '0' && AllDigits(s)
  {
    if n < 10 then [DigitChar(n)] else DecimalText(n / 10) + [DigitChar(n % 10)]
  }

  /** Every positive number's base-ten text is accepted. */
  lemma DecimalTextAccepted(n: nat)
    requires n > 0
    ensures IsPositiveIntegerText(DecimalText(n))
  {
    AcceptedIff(DecimalText(n));
  }

  /** Every accepted value is the base-ten text of the positive number it denotes. */
  lemma {:induction false} AcceptedIsDecimalText(value: string)
    requires IsPositiveIntegerText(value)
    ensures AllDigits(value) && DecimalValue(value) > 0 && DecimalText(DecimalValue(value)) == value
  {
    AcceptedIff(value);
    var p := value[..|value| - 1];
    var c := value[|value| - 1];
    if |value| == 1 {
      assert p == [];
      assert DigitChar(DigitValue(c)) == c;
      assert [c] == value;
    } else {
      assert p[0] == value[0];
      assert AllDigits(p) by {
        forall i | 0 <= i < |p| ensures IsAsciiDigit(p[i]) { assert p[i] == value[i]; }
      }
      AcceptedIff(p);
      AcceptedIsDecimalText(p);
      var n := DecimalValue(value);
      assert n == DecimalValue(p) * 10 + DigitValue(c);
      assert n / 10 == DecimalValue(p) && n % 10 == DigitValue(c);
      assert DigitChar(DigitValue(c)) == c;
      assert p + [c] == value;
    }
  }

  /** The accepted values are exactly the base-ten texts of positive numbers. */
  lemma AcceptedIffDecimalText(value: string)
    ensures IsPositiveIntegerText(value) <==> exists n: nat :: n > 0 && DecimalText(n) == value
  {
    if IsPositiveIntegerText(value) {
      AcceptedIsDecimalText(value);
    }
    if exists n: nat :: n > 0 && DecimalText(n) == value {
      var n: nat :| n > 0 && DecimalText(n) == value;
      DecimalTextAccepted(n);
    }
  }
}
