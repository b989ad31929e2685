/** Small text utilities shared by the model: an optional value, Java's
    `equalsIgnoreCase` restricted to ASCII letters, and the decimal rendering
    of an `int` that Java's string concatenation produces. */
module Text {

  datatype Option<+T> = None | Some(value: T) {
    function GetOr(default: T): T {
      match this
      case Some(v) => v
      case None => default
    }
  }

  /** ASCII lower-casing of one character; any other character is unchanged. */
  function Fold(c: char): char {
    if 'A' <= c <= 'Z' then (c as int + 32) as char else c
  }

  /** `a.equalsIgnoreCase(b)` for text whose letters are ASCII. */
  predicate EqualsIgnoreCase(a: string, b: string) {
    |a| == |b| && forall i :: 0 <= i < |a| ==> Fold(a[i]) == Fold(b[i])
  }

  function DigitChar(d: int): (c: char)
    requires 0 <= d < 10
    ensures '0' <= c <= '9'
  {
    ('0' as int + d) as char
  }

  predicate IsDigit(c: char) {
    '0' <= c <= '9'
  }

  /** Decimal digits of a natural number, most significant first, no leading zeros. */
  function Digits(n: nat): (s: string)
    ensures |s| > 0
    ensures forall i :: 0 <= i < |s| ==> IsDigit(s[i])
    decreases n
  {
    if n < 10 then [DigitChar(n)] else Digits(n / 10) + [DigitChar(n % 10)]
  }

  /** The text `"" + n` of a Java `int`: a minus sign for negative values, then the digits. */
  function DecimalText(n: int): string {
    if n < 0 then "-" + Digits(-n) else Digits(n)
  }

  function ParseDigits(s: string): nat
    decreases |s|
  {
    if s == [] then 0
    else
      var d := s[|s| - 1] as int - '0' as int;
      ParseDigits(s[..|s| - 1]) * 10 + (if 0 <= d < 10 then d else 0)
  }

  /** Reads back the text produced by `DecimalText`. */
  function ParseDecimal(s: string): int {
    if |s| > 0 && s[0] == '-' then -(ParseDigits(s[1..]) as int) else ParseDigits(s)
  }

  lemma {:induction false} DigitsRoundTrip(n: nat)
    ensures ParseDigits(Digits(n)) == n
    decreases n
  {
    if n >= 10 {
      var s := Digits(n);
      assert s[..|s| - 1] == Digits(n / 10);
      DigitsRoundTrip(n / 10);
    }
  }

  /** `DecimalText` loses nothing: its text determines the number. */
  lemma DecimalTextRoundTrip(n: int)
    ensures ParseDecimal(DecimalText(n)) == n
  {
    if n < 0 {
      assert ("-" + Digits(-n))[1..] == Digits(-n);
      DigitsRoundTrip(-n);
    } else {
      assert IsDigit(Digits(n)[0]);
      DigitsRoundTrip(n);
    }
  }

  lemma DecimalTextInjective(a: int, b: int)
    ensures DecimalText(a) == DecimalText(b) ==> a == b
  {
    DecimalTextRoundTrip(a);
    DecimalTextRoundTrip(b);
  }
}
