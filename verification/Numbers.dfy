/** Decimal numbers in sentence fields: formatting and parsing. */
module Numbers {
  import opened Wrappers
  import opened Text

  function Digit(value: nat): char
    requires value < 10
  {
    (48 + value) as char
  }

  function DigitValue(c: char): (value: nat)
    requires IsDigit(c)
    ensures value < 10
  {
    c as int - 48
  }

  predicate AllDigits(text: string) {
    forall i :: 0 <= i < |text| ==> IsDigit(text[i])
  }

  function DigitsValue(text: string): nat
    requires AllDigits(text)
  {
    if text == [] then 0
    else
      var n := |text| - 1;
      10 * DigitsValue(text[..n]) + DigitValue(text[n])
  }

  /** The source's `pow10`: a loop over a running product. */
  method ComputePow10(exponent: int) returns (result: nat)
    ensures result == Pow10(if exponent < 0 then 0 else exponent)
  {
    result := 1;
    var i := 0;
    while i < exponent
      invariant 0 <= i <= (if exponent < 0 then 0 else exponent) && result == Pow10(i)
    {
      result := result * 10;
      i := i + 1;
    }
  }

  function Pow10(n: nat): (p: nat)
    ensures p >= 1
  {
    if n == 0 then 1 else 10 * Pow10(n - 1)
  }

  function Decimal(value: nat): string {
    if value < 10 then [Digit(value)] else Decimal(value / 10) + [Digit(value % 10)]
  }

  /** Decimal digits that read back as the number, no more of them than its size needs. */
  lemma {:induction false} DecimalReadsBack(value: nat)
    ensures AllDigits(Decimal(value)) && DigitsValue(Decimal(value)) == value
    ensures Decimal(value) != [] && Pow10(|Decimal(value)|) > value
    ensures |Decimal(value)| > 1 ==> Pow10(|Decimal(value)| - 1) <= value
  {
    var text := Decimal(value);
    if value < 10 {
      assert text[..0] == [];
    } else {
      DecimalReadsBack(value / 10);
      assert text[..|text| - 1] == Decimal(value / 10);
    }
  }

  lemma {:induction false} Pow10Monotonic(m: nat, n: nat)
    requires m <= n
    ensures Pow10(m) <= Pow10(n)
    decreases n
  {
    if m < n {
      Pow10Monotonic(m, n - 1);
    }
  }

  lemma DecimalLength(value: nat, digits: nat)
    requires digits >= 1
    ensures |Decimal(value)| <= digits <==> value < Pow10(digits)
  {
    DecimalReadsBack(value);
    var n := |Decimal(value)|;
    if n <= digits {
      Pow10Monotonic(n, digits);
    } else {
      Pow10Monotonic(digits, n - 1);
    }
  }

  function Zeros(n: nat): (z: string)
    ensures |z| == n
  {
    if n == 0 then [] else Zeros(n - 1) + ['0']
  }

  /** A number with leading zeros up to a minimum width. */
  function Padded(value: nat, width: nat): string {
    var digits := Decimal(value);
    if |digits| < width then Zeros(width - |digits|) + digits else digits
  }

  lemma DigitsValueExtends(text: string, c: char)
    requires AllDigits(text) && IsDigit(c)
    ensures AllDigits(text + [c]) && DigitsValue(text + [c]) == 10 * DigitsValue(text) + DigitValue(c)
  {
    assert (text + [c])[..|text|] == text;
  }

  lemma ShiftsTenfold(x: nat, power: nat)
    ensures x * (10 * power) == 10 * (x * power)
  {
  }

  lemma {:induction false} DigitsValueConcat(a: string, b: string)
    requires AllDigits(a) && AllDigits(b)
    ensures AllDigits(a + b)
    ensures DigitsValue(a + b) == DigitsValue(a) * Pow10(|b|) + DigitsValue(b)
    decreases |b|
  {
    if b == [] {
      assert a + b == a;
    } else {
      var n := |b| - 1;
      DigitsValueConcat(a, b[..n]);
      assert Pow10(|b|) == 10 * Pow10(n);
      hide DigitsValue, DigitValue, Pow10;
      DigitsValueExtends(a + b[..n], b[n]);
      DigitsValueExtends(b[..n], b[n]);
      assert a + b[..n] + [b[n]] == a + b && b[..n] + [b[n]] == b;
      ShiftsTenfold(DigitsValue(a), Pow10(n));
    }
  }

  lemma {:induction false} LeadingZeros(n: nat, digits: string)
    requires AllDigits(digits)
    ensures AllDigits(Zeros(n) + digits) && DigitsValue(Zeros(n) + digits) == DigitsValue(digits)
    decreases n
  {
    if n == 0 {
      assert Zeros(0) + digits == digits;
    } else {
      LeadingZeros(n - 1, ['0'] + digits);
      assert Zeros(n) + digits == Zeros(n - 1) + (['0'] + digits);
      DigitsValueConcat(['0'], digits);
      assert ['0'][..0] == [];
      assert DigitsValue(['0']) == 0;
    }
  }

  lemma PaddedReadsBack(value: nat, width: nat)
    ensures AllDigits(Padded(value, width)) && DigitsValue(Padded(value, width)) == value
    ensures Padded(value, width) != []
    ensures width >= 1 && value < Pow10(width) ==> |Padded(value, width)| == width
  {
    var digits := Decimal(value);
    DecimalReadsBack(value);
    if |digits| < width {
      LeadingZeros(width - |digits|, digits);
    } else if width >= 1 {
      DecimalLength(value, width);
    }
  }

  // Parsing

  function Tenth(n: nat): real {
    if n == 0 then 1.0 else Tenth(n - 1) / 10.0
  }

  /** The value of the digits after a decimal point. */
  function Fraction(digits: string): real
    requires AllDigits(digits)
  {
    if digits == [] then 0.0
    else
      var n := |digits| - 1;
      Fraction(digits[..n]) + DigitValue(digits[n]) as real * Tenth(n + 1)
  }

  lemma {:induction false} TenthInverse(n: nat)
    ensures Tenth(n) * Pow10(n) as real == 1.0 && Tenth(n) > 0.0
  {
    if n > 0 {
      TenthInverse(n - 1);
      var (t, p) := (Tenth(n - 1), Pow10(n - 1) as real);
      assert Pow10(n) as real == 10.0 * p;
      assert (t / 10.0) * (10.0 * p) == t * p;
    }
  }

  lemma {:induction false} FractionIsRatio(digits: string)
    requires AllDigits(digits)
    ensures Fraction(digits) == DigitsValue(digits) as real * Tenth(|digits|)
  {
    if digits != [] {
      var n := |digits| - 1;
      FractionIsRatio(digits[..n]);
      var (v, t) := (DigitsValue(digits[..n]) as real, Tenth(n));
      assert v * t == 10.0 * v * (t / 10.0);
    }
  }

  lemma {:induction false} DigitsValueBound(digits: string)
    requires AllDigits(digits)
    ensures DigitsValue(digits) < Pow10(|digits|)
  {
    if digits != [] {
      DigitsValueBound(digits[..|digits| - 1]);
    }
  }

  /** Digits, and optionally a point and more digits; at least one digit in all. */
  function ParseUnsigned(text: string): Option<real> {
    var dot := IndexOf(text, '.');
    var whole, fraction := text[..dot], if dot < |text| then text[dot + 1..] else [];
    if !AllDigits(whole) || !AllDigits(fraction) || whole + fraction == [] then None
    else Some(DigitsValue(whole) as real + Fraction(fraction))
  }

  /** A number with an optional sign. */
  function ParseNumber(value: string): Option<real> {
    var text := Trim(value);
    if text == [] then None else
    var signed := text[0] == '-' || text[0] == '+';
    match ParseUnsigned(if signed then text[1..] else text)
    case None => None
    case Some(magnitude) => Some(if text[0] == '-' then -magnitude else magnitude)
  }

  /** `run` characters of `text` are digits and the next one, if any, is not. */
  predicate IsDigitRun(text: string, run: nat) {
    run <= |text| && AllDigits(text[..run]) && (run < |text| ==> !IsDigit(text[run]))
  }

  method ScanWhole(text: string) returns (result: real, run: nat)
    ensures IsDigitRun(text, run) && result == DigitsValue(text[..run]) as real
  {
    result, run := 0.0, 0;
    while run < |text| && IsDigit(text[run])
      invariant run <= |text| && AllDigits(text[..run]) && result == DigitsValue(text[..run]) as real
    {
      assert text[..run + 1][..run] == text[..run];
      result := result * 10.0 + DigitValue(text[run]) as real;
      run := run + 1;
    }
  }

  method ScanFraction(text: string, whole: real) returns (result: real, run: nat)
    ensures IsDigitRun(text, run) && result == whole + Fraction(text[..run])
  {
    result, run := whole, 0;
    var scale := 0.1;
    while run < |text| && IsDigit(text[run])
      invariant run <= |text| && AllDigits(text[..run]) && scale == Tenth(run + 1)
      invariant result == whole + Fraction(text[..run])
    {
      assert text[..run + 1][..run] == text[..run];
      result := result + DigitValue(text[run]) as real * scale;
      scale := scale / 10.0;
      run := run + 1;
    }
  }

  lemma RunIsAll(text: string, run: nat)
    requires IsDigitRun(text, run)
    ensures run == |text| <==> AllDigits(text)
    ensures run == |text| ==> text[..run] == text
  {
    assert run == |text| ==> text[..run] == text;
  }

  /** The loops over the digits of each part, the second with a shrinking scale. */
  method ScanUnsigned(rest: string) returns (number: Option<real>)
    ensures number == ParseUnsigned(rest)
  {
    assert Fraction("") == 0.0;
    hide IndexOf, DigitsValue, Fraction;
    var result, run := ScanWhole(rest);
    WholeEndsAtPoint(rest, run);
    if run < |rest| && rest[run] == '.' {
      var tail := rest[run + 1..];
      var digits;
      result, digits := ScanFraction(tail, result);
      RunIsAll(tail, digits);
      if run + digits == 0 || digits != |tail| {
        return None;
      }
    } else if run == 0 || run != |rest| {
      return None;
    }
    number := Some(result);
  }

  /** The source's number parser: a sign, and the scan of the rest. */
  method ParseNumberField(value: string) returns (number: Option<real>)
    ensures number == ParseNumber(value)
  {
    hide Trim, ParseUnsigned;
    var text := TrimView(value);
    if text == [] {
      return None;
    }
    var sign := if text[0] == '-' then -1.0 else 1.0;
    var rest := if text[0] == '-' || text[0] == '+' then text[1..] else text;
    number := ScanUnsigned(rest);
    if number.Some? {
      number := Some(sign * number.value);
    }
  }

  /** The run of digits ends at the point, at the end, or at a character that spoils the number. */
  lemma {:induction false} WholeEndsAtPoint(rest: string, run: nat)
    requires IsDigitRun(rest, run)
    ensures var dot := IndexOf(rest, '.');
      && (run == dot <==> run == |rest| || rest[run] == '.')
      && (run == dot <==> AllDigits(rest[..dot]))
  {
    IndexOfFinds(rest, '.');
    var dot := IndexOf(rest, '.');
    assert forall i :: 0 <= i < run ==> rest[i] == rest[..run][i];
    assert run < dot ==> rest[run] == rest[..dot][run];
    assert !(dot < run);
  }

  lemma TimesInverse(value: real, inverse: real, scale: real)
    requires scale > 0.0 && inverse * scale == 1.0
    ensures value * inverse == value / scale
  {
    assert (value * inverse) * scale == value * (inverse * scale);
  }

  lemma FractionIsScaled(digits: string, value: nat)
    requires AllDigits(digits) && DigitsValue(digits) == value
    ensures Fraction(digits) == value as real / Pow10(|digits|) as real
  {
    hide *;
    FractionIsRatio(digits);
    TenthInverse(|digits|);
    TimesInverse(value as real, Tenth(|digits|), Pow10(|digits|) as real);
  }


  // Which texts are numbers, and what they stand for

  lemma DigitMeans(value: nat)
    requires value < 10
    ensures Digit(value) == "0123456789"[value] && DigitValue("0123456789"[value]) == value
  {
  }

  /** The text spells a number: an optional sign, digits, and optionally a point and more digits, one digit at least. */
  ghost predicate SpellsNumber(text: string, sign: string, whole: string, fraction: string, point: bool, x: real) {
    && sign in {"", "+", "-"} && AllDigits(whole) && AllDigits(fraction) && whole + fraction != ""
    && (!point ==> fraction == "")
    && text == sign + (whole + (if point then "." + fraction else ""))
    && var magnitude := DigitsValue(whole) as real + DigitsValue(fraction) as real / Pow10(|fraction|) as real;
       x == if sign == "-" then -magnitude else magnitude
  }

  /** Exactly the texts that spell a number are accepted, as the number they spell. */
  lemma ParseNumberMeans(value: string, x: real)
    ensures ParseNumber(value) == Some(x) <==>
      exists sign, whole, fraction, point :: SpellsNumber(Trim(value), sign, whole, fraction, point, x)
  {
    hide Trim, ParseNumber, SpellsNumber;
    if ParseNumber(value) == Some(x) {
      AcceptedNumberSpells(value, x);
    }
    forall sign, whole, fraction, point | SpellsNumber(Trim(value), sign, whole, fraction, point, x)
      ensures ParseNumber(value) == Some(x)
    {
      SpelledNumberIsAccepted(value, sign, whole, fraction, point, x);
    }
  }

  /** The parts of an unsigned number. */
  lemma UnsignedParts(text: string) returns (whole: string, fraction: string, point: bool)
    requires ParseUnsigned(text).Some?
    ensures AllDigits(whole) && AllDigits(fraction) && whole + fraction != "" && (!point ==> fraction == "")
    ensures text == whole + (if point then "." + fraction else "")
    ensures ParseUnsigned(text).value == DigitsValue(whole) as real + DigitsValue(fraction) as real / Pow10(|fraction|) as real
  {
    hide IndexOf, DigitsValue, Fraction, Pow10;
    IndexOfFinds(text, '.');
    var dot := IndexOf(text, '.');
    point := dot < |text|;
    whole, fraction := text[..dot], if point then text[dot + 1..] else "";
    FractionIsScaled(fraction, DigitsValue(fraction));
    assert point ==> text == whole + ("." + fraction);
  }

  lemma UnsignedOfParts(whole: string, fraction: string, point: bool)
    requires AllDigits(whole) && AllDigits(fraction) && whole + fraction != "" && (!point ==> fraction == "")
    ensures ParseUnsigned(whole + (if point then "." + fraction else ""))
         == Some(DigitsValue(whole) as real + DigitsValue(fraction) as real / Pow10(|fraction|) as real)
  {
    hide IndexOf, DigitsValue, Fraction, Pow10;
    var text := whole + (if point then "." + fraction else "");
    IndexOfIs(text, '.', |whole|);
    assert text[..|whole|] == whole;
    assert point ==> text[|whole| + 1..] == fraction;
    FractionIsScaled(fraction, DigitsValue(fraction));
  }

  lemma AcceptedNumberSpells(value: string, x: real)
    requires ParseNumber(value) == Some(x)
    ensures exists sign, whole, fraction, point :: SpellsNumber(Trim(value), sign, whole, fraction, point, x)
  {
    hide Trim, ParseUnsigned, DigitsValue, AllDigits, Pow10;
    var text := Trim(value);
    var signed := text[0] == '-' || text[0] == '+';
    var sign, rest := if signed then text[..1] else "", if signed then text[1..] else text;
    var whole, fraction, point := UnsignedParts(rest);
    assert text == sign + rest;
    assert signed ==> sign == [text[0]];
    assert SpellsNumber(text, sign, whole, fraction, point, x);
  }

  lemma SpelledNumberIsAccepted(value: string, sign: string, whole: string, fraction: string, point: bool, x: real)
    requires SpellsNumber(Trim(value), sign, whole, fraction, point, x)
    ensures ParseNumber(value) == Some(x)
  {
    hide Trim, ParseUnsigned, DigitsValue, Pow10;
    var text, rest := Trim(value), whole + (if point then "." + fraction else "");
    UnsignedOfParts(whole, fraction, point);
    assert rest[0] == '.' || IsDigit(rest[0]);
    if sign == "" {
      assert text == rest;
    } else {
      assert text[0] == sign[0] && text[1..] == rest;
    }
  }
}
