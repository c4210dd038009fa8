/** Latitude and longitude fields: degrees and decimal minutes, in ideal arithmetic. */
module Coordinates {
  import opened Wrappers
  import opened Basics
  import opened Text
  import opened Numbers
  import opened Angles

  datatype CoordinateField = CoordinateField(value: string, hemisphere: char)

  function Magnitude(x: real): (magnitude: real)
    ensures magnitude >= 0.0
  {
    if x < 0.0 then -x else x
  }

  /** The angle in units of the last minute digit, rounded once. */
  function Units(degrees: real, decimals: nat): int {
    Round(Magnitude(degrees) * 60.0 * Pow10(decimals) as real)
  }

  /** A quotient and remainder, both natural. */
  function DivMod(x: nat, d: nat): (parts: (nat, nat))
    requires d > 0
    ensures x == parts.0 * d + parts.1 && parts.1 < d
  {
    (x / d, x % d)
  }

  /** Degrees, two digits of whole minutes and, for `decimals > 0`, a point and the fraction. */
  function FormatParts(degrees: nat, degreeDigits: nat, minutes: nat, fraction: nat, decimals: nat): string {
    Padded(degrees, degreeDigits) + Padded(minutes, 2) + (if decimals > 0 then "." + Padded(fraction, decimals) else "")
  }

  /** The source's split of a count of units by integer division. */
  function FormatUnits(total: nat, degreeDigits: nat, decimals: nat): string {
    var (degrees, scaledMinutes) := DivMod(total, 60 * Pow10(decimals));
    var (minutes, fraction) := DivMod(scaledMinutes, Pow10(decimals));
    FormatParts(degrees, degreeDigits, minutes, fraction, decimals)
  }

  /** The decimals that are printed: none for a negative number of them. */
  function Digits(decimals: int): nat {
    if decimals < 0 then 0 else decimals
  }

  function FormatCoordinate(degrees: real, degreeDigits: nat, decimals: int): string {
    UnitsAreNatural(degrees, Digits(decimals));
    FormatUnits(Units(degrees, Digits(decimals)), degreeDigits, Digits(decimals))
  }

  function FormatLatitude(latitude: real, decimals: int): CoordinateField {
    CoordinateField(FormatCoordinate(latitude, 2, decimals), if latitude < 0.0 then 'S' else 'N')
  }

  function FormatLongitude(longitude: real, decimals: int): CoordinateField {
    CoordinateField(FormatCoordinate(longitude, 3, decimals), if longitude < 0.0 then 'W' else 'E')
  }

  /** The value the parser computes from a number of hundreds of degrees plus minutes. */
  function ReadDegrees(number: real): real {
    var whole := (number / 100.0).Floor as real;
    whole + (number - whole * 100.0) / 60.0
  }

  function Signed(value: real, letter: char): real {
    if letter == 'S' || letter == 'W' then -value else value
  }

  /** The parser's checks on the number, once it has been read. */
  function AcceptNumber(number: real, latitude: bool, letter: char): Option<real> {
    if number - (number / 100.0).Floor as real * 100.0 >= 60.0 then None
    else if ReadDegrees(number) > (if latitude then 90.0 else 180.0) then None
    else Some(Signed(ReadDegrees(number), letter))
  }

  function ParseCoordinate(text: string, hemisphere: string): Option<real> {
    var value := Trim(text);
    if |hemisphere| != 1 || value == [] || value[0] == '+' || value[0] == '-' then None else
    var letter := hemisphere[0];
    var latitude := letter == 'N' || letter == 'S';
    if !latitude && letter != 'E' && letter != 'W' then None else
    if IndexOf(value, '.') > (if latitude then 4 else 5) then None else
    match ParseNumber(value)
    case None => None
    case Some(number) => AcceptNumber(number, latitude, letter)
  }

  predicate HemisphereOf(latitude: bool, letter: char) {
    if latitude then letter == 'N' || letter == 'S' else letter == 'E' || letter == 'W'
  }

  /** A whole number, and optionally a point and a fraction. */
  function PlainNumber(whole: string, fraction: string, point: bool): string {
    whole + (if point then "." + fraction else "")
  }

  lemma PlainNumberParts(whole: string, fraction: string, point: bool)
    requires AllDigits(whole) && whole != [] && AllDigits(fraction)
    requires if point then fraction != [] else fraction == []
    ensures var text := PlainNumber(whole, fraction, point);
      && Trim(text) == text && text != [] && IsDigit(text[0])
      && IndexOf(text, '.') == |whole| && text[..|whole|] == whole
      && (if point then |whole| < |text| && text[|whole| + 1..] == fraction else |text| == |whole|)
  {
    var text := PlainNumber(whole, fraction, point);
    TrimFixes(text);
    assert forall i :: 0 <= i < |whole| ==> text[i] == whole[i];
    IndexOfIs(text, '.', |whole|);
  }

  /** It reads as the whole number plus the fraction. */
  lemma {:induction false} ParsePlainNumber(whole: string, fraction: string, point: bool)
    requires AllDigits(whole) && whole != [] && AllDigits(fraction)
    requires if point then fraction != [] else fraction == []
    ensures ParseNumber(PlainNumber(whole, fraction, point)) == Some(DigitsValue(whole) as real + Fraction(fraction))
  {
    hide Trim, PlainNumber;
    var text := PlainNumber(whole, fraction, point);
    PlainNumberParts(whole, fraction, point);
    assert whole + fraction != [];
    assert ParseUnsigned(text) == Some(DigitsValue(whole) as real + Fraction(fraction));
  }

  lemma PaddedFraction(fraction: nat, decimals: nat)
    requires fraction < Pow10(decimals)
    ensures var tail := if decimals > 0 then Padded(fraction, decimals) else "";
      && AllDigits(tail) && (tail == [] <==> decimals == 0)
      && Fraction(tail) == fraction as real / Pow10(decimals) as real
  {
    var digits := Padded(fraction, decimals);
    PaddedReadsBack(fraction, decimals);
    if decimals > 0 {
      FractionIsScaled(digits, fraction);
    }
  }

  lemma DegreesAndMinutes(degrees: nat, degreeDigits: nat, minutes: nat)
    requires minutes < 60
    ensures var whole := Padded(degrees, degreeDigits) + Padded(minutes, 2);
      && AllDigits(whole) && DigitsValue(whole) == 100 * degrees + minutes
      && |whole| == |Padded(degrees, degreeDigits)| + 2
  {
    assert Pow10(2) == 100;
    PaddedReadsBack(degrees, degreeDigits);
    PaddedReadsBack(minutes, 2);
    DigitsValueConcat(Padded(degrees, degreeDigits), Padded(minutes, 2));
  }

  /** The minutes of a formatted angle are always below 60. */
  lemma MinutesBelow60(total: nat, scale: nat)
    requires scale > 0
    ensures DivMod(DivMod(total, 60 * scale).1, scale).0 < 60
  {
    var rest := DivMod(total, 60 * scale).1;
    var minutes := DivMod(rest, scale).0;
    if minutes >= 60 {
      MulMonotonic(60, minutes, scale);
    }
  }

  /** The formatted text reads as hundreds of degrees plus minutes. */
  lemma FormattedReads(degrees: nat, degreeDigits: nat, minutes: nat, fraction: nat, decimals: nat)
    requires minutes < 60 && fraction < Pow10(decimals)
    ensures var text := FormatParts(degrees, degreeDigits, minutes, fraction, decimals);
      && ParseNumber(text) == Some((100 * degrees + minutes) as real + fraction as real / Pow10(decimals) as real)
      && Trim(text) == text && text != [] && IsDigit(text[0])
      && IndexOf(text, '.') == |Padded(degrees, degreeDigits)| + 2
  {
    hide ParseNumber, Trim, IndexOf, Padded, Fraction;
    DegreesAndMinutes(degrees, degreeDigits, minutes);
    PaddedFraction(fraction, decimals);
    var (whole, tail) := (Padded(degrees, degreeDigits) + Padded(minutes, 2), if decimals > 0 then Padded(fraction, decimals) else "");
    assert FormatParts(degrees, degreeDigits, minutes, fraction, decimals) == PlainNumber(whole, tail, decimals > 0);
    PlainNumberParts(whole, tail, decimals > 0);
    ParsePlainNumber(whole, tail, decimals > 0);
  }

  lemma WholeDegrees(degrees: nat, minutes: nat, part: real, number: real)
    requires minutes < 60 && 0.0 <= part < 1.0 && number == (100 * degrees + minutes) as real + part
    ensures (number / 100.0).Floor == degrees
    ensures ReadDegrees(number) * 60.0 == (degrees * 60 + minutes) as real + part
    ensures number - (number / 100.0).Floor as real * 100.0 < 60.0
  {
    assert number / 100.0 == degrees as real + (minutes as real + part) / 100.0;
  }

  lemma ScaledBack(value: real, whole: nat, part: real, fraction: nat, scale: nat)
    requires value * 60.0 == whole as real + part && part * scale as real == fraction as real
    ensures value * (60 * scale) as real == (whole * scale + fraction) as real
  {
    var s := scale as real;
    assert value * (60 * scale) as real == (value * 60.0) * s;
    assert (whole as real + part) * s == whole as real * s + part * s;
    assert (whole * scale) as real == whole as real * s;
  }

  lemma ProperFraction(fraction: nat, scale: nat)
    requires fraction < scale
    ensures var part := fraction as real / scale as real;
      0.0 <= part < 1.0 && part * scale as real == fraction as real
  {
  }

  /** Reading degrees and minutes back from the number gives exactly the units over the scale. */
  lemma UnitsRecovered(degrees: nat, minutes: nat, fraction: nat, scale: nat, total: nat, number: real)
    requires minutes < 60 && fraction < scale && total == (degrees * 60 + minutes) * scale + fraction
    requires number == (100 * degrees + minutes) as real + fraction as real / scale as real
    ensures number - (number / 100.0).Floor as real * 100.0 < 60.0
    ensures ReadDegrees(number) * (60 * scale) as real == total as real
  {
    hide *;
    var part := fraction as real / scale as real;
    ProperFraction(fraction, scale);
    WholeDegrees(degrees, minutes, part, number);
    ScaledBack(ReadDegrees(number), degrees * 60 + minutes, part, fraction, scale);
  }

  lemma UnitsAreNatural(degrees: real, decimals: nat)
    ensures Units(degrees, decimals) >= 0
    ensures var units := Units(degrees, decimals) as real;
      var exact := Magnitude(degrees) * 60.0 * Pow10(decimals) as real;
      units - 0.5 <= exact <= units + 0.5
  {
    var exact := Magnitude(degrees) * 60.0 * Pow10(decimals) as real;
    assert exact >= 0.0;
    RoundIsNearest(exact);
  }

  /** A whole number of degrees up to the limit keeps the rounded count within the limit. */
  lemma UnitsWithinLimit(degrees: real, limit: nat, decimals: nat)
    requires Magnitude(degrees) <= limit as real
    ensures Units(degrees, decimals) <= limit * (60 * Pow10(decimals))
  {
    var (scale, exact) := (Pow10(decimals), Magnitude(degrees) * 60.0 * Pow10(decimals) as real);
    var most := limit * (60 * scale);
    assert (limit as real - Magnitude(degrees)) * (60.0 * scale as real) >= 0.0;
    assert most as real == limit as real * (60.0 * scale as real);
    assert exact <= most as real;
  }

  lemma SplitsBack(total: nat, scale: nat)
    requires scale > 0
    ensures var (degrees, rest) := DivMod(total, 60 * scale); var (minutes, fraction) := DivMod(rest, scale);
      total == (degrees * 60 + minutes) * scale + fraction
  {
  }

  lemma QuotientWithinLimit(total: nat, per: nat, limit: nat)
    requires per > 0 && total <= limit * per
    ensures DivMod(total, per).0 <= limit
  {
    var degrees := DivMod(total, per).0;
    if degrees > limit {
      MulMonotonic(limit + 1, degrees, per);
    }
  }

  lemma RatioWithinLimit(ratio: real, per: nat, total: nat, limit: nat)
    requires per > 0 && ratio * per as real == total as real && total <= limit * per
    ensures ratio <= limit as real
  {
    var k := per as real;
    assert (limit * per) as real == limit as real * k;
    assert (ratio - limit as real) * k <= 0.0;
  }

  lemma SameProduct(a: real, b: real, k: real)
    requires a == b
    ensures a * k == b * k
  {
  }

  /** The parser's text checks pass for a plain number with few enough integer digits. */
  lemma ReadsAsNumber(text: string, number: real, latitude: bool, letter: char)
    requires Trim(text) == text && text != [] && IsDigit(text[0]) && HemisphereOf(latitude, letter)
    requires IndexOf(text, '.') <= (if latitude then 4 else 5) && ParseNumber(text) == Some(number)
    ensures ParseCoordinate(text, [letter]) == AcceptNumber(number, latitude, letter)
  {
  }

  function Limit(latitude: bool): nat {
    if latitude then 90 else 180
  }

  /** The text of any number of units within the limit is accepted, and is read as exactly those units. */
  lemma {:induction false} FormattedIsAccepted(total: nat, latitude: bool, decimals: nat, letter: char, per: nat)
    requires per == 60 * Pow10(decimals) && total <= Limit(latitude) * per && HemisphereOf(latitude, letter)
    ensures var parsed := ParseCoordinate(FormatUnits(total, if latitude then 2 else 3, decimals), [letter]);
      parsed.Some? && Signed(parsed.value, letter) * per as real == total as real
  {
    hide ParseCoordinate, FormatParts, Limit;
    var (degrees, rest) := DivMod(total, per);
    var (minutes, fraction) := DivMod(rest, Pow10(decimals));
    MinutesBelow60(total, Pow10(decimals));
    SplitsBack(total, Pow10(decimals));
    QuotientWithinLimit(total, per, Limit(latitude));
    PartsAreAccepted(degrees, minutes, fraction, total, latitude, decimals, letter, per);
  }

  lemma {:induction false} PartsAreAccepted(degrees: nat, minutes: nat, fraction: nat, total: nat, latitude: bool, decimals: nat,
                         letter: char, per: nat)
    requires minutes < 60 && fraction < Pow10(decimals) && HemisphereOf(latitude, letter)
    requires total == (degrees * 60 + minutes) * Pow10(decimals) + fraction
    requires per == 60 * Pow10(decimals) && degrees <= Limit(latitude) && total <= Limit(latitude) * per
    ensures var parsed := ParseCoordinate(FormatParts(degrees, if latitude then 2 else 3, minutes, fraction, decimals), [letter]);
      parsed.Some? && Signed(parsed.value, letter) * per as real == total as real
  {
    hide *;
    var digits := if latitude then 2 else 3;
    var number := (100 * degrees + minutes) as real + fraction as real / Pow10(decimals) as real;
    var text := FormatParts(degrees, digits, minutes, fraction, decimals);
    DegreeDigits(degrees, latitude);
    FormattedReads(degrees, digits, minutes, fraction, decimals);
    ReadsAsNumber(text, number, latitude, letter);
    NumberIsAccepted(degrees, minutes, fraction, total, latitude, Pow10(decimals), letter, per, number);
  }

  lemma NumberIsAccepted(degrees: nat, minutes: nat, fraction: nat, total: nat, latitude: bool, scale: nat,
                         letter: char, per: nat, number: real)
    requires minutes < 60 && fraction < scale && total == (degrees * 60 + minutes) * scale + fraction
    requires number == (100 * degrees + minutes) as real + fraction as real / scale as real
    requires per == 60 * scale && total <= Limit(latitude) * per
    ensures AcceptNumber(number, latitude, letter) == Some(Signed(ReadDegrees(number), letter))
    ensures Signed(Signed(ReadDegrees(number), letter), letter) * per as real == total as real
  {
    hide ReadDegrees;
    UnitsRecovered(degrees, minutes, fraction, scale, total, number);
    RatioWithinLimit(ReadDegrees(number), per, total, Limit(latitude));
    SameProduct(ReadDegrees(number), Signed(Signed(ReadDegrees(number), letter), letter), per as real);
  }

  lemma DegreeDigits(degrees: nat, latitude: bool)
    requires degrees <= Limit(latitude)
    ensures |Padded(degrees, if latitude then 2 else 3)| == if latitude then 2 else 3
  {
    assert Pow10(2) == 100 && Pow10(3) == 1000;
    PaddedReadsBack(degrees, if latitude then 2 else 3);
  }

  /** A value read as the rounded units is within half a unit of the exact one. */
  lemma WithinHalfUnit(read: real, exact: real, total: int, scale: nat)
    requires scale > 0 && read * (60 * scale) as real == total as real
    requires total as real - 0.5 <= exact * 60.0 * scale as real <= total as real + 0.5
    ensures Magnitude(read - exact) * (120 * scale) as real <= 1.0
  {
    var unit := (60 * scale) as real;
    assert exact * 60.0 * scale as real == exact * unit;
    assert (read - exact) * unit == read * unit - exact * unit;
    assert (120 * scale) as real == 2.0 * unit;
    var difference := (read - exact) * unit;
    assert (read - exact) * (2.0 * unit) == 2.0 * difference;
    assert (exact - read) * (2.0 * unit) == -2.0 * difference;
  }

  function Formatted(degrees: real, latitude: bool, decimals: int): CoordinateField {
    if latitude then FormatLatitude(degrees, decimals) else FormatLongitude(degrees, decimals)
  }

  /** The formatted field: the rounded units, and the letter that carries the sign. */
  lemma FormattedParts(degrees: real, latitude: bool, decimals: int)
    ensures Units(degrees, Digits(decimals)) >= 0
    ensures var field := Formatted(degrees, latitude, decimals);
      && field.value == FormatUnits(Units(degrees, Digits(decimals)), if latitude then 2 else 3, Digits(decimals))
      && HemisphereOf(latitude, field.hemisphere) && Signed(Magnitude(degrees), field.hemisphere) == degrees
  {
    hide Units, FormatUnits;
    UnitsAreNatural(degrees, Digits(decimals));
  }

  lemma SignedDistance(parsed: real, degrees: real, letter: char)
    requires Signed(Magnitude(degrees), letter) == degrees
    ensures Magnitude(Signed(parsed, letter) - Magnitude(degrees)) == Magnitude(parsed - degrees)
  {
  }

  /** A signed value read as the rounded units is within half a unit of the angle. */
  lemma SignedWithinHalfUnit(parsed: real, degrees: real, letter: char, total: int, scale: nat)
    requires scale > 0 && Signed(parsed, letter) * (60 * scale) as real == total as real
    requires total as real - 0.5 <= Magnitude(degrees) * 60.0 * scale as real <= total as real + 0.5
    requires Signed(Magnitude(degrees), letter) == degrees
    ensures Magnitude(parsed - degrees) * (120 * scale) as real <= 1.0
  {
    hide *;
    WithinHalfUnit(Signed(parsed, letter), Magnitude(degrees), total, scale);
    SignedDistance(parsed, degrees, letter);
    SameProduct(Magnitude(Signed(parsed, letter) - Magnitude(degrees)), Magnitude(parsed - degrees), (120 * scale) as real);
  }

  /** A coordinate decodes to within 1 / (120 * 10^decimals) degrees: half a unit of the last minute digit. */
  lemma {:induction false} RoundTrip(degrees: real, latitude: bool, decimals: int)
    requires Magnitude(degrees) <= Limit(latitude) as real
    ensures var field := Formatted(degrees, latitude, decimals);
      var parsed := ParseCoordinate(field.value, [field.hemisphere]);
      parsed.Some? && Magnitude(parsed.value - degrees) * (120 * Pow10(Digits(decimals))) as real <= 1.0
  {
    hide *;
    var (digits, field) := (Digits(decimals), Formatted(degrees, latitude, decimals));
    var total := Units(degrees, digits);
    FormattedParts(degrees, latitude, decimals);
    UnitsAreNatural(degrees, digits);
    UnitsWithinLimit(degrees, Limit(latitude), digits);
    FormattedIsAccepted(total, latitude, digits, field.hemisphere, 60 * Pow10(digits));
    var parsed := ParseCoordinate(field.value, [field.hemisphere]).value;
    SignedWithinHalfUnit(parsed, degrees, field.hemisphere, total, Pow10(digits));
  }


  // The field and the value, on their own

  /** A formatted coordinate is the degrees in two or three digits, the minutes in two and their decimals, that are
      nearest to the angle, and the letter of its sign. */
  lemma FormattedShape(angle: real, latitude: bool, decimals: int) returns (degrees: nat, minutes: nat, fraction: nat)
    ensures var scale := Pow10(Digits(decimals));
      && minutes < 60 && fraction < scale
      && -0.5 <= ((degrees * 60 + minutes) * scale + fraction) as real - Magnitude(angle) * 60.0 * scale as real <= 0.5
    ensures Formatted(angle, latitude, decimals).value
         == Padded(degrees, if latitude then 2 else 3) + Padded(minutes, 2)
            + (if decimals > 0 then "." + Padded(fraction, decimals) else "")
    ensures Formatted(angle, latitude, decimals).hemisphere
         == if latitude then (if angle < 0.0 then 'S' else 'N') else if angle < 0.0 then 'W' else 'E'
  {
    hide Units, Padded, Pow10, DivMod;
    var digits := Digits(decimals);
    var scale, total := Pow10(digits), Units(angle, digits);
    UnitsAreNatural(angle, digits);
    SplitsBack(total, scale);
    MinutesBelow60(total, scale);
    var (d, rest) := DivMod(total, 60 * scale);
    var (m, f) := DivMod(rest, scale);
    degrees, minutes, fraction := d, m, f;
  }

  /** The text holds whole degrees and minutes below 60, unsigned, within the limit, and the letter gives the sign. */
  ghost predicate ReadsAs(value: string, hemisphere: string, degrees: nat, minutes: real, x: real) {
    && hemisphere in {"N", "S", "E", "W"}
    && value != "" && value[0] != '+' && value[0] != '-'
    && IndexOf(value, '.') <= (if hemisphere == "N" || hemisphere == "S" then 4 else 5)
    && ParseNumber(value) == Some(100.0 * degrees as real + minutes) && 0.0 <= minutes < 60.0
    && degrees as real + minutes / 60.0 <= (if hemisphere == "N" || hemisphere == "S" then 90.0 else 180.0)
    && x == (if hemisphere == "S" || hemisphere == "W" then -1.0 else 1.0) * (degrees as real + minutes / 60.0)
  }

  /** Exactly such texts are accepted, as the angle they hold. */
  lemma ParseCoordinateMeans(text: string, hemisphere: string, x: real)
    ensures ParseCoordinate(text, hemisphere) == Some(x) <==>
      exists degrees, minutes :: ReadsAs(Trim(text), hemisphere, degrees, minutes, x)
  {
    hide Trim, ParseCoordinate, ReadsAs;
    if ParseCoordinate(text, hemisphere) == Some(x) {
      AcceptedReads(text, hemisphere, x);
    }
    forall degrees, minutes | ReadsAs(Trim(text), hemisphere, degrees, minutes, x)
      ensures ParseCoordinate(text, hemisphere) == Some(x)
    {
      ReadIsAccepted(text, hemisphere, degrees, minutes, x);
    }
  }

  /** A number without a sign is not negative. */
  lemma UnsignedIsNatural(value: string)
    requires Trim(value) == value && value != "" && value[0] != '+' && value[0] != '-' && ParseNumber(value).Some?
    ensures ParseNumber(value).value >= 0.0
  {
    hide Trim, ParseUnsigned;
    var whole, fraction, point := UnsignedParts(value);
  }

  lemma LetterMeans(hemisphere: string)
    requires |hemisphere| == 1
    ensures var letter := hemisphere[0];
      && (letter == 'N' <==> hemisphere == "N") && (letter == 'S' <==> hemisphere == "S")
      && (letter == 'E' <==> hemisphere == "E") && (letter == 'W' <==> hemisphere == "W")
  {
  }

  lemma FloorOfHundreds(number: real)
    requires number >= 0.0
    ensures var degrees := (number / 100.0).Floor;
      degrees >= 0 && number - degrees as real * 100.0 >= 0.0
  {
  }

  lemma AcceptedReads(text: string, hemisphere: string, x: real)
    requires ParseCoordinate(text, hemisphere) == Some(x)
    ensures exists degrees, minutes :: ReadsAs(Trim(text), hemisphere, degrees, minutes, x)
  {
    var start := TrimSplits(text);
    TrimFixes(Trim(text));
    hide Trim, ParseNumber, IndexOf;
    LetterMeans(hemisphere);
    UnsignedIsNatural(Trim(text));
    var number := ParseNumber(Trim(text)).value;
    FloorOfHundreds(number);
    NumberReads(Trim(text), hemisphere, (number / 100.0).Floor, number - (number / 100.0).Floor as real * 100.0, x);
  }

  lemma NumberReads(value: string, hemisphere: string, degrees: nat, minutes: real, x: real)
    requires |hemisphere| == 1 && hemisphere in {"N", "S", "E", "W"}
    requires value != "" && value[0] != '+' && value[0] != '-'
    requires IndexOf(value, '.') <= (if hemisphere == "N" || hemisphere == "S" then 4 else 5)
    requires ParseNumber(value) == Some(100.0 * degrees as real + minutes) && 0.0 <= minutes
    requires ((100.0 * degrees as real + minutes) / 100.0).Floor == degrees
    requires AcceptNumber(100.0 * degrees as real + minutes, hemisphere == "N" || hemisphere == "S", hemisphere[0]) == Some(x)
    ensures ReadsAs(value, hemisphere, degrees, minutes, x)
  {
    hide ParseNumber, IndexOf;
    LetterMeans(hemisphere);
  }

  lemma WholeHundreds(degrees: nat, minutes: real)
    requires 0.0 <= minutes < 60.0
    ensures ((100.0 * degrees as real + minutes) / 100.0).Floor == degrees
  {
  }

  lemma ReadIsAccepted(text: string, hemisphere: string, degrees: nat, minutes: real, x: real)
    requires ReadsAs(Trim(text), hemisphere, degrees, minutes, x)
    ensures ParseCoordinate(text, hemisphere) == Some(x)
  {
    hide Trim, ParseNumber, IndexOf;
    LetterMeans(hemisphere);
    WholeHundreds(degrees, minutes);
  }
}
