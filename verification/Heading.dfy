/** The HDG sentence: compass heading, deviation and variation, encoded and decoded, in ideal arithmetic. */
module Heading {
  import opened Wrappers
  import opened Text
  import opened Numbers
  import opened Angles
  import opened Checksum
  import opened Sentence
  import opened Coordinates

  datatype Navigation = Navigation(headingTrue: real, variation: real, deviation: real)

  function CompassHeading(n: Navigation): (heading: real)
    ensures 0.0 <= heading < 360.0
  {
    NormalizeBearing(n.headingTrue - n.variation - n.deviation)
  }

  /** Tenths of a non-negative value, to the nearest, ties to the even one, as `std::format` rounds. */
  function Tenths(value: real): (tenths: nat)
    requires value >= 0.0
    ensures -0.5 <= tenths as real - value * 10.0 <= 0.5
  {
    var up := (value * 10.0 + 0.5).Floor;
    if up as real == value * 10.0 + 0.5 && up % 2 == 1 then up - 1 else up
  }

  /** `format_fixed` with one decimal, for a value that is not negative. */
  function FormatTenths(value: real): string
    requires value >= 0.0
  {
    PlainNumber(Decimal(Tenths(value) / 10), [Digit(Tenths(value) % 10)], true)
  }

  function EastWest(value: real): string {
    if value < 0.0 then "W" else "E"
  }

  function HdgFields(n: Navigation): (fields: seq<string>)
    ensures |fields| == 5
  {
    [FormatTenths(CompassHeading(n)), FormatTenths(Magnitude(n.deviation)), EastWest(n.deviation),
     FormatTenths(Magnitude(n.variation)), EastWest(n.variation)]
  }

  function EncodeHdg(talker: string, n: Navigation): string {
    Built(START_DELIMITER, talker, "HDG", HdgFields(n))
  }

  function SignedEastWest(value: string, direction: string): Option<real> {
    match ParseNumber(value)
    case None => None
    case Some(magnitude) => Some(if direction == "W" then -magnitude else magnitude)
  }

  function Assigned(value: Option<real>, previous: real): real {
    if value.Some? then value.value else previous
  }

  /** What decoding the fields of an HDG sentence makes of the navigation state. */
  function DecodeHdg(s: ParsedSentence, n: Navigation): Navigation {
    var deviation := Assigned(SignedEastWest(s.Field(1), s.Field(2)), n.deviation);
    var variation := Assigned(SignedEastWest(s.Field(3), s.Field(4)), n.variation);
    match ParseNumber(s.Field(0))
    case None => Navigation(n.headingTrue, variation, deviation)
    case Some(magnetic) => Navigation(NormalizeBearing(magnetic + variation + deviation), variation, deviation)
  }

  method BuildHdg(talker: string, n: Navigation) returns (sentence: string)
    ensures sentence == EncodeHdg(talker, n)
  {
    hide FormatTenths, CompassHeading, Magnitude, EastWest, Built, Body;
    var builder := new SentenceBuilder(talker, "HDG", START_DELIMITER);
    builder.Field(FormatTenths(CompassHeading(n)));
    builder.Field(FormatTenths(Magnitude(n.deviation)));
    builder.Field(EastWest(n.deviation));
    builder.Field(FormatTenths(Magnitude(n.variation)));
    builder.Field(EastWest(n.variation));
    assert builder.values == HdgFields(n);
    sentence := builder.Build();
  }

  /** The navigation part of the vessel state, which decoding a sentence writes into. */
  class VesselNavigation {
    var headingTrue: real
    var variation: real
    var deviation: real

    function Contents(): Navigation
      reads this
    {
      Navigation(headingTrue, variation, deviation)
    }

    constructor (n: Navigation)
      ensures Contents() == n
    {
      headingTrue, variation, deviation := n.headingTrue, n.variation, n.deviation;
    }

    method ApplyHdg(s: ParsedSentence)
      modifies this
      ensures Contents() == DecodeHdg(s, old(Contents()))
    {
      hide ParseNumber, NormalizeBearing;
      deviation := Assigned(SignedEastWest(s.Field(1), s.Field(2)), deviation);
      variation := Assigned(SignedEastWest(s.Field(3), s.Field(4)), variation);
      var magnetic := ParseNumber(s.Field(0));
      if magnetic.Some? {
        headingTrue := NormalizeBearing(magnetic.value + variation + deviation);
      }
    }
  }

  lemma TenthsSplit(tenths: nat)
    ensures (tenths / 10) as real + (tenths % 10) as real / 10.0 == tenths as real / 10.0
  {
    assert tenths == 10 * (tenths / 10) + tenths % 10;
  }

  /** One digit is its value, and a tenth of it after a point. */
  lemma OneDigitReads(value: nat)
    requires value < 10
    ensures AllDigits([Digit(value)]) && DigitsValue([Digit(value)]) == value
    ensures Fraction([Digit(value)]) == value as real / 10.0
  {
    hide Fraction;
    var digits := [Digit(value)];
    assert digits[..0] == [];
    FractionIsScaled(digits, value);
    assert Pow10(1) == 10;
  }

  lemma FormattedTenthsRead(value: real)
    requires value >= 0.0
    ensures ParseNumber(FormatTenths(value)) == Some(Tenths(value) as real / 10.0)
    ensures ReservedFree(FormatTenths(value))
  {
    hide ParseNumber, Tenths, Fraction, DigitsValue, Decimal, Digit;
    var tenths := Tenths(value);
    DecimalReadsBack(tenths / 10);
    OneDigitReads(tenths % 10);
    ParsePlainNumber(Decimal(tenths / 10), [Digit(tenths % 10)], true);
    TenthsSplit(tenths);
    forall c <- FormatTenths(value) ensures IsFieldCharacter(c) {
      assert IsDigit(c) || c == '.';
    }
  }

  /** A magnitude and its letter read as the value rounded to a tenth. */
  lemma EastWestReads(value: real)
    ensures var read := SignedEastWest(FormatTenths(Magnitude(value)), EastWest(value));
      read.Some? && -0.05 <= read.value - value <= 0.05
  {
    hide ParseNumber, FormatTenths;
    FormattedTenthsRead(Magnitude(value));
  }

  function CircularDistance(a: real, b: real): real {
    var d := NormalizeBearing(a - b);
    if d <= 180.0 then d else 360.0 - d
  }

  lemma {:induction false} CloseOnCircle(a: real, b: real, turns: int, error: real)
    requires 0.0 <= error < 180.0
    requires -error <= a - b - 360.0 * turns as real <= error
    ensures CircularDistance(a, b) <= error
  {
    hide NormalizeBearing;
    var k := NormalizeBearingTurns(a - b);
    var d, rest := NormalizeBearing(a - b), a - b - 360.0 * turns as real;
    assert d - rest == 360.0 * (turns - k) as real;
    assert -1 < turns - k < 2;
  }

  /** Decoding the fields gives a true heading within three roundings of the original, around the circle. */
  lemma {:induction false} FieldsRoundTrip(n: Navigation, before: Navigation, s: ParsedSentence)
    requires s.fields == HdgFields(n)
    ensures var after := DecodeHdg(s, before);
      && 0.0 <= after.headingTrue < 360.0 && CircularDistance(after.headingTrue, n.headingTrue) <= 0.15
      && -0.05 <= after.variation - n.variation <= 0.05 && -0.05 <= after.deviation - n.deviation <= 0.05
  {
    hide NormalizeBearing, ParseNumber, FormatTenths, Tenths, CircularDistance;
    var away := NormalizeBearingTurns(n.headingTrue - n.variation - n.deviation);
    FormattedTenthsRead(CompassHeading(n));
    EastWestReads(n.deviation);
    EastWestReads(n.variation);
    var after := DecodeHdg(s, before);
    var magnetic := ParseNumber(s.Field(0)).value;
    var back := NormalizeBearingTurns(magnetic + after.variation + after.deviation);
    CloseOnCircle(after.headingTrue, n.headingTrue, -away - back, 0.15);
  }

  /** The whole way: built, checksummed, parsed and decoded, for every talker but a proprietary one. */
  lemma RoundTrip(talker: string, n: Navigation, before: Navigation)
    requires |talker| == 2 && ReservedFree(talker) && talker[0] != 'P'
    ensures var parsed := ParseSentence(EncodeHdg(talker, n));
      && parsed.Some? && parsed.value.talker == talker && parsed.value.formatter == "HDG"
      && var after := DecodeHdg(parsed.value, before);
         && 0.0 <= after.headingTrue < 360.0 && CircularDistance(after.headingTrue, n.headingTrue) <= 0.15
         && -0.05 <= after.variation - n.variation <= 0.05 && -0.05 <= after.deviation - n.deviation <= 0.05
  {
    hide ParseSentence, DecodeHdg, HdgFields, CircularDistance, Built;
    HdgFieldsSurvive(n);
    ParseBuilt(START_DELIMITER, talker, "HDG", HdgFields(n));
    var address := talker + "HDG";
    assert address[..2] == talker && address[2..] == "HDG";
    FieldsRoundTrip(n, before, ParseSentence(EncodeHdg(talker, n)).value);
  }

  lemma HdgFieldsSurvive(n: Navigation)
    ensures AllowedAll(HdgFields(n)) == HdgFields(n)
  {
    hide FormatTenths, CompassHeading, Magnitude, ReservedFree, EastWest, Allowed, AllowedAll;
    FormattedTenthsRead(CompassHeading(n));
    FormattedTenthsRead(Magnitude(n.deviation));
    FormattedTenthsRead(Magnitude(n.variation));
    LettersAreReservedFree(n.deviation);
    LettersAreReservedFree(n.variation);
    FiveSurvive(FormatTenths(CompassHeading(n)), FormatTenths(Magnitude(n.deviation)), EastWest(n.deviation),
                FormatTenths(Magnitude(n.variation)), EastWest(n.variation));
  }

  lemma FiveSurvive(a: string, b: string, c: string, d: string, e: string)
    requires ReservedFree(a) && ReservedFree(b) && ReservedFree(c) && ReservedFree(d) && ReservedFree(e)
    ensures AllowedAll([a, b, c, d, e]) == [a, b, c, d, e]
  {
    hide ReservedFree, Allowed;
    ReservedFreeSurvive([a, b, c, d, e]);
  }

  lemma LettersAreReservedFree(value: real)
    ensures ReservedFree(EastWest(value))
  {
  }


  // The fields and the decoder, on their own

  /** A value half-way between two tenths is printed with the even one. */
  lemma TenthsTies(k: nat)
    ensures Tenths((k as real + 0.5) / 10.0) == if k % 2 == 0 then k else k + 1
  {
    assert (k as real + 0.5) / 10.0 * 10.0 == k as real + 0.5;
  }

  /** What the five fields read as: the compass heading, then deviation and variation as magnitude and letter. */
  lemma HdgFieldsRead(n: Navigation) returns (turns: int)
    ensures var f := HdgFields(n);
      && ParseNumber(f[0]).Some?
      && -0.05 <= ParseNumber(f[0]).value + 360.0 * turns as real - (n.headingTrue - n.variation - n.deviation) <= 0.05
      && ParseNumber(f[1]).Some? && -0.05 <= ParseNumber(f[1]).value - Magnitude(n.deviation) <= 0.05
      && f[2] == (if n.deviation < 0.0 then "W" else "E")
      && ParseNumber(f[3]).Some? && -0.05 <= ParseNumber(f[3]).value - Magnitude(n.variation) <= 0.05
      && f[4] == (if n.variation < 0.0 then "W" else "E")
  {
    hide ParseNumber, FormatTenths, NormalizeBearing, Tenths;
    turns := NormalizeBearingTurns(n.headingTrue - n.variation - n.deviation);
    FormattedTenthsRead(CompassHeading(n));
    FormattedTenthsRead(Magnitude(n.deviation));
    FormattedTenthsRead(Magnitude(n.variation));
  }

  /** An empty field changes nothing: a sentence with empty fields leaves the navigation state as it was. */
  lemma EmptyFieldsKeep(s: ParsedSentence, n: Navigation)
    requires s.Field(0) == "" && s.Field(1) == "" && s.Field(3) == ""
    ensures DecodeHdg(s, n) == n
  {
  }

  /** What a magnitude field and its letter make of a value: kept when the field is no number, else the number, negative
      for `W` only. */
  ghost predicate Becomes(after: real, before: real, value: string, direction: string) {
    match ParseNumber(value)
    case None => after == before
    case Some(magnitude) => after == if direction == "W" then 0.0 - magnitude else magnitude
  }

  /** Deviation and variation are decoded first, each on its own; a heading that is read is then the sensor heading plus
      the new variation and deviation, whole turns aside, and otherwise the heading stays. */
  lemma DecodedHeading(s: ParsedSentence, n: Navigation) returns (turns: int)
    ensures var after, read := DecodeHdg(s, n), ParseNumber(s.Field(0));
      && Becomes(after.deviation, n.deviation, s.Field(1), s.Field(2))
      && Becomes(after.variation, n.variation, s.Field(3), s.Field(4))
      && (read.None? ==> after.headingTrue == n.headingTrue)
      && (read.Some? ==> 0.0 <= after.headingTrue < 360.0)
      && (read.Some? ==> after.headingTrue + 360.0 * turns as real == read.value + after.variation + after.deviation)
  {
    hide ParseNumber, NormalizeBearing;
    var after := DecodeHdg(s, n);
    turns := 0;
    if ParseNumber(s.Field(0)).Some? {
      turns := NormalizeBearingTurns(ParseNumber(s.Field(0)).value + after.variation + after.deviation);
    }
  }
}
