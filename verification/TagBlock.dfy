/** TAG blocks of IEC 61162-450: formatting, and reading the time back. */
module TagBlock {
  import opened Basics
  import opened Wrappers
  import opened Text
  import opened Numbers
  import opened Angles
  import opened Checksum

  const MAX_SOURCE_LENGTH := 15
  const NANOSECONDS := 1000000
  const MILLISECONDS_FROM := 100000000000

  /** What a TAG block carries besides its source. */
  datatype Options = Options(source: string, includeTime: bool, milliseconds: bool)

  predicate IsSourceCharacter(c: char) {
    ' ' < c <= '~' && c != ',' && c != '*' && c != '\\' && c != '!' && c != '$'
  }

  function Kept(source: string): (kept: string)
    ensures forall i :: 0 <= i < |kept| ==> IsSourceCharacter(kept[i])
  {
    if source == [] then []
    else if IsSourceCharacter(source[0]) then [source[0]] + Kept(source[1..])
    else Kept(source[1..])
  }

  /** The first fifteen allowed characters, or a stand-in when there is none. */
  function SanitizedSource(source: string): (s: string)
    ensures 0 < |s| <= MAX_SOURCE_LENGTH
    ensures forall i :: 0 <= i < |s| ==> IsSourceCharacter(s[i])
  {
    var kept := Kept(source);
    if kept == [] then "SIM" else if |kept| > MAX_SOURCE_LENGTH then kept[..MAX_SOURCE_LENGTH] else kept
  }

  /** The loop that stops at the fifteenth kept character. */
  method SanitizeSource(source: string) returns (result: string)
    ensures result == SanitizedSource(source)
  {
    result := "";
    for i := 0 to |source|
      invariant |result| < MAX_SOURCE_LENGTH
      invariant result + Kept(source[i..]) == Kept(source)
    {
      ghost var before := result;
      if IsSourceCharacter(source[i]) {
        result := result + [source[i]];
      }
      assert result + Kept(source[i + 1..]) == before + Kept(source[i..]);
      if |result| == MAX_SOURCE_LENGTH {
        assert Kept(source)[..MAX_SOURCE_LENGTH] == result;
        break;
      }
    }
    if result == "" {
      result := "SIM";
    }
  }

  /** Division that truncates toward zero, as `duration_cast` does. */
  function TowardZero(x: int, d: int): int
    requires d > 0
  {
    if x >= 0 then x / d else -(-x / d)
  }

  function SignedDecimal(value: int): string {
    if value < 0 then "-" + Decimal(-value) else Decimal(value)
  }

  /** The count sent as the `c` parameter for a time in nanoseconds since the epoch. */
  function SentCount(options: Options, time: int): int {
    TowardZero(time, if options.milliseconds then NANOSECONDS else 1000 * NANOSECONDS)
  }

  function BlockBody(options: Options, time: int): string {
    "s:" + SanitizedSource(options.source)
      + (if options.includeTime then ",c:" + SignedDecimal(SentCount(options, time)) else "")
  }

  function Block(options: Options, time: int): string {
    BlockBody(options, time) + "*" + FormatChecksum(ChecksumOf(BlockBody(options, time)))
  }

  function Prepended(sentence: string, options: Options, time: int): string {
    "\\" + Block(options, time) + "\\" + sentence
  }

  method PrependTagBlock(sentence: string, options: Options, time: int) returns (line: string)
    ensures line == Prepended(sentence, options, time)
  {
    var source := SanitizeSource(options.source);
    var body := "s:" + source;
    if options.includeTime {
      body := body + ",c:" + SignedDecimal(SentCount(options, time));
    }
    var checksum := ComputeChecksum(body);
    assert body == BlockBody(options, time);
    line := "\\" + (body + "*" + FormatChecksum(checksum)) + "\\" + sentence;
  }

  // Reading

  /** No checksum, or two digits that spell the checksum of the text before `*`, in either case. */
  predicate ChecksumValid(block: string) {
    var star := IndexOf(block, CHECKSUM_DELIMITER);
    || star == |block|
    || (&& |block| == star + 3 && HexValue(block[star + 1]).Some? && HexValue(block[star + 2]).Some?
        && [Upper(block[star + 1]), Upper(block[star + 2])] == FormatChecksum(ChecksumOf(block[..star])))
  }

  /** Comparing the digits compares the numbers they spell. */
  lemma {:induction false} ChecksumValidMeans(block: string)
    ensures var star := IndexOf(block, CHECKSUM_DELIMITER);
      ChecksumValid(block) <==>
        || star == |block|
        || (&& |block| == star + 3 && HexValue(block[star + 1]).Some? && HexValue(block[star + 2]).Some?
            && HexValue(block[star + 1]).value * 16 + HexValue(block[star + 2]).value == ChecksumOf(block[..star]))
  {
    var star := IndexOf(block, CHECKSUM_DELIMITER);
    if |block| == star + 3 && HexValue(block[star + 1]).Some? && HexValue(block[star + 2]).Some? {
      DigitsSpell(block[star + 1], block[star + 2], ChecksumOf(block[..star]));
    }
  }

  lemma DigitSpells(c: char, value: nat)
    requires HexValue(c).Some? && value < 16
    ensures Upper(c) == HEX_DIGITS[value] <==> HexValue(c).value == value
  {
  }

  lemma {:induction false} DigitsSpell(high: char, low: char, sum: nat)
    requires HexValue(high).Some? && HexValue(low).Some? && sum < 256
    ensures [Upper(high), Upper(low)] == FormatChecksum(sum) <==> HexValue(high).value * 16 + HexValue(low).value == sum
  {
    hide Upper, HexValue;
    DigitSpells(high, sum / 16);
    DigitSpells(low, sum % 16);
    DivisionIsUnique(HexValue(high).value * 16 + HexValue(low).value, 16, HexValue(high).value, HexValue(low).value);
    assert [Upper(high), Upper(low)] == FormatChecksum(sum) <==>
           Upper(high) == FormatChecksum(sum)[0] && Upper(low) == FormatChecksum(sum)[1];
  }

  predicate IsTimeCharacter(c: char) {
    IsDigit(c) || c == '.'
  }

  /** A positive number of seconds, or of milliseconds above 10^11, in milliseconds. */
  function ParseUnixTime(text: string): Option<int> {
    var number := Trim(text);
    if number == [] || exists i :: 0 <= i < |number| && !IsTimeCharacter(number[i]) then None else
    match ParseNumber(number)
    case None => None
    case Some(value) =>
      if value <= 0.0 then None
      else Some(Round((if value > MILLISECONDS_FROM as real then value / 1000.0 else value) * 1000.0))
  }

  predicate IsTimeParameter(parameter: string) {
    |parameter| > 2 && parameter[0] == 'c' && parameter[1] == ':'
  }

  function FirstTime(parameters: seq<string>): Option<int> {
    if parameters == [] then None
    else if IsTimeParameter(parameters[0]) then ParseUnixTime(parameters[0][2..])
    else FirstTime(parameters[1..])
  }

  function BlockTime(block: string): Option<int> {
    FirstTime(Split(block[..IndexOf(block, CHECKSUM_DELIMITER)], ','))
  }

  lemma {:induction false} FirstTimeSplits(rest: string)
    ensures var k := IndexOf(rest, ',');
      FirstTime(Split(rest, ',')) == if IsTimeParameter(rest[..k]) then ParseUnixTime(rest[..k][2..])
                                     else if k == |rest| then None else FirstTime(Split(rest[k + 1..], ','))
  {
    hide *;
    var k := IndexOf(rest, ',');
    SplitHead(rest, ',');
    FirstTimeCons(rest[..k], if k == |rest| then [] else Split(rest[k + 1..], ','));
    NoTime();
  }

  lemma FirstTimeCons(parameter: string, rest: seq<string>)
    ensures FirstTime([parameter] + rest) == if IsTimeParameter(parameter) then ParseUnixTime(parameter[2..]) else FirstTime(rest)
  {
    hide ParseUnixTime;
    assert ([parameter] + rest)[1..] == rest;
  }

  lemma NoTime()
    ensures FirstTime([]) == None
  {
  }

  function TimeFrom(body: string, start: nat): Option<int> {
    if start < |body| then FirstTime(Split(body[start..], ',')) else None
  }

  lemma TimeFromSteps(body: string, start: nat)
    requires start < |body|
    ensures var end := start + IndexOf(body[start..], ',');
      TimeFrom(body, start) == if IsTimeParameter(body[start..end]) then ParseUnixTime(body[start..end][2..])
                               else TimeFrom(body, end + 1)
  {
    hide ParseUnixTime, Split, FirstTime, IsTimeParameter, IndexOf;
    var rest := body[start..];
    var k := IndexOf(rest, ',');
    FirstTimeSplits(rest);
    assert body[start..start + k] == rest[..k];
    if start + k + 1 < |body| {
      assert body[start + k + 1..] == rest[k + 1..];
    } else if k < |rest| {
      assert rest[k + 1..] == "";
      NoTimeInNothing();
    }
  }

  lemma NoTimeInNothing()
    ensures FirstTime(Split("", ',')) == None
  {
    FirstTimeSplits("");
  }

  lemma BlockTimeIsFromStart(block: string)
    ensures BlockTime(block) == TimeFrom(block[..IndexOf(block, CHECKSUM_DELIMITER)], 0)
  {
    hide ParseUnixTime, Split, FirstTime, IndexOf;
    var body := block[..IndexOf(block, CHECKSUM_DELIMITER)];
    assert body[0..] == body;
    NoTimeInNothing();
  }

  /** The loop over the parameters with a moving start. */
  method ScanBlockTime(block: string) returns (time: Option<int>)
    ensures time == BlockTime(block)
  {
    hide ParseUnixTime, TimeFrom, IsTimeParameter, BlockTime, IndexOf;
    var body := block[..IndexOf(block, CHECKSUM_DELIMITER)];
    BlockTimeIsFromStart(block);
    var start := 0;
    while start < |body|
      invariant TimeFrom(body, start) == BlockTime(block)
    {
      TimeFromSteps(body, start);
      var end := start + IndexOf(body[start..], ',');
      var parameter := body[start..end];
      if IsTimeParameter(parameter) {
        TimeParameterIsLong(parameter);
        return ParseUnixTime(parameter[2..]);
      }
      start := end + 1;
    }
    TimeFromEnd(body, start);
    time := None;
  }

  lemma TimeParameterIsLong(parameter: string)
    requires IsTimeParameter(parameter)
    ensures |parameter| > 2
  {
  }

  lemma TimeFromEnd(body: string, start: nat)
    requires start >= |body|
    ensures TimeFrom(body, start) == None
  {
  }

  // The round trip

  /** What the reader makes of a sent count: milliseconds above 10^11, else seconds; nothing unless positive. */
  function CountRead(count: int): Option<int> {
    if count <= 0 then None else Some(if count > MILLISECONDS_FROM then count else count * 1000)
  }

  lemma DecimalIsDigits(value: nat)
    ensures AllDigits(Decimal(value)) && Decimal(value) != []
  {
    DecimalReadsBack(value);
  }

  lemma WholeNumberParses(value: nat)
    ensures ParseNumber(Decimal(value)) == Some(value as real)
  {
    var text := Decimal(value);
    DecimalReadsBack(value);
    assert IsDigit(text[0]) && IsDigit(text[|text| - 1]);
    TrimFixes(text);
    IndexOfIs(text, '.', |text|);
    assert text[..|text|] == text;
  }

  lemma RoundOfWhole(x: int)
    ensures Round(x as real) == x
  {
  }

  lemma CountReadsBack(count: int)
    ensures ParseUnixTime(SignedDecimal(count)) == CountRead(count)
  {
    hide ParseNumber, Round;
    var text := SignedDecimal(count);
    DecimalIsDigits(if count < 0 then -count else count);
    assert !IsSpace(text[0]) && !IsSpace(text[|text| - 1]);
    TrimFixes(text);
    if count < 0 {
      assert !IsTimeCharacter(text[0]);
    } else {
      WholeNumberParses(count);
      RoundOfWhole(count * 1000);
      RoundOfWhole(count);
      assert count as real / 1000.0 * 1000.0 == count as real;
      assert count as real * 1000.0 == (count * 1000) as real;
    }
  }

  predicate IsBlockCharacter(c: char) {
    ' ' < c <= '~' && c != '*' && c != '\\' && c != '!' && c != '$'
  }

  lemma BodyCharacters(options: Options, time: int)
    ensures var body := BlockBody(options, time);
      |body| > 2 && forall i :: 0 <= i < |body| ==> IsBlockCharacter(body[i])
  {
    hide Kept, SanitizedSource, Decimal, SentCount;
    var count := SentCount(options, time);
    DecimalIsDigits(if count < 0 then -count else count);
  }

  /** A formatted block is closed only by its own backslash, and its checksum is valid. */
  lemma BlockIsValid(options: Options, time: int)
    ensures var block, body := Block(options, time), BlockBody(options, time);
      && ChecksumValid(block)
      && (forall i :: 0 <= i < |block| ==> ' ' < block[i] <= '~' && block[i] != '\\')
      && IndexOf(block, '*') == |body| && block[..|body|] == body
  {
    BodyCharacters(options, time);
    hide BlockBody;
    ChecksummedIsValid(BlockBody(options, time));
  }

  lemma ChecksummedIsValid(body: string)
    requires forall i :: 0 <= i < |body| ==> IsBlockCharacter(body[i])
    ensures var block := body + "*" + FormatChecksum(ChecksumOf(body));
      && ChecksumValid(block)
      && (forall i :: 0 <= i < |block| ==> ' ' < block[i] <= '~' && block[i] != '\\')
      && IndexOf(block, '*') == |body| && block[..|body|] == body
  {
    var sum := ChecksumOf(body);
    var digits := FormatChecksum(sum);
    FormatChecksumReadsBack(sum);
    var block := body + "*" + digits;
    IndexOfIs(block, '*', |body|);
    assert block[..|body|] == body && block[|body| + 1] == digits[0] && block[|body| + 2] == digits[1];
    ChecksumValidMeans(block);
  }

  /** The first time parameter of a formatted block is the one that was sent. */
  lemma BlockTimeReadsBack(options: Options, time: int)
    ensures BlockTime(Block(options, time)) == if options.includeTime then CountRead(SentCount(options, time)) else None
  {
    hide *;
    BlockIsValid(options, time);
    BodyTimeReadsBack(options, time);
    BlockTimeOfBody(Block(options, time), BlockBody(options, time));
  }

  lemma BlockTimeOfBody(block: string, body: string)
    requires IndexOf(block, '*') == |body| && block[..|body|] == body
    ensures BlockTime(block) == FirstTime(Split(body, ','))
  {
    hide FirstTime, Split;
  }

  lemma BodyTimeReadsBack(options: Options, time: int)
    ensures FirstTime(Split(BlockBody(options, time), ','))
         == if options.includeTime then CountRead(SentCount(options, time)) else None
  {
    hide ParseUnixTime, Decimal, SentCount, CountRead, SanitizedSource, Split, FirstTime;
    var source, count := "s:" + SanitizedSource(options.source), SentCount(options, time);
    assert forall i :: 0 <= i < |source| ==> source[i] != ',';
    if options.includeTime {
      DecimalIsDigits(if count < 0 then -count else count);
      assert BlockBody(options, time) == source + (",c:" + SignedDecimal(count));
      TimeParameterSplits(source, SignedDecimal(count));
      CountReadsBack(count);
    } else {
      assert BlockBody(options, time) == source + "";
      SplitAt(source, "", ',');
      NotTime(source);
      FirstTimeCons(source, []);
      assert [source] + [] == [source];
      NoTime();
    }
  }

  lemma NotTime(source: string)
    requires |source| > 0 && source[0] == 's'
    ensures !IsTimeParameter(source)
  {
  }

  /** A parameter that is no time is passed over. */
  lemma {:induction false} ParameterSkipped(source: string, rest: string)
    requires !IsTimeParameter(source) && forall i :: 0 <= i < |source| ==> source[i] != ','
    ensures FirstTime(Split(source + ("," + rest), ',')) == FirstTime(Split(rest, ','))
  {
    hide Split, FirstTime, IsTimeParameter, ParseUnixTime;
    SplitAt(source, "," + rest, ',');
    assert ("," + rest)[1..] == rest;
    FirstTimeCons(source, Split(rest, ','));
  }

  lemma {:induction false} LastParameterRead(parameter: string)
    requires IsTimeParameter(parameter) && forall i :: 0 <= i < |parameter| ==> parameter[i] != ','
    ensures FirstTime(Split(parameter, ',')) == ParseUnixTime(parameter[2..])
  {
    hide Split, FirstTime, ParseUnixTime;
    SplitAt(parameter, "", ',');
    assert parameter + "" == parameter;
    FirstTimeCons(parameter, []);
    assert [parameter] + [] == [parameter];
  }

  lemma {:induction false} TimeParameterSplits(source: string, digits: string)
    requires |source| > 0 && source[0] == 's' && (forall i :: 0 <= i < |source| ==> source[i] != ',')
    requires digits != [] && (forall i :: 0 <= i < |digits| ==> IsDigit(digits[i]) || digits[i] == '-')
    ensures FirstTime(Split(source + (",c:" + digits), ',')) == ParseUnixTime(digits)
  {
    hide ParseUnixTime, Split, FirstTime;
    var parameter := "c:" + digits;
    NotTime(source);
    LastParameterRead(parameter);
    ParameterSkipped(source, parameter);
    assert "," + parameter == ",c:" + digits;
    assert parameter[2..] == digits;
  }

  /** The sent time in milliseconds, cut to the unit sent. */
  function SentTime(options: Options, time: int): int {
    if options.milliseconds then SentCount(options, time) else SentCount(options, time) * 1000
  }

  /** The time read is the time sent exactly for positive counts on the right side of 10^11. */
  lemma TimeSurvivesIff(options: Options, time: int)
    requires options.includeTime
    ensures BlockTime(Block(options, time)) == Some(SentTime(options, time)) <==>
      SentCount(options, time) > 0 && (options.milliseconds <==> SentCount(options, time) > MILLISECONDS_FROM)
  {
    hide Block, SentCount, BlockTime;
    BlockTimeReadsBack(options, time);
  }


  // The source and the units, on their own

  /** The source keeps, character by character, exactly what is printable, not blank and not reserved. */
  lemma {:induction false} KeptConcat(a: string, b: string)
    ensures Kept(a + b) == Kept(a) + Kept(b)
  {
    if a == [] {
      assert a + b == b;
    } else {
      assert (a + b)[0] == a[0] && (a + b)[1..] == a[1..] + b;
      KeptConcat(a[1..], b);
    }
  }

  lemma KeptOne(c: char)
    ensures Kept([c]) == if '!' <= c <= '~' && c !in ",*\\!$" then [c] else []
  {
    assert [c][1..] == [];
  }

  /** The first fifteen kept characters are sent, `SIM` when none is kept. */
  lemma SourceMeans(source: string)
    ensures Kept(source) == "" ==> SanitizedSource(source) == "SIM"
    ensures 0 < |Kept(source)| <= 15 ==> SanitizedSource(source) == Kept(source)
    ensures |Kept(source)| > 15 ==> SanitizedSource(source) == Kept(source)[..15]
  {
  }

  /** The sent time is the time of the sentence cut toward the epoch, by less than the unit sent: a millisecond or a
      second, in nanoseconds. */
  lemma SentTimeIsCut(options: Options, time: int)
    ensures var cut := time - SentTime(options, time) * 1_000_000;
      var unit := if options.milliseconds then 1_000_000 else 1_000_000_000;
      if time >= 0 then 0 <= cut < unit else -unit < cut <= 0
  {
  }

  /** A text of digits, with or without a point, is a time in seconds up to 10^11 and in milliseconds above, to the
      nearest millisecond; zero and every other text is none. */
  lemma ParseUnixTimeMeans(text: string)
    ensures var number := Trim(text);
      match ParseUnixTime(text)
      case None =>
        || number == "" || (exists i :: 0 <= i < |number| && number[i] !in "0123456789.")
        || ParseNumber(number).None? || ParseNumber(number).value <= 0.0
      case Some(time) =>
        && (forall i :: 0 <= i < |number| ==> number[i] in "0123456789.")
        && ParseNumber(number).Some? && ParseNumber(number).value > 0.0
        && var ms := if ParseNumber(number).value > 100_000_000_000.0 then ParseNumber(number).value
                     else ParseNumber(number).value * 1000.0;
           -0.5 <= time as real - ms <= 0.5
  {
    hide Trim, ParseNumber, Round;
    var number := Trim(text);
    forall i | 0 <= i < |number| ensures IsTimeCharacter(number[i]) <==> number[i] in "0123456789." {
      TimeCharacterMeans(number[i]);
    }
    if ParseUnixTime(text).Some? {
      var value := ParseNumber(number).value;
      var seconds := if value > 100_000_000_000.0 then value / 1000.0 else value;
      RoundIsNearest(seconds * 1000.0);
      assert value / 1000.0 * 1000.0 == value;
    }
  }

  lemma TimeCharacterMeans(c: char)
    ensures IsTimeCharacter(c) <==> c in "0123456789."
  {
    if IsDigit(c) {
      assert "0123456789."[c as int - 48] == c;
    }
  }

  /** The source stands in the first parameter of every block. */
  lemma SourceParameter(options: Options, time: int)
    ensures Split(BlockBody(options, time), ',')[0] == "s:" + SanitizedSource(options.source)
  {
    hide SanitizedSource, SentCount, SignedDecimal, Split;
    var source := "s:" + SanitizedSource(options.source);
    assert forall i :: 0 <= i < |source| ==> source[i] != ',';
    if options.includeTime {
      var rest := ",c:" + SignedDecimal(SentCount(options, time));
      assert BlockBody(options, time) == source + rest;
      SplitAt(source, rest, ',');
    } else {
      assert BlockBody(options, time) == source + "";
      SplitAt(source, "", ',');
    }
  }
}
