/** Building and parsing NMEA 0183 sentences. */
module Sentence {
  import opened Wrappers
  import opened Text
  import opened Checksum

  /** Printable ASCII that NMEA 0183 does not reserve. */
  predicate IsFieldCharacter(c: char) {
    && ' ' <= c <= '~'
    && c != ',' && c != '*' && c != '$' && c != '!' && c != '\\' && c != '^' && c != '~'
  }

  /** Every character may appear in a field. */
  predicate ReservedFree(text: string) {
    forall c <- text :: IsFieldCharacter(c)
  }

  /** The characters of `value` that may appear in a field, in order. */
  function Allowed(value: string): (kept: string)
    ensures ReservedFree(kept)
    ensures |kept| <= |value|
  {
    if value == [] then []
    else (if IsFieldCharacter(value[0]) then [value[0]] else []) + Allowed(value[1..])
  }

  lemma {:induction false} AllowedKeepsReservedFree(value: string)
    requires ReservedFree(value)
    ensures Allowed(value) == value
  {
    if value != [] {
      assert value[0] in value;
      AllowedKeepsReservedFree(value[1..]);
    }
  }

  function AllowedAll(values: seq<string>): (kept: seq<string>)
    ensures |kept| == |values|
    ensures forall i :: 0 <= i < |values| ==> kept[i] == Allowed(values[i])
  {
    seq(|values|, i requires 0 <= i < |values| => Allowed(values[i]))
  }

  lemma ReservedFreeSurvive(values: seq<string>)
    requires forall i :: 0 <= i < |values| ==> ReservedFree(values[i])
    ensures AllowedAll(values) == values
  {
    hide ReservedFree, Allowed;
    forall i | 0 <= i < |values| ensures AllowedAll(values)[i] == values[i] {
      AllowedKeepsReservedFree(values[i]);
    }
  }

  /** The sentence built from a delimiter, an address and field values, before its checksum. */
  function Body(delimiter: char, talker: string, formatter: string, values: seq<string>): string {
    [delimiter] + talker + formatter + Joined(AllowedAll(values), ',')
  }

  function Built(delimiter: char, talker: string, formatter: string, values: seq<string>): string {
    AppendChecksum(Body(delimiter, talker, formatter, values))
  }

  /** Appending a field to a built body is building with one more value. */
  lemma BodyAppends(delimiter: char, talker: string, formatter: string, values: seq<string>, value: string)
    ensures Body(delimiter, talker, formatter, values + [value])
         == Body(delimiter, talker, formatter, values) + "," + Allowed(value)
  {
    assert AllowedAll(values + [value]) == AllowedAll(values) + [Allowed(value)];
    JoinedAppends(AllowedAll(values), Allowed(value));
  }

  lemma {:induction false} JoinedAppends(pieces: seq<string>, piece: string)
    ensures Joined(pieces + [piece], ',') == Joined(pieces, ',') + "," + piece
  {
    if pieces == [] {
      assert [piece][1..] == [];
    } else {
      assert (pieces + [piece])[1..] == pieces[1..] + [piece];
      JoinedAppends(pieces[1..], piece);
    }
  }

  /** Assembles one sentence field by field; `values` are the field values given so far. */
  class SentenceBuilder {
    var body: string
    ghost var delimiter: char
    ghost var talker: string
    ghost var formatter: string
    ghost var values: seq<string>

    ghost predicate Valid()
      reads this
    {
      body == Body(delimiter, talker, formatter, values)
    }

    constructor (talker: string, formatter: string, delimiter: char)
      ensures Valid() && values == []
      ensures this.talker == talker && this.formatter == formatter && this.delimiter == delimiter
    {
      body := [delimiter] + talker + formatter;
      this.talker, this.formatter, this.delimiter, this.values := talker, formatter, delimiter, [];
    }

    /** The loop of `Field` over the characters of the value. */
    method AppendAllowed(value: string)
      modifies this`body
      ensures body == old(body) + Allowed(value)
    {
      for i := 0 to |value|
        invariant body + Allowed(value[i..]) == old(body) + Allowed(value)
      {
        if IsFieldCharacter(value[i]) {
          body := body + [value[i]];
        }
      }
    }

    method Field(value: string)
      requires Valid()
      modifies this`body, this`values
      ensures Valid() && values == old(values) + [value]
    {
      body := body + ",";
      AppendAllowed(value);
      BodyAppends(delimiter, talker, formatter, values, value);
      values := values + [value];
    }

    method Empty()
      requires Valid()
      modifies this`body, this`values
      ensures Valid() && values == old(values) + [""]
    {
      body := body + ",";
      BodyAppends(delimiter, talker, formatter, values, "");
      values := values + [""];
    }

    method Build() returns (sentence: string)
      requires Valid()
      ensures sentence == Built(delimiter, talker, formatter, values)
    {
      var checksum := ComputeChecksum(if body == [] then [] else body[1..]);
      sentence := body + [CHECKSUM_DELIMITER] + FormatChecksum(checksum);
    }

    /** Whether the framed sentence will fit the length limit. */
    predicate FitsLimit()
      requires Valid()
      reads this
      ensures FitsLimit() <==> |Built(delimiter, talker, formatter, values)| <= MAX_LENGTH_WITHOUT_TERMINATOR
    {
      |body| + 3 <= MAX_LENGTH_WITHOUT_TERMINATOR
    }
  }

  datatype ParsedSentence = ParsedSentence(
    delimiter: char, talker: string, formatter: string, fields: seq<string>, hasChecksum: bool)
  {
    /** The field at `index`; the empty text past the last one. */
    function Field(index: nat): string {
      if index < |fields| then fields[index] else ""
    }
  }

  /** The address and fields of a body without delimiter and checksum. */
  function ParseBody(delimiter: char, body: string, hasChecksum: bool): Option<ParsedSentence> {
    var comma := IndexOf(body, ',');
    var address := body[..comma];
    if |address| < 3 then None else
    var talkerLength := if address[0] == 'P' then 1 else 2;
    Some(ParsedSentence(delimiter, address[..talkerLength], address[talkerLength..],
                        if comma == |body| then [] else Split(body[comma + 1..], ','), hasChecksum))
  }

  function ParseSentence(text: string): Option<ParsedSentence> {
    var line := Trim(text);
    if |line| < 2 || !IsDelimiter(line[0]) then None else
    var body := line[1..];
    var star := IndexOf(body, CHECKSUM_DELIMITER);
    if star < |body| && !VerifyChecksum(line) then None
    else ParseBody(line[0], body[..star], star < |body|)
  }

  /** The source's field loop, which narrows the rest of the body. */
  method SplitFields(text: string) returns (fields: seq<string>)
    ensures fields == Split(text, ',')
  {
    fields := [];
    var rest := text;
    var next := IndexOf(rest, ',');
    while next < |rest|
      invariant next == IndexOf(rest, ',')
      invariant fields + Split(rest, ',') == Split(text, ',')
      decreases |rest|
    {
      fields := fields + [rest[..next]];
      rest := rest[next + 1..];
      next := IndexOf(rest, ',');
    }
    fields := fields + [rest];
  }

  method Parse(text: string) returns (parsed: Option<ParsedSentence>)
    ensures parsed == ParseSentence(text)
  {
    var line := TrimView(text);
    if |line| < 2 || !IsDelimiter(line[0]) {
      return None;
    }
    var body := line[1..];
    var star := IndexOf(body, CHECKSUM_DELIMITER);
    if star < |body| && !VerifyChecksum(line) {
      return None;
    }
    var hasChecksum := star < |body|;
    body := body[..star];
    var comma := IndexOf(body, ',');
    var address := body[..comma];
    if |address| < 3 {
      return None;
    }
    var talkerLength := if address[0] == 'P' then 1 else 2;
    var fields := [];
    if comma < |body| {
      fields := SplitFields(body[comma + 1..]);
    }
    parsed := Some(ParsedSentence(line[0], address[..talkerLength], address[talkerLength..], fields, hasChecksum));
  }

  lemma ParsedParts(text: string)
    requires ParseSentence(text).Some?
    ensures var p := ParseSentence(text).value;
      && IsDelimiter(p.delimiter) && p.talker != [] && p.formatter != []
      && (forall field <- p.fields :: ',' !in field)
      && text != [] && Trim(text) != []
  {
  }

  // Round trip and error detection

  lemma {:induction false} JoinedReservedFree(pieces: seq<string>)
    requires forall piece <- pieces :: ReservedFree(piece)
    ensures forall c <- Joined(pieces, ',') :: c == ',' || IsFieldCharacter(c)
    ensures pieces != [] ==> Joined(pieces, ',') != [] && Joined(pieces, ',')[0] == ','
  {
    if pieces != [] {
      assert ReservedFree(pieces[0]);
      JoinedReservedFree(pieces[1..]);
    }
  }

  /** A built body: the delimiter, the address and the joined fields, with no reserved character but the comma. */
  lemma BodyParts(delimiter: char, talker: string, formatter: string, values: seq<string>)
    requires ReservedFree(talker) && ReservedFree(formatter)
    ensures var body := Body(delimiter, talker, formatter, values);
      && body[0] == delimiter
      && body[1..] == talker + formatter + Joined(AllowedAll(values), ',')
      && (forall c <- body[1..] :: c == ',' || IsFieldCharacter(c))
      && ',' !in talker + formatter
      && CHECKSUM_DELIMITER !in body[1..]
  {
    JoinedReservedFree(AllowedAll(values));
  }

  lemma BuiltIsTrimmed(sentence: string)
    requires sentence != [] && IsDelimiter(sentence[0])
    ensures Trim(AppendChecksum(sentence)) == AppendChecksum(sentence)
  {
    var sum := ChecksumOf(sentence[1..]);
    FormatChecksumReadsBack(sum);
    var framed := AppendChecksum(sentence);
    assert framed[|framed| - 1] in FormatChecksum(sum);
    TrimFixes(framed);
  }

  /** Parsing a framed body parses the body. */
  lemma ParseFramed(sentence: string)
    requires |sentence| >= 2 && IsDelimiter(sentence[0]) && CHECKSUM_DELIMITER !in sentence[1..]
    ensures ParseSentence(AppendChecksum(sentence)) == ParseBody(sentence[0], sentence[1..], true)
  {
    var line := AppendChecksum(sentence);
    assert CHECKSUM_DELIMITER !in sentence by {
      assert sentence == [sentence[0]] + sentence[1..];
    }
    BuiltIsTrimmed(sentence);
    AppendedChecksumVerifies(sentence);
    var body := line[1..];
    assert forall i :: 0 <= i < |sentence| - 1 ==> body[i] == sentence[i + 1];
    IndexOfIs(body, CHECKSUM_DELIMITER, |sentence| - 1);
    assert body[..|sentence| - 1] == sentence[1..];
  }

  /** The parser splits an address without a comma from the fields joined after it. */
  lemma ParseAddressed(delimiter: char, address: string, fields: seq<string>, hasChecksum: bool)
    requires |address| >= 3 && ',' !in address
    requires forall field <- fields :: ',' !in field
    ensures var talkerLength := if address[0] == 'P' then 1 else 2;
      ParseBody(delimiter, address + Joined(fields, ','), hasChecksum)
        == Some(ParsedSentence(delimiter, address[..talkerLength], address[talkerLength..], fields, hasChecksum))
  {
    var body := address + Joined(fields, ',');
    assert forall i :: 0 <= i < |address| ==> body[i] == address[i] && address[i] in address;
    IndexOfIs(body, ',', |address|);
    assert body[..|address|] == address;
    if fields != [] {
      assert body[|address| + 1..] == Joined(fields, ',')[1..];
      SplitJoined(fields, ',');
    } else {
      assert body == address;
    }
  }

  /** Parsing a built sentence always succeeds; the address is cut after one character for a `P`
      (proprietary) talker and after two otherwise, and the fields come back filtered, in order. */
  lemma ParseBuilt(delimiter: char, talker: string, formatter: string, values: seq<string>)
    requires IsDelimiter(delimiter)
    requires |talker| == 2 && ReservedFree(talker) && formatter != [] && ReservedFree(formatter)
    ensures var address := talker + formatter;
      var talkerLength := if talker[0] == 'P' then 1 else 2;
      ParseSentence(Built(delimiter, talker, formatter, values))
        == Some(ParsedSentence(delimiter, address[..talkerLength], address[talkerLength..], AllowedAll(values), true))
  {
    var sentence := Body(delimiter, talker, formatter, values);
    BodyParts(delimiter, talker, formatter, values);
    ParseFramed(sentence);
    ParseAddressed(delimiter, talker + formatter, AllowedAll(values), true);
  }

  /** The round trip holds for exactly the talkers that do not start with `P`. */
  lemma RoundTrip(delimiter: char, talker: string, formatter: string, values: seq<string>)
    requires IsDelimiter(delimiter)
    requires |talker| == 2 && ReservedFree(talker) && formatter != [] && ReservedFree(formatter)
    ensures ParseSentence(Built(delimiter, talker, formatter, values))
         == Some(ParsedSentence(delimiter, talker, formatter, AllowedAll(values), true))
       <==> talker[0] != 'P'
  {
    ParseBuilt(delimiter, talker, formatter, values);
    var address := talker + formatter;
    assert address[..2] == talker && address[2..] == formatter;
    assert address[..1] != talker;
  }

  /** One wrong byte between the delimiter and the checksum is always detected. */
  lemma DetectsSubstitution(delimiter: char, talker: string, formatter: string, values: seq<string>, k: nat, c: char)
    requires IsDelimiter(delimiter) && ReservedFree(talker) && ReservedFree(formatter)
    requires 1 <= k < |Body(delimiter, talker, formatter, values)|
    requires c as int < 256 && c != Body(delimiter, talker, formatter, values)[k]
    ensures ParseSentence(Built(delimiter, talker, formatter, values)[k := c]).None?
  {
    var sentence := Body(delimiter, talker, formatter, values);
    BodyParts(delimiter, talker, formatter, values);
    assert sentence[k] == sentence[1..][k - 1] && sentence[k] in sentence[1..];
    assert sentence[k] <= '~';
    DetectsSubstitutionIn(sentence, k, c);
  }

  /** A framed body with one byte replaced: where its first `*` is, and that its checksum is wrong. */
  lemma SubstitutedFails(sentence: string, k: nat, c: char)
    requires sentence != [] && CHECKSUM_DELIMITER !in sentence[1..]
    requires 1 <= k < |sentence| && c as int < 256 && sentence[k] as int < 256 && c != sentence[k]
    ensures !VerifyChecksum(AppendChecksum(sentence)[k := c])
  {
    var wrong := AppendChecksum(sentence)[k := c];
    var sum := ChecksumOf(sentence[1..]);
    FormatChecksumReadsBack(sum);
    assert wrong[|wrong| - 1] in FormatChecksum(sum);
    assert StripTerminator(wrong) == wrong;
    if VerifyChecksum(wrong) {
      IndexOfFinds(wrong, CHECKSUM_DELIMITER);
      var star := IndexOf(wrong, CHECKSUM_DELIMITER);
      assert star == |sentence|;
      assert c != CHECKSUM_DELIMITER by {
        assert wrong[k] != CHECKSUM_DELIMITER;
      }
      var before, after := sentence[1..k], sentence[k + 1..];
      assert sentence[1..] == before + [sentence[k]] + after;
      assert wrong[1..star] == before + [c] + after;
      SubstitutionChangesChecksum(before, c, sentence[k], after);
    }
  }

  lemma DetectsSubstitutionIn(sentence: string, k: nat, c: char)
    requires sentence != [] && IsDelimiter(sentence[0]) && CHECKSUM_DELIMITER !in sentence[1..]
    requires 1 <= k < |sentence| && c as int < 256 && sentence[k] as int < 256 && c != sentence[k]
    ensures ParseSentence(AppendChecksum(sentence)[k := c]).None?
  {
    var wrong := AppendChecksum(sentence)[k := c];
    var sum := ChecksumOf(sentence[1..]);
    FormatChecksumReadsBack(sum);
    assert wrong[|wrong| - 1] in FormatChecksum(sum);
    TrimFixes(wrong);
    SubstitutedFails(sentence, k, c);
    IndexOfFinds(wrong[1..], CHECKSUM_DELIMITER);
    assert wrong[|sentence|] == CHECKSUM_DELIMITER;
    assert wrong[1..][|sentence| - 1] == CHECKSUM_DELIMITER;
  }


  // What the builder keeps and what the parser accepts

  /** The characters NMEA 0183 reserves. */
  const RESERVED := ",*$!\\^~"

  /** Filtering works character by character and drops exactly the reserved ones and what is not printable ASCII. */
  lemma {:induction false} AllowedConcat(a: string, b: string)
    ensures Allowed(a + b) == Allowed(a) + Allowed(b)
  {
    if a == [] {
      assert a + b == b;
    } else {
      assert (a + b)[0] == a[0] && (a + b)[1..] == a[1..] + b;
      AllowedConcat(a[1..], b);
    }
  }

  lemma AllowedOne(c: char)
    ensures Allowed([c]) == if ' ' <= c <= '~' && c !in RESERVED then [c] else []
  {
    assert [c][1..] == [];
  }

  /** What stands between the delimiter and the checksum of a parsed sentence. */
  function Content(p: ParsedSentence): string {
    p.talker + p.formatter + Joined(p.fields, ',')
  }

  /** A line that shows exactly the parsed sentence, with nothing or a matching checksum behind it. */
  ghost predicate Shows(line: string, p: ParsedSentence, suffix: string) {
    && line == [p.delimiter] + Content(p) + suffix
    && (p.delimiter == '$' || p.delimiter == '!')
    && |p.talker| == (if "P" <= Content(p) then 1 else 2) && |p.talker| + |p.formatter| >= 3
    && ',' !in p.talker + p.formatter && (forall field <- p.fields :: ',' !in field)
    && '*' !in Content(p)
    && (if !p.hasChecksum then suffix == "" else
        && |suffix| == 3 && suffix[0] == '*' && HexValue(suffix[1]).Some? && HexValue(suffix[2]).Some?
        && HexValue(suffix[1]).value * 16 + HexValue(suffix[2]).value == ChecksumOf(Content(p)))
  }

  /** The parser accepts exactly the lines that show a sentence, as that sentence: with or without a checksum, any
      number of fields, the talker cut by its first letter. */
  lemma ParseSentenceIff(text: string, p: ParsedSentence)
    ensures ParseSentence(text) == Some(p) <==> exists suffix :: Shows(Trim(text), p, suffix)
  {
    hide ParseSentence, Shows, Trim;
    if ParseSentence(text) == Some(p) {
      AcceptedShows(text, p);
    }
    forall suffix | Shows(Trim(text), p, suffix) ensures ParseSentence(text) == Some(p) {
      ShownIsAccepted(text, p, suffix);
    }
  }

  lemma ParseBodyShows(delimiter: char, body: string, hasChecksum: bool)
    requires ParseBody(delimiter, body, hasChecksum).Some?
    ensures var p := ParseBody(delimiter, body, hasChecksum).value;
      && Content(p) == body && p.delimiter == delimiter && p.hasChecksum == hasChecksum
      && |p.talker| == (if "P" <= body then 1 else 2) && |p.talker| + |p.formatter| >= 3
      && ',' !in p.talker + p.formatter && (forall field <- p.fields :: ',' !in field)
  {
    hide Split, Joined;
    IndexOfFinds(body, ',');
    var comma := IndexOf(body, ',');
    var p := ParseBody(delimiter, body, hasChecksum).value;
    assert p.talker + p.formatter == body[..comma];
    if comma < |body| {
      JoinedSplit(body[comma + 1..], ',');
      assert body == body[..comma] + ([','] + body[comma + 1..]);
    } else {
      NothingJoined(',');
    }
  }

  lemma NothingJoined(separator: char)
    ensures Joined([], separator) == []
  {
  }

  /** What stands before and behind the checksum delimiter of an accepted line. */
  lemma AcceptedSplits(text: string, p: ParsedSentence) returns (content: string, suffix: string)
    requires ParseSentence(text) == Some(p)
    ensures var line := Trim(text);
      && line != [] && IsDelimiter(line[0]) && line == [line[0]] + content + suffix
      && CHECKSUM_DELIMITER !in content && (suffix != [] ==> suffix[0] == CHECKSUM_DELIMITER && VerifyChecksum(line))
      && ParseBody(line[0], content, suffix != []) == Some(p)
  {
    hide Trim, ParseBody, IndexOf, VerifyChecksum;
    var line := Trim(text);
    var body := line[1..];
    var star := IndexOf(body, CHECKSUM_DELIMITER);
    IndexOfFinds(body, CHECKSUM_DELIMITER);
    content, suffix := body[..star], body[star..];
    assert line == [line[0]] + content + suffix;
  }

  lemma ChecksummedSuffix(line: string, content: string, suffix: string)
    requires Trimmed(line) && line != [] && line == [line[0]] + content + suffix
    requires CHECKSUM_DELIMITER !in content && suffix != [] && suffix[0] == CHECKSUM_DELIMITER && VerifyChecksum(line)
    ensures |suffix| == 3 && HexValue(suffix[1]).Some? && HexValue(suffix[2]).Some?
    ensures HexValue(suffix[1]).value * 16 + HexValue(suffix[2]).value == ChecksumOf(content)
  {
    hide HexValue, ChecksumOf, IndexOf;
    assert StripTerminator(line) == line;
    IndexOfIs(line, CHECKSUM_DELIMITER, 1 + |content|);
    assert line[1..1 + |content|] == content;
  }

  lemma AcceptedShows(text: string, p: ParsedSentence)
    requires ParseSentence(text) == Some(p)
    ensures exists suffix :: Shows(Trim(text), p, suffix)
  {
    var start := TrimSplits(text);
    hide Trim, ParseBody, Joined, IndexOf, HexValue, ChecksumOf, ParseSentence, VerifyChecksum, Content;
    var content, suffix := AcceptedSplits(text, p);
    ParseBodyShows(Trim(text)[0], content, suffix != []);
    if suffix != [] {
      ChecksummedSuffix(Trim(text), content, suffix);
    }
    assert Shows(Trim(text), p, suffix);
  }

  /** A trimmed line verifies when the suffix spells the checksum of its content. */
  lemma SuffixVerifies(line: string, content: string, suffix: string)
    requires Trimmed(line) && line != [] && IsDelimiter(line[0]) && line == [line[0]] + content + suffix
    requires content != [] && CHECKSUM_DELIMITER !in content && |suffix| == 3 && suffix[0] == CHECKSUM_DELIMITER
    requires HexValue(suffix[1]).Some? && HexValue(suffix[2]).Some?
    requires HexValue(suffix[1]).value * 16 + HexValue(suffix[2]).value == ChecksumOf(content)
    ensures VerifyChecksum(line)
  {
    hide HexValue, ChecksumOf, VerifyChecksum;
    assert StripTerminator(line) == line;
    assert suffix == [CHECKSUM_DELIMITER, suffix[1], suffix[2]];
    VerifyChecksumMeans(line);
    assert IsFramed(StripTerminator(line), content, suffix[1], suffix[2]);
  }

  lemma ContentEnds(content: string, suffix: string)
    requires CHECKSUM_DELIMITER !in content && (suffix != [] ==> suffix[0] == CHECKSUM_DELIMITER)
    ensures IndexOf(content + suffix, CHECKSUM_DELIMITER) == |content|
    ensures (content + suffix)[..|content|] == content
  {
    hide IndexOf;
    var body := content + suffix;
    assert forall i :: 0 <= i < |content| ==> body[i] == content[i];
    IndexOfIs(body, CHECKSUM_DELIMITER, |content|);
  }

  lemma ContentParses(p: ParsedSentence)
    requires |p.talker| == (if "P" <= Content(p) then 1 else 2) && |p.talker| + |p.formatter| >= 3
    requires ',' !in p.talker + p.formatter && forall field <- p.fields :: ',' !in field
    ensures ParseBody(p.delimiter, Content(p), p.hasChecksum) == Some(p)
  {
    AddressSplits(p);
    hide ParseBody, Joined;
    ParseAddressed(p.delimiter, p.talker + p.formatter, p.fields, p.hasChecksum);
  }

  lemma ShownIsAccepted(text: string, p: ParsedSentence, suffix: string)
    requires Shows(Trim(text), p, suffix)
    ensures ParseSentence(text) == Some(p)
  {
    var start := TrimSplits(text);
    ContentParses(p);
    hide Trim, ParseBody, Content, IndexOf, HexValue, ChecksumOf, VerifyChecksum;
    var line, content := Trim(text), Content(p);
    assert line[1..] == content + suffix;
    ContentEnds(content, suffix);
    ContentIsLong(p);
    if p.hasChecksum {
      SuffixVerifies(line, content, suffix);
    }
  }

  lemma ContentIsLong(p: ParsedSentence)
    ensures |Content(p)| >= |p.talker| + |p.formatter|
  {
  }

  lemma AddressSplits(p: ParsedSentence)
    requires |p.talker| == (if "P" <= Content(p) then 1 else 2) && |p.talker| + |p.formatter| >= 3
    ensures var address := p.talker + p.formatter;
      var talkerLength := if address[0] == 'P' then 1 else 2;
      address[..talkerLength] == p.talker && address[talkerLength..] == p.formatter
  {
    assert Content(p)[0] == (p.talker + p.formatter)[0];
  }
}
