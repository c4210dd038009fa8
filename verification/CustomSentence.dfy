/** Sentences typed by the operator: checking and framing. */
module CustomSentences {
  import opened Basics
  import opened Wrappers
  import opened Text
  import opened Numbers
  import opened Checksum
  import opened Sentence

  /** Why a typed sentence is refused. */
  datatype Problem = Blank | StrayStar | ForbiddenCharacter | NoAddress | TooLong

  datatype Normalised = Accepted(delimiter: char, body: string) | Refused(problem: Problem)

  predicate IsAlphanumeric(c: char) {
    IsDigit(c) || 'A' <= c <= 'Z' || 'a' <= c <= 'z'
  }

  predicate IsCustomCharacter(c: char) {
    ' ' <= c <= '~' && c != '$' && c != '!' && c != '\\' && c != '^' && c != '~'
  }

  predicate AllCustom(body: string) {
    forall i :: 0 <= i < |body| ==> IsCustomCharacter(body[i])
  }

  predicate AllAlphanumeric(address: string) {
    forall i :: 0 <= i < |address| ==> IsAlphanumeric(address[i])
  }

  /** `*` and two hexadecimal digits, or nothing. */
  predicate IsChecksumSuffix(suffix: string) {
    suffix == [] || (|suffix| == 3 && suffix[0] == CHECKSUM_DELIMITER && HexValue(suffix[1]).Some? && HexValue(suffix[2]).Some?)
  }

  /** The body of a typed sentence, without delimiter and checksum, against the remaining rules. */
  function CheckBody(delimiter: char, body: string): Normalised {
    if !AllCustom(body) then Refused(ForbiddenCharacter) else
    var address := body[..IndexOf(body, ',')];
    if |address| < 3 || !AllAlphanumeric(address) then Refused(NoAddress)
    else if |body| + 4 > MAX_LENGTH_WITHOUT_TERMINATOR then Refused(TooLong)
    else Accepted(delimiter, body)
  }

  function Normalise(text: string): Normalised {
    var trimmed := Trim(text);
    if trimmed == [] then Refused(Blank) else
    var typed := IsDelimiter(trimmed[0]);
    var delimiter, rest := if typed then trimmed[0] else START_DELIMITER, if typed then trimmed[1..] else trimmed;
    var star := IndexOf(rest, CHECKSUM_DELIMITER);
    if !IsChecksumSuffix(rest[star..]) then Refused(StrayStar) else CheckBody(delimiter, rest[..star])
  }

  function Validate(text: string): Option<Problem> {
    match Normalise(text)
    case Accepted(_, _) => None
    case Refused(problem) => Some(problem)
  }

  function Frame(text: string): Option<string> {
    match Normalise(text)
    case Accepted(delimiter, body) => Some(AppendChecksum([delimiter] + body))
    case Refused(_) => None
  }

  method FirstForbidden(text: string) returns (found: bool)
    ensures found <==> !AllCustom(text)
  {
    found := false;
    for i := 0 to |text|
      invariant !found && forall j :: 0 <= j < i ==> IsCustomCharacter(text[j])
    {
      if !IsCustomCharacter(text[i]) {
        return true;
      }
    }
  }

  /** The source's normalisation pass, which narrows a view of the text. */
  method NormaliseView(text: string) returns (result: Normalised)
    ensures result == Normalise(text)
  {
    hide Trim, IndexOf, AllCustom, AllAlphanumeric;
    var view := TrimView(text);
    if view == [] {
      return Refused(Blank);
    }
    var delimiter := START_DELIMITER;
    if IsDelimiter(view[0]) {
      delimiter := view[0];
      view := view[1..];
    }
    var star := IndexOf(view, CHECKSUM_DELIMITER);
    if star < |view| {
      if !IsChecksumSuffix(view[star..]) {
        return Refused(StrayStar);
      }
    }
    var body := view[..star];
    var forbidden := FirstForbidden(body);
    if forbidden {
      return Refused(ForbiddenCharacter);
    }
    var address := body[..IndexOf(body, ',')];
    if |address| < 3 || !AllAlphanumeric(address) {
      return Refused(NoAddress);
    }
    if |body| + 4 > MAX_LENGTH_WITHOUT_TERMINATOR {
      return Refused(TooLong);
    }
    result := Accepted(delimiter, body);
  }

  // What is accepted

  /** A body that may be framed. */
  predicate Proper(body: string) {
    var comma := IndexOf(body, ',');
    AllCustom(body) && CHECKSUM_DELIMITER !in body && 3 <= comma && AllAlphanumeric(body[..comma]) && |body| <= 76
  }

  /** The ways to type a sentence: its delimiter may be left out when it is `$`, its checksum always. */
  ghost predicate TypedAs(text: string, delimiter: char, body: string, suffix: string) {
    && IsDelimiter(delimiter) && IsChecksumSuffix(suffix)
    && (Trim(text) == [delimiter] + body + suffix || (delimiter == START_DELIMITER && Trim(text) == body + suffix))
  }

  /** Accepted is exactly what types a proper body. */
  lemma AcceptedIff(text: string, delimiter: char, body: string)
    ensures Normalise(text) == Accepted(delimiter, body) <==>
      Proper(body) && exists suffix :: TypedAs(text, delimiter, body, suffix)
  {
    hide Trim, IndexOf, AllCustom, AllAlphanumeric;
    if Normalise(text) == Accepted(delimiter, body) {
      AcceptedIsTyped(text, delimiter, body);
    }
    forall suffix | Proper(body) && TypedAs(text, delimiter, body, suffix)
      ensures Normalise(text) == Accepted(delimiter, body)
    {
      TypedIsAccepted(text, delimiter, body, suffix);
    }
  }

  lemma AcceptedIsTyped(text: string, delimiter: char, body: string)
    requires Normalise(text) == Accepted(delimiter, body)
    ensures Proper(body) && exists suffix :: TypedAs(text, delimiter, body, suffix)
  {
    hide Trim, IndexOf, AllCustom, AllAlphanumeric;
    var trimmed := Trim(text);
    var rest := if IsDelimiter(trimmed[0]) then trimmed[1..] else trimmed;
    var star := IndexOf(rest, CHECKSUM_DELIMITER);
    IndexOfFinds(rest, CHECKSUM_DELIMITER);
    assert rest == body + rest[star..];
    assert CHECKSUM_DELIMITER !in body;
    assert TypedAs(text, delimiter, body, rest[star..]) by {
      assert IsDelimiter(trimmed[0]) ==> trimmed == [delimiter] + body + rest[star..];
    }
  }

  lemma TypedIsAccepted(text: string, delimiter: char, body: string, suffix: string)
    requires Proper(body) && TypedAs(text, delimiter, body, suffix)
    ensures Normalise(text) == Accepted(delimiter, body)
  {
    var trimmed := Trim(text);
    assert body[..IndexOf(body, ',')][0] == body[0];
    assert IsAlphanumeric(body[0]);
    hide Trim, IndexOf, AllCustom, AllAlphanumeric;
    var rest := if IsDelimiter(trimmed[0]) then trimmed[1..] else trimmed;
    assert rest == body + suffix;
    IndexOfIs(rest, CHECKSUM_DELIMITER, |body|);
    assert rest[..|body|] == body && rest[|body|..] == suffix;
  }

  /** Framing a typed sentence succeeds exactly when validation finds nothing wrong, and yields a normal form: at most
      eighty characters, a checksum that verifies, accepted by the parser with its address and fields, and unchanged
      by framing it again. */
  lemma FramedIsNormalForm(text: string)
    ensures Frame(text).Some? <==> Validate(text).None?
    ensures Frame(text).Some? ==>
      var framed := Frame(text).value;
      var body := Normalise(text).body;
      && |framed| <= MAX_LENGTH_WITHOUT_TERMINATOR
      && VerifyChecksum(framed)
      && ParseSentence(framed) == ParseBody(framed[0], body, true) && ParseSentence(framed).Some?
      && Frame(framed) == Some(framed)
  {
    hide Trim, IndexOf, AllCustom, AllAlphanumeric, VerifyChecksum, ParseSentence, ParseBody;
    if Frame(text).Some? {
      var delimiter, body := Normalise(text).delimiter, Normalise(text).body;
      AcceptedIff(text, delimiter, body);
      FramedProper(delimiter, body);
    }
  }

  lemma FramedProper(delimiter: char, body: string)
    requires IsDelimiter(delimiter) && Proper(body)
    ensures var framed := AppendChecksum([delimiter] + body);
      && |framed| <= MAX_LENGTH_WITHOUT_TERMINATOR
      && VerifyChecksum(framed)
      && ParseSentence(framed) == ParseBody(delimiter, body, true) && ParseSentence(framed).Some?
      && Normalise(framed) == Accepted(delimiter, body)
  {
    hide Trim, IndexOf, AllCustom, AllAlphanumeric, VerifyChecksum, ParseSentence, Normalise;
    var sentence := [delimiter] + body;
    var framed := AppendChecksum(sentence);
    var sum := ChecksumOf(body);
    assert sentence[1..] == body;
    FormatChecksumReadsBack(sum);
    ParseFramed(sentence);
    AppendedChecksumVerifies(sentence);
    BuiltIsTrimmed(sentence);
    var suffix := [CHECKSUM_DELIMITER] + FormatChecksum(sum);
    assert framed == [delimiter] + body + suffix;
    TypedIsAccepted(framed, delimiter, body, suffix);
  }

  // Identifiers

  datatype CustomSentence = CustomSentence(id: string, body: string)

  function EffectiveId(sentence: CustomSentence, index: nat): string {
    if sentence.id == "" then "CUSTOM-" + Decimal(index + 1) else sentence.id
  }

  /** The first sentence whose identifier an earlier one already has. */
  method FindDuplicateId(sentences: seq<CustomSentence>) returns (duplicate: Option<nat>)
    ensures duplicate.None? ==>
      forall i, j :: 0 <= i < j < |sentences| ==> EffectiveId(sentences[i], i) != EffectiveId(sentences[j], j)
    ensures duplicate.Some? ==>
      var d := duplicate.value;
      && d < |sentences|
      && (exists i :: 0 <= i < d && EffectiveId(sentences[i], i) == EffectiveId(sentences[d], d))
      && forall i, j :: 0 <= i < j < d ==> EffectiveId(sentences[i], i) != EffectiveId(sentences[j], j)
  {
    hide EffectiveId;
    var seen: set<string> := {};
    for i := 0 to |sentences|
      invariant forall id :: id in seen <==> exists j :: 0 <= j < i && EffectiveId(sentences[j], j) == id
      invariant forall j, k :: 0 <= j < k < i ==> EffectiveId(sentences[j], j) != EffectiveId(sentences[k], k)
    {
      var id := EffectiveId(sentences[i], i);
      if id in seen {
        return Some(i);
      }
      seen := seen + {id};
    }
    duplicate := None;
  }


  // Which rule is broken first

  lemma CustomCharacterMeans(c: char)
    ensures IsCustomCharacter(c) <==> ' ' <= c <= '~' && c !in "$!\\^~"
  {
  }

  lemma AlphanumericMeans(c: char)
    ensures IsAlphanumeric(c) <==> c in "0123456789" || Upper(c) in UPPER_CASE
  {
    if IsDigit(c) {
      assert "0123456789"[c as int - 48] == c;
    } else if 'A' <= Upper(c) <= 'Z' {
      assert UPPER_CASE[Upper(c) as int - 65] == Upper(c);
    }
  }

  /** The one way a text that is not blank splits into delimiter, body without `*` and suffix. */
  ghost predicate Splits(text: string, delimiter: char, body: string, suffix: string) {
    && IsDelimiter(delimiter) && CHECKSUM_DELIMITER !in body && Trim(text) != ""
    && (if IsDelimiter(Trim(text)[0]) then Trim(text) == [delimiter] + (body + suffix)
        else delimiter == START_DELIMITER && Trim(text) == body + suffix)
  }

  lemma SplitNormalises(text: string, delimiter: char, body: string, suffix: string)
    requires Splits(text, delimiter, body, suffix) && IsChecksumSuffix(suffix)
    ensures Normalise(text) == CheckBody(delimiter, body)
  {
    hide Trim, IndexOf, CheckBody;
    var trimmed := Trim(text);
    var rest := if IsDelimiter(trimmed[0]) then trimmed[1..] else trimmed;
    assert rest == body + suffix;
    assert forall i :: 0 <= i < |body| ==> rest[i] == body[i];
    IndexOfIs(rest, CHECKSUM_DELIMITER, |body|);
    assert rest[..|body|] == body && rest[|body|..] == suffix;
  }

  /** A text with a checksum or nothing behind its body is judged by the body: characters first, then address, then
      length. */
  lemma TypedVerdict(text: string, delimiter: char, body: string, suffix: string)
    requires Splits(text, delimiter, body, suffix) && IsChecksumSuffix(suffix)
    ensures Validate(text) ==
      if !AllCustom(body) then Some(ForbiddenCharacter)
      else if IndexOf(body, ',') < 3 || !AllAlphanumeric(body[..IndexOf(body, ',')]) then Some(NoAddress)
      else if |body| > 76 then Some(TooLong)
      else None
  {
    hide Normalise, IndexOf, AllCustom, AllAlphanumeric, Splits;
    SplitNormalises(text, delimiter, body, suffix);
  }

  /** Every other text is blank, or has a stray `*`. */
  lemma UntypedVerdict(text: string)
    ensures Validate(text) == Some(Blank) <==> Trim(text) == ""
    ensures Validate(text) == Some(StrayStar) <==>
      Trim(text) != "" && !exists delimiter, body, suffix ::
        Splits(text, delimiter, body, suffix) && IsChecksumSuffix(suffix)
  {
    hide Trim, IndexOf, CheckBody, Splits, IsChecksumSuffix;
    CheckedIsTyped(text);
    forall delimiter, body, suffix | Splits(text, delimiter, body, suffix) && IsChecksumSuffix(suffix)
      ensures Validate(text) != Some(StrayStar)
    {
      SplitNormalises(text, delimiter, body, suffix);
      BodyVerdict(delimiter, body);
    }
  }

  lemma BodyVerdict(delimiter: char, body: string)
    ensures CheckBody(delimiter, body) != Refused(StrayStar) && CheckBody(delimiter, body) != Refused(Blank)
  {
  }

  lemma CheckedIsTyped(text: string)
    ensures Trim(text) == "" <==> Normalise(text) == Refused(Blank)
    ensures Trim(text) != "" && Normalise(text) != Refused(StrayStar) ==>
      exists delimiter, body, suffix :: Splits(text, delimiter, body, suffix) && IsChecksumSuffix(suffix)
  {
    hide Trim, IndexOf, CheckBody, IsChecksumSuffix;
    var trimmed := Trim(text);
    if trimmed != "" {
      var typed := IsDelimiter(trimmed[0]);
      var delimiter, rest := if typed then trimmed[0] else START_DELIMITER, if typed then trimmed[1..] else trimmed;
      var star := IndexOf(rest, CHECKSUM_DELIMITER);
      IndexOfFinds(rest, CHECKSUM_DELIMITER);
      BodyVerdict(delimiter, rest[..star]);
      assert rest == rest[..star] + rest[star..];
      assert typed ==> trimmed == [delimiter] + rest;
      assert Splits(text, delimiter, rest[..star], rest[star..]);
    }
  }

  /** Sentences without an identifier are numbered from one, so no two of them share one. */
  lemma UnnamedIds(sentence: CustomSentence, index: nat)
    requires sentence.id == ""
    ensures var id := EffectiveId(sentence, index);
      "CUSTOM-" <= id && AllDigits(id[7..]) && DigitsValue(id[7..]) == index + 1
  {
    DecimalReadsBack(index + 1);
    assert EffectiveId(sentence, index)[7..] == Decimal(index + 1);
  }
}
