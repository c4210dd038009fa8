/** Framing of armoured AIS payloads into sentences, and their reassembly. */
module AisFrames {
  import opened Wrappers
  import opened Basics
  import opened Text
  import opened Numbers
  import opened Checksum
  import opened Sentence
  import opened SixBit

  const MAX_PAYLOAD_PER_SENTENCE := 60

  /** The number of sentences a payload of `length` characters takes; an empty one takes one. */
  function SentenceCount(length: nat): (count: nat)
    ensures count >= 1
    ensures MAX_PAYLOAD_PER_SENTENCE * (count - 1) <= length <= MAX_PAYLOAD_PER_SENTENCE * count
  {
    if length == 0 then 1 else (length + MAX_PAYLOAD_PER_SENTENCE - 1) / MAX_PAYLOAD_PER_SENTENCE
  }

  /** The end of the first `count` fragments. */
  function FragmentEnd(text: string, count: nat): (end: nat)
    ensures end <= |text|
  {
    if MAX_PAYLOAD_PER_SENTENCE * count < |text| then MAX_PAYLOAD_PER_SENTENCE * count else |text|
  }

  function Fragment(text: string, index: nat): (fragment: string)
    ensures |fragment| <= MAX_PAYLOAD_PER_SENTENCE
  {
    text[FragmentEnd(text, index)..FragmentEnd(text, index + 1)]
  }

  /** The six fields of sentence `index` of `total`. */
  function FragmentFields(payload: Payload, sequence: int, total: nat, index: nat): seq<string> {
    [Decimal(total), Decimal(index + 1), if total > 1 then Decimal(Clamp(sequence, 0, 9)) else "", "A",
     Fragment(payload.text, index), Decimal(if index + 1 == total then payload.fillBits else 0)]
  }

  function FramedUpTo(talker: string, formatter: string, payload: Payload, sequence: int, total: nat, count: nat): (s: seq<string>)
    ensures |s| == count
    ensures forall i :: 0 <= i < count ==>
      s[i] == Built(ENCAPSULATION_DELIMITER, talker, formatter, FragmentFields(payload, sequence, total, i))
  {
    if count == 0 then [] else
    FramedUpTo(talker, formatter, payload, sequence, total, count - 1)
      + [Built(ENCAPSULATION_DELIMITER, talker, formatter, FragmentFields(payload, sequence, total, count - 1))]
  }

  function Framed(talker: string, formatter: string, payload: Payload, sequence: int): seq<string> {
    var total := SentenceCount(|payload.text|);
    FramedUpTo(talker, formatter, payload, sequence, total, total)
  }

  /** The total, the sentence number and, in a message of several sentences, the message id. */
  method AppendNumbers(builder: SentenceBuilder, sequence: int, total: nat, index: nat)
    requires builder.Valid()
    modifies builder`body, builder`values
    ensures builder.Valid()
    ensures builder.values == old(builder.values)
      + [Decimal(total), Decimal(index + 1), if total > 1 then Decimal(Clamp(sequence, 0, 9)) else ""]
  {
    builder.Field(Decimal(total));
    builder.Field(Decimal(index + 1));
    if total > 1 {
      builder.Field(Decimal(Clamp(sequence, 0, 9)));
    } else {
      builder.Empty();
    }
  }

  /** One pass of the source's loop: the builder calls for sentence `index`. */
  method BuildFragment(talker: string, formatter: string, payload: Payload, sequence: int, total: nat, index: nat)
    returns (sentence: string)
    ensures sentence == Built(ENCAPSULATION_DELIMITER, talker, formatter, FragmentFields(payload, sequence, total, index))
  {
    var fragment := Fragment(payload.text, index);
    var last := index + 1 == total;
    var builder := new SentenceBuilder(talker, formatter, ENCAPSULATION_DELIMITER);
    AppendNumbers(builder, sequence, total, index);
    builder.Field("A");
    builder.Field(fragment);
    builder.Field(Decimal(if last then payload.fillBits else 0));
    assert builder.values == FragmentFields(payload, sequence, total, index);
    sentence := builder.Build();
  }

  method FramePayload(talker: string, formatter: string, payload: Payload, sequence: int) returns (sentences: seq<string>)
    ensures sentences == Framed(talker, formatter, payload, sequence)
  {
    var total := SentenceCount(|payload.text|);
    sentences := [];
    for index := 0 to total
      invariant sentences == FramedUpTo(talker, formatter, payload, sequence, total, index)
    {
      var sentence := BuildFragment(talker, formatter, payload, sequence, total, index);
      sentences := sentences + [sentence];
    }
  }

  // The receiving side, with `parse` for the sentence parser

  /** Field 4 of every sentence, joined; nothing when a sentence does not parse. */
  function Collected(parse: string -> Option<ParsedSentence>, sentences: seq<string>): Option<string> {
    if sentences == [] then Some([])
    else
      var n := |sentences| - 1;
      var (before, last) := (Collected(parse, sentences[..n]), parse(sentences[n]));
      if before.Some? && last.Some? then Some(before.value + last.value.Field(4)) else None
  }

  /** The message bits: the collected payload un-armoured, less the fill bits of the last sentence. */
  function ReadMessage(parse: string -> Option<ParsedSentence>, sentences: seq<string>): Option<seq<bool>> {
    if sentences == [] then None else
    var (text, last) := (Collected(parse, sentences), parse(sentences[|sentences| - 1]));
    if text.None? || last.None? || !AllDigits(last.value.Field(5)) then None else
    var (bits, fill) := (Unarmored(text.value), DigitsValue(last.value.Field(5)));
    if fill > |bits| then None else Some(bits[..|bits| - fill])
  }

  lemma DigitsReservedFree(digits: string)
    requires AllDigits(digits)
    ensures ReservedFree(digits) && Allowed(digits) == digits
  {
    forall c <- digits ensures IsFieldCharacter(c) {
      assert IsDigit(c);
    }
    AllowedKeepsReservedFree(digits);
  }

  lemma DecimalSurvives(value: nat)
    ensures Allowed(Decimal(value)) == Decimal(value)
  {
    DecimalReadsBack(value);
    DigitsReservedFree(Decimal(value));
  }

  /** The sentence builder drops nothing from an armoured payload. */
  lemma {:induction false} ArmoredSurvives(bits: seq<bool>)
    ensures ReservedFree(Armored(bits)) && Allowed(Armored(bits)) == Armored(bits)
  {
    ArmoredAlphabet(bits);
    AllowedKeepsReservedFree(Armored(bits));
  }

  lemma FieldsSurvive(payload: Payload, sequence: int, total: nat, index: nat)
    requires ReservedFree(payload.text)
    ensures AllowedAll(FragmentFields(payload, sequence, total, index)) == FragmentFields(payload, sequence, total, index)
  {
    var v := FragmentFields(payload, sequence, total, index);
    DecimalSurvives(total);
    DecimalSurvives(index + 1);
    DecimalSurvives(Clamp(sequence, 0, 9));
    DecimalSurvives(if index + 1 == total then payload.fillBits else 0);
    AllowedKeepsReservedFree(v[4]);
    AllowedKeepsReservedFree(v[3]);
    SurviveAll(v);
  }

  lemma SurviveAll(values: seq<string>)
    requires |values| == 6
    requires Allowed(values[0]) == values[0] && Allowed(values[1]) == values[1] && Allowed(values[2]) == values[2]
    requires Allowed(values[3]) == values[3] && Allowed(values[4]) == values[4] && Allowed(values[5]) == values[5]
    ensures AllowedAll(values) == values
  {
    hide Allowed;
    forall i | 0 <= i < 6 ensures AllowedAll(values)[i] == values[i] {
    }
  }

  /** Every sentence parses to the fields that were framed; the address comes back whole, and split
      as it was exactly when the talker does not start with `P`. */
  lemma FramedParses(talker: string, formatter: string, payload: Payload, sequence: int, total: nat, index: nat)
    requires |talker| == 2 && ReservedFree(talker) && formatter != [] && ReservedFree(formatter)
    requires ReservedFree(payload.text)
    ensures var values := FragmentFields(payload, sequence, total, index);
      var parsed := ParseSentence(Built(ENCAPSULATION_DELIMITER, talker, formatter, values));
      && parsed.Some? && parsed.value.fields == values && parsed.value.hasChecksum
      && parsed.value.talker + parsed.value.formatter == talker + formatter
      && (parsed.value.talker == talker <==> talker[0] != 'P')
  {
    var address := talker + formatter;
    FieldsSurvive(payload, sequence, total, index);
    ParseBuilt(ENCAPSULATION_DELIMITER, talker, formatter, FragmentFields(payload, sequence, total, index));
    assert address[..2] == talker && |address[..1]| == 1;
  }

  /** `sentences` parse to the fields of all fragments of `payload`. */
  ghost predicate Carries(parse: string -> Option<ParsedSentence>, sentences: seq<string>, payload: Payload, sequence: int) {
    var total := SentenceCount(|payload.text|);
    && |sentences| == total
    && forall i :: 0 <= i < total ==>
         parse(sentences[i]).Some? && parse(sentences[i]).value.fields == FragmentFields(payload, sequence, total, i)
  }

  lemma {:induction false} CollectsPayload(parse: string -> Option<ParsedSentence>, sentences: seq<string>, payload: Payload,
                                           sequence: int, count: nat)
    requires Carries(parse, sentences, payload, sequence) && count <= |sentences|
    ensures Collected(parse, sentences[..count]) == Some(payload.text[..FragmentEnd(payload.text, count)])
    decreases count
  {
    var text := payload.text;
    if count == 0 {
      assert text[..FragmentEnd(text, 0)] == [];
    } else {
      CollectsPayload(parse, sentences, payload, sequence, count - 1);
      assert sentences[..count][..count - 1] == sentences[..count - 1];
      assert text[..FragmentEnd(text, count - 1)] + Fragment(text, count - 1) == text[..FragmentEnd(text, count)];
    }
  }

  lemma CollectsAll(parse: string -> Option<ParsedSentence>, sentences: seq<string>, payload: Payload, sequence: int)
    requires Carries(parse, sentences, payload, sequence)
    ensures Collected(parse, sentences) == Some(payload.text)
  {
    hide Collected;
    var (text, total) := (payload.text, |sentences|);
    CollectsPayload(parse, sentences, payload, sequence, total);
    assert sentences[..total] == sentences;
    assert text[..FragmentEnd(text, total)] == text;
  }

  lemma LastCarriesFill(parse: string -> Option<ParsedSentence>, sentences: seq<string>, payload: Payload, sequence: int)
    requires Carries(parse, sentences, payload, sequence)
    ensures sentences != []
    ensures var last := parse(sentences[|sentences| - 1]);
      last.Some? && last.value.Field(5) == Decimal(payload.fillBits)
  {
  }

  lemma ReadsPayload(parse: string -> Option<ParsedSentence>, sentences: seq<string>, payload: Payload, sequence: int,
                     bits: seq<bool>)
    requires Carries(parse, sentences, payload, sequence)
    requires |bits| == 6 * |payload.text| - payload.fillBits && bits == Unarmored(payload.text)[..|bits|]
    ensures ReadMessage(parse, sentences) == Some(bits)
  {
    hide Carries, Collected, Unarmored, Decimal, AllDigits, DigitsValue;
    CollectsAll(parse, sentences, payload, sequence);
    LastCarriesFill(parse, sentences, payload, sequence);
    DecimalReadsBack(payload.fillBits);
  }

  lemma {:induction false} ArmoredUnpads(bits: seq<bool>)
    ensures 6 * |Armored(bits)| - FillBits(|bits|) == |bits|
    ensures Unarmored(Armored(bits))[..|bits|] == bits
  {
    UnarmoredArmored(bits);
    assert |Unarmored(Armored(bits))| == |bits| + FillBits(|bits|);
  }

  /** Whatever carries an armoured payload is read as the bits that were armoured. */
  lemma {:induction false} CarriedIsRead(parse: string -> Option<ParsedSentence>, sentences: seq<string>, bits: seq<bool>, sequence: int)
    requires Carries(parse, sentences, Payload(Armored(bits), FillBits(|bits|)), sequence)
    ensures ReadMessage(parse, sentences) == Some(bits)
  {
    ArmoredUnpads(bits);
    ReadsPayload(parse, sentences, Payload(Armored(bits), FillBits(|bits|)), sequence, bits);
  }

  /** Armouring, framing, parsing, joining and un-armouring give back exactly the bits, however many. */
  lemma {:induction false} EndToEnd(talker: string, formatter: string, bits: seq<bool>, sequence: int)
    requires |talker| == 2 && ReservedFree(talker) && formatter != [] && ReservedFree(formatter)
    ensures ReadMessage(ParseSentence, Framed(talker, formatter, Payload(Armored(bits), FillBits(|bits|)), sequence))
         == Some(bits)
  {
    var payload := Payload(Armored(bits), FillBits(|bits|));
    var sentences := Framed(talker, formatter, payload, sequence);
    ArmoredSurvives(bits);
    forall i | 0 <= i < |sentences|
      ensures ParseSentence(sentences[i]).Some?
      ensures ParseSentence(sentences[i]).value.fields == FragmentFields(payload, sequence, |sentences|, i)
    {
      FramedParses(talker, formatter, payload, sequence, |sentences|, i);
    }
    CarriedIsRead(ParseSentence, sentences, bits, sequence);
  }

  // Length

  function TotalLength(pieces: seq<string>): nat {
    if pieces == [] then 0 else |pieces[0]| + TotalLength(pieces[1..])
  }

  lemma {:induction false} JoinedLength(pieces: seq<string>)
    ensures |Joined(pieces, ',')| == |pieces| + TotalLength(pieces)
  {
    if pieces != [] {
      JoinedLength(pieces[1..]);
    }
  }

  lemma TotalLengthOfSix(a: string, b: string, c: string, d: string, e: string, f: string)
    ensures TotalLength([a, b, c, d, e, f]) == |a| + |b| + |c| + |d| + |e| + |f|
  {
    assert TotalLength([f]) == |f|;
    assert [e, f][1..] == [f];
    assert TotalLength([e, f]) == |e| + |f|;
    assert [d, e, f][1..] == [e, f];
    assert TotalLength([d, e, f]) == |d| + |e| + |f|;
    assert [c, d, e, f][1..] == [d, e, f];
    assert TotalLength([c, d, e, f]) == |c| + |d| + |e| + |f|;
    assert [b, c, d, e, f][1..] == [c, d, e, f];
    assert TotalLength([b, c, d, e, f]) == |b| + |c| + |d| + |e| + |f|;
    assert [a, b, c, d, e, f][1..] == [b, c, d, e, f];
  }

  lemma FramedLength(talker: string, formatter: string, payload: Payload, sequence: int, total: nat, index: nat)
    requires |talker| == 2 && |formatter| == 3 && ReservedFree(payload.text)
    ensures var v := FragmentFields(payload, sequence, total, index);
      |Built(ENCAPSULATION_DELIMITER, talker, formatter, v)| == 16 + |v[0]| + |v[1]| + |v[2]| + |v[4]| + |v[5]|
  {
    var v := FragmentFields(payload, sequence, total, index);
    FieldsSurvive(payload, sequence, total, index);
    JoinedLength(v);
    TotalLengthOfSix(v[0], v[1], v[2], v[3], v[4], v[5]);
    assert v == [v[0], v[1], v[2], v[3], v[4], v[5]];
    FormatChecksumReadsBack(ChecksumOf(Body(ENCAPSULATION_DELIMITER, talker, formatter, v)[1..]));
  }

  /** Up to nine sentences every number but the fragment is one digit. */
  lemma ShortSentence(talker: string, formatter: string, payload: Payload, sequence: int, total: nat, index: nat)
    requires |talker| == 2 && |formatter| == 3 && ReservedFree(payload.text) && payload.fillBits < 6
    requires index < total <= 9
    ensures |Built(ENCAPSULATION_DELIMITER, talker, formatter, FragmentFields(payload, sequence, total, index))|
         <= MAX_LENGTH_WITHOUT_TERMINATOR
  {
    FramedLength(talker, formatter, payload, sequence, total, index);
    DecimalLength(total, 1);
    DecimalLength(index + 1, 1);
    DecimalLength(Clamp(sequence, 0, 9), 1);
    DecimalLength(payload.fillBits, 1);
    DecimalLength(0, 1);
  }

  /** From ten sentences on, the total takes two digits and a full fragment no longer fits. */
  lemma LongSentence(talker: string, formatter: string, payload: Payload, sequence: int, total: nat)
    requires |talker| == 2 && |formatter| == 3 && ReservedFree(payload.text)
    requires total > 9 && |payload.text| >= MAX_PAYLOAD_PER_SENTENCE
    ensures |Built(ENCAPSULATION_DELIMITER, talker, formatter, FragmentFields(payload, sequence, total, 0))|
          > MAX_LENGTH_WITHOUT_TERMINATOR
  {
    FramedLength(talker, formatter, payload, sequence, total, 0);
    DecimalLength(total, 1);
    DecimalReadsBack(1);
    DecimalReadsBack(Clamp(sequence, 0, 9));
    DecimalReadsBack(0);
  }

  lemma NineSentences(bits: nat)
    ensures SentenceCount((bits + 5) / 6) <= 9 <==> bits <= 3240
  {
  }

  /** The length limit holds for every sentence exactly up to nine sentences, 3240 bits. */
  lemma {:induction false} LengthLimit(talker: string, formatter: string, bits: seq<bool>, sequence: int)
    requires |talker| == 2 && |formatter| == 3
    ensures (forall sentence <- Framed(talker, formatter, Payload(Armored(bits), FillBits(|bits|)), sequence) ::
               |sentence| <= MAX_LENGTH_WITHOUT_TERMINATOR)
       <==> |bits| <= 3240
  {
    var payload := Payload(Armored(bits), FillBits(|bits|));
    var sentences := Framed(talker, formatter, payload, sequence);
    var total := |sentences|;
    NineSentences(|bits|);
    ArmoredSurvives(bits);
    if total <= 9 {
      forall i | 0 <= i < total ensures |sentences[i]| <= MAX_LENGTH_WITHOUT_TERMINATOR {
        ShortSentence(talker, formatter, payload, sequence, total, i);
      }
    } else {
      LongSentence(talker, formatter, payload, sequence, total);
      assert sentences[0] in sentences;
    }
  }


  // The numbers in the sentences

  /** The sentences of a payload are as few as can hold it, sixty characters each, and at least one. */
  lemma SentenceCountIsLeast(length: nat)
    ensures length <= 60 * SentenceCount(length)
    ensures forall fewer: nat :: 0 < fewer < SentenceCount(length) ==> 60 * fewer < length
  {
  }

  /** What the fields of fragment `index` read as: the total, its own number from one, the message id only when there
      are several, channel A, its part of the payload, and the fill bits in the last one only. */
  lemma FragmentMeans(payload: Payload, sequence: int, total: nat, index: nat)
    requires index < total
    ensures var f := FragmentFields(payload, sequence, total, index);
      && |f| == 6
      && AllDigits(f[0]) && DigitsValue(f[0]) == total
      && AllDigits(f[1]) && DigitsValue(f[1]) == index + 1
      && (total == 1 ==> f[2] == "")
      && (total > 1 ==> AllDigits(f[2]) && DigitsValue(f[2]) == if sequence < 0 then 0 else if sequence > 9 then 9 else sequence)
      && f[3] == "A"
      && f[4] == payload.text[FragmentEnd(payload.text, index)..FragmentEnd(payload.text, index + 1)]
      && FragmentEnd(payload.text, index) == (if 60 * index < |payload.text| then 60 * index else |payload.text|)
      && AllDigits(f[5]) && DigitsValue(f[5]) == if index + 1 == total then payload.fillBits else 0
  {
    hide Decimal, AllDigits, DigitsValue;
    DecimalReadsBack(total);
    DecimalReadsBack(index + 1);
    DecimalReadsBack(if sequence < 0 then 0 else if sequence > 9 then 9 else sequence);
    DecimalReadsBack(if index + 1 == total then payload.fillBits else 0);
  }

  /** The sentences of a payload on the wire: delimiter `!`, the address whole, and those fields. */
  lemma {:induction false} FramedMeans(talker: string, formatter: string, payload: Payload, sequence: int, index: nat)
    requires |talker| == 2 && ReservedFree(talker) && formatter != [] && ReservedFree(formatter)
    requires ReservedFree(payload.text) && index < SentenceCount(|payload.text|)
    ensures var sentences := Framed(talker, formatter, payload, sequence);
      && |sentences| == SentenceCount(|payload.text|)
      && sentences[index] ==
           AppendChecksum("!" + talker + formatter
                          + Joined(FragmentFields(payload, sequence, |sentences|, index), ','))
  {
    hide FragmentFields, Joined, AppendChecksum, SentenceCount;
    FieldsSurvive(payload, sequence, SentenceCount(|payload.text|), index);
  }
}
