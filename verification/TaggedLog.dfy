/** The round trip of tagged sentences: sent with TAG blocks by an output, read back as a log. */
module TaggedLog {
  import opened Basics
  import opened Wrappers
  import opened Text
  import opened Checksum
  import opened Sentence
  import opened TagBlock
  import opened LogFile
  import opened LogProperties

  /** A sentence as an output sent it, at a time in nanoseconds since the epoch. */
  datatype Sent = Sent(options: Options, time: int, sentence: string)

  /** A trimmed sentence on one line that the parser accepts. */
  ghost predicate Sendable(r: Readers, sentence: string) {
    && sentence != [] && IsDelimiter(sentence[0]) && Trimmed(sentence) && '\n' !in sentence
    && r.parse(sentence).Some?
  }

  ghost predicate AllSendable(r: Readers, sent: seq<Sent>) {
    forall i :: 0 <= i < |sent| ==> Sendable(r, sent[i].sentence)
  }

  function TaggedLine(s: Sent): string {
    Prepended(s.sentence, s.options, s.time) + "\r"
  }

  function TaggedText(sent: seq<Sent>): string
    decreases |sent|
  {
    if sent == [] then "" else TaggedLine(sent[0]) + ("\n" + TaggedText(sent[1..]))
  }

  function RawOf(r: Readers, s: Sent): RawEntry
    requires r.parse(s.sentence).Some?
  {
    RawEntry(s.sentence, BlockTime(Block(s.options, s.time)), TimeOfSentence(r.parse(s.sentence).value))
  }

  ghost function RawOfAll(r: Readers, sent: seq<Sent>): (raw: seq<RawEntry>)
    requires AllSendable(r, sent)
    ensures |raw| == |sent|
    ensures forall i :: 0 <= i < |sent| ==> raw[i] == RawOf(r, sent[i])
  {
    seq(|sent|, i requires 0 <= i < |sent| => RawOf(r, sent[i]))
  }

  lemma BareSentenceReads(r: Readers, sentence: string, tagged: Option<int>)
    requires Sendable(r, sentence)
    ensures ReadUntagged(r, sentence, tagged)
         == Some(RawEntry(sentence, tagged, TimeOfSentence(r.parse(sentence).value)))
  {
    hide TimeOfSentence, ParseUnixTime;
    assert FirstDelimiter(sentence) == 0;
    assert sentence[0..] == sentence;
    TrimFixes(sentence);
    assert sentence[..0] == "";
    assert Trim("") == "";
    assert PrefixTime(r, "") == None;
  }

  lemma PrependedReads(r: Readers, s: Sent)
    requires Sendable(r, s.sentence)
    ensures var line := Prepended(s.sentence, s.options, s.time);
      line != [] && ReadLine(r, line) == Some(RawOf(r, s))
  {
    hide TimeOfSentence, ReadUntagged, ChecksumValid, BlockTime, Block;
    var (block, line) := (Block(s.options, s.time), Prepended(s.sentence, s.options, s.time));
    BlockIsValid(s.options, s.time);
    assert line[1..] == block + ("\\" + s.sentence);
    IndexOfIs(line[1..], '\\', |block|);
    assert line[1..1 + |block|] == block;
    assert line[1 + |block| + 1..] == s.sentence;
    TrimFixes(s.sentence);
    BareSentenceReads(r, s.sentence, BlockTime(block));
  }

  lemma {:induction false} TaggedLineGathers(r: Readers, p: Pass, s: Sent)
    requires Sendable(r, s.sentence)
    ensures Gathered(r, p, TaggedLine(s)) == p.(raw := p.raw + [RawOf(r, s)])
    ensures forall i :: 0 <= i < |TaggedLine(s)| ==> TaggedLine(s)[i] != '\n'
  {
    var line := Prepended(s.sentence, s.options, s.time);
    PrependedReads(r, s);
    LineIsTrimmed(s);
    hide *;
    assert line != [];
    GathersRead(r, p, TaggedLine(s), line);
  }

  lemma GathersRead(r: Readers, p: Pass, text: string, line: string)
    requires Trim(text) == line && line != [] && line[0] == '\\' && ReadLine(r, line).Some?
    ensures Gathered(r, p, text) == p.(raw := p.raw + [ReadLine(r, line).value])
  {
    hide ReadLine, Trim;
  }

  lemma {:induction false} LineIsTrimmed(s: Sent)
    requires s.sentence != [] && Trimmed(s.sentence) && '\n' !in s.sentence
    ensures var line := Prepended(s.sentence, s.options, s.time);
      && Trim(TaggedLine(s)) == line && line != [] && line[0] == '\\'
      && forall i :: 0 <= i < |TaggedLine(s)| ==> TaggedLine(s)[i] != '\n'
  {
    BlockIsValid(s.options, s.time);
    hide Block, ChecksumValid, IndexOf, Trim;
    var line := Prepended(s.sentence, s.options, s.time);
    OnOneLine(Block(s.options, s.time), s.sentence);
    assert line[|line| - 1] == s.sentence[|s.sentence| - 1];
    TrimPadded("", line, "\r");
    assert "" + line + "\r" == line + "\r";
  }

  lemma OnOneLine(block: string, sentence: string)
    requires forall i :: 0 <= i < |block| ==> ' ' < block[i]
    requires '\n' !in sentence
    ensures var line := "\\" + block + "\\" + sentence + "\r";
      forall i :: 0 <= i < |line| ==> line[i] != '\n'
  {
  }

  lemma {:induction false} TaggedTextGathers(r: Readers, p: Pass, sent: seq<Sent>)
    requires AllSendable(r, sent)
    ensures GatheredAll(r, p, Split(TaggedText(sent), '\n')) == p.(raw := p.raw + RawOfAll(r, sent))
    decreases |sent|
  {
    hide Gathered, GatheredAll, Split, RawOf, TaggedLine, Trimmed;
    if sent == [] {
      NoLines(r, p);
    } else {
      var (line, rest) := (TaggedLine(sent[0]), TaggedText(sent[1..]));
      TaggedLineGathers(r, p, sent[0]);
      SplitAt(line, "\n" + rest, '\n');
      assert ("\n" + rest)[1..] == rest;
      GatheredCons(r, p, line, Split(rest, '\n'));
      TaggedTextGathers(r, p.(raw := p.raw + [RawOf(r, sent[0])]), sent[1..]);
      assert RawOfAll(r, sent) == [RawOf(r, sent[0])] + RawOfAll(r, sent[1..]);
      Associates(p.raw, [RawOf(r, sent[0])], RawOfAll(r, sent[1..]));
    }
  }

  /** Reading tagged sentences gives each sentence back, in order, with the time its block gives. */
  lemma {:induction false} TaggedLogReads(r: Readers, sent: seq<Sent>, interval: nat)
    requires sent != [] && AllSendable(r, sent)
    ensures ParsedLog(r, TaggedText(sent), interval)
         == Parsed(Log(EntriesOf(RawOfAll(r, sent), interval), map[], TimingOf(RawOfAll(r, sent)), 0))
  {
    hide GatheredAll, Split, EntriesOf, TimingOf, AllSendable, TaggedText;
    TaggedTextGathers(r, NOTHING, sent);
    assert [] + RawOfAll(r, sent) == RawOfAll(r, sent);
  }

  /** The block carries a time that survives: positive, and in seconds up to 10^11 or in milliseconds above. */
  predicate Timely(s: Sent) {
    && s.options.includeTime && SentCount(s.options, s.time) > 0
    && (s.options.milliseconds <==> SentCount(s.options, s.time) > MILLISECONDS_FROM)
  }

  predicate InOrder(sent: seq<Sent>) {
    forall i, j :: 0 <= i <= j < |sent| ==> SentTime(sent[i].options, sent[i].time) <= SentTime(sent[j].options, sent[j].time)
  }

  /** Sentences tagged with surviving times in order come back with those times, and are replayed at their differences. */
  lemma {:induction false} TaggedLogRoundTrip(r: Readers, sent: seq<Sent>, interval: nat)
    requires sent != [] && AllSendable(r, sent)
    requires (forall i :: 0 <= i < |sent| ==> Timely(sent[i])) && InOrder(sent)
    ensures var result := ParsedLog(r, TaggedText(sent), interval);
      && result.Parsed? && result.log.timing == Timestamps && result.log.skippedLines == 0
      && |result.log.entries| == |sent|
      && forall i :: 0 <= i < |sent| ==>
           var at := SentTime(sent[i].options, sent[i].time);
           result.log.entries[i] == LogEntry(at - SentTime(sent[0].options, sent[0].time), sent[i].sentence, Some(at))
  {
    TaggedLogReads(r, sent, interval);
    hide ParsedLog, TaggedText, AllSendable, EntriesOf;
    forall i | 0 <= i < |sent| ensures
      EntriesOf(RawOfAll(r, sent), interval)[i]
        == LogEntry(SentTime(sent[i].options, sent[i].time) - SentTime(sent[0].options, sent[0].time), sent[i].sentence,
                    Some(SentTime(sent[i].options, sent[i].time)))
    {
      TaggedEntry(r, sent, interval, i);
    }
    TimelyStamps(r, sent, 0);
    assert RawOfAll(r, sent)[0].recordedAt.Some?;
  }

  lemma TimelyStamps(r: Readers, sent: seq<Sent>, i: nat)
    requires i < |sent| && AllSendable(r, sent) && Timely(sent[i])
    ensures RawOfAll(r, sent)[i].recordedAt == Some(SentTime(sent[i].options, sent[i].time))
  {
    hide Block, BlockTime, SentCount;
    TimeSurvivesIff(sent[i].options, sent[i].time);
  }

  lemma {:induction false} TaggedEntry(r: Readers, sent: seq<Sent>, interval: nat, i: nat)
    requires i < |sent| && AllSendable(r, sent)
    requires (forall i :: 0 <= i < |sent| ==> Timely(sent[i])) && InOrder(sent)
    ensures EntriesOf(RawOfAll(r, sent), interval)[i]
         == LogEntry(SentTime(sent[i].options, sent[i].time) - SentTime(sent[0].options, sent[0].time), sent[i].sentence,
                     Some(SentTime(sent[i].options, sent[i].time)))
  {
    hide SentTime, RawOf, EntriesOf, Timely, Trimmed;
    var raw := RawOfAll(r, sent);
    forall j | 0 <= j < |raw| ensures raw[j].recordedAt == Some(SentTime(sent[j].options, sent[j].time)) {
      TimelyStamps(r, sent, j);
    }
    assert raw[0].recordedAt.Some?;
    assert AnyStamp(raw);
    TimestampOffsets(raw, interval, i);
    EntriesKeepSentences(raw, interval, i);
    assert raw[i].sentence == sent[i].sentence by {
      RawSentence(r, sent[i]);
    }
  }

  lemma RawSentence(r: Readers, s: Sent)
    requires r.parse(s.sentence).Some?
    ensures RawOf(r, s).sentence == s.sentence
  {
  }

  /** What the parser accepts of a trimmed line starts with a delimiter. */
  lemma AcceptedIsSendable(iso: string -> Option<int>, sentence: string)
    requires Trim(sentence) == sentence && '\n' !in sentence && ParseSentence(sentence).Some?
    ensures Sendable(Readers(ParseSentence, iso), sentence)
  {
    hide VerifyChecksum, ParseBody, IndexOf;
    var start := TrimSplits(sentence);
  }
}
