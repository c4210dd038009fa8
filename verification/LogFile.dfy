/** Reading sentence logs: the line pass and the three timing rules. */
module LogFile {
  import opened Basics
  import opened Wrappers
  import opened Text
  import opened Checksum
  import opened Sentence
  import opened TagBlock
  import opened TimeField
  import opened SentenceClock

  /** The sentence parser, and the ISO 8601 parser, which is not part of this model. */
  datatype Readers = Readers(parse: string -> Option<ParsedSentence>, iso: string -> Option<int>)

  /** A valid sentence line before offsets are assigned; times in milliseconds. */
  datatype RawEntry = RawEntry(sentence: string, recordedAt: Option<int>, sentenceTime: Option<int>)

  datatype LogEntry = LogEntry(offset: int, sentence: string, recordedAt: Option<int>)
  datatype TimingSource = Timestamps | SentenceTimes | FixedInterval
  datatype Log = Log(entries: seq<LogEntry>, header: map<string, string>, timing: TimingSource, skippedLines: nat)
  datatype LogError = NegativeInterval | NothingValid | EmptyLog
  datatype LogResult = Parsed(log: Log) | Rejected(error: LogError)

  // One line

  predicate IsPrefixSeparator(c: char) {
    c == ',' || c == ';' || c == ':' || c == '\t' || c == ' '
  }

  function StripSeparators(prefix: string): string {
    if prefix != [] && IsPrefixSeparator(prefix[|prefix| - 1]) then StripSeparators(prefix[..|prefix| - 1]) else prefix
  }

  /** The text after the last blank or tab, if there is one. */
  function LastWord(text: string): Option<string> {
    if text == [] then None
    else if text[|text| - 1] == ' ' || text[|text| - 1] == '\t' then Some("")
    else match LastWord(text[..|text| - 1])
         case None => None
         case Some(word) => Some(word + [text[|text| - 1]])
  }

  function AbsoluteTime(r: Readers, text: string): Option<int> {
    if r.iso(text).Some? then r.iso(text) else ParseUnixTime(text)
  }

  /** The time before a sentence: the whole prefix, or its last word. */
  function PrefixTime(r: Readers, prefix: string): Option<int> {
    var text := StripSeparators(Trim(prefix));
    if text == [] then None
    else if AbsoluteTime(r, text).Some? then AbsoluteTime(r, text)
    else match LastWord(text)
         case None => None
         case Some(word) => AbsoluteTime(r, word)
  }

  method ParsePrefixTime(r: Readers, prefix: string) returns (time: Option<int>)
    ensures time == PrefixTime(r, prefix)
  {
    hide Trim, ParseUnixTime;
    var view := TrimView(prefix);
    while view != [] && IsPrefixSeparator(view[|view| - 1])
      invariant StripSeparators(view) == StripSeparators(Trim(prefix))
    {
      view := view[..|view| - 1];
    }
    if view == [] {
      return None;
    }
    if r.iso(view).Some? {
      return r.iso(view);
    }
    var unix := ParseUnixTime(view);
    if unix.Some? {
      return unix;
    }
    var word := LastWord(view);
    if word.Some? {
      if r.iso(word.value).Some? {
        return r.iso(word.value);
      }
      return ParseUnixTime(word.value);
    }
    time := None;
  }

  /** The formatters that carry a time of day, and in which field. */
  function TimeFieldOf(formatter: string): Option<nat> {
    if formatter == "GLL" then Some(4)
    else if formatter in {"RMC", "GGA", "ZDA", "GNS", "GST", "GBS", "GRS"} then Some(0)
    else None
  }

  function TimeOfSentence(s: ParsedSentence): Option<int> {
    match TimeFieldOf(s.formatter)
    case None => None
    case Some(field) => ParseTimeOfDay(s.Field(field))
  }

  /** The position of the first start delimiter, or the length. */
  function FirstDelimiter(line: string): (k: nat)
    ensures k <= |line|
  {
    if line == [] || IsDelimiter(line[0]) then 0 else 1 + FirstDelimiter(line[1..])
  }

  /** A line without TAG block; `tagged` is the time the block gave. */
  function ReadUntagged(r: Readers, line: string, tagged: Option<int>): Option<RawEntry> {
    var k := FirstDelimiter(line);
    if k == |line| then None else
    var sentence := Trim(line[k..]);
    match r.parse(sentence)
    case None => None
    case Some(parsed) =>
      Some(RawEntry(sentence, if tagged.Some? then tagged else PrefixTime(r, line[..k]), TimeOfSentence(parsed)))
  }

  /** A trimmed line that is neither blank nor a comment; nothing when the line is skipped. */
  function ReadLine(r: Readers, line: string): Option<RawEntry>
    requires line != []
  {
    if line[0] != '\\' then ReadUntagged(r, line, None) else
    var close := 1 + IndexOf(line[1..], '\\');
    if close == |line| || !ChecksumValid(line[1..close]) then None
    else ReadUntagged(r, Trim(line[close + 1..]), BlockTime(line[1..close]))
  }

  const BANNER := "NMEA Simulator X log"

  /** What a comment line adds to the header. */
  function Commented(header: map<string, string>, line: string): map<string, string>
    requires line != []
  {
    var body := Trim(line[1..]);
    var colon := IndexOf(body, ':');
    var key := Trim(body[..colon]);
    if 0 < colon < |body| && key != [] && ' ' !in key then header[key := Trim(body[colon + 1..])]
    else if BANNER <= body then header["format" := Trim(body[|BANNER|..])]
    else header
  }

  /** What the line pass has gathered. */
  datatype Pass = Pass(raw: seq<RawEntry>, skipped: nat, header: map<string, string>)

  predicate IsContent(line: string) {
    Trim(line) != [] && Trim(line)[0] != '#'
  }

  function Gathered(r: Readers, p: Pass, line: string): Pass {
    var trimmed := Trim(line);
    if trimmed == [] then p
    else if trimmed[0] == '#' then p.(header := Commented(p.header, trimmed))
    else match ReadLine(r, trimmed)
         case None => p.(skipped := p.skipped + 1)
         case Some(entry) => p.(raw := p.raw + [entry])
  }

  function GatheredAll(r: Readers, p: Pass, lines: seq<string>): Pass
    decreases |lines|
  {
    if lines == [] then p else GatheredAll(r, Gathered(r, p, lines[0]), lines[1..])
  }

  const NOTHING := Pass([], 0, map[])

  // The timing rules

  /** Offsets from absolute times, held when a time steps back. */
  function Stamped(origin: Option<int>, offset: int, raw: seq<RawEntry>): (entries: seq<LogEntry>)
    ensures |entries| == |raw|
    decreases |raw|
  {
    if raw == [] then [] else
    var stamp := raw[0].recordedAt;
    var start := if origin.Some? then origin else stamp;
    var next := if stamp.Some? then Later(offset, stamp.value - start.value) else offset;
    [LogEntry(next, raw[0].sentence, stamp)] + Stamped(start, next, raw[1..])
  }

  function Later(a: int, b: int): int {
    if a < b then b else a
  }

  function SentenceTimesOf(raw: seq<RawEntry>): (seen: seq<Option<int>>)
    ensures |seen| == |raw|
    decreases |raw|
  {
    if raw == [] then [] else [raw[0].sentenceTime] + SentenceTimesOf(raw[1..])
  }

  function Timed(reader: Reader, raw: seq<RawEntry>): (entries: seq<LogEntry>)
    ensures |entries| == |raw|
    decreases |raw|
  {
    if raw == [] then [] else
    var next := Read(reader, raw[0].sentenceTime);
    [LogEntry(next.offset, raw[0].sentence, None)] + Timed(next, raw[1..])
  }

  function Spaced(offset: int, interval: int, raw: seq<RawEntry>): (entries: seq<LogEntry>)
    ensures |entries| == |raw|
    decreases |raw|
  {
    if raw == [] then [] else [LogEntry(offset, raw[0].sentence, None)] + Spaced(offset + interval, interval, raw[1..])
  }

  predicate AnyStamp(raw: seq<RawEntry>) {
    exists i :: 0 <= i < |raw| && raw[i].recordedAt.Some?
  }

  predicate AnySentenceTime(raw: seq<RawEntry>) {
    exists i :: 0 <= i < |raw| && raw[i].sentenceTime.Some?
  }

  function TimingOf(raw: seq<RawEntry>): TimingSource {
    if AnyStamp(raw) then Timestamps else if AnySentenceTime(raw) then SentenceTimes else FixedInterval
  }

  function EntriesOf(raw: seq<RawEntry>, interval: int): (entries: seq<LogEntry>)
    ensures |entries| == |raw|
  {
    match TimingOf(raw)
    case Timestamps => Stamped(None, 0, raw)
    case SentenceTimes => Timed(Reader(None, 0), raw)
    case FixedInterval => Spaced(0, interval, raw)
  }

  function ParsedLog(r: Readers, text: string, interval: int): LogResult {
    if interval < 0 then Rejected(NegativeInterval) else
    var p := GatheredAll(r, NOTHING, Split(text, '\n'));
    if p.raw == [] then Rejected(if p.skipped > 0 then NothingValid else EmptyLog)
    else Parsed(Log(EntriesOf(p.raw, interval), p.header, TimingOf(p.raw), p.skipped))
  }

  // The reader as it runs

  method ReadUntaggedLine(r: Readers, line: string, tagged: Option<int>) returns (entry: Option<RawEntry>)
    ensures entry == ReadUntagged(r, line, tagged)
  {
    hide Trim, PrefixTime, TimeOfSentence, FirstDelimiter;
    var k := FirstDelimiter(line);
    if k == |line| {
      return None;
    }
    var sentence := TrimView(line[k..]);
    var parsed := r.parse(sentence);
    if parsed.None? {
      return None;
    }
    var recordedAt := tagged;
    if recordedAt.None? {
      recordedAt := ParsePrefixTime(r, line[..k]);
    }
    entry := Some(RawEntry(sentence, recordedAt, TimeOfSentence(parsed.value)));
  }

  method ReadSentenceLine(r: Readers, line: string) returns (entry: Option<RawEntry>)
    requires line != []
    ensures entry == ReadLine(r, line)
  {
    hide Trim, ReadUntagged, IndexOf, ChecksumValid, BlockTime;
    if line[0] != '\\' {
      entry := ReadUntaggedLine(r, line, None);
      return;
    }
    var close := 1 + IndexOf(line[1..], '\\');
    if close == |line| || !ChecksumValid(line[1..close]) {
      return None;
    }
    var tagged := ScanBlockTime(line[1..close]);
    var rest := TrimView(line[close + 1..]);
    entry := ReadUntaggedLine(r, rest, tagged);
  }

  method ReadLines(r: Readers, text: string) returns (raw: seq<RawEntry>, skipped: nat, header: map<string, string>)
    ensures Pass(raw, skipped, header) == GatheredAll(r, NOTHING, Split(text, '\n'))
  {
    hide Trim, ReadLine, Commented, Pending;
    raw, skipped, header := [], 0, map[];
    var start := 0;
    PendingAtStart(r, text);
    while start < |text|
      invariant Pending(r, Pass(raw, skipped, header), text, start) == GatheredAll(r, NOTHING, Split(text, '\n'))
    {
      PendingSteps(r, Pass(raw, skipped, header), text, start);
      var end := start + IndexOf(text[start..], '\n');
      var line := TrimView(text[start..end]);
      start := end + 1;
      if line == [] {
        continue;
      }
      if line[0] == '#' {
        header := Commented(header, line);
        continue;
      }
      var entry := ReadSentenceLine(r, line);
      if entry.None? {
        skipped := skipped + 1;
        continue;
      }
      raw := raw + [entry.value];
    }
    PendingAtEnd(r, Pass(raw, skipped, header), text, start);
  }

  /** What the rest of the text will have gathered. */
  function Pending(r: Readers, p: Pass, text: string, start: nat): Pass {
    if start < |text| then GatheredAll(r, p, Split(text[start..], '\n')) else p
  }

  lemma PendingAtEnd(r: Readers, p: Pass, text: string, start: nat)
    requires start >= |text|
    ensures Pending(r, p, text, start) == p
  {
  }

  lemma PendingAtStart(r: Readers, text: string)
    ensures Pending(r, NOTHING, text, 0) == GatheredAll(r, NOTHING, Split(text, '\n'))
  {
    hide Split, GatheredAll, Gathered;
    if text == [] {
      NoLines(r, NOTHING);
    } else {
      assert text[0..] == text;
    }
  }

  lemma NoLines(r: Readers, p: Pass)
    ensures GatheredAll(r, p, Split("", '\n')) == p
  {
    assert Split("", '\n') == [""];
    GatheredCons(r, p, "", []);
    assert [""] + [] == [""];
  }

  lemma GatheredCons(r: Readers, p: Pass, line: string, lines: seq<string>)
    ensures GatheredAll(r, p, [line] + lines) == GatheredAll(r, Gathered(r, p, line), lines)
  {
    hide Gathered;
    assert ([line] + lines)[1..] == lines;
  }

  lemma PendingSteps(r: Readers, p: Pass, text: string, start: nat)
    requires start < |text|
    ensures var end := start + IndexOf(text[start..], '\n');
      Pending(r, p, text, start) == Pending(r, Gathered(r, p, text[start..end]), text, end + 1)
  {
    hide Split, GatheredAll, Gathered, IndexOf;
    var rest := text[start..];
    var k := IndexOf(rest, '\n');
    SplitHead(rest, '\n');
    assert text[start..start + k] == rest[..k];
    var next := Gathered(r, p, rest[..k]);
    GatheredCons(r, p, rest[..k], if k == |rest| then [] else Split(rest[k + 1..], '\n'));
    NothingGathered(r, next);
    if k < |rest| {
      assert text[start + k + 1..] == rest[k + 1..];
      if start + k + 1 == |text| {
        assert rest[k + 1..] == "";
        NoLines(r, next);
      }
    }
  }

  lemma NothingGathered(r: Readers, p: Pass)
    ensures GatheredAll(r, p, []) == p
  {
  }

  lemma StampedSteps(origin: Option<int>, offset: int, raw: seq<RawEntry>, i: nat)
    requires i < |raw|
    ensures var stamp := raw[i].recordedAt;
      var start := if origin.Some? then origin else stamp;
      var next := if stamp.Some? then Later(offset, stamp.value - start.value) else offset;
      Stamped(origin, offset, raw[i..]) == [LogEntry(next, raw[i].sentence, stamp)] + Stamped(start, next, raw[i + 1..])
  {
    assert raw[i..][1..] == raw[i + 1..];
  }

  method StampEntries(raw: seq<RawEntry>) returns (entries: seq<LogEntry>)
    ensures entries == Stamped(None, 0, raw)
  {
    assert raw[0..] == raw;
    hide Stamped;
    entries := [];
    var origin, offset := None, 0;
    for i := 0 to |raw|
      invariant entries + Stamped(origin, offset, raw[i..]) == Stamped(None, 0, raw)
    {
      StampedSteps(origin, offset, raw, i);
      var stamp := raw[i].recordedAt;
      if stamp.Some? {
        if origin.None? {
          origin := stamp;
        }
        offset := Later(offset, stamp.value - origin.value);
      }
      var entry := LogEntry(offset, raw[i].sentence, stamp);
      Associates(entries, [entry], Stamped(origin, offset, raw[i + 1..]));
      entries := entries + [entry];
    }
  }

  method TimeEntries(raw: seq<RawEntry>) returns (entries: seq<LogEntry>)
    ensures entries == Timed(Reader(None, 0), raw)
  {
    entries := [];
    var latest: Option<int>, offset := None, 0;
    for i := 0 to |raw|
      invariant entries + Timed(Reader(latest, offset), raw[i..]) == Timed(Reader(None, 0), raw)
    {
      ghost var (before, rest) := (entries, raw[i..]);
      assert rest[1..] == raw[i + 1..];
      if raw[i].sentenceTime.Some? {
        var now := raw[i].sentenceTime.value;
        if latest.None? {
          latest := Some(now);
        } else {
          var delta := now - latest.value;
          if delta < -HALF_DAY {
            delta := delta + DAY;
          }
          if delta > 0 {
            offset := offset + delta;
            latest := Some(now);
          }
        }
      }
      entries := entries + [LogEntry(offset, raw[i].sentence, None)];
      Associates(before, [LogEntry(offset, raw[i].sentence, None)], Timed(Reader(latest, offset), raw[i + 1..]));
    }
  }

  method SpaceEntries(raw: seq<RawEntry>, interval: int) returns (entries: seq<LogEntry>)
    ensures entries == Spaced(0, interval, raw)
  {
    entries := [];
    var offset := 0;
    for i := 0 to |raw|
      invariant entries + Spaced(offset, interval, raw[i..]) == Spaced(0, interval, raw)
    {
      ghost var (before, rest) := (entries, raw[i..]);
      assert rest[1..] == raw[i + 1..];
      entries := entries + [LogEntry(offset, raw[i].sentence, None)];
      Associates(before, [LogEntry(offset, raw[i].sentence, None)], Spaced(offset + interval, interval, raw[i + 1..]));
      offset := offset + interval;
    }
  }

  method ParseLog(r: Readers, text: string, interval: int) returns (result: LogResult)
    ensures result == ParsedLog(r, text, interval)
  {
    hide GatheredAll, Split, AnyStamp, AnySentenceTime, Stamped, Timed, Spaced;
    if interval < 0 {
      return Rejected(NegativeInterval);
    }
    var raw, skipped, header := ReadLines(r, text);
    if raw == [] {
      return Rejected(if skipped > 0 then NothingValid else EmptyLog);
    }
    var entries;
    if AnyStamp(raw) {
      entries := StampEntries(raw);
    } else if AnySentenceTime(raw) {
      entries := TimeEntries(raw);
    } else {
      entries := SpaceEntries(raw, interval);
    }
    result := Parsed(Log(entries, header, TimingOf(raw), skipped));
  }
}
