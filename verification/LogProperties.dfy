/** What a parsed log promises: to its reader, and to the replay engine. */
module LogProperties {
  import opened Basics
  import opened Wrappers
  import opened Text
  import opened Sentence
  import opened TimeField
  import opened SentenceClock
  import opened LogFile
  import Replay
  import ReplayRuns

  // The line pass

  function ContentLines(lines: seq<string>): nat
    decreases |lines|
  {
    if lines == [] then 0 else (if IsContent(lines[0]) then 1 else 0) + ContentLines(lines[1..])
  }

  /** The sentence of an entry is trimmed and accepted by the parser, with its time of day. */
  ghost predicate Sound(r: Readers, entry: RawEntry) {
    && Trim(entry.sentence) == entry.sentence
    && r.parse(entry.sentence).Some?
    && entry.sentenceTime == TimeOfSentence(r.parse(entry.sentence).value)
  }

  ghost predicate AllSound(r: Readers, raw: seq<RawEntry>) {
    forall i :: 0 <= i < |raw| ==> Sound(r, raw[i])
  }

  lemma UntaggedIsSound(r: Readers, line: string, tagged: Option<int>)
    ensures var entry := ReadUntagged(r, line, tagged);
      entry.Some? ==> Sound(r, entry.value) && (tagged.Some? ==> entry.value.recordedAt == tagged)
  {
    hide TimeOfSentence, PrefixTime, FirstDelimiter;
    var rest := line[FirstDelimiter(line)..];
    var start := TrimSplits(rest);
    TrimFixes(Trim(rest));
  }

  lemma LineIsSound(r: Readers, line: string)
    requires line != []
    ensures ReadLine(r, line).Some? ==> Sound(r, ReadLine(r, line).value)
  {
    hide ReadUntagged, Sound, IndexOf, Trim;
    UntaggedIsSound(r, line, None);
    if line[0] == '\\' {
      var close := 1 + IndexOf(line[1..], '\\');
      if close < |line| {
        UntaggedIsSound(r, Trim(line[close + 1..]), TagBlock.BlockTime(line[1..close]));
      }
    }
  }

  lemma {:induction false} PassCounts(r: Readers, p: Pass, lines: seq<string>)
    requires AllSound(r, p.raw)
    ensures var q := GatheredAll(r, p, lines);
      && |q.raw| + q.skipped == |p.raw| + p.skipped + ContentLines(lines)
      && AllSound(r, q.raw) && p.raw <= q.raw
    decreases |lines|
  {
    hide ReadLine, Commented, Trim, Sound;
    if lines != [] {
      if IsContent(lines[0]) {
        LineIsSound(r, Trim(lines[0]));
      }
      PassCounts(r, Gathered(r, p, lines[0]), lines[1..]);
    }
  }

  // The offsets

  /** From `low` upwards, never back. */
  predicate Climbs(low: int, entries: seq<LogEntry>)
    decreases |entries|
  {
    entries == [] || (low <= entries[0].offset && Climbs(entries[0].offset, entries[1..]))
  }

  lemma {:induction false} StampedClimbs(origin: Option<int>, offset: int, raw: seq<RawEntry>)
    ensures Climbs(offset, Stamped(origin, offset, raw))
    decreases |raw|
  {
    if raw != [] {
      var stamp := raw[0].recordedAt;
      var start := if origin.Some? then origin else stamp;
      StampedClimbs(start, if stamp.Some? then Later(offset, stamp.value - start.value) else offset, raw[1..]);
    }
  }

  lemma {:induction false} TimedClimbs(reader: Reader, raw: seq<RawEntry>)
    ensures Climbs(reader.offset, Timed(reader, raw))
    decreases |raw|
  {
    if raw != [] {
      TimedClimbs(Read(reader, raw[0].sentenceTime), raw[1..]);
    }
  }

  lemma {:induction false} SpacedClimbs(offset: int, interval: nat, raw: seq<RawEntry>)
    ensures Climbs(offset, Spaced(offset, interval, raw))
    decreases |raw|
  {
    if raw != [] {
      SpacedClimbs(offset + interval, interval, raw[1..]);
      LaterStartClimbs(offset, offset + interval, Spaced(offset + interval, interval, raw[1..]));
    }
  }

  lemma LaterStartClimbs(low: int, high: int, entries: seq<LogEntry>)
    requires low <= high && Climbs(high, entries)
    ensures Climbs(low, entries)
  {
  }

  lemma {:induction false} ClimbsMeans(low: int, entries: seq<LogEntry>, i: nat, j: nat)
    requires Climbs(low, entries) && i <= j < |entries|
    ensures low <= entries[i].offset <= entries[j].offset
    decreases |entries|
  {
    if i > 0 {
      ClimbsMeans(entries[0].offset, entries[1..], i - 1, j - 1);
    } else if j > 0 {
      ClimbsMeans(entries[0].offset, entries[1..], j - 1, j - 1);
    }
  }

  lemma EntriesClimb(raw: seq<RawEntry>, interval: nat)
    ensures Climbs(0, EntriesOf(raw, interval))
    ensures raw != [] ==> EntriesOf(raw, interval)[0].offset == 0
  {
    hide AnyStamp, AnySentenceTime, Climbs;
    StampedClimbs(None, 0, raw);
    TimedClimbs(Reader(None, 0), raw);
    SpacedClimbs(0, interval, raw);
  }

  lemma {:induction false} EntriesKeepSentences(raw: seq<RawEntry>, interval: int, i: nat)
    requires i < |raw|
    ensures EntriesOf(raw, interval)[i].sentence == raw[i].sentence
    ensures EntriesOf(raw, interval)[i].recordedAt == raw[i].recordedAt
  {
    hide AnySentenceTime;
    StampedKeeps(None, 0, raw, i);
    TimedKeeps(Reader(None, 0), raw, i);
    SpacedKeeps(0, interval, raw, i);
  }

  lemma {:induction false} StampedKeeps(origin: Option<int>, offset: int, raw: seq<RawEntry>, i: nat)
    requires i < |raw|
    ensures var entry := Stamped(origin, offset, raw)[i];
      entry.sentence == raw[i].sentence && entry.recordedAt == raw[i].recordedAt
    decreases i
  {
    if i > 0 {
      var stamp := raw[0].recordedAt;
      var start := if origin.Some? then origin else stamp;
      StampedKeeps(start, if stamp.Some? then Later(offset, stamp.value - start.value) else offset, raw[1..], i - 1);
    }
  }

  lemma {:induction false} TimedKeeps(reader: Reader, raw: seq<RawEntry>, i: nat)
    requires i < |raw|
    ensures Timed(reader, raw)[i].sentence == raw[i].sentence && Timed(reader, raw)[i].recordedAt == None
    decreases i
  {
    if i > 0 {
      TimedKeeps(Read(reader, raw[0].sentenceTime), raw[1..], i - 1);
    }
  }

  /** Without times, entry `i` is at `i` intervals. */
  lemma {:induction false} SpacedKeeps(offset: int, interval: int, raw: seq<RawEntry>, i: nat)
    requires i < |raw|
    ensures Spaced(offset, interval, raw)[i] == LogEntry(offset + i * interval, raw[i].sentence, None)
    decreases i
  {
    if i > 0 {
      SpacedKeeps(offset + interval, interval, raw[1..], i - 1);
      assert offset + interval + (i - 1) * interval == offset + i * interval;
    }
  }

  // Timestamps: the running maximum

  /** The largest of `low` and the times up to entry `i`, counted from `origin`. */
  ghost predicate IsRunningMaximum(value: int, low: int, origin: int, raw: seq<RawEntry>, i: nat)
    requires i < |raw|
  {
    && low <= value
    && (forall j :: 0 <= j <= i && raw[j].recordedAt.Some? ==> raw[j].recordedAt.value - origin <= value)
    && (value == low || exists j :: 0 <= j <= i && raw[j].recordedAt.Some? && raw[j].recordedAt.value - origin == value)
  }

  lemma {:induction false} StampedIsMaximum(origin: int, offset: int, raw: seq<RawEntry>, i: nat)
    requires i < |raw|
    ensures IsRunningMaximum(Stamped(Some(origin), offset, raw)[i].offset, offset, origin, raw, i)
    decreases i
  {
    var stamp := raw[0].recordedAt;
    var next := if stamp.Some? then Later(offset, stamp.value - origin) else offset;
    if i > 0 {
      var rest := raw[1..];
      StampedIsMaximum(origin, next, rest, i - 1);
      var value := Stamped(Some(origin), next, rest)[i - 1].offset;
      assert forall j :: 1 <= j <= i ==> raw[j] == rest[j - 1];
      if value != next {
        var j :| 0 <= j <= i - 1 && rest[j].recordedAt.Some? && rest[j].recordedAt.value - origin == value;
        assert raw[j + 1] == rest[j];
      }
    }
  }

  /** The first recorded time of a log. */
  function FirstStamp(raw: seq<RawEntry>): Option<int>
    decreases |raw|
  {
    if raw == [] then None else if raw[0].recordedAt.Some? then raw[0].recordedAt else FirstStamp(raw[1..])
  }

  lemma {:induction false} FirstStampIsOrigin(raw: seq<RawEntry>, i: nat)
    requires i < |raw|
    ensures FirstStamp(raw).Some? ==>
      Stamped(None, 0, raw)[i].offset == Stamped(FirstStamp(raw), 0, raw)[i].offset
    ensures FirstStamp(raw).None? ==> Stamped(None, 0, raw)[i].offset == 0 && raw[i].recordedAt.None?
    decreases |raw|
  {
    if raw[0].recordedAt.None? && i > 0 {
      FirstStampIsOrigin(raw[1..], i - 1);
    }
  }

  /** With timestamps, every offset is the running maximum of zero and the recorded times less the first of them. */
  lemma TimestampOffsets(raw: seq<RawEntry>, interval: int, i: nat)
    requires AnyStamp(raw) && i < |raw|
    ensures FirstStamp(raw).Some?
    ensures IsRunningMaximum(EntriesOf(raw, interval)[i].offset, 0, FirstStamp(raw).value, raw, i)
  {
    hide IsRunningMaximum, Stamped, FirstStamp;
    var k :| 0 <= k < |raw| && raw[k].recordedAt.Some?;
    FirstStampIsOrigin(raw, k);
    FirstStampIsOrigin(raw, i);
    StampedIsMaximum(FirstStamp(raw).value, 0, raw, i);
  }

  /** The first time of day that a sentence of the log carries. */
  function FirstTimeOfDay(raw: seq<RawEntry>): Option<int>
    decreases |raw|
  {
    if raw == [] then None else if raw[0].sentenceTime.Some? then raw[0].sentenceTime else FirstTimeOfDay(raw[1..])
  }

  lemma {:induction false} FirstsAreAny(raw: seq<RawEntry>)
    ensures FirstStamp(raw).Some? <==> exists i :: 0 <= i < |raw| && raw[i].recordedAt.Some?
    ensures FirstTimeOfDay(raw).Some? <==> exists i :: 0 <= i < |raw| && raw[i].sentenceTime.Some?
    decreases |raw|
  {
    if raw != [] {
      FirstsAreAny(raw[1..]);
      assert forall i :: 1 <= i < |raw| ==> raw[i] == raw[1..][i - 1];
      assert forall i :: 0 <= i < |raw| - 1 ==> raw[1..][i] == raw[i + 1];
    }
  }

  /** One absolute time anywhere in the log decides for timestamps, else one time of day anywhere for sentence times. */
  lemma TimingMeans(raw: seq<RawEntry>)
    ensures TimingOf(raw) ==
      if FirstStamp(raw).Some? then Timestamps else if FirstTimeOfDay(raw).Some? then SentenceTimes else FixedInterval
  {
    FirstsAreAny(raw);
  }

  // Sentence times: the true time

  lemma {:induction false} TimedIsOffsets(reader: Reader, raw: seq<RawEntry>)
    ensures forall i :: 0 <= i < |raw| ==>
      Timed(reader, raw)[i].offset == Offsets(reader, SentenceTimesOf(raw))[i]
    decreases |raw|
  {
    if raw != [] {
      var next := Read(reader, raw[0].sentenceTime);
      TimedIsOffsets(next, raw[1..]);
      assert SentenceTimesOf(raw)[1..] == SentenceTimesOf(raw[1..]);
    }
  }

  /** The true elapsed time at entry `i`, when `silent` entries come before the first one with a time. */
  function Elapsed(silent: nat, first: int, times: seq<Option<int>>, i: nat): int
    requires i <= silent + |times|
  {
    if i <= silent then 0 else Since(first, TrueTimes(first, times))[i - silent - 1]
  }

  /** A recording whose sentences show the times of day of ordered true times, after any number of sentences without,
      is replayed in true time exactly when every gap is visible, over any number of midnights. */
  lemma {:induction false} SentenceTimeOffsets(raw: seq<RawEntry>, interval: int, silent: nat, first: int,
                                               times: seq<Option<int>>)
    requires TimingOf(raw) == SentenceTimes
    requires SentenceTimesOf(raw) == Silent(silent) + ([Some(first % DAY)] + TimesOfDay(times)) && Ordered(first, times)
    ensures (forall i :: 0 <= i < |raw| ==> EntriesOf(raw, interval)[i].offset == Elapsed(silent, first, times, i))
       <==> AllVisible(first, times)
  {
    hide Timed, Offsets, AllVisible, Since, TrueTimes, TimesOfDay, Ordered, AnyStamp, AnySentenceTime, Silent;
    RulesAgree(first, times);
    TimedIsOffsets(Reader(None, 0), raw);
    var shown := [Some(first % DAY)] + TimesOfDay(times);
    var (offsets, truth) := (Offsets(Reader(None, 0), shown), [0] + Since(first, TrueTimes(first, times)));
    forall i | 0 <= i < |raw|
      ensures EntriesOf(raw, interval)[i].offset == if i < silent then 0 else offsets[i - silent]
    {
      SilenceIsZero(silent, shown, i);
    }
    forall i | 0 <= i < |raw| ensures Elapsed(silent, first, times, i) == if i < silent then 0 else truth[i - silent] {
    }
    if forall i :: 0 <= i < |raw| ==> EntriesOf(raw, interval)[i].offset == Elapsed(silent, first, times, i) {
      forall k | 0 <= k < |offsets| ensures offsets[k] == truth[k] {
        assert EntriesOf(raw, interval)[silent + k].offset == Elapsed(silent, first, times, silent + k);
      }
      assert offsets == truth;
    }
  }

  // The whole log

  /** Everything that is promised of a parsed log: at least one entry, offsets from zero upwards, every sentence
      accepted again, and every line that is neither blank nor a comment either stored or counted as skipped. */
  lemma ParsedLogPromises(r: Readers, text: string, interval: int)
    requires ParsedLog(r, text, interval).Parsed?
    ensures var log := ParsedLog(r, text, interval).log;
      && log.entries != [] && log.entries[0].offset == 0
      && (forall i, j :: 0 <= i <= j < |log.entries| ==> log.entries[i].offset <= log.entries[j].offset)
      && (forall i :: 0 <= i < |log.entries| ==> r.parse(log.entries[i].sentence).Some?)
      && |log.entries| + log.skippedLines == ContentLines(Split(text, '\n'))
  {
    hide GatheredAll, Split, ContentLines, EntriesOf, Climbs;
    var p := GatheredAll(r, NOTHING, Split(text, '\n'));
    PassCounts(r, NOTHING, Split(text, '\n'));
    EntriesClimb(p.raw, interval);
    var entries := EntriesOf(p.raw, interval);
    forall i, j | 0 <= i <= j < |entries| ensures entries[i].offset <= entries[j].offset {
      ClimbsMeans(0, entries, i, j);
    }
    forall i | 0 <= i < |entries| ensures r.parse(entries[i].sentence).Some? {
      EntriesKeepSentences(p.raw, interval, i);
      assert Sound(r, p.raw[i]);
    }
  }

  /** Which texts are rejected: by the interval first, else exactly when no line holds a valid sentence; the reason
      tells whether any line tried to. */
  lemma RejectedIff(r: Readers, text: string, interval: int)
    ensures var result := ParsedLog(r, text, interval);
      && (result == Rejected(NegativeInterval) <==> interval < 0)
      && (result == Rejected(EmptyLog) <==> interval >= 0 && ContentLines(Split(text, '\n')) == 0)
      && (result.Parsed? <==> interval >= 0 && AnyRead(r, Split(text, '\n')))
  {
    hide GatheredAll, Split, ContentLines, EntriesOf, AnyRead;
    PassCounts(r, NOTHING, Split(text, '\n'));
    PassFinds(r, NOTHING, Split(text, '\n'));
  }

  /** Some line holds a valid sentence. */
  predicate AnyRead(r: Readers, lines: seq<string>)
    decreases |lines|
  {
    lines != [] && ((IsContent(lines[0]) && ReadLine(r, Trim(lines[0])).Some?) || AnyRead(r, lines[1..]))
  }

  lemma {:induction false} PassFinds(r: Readers, p: Pass, lines: seq<string>)
    ensures GatheredAll(r, p, lines).raw != [] <==> p.raw != [] || AnyRead(r, lines)
    decreases |lines|
  {
    hide ReadLine, Commented, Trim;
    if lines != [] {
      PassFinds(r, Gathered(r, p, lines[0]), lines[1..]);
    }
  }

  // Replaying a parsed log

  function ToReplay(entries: seq<LogEntry>): (replayed: seq<Replay.Entry>)
    ensures |replayed| == |entries|
    ensures forall i :: 0 <= i < |entries| ==> replayed[i] == Replay.Entry(entries[i].offset, entries[i].sentence)
  {
    seq(|entries|, i requires 0 <= i < |entries| => Replay.Entry(entries[i].offset, entries[i].sentence))
  }

  /** A parsed log is what the replay engine assumes, and no entry of it goes out unparsed. */
  lemma ParsedLogIsReplayable<S>(r: Readers, text: string, interval: int, seed: S, end: Replay.EndBehaviour,
                                 apply: (ParsedSentence, S) -> S)
    requires ParsedLog(r, text, interval).Parsed?
    ensures var log := ParsedLog(r, text, interval).log;
      var c := Replay.Config(ToReplay(log.entries), seed, end, r.parse, apply);
      && c.WellFormed() && c.entries != []
      && forall i :: 0 <= i < |c.entries| ==>
           r.parse(log.entries[i].sentence).Some?
           && c.Emission(i) == Replay.Emitted(r.parse(log.entries[i].sentence).value.formatter, log.entries[i].sentence)
  {
    hide ParsedLog, Replay.Sorted;
    ParsedLogPromises(r, text, interval);
    var entries := ToReplay(ParsedLog(r, text, interval).log.entries);
    Replay.SortedMeans(entries);
  }

  /** With the real parser every sentence goes out with the name of its formatter. */
  lemma NoUnparsedEmission<S>(iso: string -> Option<int>, text: string, interval: int, seed: S, end: Replay.EndBehaviour,
                              apply: (ParsedSentence, S) -> S, i: nat)
    requires ParsedLog(Readers(ParseSentence, iso), text, interval).Parsed?
    requires i < |ParsedLog(Readers(ParseSentence, iso), text, interval).log.entries|
    ensures var log := ParsedLog(Readers(ParseSentence, iso), text, interval).log;
      Replay.Config(ToReplay(log.entries), seed, end, ParseSentence, apply).Emission(i).id != ""
  {
    hide ParsedLog, ParseSentence;
    var r := Readers(ParseSentence, iso);
    ParsedLogIsReplayable(r, text, interval, seed, end, apply);
    ParsedParts(ParsedLog(r, text, interval).log.entries[i].sentence);
  }

  /** Replaying a parsed log for its whole length, however the time is cut into ticks, sends its sentences once each,
      in file order, and finishes. */
  lemma WholeLogIsReplayed<S>(r: Readers, text: string, interval: int, seed: S, apply: (ParsedSentence, S) -> S,
                              ticks: seq<nat>)
    requires ParsedLog(r, text, interval).Parsed? && ticks != []
    requires var entries := ParsedLog(r, text, interval).log.entries;
      entries != [] ==> entries[|entries| - 1].offset <= ReplayRuns.Sum(ticks)
    ensures var log := ParsedLog(r, text, interval).log;
      var c := Replay.Config(ToReplay(log.entries), seed, Replay.Stop, r.parse, apply);
      && c.WellFormed() && Replay.Inv(c, Replay.Start(c))
      && var p := ReplayRuns.Run(c, Replay.Start(c), ticks);
         && p.finished && |p.pending| == |log.entries|
         && forall i :: 0 <= i < |log.entries| ==> p.pending[i].text == log.entries[i].sentence
  {
    hide ParsedLog, Replay.Inv, ReplayRuns.Run, ReplayRuns.Sum, Replay.Sorted;
    ParsedLogIsReplayable(r, text, interval, seed, Replay.Stop, apply);
    ParsedLogPromises(r, text, interval);
    var c := Replay.Config(ToReplay(ParsedLog(r, text, interval).log.entries), seed, Replay.Stop, r.parse, apply);
    ReplayRuns.StopPlaysPrefix(c, ticks);
  }
}
