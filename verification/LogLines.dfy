/** What single lines of a log mean: prefixes with a time, TAG blocks, header comments. */
module LogLines {
  import opened Basics
  import opened Wrappers
  import opened Text
  import opened Numbers
  import opened Checksum
  import opened Sentence
  import opened TagBlock
  import opened TimeField
  import opened LogFile

  ghost predicate AllSpaces(s: string) {
    forall i :: 0 <= i < |s| ==> IsSpace(s[i])
  }

  /** A text is its trimmed text with white space around it. */
  lemma TrimParts(s: string) returns (left: string, right: string)
    ensures s == left + Trim(s) + right && AllSpaces(left) && AllSpaces(right) && Trimmed(Trim(s))
  {
    hide Trim;
    var start := TrimSplits(s);
    left, right := s[..start], s[start + |Trim(s)|..];
  }

  // The first delimiter

  /** The position of the first `$` or `!`, or the length when there is none. */
  lemma {:induction false} FirstDelimiterMeans(line: string)
    ensures forall i :: 0 <= i < FirstDelimiter(line) ==> line[i] != '$' && line[i] != '!'
    ensures FirstDelimiter(line) < |line| ==> line[FirstDelimiter(line)] == '$' || line[FirstDelimiter(line)] == '!'
  {
    if line != [] && !IsDelimiter(line[0]) {
      FirstDelimiterMeans(line[1..]);
    }
  }

  ghost predicate DelimiterFree(s: string) {
    '$' !in s && '!' !in s
  }

  lemma {:induction false} FirstDelimiterIs(prefix: string, rest: string)
    requires DelimiterFree(prefix) && (rest != "" ==> rest[0] == '$' || rest[0] == '!')
    ensures FirstDelimiter(prefix + rest) == |prefix|
    decreases |prefix|
  {
    if prefix == "" {
      assert prefix + rest == rest;
    } else {
      assert (prefix + rest)[0] == prefix[0] && (prefix + rest)[1..] == prefix[1..] + rest;
      FirstDelimiterIs(prefix[1..], rest);
    }
  }

  /** A line is skipped exactly when it has no delimiter or the parser refuses what follows the first one; otherwise that
      is the sentence, and the block's time, if any, goes before the prefix's. */
  lemma UntaggedMeans(r: Readers, prefix: string, rest: string, tagged: Option<int>)
    requires DelimiterFree(prefix) && (rest != "" ==> rest[0] == '$' || rest[0] == '!')
    ensures ReadUntagged(r, prefix + rest, tagged).None? <==> rest == "" || r.parse(Trim(rest)).None?
    ensures ReadUntagged(r, prefix + rest, tagged).Some? ==>
      var entry := ReadUntagged(r, prefix + rest, tagged).value;
      && entry.sentence == Trim(rest) && entry.sentenceTime == TimeOfSentence(r.parse(Trim(rest)).value)
      && entry.recordedAt == if tagged.Some? then tagged else PrefixTime(r, prefix)
  {
    hide FirstDelimiter, Trim, PrefixTime, TimeOfSentence;
    FirstDelimiterIs(prefix, rest);
    assert (prefix + rest)[|prefix|..] == rest && (prefix + rest)[..|prefix|] == prefix;
  }

  // The time of a prefix

  lemma {:induction false} StripSeparatorsIs(core: string, separators: string)
    requires core != "" && core[|core| - 1] !in {',', ';', ':', '\t', ' '}
    requires forall i :: 0 <= i < |separators| ==> separators[i] in {',', ';', ':', '\t', ' '}
    ensures StripSeparators(core + separators) == core
    decreases |separators|
  {
    var text := core + separators;
    if separators == "" {
      assert text == core;
    } else {
      assert text[|text| - 1] == separators[|separators| - 1];
      assert text[..|text| - 1] == core + separators[..|separators| - 1];
      StripSeparatorsIs(core, separators[..|separators| - 1]);
    }
  }

  lemma {:induction false} LastWordIs(words: string, blank: char, stamp: string)
    requires (blank == ' ' || blank == '\t') && ' ' !in stamp && '\t' !in stamp
    ensures LastWord(words + [blank] + stamp) == Some(stamp)
    decreases |stamp|
  {
    var text := words + [blank] + stamp;
    if stamp == "" {
      assert text[|text| - 1] == blank;
    } else {
      var n := |stamp| - 1;
      assert text[|text| - 1] == stamp[n] && text[..|text| - 1] == words + [blank] + stamp[..n];
      assert stamp[n] in stamp && stamp[..n] + [stamp[n]] == stamp;
      LastWordIs(words, blank, stamp[..n]);
    }
  }

  lemma {:induction false} NoLastWord(text: string)
    requires ' ' !in text && '\t' !in text
    ensures LastWord(text) == None
  {
    if text != "" {
      assert text[|text| - 1] in text;
      NoLastWord(text[..|text| - 1]);
    }
  }

  lemma {:induction false} LastWordExists(text: string) returns (words: string, blank: char, stamp: string)
    requires ' ' in text || '\t' in text
    ensures text == words + [blank] + stamp && (blank == ' ' || blank == '\t') && ' ' !in stamp && '\t' !in stamp
    decreases |text|
  {
    var n := |text| - 1;
    if text[n] == ' ' || text[n] == '\t' {
      words, blank, stamp := text[..n], text[n], "";
    } else {
      assert ' ' in text[..n] || '\t' in text[..n];
      words, blank, stamp := LastWordExists(text[..n]);
      stamp := stamp + [text[n]];
      assert text == text[..n] + [text[n]];
    }
  }

  /** The time a text tells: as ISO 8601, as Unix time, or by its last word in the same order. */
  ghost predicate Tells(r: Readers, text: string, time: Option<int>) {
    if r.iso(text).Some? then time == r.iso(text)
    else if ParseUnixTime(text).Some? then time == ParseUnixTime(text)
    else if ' ' !in text && '\t' !in text then time == None
    else exists words: string, blank: char, stamp: string ::
           && text == words + [blank] + stamp && (blank == ' ' || blank == '\t') && ' ' !in stamp && '\t' !in stamp
           && time == if r.iso(stamp).Some? then r.iso(stamp) else ParseUnixTime(stamp)
  }

  /** The core of a prefix: what is left without white space before and separators behind it. */
  ghost predicate IsCore(prefix: string, left: string, core: string, separators: string) {
    && prefix == left + core + separators && AllSpaces(left)
    && core != "" && !IsSpace(core[0]) && !IsSpace(core[|core| - 1])
    && core[|core| - 1] !in {',', ';', ':', '\t', ' '}
    && forall i :: 0 <= i < |separators| ==> separators[i] in {',', ';', ':', '\t', ' '}
  }

  lemma CoreIsStripped(prefix: string, left: string, core: string, separators: string)
    requires IsCore(prefix, left, core, separators)
    ensures StripSeparators(Trim(prefix)) == core
  {
    hide StripSeparators, Trim;
    var n := |core|;
    var start := TrimSplits(prefix);
    var trimmed := Trim(prefix);
    assert prefix[|left|] == core[0] && prefix[|left| + n - 1] == core[n - 1];
    assert start <= |left| < start + |trimmed| && start <= |left| + n - 1 < start + |trimmed|;
    assert start == |left| by {
      assert trimmed[0] == prefix[start];
    }
    var kept := separators[..|trimmed| - n];
    assert trimmed == core + kept;
    StripSeparatorsIs(core, kept);
  }

  /** The recorded time of a prefix is what its core tells. */
  lemma PrefixTimeMeans(r: Readers, prefix: string, left: string, core: string, separators: string)
    requires IsCore(prefix, left, core, separators)
    ensures Tells(r, core, PrefixTime(r, prefix))
  {
    hide StripSeparators, Trim, ParseUnixTime, LastWord;
    CoreIsStripped(prefix, left, core, separators);
    if ' ' !in core && '\t' !in core {
      NoLastWord(core);
    } else {
      var words, blank, stamp := LastWordExists(core);
      LastWordIs(words, blank, stamp);
    }
  }

  /** A prefix in front of an accepted sentence, whatever the prefix holds but a delimiter: the sentence is stored, with
      the time the core of the prefix tells. */
  lemma PrefixedLineReads(r: Readers, p: Pass, left: string, core: string, separators: string, sentence: string,
                          right: string) returns (time: Option<int>)
    requires IsCore(left + core + separators, left, core, separators) && DelimiterFree(left + core + separators)
    requires core[0] != '\\' && core[0] != '#'
    requires sentence != "" && (sentence[0] == '$' || sentence[0] == '!') && Trimmed(sentence) && AllSpaces(right)
    requires r.parse(sentence).Some?
    ensures Tells(r, core, time)
    ensures Gathered(r, p, left + core + separators + sentence + right)
         == p.(raw := p.raw + [RawEntry(sentence, time, TimeOfSentence(r.parse(sentence).value))])
  {
    hide Trim, PrefixTime, TimeOfSentence, ReadUntagged, Tells;
    var line := core + separators + sentence;
    assert Trim(left + core + separators + sentence + right) == line by {
      assert line[|line| - 1] == sentence[|sentence| - 1];
      TrimPadded(left, line, right);
      assert left + line + right == left + core + separators + sentence + right;
    }
    assert DelimiterFree(core + separators) && IsCore(core + separators, "", core, separators) by {
      assert "" + core + separators == core + separators;
    }
    time := PrefixTime(r, core + separators);
    PrefixTimeMeans(r, core + separators, "", core, separators);
    UntaggedMeans(r, core + separators, sentence, None);
    TrimFixes(sentence);
    assert line[0] == core[0];
  }

  /** A Unix time, a blank and a sentence: a log of one entry, at that time; seconds up to 10^11, else milliseconds. */
  lemma UnixLineReads(r: Readers, count: nat, sentence: string, interval: nat)
    requires count > 0 && r.iso(Decimal(count)).None?
    requires sentence != "" && (sentence[0] == '$' || sentence[0] == '!') && Trimmed(sentence) && '\n' !in sentence
    requires r.parse(sentence).Some?
    ensures ParsedLog(r, Decimal(count) + " " + sentence, interval)
         == Parsed(Log([LogEntry(0, sentence, Some(if count > 100_000_000_000 then count else count * 1000))],
                       map[], Timestamps, 0))
  {
    hide Gathered, GatheredAll, ParseUnixTime, Tells, Decimal, Trimmed, TimeOfSentence, IsCore;
    var stamp := Decimal(count);
    var text := stamp + " " + sentence;
    DecimalIsDigits(count);
    DigitsAreCore(stamp);
    assert "" + stamp + " " + sentence + "" == text;
    var time := PrefixedLineReads(r, NOTHING, "", stamp, " ", sentence, "");
    CountReadsBack(count);
    DecimalTells(r, count, time);
    SplitAt(text, "", '\n');
    assert text + "" == text;
    GatheredCons(r, NOTHING, text, []);
    assert [text] + [] == [text];
    NothingGathered(r, Gathered(r, NOTHING, text));
    OneStamped(RawEntry(sentence, time, TimeOfSentence(r.parse(sentence).value)), interval);
  }

  lemma DigitsAreCore(stamp: string)
    requires AllDigits(stamp) && stamp != ""
    ensures IsCore("" + stamp + " ", "", stamp, " ") && DelimiterFree("" + stamp + " ")
    ensures stamp[0] != '\\' && stamp[0] != '#'
    ensures forall i :: 0 <= i < |stamp + " "| ==> (stamp + " ")[i] != '\n'
  {
    assert IsDigit(stamp[0]) && IsDigit(stamp[|stamp| - 1]);
  }

  lemma DecimalTells(r: Readers, count: nat, time: Option<int>)
    requires count > 0 && r.iso(Decimal(count)).None? && Tells(r, Decimal(count), time)
    ensures time == Some(if count > 100_000_000_000 then count else count * 1000)
  {
    hide ParseUnixTime, Decimal;
    CountReadsBack(count);
  }

  lemma OneStamped(entry: RawEntry, interval: int)
    requires entry.recordedAt.Some?
    ensures TimingOf([entry]) == Timestamps
    ensures EntriesOf([entry], interval) == [LogEntry(0, entry.sentence, entry.recordedAt)]
  {
    assert [entry][0].recordedAt.Some?;
    assert [entry][1..] == [];
    assert [LogEntry(0, entry.sentence, entry.recordedAt)] + [] == [LogEntry(0, entry.sentence, entry.recordedAt)];
  }

  // TAG blocks

  /** A closed block is checked and gives the time; the rest of the line is read without it. */
  lemma BlockedLineReads(r: Readers, block: string, rest: string)
    requires '\\' !in block
    ensures ReadLine(r, "\\" + block + "\\" + rest)
         == if ChecksumValid(block) then ReadUntagged(r, Trim(rest), BlockTime(block)) else None
  {
    hide ReadUntagged, ChecksumValid, BlockTime, Trim, IndexOf;
    var line := "\\" + block + "\\" + rest;
    assert line[1..] == block + ("\\" + rest);
    IndexOfIs(line[1..], '\\', |block|);
    assert line[1..1 + |block|] == block && line[1 + |block| + 1..] == rest;
  }

  /** A line whose block is not closed is skipped. */
  lemma UnclosedBlockIsSkipped(r: Readers, block: string)
    requires '\\' !in block
    ensures ReadLine(r, "\\" + block) == None
  {
    hide ReadUntagged, ChecksumValid, BlockTime, Trim, IndexOf;
    assert ("\\" + block)[1..] == block;
    IndexOfIs(block, '\\', |block|);
  }

  /** The time of a block, from its parameters: the first one that starts with `c:` and goes on. */
  lemma {:induction false} BlockTimeMeans(parameters: seq<string>, i: nat)
    requires i <= |parameters|
    requires forall j :: 0 <= j < i ==> !("c:" < parameters[j])
    ensures i == |parameters| ==> FirstTime(parameters) == None
    ensures i < |parameters| && "c:" < parameters[i] ==> FirstTime(parameters) == ParseUnixTime(parameters[i][2..])
    decreases |parameters|
  {
    hide ParseUnixTime;
    if parameters != [] {
      assert IsTimeParameter(parameters[0]) <==> "c:" < parameters[0];
      if i > 0 {
        BlockTimeMeans(parameters[1..], i - 1);
      }
    }
  }

  // Comments and the header

  /** A header line as the recorder writes it. */
  function FormatHeaderLine(key: string, value: string): string {
    "# " + key + ": " + value
  }

  lemma {:induction false} TrimOfSpaces(s: string)
    requires AllSpaces(s)
    ensures TrimLeft(s) == "" && Trim(s) == ""
  {
    if s != "" {
      TrimOfSpaces(s[1..]);
    }
  }

  lemma TrimWithin(left: string, core: string, right: string)
    requires AllSpaces(left) && AllSpaces(right) && Trimmed(core)
    ensures Trim(left + core + right) == core
  {
    hide Trim;
    if core != "" {
      TrimPadded(left, core, right);
    } else {
      TrimOfSpaces(left + core + right);
    }
  }

  /** The trimmed line of a header. */
  lemma HeaderTrims(key: string, value: string, keyLeft: string, k: string, keyRight: string, left: string, v: string,
                    right: string)
    requires key == keyLeft + k + keyRight && value == left + v + right
    requires AllSpaces(keyLeft) && AllSpaces(keyRight) && AllSpaces(left) && AllSpaces(right) && Trimmed(v)
    ensures var tail := if v == "" then "" else " " + left + v;
      Trim(FormatHeaderLine(key, value)) == "#" + " " + keyLeft + (k + keyRight + ":" + tail)
  {
    hide Trim;
    var tail := if v == "" then "" else " " + left + v;
    var line := "#" + " " + keyLeft + (k + keyRight + ":" + tail);
    var spaces := if v == "" then " " + left + right else right;
    assert FormatHeaderLine(key, value) == "" + line + spaces;
    assert line[|line| - 1] == if v == "" then ':' else v[|v| - 1];
    TrimPadded("", line, spaces);
  }

  lemma HeaderBody(keyLeft: string, k: string, keyRight: string, tail: string)
    requires AllSpaces(keyLeft) && AllSpaces(keyRight) && Trimmed(k) && (tail != "" ==> !IsSpace(tail[|tail| - 1]))
    ensures var line := "#" + " " + keyLeft + (k + keyRight + ":" + tail);
      Trim(line[1..]) == if k == "" then ":" + tail else k + keyRight + ":" + tail
  {
    hide Trim;
    var line := "#" + " " + keyLeft + (k + keyRight + ":" + tail);
    if k == "" {
      assert line[1..] == (" " + keyLeft + keyRight) + (":" + tail) + "";
      TrimWithin(" " + keyLeft + keyRight, ":" + tail, "");
    } else {
      assert line[1..] == (" " + keyLeft) + (k + keyRight + ":" + tail) + "";
      TrimWithin(" " + keyLeft, k + keyRight + ":" + tail, "");
    }
  }

  /** What a comment adds, from the parts around its first colon. */
  lemma CommentedSplits(header: map<string, string>, line: string, before: string, after: string)
    requires line != "" && Trim(line[1..]) == before + ":" + after && ':' !in before
    ensures Trim(before) != "" && ' ' !in Trim(before) ==> Commented(header, line) == header[Trim(before) := Trim(after)]
    ensures before == "" ==> Commented(header, line) == header
  {
    hide IndexOf;
    var body := Trim(line[1..]);
    assert forall i :: 0 <= i < |before| ==> body[i] == before[i];
    IndexOfIs(body, ':', |before|);
    assert body[..|before|] == before && body[|before| + 1..] == after;
    if before == "" {
      assert body[0] == ':';
      assert BANNER[0] == 'N';
    } else {
      hide Trim;
      TrimOfSpaces("");
    }
  }

  lemma CommentGathers(r: Readers, p: Pass, text: string, line: string)
    requires Trim(text) == line && line != "" && line[0] == '#'
    ensures Gathered(r, p, text) == p.(header := Commented(p.header, line))
  {
    hide Trim, Commented;
  }

  /** A header line comes back under its key, trimmed, with its value, trimmed: for every key without blank or colon
      that is not blank, and every value. */
  lemma HeaderLineReads(r: Readers, p: Pass, key: string, value: string)
    requires ' ' !in key && ':' !in key
    ensures Gathered(r, p, FormatHeaderLine(key, value))
         == if Trim(key) == "" then p else p.(header := p.header[Trim(key) := Trim(value)])
  {
    hide *;
    var keyLeft, keyRight := TrimParts(key);
    var left, right := TrimParts(value);
    var k, v := Trim(key), Trim(value);
    var tail := if v == "" then "" else " " + left + v;
    var line := "#" + " " + keyLeft + (k + keyRight + ":" + tail);
    HeaderTrims(key, value, keyLeft, k, keyRight, left, v, right);
    TailTrims(left, v, tail);
    HeaderBody(keyLeft, k, keyRight, tail);
    KeyParts(key, keyLeft, k, keyRight);
    CommentGathers(r, p, FormatHeaderLine(key, value), line);
    KeyedComment(p.header, line, k, keyRight, tail, v);
  }

  lemma KeyedComment(header: map<string, string>, line: string, k: string, keyRight: string, tail: string, v: string)
    requires line != "" && Trim(line[1..]) == (if k == "" then ":" + tail else k + keyRight + ":" + tail)
    requires Trimmed(k) && AllSpaces(keyRight) && ' ' !in k && ':' !in k + keyRight && Trim(tail) == v
    ensures Commented(header, line) == if k == "" then header else header[k := v]
  {
    hide *;
    if k == "" {
      assert "" + ":" + tail == ":" + tail;
      CommentedSplits(header, line, "", tail);
    } else {
      KeyTrims(k, keyRight);
      CommentedSplits(header, line, k + keyRight, tail);
    }
  }

  lemma KeyParts(key: string, left: string, k: string, right: string)
    requires key == left + k + right && ' ' !in key && ':' !in key
    ensures ' ' !in k && ':' !in k + right
  {
    forall i | 0 <= i < |k + right| ensures (k + right)[i] in key {
      assert key[|left| + i] == (k + right)[i];
    }
    forall i | 0 <= i < |k| ensures k[i] in key {
      assert key[|left| + i] == k[i];
    }
  }

  lemma KeyTrims(k: string, keyRight: string)
    requires Trimmed(k) && AllSpaces(keyRight)
    ensures Trim(k + keyRight) == k
  {
    TrimWithin("", k, keyRight);
    assert "" + k + keyRight == k + keyRight;
  }

  lemma TailTrims(left: string, v: string, tail: string)
    requires AllSpaces(left) && Trimmed(v) && tail == if v == "" then "" else " " + left + v
    ensures Trim(tail) == v && (tail != "" ==> !IsSpace(tail[|tail| - 1]))
  {
    hide Trim;
    if v == "" {
      TrimOfSpaces("");
    } else {
      TrimWithin(" " + left, v, "");
      assert " " + left + v + "" == tail;
    }
  }

  /** The first line of a recording gives the format version. */
  lemma BannerLineReads(r: Readers, p: Pass, version: string)
    requires version == "" || !IsSpace(version[|version| - 1])
    ensures Gathered(r, p, "# NMEA Simulator X log" + version) == p.(header := p.header["format" := Trim(version)])
  {
    hide Gathered, Commented;
    var line := "# " + BANNER + version;
    assert "# NMEA Simulator X log" + version == line;
    BannerTrims(version);
    CommentGathers(r, p, line, line);
    BannerComment(p.header, line, version);
  }

  lemma BannerTrims(version: string)
    requires version == "" || !IsSpace(version[|version| - 1])
    ensures var line := "# " + BANNER + version; Trim(line) == line && Trim(line[1..]) == BANNER + version
  {
    hide Trim;
    assert |BANNER| == 20 && BANNER[0] == 'N' && BANNER[19] == 'g';
    var (line, body) := ("# " + BANNER + version, BANNER + version);
    EndsAsBanner(version);
    TrimFixes(line);
    assert line[1..] == " " + body + "";
    TrimWithin(" ", body, "");
  }

  lemma EndsAsBanner(version: string)
    requires version == "" || !IsSpace(version[|version| - 1])
    ensures Trimmed("# " + BANNER + version) && Trimmed(BANNER + version)
  {
    assert |BANNER| == 20 && BANNER[0] == 'N' && BANNER[19] == 'g';
    var line := "# " + BANNER + version;
    assert line[0] == '#' && line[|line| - 1] == if version == "" then BANNER[19] else version[|version| - 1];
  }

  lemma {:induction false} IndexOfBeyond(head: string, rest: string, c: char)
    requires c !in head
    ensures IndexOf(head + rest, c) >= |head|
  {
    if head != "" {
      assert (head + rest)[0] == head[0] && (head + rest)[1..] == head[1..] + rest;
      IndexOfBeyond(head[1..], rest, c);
    }
  }

  lemma BannerComment(header: map<string, string>, line: string, version: string)
    requires line != "" && Trim(line[1..]) == BANNER + version
    ensures Commented(header, line) == header["format" := Trim(version)]
  {
    var body := BANNER + version;
    var colon := IndexOf(body, ':');
    assert |BANNER| == 20 && ':' !in BANNER;
    IndexOfBeyond(BANNER, version, ':');
    hide IndexOf, Trim;
    assert body[|BANNER|..] == version;
    if colon < |body| {
      var key := body[..colon];
      assert key[0] == 'N' && key[4] == ' ' && key[5] == 'S' by {
        assert key[0] == BANNER[0] && key[4] == BANNER[4] && key[5] == BANNER[5];
      }
      InnerBlankStays(key);
    }
  }

  lemma InnerBlankStays(key: string)
    requires |key| > 5 && !IsSpace(key[0]) && key[4] == ' ' && !IsSpace(key[5])
    ensures ' ' in Trim(key)
  {
    hide Trim;
    var start := TrimSplits(key);
    assert start == 0 && |Trim(key)| > 5;
    assert Trim(key)[4] == key[4];
  }

  /** A comment with neither a colon nor the banner adds nothing, and no comment or blank line is counted. */
  lemma OtherCommentsAddNothing(r: Readers, p: Pass, text: string)
    requires Trim(text) != "" && Trim(text)[0] == '#'
    ensures Gathered(r, p, text).raw == p.raw && Gathered(r, p, text).skipped == p.skipped
    ensures ':' !in Trim(Trim(text)[1..]) && !(BANNER <= Trim(Trim(text)[1..])) ==> Gathered(r, p, text) == p
  {
    hide Trim;
    IndexOfFinds(Trim(Trim(text)[1..]), ':');
  }

  // The time of a sentence

  /** A built sentence of the formatters that carry a time shows it in its field: the fifth of GLL, the first of the
      others. */
  lemma BuiltTimeIsSeen(talker: string, formatter: string, values: seq<string>, time: int)
    requires |talker| == 2 && ReservedFree(talker) && talker[0] != 'P'
    requires formatter in {"GLL", "RMC", "GGA", "ZDA", "GNS", "GST", "GBS", "GRS"}
    requires var field := if formatter == "GLL" then 4 else 0; field < |values| && values[field] == FormatTime(time)
    ensures var parsed := ParseSentence(Built('$', talker, formatter, values));
      parsed.Some? && TimeOfSentence(parsed.value) == Some(time % 86400000 - time % 10)
  {
    hide ParseSentence, Built, FormatTime, ParseTimeOfDay, Allowed, AllowedAll;
    var field := if formatter == "GLL" then 4 else 0;
    FormattersAreReservedFree(formatter);
    ParseBuilt('$', talker, formatter, values);
    var address := talker + formatter;
    assert address[2..] == formatter;
    FormattedTimeReads(time);
    FormattedTimeSurvives(time);
  }

  lemma FormattersAreReservedFree(formatter: string)
    requires formatter in {"GLL", "RMC", "GGA", "ZDA", "GNS", "GST", "GBS", "GRS"}
    ensures ReservedFree(formatter) && |formatter| == 3
  {
  }

  lemma FormattedTimeSurvives(time: int)
    ensures Allowed(FormatTime(time)) == FormatTime(time)
  {
    hide TwoDigits, Allowed;
    var ms := time % DAY;
    TwoDigitsRead(ms / 3600000);
    TwoDigitsRead(ms / 60000 % 60);
    TwoDigitsRead(ms / 1000 % 60);
    TwoDigitsRead(ms % 1000 / 10);
    forall c <- FormatTime(time) ensures IsFieldCharacter(c) {
      assert IsDigit(c) || c == '.';
    }
    AllowedKeepsReservedFree(FormatTime(time));
  }

  /** No other formatter shows a time. */
  lemma OtherFormattersShowNoTime(s: ParsedSentence)
    requires s.formatter !in {"GLL", "RMC", "GGA", "ZDA", "GNS", "GST", "GBS", "GRS"}
    ensures TimeOfSentence(s) == None
  {
  }
}
