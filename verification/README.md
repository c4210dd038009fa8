# A verified model of NMEA Simulator X

NMEA Simulator X produces NMEA 0183 and AIS sentences, records them and replays recorded logs. This project models
the parts of it that carry state, undo one another or do exact arithmetic, and proves what they promise:

- **Replay** (`Replay.dfy`, `ReplayRuns.dfy`): the replay source against an endless tape of laps. A run sends exactly
  the lap and index pairs whose time has come; how the time is cut into ticks does not matter; seeking is replaying.
- **Logs** (`LogFile.dfy`, `LogLines.dfy`, `LogProperties.dfy`, `TaggedLog.dfy`, `TagBlock.dfy`, `SentenceClock.dfy`): reading a log for
  any text, its three timing rules, midnight, and the TAG block round trip. What is read is what replay assumes.
- **Sentences** (`Checksum.dfy`, `Sentence.dfy`, `Numbers.dfy`, `Coordinates.dfy`, `Heading.dfy`,
  `CustomSentence.dfy`): building against parsing, error detection, coordinates and headings with real bounds.
- **AIS** (`SixBit.dfy`, `AisMessages.dfy`, `AisFrames.dfy`, `AisStream.dfy`): from the vessel state to sentences on the
  wire and back, field by field at the offsets of ITU-R M.1371-5, Annex 8.
- **Map tiles** (`TileCache.dfy`, `TileRuns.dfy`): the download scheduler over all runs of its events.
- **Pacing** (`Pacing.dfy`): the account of wall-clock time over all runs with pause, resume and seek.

`Basics.dfy`, `Text.dfy` and `Angles.dfy` hold shared vocabulary. Code that changes state is modelled as classes and
methods with the source's loops, each proved equal to a specification function; the lemmas are about those functions.
Text is a sequence of characters, times are integers, angles and decimal fields are ideal reals. The command
`dafny verify dfyconfig.toml` verifies the whole project.

Where the documentation and the code differ, the model follows the code:

- `docs/reference/desktop-app.md:207-208` says a tile answered with 404 or 410 is not requested again until the
  application restarts; the code forgets it when the tile server changes, and `TileRuns.RequestLaw` says so.
- `SentenceBuilder` sentences with a talker starting with `P` do not come back with that talker: the parser takes one
  talker character for a proprietary sentence. `Sentence.RoundTrip` holds exactly for the other talkers.
- A TAG block time comes back only when its unit matches its size; `TagBlock.TimeSurvivesIff` is the exact condition
  (milliseconds before March 1973, for example, are read as seconds).
- `src/core/include/nmeasim/core/simulation/replay_source.hpp:55-56` and `docs/explanation/simulation-model.md:118` say
  that a looping log without duration is played once per advance. That holds exactly when the cursor is at the start
  (`ReplayRuns.PassPerAdvance`), as it is at a fresh start and after every advance. After a seek the next advance sends
  nothing (`ReplayRuns.SeekSkipsPass`, with a one-entry log in `ReplayRuns.OneEntryIsSkipped`), and after steps it sends
  only the rest of the pass (`ReplayRuns.StepShortensPass`).
- Seeking to the end of a looping log stays at the end, while advancing there wraps: `ReplayRuns.SeekIsReplay` holds
  exactly short of the end.
- A small step back in time is held by the log reader and taken as sent by the decoder, but only within one day: a step
  back across midnight is read as most of a day forward (`SentenceClock.StepBackIsHeld`, `SentenceClock.StepBackIsTaken`).
- The two dateless clocks (log reader and decoder) are exact for gaps up to, not including, twelve hours across
  midnight, and for any gap within one day; both miss everything else (`SentenceClock.RulesAgree`).

## Model

| member | source | states |
|---|---|---|
| Checksum.ComputeChecksum | src/core/src/nmea0183/checksum.cpp:55-61 | the loop computes the exclusive or of all bytes, which `ChecksumParity` tells bit by bit |
| Checksum.XorBits | src/core/src/nmea0183/checksum.cpp:58 | every bit of the combined value is set exactly when the two bits differ |
| Checksum.ChecksumParity | src/core/src/nmea0183/checksum.cpp:55-61 | each bit of the checksum is set exactly when an odd number of bytes have it set |
| Checksum.ChecksumOfOne | src/core/src/nmea0183/checksum.cpp:55-61 | nothing has checksum zero, and one character its own byte |
| Checksum.ChecksumConcat | src/core/src/nmea0183/checksum.cpp:55-61 | the checksum of a text is the exclusive or of the checksums of its pieces |
| Checksum.SubstitutionChangesChecksum | src/core/src/nmea0183/checksum.cpp:55-61 | replacing any one byte by a different one changes the checksum, wherever it stands |
| Checksum.FormatChecksumReadsBack | src/core/src/nmea0183/checksum.cpp:28-66 | two upper-case hexadecimal digits that read back as the checksum |
| Checksum.StripLineTerminator | src/core/src/nmea0183/checksum.cpp:46-51 | removes all trailing CR and LF |
| Checksum.StripTerminatorMeans | src/core/src/nmea0183/checksum.cpp:46-51 | what is left does not end in CR or LF, and nothing else was removed |
| Checksum.HexValueMeans | src/core/src/nmea0183/checksum.cpp:28-39 | exactly the sixteen digits of either case have a value, each its own |
| Checksum.VerifyChecksumMeans | src/core/src/nmea0183/checksum.cpp:77-98 | verification accepts exactly a delimiter, a non-empty body without `*`, `*` and two digits of either case that spell the body's checksum |
| Checksum.AppendedChecksumVerifies | src/core/src/nmea0183/checksum.cpp:68-98 | an appended checksum verifies if and only if there is a body and no `*` before |
| Sentence.SentenceBuilder.constructor | src/core/src/nmea0183/sentence_builder.cpp:20-26 | starts the body with delimiter, talker and formatter |
| Sentence.SentenceBuilder.AppendAllowed | src/core/src/nmea0183/sentence_builder.cpp:30-34 | the loop keeps the allowed characters in order and drops the reserved ones |
| Sentence.AllowedOne | src/core/src/nmea0183/sentence_builder.cpp:13-18 | of single characters exactly the printable ones that are not reserved are kept |
| Sentence.AllowedConcat | src/core/src/nmea0183/sentence_builder.cpp:28-36 | filtering a text filters its pieces |
| Sentence.SentenceBuilder.Field | src/core/src/nmea0183/sentence_builder.cpp:28-36 | one more field value, filtered, after those given so far |
| Sentence.SentenceBuilder.Empty | src/core/src/nmea0183/sentence_builder.cpp:54-57 | one more empty field |
| Sentence.SentenceBuilder.Build | src/core/src/nmea0183/sentence_builder.cpp:66-68 | the framed sentence of all values given |
| Sentence.SentenceBuilder.FitsLimit | src/core/src/nmea0183/sentence_builder.cpp:70-73 | true exactly when the sentence that would be built is at most 80 characters |
| Sentence.SplitFields | src/core/src/nmea0183/decoder.cpp:784-794 | the loop cuts the fields at every comma |
| Sentence.Parse | src/core/src/nmea0183/decoder.cpp:756-796 | the parser's steps and refusals compute the parse specification that the round trips use |
| Sentence.ParseSentenceIff | src/core/src/nmea0183/decoder.cpp:756-796 | exactly the lines that show a sentence are accepted, as that sentence: delimiter, address cut by its first letter, fields between commas, and no checksum or a matching one |
| Sentence.ParseBuilt | src/core/src/nmea0183/decoder.cpp:756-796 | every built sentence parses, with the address cut after one character for `P` and two otherwise, and the filtered fields in order |
| Sentence.RoundTrip | src/core/src/nmea0183/decoder.cpp:756-796 | building then parsing gives delimiter, talker, formatter and filtered fields back if and only if the talker does not start with `P` |
| Sentence.DetectsSubstitution | src/core/src/nmea0183/decoder.cpp:765-772 | any one wrong byte between delimiter and checksum makes the parser refuse, also when it is `*` or a comma |
| Numbers.ComputePow10 | src/core/src/nmea0183/fields.cpp:23-29 | the loop computes the power, and 1 for a negative exponent |
| Numbers.DecimalReadsBack | src/core/src/nmea0183/fields.cpp:75-80 | a printed number reads back and has no more digits than its size needs |
| Numbers.DigitMeans | src/core/src/nmea0183/fields.cpp:75-80 | the ten digits stand for their values |
| Numbers.PaddedReadsBack | src/core/src/nmea0183/fields.cpp:75-80 | zero padding keeps the value and gives exactly the width when the value fits |
| Numbers.FractionIsRatio | src/core/src/nmea0183/decoder.cpp:816-825 | summing digits at a shrinking scale gives the digits' value over the power of ten |
| Numbers.ScanWhole | src/core/src/nmea0183/decoder.cpp:811-815 | reads the longest run of digits as a whole number |
| Numbers.ScanFraction | src/core/src/nmea0183/decoder.cpp:816-825 | adds the longest run of digits after the point at its decimal weight |
| Numbers.ScanUnsigned | src/core/src/nmea0183/decoder.cpp:809-829 | the two scans together accept exactly the unsigned numbers and compute their value |
| Numbers.ParseNumberField | src/core/src/nmea0183/decoder.cpp:798-830 | the scan accepts exactly an optional sign and digits with at most one point, and computes their value |
| Numbers.ParseNumberMeans | src/core/src/nmea0183/decoder.cpp:798-830 | exactly the texts that spell a number are accepted, signs and bare points included, as the signed number they spell |
| Coordinates.MinutesBelow60 | src/core/src/nmea0183/fields.cpp:46-53 | rounding once in units never yields 60 minutes |
| Coordinates.UnitsRecovered | src/core/src/nmea0183/decoder.cpp:851-856 | reading degrees and minutes back from the printed number recovers exactly the rounded units |
| Coordinates.FormattedIsAccepted | src/core/src/nmea0183/decoder.cpp:832-869 | every formatted coordinate passes all checks of the parser and is read as its rounded units, poles and date line included |
| Coordinates.RoundTrip | src/core/src/nmea0183/fields.cpp:45-88 | for every position and number of decimals, a negative one printing none, the decoded angle is within 1/(120·10^decimals) degrees |
| Coordinates.FormattedShape | src/core/src/nmea0183/fields.cpp:45-88 | the field is the degrees, minutes below 60 and fraction nearest to the angle, zero padded, and the letter of its sign |
| Coordinates.ParseCoordinateMeans | src/core/src/nmea0183/decoder.cpp:832-869 | exactly the unsigned texts of degrees and minutes within the limits are accepted, as the angle they hold |
| Angles.RoundIsNearest | src/core/src/nmea0183/fields.cpp:48-49 | rounding is off by at most a half |
| Angles.RoundTies | src/core/src/nmea0183/fields.cpp:48-49 | halves are rounded away from zero on both sides |
| Angles.NormalizeBearing | src/core/src/geo/geodesic.cpp:13-24 | the bearing lies in [0, 360) |
| Angles.NormalizeBearingTurns | src/core/src/geo/geodesic.cpp:13-24 | and differs from the given one by whole turns |
| Heading.BuildHdg | src/core/src/nmea0183/encoders.cpp:340-349 | the builder calls produce the HDG sentence whose decoding is bounded below |
| Heading.VesselNavigation.ApplyHdg | src/core/src/nmea0183/decoder.cpp:428-437 | writes deviation and variation first, then the true heading from the new values |
| Heading.FormattedTenthsRead | src/core/src/nmea0183/fields.cpp:64-73 | a one-decimal field reads back as the value rounded to a tenth |
| Heading.EastWestReads | src/core/src/nmea0183/decoder.cpp:109-115 | a magnitude and its letter read back as the signed value within 0.05 |
| Heading.TenthsTies | src/core/src/nmea0183/fields.cpp:64-73 | a value half-way between two tenths is printed with the even one |
| Heading.HdgFieldsRead | src/core/src/nmea0183/encoders.cpp:340-349 | the five fields read as the compass heading within 0.05 on the circle, then deviation and variation as magnitude and letter |
| Heading.EmptyFieldsKeep | src/core/src/nmea0183/decoder.cpp:428-437 | empty fields leave the navigation state as it was |
| Heading.DecodedHeading | src/core/src/nmea0183/decoder.cpp:428-437 | a heading that is read is the sensor heading plus the new variation and deviation, whole turns aside; each value stays when its field is no number |
| Heading.FieldsRoundTrip | src/core/src/nmea0183/decoder.cpp:428-437 | decoding gives a true heading in [0, 360) within 0.15 degrees of the original around the circle, also when a compass heading prints as 360.0 |
| Heading.RoundTrip | src/core/src/nmea0183/encoders.cpp:340-349 | the same through the framed sentence and the parser, for every talker but a proprietary one |
| SixBit.BitPacker.constructor | src/core/include/nmeasim/core/ais/sixbit.hpp:26-29 | a default-constructed packer is empty |
| SixBit.BitPacker.AppendUnsigned | src/core/src/ais/sixbit.cpp:12-17 | appends the value's low bits, most significant first, zeros above 32 |
| SixBit.BitPacker.AppendSigned | src/core/src/ais/sixbit.cpp:19-37 | appends the clamped two's complement code, or the sign-extended word from 32 bits on |
| SixBit.BitPacker.AppendText | src/core/src/ais/sixbit.cpp:39-44 | appends six bits per character, cut or padded with `@` |
| SixBit.UnsignedReadsBack | src/core/src/ais/sixbit.cpp:12-17 | a field reads back as the value modulo two to the width, the value itself when it fits |
| SixBit.BitsConcat | src/core/src/ais/sixbit.cpp:12-17 | the first bits weigh most: a sequence stands for its first part shifted plus its second |
| SixBit.SignedReadsBack | src/core/src/ais/sixbit.cpp:19-37 | a signed field of any width reads back as the value clamped to its range |
| SixBit.SixBitReadsBack | src/core/src/ais/sixbit.cpp:46-55 | a character is received upper-cased, or as `?` outside the six-bit alphabet |
| SixBit.TextReadsBack | src/core/src/ais/sixbit.cpp:39-44 | a text field is received cut or padded, in the six-bit alphabet |
| SixBit.LettersMean | src/core/src/ais/sixbit.cpp:46-55 | codes 0 to 31 are `@`, the capitals and the five signs behind them, in order |
| SixBit.SymbolsMean | src/core/src/ais/sixbit.cpp:46-55 | codes 32 to 63 are blank to question mark, in order |
| SixBit.SixBitCodeMeans | src/core/src/ais/sixbit.cpp:46-55 | a letter has the code of its capital, and what the alphabet lacks the code 63 |
| SixBit.PaddedWithAt | src/core/src/ais/sixbit.cpp:39-44 | a shorter text is received with `@` behind it |
| SixBit.PackGroup | src/core/src/ais/sixbit.cpp:62-68 | the inner loop forms the value of six bits, zeros past the end |
| SixBit.Armor | src/core/src/ais/sixbit.cpp:57-75 | the loop produces the armoured text and the fill bits that un-armouring undoes |
| SixBit.UnarmorArmorChar | src/core/src/ais/sixbit.cpp:71-85 | un-armouring a character inverts armouring for all 64 values |
| SixBit.ArmorCharMeans | src/core/src/ais/sixbit.cpp:69-71 | the armouring characters rise with their values within the two ranges, which determines them |
| SixBit.UnarmorMeans | src/core/src/ais/sixbit.cpp:77-85 | exactly the characters of the two ranges have a value |
| SixBit.UnarmoredArmored | src/core/src/ais/sixbit.cpp:57-85 | un-armouring the text gives the bits and exactly the fill bits, all zero |
| SixBit.ArmoredAlphabet | src/core/src/ais/sixbit.cpp:69-71 | armoured text stays in two ranges of characters that hold no reserved one |
| AisMessages.FieldAt | src/core/src/ais/messages.cpp:77-138 | each packed field is found whole at the sum of the widths before it |
| AisMessages.PackPositionReport | src/core/src/ais/messages.cpp:77-111 | the appends, in order, produce the packed position fields |
| AisMessages.PackStaticData | src/core/src/ais/messages.cpp:113-138 | the appends, in order, produce the packed static fields |
| AisMessages.ClampUnsignedIsNearest | src/core/src/ais/messages.cpp:51-54 | the field value is the nearest whole value of the range: within a half inside it, the end beyond it |
| AisMessages.HeadingCodeIsNearest | src/core/src/ais/messages.cpp:69-75 | the code is the nearest whole degree, whole turns aside, and north from 359.5 on |
| AisMessages.SecondOfMinuteIsOfMinute | src/core/src/ais/messages.cpp:32-36 | the time lies in that second of some whole minute, before the epoch too |
| AisMessages.SpeedMeans | src/core/src/ais/messages.cpp:90-94 | tenths of a knot within a half, 1022 from 102.2 knots on, 1023 without a fix |
| AisMessages.CourseMeans | src/core/src/ais/messages.cpp:102-103 | tenths of a degree within a half up to 3599, 3600 without a fix |
| AisMessages.ReportTypeMeans | src/core/src/ais/messages.cpp:82-85 | types 1 to 3 as set, any other as 1 |
| AisMessages.PositionLayout | src/core/src/ais/messages.cpp:77-111 | exactly 168 bits, and a receiver reading all 16 fields at their ITU-R M.1371-5 offsets finds the clamped or sentinel values |
| AisMessages.StaticLayout | src/core/src/ais/messages.cpp:113-138 | exactly 424 bits, and all 21 fields read back at their offsets |
| AisMessages.PositionIsExact | src/core/src/ais/messages.cpp:98-101 | with a fix on the globe neither coordinate is clamped or mistaken for not available |
| AisMessages.PositionMeans | src/core/src/ais/messages.cpp:77-111 | every value a receiver reads in a position report, in the units of the standard and within a half of them, with the values for no fix |
| AisMessages.StaticMeans | src/core/src/ais/messages.cpp:113-138 | every value a receiver reads in a static data report: identity, texts character by character, metres, tenths of draught and the fixed fields |
| AisFrames.BuildFragment | src/core/src/ais/messages.cpp:147-158 | one pass of the loop builds the sentence of that fragment |
| AisFrames.FramePayload | src/core/src/ais/messages.cpp:140-161 | the loop produces all sentences of the payload in order |
| AisFrames.ArmoredSurvives | src/core/src/nmea0183/sentence_builder.cpp:28-36 | dropping reserved characters drops nothing from an armoured payload |
| AisFrames.FramedParses | src/core/src/nmea0183/decoder.cpp:756-796 | every fragment's sentence parses to the fields framed, with a valid checksum |
| AisFrames.SentenceCountIsLeast | src/core/src/ais/messages.cpp:142-143 | the sentences are the fewest that hold the payload at sixty characters each |
| AisFrames.FragmentMeans | src/core/src/ais/messages.cpp:147-157 | the fields read as total, number from one, message id only when there are several, channel A, the part of the payload, and the fill bits in the last only |
| AisFrames.FramedMeans | src/core/src/ais/messages.cpp:150-158 | each sentence is delimiter `!`, the address, those fields and the checksum, nothing dropped |
| AisFrames.EndToEnd | src/core/src/ais/messages.cpp:140-161 | armouring, framing, parsing, joining and un-armouring return exactly the bits, for any length, sequence and address |
| AisFrames.LengthLimit | src/core/src/ais/messages.cpp:26-161 | all sentences are within 80 characters if and only if the message has at most 3240 bits |
| AisStream.PositionReportArrives | src/core/src/ais/messages.cpp:77-161 | the position report of every representable state is one short sentence that carries every reported value to a receiver |
| AisStream.StaticDataArrives | src/core/src/ais/messages.cpp:113-161 | the static data report is two short sentences that carry every reported value |
| Replay.ReplaySource.constructor | src/core/src/simulation/replay_source.cpp:14-15 | starts at the beginning of the tape, finished only for an empty log |
| Replay.ReplaySource.EmitEntry | src/core/src/simulation/replay_source.cpp:17-25 | applies a parsed sentence and queues it with its formatter, an unparsed one with none |
| Replay.ReplaySource.PlayDue | src/core/src/simulation/replay_source.cpp:39-42 | the inner loop plays exactly the entries of the pass that are due |
| Replay.ReplaySource.PlayPasses | src/core/src/simulation/replay_source.cpp:38-62 | the outer loop terminates and ends where pass by pass replay ends |
| Replay.ReplaySource.Advance | src/core/src/simulation/replay_source.cpp:32-64 | keeps the invariant and lands on the tape at the new time |
| Replay.ReplaySource.StepOnce | src/core/src/simulation/replay_source.cpp:66-85 | keeps the invariant and plays exactly the next entry |
| Replay.ReplaySource.TakeSentences | src/core/src/simulation/replay_source.cpp:87-89 | hands over the queue and empties it, nothing else |
| Replay.ReplaySource.Reset | src/core/src/simulation/replay_source.cpp:91-96 | back to the start from any state |
| Replay.ReplaySource.Seek | src/core/src/simulation/replay_source.cpp:106-120 | lands where the clamped time is, everything due counted as played, the queue dropped |
| Replay.ReplaySource.PositionNow | src/core/src/simulation/replay_source.cpp:102-104 | the position is the clock and lies within the log |
| Replay.DueIsTapeTime | src/core/src/simulation/replay_source.cpp:38-52 | an entry of the tape is counted as due if and only if its time has come |
| Replay.TapeTimeClosed | src/core/src/simulation/replay_source.cpp:46-51 | tape entry j is entry j mod n in lap j / n |
| Replay.DueByClosed | src/core/src/simulation/replay_source.cpp:46-51 | whole laps times the number of entries plus the due part of the running lap |
| Replay.AdvancedIsRemaining | src/core/src/simulation/replay_source.cpp:37-62 | the pass-by-pass loop equals the closed form from every reachable state |
| ReplayRuns.BatchingInvariance | src/core/src/simulation/replay_source.cpp:32-64 | two advances equal one by their sum, in clock, cursor, state, queue and finished flag, if and only if the log is not a looping one without duration |
| ReplayRuns.RunIsOneAdvance | src/core/src/simulation/replay_source.cpp:32-64 | any cut of the time into ticks is one advance, for every log but a looping one without duration |
| ReplayRuns.LoopPlaysTape | src/core/src/simulation/replay_source.cpp:32-64 | a looping run of total time T sends (T/D)·n plus the due entries of the last lap, exactly the pairs with lap·D + offset at most T in order, and the clock is T mod D |
| ReplayRuns.PassPerAdvance | src/core/src/simulation/replay_source.cpp:53-61 | a looping log without duration plays the rest of its pass and rewinds, whatever the time advanced, and so is played once exactly when the cursor is at the start |
| ReplayRuns.SeekSkipsPass | src/core/src/simulation/replay_source.cpp:53-120 | after any seek in such a log the next advance sends nothing |
| ReplayRuns.StepShortensPass | src/core/src/simulation/replay_source.cpp:53-85 | after one step from the start the next advance sends one entry less than the log has |
| ReplayRuns.OneEntryIsSkipped | src/core/src/simulation/replay_source.cpp:53-120 | a one-entry looping log, sought, sends nothing at the next advance and its entry at the one after |
| ReplayRuns.TicksArePasses | src/core/src/simulation/replay_source.cpp:32-64 | from any reachable position of such a log, k ticks send the tape from the cursor to the end of the k-th pass and end at the start |
| ReplayRuns.LoopPlaysPasses | src/core/src/simulation/replay_source.cpp:32-64 | from the start, k ticks of such a log send its entries k times over, in order |
| ReplayRuns.StopPlaysPrefix | src/core/src/simulation/replay_source.cpp:32-64 | a stopping run sends exactly the entries whose offset has come and holds the clock at the end |
| ReplayRuns.SeekIsReplay | src/core/src/simulation/replay_source.cpp:106-120 | seeking equals reset and advance, with nothing queued, if and only if the log stops, is empty or the place is before its end |
| ReplayRuns.EveryRunKeepsInv | src/core/src/simulation/replay_source.cpp:32-120 | after any actions the state is the fold of the entries before the cursor, the clock separates played from unplayed, and finished means empty or stopped at the end |
| ReplayRuns.NothingLostOrRepeated | src/core/src/simulation/replay_source.cpp:32-89 | any interleaving of advances, steps and collections sends the entries consecutively, modulo n when looping, a prefix when stopping |
| ReplayRuns.EveryStateIsFold | src/core/src/simulation/replay_source.cpp:17-120 | after any actions the state is the seed with the parsed sentences before the cursor applied one after the other, each to the result of the one before |
| ReplayRuns.EveryStateIsHistory | src/core/src/simulation/replay_source.cpp:17-120 | a state that records what is applied to it holds exactly the parsed sentences before the cursor, in order, none from an earlier pass |
| ReplayRuns.ParsedOfParsable | src/core/src/simulation/replay_source.cpp:17-25 | when all entries parse, that record is the entries one for one |
| ReplayRuns.UnparsedIsBare | src/core/src/simulation/replay_source.cpp:22-24 | an entry that does not parse goes out without an id and leaves the state as it was |
| ReplayRuns.AdvanceSendsDue | src/core/src/simulation/replay_source.cpp:32-64 | from any reachable position an advance sends, from the cursor on, exactly the entries whose time has come by the new time, and sets the clock to it, wrapped or held |
| ReplayRuns.StepMeans | src/core/src/simulation/replay_source.cpp:66-85 | a step sends the one entry at the cursor, the first again at the end of a looping log, and sets the clock to its offset |
| ReplayRuns.SeekMeans | src/core/src/simulation/replay_source.cpp:106-120 | seeking clamps the time and counts exactly the entries due by then as played |
| TimeField.FormattedTimeReads | src/core/src/nmea0183/fields.cpp:90-98 | a formatted time of day parses back to itself cut to the hundredth of a second, for every time |
| TimeField.ScanMillis | src/core/src/nmea0183/decoder.cpp:887-893 | the loop reads up to three digits as milliseconds and ignores more |
| TimeField.MillisMeans | src/core/src/nmea0183/decoder.cpp:887-893 | the first three digits as a number of thousandths, zeros for those missing |
| TimeField.ParseTimeOfDayMeans | src/core/src/nmea0183/decoder.cpp:871-897 | accepted are exactly two digits each of hours, minutes and seconds, second 60 included, with an optional fraction, and the result is the time they spell |
| SentenceClock.VesselClock.Apply | src/core/src/nmea0183/decoder.cpp:126-144 | sets the vessel time by the decoder's rule, whose exactness is stated below |
| SentenceClock.ReadIsExact | src/core/src/log/log_file.cpp:293-306 | the log reader sees exactly the time between two sentences if and only if they share a day or lie less than twelve hours apart across midnight |
| SentenceClock.ApplyTimeIsExact | src/core/src/nmea0183/decoder.cpp:137-143 | the decoder's clock follows exactly under the same condition |
| SentenceClock.DatedTimeIsExact | src/core/src/nmea0183/decoder.cpp:128-136 | a dated sentence sets the exact time whatever the clock was |
| SentenceClock.ReadMeans | src/core/src/log/log_file.cpp:292-307 | a step back of up to twelve hours is held, anything else moves on to the next time with that time of day |
| SentenceClock.StepBackIsHeld | src/core/src/log/log_file.cpp:297-305 | a true step back of up to twelve hours is held if and only if it stays within the day; across midnight it counts as most of a day forward |
| SentenceClock.StepBackIsTaken | src/core/src/nmea0183/decoder.cpp:137-143 | the decoder takes such a step back as sent within the day, and is a day ahead across midnight |
| SentenceClock.ApplyTimeIff | src/core/src/nmea0183/decoder.cpp:137-143 | for any two times in either order, the exact condition for the clock to be right |
| SentenceClock.OffsetsAreExact | src/core/src/log/log_file.cpp:286-309 | over whole recordings the offsets are the true elapsed times if and only if every gap is visible |
| SentenceClock.ClockIsExact | src/core/src/nmea0183/decoder.cpp:126-144 | over whole recordings the decoder's clock is the true time if and only if every gap is visible |
| SentenceClock.SilenceIsZero | src/core/src/log/log_file.cpp:286-309 | sentences before the first one with a time are at offset zero and change nothing after it |
| SentenceClock.RulesAgree | src/core/src/log/log_file.cpp:286-309 | the two rules agree over any number of midnights, and are exact while no twelve hours pass unseen |
| SentenceClock.HalfDayGapIsLost | src/core/src/log/log_file.cpp:299-305 | a concrete twelve-hour gap that both rules miss |
| TagBlock.SanitizeSource | src/core/src/nmea0183/tag_block.cpp:26-42 | the loop with its early break keeps the first fifteen allowed characters, or gives the stand-in |
| TagBlock.KeptOne | src/core/src/nmea0183/tag_block.cpp:29-36 | of single characters exactly the printable ones that are neither blank nor reserved are kept |
| TagBlock.KeptConcat | src/core/src/nmea0183/tag_block.cpp:28-40 | sanitising works character by character |
| TagBlock.SourceMeans | src/core/src/nmea0183/tag_block.cpp:37-41 | the first fifteen kept characters, `SIM` when none is kept |
| TagBlock.SourceParameter | src/core/src/nmea0183/tag_block.cpp:46 | the source is the first parameter of every block |
| TagBlock.PrependTagBlock | src/core/src/nmea0183/tag_block.cpp:44-62 | the block with source, time and checksum in front of the unchanged sentence |
| TagBlock.ChecksumValidMeans | src/core/src/log/log_file.cpp:107-123 | comparing upper-cased digits accepts exactly the two digits of either case that spell the checksum, or no checksum |
| TagBlock.ScanBlockTime | src/core/src/log/log_file.cpp:133-149 | the scan reads the first time parameter before the checksum |
| TagBlock.CountReadsBack | src/core/src/log/log_file.cpp:46-61 | a printed count is read as milliseconds above 10^11 and as seconds up to there, and refused unless positive |
| TagBlock.ParseUnixTimeMeans | src/core/src/log/log_file.cpp:46-61 | a positive text of digits and points is seconds up to 10^11 and milliseconds above, to the nearest millisecond; every other text is no time |
| TagBlock.SentTimeIsCut | src/core/src/nmea0183/tag_block.cpp:48-53 | the sent time is the time cut toward the epoch by less than the second or millisecond sent |
| TagBlock.BlockIsValid | src/core/src/nmea0183/tag_block.cpp:44-57 | a formatted block holds no backslash or blank and passes the reader's checksum, for any source text |
| TagBlock.BlockTimeReadsBack | src/core/src/log/log_file.cpp:133-149 | the reader takes the sent count from any formatted block, never something in the source text |
| TagBlock.TimeSurvivesIff | src/core/src/log/log_file.cpp:46-61 | the time read is the time sent if and only if its count is positive and is above 10^11 exactly when milliseconds are sent |
| LogFile.ParsePrefixTime | src/core/src/log/log_file.cpp:71-98 | the loop and the order of attempts on the prefix and its last word |
| LogFile.ReadUntaggedLine | src/core/src/log/log_file.cpp:239-254 | a line without block yields an entry or is skipped |
| LogFile.ReadSentenceLine | src/core/src/log/log_file.cpp:228-255 | a line with or without block yields an entry, with the block's time before the prefix's, or is skipped |
| LogFile.ReadLines | src/core/src/log/log_file.cpp:198-256 | the scan with a moving start gathers entries, skipped lines and header like a fold over the lines |
| LogFile.StampEntries | src/core/src/log/log_file.cpp:273-285 | the timestamp loop, whose offsets `LogProperties.TimestampOffsets` characterises |
| LogFile.TimeEntries | src/core/src/log/log_file.cpp:290-309 | the sentence-time loop, whose offsets `LogProperties.SentenceTimeOffsets` characterises |
| LogFile.SpaceEntries | src/core/src/log/log_file.cpp:312-315 | the fixed-interval loop, entry i at i intervals by `LogProperties.SpacedKeeps` |
| LogLines.FirstDelimiterMeans | src/core/src/log/log_file.cpp:239 | the sentence starts at the first `$` or `!` |
| LogLines.UntaggedMeans | src/core/src/log/log_file.cpp:239-254 | a line is skipped exactly when it has no delimiter or the parser refuses what follows the first; else that is stored, the block's time before the prefix's |
| LogLines.PrefixTimeMeans | src/core/src/log/log_file.cpp:71-98 | a prefix is timed by its core, as ISO 8601, as Unix time, or by its last word |
| LogLines.PrefixedLineReads | src/core/src/log/log_file.cpp:228-255 | an accepted sentence behind any prefix without delimiter is stored, with the time the core of the prefix tells |
| LogLines.UnixLineReads | src/core/src/log/log_file.cpp:191-318 | a Unix time, a blank and a sentence are a log of that one entry at that time |
| LogLines.BlockedLineReads | src/core/src/log/log_file.cpp:229-238 | a closed block is checked, gives the time, and is read past |
| LogLines.UnclosedBlockIsSkipped | src/core/src/log/log_file.cpp:230-235 | a line whose block is not closed is skipped |
| LogLines.BlockTimeMeans | src/core/src/log/log_file.cpp:137-148 | the time is that of the first parameter that starts with `c:` and goes on |
| LogLines.HeaderLineReads | src/core/src/log/log_file.cpp:210-219 | a header line as the recorder writes it comes back under its trimmed key with its trimmed value, for every key without blank or colon that is not blank |
| LogLines.BannerLineReads | src/core/src/log/log_file.cpp:221-224 | the first line of a recording gives the format version |
| LogLines.OtherCommentsAddNothing | src/core/src/log/log_file.cpp:210-226 | comments are never counted, and others add nothing |
| LogLines.BuiltTimeIsSeen | src/core/src/nmea0183/decoder.cpp:914-927 | a built sentence of the eight formatters shows the time of its field, the fifth for GLL, cut to the hundredth |
| LogLines.OtherFormattersShowNoTime | src/core/src/nmea0183/decoder.cpp:917-923 | no other formatter shows a time |
| LogFile.ParseLog | src/core/src/log/log_file.cpp:191-318 | the reader for any text and interval, errors included |
| LogProperties.ParsedLogPromises | src/core/src/log/log_file.cpp:191-318 | for any text, a parsed log has an entry, offsets from zero that never decrease, sentences the parser accepts again, and every line neither blank nor comment either stored or counted |
| LogProperties.RejectedIff | src/core/src/log/log_file.cpp:193-262 | a text is rejected if and only if the interval is negative or no line holds a valid sentence, as empty exactly when no line has content |
| LogProperties.TimestampOffsets | src/core/src/log/log_file.cpp:273-285 | each offset is the running maximum of zero and the recorded times less the first of them |
| LogProperties.TimingMeans | src/core/src/log/log_file.cpp:264-311 | one absolute time anywhere decides for timestamps, else one time of day anywhere for sentence times, else the fixed interval |
| LogProperties.SentenceTimeOffsets | src/core/src/log/log_file.cpp:290-309 | a recording with times of day, after any number of sentences without, is replayed in true time if and only if every gap is visible |
| LogProperties.SpacedKeeps | src/core/src/log/log_file.cpp:312-315 | entry i is at i intervals and keeps its sentence |
| LogProperties.ParsedLogIsReplayable | src/core/src/simulation/replay_source.cpp:17-25 | every parsed log meets what the replay source assumes, and each entry goes out parsed |
| LogProperties.NoUnparsedEmission | src/core/src/simulation/replay_source.cpp:22-24 | with the real parser the unparsed branch of replay is never taken on a parsed log |
| LogProperties.WholeLogIsReplayed | src/core/src/simulation/replay_source.cpp:32-64 | replaying a parsed log for its length, in any ticks, sends its sentences once each in file order and finishes |
| TaggedLog.TaggedLogReads | src/core/src/log/log_file.cpp:228-256 | reading tagged lines returns every sentence in order with its block's time and skips nothing |
| TaggedLog.TaggedLogRoundTrip | src/core/src/log/log_file.cpp:228-285 | lines tagged with surviving times in order come back with those times, and offsets equal to the time differences |
| TaggedLog.AcceptedIsSendable | src/core/src/nmea0183/decoder.cpp:756-761 | every trimmed one-line text the parser accepts can be sent this way |
| TileScheduler.TileCache.constructor | src/app/map/tile_cache.cpp:59-67 | starts online with nothing queued, running or failed |
| TileScheduler.TileCache.StartNext | src/app/map/tile_cache.cpp:169-185 | the loop starts the oldest waiting downloads until four run or none waits |
| TileScheduler.TileCache.Enqueue | src/app/map/tile_cache.cpp:159-167 | queues a tile once and starts downloads |
| TileScheduler.TileCache.Ask | src/app/map/tile_cache.cpp:116-130 | queues a tile that is not cached when online and allowed |
| TileScheduler.TileCache.AbortRunning | src/app/map/tile_cache.cpp:96-106 | the loop forgets every running download and keeps the waiting ones |
| TileScheduler.TileCache.RecordFailure | src/app/map/tile_cache.cpp:222-232 | marks a tile gone, or sets its next delay and retry time |
| TileScheduler.TileCache.FinishDownload | src/app/map/tile_cache.cpp:187-220 | frees the slot, remembers the outcome and starts the next download |
| TileScheduler.TileCache.SetTemplate | src/app/map/tile_cache.cpp:69-80 | a new, non-blank template forgets failures and restarts from the queue |
| TileScheduler.TileCache.SwitchOnline | src/app/map/tile_cache.cpp:82-94 | off empties everything, on again forgets the transient failures |
| TileScheduler.TileCache.Clear | src/app/map/tile_cache.cpp:150-157 | nothing queued or running, failures kept |
| TileScheduler.TileCache.PendingDownloads | src/app/map/tile_cache.cpp:136-138 | the count is the number of distinct tiles queued or running |
| TileScheduler.TileCache.Handle | src/app/map/tile_cache.cpp:69-220 | every event of the cache takes the step that the run theorems are about |
| TileScheduler.DistinctMeans | src/app/map/tile_cache.cpp:159-165 | no tile waits at two places of the queue |
| TileScheduler.RunKeeps | src/app/map/tile_cache.cpp:69-240 | every run keeps: `queued` is the disjoint union of the queue, without repetition, and the running downloads; at most four run; a waiting tile means four running; offline means none; nothing the server lacks is in flight |
| TileRuns.FirstInFirstOut | src/app/map/tile_cache.cpp:159-185 | over every run that does not empty the queue, requests and waiting tiles together are those of the start followed by the tiles queued since, in that order |
| TileRuns.WaitingIsBounded | src/app/map/tile_cache.cpp:169-220 | the tile at queue position p is the p-th next request and is under way once p + 1 downloads have finished |
| TileRuns.GoneStaysOut | src/app/map/tile_cache.cpp:222-240 | a tile reported missing is not requested again in any run, whatever is cleared or switched, while the server stays the same |
| TileRuns.NextDelayIsBackoff | src/app/map/tile_cache.cpp:228-230 | doubling with the cap is min(d·2^(k-1), max(10 min, d)) after k failures |
| TileRuns.FailuresAreHistory | src/app/map/tile_cache.cpp:187-240 | over every run with one first delay, the failure record is what the history of outcomes says: consecutive failures, last time, gone or not |
| TileRuns.RequestLaw | src/app/map/tile_cache.cpp:116-130 | after any run from a fresh cache, asking queues a tile if and only if it is queued already, or it is not cached, the cache is online, the tile is not gone and its back-off since the last failure is over |
| TileRuns.QueuedAfter | src/app/map/tile_cache.cpp:69-220 | what is in flight after each event: a finished tile gone, at a new server the running ones gone and the waiting ones kept, nothing offline or cleared |
| TileRuns.EmptiedAfter | src/app/map/tile_cache.cpp:82-157 | clearing and going offline leave nothing in flight and forget no failure |
| TileRuns.SettingsAfter | src/app/map/tile_cache.cpp:69-94 | server, online state and first delay change only by their own events |
| TileRuns.RequestsUseServer | src/app/map/tile_cache.cpp:169-185 | every request goes to the server in force, also for tiles queued before it was set |
| TileRuns.FourAtATime | src/app/map/tile_cache.cpp:30 | in every run from a fresh cache at most four downloads run, exactly four while a tile waits |
| TileRuns.FreshMeans | src/app/map/tile_cache.cpp:59-67 | a fresh cache is online at its server with nothing queued, requested or remembered |
| TileRuns.DefaultDelays | src/app/map/tile_cache.cpp:35 | a fresh cache waits half a minute after a failure, doubled up to ten minutes |
| Pacing.SimulationRunner.constructor | src/io/include/nmeasim/io/simulation_runner.hpp:424-426 | starts stopped, with nothing consumed or handed out |
| Pacing.SimulationRunner.StartRun | src/io/src/simulation_runner.cpp:245-265 | restarts the clock unless already running |
| Pacing.SimulationRunner.PauseRun | src/io/src/simulation_runner.cpp:267-273 | pauses only a running, unpaused run |
| Pacing.SimulationRunner.ResumeRun | src/io/src/simulation_runner.cpp:275-282 | restarts the clock, so paused time is behind it |
| Pacing.SimulationRunner.OnTick | src/io/src/simulation_runner.cpp:449-467 | hands out whole milliseconds, carries the rest, caps a step at one second |
| Pacing.SimulationRunner.Handle | src/io/src/simulation_runner.cpp:245-330 | every event of a run, single steps and seeks included |
| Pacing.StepAccounts | src/io/src/simulation_runner.cpp:449-467 | each event accounts for all the time it has seen; a step is 1 to 1000 ms, and a tick leaves less than a millisecond over |
| Pacing.TimeIsConserved | src/io/src/simulation_runner.cpp:245-467 | over every run, unpaused wall-clock time is simulated time plus what capped ticks dropped plus what interruptions gave up plus what is pending, no part negative |
| Pacing.FlagsAreEvents | src/io/src/simulation_runner.cpp:245-330 | after any events the runner runs exactly when a start or single step follows the last stop, and is paused by the later of pause or step and resumption since |
| Pacing.UnpausedIsEvents | src/io/src/simulation_runner.cpp:245-330 | the time counted is the time between events while those say running and not paused |
| Pacing.EventTimeIsConserved | src/io/src/simulation_runner.cpp:245-467 | over every run from the beginning the account balances against the unpaused time told by the events alone, in steps of 1 to 1000 ms |
| Pacing.NeverAhead | src/io/src/simulation_runner.cpp:245-467 | simulated time never exceeds the unpaused wall-clock time told by the events |
| Pacing.RestartsAreFresh | src/io/src/simulation_runner.cpp:245-330 | a start, a resumption and a seek while counting each restart the clock and keep the steps handed out |
| Pacing.FallsShortByDrops | src/io/src/simulation_runner.cpp:444-467 | from any restart on, the simulated time since is what was consumed less exactly what capped ticks dropped, the clock is less than a millisecond ahead of what was consumed, and the simulated time is the whole milliseconds of the clock if and only if no tick was capped |
| Pacing.KeepsPace | src/io/src/simulation_runner.cpp:449-467 | from any restart on, with ticks at most a second apart, the simulated time since is exactly the whole milliseconds elapsed, however the ticks fall |
| Pacing.EveryStretchIsExact | src/io/src/simulation_runner.cpp:245-467 | in every run, whatever came before, the same account holds from each start, resumption or seek to the end of the ticks after it |
| CustomSentences.NormaliseView | src/core/src/simulation/custom_sentence.cpp:55-106 | the narrowing pass and its loop, with the first rule broken as the reason |
| CustomSentences.AcceptedIff | src/core/src/simulation/custom_sentence.cpp:55-106 | a text is accepted with a delimiter and body if and only if it types a proper body, with the delimiter optional for `$` and any two-digit checksum ignored |
| CustomSentences.CustomCharacterMeans | src/core/src/simulation/custom_sentence.cpp:82-88 | the allowed characters are the printable ones but the reserved |
| CustomSentences.AlphanumericMeans | src/core/src/simulation/custom_sentence.cpp:91-93 | an address is of digits and letters |
| CustomSentences.TypedVerdict | src/core/src/simulation/custom_sentence.cpp:80-104 | the reason given is the first rule broken: characters, address, length |
| CustomSentences.UntypedVerdict | src/core/src/simulation/custom_sentence.cpp:57-79 | a text is blank, or has a stray `*` exactly when it splits into no body and checksum |
| CustomSentences.FramedIsNormalForm | src/core/src/simulation/custom_sentence.cpp:110-120 | framing succeeds exactly when validation finds nothing; the result is at most 80 characters, verifies, is accepted by the parser with its body, and framing it again changes nothing |
| CustomSentences.FindDuplicateId | src/core/src/simulation/custom_sentence.cpp:126-134 | the first sentence whose effective identifier an earlier one has, or none when all differ |
| CustomSentences.UnnamedIds | src/core/src/simulation/custom_sentence.cpp:122-124 | sentences without an identifier are numbered from one, so no two share one |

## Left out

- IEEE rounding and the range of `double`: angles, speeds and decimal fields are ideal reals; only the decimal and integer rounding the code asks for is modelled.
- Overflow of 64-bit counts: times, offsets, retry delays and powers of ten are unbounded integers.
- Non-finite values: the headings and rates of turn that are not finite, and their not-available codes.
- The rate of turn: its AIS code is an opaque integer of magnitude at most 126, or the not-available value, because a square root computes it.
- Locale: character classes are those of the C locale.
- Leap seconds: `TimeField` accepts second 60, but the true times of the midnight results have days of 24 hours.
- Dates: `parse_date`, `zda_date` and the calendar; a dated sentence carries its day number.
- ISO 8601 parsing and formatting: their sources are not part of this model; the log reader takes the parser as a parameter, so its results hold for any.
- The decoder's effect on the vessel state: replay takes `apply_sentence` as a parameter; only HDG and the time rule are modelled.
- LogFile.Readers: recorded times are whole milliseconds, so the truncating conversion of offsets is the identity.
- AisMessages.Representable: the states whose coded position fits a 32-bit integer, as `round_to` demands of its caller.
- Heading.BuildHdg: `std::format` rounds the nearest decimal of a `double`; here ties of the ideal value go to the even tenth.
- TileScheduler.TileCache: memory, disk and image decoding are one oracle per event, replies are loaded, not found or transient, and a tile key stands for its text, which is unique to it.
- Signals: they are taken to run after the step that emits them, so a slot that asks for a tile during `finish` is a later event.
- Pacing.SimulationRunner: outputs, recording, scheduling and the simulation itself, and calls before a profile is applied, which do nothing.
- The remaining sentence encoders and decoders, Signal K, ViewSync, transports, the command line and the user interface: they would only add easy members.
