/** The time field of a sentence, in milliseconds since midnight: formatting and parsing. */
module TimeField {
  import opened Basics
  import opened Wrappers
  import opened Text
  import opened Numbers

  const DAY := 86400000

  /** Two digits. */
  function TwoDigits(value: nat): string {
    Padded(value, 2)
  }

  /** The time of day in hours, minutes, seconds and hundredths, cut rather than rounded. */
  function FormatTime(time: int): string {
    var ms := time % DAY;
    TwoDigits(ms / 3600000) + TwoDigits(ms / 60000 % 60) + TwoDigits(ms / 1000 % 60) + "." + TwoDigits(ms % 1000 / 10)
  }

  /** The first three digits after the point, missing ones taken as zeros. */
  function Millis(fraction: string): (ms: nat)
    requires AllDigits(fraction)
  {
    if |fraction| == 0 then 0
    else if |fraction| == 1 then 100 * DigitValue(fraction[0])
    else if |fraction| == 2 then 100 * DigitValue(fraction[0]) + 10 * DigitValue(fraction[1])
    else 100 * DigitValue(fraction[0]) + 10 * DigitValue(fraction[1]) + DigitValue(fraction[2])
  }

  /** The loop over the first three digits, with a shrinking scale. */
  method ScanMillis(fraction: string) returns (ms: nat)
    requires AllDigits(fraction)
    ensures ms == Millis(fraction)
  {
    ms := 0;
    var scale, i := 100, 0;
    while i < |fraction| && i < 3
      invariant i <= |fraction| && i <= 3
      invariant scale == (if i == 0 then 100 else if i == 1 then 10 else if i == 2 then 1 else 0)
      invariant ms == Millis(fraction[..i])
    {
      assert fraction[..i + 1][..i] == fraction[..i];
      ms := ms + DigitValue(fraction[i]) * scale;
      scale := scale / 10;
      i := i + 1;
    }
  }

  /** The two digits of `whole` starting at `at`. */
  function Pair(whole: string, at: nat): (value: nat)
    requires at + 2 <= |whole| && AllDigits(whole)
    ensures value < 100
  {
    10 * DigitValue(whole[at]) + DigitValue(whole[at + 1])
  }

  /** Hours, minutes and seconds, second 60 allowed for a leap second; a point must be followed by digits only. */
  function ParseTimeOfDay(value: string): (ms: Option<nat>)
    ensures ms.Some? ==> ms.value < DAY + 1000
  {
    var text := Trim(value);
    var dot := IndexOf(text, '.');
    var whole := text[..dot];
    if |whole| != 6 || !AllDigits(whole) then None else
    var hours, minutes, seconds := Pair(whole, 0), Pair(whole, 2), Pair(whole, 4);
    if hours > 23 || minutes > 59 || seconds > 60 then None else
    var base := ((hours * 60 + minutes) * 60 + seconds) * 1000;
    if dot == |text| then Some(base) else
    var fraction := text[dot + 1..];
    if fraction == [] || !AllDigits(fraction) then None else
    MillisBound(fraction);
    Some(base + Millis(fraction))
  }

  lemma MillisBound(fraction: string)
    requires AllDigits(fraction)
    ensures Millis(fraction) < 1000
  {
  }

  lemma TwoDigitsRead(value: nat)
    requires value < 100
    ensures var text := TwoDigits(value);
      |text| == 2 && AllDigits(text) && Pair(text, 0) == value
  {
    var text := TwoDigits(value);
    PaddedReadsBack(value, 2);
    assert Pow10(2) == 100;
    assert DigitsValue(text) == 10 * DigitsValue(text[..1]) + DigitValue(text[1]);
    assert text[..1][..0] == [];
    assert DigitsValue(text[..1]) == DigitValue(text[0]);
  }

  lemma PairSpells(whole: string, at: nat)
    requires at + 2 <= |whole| && AllDigits(whole)
    ensures TwoDigits(Pair(whole, at)) == whole[at..at + 2]
  {
    var value := Pair(whole, at);
    assert Zeros(1) == "0" by {
      assert Zeros(0) == "";
    }
    if value < 10 {
      assert Decimal(value) == [whole[at + 1]];
    } else {
      assert Decimal(value) == Decimal(value / 10) + [Digit(value % 10)];
    }
  }

  /** The fraction is read in thousandths: its first three digits, zeros for those missing. */
  lemma MillisMeans(fraction: string)
    requires AllDigits(fraction)
    ensures |fraction| == 0 ==> Millis(fraction) == 0
    ensures |fraction| == 1 ==> Millis(fraction) == 100 * DigitsValue(fraction)
    ensures |fraction| == 2 ==> Millis(fraction) == 10 * DigitsValue(fraction)
    ensures |fraction| >= 3 ==> Millis(fraction) == DigitsValue(fraction[..3])
  {
    if |fraction| >= 3 {
      assert fraction[..3][..2] == fraction[..2] && fraction[..2][..1] == fraction[..1];
    }
    if |fraction| >= 1 {
      assert fraction[..1][..0] == "";
    }
    if |fraction| >= 2 {
      assert fraction[..2][..1] == fraction[..1];
    }
    if |fraction| == 2 {
      assert fraction[..2] == fraction;
    }
    if |fraction| == 1 {
      assert fraction[..1] == fraction;
    }
  }

  /** The text spells a time of day: two digits each of hours, minutes and seconds, and an optional fraction. */
  ghost predicate Spells(text: string, ms: int, hours: nat, minutes: nat, seconds: nat, fraction: string) {
    && hours <= 23 && minutes <= 59 && seconds <= 60 && AllDigits(fraction)
    && text == TwoDigits(hours) + TwoDigits(minutes) + TwoDigits(seconds) + (if fraction == "" then "" else "." + fraction)
    && ms == ((hours * 60 + minutes) * 60 + seconds) * 1000 + Millis(fraction)
  }

  /** Exactly the texts that spell a time of day are accepted, as the time they spell. */
  lemma ParseTimeOfDayMeans(value: string, ms: nat)
    ensures ParseTimeOfDay(value) == Some(ms) <==>
      exists hours, minutes, seconds, fraction :: Spells(Trim(value), ms, hours, minutes, seconds, fraction)
  {
    hide Trim, Spells;
    if ParseTimeOfDay(value) == Some(ms) {
      AcceptedTimeSpells(value, ms);
    }
    forall hours, minutes, seconds, fraction | Spells(Trim(value), ms, hours, minutes, seconds, fraction)
      ensures ParseTimeOfDay(value) == Some(ms)
    {
      SpelledTimeIsAccepted(value, ms, hours, minutes, seconds, fraction);
    }
  }

  lemma AcceptedTimeSpells(value: string, ms: nat)
    requires ParseTimeOfDay(value) == Some(ms)
    ensures exists hours, minutes, seconds, fraction :: Spells(Trim(value), ms, hours, minutes, seconds, fraction)
  {
    hide Trim, TwoDigits, IndexOf;
    var text := Trim(value);
    var dot := IndexOf(text, '.');
    IndexOfFinds(text, '.');
    var whole, fraction := text[..dot], if dot == |text| then "" else text[dot + 1..];
    PairSpells(whole, 0);
    PairSpells(whole, 2);
    PairSpells(whole, 4);
    assert whole == whole[0..2] + whole[2..4] + whole[4..6];
    assert text == whole + if dot == |text| then "" else "." + fraction;
    assert Spells(text, ms, Pair(whole, 0), Pair(whole, 2), Pair(whole, 4), fraction);
  }

  lemma SpelledTimeIsAccepted(value: string, ms: nat, hours: nat, minutes: nat, seconds: nat, fraction: string)
    requires Spells(Trim(value), ms, hours, minutes, seconds, fraction)
    ensures ParseTimeOfDay(value) == Some(ms)
  {
    hide Trim, TwoDigits, IndexOf;
    TwoDigitsRead(hours);
    TwoDigitsRead(minutes);
    TwoDigitsRead(seconds);
    var text, whole := Trim(value), TwoDigits(hours) + TwoDigits(minutes) + TwoDigits(seconds);
    IndexOfIs(text, '.', 6);
    assert text[..6] == whole;
    assert Pair(whole, 0) == hours && Pair(whole, 2) == minutes && Pair(whole, 4) == seconds;
    if fraction != "" {
      assert text[7..] == fraction;
    }
  }

  /** A formatted time of day parses to itself, cut to the hundredth of a second. */
  lemma FormattedTimeReads(time: int)
    ensures ParseTimeOfDay(FormatTime(time)) == Some(time % DAY - time % 10)
  {
    hide TwoDigits, Trim, IndexOf;
    var ms := time % DAY;
    var h, m, s, c := ms / 3600000, ms / 60000 % 60, ms / 1000 % 60, ms % 1000 / 10;
    TwoDigitsRead(h);
    TwoDigitsRead(m);
    TwoDigitsRead(s);
    TwoDigitsRead(c);
    var text, whole := FormatTime(time), TwoDigits(h) + TwoDigits(m) + TwoDigits(s);
    assert text == whole + "." + TwoDigits(c);
    FormattedSplits(whole, TwoDigits(c));
    assert Pair(whole, 0) == h && Pair(whole, 2) == m && Pair(whole, 4) == s;
    assert Millis(TwoDigits(c)) == 10 * c;
    TimeParts(time);
  }

  lemma FormattedSplits(whole: string, fraction: string)
    requires |whole| == 6 && AllDigits(whole) && |fraction| == 2 && AllDigits(fraction)
    ensures var text := whole + "." + fraction;
      && Trim(text) == text && IndexOf(text, '.') == 6
      && text[..6] == whole && text[7..] == fraction
  {
    var text := whole + "." + fraction;
    IndexOfIs(text, '.', 6);
    TrimFixes(text);
  }

  lemma TimeParts(time: int)
    ensures var ms := time % DAY;
      ((ms / 3600000 * 60 + ms / 60000 % 60) * 60 + ms / 1000 % 60) * 1000 + 10 * (ms % 1000 / 10) == ms - time % 10
  {
    var ms := time % DAY;
    assert time % 10 == ms % 1000 % 10 by {
      TensOfDay(time);
    }
    WholeSeconds(ms);
    SecondsSplit(ms / 1000);
  }

  lemma TensOfDay(time: int)
    ensures time % 10 == time % DAY % 1000 % 10
  {
    var days, ms := time / DAY, time % DAY;
    DivisionIsUnique(time, 10, DAY / 10 * days + ms / 1000 * 100 + ms % 1000 / 10, ms % 1000 % 10);
  }

  lemma WholeSeconds(ms: nat)
    ensures ms / 3600000 == ms / 1000 / 3600 && ms / 60000 == ms / 1000 / 60
  {
    var s := ms / 1000;
    DivisionIsUnique(ms, 3600000, s / 3600, s % 3600 * 1000 + ms % 1000);
    DivisionIsUnique(ms, 60000, s / 60, s % 60 * 1000 + ms % 1000);
  }

  lemma SecondsSplit(s: nat)
    ensures (s / 3600 * 60 + s / 60 % 60) * 60 + s % 60 == s
  {
    DivisionIsUnique(s, 3600, s / 60 / 60, s / 60 % 60 * 60 + s % 60);
  }
}

/** The date a time of day belongs to: the rule of the log reader and the rule of the decoder. */
module SentenceClock {
  import opened Basics
  import opened Wrappers
  import opened TimeField

  const HALF_DAY := 43200000

  /** What the log reader carries along: the latest time of day and the offset it stands for. */
  datatype Reader = Reader(latest: Option<int>, offset: int)

  /** The log reader's rule for one sentence, with its time of day if it carries one. */
  function Read(r: Reader, seen: Option<int>): Reader {
    if seen.None? then r
    else if r.latest.None? then r.(latest := seen)
    else
      var step := seen.value - r.latest.value;
      var delta := if step < -HALF_DAY then step + DAY else step;
      if delta > 0 then Reader(seen, r.offset + delta) else r
  }

  function Offsets(r: Reader, seen: seq<Option<int>>): (offsets: seq<int>)
    ensures |offsets| == |seen|
    decreases |seen|
  {
    if seen == [] then [] else [Read(r, seen[0]).offset] + Offsets(Read(r, seen[0]), seen[1..])
  }

  /** The decoder's rule: a time of day, with the day it carries if it carries a valid one. */
  function ApplyTime(state: int, sinceMidnight: int, date: Option<int>): int {
    if date.Some? then date.value * DAY + sinceMidnight else
    var time := state / DAY * DAY + sinceMidnight;
    if time < state - HALF_DAY then time + DAY else time
  }

  /** The time of the vessel state, which the decoder sets from each sentence that carries one. */
  class VesselClock {
    var timeUtc: int

    method Apply(sinceMidnight: int, date: Option<int>)
      modifies this
      ensures timeUtc == ApplyTime(old(timeUtc), sinceMidnight, date)
    {
      if date.Some? {
        timeUtc := date.value * DAY + sinceMidnight;
        return;
      }
      var time := timeUtc / DAY * DAY + sinceMidnight;
      if time < timeUtc - HALF_DAY {
        time := time + DAY;
      }
      timeUtc := time;
    }
  }

  /** The decoder's clock after each sentence, none of them dated. */
  function Clock(state: int, seen: seq<Option<int>>): (times: seq<int>)
    ensures |times| == |seen|
    decreases |seen|
  {
    if seen == [] then [] else
    var next := if seen[0].Some? then ApplyTime(state, seen[0].value, None) else state;
    [next] + Clock(next, seen[1..])
  }

  // The true times, of which only the times of day are seen

  function TimesOfDay(times: seq<Option<int>>): (seen: seq<Option<int>>)
    ensures |seen| == |times|
  {
    if times == [] then [] else
    [if times[0].Some? then Some(times[0].value % DAY) else None] + TimesOfDay(times[1..])
  }

  function Now(last: int, time: Option<int>): int {
    if time.Some? then time.value else last
  }

  /** The true time at each sentence: its own, or the last one before it. */
  function TrueTimes(last: int, times: seq<Option<int>>): (now: seq<int>)
    ensures |now| == |times|
    decreases |times|
  {
    if times == [] then [] else [Now(last, times[0])] + TrueTimes(Now(last, times[0]), times[1..])
  }

  function Since(origin: int, times: seq<int>): (elapsed: seq<int>)
    ensures |elapsed| == |times|
    decreases |times|
  {
    if times == [] then [] else [times[0] - origin] + Since(origin, times[1..])
  }

  predicate Ordered(last: int, times: seq<Option<int>>)
    decreases |times|
  {
    times == [] || (last <= Now(last, times[0]) && Ordered(Now(last, times[0]), times[1..]))
  }

  /** The two times fall on one day, or on consecutive days less than twelve hours apart. */
  predicate Visible(before: int, after: int) {
    after / DAY == before / DAY || (after / DAY == before / DAY + 1 && after - before < HALF_DAY)
  }

  predicate AllVisible(last: int, times: seq<Option<int>>)
    decreases |times|
  {
    times == [] || (Visible(last, Now(last, times[0])) && AllVisible(Now(last, times[0]), times[1..]))
  }

  /** No twelve hours pass between two times seen. */
  predicate Close(last: int, times: seq<Option<int>>)
    decreases |times|
  {
    times == [] || (Now(last, times[0]) - last < HALF_DAY && Close(Now(last, times[0]), times[1..]))
  }

  // One step

  lemma Days(before: int, after: int)
    ensures before == before / DAY * DAY + before % DAY && 0 <= before % DAY < DAY
    ensures after == after / DAY * DAY + after % DAY && 0 <= after % DAY < DAY
  {
  }

  /** The log reader sees exactly the time between two sentences if and only if it is visible. */
  lemma ReadIsExact(before: int, after: int, offset: int)
    requires before <= after
    ensures Read(Reader(Some(before % DAY), offset), Some(after % DAY))
         == Reader(Some(after % DAY), offset + after - before)
       <==> Visible(before, after)
    ensures Read(Reader(Some(before % DAY), offset), Some(after % DAY)).offset == offset + after - before
       <==> Visible(before, after)
  {
    Days(before, after);
  }

  /** The decoder, set to the one time, is set to the other under the same condition. */
  lemma ApplyTimeIsExact(before: int, after: int)
    requires before <= after
    ensures ApplyTime(before, after % DAY, None) == after <==> Visible(before, after)
  {
    Days(before, after);
  }

  /** A dated sentence sets the clock whatever it was. */
  lemma DatedTimeIsExact(state: int, after: int)
    ensures ApplyTime(state, after % DAY, Some(after / DAY)) == after
  {
    Days(state, after);
  }

  // Whole recordings

  lemma {:induction false} OffsetsAreExact(origin: int, last: int, times: seq<Option<int>>)
    requires Ordered(last, times)
    ensures Offsets(Reader(Some(last % DAY), last - origin), TimesOfDay(times)) == Since(origin, TrueTimes(last, times))
       <==> AllVisible(last, times)
    decreases |times|
  {
    hide Visible, Read;
    if times != [] {
      var now := Now(last, times[0]);
      var r := Reader(Some(last % DAY), last - origin);
      var seen := TimesOfDay(times);
      assert seen[1..] == TimesOfDay(times[1..]);
      ReadShown(r, last, origin, times[0]);
      OffsetsAreExact(origin, now, times[1..]);
      var next := Read(r, seen[0]);
      Heads(next.offset, Offsets(next, seen[1..]), now - origin, Since(origin, TrueTimes(now, times[1..])));
      assert TrueTimes(last, times)[1..] == TrueTimes(now, times[1..]);
    }
  }

  lemma ReadShown(r: Reader, last: int, origin: int, time: Option<int>)
    requires r == Reader(Some(last % DAY), last - origin) && last <= Now(last, time)
    ensures var next := Read(r, if time.Some? then Some(time.value % DAY) else None);
      && (next.offset == Now(last, time) - origin <==> Visible(last, Now(last, time)))
      && (Visible(last, Now(last, time)) ==> next == Reader(Some(Now(last, time) % DAY), Now(last, time) - origin))
  {
    if time.Some? {
      ReadIsExact(last, time.value, last - origin);
    }
  }

  lemma Heads<T>(x: T, xs: seq<T>, y: T, ys: seq<T>)
    ensures [x] + xs == [y] + ys <==> x == y && xs == ys
  {
    if [x] + xs == [y] + ys {
      assert x == ([x] + xs)[0] == y;
      assert xs == ([x] + xs)[1..] == ys;
    }
  }

  lemma {:induction false} ClockIsExact(last: int, times: seq<Option<int>>)
    requires Ordered(last, times)
    ensures Clock(last, TimesOfDay(times)) == TrueTimes(last, times) <==> AllVisible(last, times)
    decreases |times|
  {
    hide Visible, ApplyTime;
    if times != [] {
      var now, seen := Now(last, times[0]), TimesOfDay(times);
      assert seen[1..] == TimesOfDay(times[1..]);
      if times[0].Some? {
        ApplyTimeIsExact(last, now);
      } else {
        SameTimeIsVisible(last);
      }
      ClockIsExact(now, times[1..]);
      var next := if seen[0].Some? then ApplyTime(last, seen[0].value, None) else last;
      Heads(next, Clock(next, seen[1..]), now, TrueTimes(now, times[1..]));
    }
  }

  lemma SameTimeIsVisible(time: int)
    ensures Visible(time, time)
  {
  }

  lemma {:induction false} CloseIsVisible(last: int, times: seq<Option<int>>)
    requires Ordered(last, times) && Close(last, times)
    ensures AllVisible(last, times)
    decreases |times|
  {
    if times != [] {
      Days(last, Now(last, times[0]));
      CloseIsVisible(Now(last, times[0]), times[1..]);
    }
  }

  // Sentences before the first time

  function Silent(n: nat): (seen: seq<Option<int>>)
    ensures |seen| == n
  {
    if n == 0 then [] else [None] + Silent(n - 1)
  }

  /** Sentences before the first one with a time share its offset, zero. */
  lemma {:induction false} SilenceIsZero(n: nat, seen: seq<Option<int>>, i: nat)
    requires i < n + |seen|
    ensures Offsets(Reader(None, 0), Silent(n) + seen)[i]
         == if i < n then 0 else Offsets(Reader(None, 0), seen)[i - n]
    decreases n
  {
    if n == 0 {
      assert Silent(0) + seen == seen;
    } else {
      assert (Silent(n) + seen)[1..] == Silent(n - 1) + seen;
      if i > 0 {
        SilenceIsZero(n - 1, seen, i - 1);
      }
    }
  }

  /** The two rules agree: over any number of midnights, on recordings of which only the times of day are seen, each
      follows the true time exactly when the other does, and both do while no twelve hours pass unseen. */
  lemma RulesAgree(first: int, times: seq<Option<int>>)
    requires Ordered(first, times)
    ensures var shown := [Some(first % DAY)] + TimesOfDay(times);
      && (Offsets(Reader(None, 0), shown) == [0] + Since(first, TrueTimes(first, times)) <==> AllVisible(first, times))
      && (Clock(first, TimesOfDay(times)) == TrueTimes(first, times) <==> AllVisible(first, times))
    ensures Close(first, times) ==> AllVisible(first, times)
  {
    OffsetsAreExact(first, first, times);
    ClockIsExact(first, times);
    if Close(first, times) {
      CloseIsVisible(first, times);
    }
    var shown := [Some(first % DAY)] + TimesOfDay(times);
    assert shown[1..] == TimesOfDay(times);
    var r := Reader(Some(first % DAY), 0);
    Heads(0, Offsets(r, shown[1..]), 0, Since(first, TrueTimes(first, times)));
  }

  /** Twelve unseen hours across midnight are lost: the log reader holds, the decoder falls back a day. */
  lemma HalfDayGapIsLost()
    ensures Read(Reader(Some(18 * 3600000), 0), Some(6 * 3600000)).offset == 0
    ensures ApplyTime(18 * 3600000, 6 * 3600000, None) == 6 * 3600000
  {
  }


  // Steps back

  /** The whole rule of the log reader in one line: a step back of up to twelve hours is held, anything else moves on to
      the next time with that time of day. */
  lemma ReadMeans(latest: int, offset: int, now: int)
    requires 0 <= latest < DAY && 0 <= now < DAY
    ensures Read(Reader(Some(latest), offset), Some(now)) ==
      if 0 <= latest - now <= 12 * 3600000 then Reader(Some(latest), offset)
      else Reader(Some(now), offset + (now - latest) % 86400000)
    ensures Read(Reader(Some(latest), offset), None) == Reader(Some(latest), offset)
    ensures Read(Reader(None, offset), Some(now)) == Reader(Some(now), offset)
  {
  }

  /** A true step back of up to twelve hours is held, and no time is counted twice, exactly within one day: a step back
      across midnight is taken for most of a day forward. */
  lemma StepBackIsHeld(before: int, after: int, offset: int)
    requires after <= before && before - after <= 12 * 3600000
    ensures Read(Reader(Some(before % DAY), offset), Some(after % DAY)) == Reader(Some(before % DAY), offset)
       <==> before == after || after / DAY == before / DAY
    ensures after / DAY != before / DAY && before - after < 12 * 3600000 ==>
      Read(Reader(Some(before % DAY), offset), Some(after % DAY)) == Reader(Some(after % DAY), offset + DAY - (before - after))
  {
    Days(before, after);
  }

  /** The decoder takes a step back as sent under the same condition; across midnight it is a day ahead. */
  lemma StepBackIsTaken(before: int, after: int)
    requires after <= before && before - after <= 12 * 3600000
    ensures ApplyTime(before, after % DAY, None) == if after / DAY == before / DAY then after else after + 86400000
  {
    Days(before, after);
  }

  /** For any two times, in either order, the decoder's clock is exact if and only if they share a day and the second is
      at most twelve hours back, or it is on the next day less than twelve hours later. */
  lemma ApplyTimeIff(before: int, after: int)
    ensures ApplyTime(before, after % DAY, None) == after <==>
      || (after / DAY == before / DAY && before - after <= 12 * 3600000)
      || (after / DAY == before / DAY + 1 && after - before < 12 * 3600000)
  {
    Days(before, after);
  }
}
