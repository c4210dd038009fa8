/** The replay engine: a recorded log played against a clock, with stopping and looping ends. */
module Replay {
  import opened Wrappers
  import opened Basics
  import opened Sentence

  datatype EndBehaviour = Stop | Loop
  datatype Entry = Entry(offset: int, sentence: string)
  datatype Emitted = Emitted(id: string, text: string)

  /** Offsets never decrease. */
  predicate Sorted(entries: seq<Entry>) {
    |entries| < 2
    || (Sorted(entries[..|entries| - 1]) && entries[|entries| - 2].offset <= entries[|entries| - 1].offset)
  }

  lemma {:induction false} SortedMeans(entries: seq<Entry>)
    ensures Sorted(entries) <==> forall i, j :: 0 <= i <= j < |entries| ==> entries[i].offset <= entries[j].offset
  {
    if |entries| >= 2 {
      SortedMeans(entries[..|entries| - 1]);
    }
  }

  lemma SortedPair(entries: seq<Entry>, i: nat, j: nat)
    requires Sorted(entries) && i <= j < |entries|
    ensures entries[i].offset <= entries[j].offset
  {
    SortedMeans(entries);
  }

  /** A log, the seed state and the end behaviour; `parse` is the sentence parser and `apply` the
      decoder's effect on the state `S`. */
  datatype Config<!S> = Config(entries: seq<Entry>, seed: S, end: EndBehaviour,
                               parse: string -> Option<ParsedSentence>, apply: (ParsedSentence, S) -> S)
  {
    /** The offset of the last entry, zero for an empty log. */
    function Duration(): int {
      if entries == [] then 0 else entries[|entries| - 1].offset
    }

    /** What log reading promises: the first offset is zero and offsets never decrease. */
    predicate WellFormed() {
      Sorted(entries) && (entries != [] ==> entries[0].offset == 0)
    }

    function Emission(index: nat): Emitted
      requires index < |entries|
    {
      var text := entries[index].sentence;
      match parse(text)
      case Some(parsed) => Emitted(parsed.formatter, text)
      case None => Emitted("", text)
    }

    function Apply(index: nat, state: S): S
      requires index < |entries|
    {
      match parse(entries[index].sentence)
      case Some(parsed) => apply(parsed, state)
      case None => state
    }

    /** The seed folded over the first `count` entries. */
    function Folded(count: nat): S
      requires count <= |entries|
    {
      if count == 0 then seed else Apply(count - 1, Folded(count - 1))
    }
  }

  // The tape: the log's entries lap after lap, each lap one duration later than the one before

  /** `x` less as many whole periods as fit. */
  function Wrap(x: nat, period: nat): (rest: nat)
    requires period > 0
    ensures rest < period
  {
    if x < period then x else Wrap(x - period, period)
  }

  lemma {:induction false} WrapAbsorbs(x: nat, y: nat, period: nat)
    requires period > 0
    ensures Wrap(Wrap(x, period) + y, period) == Wrap(x + y, period)
    decreases x
  {
    if x >= period {
      WrapAbsorbs(x - period, y, period);
    }
  }

  lemma {:induction false} WrapCongruent(x: nat, later: nat, y: nat, laterY: nat, period: nat)
    requires period > 0 && Wrap(x, period) == Wrap(y, period)
    requires x <= later && later - x == laterY - y
    ensures Wrap(later, period) == Wrap(laterY, period)
    decreases x + y
  {
    if x >= period {
      WrapCongruent(x - period, later - period, y, laterY, period);
    } else if y >= period {
      WrapCongruent(x, later, y - period, laterY - period, period);
    }
  }

  /** The time at which entry `j` of the tape is played. */
  function TapeTime<S>(c: Config<S>, j: nat): int
    requires c.entries != []
    decreases j
  {
    if j < |c.entries| then c.entries[j].offset else c.Duration() + TapeTime(c, j - |c.entries|)
  }

  /** What the tape sends from index `from` up to but not including `till`. */
  function Tape<S>(c: Config<S>, from: nat, till: nat): (sent: seq<Emitted>)
    requires c.entries != [] && from <= till
    ensures |sent| == till - from
    decreases till
  {
    if from == till then [] else Tape(c, from, till - 1) + [c.Emission(Wrap(till - 1, |c.entries|))]
  }

  lemma {:induction false} TapeExtends<S>(c: Config<S>, from: nat, middle: nat, till: nat)
    requires c.entries != [] && from <= middle <= till
    ensures Tape(c, from, middle) + Tape(c, middle, till) == Tape(c, from, till)
    decreases till
  {
    if middle < till {
      TapeExtends(c, from, middle, till - 1);
      Associates(Tape(c, from, middle), Tape(c, middle, till - 1), [c.Emission(Wrap(till - 1, |c.entries|))]);
    }
  }

  /** The tape repeats: equal positions within a lap send the same from there on. */
  lemma {:induction false} TapeRepeats<S>(c: Config<S>, from: nat, till: nat, other: nat, otherTill: nat)
    requires c.entries != [] && Wrap(from, |c.entries|) == Wrap(other, |c.entries|)
    requires from <= till && till - from == otherTill - other
    ensures Tape(c, from, till) == Tape(c, other, otherTill)
    decreases till
  {
    if from < till {
      TapeRepeats(c, from, till - 1, other, otherTill - 1);
      WrapCongruent(from, till - 1, other, otherTill - 1, |c.entries|);
    }
  }

  /** The number of entries of one pass due at `time`. */
  function CountDue(entries: seq<Entry>, time: int): (count: nat)
    ensures count <= |entries|
  {
    if entries == [] || entries[|entries| - 1].offset <= time then |entries|
    else CountDue(entries[..|entries| - 1], time)
  }

  lemma {:induction false} CountDueSplits(entries: seq<Entry>, time: int)
    requires Sorted(entries)
    ensures forall i :: 0 <= i < |entries| ==> (i < CountDue(entries, time) <==> entries[i].offset <= time)
  {
    SortedMeans(entries);
    if entries != [] && entries[|entries| - 1].offset > time {
      CountDueSplits(entries[..|entries| - 1], time);
    }
  }

  /** The number of tape entries due at `time`: whole laps, then the due part of the running one. */
  function DueBy<S>(c: Config<S>, time: nat): nat
    requires c.Duration() > 0
    decreases time
  {
    if time < c.Duration() then CountDue(c.entries, time) else |c.entries| + DueBy(c, time - c.Duration())
  }

  /** Exactly the tape entries whose time has come are due. */
  lemma {:induction false} DueIsTapeTime<S>(c: Config<S>, time: nat, j: nat)
    requires c.WellFormed() && c.Duration() > 0
    ensures 0 <= TapeTime(c, j)
    ensures j < DueBy(c, time) <==> TapeTime(c, j) <= time
    decreases j + time
  {
    var n, D := |c.entries|, c.Duration();
    CountDueSplits(c.entries, time);
    if j < n {
      SortedPair(c.entries, 0, j);
      SortedPair(c.entries, j, n - 1);
    } else {
      DueIsTapeTime(c, if time < D then time else time - D, j - n);
    }
  }

  /** Where the running lap has got to is what is due in it. */
  lemma {:induction false} DueWraps<S>(c: Config<S>, time: nat)
    requires c.WellFormed() && c.Duration() > 0
    ensures Wrap(DueBy(c, time), |c.entries|) == CountDue(c.entries, Wrap(time, c.Duration()))
    decreases time
  {
    if time < c.Duration() {
      CountDueSplits(c.entries, time);
    } else {
      DueWraps(c, time - c.Duration());
    }
  }

  // The same in closed form

  lemma {:induction false} WrapIsRemainder(x: nat, period: nat)
    requires period > 0
    ensures Wrap(x, period) == x % period
    decreases x
  {
    if x < period {
      DivisionIsUnique(x, period, 0, x);
    } else {
      WrapIsRemainder(x - period, period);
      PeriodEarlier(x, period);
    }
  }

  /** Entry `j` of the tape is entry `j % n` of the log in lap `j / n`. */
  lemma {:induction false} TapeTimeClosed<S>(c: Config<S>, j: nat)
    requires c.entries != []
    ensures TapeTime(c, j) == (j / |c.entries|) * c.Duration() + c.entries[j % |c.entries|].offset
    decreases j
  {
    var n := |c.entries|;
    if j < n {
      DivisionIsUnique(j, n, 0, j);
    } else {
      TapeTimeClosed(c, j - n);
      PeriodEarlier(j, n);
      var lap := (j - n) / n;
      assert (lap + 1) * c.Duration() == lap * c.Duration() + c.Duration();
    }
  }

  lemma {:induction false} DueByClosed<S>(c: Config<S>, time: nat)
    requires c.Duration() > 0
    ensures DueBy(c, time) == (time / c.Duration()) * |c.entries| + CountDue(c.entries, time % c.Duration())
    decreases time
  {
    var D := c.Duration();
    if time < D {
      DivisionIsUnique(time, D, 0, time);
    } else {
      DueByClosed(c, time - D);
      PeriodEarlier(time, D);
      var lap := (time - D) / D;
      assert (lap + 1) * |c.entries| == lap * |c.entries| + |c.entries|;
    }
  }

  lemma {:induction false} TapeAt<S>(c: Config<S>, from: nat, till: nat, k: nat)
    requires c.entries != [] && from + k < till
    ensures Tape(c, from, till)[k] == c.Emission((from + k) % |c.entries|)
    decreases till
  {
    if from + k < till - 1 {
      TapeAt(c, from, till - 1, k);
    } else {
      WrapIsRemainder(from + k, |c.entries|);
    }
  }

  // The replay's position and what each operation makes of it

  datatype Position<S> = Position(clock: int, cursor: nat, state: S, pending: seq<Emitted>, finished: bool)

  /** What is before the cursor is due at `clock`, and what was due earlier is before the cursor. */
  ghost predicate Between(entries: seq<Entry>, cursor: nat, clock: int) {
    CountDue(entries, clock - 1) <= cursor <= CountDue(entries, clock)
  }

  lemma BetweenMeans(entries: seq<Entry>, cursor: nat, clock: int)
    requires Sorted(entries) && cursor <= |entries|
    ensures Between(entries, cursor, clock) <==>
      && (forall i :: 0 <= i < cursor ==> entries[i].offset <= clock)
      && (forall i :: cursor <= i < |entries| ==> clock <= entries[i].offset)
  {
    CountDueSplits(entries, clock);
    CountDueSplits(entries, clock - 1);
    var early, due := CountDue(entries, clock - 1), CountDue(entries, clock);
    assert due < cursor ==> entries[due].offset > clock;
    assert early > cursor ==> entries[cursor].offset < clock;
  }

  lemma CountDueMonotonic(entries: seq<Entry>, early: int, late: int)
    requires Sorted(entries) && early <= late
    ensures CountDue(entries, early) <= CountDue(entries, late)
  {
    CountDueSplits(entries, early);
    CountDueSplits(entries, late);
    var n := CountDue(entries, late);
    assert n < |entries| ==> entries[n].offset > late;
  }

  /** Everything before the cursor has been played, nothing after it is overdue, and the state is
      the fold of the entries played in this pass. */
  ghost predicate Inv<S>(c: Config<S>, p: Position<S>) {
    && p.cursor <= |c.entries| && 0 <= p.clock <= c.Duration()
    && p.state == c.Folded(p.cursor)
    && Between(c.entries, p.cursor, p.clock)
    && (p.finished <==> c.entries == [] || (c.end.Stop? && p.cursor == |c.entries|))
  }

  function Start<S>(c: Config<S>): Position<S> {
    Position(0, 0, c.seed, [], c.entries == [])
  }

  /** A position inside the loop of `Advance`: the clock may be past the end of the pass. */
  ghost predicate OnPass<S>(c: Config<S>, q: Position<S>) {
    && c.entries != [] && !q.finished && 0 <= q.clock
    && q.cursor <= CountDue(c.entries, q.clock) && q.state == c.Folded(q.cursor)
  }

  ghost function PlayedDue<S>(c: Config<S>, q: Position<S>): Position<S>
    requires OnPass(c, q)
  {
    var due := CountDue(c.entries, q.clock);
    q.(cursor := due, state := c.Folded(due), pending := q.pending + Tape(c, q.cursor, due))
  }

  /** Where a looping log with a duration gets to: the tape up to what is due. */
  ghost function Landing<S>(c: Config<S>, from: nat, before: seq<Emitted>, time: nat): Position<S>
    requires c.Duration() > 0 && from <= DueBy(c, time)
  {
    var due := DueBy(c, time);
    var cursor := Wrap(due, |c.entries|);
    Position(Wrap(time, c.Duration()), cursor, c.Folded(cursor), before + Tape(c, from, due), false)
  }

  /** Where a stopping log gets to: what is due of the one pass, the clock held at its end. */
  ghost function Halting<S>(c: Config<S>, from: nat, before: seq<Emitted>, time: nat): Position<S>
    requires c.entries != [] && from <= CountDue(c.entries, time)
  {
    var due, D := CountDue(c.entries, time), c.Duration();
    Position(if time < D then time else D, due, c.Folded(due), before + Tape(c, from, due), due == |c.entries|)
  }

  lemma CursorIsDue<S>(c: Config<S>, p: Position<S>, time: nat)
    requires c.WellFormed() && Inv(c, p) && c.entries != [] && time >= p.clock
    ensures p.cursor <= CountDue(c.entries, time)
    ensures c.Duration() > 0 ==> p.cursor <= DueBy(c, time)
  {
    CountDueMonotonic(c.entries, p.clock, time);
  }

  /** Advancing plays the tape on from the cursor to what is due at the new time. A looping log
      without duration finishes its pass instead and rewinds. */
  ghost function Advanced<S>(c: Config<S>, p: Position<S>, dt: nat): Position<S>
    requires c.WellFormed() && Inv(c, p)
  {
    var time, D := p.clock + dt, c.Duration();
    if p.finished then p
    else if c.end.Stop? then
      CursorIsDue(c, p, time);
      Halting(c, p.cursor, p.pending, time)
    else if D > 0 then
      CursorIsDue(c, p, time);
      Landing(c, p.cursor, p.pending, time)
    else
      Position(0, 0, c.seed, p.pending + Tape(c, p.cursor, |c.entries|), false)
  }

  lemma DueIsBetween<S>(c: Config<S>, time: nat)
    requires c.WellFormed()
    ensures Between(c.entries, CountDue(c.entries, time), if time < c.Duration() then time else c.Duration())
    ensures c.entries != [] ==> (CountDue(c.entries, time) == |c.entries| <==> c.Duration() <= time)
    ensures 0 <= c.Duration() && Between(c.entries, 0, 0)
  {
    var clock := if time < c.Duration() then time else c.Duration();
    DurationIsNatural(c);
    CountDueMonotonic(c.entries, clock - 1, time);
    CountDueSplits(c.entries, -1);
  }

  lemma AdvancedKeepsInv<S>(c: Config<S>, p: Position<S>, dt: nat)
    requires c.WellFormed() && Inv(c, p)
    ensures Inv(c, Advanced(c, p, dt))
  {
    var time, D := p.clock + dt, c.Duration();
    if p.finished {
    } else if c.end.Stop? {
      DueIsBetween(c, time);
    } else if D > 0 {
      DueIsBetween(c, Wrap(time, D));
      DueWraps(c, time);
    } else {
      DueIsBetween(c, 0);
    }
  }

  /** A step plays exactly the next entry and moves the clock to it. */
  ghost function Stepped<S>(c: Config<S>, p: Position<S>): Position<S>
    requires c.WellFormed() && Inv(c, p)
  {
    var n := |c.entries|;
    if n == 0 || (p.cursor == n && c.end.Stop?) then p else
    var next := if p.cursor == n then 0 else p.cursor;
    Position(c.entries[next].offset, next + 1, c.Folded(next + 1), p.pending + [c.Emission(next)],
             c.end.Stop? && next + 1 == n)
  }

  lemma DurationIsNatural<S>(c: Config<S>)
    requires c.WellFormed()
    ensures c.Duration() >= 0
  {
    if c.entries != [] {
      SortedPair(c.entries, 0, |c.entries| - 1);
    }
  }

  /** Seeking counts everything due at the clamped time as played, sends nothing and drops the queue. */
  ghost function Sought<S>(c: Config<S>, to: int): Position<S>
    requires c.WellFormed()
  {
    DurationIsNatural(c);
    var clock := Clamp(to, 0, c.Duration());
    var due := CountDue(c.entries, clock);
    Position(clock, due, c.Folded(due), [], c.entries == [] || (due == |c.entries| && c.end.Stop?))
  }

  lemma SteppedKeepsInv<S>(c: Config<S>, p: Position<S>)
    requires c.WellFormed() && Inv(c, p)
    ensures Inv(c, Stepped(c, p))
  {
    SortedMeans(c.entries);
    var q := Stepped(c, p);
    BetweenMeans(c.entries, q.cursor, q.clock);
  }

  lemma SoughtKeepsInv<S>(c: Config<S>, to: int)
    requires c.WellFormed()
    ensures Inv(c, Sought(c, to))
  {
    DurationIsNatural(c);
    DueIsBetween(c, Clamp(to, 0, c.Duration()));
  }

  // The state machine of the source, proved against the closed forms above

  class ReplaySource<S> {
    const config: Config<S>
    var clock: int
    var cursor: nat
    var state: S
    var pending: seq<Emitted>
    var finished: bool

    ghost function View(): Position<S>
      reads this
    {
      Position(clock, cursor, state, pending, finished)
    }

    ghost predicate Valid()
      reads this
    {
      config.WellFormed() && Inv(config, View())
    }

    constructor (config: Config<S>)
      requires config.WellFormed()
      ensures this.config == config && Valid() && View() == Start(config)
    {
      this.config := config;
      clock, cursor, state, pending, finished := 0, 0, config.seed, [], config.entries == [];
      new;
      DueIsBetween(config, 0);
    }

    method EmitEntry(index: nat)
      requires index < |config.entries|
      modifies this`state, this`pending
      ensures state == config.Apply(index, old(state))
      ensures pending == old(pending) + [config.Emission(index)]
    {
      var text := config.entries[index].sentence;
      var parsed := config.parse(text);
      match parsed {
        case Some(sentence) =>
          state := config.apply(sentence, state);
          pending := pending + [Emitted(sentence.formatter, text)];
        case None =>
          pending := pending + [Emitted("", text)];
      }
    }

    method Rewind()
      modifies this`cursor, this`state
      ensures cursor == 0 && state == config.Folded(0)
    {
      cursor := 0;
      state := config.seed;
    }

    /** The inner loop: plays the entries of the current pass that are due. */
    method PlayDue()
      requires config.WellFormed() && OnPass(config, View())
      modifies this`cursor, this`state, this`pending
      ensures View() == PlayedDue(config, old(View()))
    {
      ghost var q := View();
      CountDueSplits(config.entries, clock);
      while cursor < |config.entries| && config.entries[cursor].offset <= clock
        invariant q.cursor <= cursor <= |config.entries| && state == config.Folded(cursor)
        invariant cursor <= CountDue(config.entries, clock)
        invariant pending == q.pending + Tape(config, q.cursor, cursor)
      {
        EmitEntry(cursor);
        cursor := cursor + 1;
      }
    }

    method Advance(dt: nat)
      requires Valid()
      modifies this
      ensures Valid() && View() == Advanced(config, old(View()), dt)
    {
      if finished || config.entries == [] {
        return;
      }
      AdvancedIsRemaining(config, View(), dt);
      clock := clock + dt;
      PlayPasses();
    }

    /** The outer loop: pass after pass until the clock is inside one, or the log ends. */
    method PlayPasses()
      requires config.WellFormed() && OnPass(config, View())
      modifies this
      ensures View() == Remaining(config, old(View()))
    {
      while true
        invariant OnPass(config, View())
        invariant Remaining(config, View()) == Remaining(config, old(View()))
        decreases clock
      {
        ghost var before := View();
        PlayDue();
        if cursor < |config.entries| {
          return;
        }
        if config.end.Loop? && config.Duration() > 0 {
          clock := clock - config.Duration();
          Rewind();
          assert View() == NextPass(config, before);
          continue;
        }
        if config.end.Loop? {
          clock := 0;
          Rewind();
        } else {
          clock := config.Duration();
          finished := true;
        }
        return;
      }
    }

    method StepOnce()
      requires Valid()
      modifies this
      ensures Valid() && View() == Stepped(config, old(View()))
    {
      if config.entries == [] {
        return;
      }
      SteppedKeepsInv(config, View());
      if cursor >= |config.entries| {
        if !config.end.Loop? {
          finished := true;
          return;
        }
        Rewind();
      }
      finished := false;
      clock := config.entries[cursor].offset;
      EmitEntry(cursor);
      cursor := cursor + 1;
      if cursor >= |config.entries| && config.end.Stop? {
        finished := true;
      }
    }

    method TakeSentences() returns (sentences: seq<Emitted>)
      requires Valid()
      modifies this`pending
      ensures Valid() && sentences == old(pending) && View() == old(View()).(pending := [])
    {
      sentences := pending;
      pending := [];
    }

    method Reset()
      requires config.WellFormed()
      modifies this
      ensures Valid() && View() == Start(config)
    {
      DueIsBetween(config, 0);
      clock := 0;
      finished := config.entries == [];
      pending := [];
      Rewind();
    }

    method Seek(position: int)
      requires config.WellFormed()
      modifies this
      ensures Valid() && View() == Sought(config, position)
    {
      SoughtKeepsInv(config, position);
      clock := Clamp(position, 0, config.Duration());
      pending := [];
      Rewind();
      CountDueSplits(config.entries, clock);
      while cursor < |config.entries| && config.entries[cursor].offset <= clock
        invariant clock == Clamp(position, 0, config.Duration()) && pending == []
        invariant cursor <= CountDue(config.entries, clock) && state == config.Folded(cursor)
      {
        match config.parse(config.entries[cursor].sentence) {
          case Some(sentence) => state := config.apply(sentence, state);
          case None =>
        }
        cursor := cursor + 1;
      }
      finished := config.entries == [] || (cursor >= |config.entries| && config.end.Stop?);
    }

    /** The clock never runs past the log between operations, so the position is the clock itself. */
    method PositionNow() returns (position: int)
      requires Valid()
      ensures position == clock && 0 <= position <= config.Duration()
    {
      position := if config.Duration() < clock then config.Duration() else clock;
    }
  }

  /** What is left of `Advance` from inside its loop, pass by pass. */
  ghost function Remaining<S>(c: Config<S>, q: Position<S>): Position<S>
    requires OnPass(c, q)
    decreases q.clock
  {
    var played := PlayedDue(c, q);
    if played.cursor < |c.entries| then played
    else if c.end.Loop? && 0 < c.Duration() <= q.clock then
      Remaining(c, NextPass(c, q))
    else if c.end.Loop? then played.(clock := 0, cursor := 0, state := c.seed)
    else played.(clock := c.Duration(), finished := true)
  }

  ghost function NextPass<S>(c: Config<S>, q: Position<S>): Position<S>
    requires OnPass(c, q)
  {
    PlayedDue(c, q).(clock := q.clock - c.Duration(), cursor := 0, state := c.seed)
  }

  lemma NextPassIsOnPass<S>(c: Config<S>, q: Position<S>)
    requires c.WellFormed() && OnPass(c, q) && 0 < c.Duration() <= q.clock
    ensures OnPass(c, NextPass(c, q))
  {
  }

  /** Rewinding takes a whole duration off the clock and a whole lap off the tape. */
  lemma LandingOfNextPass<S>(c: Config<S>, q: Position<S>)
    requires c.WellFormed() && OnPass(c, q) && 0 < c.Duration() <= q.clock
    ensures q.cursor <= DueBy(c, q.clock)
    ensures Landing(c, 0, NextPass(c, q).pending, q.clock - c.Duration()) == Landing(c, q.cursor, q.pending, q.clock)
  {
    hide Config.Folded, Sorted;
    var n, rest := |c.entries|, DueBy(c, q.clock - c.Duration());
    var next := NextPass(c, q);
    assert next.pending == q.pending + Tape(c, q.cursor, n);
    TapeRepeats(c, 0, rest, n, n + rest);
    TapeExtends(c, q.cursor, n, n + rest);
    Associates(q.pending, Tape(c, q.cursor, n), Tape(c, n, n + rest));
    assert Wrap(n + rest, n) == Wrap(rest, n);
  }

  /** Pass by pass, a looping log plays the tape. */
  lemma {:induction false} RemainingIsTape<S>(c: Config<S>, q: Position<S>)
    requires c.WellFormed() && OnPass(c, q) && c.end.Loop? && c.Duration() > 0
    ensures q.cursor <= DueBy(c, q.clock) && Remaining(c, q) == Landing(c, q.cursor, q.pending, q.clock)
    decreases q.clock
  {
    if q.clock < c.Duration() {
      CountDueSplits(c.entries, q.clock);
    } else {
      NextPassIsOnPass(c, q);
      LandingOfNextPass(c, q);
      RemainingIsTape(c, NextPass(c, q));
    }
  }

  /** The loop of `Advance` ends up where the closed form says. */
  lemma AdvancedIsRemaining<S>(c: Config<S>, p: Position<S>, dt: nat)
    requires c.WellFormed() && Inv(c, p) && !p.finished
    ensures OnPass(c, p.(clock := p.clock + dt))
    ensures Advanced(c, p, dt) == Remaining(c, p.(clock := p.clock + dt))
    ensures Inv(c, Advanced(c, p, dt))
  {
    hide Sorted, DueBy, Wrap;
    AdvancedKeepsInv(c, p, dt);
    CursorIsDue(c, p, p.clock + dt);
    CountDueSplits(c.entries, p.clock + dt);
    if c.end.Loop? && c.Duration() > 0 {
      RemainingIsTape(c, p.(clock := p.clock + dt));
    }
  }
}
