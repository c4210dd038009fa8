/** What whole runs of the replay engine send: the tape, however the time is cut into ticks. */
module ReplayRuns {
  import opened Basics
  import opened Wrappers
  import opened Sentence
  import opened Replay

  /** A position reached inside a lap goes on exactly as the tape does. */
  lemma {:induction false} DueResumes<S>(c: Config<S>, time: nat, more: nat)
    requires c.WellFormed() && c.Duration() > 0
    ensures var (cursor, clock) := (Wrap(DueBy(c, time), |c.entries|), Wrap(time, c.Duration()));
      && DueBy(c, clock + more) - cursor == DueBy(c, time + more) - DueBy(c, time)
      && Wrap(DueBy(c, clock + more), |c.entries|) == Wrap(DueBy(c, time + more), |c.entries|)
    decreases time
  {
    if time < c.Duration() {
      DueIsBetween(c, time);
    } else {
      DueResumes(c, time - c.Duration(), more);
    }
  }

  /** Sending up to `due` and then on from where that leaves off in its lap is sending straight through. */
  lemma TapeResumes<S>(c: Config<S>, before: seq<Emitted>, from: nat, due: nat, cursor: nat, rest: nat, all: nat)
    requires c.entries != [] && from <= due <= all && cursor <= rest
    requires cursor == Wrap(due, |c.entries|) && rest - cursor == all - due
    ensures before + Tape(c, from, due) + Tape(c, cursor, rest) == before + Tape(c, from, all)
  {
    assert Wrap(cursor, |c.entries|) == cursor;
    TapeRepeats(c, cursor, rest, due, all);
    TapeExtends(c, from, due, all);
    Associates(before, Tape(c, from, due), Tape(c, due, all));
  }

  lemma LandingResumes<S>(c: Config<S>, from: nat, before: seq<Emitted>, time: nat, more: nat)
    requires c.WellFormed() && c.Duration() > 0
    requires from <= DueBy(c, time) && from <= DueBy(c, time + more)
    requires var q := Landing(c, from, before, time); q.cursor <= DueBy(c, q.clock + more)
    ensures var q := Landing(c, from, before, time);
      Landing(c, q.cursor, q.pending, q.clock + more) == Landing(c, from, before, time + more)
  {
    var due, all := DueBy(c, time), DueBy(c, time + more);
    var cursor, clock := Wrap(due, |c.entries|), Wrap(time, c.Duration());
    DueResumes(c, time, more);
    WrapAbsorbs(time, more, c.Duration());
    TapeResumes(c, before, from, due, cursor, DueBy(c, clock + more), all);
  }

  lemma AdvancedLands<S>(c: Config<S>, p: Position<S>, dt: nat, time: nat)
    requires c.WellFormed() && Inv(c, p) && c.end.Loop? && c.Duration() > 0 && time == p.clock + dt
    ensures p.cursor <= DueBy(c, time) && Advanced(c, p, dt) == Landing(c, p.cursor, p.pending, time)
    ensures Inv(c, Advanced(c, p, dt))
  {
    AdvancedKeepsInv(c, p, dt);
    CursorIsDue(c, p, time);
  }

  lemma LandedGoesOn<S>(c: Config<S>, from: nat, before: seq<Emitted>, time: nat, q: Position<S>, dt: nat)
    requires c.WellFormed() && Inv(c, q) && c.end.Loop? && c.Duration() > 0
    requires from <= DueBy(c, time) && from <= DueBy(c, time + dt) && q == Landing(c, from, before, time)
    ensures Advanced(c, q, dt) == Landing(c, from, before, time + dt)
  {
    AdvancedLands(c, q, dt, q.clock + dt);
    LandingResumes(c, from, before, time, dt);
  }

  lemma InvBasics<S>(c: Config<S>, p: Position<S>)
    requires c.WellFormed() && Inv(c, p)
    ensures 0 <= p.clock && (!p.finished ==> c.entries != [])
  {
  }

  lemma LoopBatches<S>(c: Config<S>, p: Position<S>, a: nat, b: nat)
    requires c.WellFormed() && Inv(c, p) && c.end.Loop? && c.Duration() > 0
    ensures Inv(c, Advanced(c, p, a))
    ensures Advanced(c, Advanced(c, p, a), b) == Advanced(c, p, a + b)
  {
    hide Landing, Inv;
    InvBasics(c, p);
    var time := p.clock + a;
    AdvancedLands(c, p, a, time);
    AdvancedLands(c, p, a + b, time + b);
    LandedGoesOn(c, p.cursor, p.pending, time, Advanced(c, p, a), b);
  }

  lemma AdvancedHalts<S>(c: Config<S>, p: Position<S>, dt: nat, time: nat)
    requires c.WellFormed() && Inv(c, p) && c.end.Stop? && !p.finished && time == p.clock + dt
    ensures p.cursor <= CountDue(c.entries, time) && Advanced(c, p, dt) == Halting(c, p.cursor, p.pending, time)
    ensures Inv(c, Advanced(c, p, dt))
  {
    AdvancedKeepsInv(c, p, dt);
    CursorIsDue(c, p, time);
  }

  lemma HaltingResumes<S>(c: Config<S>, from: nat, before: seq<Emitted>, time: nat, later: nat)
    requires c.WellFormed() && c.entries != [] && time <= later && from <= CountDue(c.entries, time)
    ensures CountDue(c.entries, time) <= CountDue(c.entries, later)
    ensures var q := Halting(c, from, before, time);
      if q.finished then Halting(c, from, before, later) == q
      else q.clock == time && Halting(c, q.cursor, q.pending, later) == Halting(c, from, before, later)
  {
    hide Config.Folded;
    var due, all := CountDue(c.entries, time), CountDue(c.entries, later);
    CountDueMonotonic(c.entries, time, later);
    DueIsBetween(c, time);
    DueIsBetween(c, later);
    TapeExtends(c, from, due, all);
    Associates(before, Tape(c, from, due), Tape(c, due, all));
  }

  lemma StopBatches<S>(c: Config<S>, p: Position<S>, a: nat, b: nat)
    requires c.WellFormed() && Inv(c, p) && c.end.Stop?
    ensures Inv(c, Advanced(c, p, a))
    ensures Advanced(c, Advanced(c, p, a), b) == Advanced(c, p, a + b)
  {
    hide Halting, Inv;
    AdvancedKeepsInv(c, p, a);
    InvBasics(c, p);
    InvBasics(c, Advanced(c, p, a));
    if !p.finished {
      var time, q := p.clock + a, Advanced(c, p, a);
      AdvancedHalts(c, p, a, time);
      AdvancedHalts(c, p, a + b, time + b);
      HaltingResumes(c, p.cursor, p.pending, time, time + b);
      if !q.finished {
        AdvancedHalts(c, q, b, time + b);
      }
    }
  }

  /** Two ticks make one, except for a looping log without duration, which plays a pass per tick. */
  lemma BatchingInvariance<S>(c: Config<S>, p: Position<S>, a: nat, b: nat)
    requires c.WellFormed() && Inv(c, p)
    ensures Inv(c, Advanced(c, p, a))
    ensures Advanced(c, Advanced(c, p, a), b) == Advanced(c, p, a + b)
       <==> c.entries == [] || c.end.Stop? || c.Duration() > 0
  {
    AdvancedKeepsInv(c, p, a);
    if c.end.Stop? {
      StopBatches(c, p, a, b);
    } else if c.entries != [] && c.Duration() > 0 {
      LoopBatches(c, p, a, b);
    } else if c.entries != [] {
      DurationIsNatural(c);
      assert |Advanced(c, Advanced(c, p, a), b).pending| == |Advanced(c, p, a).pending| + |c.entries|;
    }
  }

  ghost function Run<S>(c: Config<S>, p: Position<S>, ticks: seq<nat>): Position<S>
    requires c.WellFormed() && Inv(c, p)
    decreases |ticks|
  {
    if ticks == [] then p else
      AdvancedKeepsInv(c, p, ticks[0]);
      Run(c, Advanced(c, p, ticks[0]), ticks[1..])
  }

  function Sum(ticks: seq<nat>): nat {
    if ticks == [] then 0 else ticks[0] + Sum(ticks[1..])
  }

  /** However the time is cut into ticks, a run is one advance by their sum. */
  lemma {:induction false} RunIsOneAdvance<S>(c: Config<S>, p: Position<S>, ticks: seq<nat>)
    requires c.WellFormed() && Inv(c, p) && ticks != []
    requires c.entries == [] || c.end.Stop? || c.Duration() > 0
    ensures Run(c, p, ticks) == Advanced(c, p, Sum(ticks))
    decreases |ticks|
  {
    hide Advanced, Inv;
    AdvancedKeepsInv(c, p, ticks[0]);
    if |ticks| > 1 {
      RunIsOneAdvance(c, Advanced(c, p, ticks[0]), ticks[1..]);
      BatchingInvariance(c, p, ticks[0], Sum(ticks[1..]));
    }
  }

  lemma StartIsValid<S>(c: Config<S>)
    requires c.WellFormed()
    ensures Inv(c, Start(c))
  {
    DueIsBetween(c, 0);
  }

  /** What is due on the tape at `time`, in closed form. */
  lemma {:induction false} TapeSent<S>(c: Config<S>, time: nat)
    requires c.WellFormed() && c.Duration() > 0
    ensures var (sent, n, D) := (Tape(c, 0, DueBy(c, time)), |c.entries|, c.Duration());
      && |sent| == (time / D) * n + CountDue(c.entries, time % D)
      && (forall k :: 0 <= k < |sent| ==> sent[k] == c.Emission(k % n))
      && (forall j: nat :: j < |sent| <==> (j / n) * D + c.entries[j % n].offset <= time)
  {
    var due := DueBy(c, time);
    DueByClosed(c, time);
    forall k | 0 <= k < due ensures Tape(c, 0, due)[k] == c.Emission(k % |c.entries|) {
      TapeAt(c, 0, due, k);
    }
    forall j: nat ensures j < due <==> (j / |c.entries|) * c.Duration() + c.entries[j % |c.entries|].offset <= time {
      DueIsTapeTime(c, time, j);
      TapeTimeClosed(c, j);
    }
  }

  /** A looping run sends exactly the lap and index pairs whose time `lap * D + offset` has come, in order. */
  lemma LoopPlaysTape<S>(c: Config<S>, ticks: seq<nat>)
    requires c.WellFormed() && c.end.Loop? && c.Duration() > 0 && ticks != []
    ensures Inv(c, Start(c))
    ensures var (p, time, n, D) := (Run(c, Start(c), ticks), Sum(ticks), |c.entries|, c.Duration());
      && |p.pending| == (time / D) * n + CountDue(c.entries, time % D)
      && (forall k :: 0 <= k < |p.pending| ==> p.pending[k] == c.Emission(k % n))
      && (forall j: nat :: j < |p.pending| <==> (j / n) * D + c.entries[j % n].offset <= time)
      && p.clock == time % D && p.cursor == CountDue(c.entries, time % D) && !p.finished
  {
    StartIsValid(c);
    RunIsOneAdvance(c, Start(c), ticks);
    AdvancedLands(c, Start(c), Sum(ticks), Sum(ticks));
    TapeSent(c, Sum(ticks));
    WrapIsRemainder(Sum(ticks), c.Duration());
    DueWraps(c, Sum(ticks));
    assert Run(c, Start(c), ticks).pending == Tape(c, 0, DueBy(c, Sum(ticks)));
  }

  // A looping log without duration

  /** A log that loops although all its entries share one offset. */
  predicate LoopsAtOnce<S>(c: Config<S>) {
    c.entries != [] && c.end.Loop? && c.Duration() == 0
  }

  /** One advance plays what is left of the pass and rewinds, whatever the time. The promise that it plays the log once
      holds exactly when the cursor is at the start. */
  lemma PassPerAdvance<S>(c: Config<S>, p: Position<S>, dt: nat)
    requires c.WellFormed() && Inv(c, p) && LoopsAtOnce(c)
    ensures Advanced(c, p, dt) == Position(0, 0, c.seed, p.pending + Tape(c, p.cursor, |c.entries|), false)
    ensures Advanced(c, p, dt).pending == p.pending + Tape(c, 0, |c.entries|) <==> p.cursor == 0
  {
    assert |Tape(c, p.cursor, |c.entries|)| == |c.entries| - p.cursor;
  }

  /** The promise fails after any seek: every entry counts as played, so the next advance sends nothing. */
  lemma SeekSkipsPass<S>(c: Config<S>, to: int, dt: nat)
    requires c.WellFormed() && LoopsAtOnce(c)
    ensures Inv(c, Sought(c, to)) && Sought(c, to).cursor == |c.entries|
    ensures Advanced(c, Sought(c, to), dt).pending == []
  {
    SoughtKeepsInv(c, to);
    DueIsBetween(c, 0);
    PassPerAdvance(c, Sought(c, to), dt);
  }

  /** It fails after stepping, too: the next advance sends only the rest of the pass, nothing for a log of one entry. */
  lemma StepShortensPass<S>(c: Config<S>, p: Position<S>, dt: nat)
    requires c.WellFormed() && Inv(c, p) && LoopsAtOnce(c) && p.cursor == 0
    ensures Inv(c, Stepped(c, p))
    ensures Advanced(c, Stepped(c, p), dt).pending == p.pending + Tape(c, 0, |c.entries|)
    ensures |Advanced(c, Stepped(c, p), dt).pending| == |Stepped(c, p).pending| + |c.entries| - 1
  {
    SteppedKeepsInv(c, p);
    PassPerAdvance(c, Stepped(c, p), dt);
    assert Tape(c, 0, 0) == [];
    assert Tape(c, 0, 1) == [c.Emission(0)];
    TapeExtends(c, 0, 1, |c.entries|);
    Associates(p.pending, Tape(c, 0, 1), Tape(c, 1, |c.entries|));
  }

  /** A smallest case: one entry, sought, and nothing is sent although the log loops. */
  lemma OneEntryIsSkipped<S>(text: string, seed: S, parse: string -> Option<ParsedSentence>, apply: (ParsedSentence, S) -> S)
    ensures var c := Config([Entry(0, text)], seed, Loop, parse, apply);
      && c.WellFormed() && LoopsAtOnce(c) && Inv(c, Sought(c, 0))
      && Advanced(c, Sought(c, 0), 1000).pending == []
      && Advanced(c, Advanced(c, Sought(c, 0), 1000), 1000).pending == [c.Emission(0)]
  {
    var c := Config([Entry(0, text)], seed, Loop, parse, apply);
    SeekSkipsPass(c, 0, 1000);
    var p := Advanced(c, Sought(c, 0), 1000);
    AdvancedKeepsInv(c, Sought(c, 0), 1000);
    PassPerAdvance(c, Sought(c, 0), 1000);
    PassPerAdvance(c, p, 1000);
    assert Tape(c, 0, 0) == [];
  }

  /** Over whole runs every tick is a pass: from anywhere, the ticks send the tape on to the end of as many passes. */
  lemma {:induction false} TicksArePasses<S>(c: Config<S>, p: Position<S>, ticks: seq<nat>)
    requires c.WellFormed() && Inv(c, p) && LoopsAtOnce(c) && ticks != []
    ensures p.cursor <= |ticks| * |c.entries|
    ensures Run(c, p, ticks)
         == Position(0, 0, c.seed, p.pending + Tape(c, p.cursor, |ticks| * |c.entries|), false)
    decreases |ticks|
  {
    hide Inv, Advanced, Tape, Config.Folded, Wrap;
    WrapOfLap(|c.entries|);
    var n, q := |c.entries|, Advanced(c, p, ticks[0]);
    PassPerAdvance(c, p, ticks[0]);
    CursorInLog(c, p);
    AdvancedKeepsInv(c, p, ticks[0]);
    if |ticks| == 1 {
      assert Run(c, p, ticks) == q;
    } else {
      var later := (|ticks| - 1) * n;
      TicksArePasses(c, q, ticks[1..]);
      assert |ticks| * n == n + later;
      TapeRepeats(c, 0, later, n, n + later);
      TapeExtends(c, p.cursor, n, n + later);
      Associates(p.pending, Tape(c, p.cursor, n), Tape(c, n, n + later));
    }
  }

  lemma WrapOfLap(n: nat)
    requires n > 0
    ensures Wrap(0, n) == Wrap(n, n)
  {
  }

  lemma CursorInLog<S>(c: Config<S>, p: Position<S>)
    requires Inv(c, p)
    ensures p.cursor <= |c.entries|
  {
  }

  /** From the start, `k` ticks send the whole log `k` times, in order, whatever their lengths. */
  lemma LoopPlaysPasses<S>(c: Config<S>, p: Position<S>, ticks: seq<nat>)
    requires c.WellFormed() && Inv(c, p) && LoopsAtOnce(c) && p.cursor == 0
    ensures var (q, n) := (Run(c, p, ticks), |c.entries|);
      && |q.pending| == |p.pending| + |ticks| * n && q.cursor == 0
      && p.pending <= q.pending
      && forall k :: 0 <= k < |ticks| * n ==> q.pending[|p.pending| + k] == c.Emission(k % n)
  {
    hide Inv, Advanced;
    var n := |c.entries|;
    if ticks != [] {
      TicksArePasses(c, p, ticks);
      forall k | 0 <= k < |ticks| * n
        ensures Run(c, p, ticks).pending[|p.pending| + k] == c.Emission(k % n)
      {
        TapeAt(c, 0, |ticks| * n, k);
      }
    }
  }

  /** What is due of one pass, in closed form. */
  lemma PrefixSent<S>(c: Config<S>, time: nat)
    requires c.WellFormed() && c.entries != []
    ensures var sent := Tape(c, 0, CountDue(c.entries, time));
      && (forall i :: 0 <= i < |sent| ==> sent[i] == c.Emission(i))
      && (forall i :: 0 <= i < |c.entries| ==> (i < |sent| <==> c.entries[i].offset <= time))
  {
    hide Config.Emission, Tape;
    CountDueSplits(c.entries, time);
    var due := CountDue(c.entries, time);
    forall i | 0 <= i < due ensures Tape(c, 0, due)[i] == c.Emission(i) {
      TapeAt(c, 0, due, i);
      DivisionIsUnique(i, |c.entries|, 0, i);
    }
  }

  /** A stopping run sends exactly the entries whose offset has come, and holds at the end. */
  lemma StopPlaysPrefix<S>(c: Config<S>, ticks: seq<nat>)
    requires c.WellFormed() && c.end.Stop? && ticks != []
    ensures Inv(c, Start(c))
    ensures var (p, time, n, D) := (Run(c, Start(c), ticks), Sum(ticks), |c.entries|, c.Duration());
      && |p.pending| == p.cursor <= n
      && (forall i :: 0 <= i < |p.pending| ==> p.pending[i] == c.Emission(i))
      && (forall i :: 0 <= i < n ==> (i < |p.pending| <==> c.entries[i].offset <= time))
      && p.clock == (if time < D then time else D) && (p.finished <==> n == 0 || time >= D)
  {
    hide Config.Folded, Run, Sum, Tape, CountDue, Sorted, Between;
    var time := Sum(ticks);
    StartIsValid(c);
    RunIsOneAdvance(c, Start(c), ticks);
    DueIsBetween(c, time);
    if c.entries != [] {
      PrefixSent(c, time);
    }
  }

  ghost predicate SamePlace<S>(p: Position<S>, q: Position<S>) {
    p.clock == q.clock && p.cursor == q.cursor && p.state == q.state && p.finished == q.finished
  }

  /** Seeking is replaying from the start up to there, except to the end of a looping log. */
  lemma SeekIsReplay<S>(c: Config<S>, to: int)
    requires c.WellFormed()
    ensures Inv(c, Start(c)) && Sought(c, to).pending == []
    ensures var time := if to < 0 then 0 else to;
      SamePlace(Sought(c, to), Advanced(c, Start(c), time)) <==> c.entries == [] || c.end.Stop? || time < c.Duration()
  {
    var time, D := if to < 0 then 0 else to, c.Duration();
    StartIsValid(c);
    DurationIsNatural(c);
    DueIsBetween(c, time);
    DueIsBetween(c, Clamp(to, 0, D));
    if c.entries != [] && c.end.Loop? && D > 0 && time >= D {
      assert Advanced(c, Start(c), time).cursor < |c.entries|;
    }
  }

  // Arbitrary interleavings

  datatype Action = AdvanceBy(dt: nat) | StepOnce | Take | SeekTo(to: int) | Reset

  /** The position after an action, and the sentences it hands over. */
  ghost function Perform<S>(c: Config<S>, p: Position<S>, action: Action): (Position<S>, seq<Emitted>)
    requires c.WellFormed() && Inv(c, p)
  {
    match action
    case AdvanceBy(dt) => (Advanced(c, p, dt), [])
    case StepOnce => (Stepped(c, p), [])
    case Take => (p.(pending := []), p.pending)
    case SeekTo(to) => (Sought(c, to), [])
    case Reset => (Start(c), [])
  }

  lemma PerformKeepsInv<S>(c: Config<S>, p: Position<S>, action: Action)
    requires c.WellFormed() && Inv(c, p)
    ensures Inv(c, Perform(c, p, action).0)
  {
    match action {
      case AdvanceBy(dt) => AdvancedKeepsInv(c, p, dt);
      case StepOnce => SteppedKeepsInv(c, p);
      case Take =>
      case SeekTo(to) => SoughtKeepsInv(c, to);
      case Reset => StartIsValid(c);
    }
  }

  /** The position after a run of actions, and everything handed over during it. */
  ghost function Play<S>(c: Config<S>, p: Position<S>, actions: seq<Action>): (r: (Position<S>, seq<Emitted>))
    requires c.WellFormed() && Inv(c, p)
    ensures Inv(c, r.0)
    decreases |actions|
  {
    if actions == [] then (p, []) else
      PerformKeepsInv(c, p, actions[0]);
      var (q, taken) := Perform(c, p, actions[0]);
      var (end, later) := Play(c, q, actions[1..]);
      (end, taken + later)
  }

  /** In every run the state is the fold of the entries of the pass, the clock is between what was
      played and what was not, and `finished` means an empty log or the end of a stopping one. */
  lemma EveryRunKeepsInv<S>(c: Config<S>, actions: seq<Action>)
    requires c.WellFormed()
    ensures Inv(c, Start(c))
    ensures var p := Play(c, Start(c), actions).0;
      && p.state == c.Folded(p.cursor) && 0 <= p.clock <= c.Duration()
      && (forall i :: 0 <= i < p.cursor ==> c.entries[i].offset <= p.clock)
      && (forall i :: p.cursor <= i < |c.entries| ==> p.clock <= c.entries[i].offset)
      && (p.finished <==> c.entries == [] || (c.end.Stop? && p.cursor == |c.entries|))
  {
    StartIsValid(c);
    var p := Play(c, Start(c), actions).0;
    BetweenMeans(c.entries, p.cursor, p.clock);
  }

  /** `sent` is the tape from its beginning, and the cursor is where it leaves off. */
  ghost predicate OnTape<S>(c: Config<S>, sent: seq<Emitted>, cursor: nat)
    requires c.entries != []
  {
    && sent == Tape(c, 0, |sent|)
    && Wrap(|sent|, |c.entries|) == Wrap(cursor, |c.entries|)
    && (c.end.Stop? ==> |sent| == cursor)
  }

  /** Sending on from the cursor stays on the tape. */
  lemma {:induction false} TapeGoesOn<S>(c: Config<S>, sent: seq<Emitted>, cursor: nat, till: nat, next: nat)
    requires c.entries != [] && OnTape(c, sent, cursor) && cursor <= till
    requires Wrap(till, |c.entries|) == Wrap(next, |c.entries|)
    requires c.end.Stop? ==> till == next
    ensures OnTape(c, sent + Tape(c, cursor, till), next)
  {
    var all := |sent| + (till - cursor);
    WrapCongruent(|sent|, all, cursor, till, |c.entries|);
    TapeRepeats(c, cursor, till, |sent|, all);
    TapeExtends(c, 0, |sent|, all);
  }

  lemma PerformStaysOnTape<S>(c: Config<S>, p: Position<S>, action: Action, before: seq<Emitted>)
    requires c.WellFormed() && Inv(c, p) && c.entries != []
    requires !action.SeekTo? && !action.Reset?
    requires OnTape(c, before + p.pending, p.cursor)
    ensures var (q, taken) := Perform(c, p, action); OnTape(c, before + taken + q.pending, q.cursor)
  {
    var q := Perform(c, p, action).0;
    if action.Take? {
      assert before + p.pending + [] == before + p.pending;
    } else {
      var till := PlayedTill(c, p, action);
      TapeGoesOn(c, before + p.pending, p.cursor, till, q.cursor);
      Associates(before, p.pending, Tape(c, p.cursor, till));
      assert before + [] == before;
    }
  }

  /** A tick and a step send the tape on from the cursor, and move the cursor with it. */
  lemma PlayedTill<S>(c: Config<S>, p: Position<S>, action: Action) returns (till: nat)
    requires c.WellFormed() && Inv(c, p) && c.entries != []
    requires action.AdvanceBy? || action.StepOnce?
    ensures var q := Perform(c, p, action).0;
      && p.cursor <= till && q.pending == p.pending + Tape(c, p.cursor, till)
      && Wrap(till, |c.entries|) == Wrap(q.cursor, |c.entries|)
      && (c.end.Stop? ==> till == q.cursor)
  {
    var n, q := |c.entries|, Perform(c, p, action).0;
    if p.cursor == n && c.end.Stop? {
      till := n;
    } else if action.StepOnce? {
      till := p.cursor + 1;
      assert Wrap(p.cursor, n) == q.cursor - 1;
      assert Tape(c, p.cursor, p.cursor) == [];
    } else {
      var time := p.clock + action.dt;
      CursorIsDue(c, p, time);
      DurationIsNatural(c);
      till := if c.end.Stop? then q.cursor else if c.Duration() > 0 then DueBy(c, time) else n;
      WrapAbsorbs(till, 0, n);
    }
  }

  lemma {:induction false} PlayStaysOnTape<S>(c: Config<S>, p: Position<S>, actions: seq<Action>, before: seq<Emitted>)
    requires c.WellFormed() && Inv(c, p) && c.entries != []
    requires forall a <- actions :: !a.SeekTo? && !a.Reset?
    requires OnTape(c, before + p.pending, p.cursor)
    ensures var (q, taken) := Play(c, p, actions); OnTape(c, before + taken + q.pending, q.cursor)
    decreases |actions|
  {
    if actions == [] {
      assert before + [] == before;
    } else {
      PerformKeepsInv(c, p, actions[0]);
      PerformStaysOnTape(c, p, actions[0], before);
      var (q, taken) := Perform(c, p, actions[0]);
      PlayStaysOnTape(c, q, actions[1..], before + taken);
      Associates(before, taken, Play(c, q, actions[1..]).1);
    }
  }

  /** No entry is lost or repeated: any run of ticks, steps and collections sends the log's entries
      one after the other, round and round for a looping log and at most once for a stopping one. */
  lemma NothingLostOrRepeated<S>(c: Config<S>, actions: seq<Action>)
    requires c.WellFormed() && c.entries != []
    requires forall a <- actions :: !a.SeekTo? && !a.Reset?
    ensures Inv(c, Start(c))
    ensures var (p, taken) := Play(c, Start(c), actions); var sent := taken + p.pending;
      && (forall k :: 0 <= k < |sent| ==> sent[k] == c.Emission(k % |c.entries|))
      && |sent| % |c.entries| == p.cursor % |c.entries|
      && (c.end.Stop? ==> |sent| == p.cursor <= |c.entries|)
  {
    StartIsValid(c);
    assert Start(c).pending == Tape(c, 0, 0);
    PlayStaysOnTape(c, Start(c), actions, []);
    var (p, taken) := Play(c, Start(c), actions);
    var sent := taken + p.pending;
    assert [] + taken + p.pending == sent;
    WrapIsRemainder(|sent|, |c.entries|);
    WrapIsRemainder(p.cursor, |c.entries|);
    forall k | 0 <= k < |sent| ensures sent[k] == c.Emission(k % |c.entries|) {
      TapeAt(c, 0, |sent|, k);
    }
  }


  // The state: every parsed sentence applied once, in order, to the result of the one before

  /** The parsed sentences of a log, in order; what does not parse is passed over. */
  function ParsedOf(parse: string -> Option<ParsedSentence>, entries: seq<Entry>): seq<ParsedSentence> {
    if entries == [] then [] else
    var n := |entries| - 1;
    match parse(entries[n].sentence)
    case Some(parsed) => ParsedOf(parse, entries[..n]) + [parsed]
    case None => ParsedOf(parse, entries[..n])
  }

  function FoldLeft<S>(apply: (ParsedSentence, S) -> S, seed: S, sentences: seq<ParsedSentence>): S {
    if sentences == [] then seed else FoldLeft(apply, apply(sentences[0], seed), sentences[1..])
  }

  lemma {:induction false} FoldLeftExtends<S>(apply: (ParsedSentence, S) -> S, seed: S, sentences: seq<ParsedSentence>,
                                              last: ParsedSentence)
    ensures FoldLeft(apply, seed, sentences + [last]) == apply(last, FoldLeft(apply, seed, sentences))
    decreases |sentences|
  {
    if sentences == [] {
      assert [last][1..] == [];
      assert [] + [last] == [last];
    } else {
      assert (sentences + [last])[0] == sentences[0] && (sentences + [last])[1..] == sentences[1..] + [last];
      FoldLeftExtends(apply, apply(sentences[0], seed), sentences[1..], last);
    }
  }

  lemma {:induction false} FoldedIsFold<S>(c: Config<S>, count: nat)
    requires count <= |c.entries|
    ensures c.Folded(count) == FoldLeft(c.apply, c.seed, ParsedOf(c.parse, c.entries[..count]))
    decreases count
  {
    if count > 0 {
      var played := c.entries[..count];
      FoldedIsFold(c, count - 1);
      assert played[..count - 1] == c.entries[..count - 1] && played[count - 1] == c.entries[count - 1];
      match c.parse(played[count - 1].sentence) {
        case Some(parsed) => FoldLeftExtends(c.apply, c.seed, ParsedOf(c.parse, c.entries[..count - 1]), parsed);
        case None =>
      }
    }
  }

  /** In every reachable position the state is the seed with the parsed sentences before the cursor applied one after
      the other. */
  lemma EveryStateIsFold<S>(c: Config<S>, actions: seq<Action>)
    requires c.WellFormed()
    ensures Inv(c, Start(c))
    ensures var p := Play(c, Start(c), actions).0;
      && p.cursor <= |c.entries|
      && p.state == FoldLeft(c.apply, c.seed, ParsedOf(c.parse, c.entries[..p.cursor]))
  {
    EveryRunKeepsInv(c, actions);
    FoldedIsFold(c, Play(c, Start(c), actions).0.cursor);
  }

  lemma {:induction false} FoldOfRecorder(apply: (ParsedSentence, seq<ParsedSentence>) -> seq<ParsedSentence>,
                                          before: seq<ParsedSentence>, sentences: seq<ParsedSentence>)
    requires forall p, s :: apply(p, s) == s + [p]
    ensures FoldLeft(apply, before, sentences) == before + sentences
    decreases |sentences|
  {
    if sentences == [] {
      assert before + [] == before;
    } else {
      FoldOfRecorder(apply, before + [sentences[0]], sentences[1..]);
      Associates(before, [sentences[0]], sentences[1..]);
      assert [sentences[0]] + sentences[1..] == sentences;
    }
  }

  /** A state that records what is applied to it holds, in every reachable position, exactly the parsed sentences of the
      entries before the cursor, in order: none missing, none twice, none from an earlier pass. */
  lemma EveryStateIsHistory(c: Config<seq<ParsedSentence>>, actions: seq<Action>)
    requires c.WellFormed() && c.seed == [] && forall p, s :: c.apply(p, s) == s + [p]
    ensures Inv(c, Start(c))
    ensures var p := Play(c, Start(c), actions).0;
      p.cursor <= |c.entries| && p.state == ParsedOf(c.parse, c.entries[..p.cursor])
  {
    hide Inv;
    EveryStateIsFold(c, actions);
    var p := Play(c, Start(c), actions).0;
    FoldOfRecorder(c.apply, [], ParsedOf(c.parse, c.entries[..p.cursor]));
    assert [] + ParsedOf(c.parse, c.entries[..p.cursor]) == ParsedOf(c.parse, c.entries[..p.cursor]);
  }

  /** When all entries parse, the recorded state is as long as the cursor is far, entry for entry. */
  lemma {:induction false} ParsedOfParsable(parse: string -> Option<ParsedSentence>, entries: seq<Entry>, i: nat)
    requires i < |entries| && forall j :: 0 <= j < |entries| ==> parse(entries[j].sentence).Some?
    ensures |ParsedOf(parse, entries)| == |entries| && ParsedOf(parse, entries)[i] == parse(entries[i].sentence).value
    decreases |entries|
  {
    var n := |entries| - 1;
    if n > 0 {
      ParsedOfParsable(parse, entries[..n], if i < n then i else 0);
    }
  }

  /** A sentence that does not parse goes out bare and leaves the state as it was. */
  lemma UnparsedIsBare<S>(c: Config<S>, index: nat)
    requires index < |c.entries| && c.parse(c.entries[index].sentence).None?
    ensures c.Folded(index + 1) == c.Folded(index)
    ensures c.Emission(index) == Emitted("", c.entries[index].sentence)
  {
  }

  // Each operation, from any position

  /** Advancing from any reachable position sends, from the cursor on, exactly the entries whose time has come by the new
      time: of the one pass when stopping, of lap after lap when looping. */
  lemma AdvanceSendsDue<S>(c: Config<S>, p: Position<S>, dt: nat)
    requires c.WellFormed() && Inv(c, p) && !p.finished && (c.end.Stop? || c.Duration() > 0)
    ensures c.entries != []
    ensures var (q, n, D, time) := (Advanced(c, p, dt), |c.entries|, c.Duration(), p.clock + dt);
      && p.pending <= q.pending
      && (forall k :: |p.pending| <= k < |q.pending| ==> q.pending[k] == c.Emission((p.cursor + k - |p.pending|) % n))
      && (c.end.Stop? ==> forall j :: p.cursor <= j < n ==>
            (j < p.cursor + |q.pending| - |p.pending| <==> c.entries[j].offset <= time))
      && (c.end.Loop? ==> forall j: nat :: p.cursor <= j ==>
            (j < p.cursor + |q.pending| - |p.pending| <==> (j / n) * D + c.entries[j % n].offset <= time))
      && q.clock == if c.end.Stop? then Clamp(time, 0, D) else time % D
  {
    hide Tape, Config.Folded, Config.Emission, Sorted, Between;
    var (n, D, time) := (|c.entries|, c.Duration(), p.clock + dt);
    InvBasics(c, p);
    CursorIsDue(c, p, time);
    DurationIsNatural(c);
    var till := if c.end.Stop? then CountDue(c.entries, time) else DueBy(c, time);
    forall k | 0 <= k < till - p.cursor ensures Tape(c, p.cursor, till)[k] == c.Emission((p.cursor + k) % n) {
      TapeAt(c, p.cursor, till, k);
    }
    if c.end.Stop? {
      CountDueSplits(c.entries, time);
    } else {
      WrapIsRemainder(time, D);
      forall j: nat ensures j < till <==> (j / n) * D + c.entries[j % n].offset <= time {
        DueIsTapeTime(c, time, j);
        TapeTimeClosed(c, j);
      }
    }
  }

  /** A step sends the one entry at the cursor, the first again at the end of a looping log, and sets the clock to it;
      at the end of a stopping log and in an empty one it does nothing. */
  lemma StepMeans<S>(c: Config<S>, p: Position<S>)
    requires c.WellFormed() && Inv(c, p)
    ensures var (q, n) := (Stepped(c, p), |c.entries|);
      && (p.finished ==> q == p)
      && (!p.finished ==>
            && 1 <= q.cursor <= n && q.cursor - 1 == p.cursor % n
            && q.pending == p.pending + [c.Emission(q.cursor - 1)] && q.clock == c.entries[q.cursor - 1].offset)
  {
    var n := |c.entries|;
    if !p.finished && p.cursor < n {
      DivisionIsUnique(p.cursor, n, 0, p.cursor);
    }
  }

  /** Seeking clamps the time and counts exactly the entries due by then as played, sending nothing. */
  lemma SeekMeans<S>(c: Config<S>, to: int)
    requires c.WellFormed()
    ensures var q := Sought(c, to);
      && q.pending == [] && q.cursor <= |c.entries|
      && 0 <= q.clock <= c.Duration() && (0 <= to <= c.Duration() ==> q.clock == to)
      && (to < 0 ==> q.clock == 0) && (to > c.Duration() ==> q.clock == c.Duration())
      && (forall i :: 0 <= i < |c.entries| ==> (i < q.cursor <==> c.entries[i].offset <= q.clock))
      && (q.finished <==> c.entries == [] || (c.end.Stop? && q.cursor == |c.entries|))
  {
    hide Config.Folded;
    DurationIsNatural(c);
    CountDueSplits(c.entries, Clamp(to, 0, c.Duration()));
  }
}
