/** Wall-clock pacing of a run: which steps of simulated time the ticks hand out, in nanoseconds of a monotonic clock. */
module Pacing {

  const MILLISECOND := 1000000
  const MAX_STEP := 1000

  /** `steps` are the milliseconds handed to the simulation so far, oldest first. */
  datatype State = State(running: bool, paused: bool, clockStart: int, wallConsumed: int, steps: seq<int>)

  datatype Action =
    | Start(now: int)
    | Pause(now: int)
    | Resume(now: int)
    | Stop(now: int)
    | StepOnce(now: int)
    | Seek(now: int)
    | Tick(now: int)

  function Restarted(s: State, now: int): State {
    s.(clockStart := now, wallConsumed := 0)
  }

  function Started(s: State, now: int): State {
    if s.running then s else Restarted(s.(running := true, paused := false), now)
  }

  function Paused(s: State): State {
    if s.running then s.(paused := true) else s
  }

  function Resumed(s: State, now: int): State {
    if s.running && s.paused then Restarted(s.(paused := false), now) else s
  }

  function Ticked(s: State, now: int): State {
    var wall := now - s.clockStart;
    var dt := (wall - s.wallConsumed) / MILLISECOND;
    if s.paused || dt < 1 then s
    else if dt > MAX_STEP then s.(wallConsumed := wall, steps := s.steps + [MAX_STEP])
    else s.(wallConsumed := s.wallConsumed + dt * MILLISECOND, steps := s.steps + [dt])
  }

  /** One event of a run; the tick timer fires only from start to stop. */
  function Step(s: State, a: Action): State {
    match a
    case Start(now) => Started(s, now)
    case Pause(now) => Paused(s)
    case Resume(now) => Resumed(s, now)
    case Stop(now) => s.(running := false, paused := false)
    case StepOnce(now) => Paused(Started(s, now))
    case Seek(now) => Restarted(s, now)
    case Tick(now) => if s.running then Ticked(s, now) else s
  }

  function Run(s: State, actions: seq<Action>): State
    decreases |actions|
  {
    if actions == [] then s else Run(Step(s, actions[0]), actions[1..])
  }

  /** A runner that has handed out nothing yet. */
  function Idle(): State {
    State(false, false, 0, 0, [])
  }

  /** The pacing state of the runner, once a profile has been applied. */
  class SimulationRunner {
    var running: bool
    var paused: bool
    var clockStart: int
    var wallConsumed: int
    var steps: seq<int>

    function Contents(): State
      reads this
    {
      State(running, paused, clockStart, wallConsumed, steps)
    }

    constructor ()
      ensures Contents() == Idle()
    {
      running, paused, clockStart, wallConsumed, steps := false, false, 0, 0, [];
    }

    method RestartWallClock(now: int)
      modifies this`clockStart, this`wallConsumed
      ensures Contents() == Restarted(old(Contents()), now)
    {
      clockStart := now;
      wallConsumed := 0;
    }

    method StartRun(now: int)
      modifies this
      ensures Contents() == Started(old(Contents()), now)
    {
      if running {
        return;
      }
      paused := false;
      RestartWallClock(now);
      running := true;
    }

    method PauseRun()
      modifies this`paused
      ensures Contents() == Paused(old(Contents()))
    {
      if !running || paused {
        return;
      }
      paused := true;
    }

    method ResumeRun(now: int)
      modifies this`paused, this`clockStart, this`wallConsumed
      ensures Contents() == Resumed(old(Contents()), now)
    {
      if !running || !paused {
        return;
      }
      paused := false;
      RestartWallClock(now);
    }

    method OnTick(now: int)
      modifies this`wallConsumed, this`steps
      ensures Contents() == Ticked(old(Contents()), now)
    {
      if paused {
        return;
      }
      var wall := now - clockStart;
      var dt := (wall - wallConsumed) / MILLISECOND;
      if dt < 1 {
        return;
      }
      if dt > MAX_STEP {
        dt := MAX_STEP;
        wallConsumed := wall;
      } else {
        wallConsumed := wallConsumed + dt * MILLISECOND;
      }
      steps := steps + [dt];
    }

    /** Any event, as the runner's slots receive it. */
    method Handle(a: Action)
      modifies this
      ensures Contents() == Step(old(Contents()), a)
    {
      match a {
        case Start(now) => StartRun(now);
        case Pause(now) => PauseRun();
        case Resume(now) => ResumeRun(now);
        case Stop(now) => running, paused := false, false;
        case StepOnce(now) => StartRun(now); PauseRun();
        case Seek(now) => RestartWallClock(now);
        case Tick(now) => if running { OnTick(now); }
      }
    }
  }

  // The account of time

  predicate Counting(s: State) {
    s.running && !s.paused
  }

  function Sum(steps: seq<int>): int {
    if steps == [] then 0 else Sum(steps[..|steps| - 1]) + steps[|steps| - 1]
  }

  /** Time the clock has shown that is not handed over yet. */
  function Pending(s: State, at: int): int {
    if Counting(s) then at - s.clockStart - s.wallConsumed else 0
  }

  /** Wall-clock time of a run spent running and not paused; `UnpausedTime` tells it from the events alone. */
  function Unpaused(s: State, at: int, actions: seq<Action>): int
    decreases |actions|
  {
    if actions == [] then 0 else
    (if Counting(s) then actions[0].now - at else 0) + Unpaused(Step(s, actions[0]), actions[0].now, actions[1..])
  }

  predicate Capped(s: State, a: Action) {
    a.Tick? && Counting(s) && Pending(s, a.now) / MILLISECOND > MAX_STEP
  }

  /** What a capped tick drops. */
  function DroppedBy(s: State, a: Action): int {
    if Capped(s, a) then Pending(s, a.now) - MAX_STEP * MILLISECOND else 0
  }

  function Dropped(s: State, actions: seq<Action>): int
    decreases |actions|
  {
    if actions == [] then 0 else DroppedBy(s, actions[0]) + Dropped(Step(s, actions[0]), actions[1..])
  }

  /** What is given up when a run is paused, stopped, single-stepped or moved between two ticks. */
  function LostBy(s: State, a: Action): int {
    if a.Pause? || a.Stop? || a.StepOnce? || a.Seek? then Pending(s, a.now) else 0
  }

  function Lost(s: State, actions: seq<Action>): int
    decreases |actions|
  {
    if actions == [] then 0 else LostBy(s, actions[0]) + Lost(Step(s, actions[0]), actions[1..])
  }

  function LastTime(at: int, actions: seq<Action>): int {
    if actions == [] then at else actions[|actions| - 1].now
  }

  /** The clock never goes back. */
  predicate Ordered(at: int, actions: seq<Action>)
    decreases |actions|
  {
    actions == [] || (at <= actions[0].now && Ordered(actions[0].now, actions[1..]))
  }

  ghost predicate Inv(s: State, at: int) {
    && (Counting(s) ==> 0 <= s.wallConsumed && s.clockStart + s.wallConsumed <= at)
    && forall i :: 0 <= i < |s.steps| ==> 1 <= s.steps[i] <= MAX_STEP
  }

  /** One event accounts for all the time it has seen, and a tick leaves less than a millisecond over. */
  lemma StepAccounts(s: State, at: int, a: Action)
    requires Inv(s, at) && at <= a.now
    ensures Inv(Step(s, a), a.now)
    ensures s.steps <= Step(s, a).steps
    ensures Pending(s, at) + (if Counting(s) then a.now - at else 0)
         == (Sum(Step(s, a).steps) - Sum(s.steps)) * MILLISECOND + DroppedBy(s, a) + LostBy(s, a) + Pending(Step(s, a), a.now)
    ensures DroppedBy(s, a) >= 0 && LostBy(s, a) >= 0
    ensures a.Tick? && Counting(s) ==> Counting(Step(s, a)) && 0 <= Pending(Step(s, a), a.now) < MILLISECOND
  {
    var t := Step(s, a);
    if t.steps != s.steps {
      assert t.steps[..|t.steps| - 1] == s.steps;
    }
  }

  /** Conservation over every run: the time spent unpaused is the simulated time plus what capped ticks dropped, what
      interruptions gave up and what is still pending; no part is negative and paused time is in none of them. */
  lemma {:induction false} TimeIsConserved(s: State, at: int, actions: seq<Action>)
    requires Inv(s, at) && Ordered(at, actions)
    ensures var after, end := Run(s, actions), LastTime(at, actions);
      && Inv(after, end)
      && Pending(s, at) + Unpaused(s, at, actions)
         == (Sum(after.steps) - Sum(s.steps)) * MILLISECOND
            + Dropped(s, actions) + Lost(s, actions) + Pending(after, end)
      && Dropped(s, actions) >= 0 && Lost(s, actions) >= 0 && Pending(after, end) >= 0
    decreases |actions|
  {
    hide Inv, Step, Pending, LostBy, DroppedBy;
    if actions == [] {
      PendingIsNatural(s, at);
    } else {
      var a := actions[0];
      StepAccounts(s, at, a);
      TimeIsConserved(Step(s, a), a.now, actions[1..]);
      assert LastTime(at, actions) == LastTime(a.now, actions[1..]);
    }
  }

  lemma PendingIsNatural(s: State, at: int)
    requires Inv(s, at)
    ensures Pending(s, at) >= 0
  {
  }

  // When time counts, from the events alone

  /** A start or single step since the last stop. */
  predicate RunningAfter(events: seq<Action>)
    decreases |events|
  {
    if events == [] then false else
    var last := events[|events| - 1];
    if last.Start? || last.StepOnce? then true
    else if last.Stop? then false
    else RunningAfter(events[..|events| - 1])
  }

  /** While running, a pause or single step since the last resumption. */
  predicate PausedAfter(events: seq<Action>)
    decreases |events|
  {
    if !RunningAfter(events) then false else
    var before, last := events[..|events| - 1], events[|events| - 1];
    if last.Pause? || last.StepOnce? then true
    else if last.Resume? then false
    else PausedAfter(before)
  }

  predicate CountsAfter(events: seq<Action>) {
    RunningAfter(events) && !PausedAfter(events)
  }

  /** The time between events during which the run was going and not paused. */
  function UnpausedTime(at: int, events: seq<Action>): int
    decreases |events|
  {
    if events == [] then 0 else
    var before, last := events[..|events| - 1], events[|events| - 1];
    UnpausedTime(at, before) + if CountsAfter(before) then last.now - LastTime(at, before) else 0
  }

  lemma {:induction false} RunExtends(s: State, actions: seq<Action>, last: Action)
    ensures Run(s, actions + [last]) == Step(Run(s, actions), last)
    decreases |actions|
  {
    hide Step;
    if actions == [] {
      assert [last][1..] == [];
      assert [] + [last] == [last];
    } else {
      assert (actions + [last])[0] == actions[0] && (actions + [last])[1..] == actions[1..] + [last];
      RunExtends(Step(s, actions[0]), actions[1..], last);
    }
  }

  /** The runner runs and is paused exactly when the events say so. */
  lemma {:induction false} FlagsAreEvents(events: seq<Action>)
    ensures Run(Idle(), events).running == RunningAfter(events)
    ensures Run(Idle(), events).paused == PausedAfter(events)
    decreases |events|
  {
    if events != [] {
      var before, last := events[..|events| - 1], events[|events| - 1];
      FlagsAreEvents(before);
      RunExtends(Idle(), before, last);
      assert events == before + [last];
    }
  }

  lemma {:induction false} UnpausedExtends(s: State, at: int, actions: seq<Action>, last: Action)
    ensures Unpaused(s, at, actions + [last])
         == Unpaused(s, at, actions) + if Counting(Run(s, actions)) then last.now - LastTime(at, actions) else 0
    decreases |actions|
  {
    hide Step;
    if actions == [] {
      assert [last][1..] == [];
      assert [] + [last] == [last];
    } else {
      assert (actions + [last])[0] == actions[0] && (actions + [last])[1..] == actions[1..] + [last];
      UnpausedExtends(Step(s, actions[0]), actions[0].now, actions[1..], last);
      assert LastTime(at, actions) == LastTime(actions[0].now, actions[1..]);
    }
  }

  lemma {:induction false} UnpausedIsEvents(at: int, events: seq<Action>)
    ensures Unpaused(Idle(), at, events) == UnpausedTime(at, events)
    decreases |events|
  {
    hide Run;
    if events != [] {
      var before, last := events[..|events| - 1], events[|events| - 1];
      UnpausedIsEvents(at, before);
      UnpausedExtends(Idle(), at, before, last);
      FlagsAreEvents(before);
      assert events == before + [last];
    }
  }

  /** Conservation over every run from the beginning, with the unpaused time told by the events alone; every step is
      between one millisecond and one second. */
  lemma EventTimeIsConserved(at: int, events: seq<Action>)
    requires Ordered(at, events)
    ensures var after := Run(Idle(), events);
      && UnpausedTime(at, events) == Sum(after.steps) * 1_000_000
           + Dropped(Idle(), events) + Lost(Idle(), events) + Pending(after, LastTime(at, events))
      && Dropped(Idle(), events) >= 0 && Lost(Idle(), events) >= 0 && Pending(after, LastTime(at, events)) >= 0
      && forall i :: 0 <= i < |after.steps| ==> 1 <= after.steps[i] <= 1000
  {
    hide Run, Unpaused, UnpausedTime, Dropped, Lost, Pending;
    IdleIsValid(at);
    TimeIsConserved(Idle(), at, events);
    UnpausedIsEvents(at, events);
    PendingWhenIdle(at);
  }

  lemma PendingWhenIdle(at: int)
    ensures Pending(Idle(), at) == 0 && Sum(Idle().steps) == 0
  {
  }

  lemma IdleIsValid(at: int)
    ensures Inv(Idle(), at)
  {
  }

  /** Simulated time never runs ahead of the time spent unpaused. */
  lemma NeverAhead(events: seq<Action>, at: int)
    requires Ordered(at, events)
    ensures Sum(Run(Idle(), events).steps) * 1_000_000 <= UnpausedTime(at, events)
  {
    EventTimeIsConserved(at, events);
  }

  // One run without interruptions

  predicate AllTicks(actions: seq<Action>) {
    forall i :: 0 <= i < |actions| ==> actions[i].Tick?
  }

  predicate AnyCapped(s: State, actions: seq<Action>)
    decreases |actions|
  {
    actions != [] && (Capped(s, actions[0]) || AnyCapped(Step(s, actions[0]), actions[1..]))
  }

  /** Ticks give nothing up; a capped one drops a millisecond at least. */
  lemma {:induction false} TicksAccount(s: State, at: int, ticks: seq<Action>)
    requires Inv(s, at) && Counting(s) && Pending(s, at) < MILLISECOND && Ordered(at, ticks) && AllTicks(ticks)
    ensures var after, end := Run(s, ticks), LastTime(at, ticks);
      && Counting(after) && after.clockStart == s.clockStart && Pending(after, end) < MILLISECOND
      && Unpaused(s, at, ticks) == end - at && Lost(s, ticks) == 0
      && (if AnyCapped(s, ticks) then Dropped(s, ticks) >= MILLISECOND else Dropped(s, ticks) == 0)
    decreases |ticks|
  {
    if ticks != [] {
      var a := ticks[0];
      StepAccounts(s, at, a);
      TickDrops(s, at, a);
      hide Inv, Step, Capped, DroppedBy, Pending;
      DropsAreNatural(Step(s, a), a.now, ticks[1..]);
      TicksAccount(Step(s, a), a.now, ticks[1..]);
      assert LastTime(at, ticks) == LastTime(a.now, ticks[1..]);
    }
  }

  lemma TickDrops(s: State, at: int, a: Action)
    requires a.Tick? && Counting(s)
    ensures Step(s, a).clockStart == s.clockStart && LostBy(s, a) == 0
    ensures if Capped(s, a) then DroppedBy(s, a) >= MILLISECOND else DroppedBy(s, a) == 0
  {
  }

  lemma DropsAreNatural(s: State, at: int, actions: seq<Action>)
    requires Inv(s, at) && Ordered(at, actions)
    ensures Dropped(s, actions) >= 0
  {
    TimeIsConserved(s, at, actions);
  }

  /** The wall clock has just been restarted, and time is counting. */
  ghost predicate JustRestarted(s: State, at: int) {
    Inv(s, at) && Counting(s) && s.clockStart == at && s.wallConsumed == 0
  }

  /** The events that restart the wall clock and leave time counting. */
  predicate Restarts(s: State, a: Action) {
    (a.Start? && !s.running) || (a.Resume? && s.running && s.paused) || (a.Seek? && Counting(s))
  }

  lemma RestartsAreFresh(s: State, at: int, a: Action)
    requires Inv(s, at) && at <= a.now && Restarts(s, a)
    ensures JustRestarted(Step(s, a), a.now) && Step(s, a).steps == s.steps
  {
  }

  /** From a restart on, the simulated time falls short of what was consumed by exactly what was dropped, what was
      consumed is within a millisecond of the clock, and the simulated time is the whole milliseconds of the clock if and
      only if no tick was capped. */
  lemma FallsShortByDrops(s: State, at: int, ticks: seq<Action>)
    requires JustRestarted(s, at) && Ordered(at, ticks) && AllTicks(ticks)
    ensures var after, wall := Run(s, ticks), LastTime(at, ticks) - at;
      var simulated := Sum(after.steps) - Sum(s.steps);
      && simulated * MILLISECOND == after.wallConsumed - Dropped(s, ticks)
      && after.wallConsumed <= wall < after.wallConsumed + MILLISECOND
      && (simulated == wall / MILLISECOND <==> !AnyCapped(s, ticks))
  {
    TicksAccount(s, at, ticks);
    TimeIsConserved(s, at, ticks);
  }

  /** Ticks at most a second apart. */
  predicate Regular(at: int, actions: seq<Action>)
    decreases |actions|
  {
    actions == [] ||
    (actions[0].Tick? && at <= actions[0].now <= at + MAX_STEP * MILLISECOND && Regular(actions[0].now, actions[1..]))
  }

  lemma {:induction false} RegularIsUncapped(s: State, at: int, ticks: seq<Action>)
    requires Inv(s, at) && Counting(s) && Pending(s, at) < MILLISECOND && Regular(at, ticks)
    ensures Ordered(at, ticks) && AllTicks(ticks) && !AnyCapped(s, ticks)
    decreases |ticks|
  {
    hide Inv, Step;
    if ticks != [] {
      var a := ticks[0];
      StepAccounts(s, at, a);
      RegularIsUncapped(Step(s, a), a.now, ticks[1..]);
      assert forall i :: 1 <= i < |ticks| ==> ticks[i] == ticks[1..][i - 1];
    }
  }

  /** From a restart on, ticked at least once a second, a run keeps pace exactly: however the ticks fall, the simulated
      time is the whole milliseconds of wall-clock time. */
  lemma KeepsPace(s: State, at: int, ticks: seq<Action>)
    requires JustRestarted(s, at) && Regular(at, ticks)
    ensures Sum(Run(s, ticks).steps) - Sum(s.steps) == (LastTime(at, ticks) - at) / MILLISECOND
  {
    RegularIsUncapped(s, at, ticks);
    FallsShortByDrops(s, at, ticks);
  }

  /** Every stretch of every run: whatever events came before, from each start, resumption or seek to the end of the
      ticks after it, the account is exact. */
  lemma EveryStretchIsExact(at: int, before: seq<Action>, restart: Action, ticks: seq<Action>)
    requires Ordered(at, before) && LastTime(at, before) <= restart.now
    requires || (restart.Start? && !RunningAfter(before)) || (restart.Resume? && PausedAfter(before))
             || (restart.Seek? && CountsAfter(before))
    requires Ordered(restart.now, ticks) && AllTicks(ticks)
    ensures var s := Step(Run(Idle(), before), restart);
      var after, wall := Run(s, ticks), LastTime(restart.now, ticks) - restart.now;
      var simulated := Sum(after.steps) - Sum(Run(Idle(), before).steps);
      && simulated * MILLISECOND == after.wallConsumed - Dropped(s, ticks)
      && after.wallConsumed <= wall < after.wallConsumed + MILLISECOND
      && (simulated == wall / MILLISECOND <==> !AnyCapped(s, ticks))
      && (Regular(restart.now, ticks) ==> simulated == wall / MILLISECOND)
  {
    hide Inv, Step, AnyCapped, Dropped, Run, RunningAfter, PausedAfter;
    IdleIsValid(at);
    FlagsAreEvents(before);
    PausedRuns(before);
    TimeIsConserved(Idle(), at, before);
    var s := Run(Idle(), before);
    RestartsAreFresh(s, LastTime(at, before), restart);
    FallsShortByDrops(Step(s, restart), restart.now, ticks);
    if Regular(restart.now, ticks) {
      KeepsPace(Step(s, restart), restart.now, ticks);
    }
  }

  lemma PausedRuns(events: seq<Action>)
    ensures PausedAfter(events) ==> RunningAfter(events)
  {
  }
}
