/** Whole runs of the tile download scheduler: order of the requests, waiting time, memory of failures. */
module TileRuns {
  import opened Basics
  import opened Text
  import opened TileScheduler

  function RequestKeys(requests: seq<Request>): (keys: seq<TileKey>)
    ensures |keys| == |requests|
    ensures forall i :: 0 <= i < |requests| ==> keys[i] == requests[i].key
  {
    seq(|requests|, i requires 0 <= i < |requests| => requests[i].key)
  }

  /** Everything ever handed to the network followed by everything waiting. */
  function Line(s: State): seq<TileKey> {
    RequestKeys(s.requests) + s.queue
  }

  /** The events that take waiting tiles out of the queue. */
  predicate EmptiesQueue(a: Action) {
    a.Clear? || (a.SetOnline? && !a.online)
  }

  /** The tile an event puts at the end of the queue, if any. */
  function Joining(s: State, a: Action): seq<TileKey> {
    if a.Tile? && !a.cached && s.online && MayRequest(s, a.key, a.now) && a.key !in s.queued then [a.key] else []
  }

  function JoiningDuring(s: State, actions: seq<Action>): seq<TileKey>
    decreases |actions|
  {
    if actions == [] then [] else Joining(s, actions[0]) + JoiningDuring(Step(s, actions[0]), actions[1..])
  }

  /** The downloads that finish during a run. */
  function Finishes(s: State, actions: seq<Action>): nat
    decreases |actions|
  {
    if actions == [] then 0 else
    (if actions[0].Finish? && actions[0].key in s.running then 1 else 0) + Finishes(Step(s, actions[0]), actions[1..])
  }

  ghost predicate NeverEmpties(actions: seq<Action>) {
    forall i :: 0 <= i < |actions| ==> !EmptiesQueue(actions[i])
  }

  // Requests leave in the order the tiles were queued

  /** Starting downloads moves tiles from the front of the queue to the end of the requests and nothing else. */
  lemma {:induction false} FilledKeepsLine(s: State)
    ensures Line(Filled(s)) == Line(s) && s.requests <= Filled(s).requests
    ensures |s.running| < MAX_CONCURRENT_DOWNLOADS && s.queue != [] ==> |Filled(s).requests| > |s.requests|
    decreases |s.queue|
  {
    if |s.running| < MAX_CONCURRENT_DOWNLOADS && s.queue != [] {
      var t := StartFirst(s);
      assert RequestKeys(t.requests) == RequestKeys(s.requests) + [s.queue[0]];
      assert [s.queue[0]] + t.queue == s.queue;
      assert Line(t) == Line(s);
      FilledKeepsLine(t);
    }
  }

  lemma StepKeepsLine(s: State, a: Action)
    requires Inv(s) && !EmptiesQueue(a)
    ensures Line(Step(s, a)) == Line(s) + Joining(s, a) && s.requests <= Step(s, a).requests
    ensures a.Finish? && a.key in s.running && s.queue != [] ==> |Step(s, a).requests| > |s.requests|
  {
    hide Filled, Line;
    match a {
      case Tile(key, cached, now) =>
        if Joining(s, a) != [] {
          var t := s.(queued := s.queued + {key}, queue := s.queue + [key]);
          FilledKeepsLine(t);
          LineExtends(s, t, key);
        }
      case Finish(key, outcome, now) =>
        if key in s.running {
          var free := s.(running := s.running - {key}, queued := s.queued - {key});
          var recorded := match outcome
            case Loaded => free.(failures := free.failures - {key})
            case NotFound => Failed(free, key, true, now)
            case Transient => Failed(free, key, false, now);
          FilledKeepsLine(recorded);
          SameLine(s, recorded);
        }
      case SetUrlTemplate(urlTemplate) =>
        if ChangesTemplate(s, urlTemplate) {
          var t := Aborted(s.(urlTemplate := Trim(urlTemplate), failures := map[]));
          FilledKeepsLine(t);
          SameLine(s, t);
        }
      case _ =>
        SameLine(s, Step(s, a));
    }
  }

  lemma LineExtends(s: State, t: State, key: TileKey)
    requires t.requests == s.requests && t.queue == s.queue + [key]
    ensures Line(t) == Line(s) + [key]
  {
  }

  lemma SameLine(s: State, t: State)
    requires t.requests == s.requests && t.queue == s.queue
    ensures Line(t) == Line(s)
  {
  }

  /** First in, first out, over every run that never empties the queue: requests and waiting tiles together are
      those of the start followed by the tiles queued since, in the order they were queued. */
  lemma {:induction false} FirstInFirstOut(s: State, actions: seq<Action>)
    requires Inv(s) && NeverEmpties(actions)
    ensures Line(Run(s, actions)) == Line(s) + JoiningDuring(s, actions)
    ensures s.requests <= Run(s, actions).requests
    decreases |actions|
  {
    hide Inv, Line, Step, Joining;
    if actions != [] {
      var t := Step(s, actions[0]);
      StepKeeps(s, actions[0]);
      StepKeepsLine(s, actions[0]);
      FirstInFirstOut(t, actions[1..]);
      assert (Line(s) + Joining(s, actions[0])) + JoiningDuring(t, actions[1..])
          == Line(s) + (Joining(s, actions[0]) + JoiningDuring(t, actions[1..]));
    }
  }

  /** While tiles wait, every finished download starts another. */
  lemma {:induction false} FinishesStart(s: State, actions: seq<Action>)
    requires Inv(s) && NeverEmpties(actions)
    ensures |Run(s, actions).requests| >= |s.requests| + Min(Finishes(s, actions), |s.queue|)
    decreases |actions|
  {
    hide Inv, Step, Joining;
    if actions != [] {
      var t := Step(s, actions[0]);
      StepKeeps(s, actions[0]);
      StepKeepsLine(s, actions[0]);
      assert |t.requests| + |t.queue| == |Line(t)| >= |Line(s)| == |s.requests| + |s.queue|;
      FinishesStart(t, actions[1..]);
    }
  }

  /** The tile at queue position `p` is the p-th of the next requests, and is under way once p + 1 downloads
      have finished. */
  lemma {:induction false} WaitingIsBounded(s: State, actions: seq<Action>, p: nat)
    requires Inv(s) && NeverEmpties(actions)
    requires p < |s.queue| && Finishes(s, actions) >= p + 1
    ensures var after := Run(s, actions);
      |after.requests| > |s.requests| + p && after.requests[|s.requests| + p].key == s.queue[p]
  {
    hide Inv, Run;
    FirstInFirstOut(s, actions);
    FinishesStart(s, actions);
    var after := Run(s, actions);
    assert Line(after)[|s.requests| + p] == Line(s)[|s.requests| + p] == s.queue[p];
  }

  // What the server does not have is left alone

  predicate KnownGone(s: State, key: TileKey) {
    key in s.failures && s.failures[key].permanent
  }

  /** No event of the run sets another server. */
  ghost predicate SameServer(urlTemplate: string, actions: seq<Action>) {
    forall i :: 0 <= i < |actions| && actions[i].SetUrlTemplate? ==>
      Trim(actions[i].urlTemplate) == "" || Trim(actions[i].urlTemplate) == urlTemplate
  }

  lemma {:induction false} FilledFrame(s: State)
    ensures Filled(s).failures == s.failures && Filled(s).urlTemplate == s.urlTemplate
    ensures Filled(s).retryDelay == s.retryDelay && Filled(s).online == s.online && Filled(s).queued == s.queued
    decreases |s.queue|
  {
    if |s.running| < MAX_CONCURRENT_DOWNLOADS && s.queue != [] {
      FilledFrame(StartFirst(s));
    }
  }

  /** Starting downloads asks for tiles of the queue only. */
  lemma {:induction false} FilledAsks(s: State, i: nat)
    requires |s.requests| <= i < |Filled(s).requests|
    ensures Filled(s).requests[i].key in s.queue
    decreases |s.queue|
  {
    if |s.running| < MAX_CONCURRENT_DOWNLOADS && s.queue != [] {
      var t := StartFirst(s);
      FilledKeepsLine(t);
      if i < |t.requests| {
        assert Filled(s).requests[i] == t.requests[i];
      } else {
        FilledAsks(t, i);
      }
    }
  }

  lemma {:induction false} StepKeepsGone(s: State, a: Action, key: TileKey)
    requires Inv(s) && KnownGone(s, key)
    requires a.SetUrlTemplate? ==> !ChangesTemplate(s, a.urlTemplate)
    ensures KnownGone(Step(s, a), key) && Step(s, a).urlTemplate == s.urlTemplate
  {
    hide Filled;
    match a {
      case Tile(k, cached, now) =>
        FilledFrame(s.(queued := s.queued + {k}, queue := s.queue + [k]));
      case Finish(k, outcome, now) =>
        var free := s.(running := s.running - {k}, queued := s.queued - {k});
        FilledFrame(match outcome
                    case Loaded => free.(failures := free.failures - {k})
                    case NotFound => Failed(free, k, true, now)
                    case Transient => Failed(free, k, false, now));
      case _ =>
    }
  }

  /** A tile that is asked for during a step was waiting before it or joined in it. */
  lemma StepAsks(s: State, a: Action, i: nat)
    requires |s.requests| <= i < |Step(s, a).requests|
    ensures Step(s, a).requests[i].key in s.queue + Joining(s, a)
  {
    hide Filled;
    match a {
      case Tile(k, cached, now) =>
        FilledAsks(s.(queued := s.queued + {k}, queue := s.queue + [k]), i);
      case Finish(k, outcome, now) =>
        var free := s.(running := s.running - {k}, queued := s.queued - {k});
        FilledAsks(match outcome
                   case Loaded => free.(failures := free.failures - {k})
                   case NotFound => Failed(free, k, true, now)
                   case Transient => Failed(free, k, false, now), i);
      case SetUrlTemplate(urlTemplate) =>
        FilledAsks(Aborted(s.(urlTemplate := Trim(urlTemplate), failures := map[])), i);
      case _ =>
    }
  }

  lemma StepKeepsRequests(s: State, a: Action)
    requires Inv(s)
    ensures s.requests <= Step(s, a).requests
  {
    hide Inv;
    if !EmptiesQueue(a) {
      StepKeepsLine(s, a);
    }
  }

  /** A tile the server reported missing is not asked for again in any run, whatever is cleared or switched,
      unless another server is set. */
  lemma {:induction false} GoneStaysOut(s: State, actions: seq<Action>, key: TileKey, i: nat)
    requires Inv(s) && KnownGone(s, key) && SameServer(s.urlTemplate, actions)
    requires |s.requests| <= i < |Run(s, actions).requests|
    ensures Run(s, actions).requests[i].key != key
    decreases |actions|
  {
    hide Inv, Step, Joining;
    if actions != [] {
      var a := actions[0];
      var t := Step(s, a);
      StepKeeps(s, a);
      StepKeepsGone(s, a, key);
      RequestsGrow(t, actions[1..]);
      if i < |t.requests| {
        StepAsks(s, a, i);
        GoneIsNotWaiting(s, a, key);
        assert Run(s, actions).requests[i] == t.requests[i];
      } else {
        GoneStaysOut(t, actions[1..], key, i);
      }
    }
  }

  lemma GoneIsNotWaiting(s: State, a: Action, key: TileKey)
    requires Inv(s) && KnownGone(s, key)
    ensures key !in s.queue + Joining(s, a)
  {
    KeysExtend(s.queue, key);
  }

  lemma {:induction false} RequestsGrow(s: State, actions: seq<Action>)
    requires Inv(s)
    ensures s.requests <= Run(s, actions).requests
    decreases |actions|
  {
    hide Inv, Step;
    if actions != [] {
      StepKeeps(s, actions[0]);
      StepKeepsRequests(s, actions[0]);
      RequestsGrow(Step(s, actions[0]), actions[1..]);
    }
  }

  // The memory of failures, from the outcomes of a run

  /** What the outcomes in a run say about a tile: reported missing, transient failures in a row, and when the last one
      was. It is kept from the events; the scheduler's state only tells which of them take effect: a download finishes
      only while running, a template counts only when it changes the current one, and a switch on only when off. */
  datatype History = History(gone: bool, failures: nat, last: int)

  function Noted(s: State, a: Action, key: TileKey, before: History): History {
    match a
    case Finish(k, outcome, now) =>
      if k != key || k !in s.running then before else
      (match outcome
       case Loaded => History(false, 0, 0)
       case NotFound => before.(gone := true)
       case Transient => History(before.gone, before.failures + 1, now))
    case SetUrlTemplate(urlTemplate) => if ChangesTemplate(s, urlTemplate) then History(false, 0, 0) else before
    case SetOnline(online) => if online && !s.online && !before.gone then History(false, 0, 0) else before
    case _ => before
  }

  function HistoryOf(s: State, actions: seq<Action>, key: TileKey, before: History): History
    decreases |actions|
  {
    if actions == [] then before else
    HistoryOf(Step(s, actions[0]), actions[1..], key, Noted(s, actions[0], key, before))
  }

  /** The delay after `failures` transient failures in a row. */
  function Backoff(retryDelay: int, failures: nat): int
    requires failures > 0
  {
    if retryDelay <= 0 then retryDelay
    else Min(retryDelay * Pow2(failures - 1), Max(MAX_RETRY_DELAY, retryDelay))
  }

  lemma NextDelayIsBackoff(retryDelay: int, failures: nat)
    requires failures > 0
    ensures NextDelay(Backoff(retryDelay, failures), retryDelay) == Backoff(retryDelay, failures + 1)
    ensures Backoff(retryDelay, 1) == retryDelay
    ensures retryDelay > 0 ==> Backoff(retryDelay, failures) > 0
  {
    var power := Pow2(failures - 1);
    assert Pow2(failures) == 2 * power;
    if retryDelay > 0 {
      assert retryDelay * power >= retryDelay by {
        assert retryDelay * (power - 1) >= 0;
      }
      assert retryDelay * (2 * power) == 2 * (retryDelay * power);
    }
  }

  /** The failure record of a tile is what its history says. */
  ghost predicate Remembers(s: State, key: TileKey, h: History, retryDelay: int) {
    && s.retryDelay == retryDelay
    && (key in s.failures <==> h.gone || h.failures > 0)
    && (key in s.failures ==> s.failures[key].permanent == h.gone)
    && (key in s.failures ==> s.failures[key].delay == (if h.failures == 0 then 0 else Backoff(retryDelay, h.failures)))
    && (h.failures > 0 ==> s.failures[key].retryAt == h.last + Backoff(retryDelay, h.failures))
  }

  lemma StepRemembers(s: State, a: Action, key: TileKey, h: History, retryDelay: int)
    requires Remembers(s, key, h, retryDelay) && !a.SetRetryDelay?
    ensures Remembers(Step(s, a), key, Noted(s, a, key, h), retryDelay)
  {
    hide Filled, Backoff, NextDelay;
    match a {
      case Tile(k, cached, now) =>
        FilledFrame(s.(queued := s.queued + {k}, queue := s.queue + [k]));
      case Finish(k, outcome, now) =>
        var free := s.(running := s.running - {k}, queued := s.queued - {k});
        FilledFrame(match outcome
                    case Loaded => free.(failures := free.failures - {k})
                    case NotFound => Failed(free, k, true, now)
                    case Transient => Failed(free, k, false, now));
        NextDelayIsBackoff(retryDelay, if h.failures == 0 then 1 else h.failures);
        FirstDelay(retryDelay);
      case SetUrlTemplate(urlTemplate) =>
        FilledFrame(Aborted(s.(urlTemplate := Trim(urlTemplate), failures := map[])));
      case _ =>
    }
  }

  lemma FirstDelay(retryDelay: int)
    ensures NextDelay(0, retryDelay) == retryDelay
  {
  }

  /** Over every run with one first delay, a failure record is its history: doubled at each further failure up to the
      cap, forgotten at a success, another server or, unless the tile is gone, a switch back on. */
  lemma {:induction false} FailuresAreHistory(s: State, actions: seq<Action>, key: TileKey, h: History, retryDelay: int)
    requires Remembers(s, key, h, retryDelay)
    requires forall i :: 0 <= i < |actions| ==> !actions[i].SetRetryDelay?
    ensures Remembers(Run(s, actions), key, HistoryOf(s, actions, key, h), retryDelay)
    decreases |actions|
  {
    hide Remembers, Step, Noted;
    if actions != [] {
      StepRemembers(s, actions[0], key, h, retryDelay);
      FailuresAreHistory(Step(s, actions[0]), actions[1..], key, Noted(s, actions[0], key, h), retryDelay);
    }
  }

  /** When a tile is asked for: after any run from a fresh cache, exactly then is it queued or running. */
  lemma RequestLaw(urlTemplate: string, retryDelay: int, actions: seq<Action>, key: TileKey, cached: bool, now: int)
    requires forall i :: 0 <= i < |actions| ==> !actions[i].SetRetryDelay?
    ensures var start := Fresh(urlTemplate).(retryDelay := retryDelay);
      var s, h := Run(start, actions), HistoryOf(start, actions, key, History(false, 0, 0));
      key in Step(s, Tile(key, cached, now)).queued <==>
        || key in s.queued
        || (&& !cached && s.online && !h.gone
            && (h.failures == 0 || now >= h.last + Backoff(retryDelay, h.failures)))
  {
    hide Run, HistoryOf, Filled, Backoff;
    var start := Fresh(urlTemplate).(retryDelay := retryDelay);
    var s := Run(start, actions);
    FailuresAreHistory(start, actions, key, History(false, 0, 0), retryDelay);
    FilledFrame(s.(queued := s.queued + {key}, queue := s.queue + [key]));
  }


  // What each event does, and what it leaves alone

  /** What is queued or running after an event, from what was before. */
  lemma QueuedAfter(s: State, a: Action)
    requires Inv(s)
    ensures var t := Step(s, a);
      match a
      case Tile(key, cached, now) => t.queued == s.queued || t.queued == s.queued + {key}
      case Finish(key, outcome, now) => t.queued == s.queued - (if key in s.running then {key} else {})
      case SetUrlTemplate(urlTemplate) =>
        t.queued == if Trim(urlTemplate) in {"", s.urlTemplate} then s.queued else Keys(s.queue)
      case SetOnline(online) => t.queued == if online then s.queued else {}
      case Clear => t.queued == {}
      case SetRetryDelay(delay) => t.queued == s.queued
  {
    hide Filled;
    match a {
      case Tile(k, cached, now) =>
        FilledFrame(s.(queued := s.queued + {k}, queue := s.queue + [k]));
      case Finish(k, outcome, now) =>
        var free := s.(running := s.running - {k}, queued := s.queued - {k});
        FilledFrame(match outcome
                    case Loaded => free.(failures := free.failures - {k})
                    case NotFound => Failed(free, k, true, now)
                    case Transient => Failed(free, k, false, now));
      case SetUrlTemplate(urlTemplate) =>
        FilledFrame(Aborted(s.(urlTemplate := Trim(urlTemplate), failures := map[])));
      case _ =>
    }
  }

  /** Clearing and going offline leave nothing in flight, request nothing and forget no failure. */
  lemma EmptiedAfter(s: State, a: Action)
    requires a.Clear? || (a.SetOnline? && !a.online)
    ensures var t := Step(s, a);
      t.queue == [] && t.running == {} && t.queued == {} && t.requests == s.requests && t.failures == s.failures
  {
  }

  /** The settings change only by the event that sets them; asking and clearing forget no failure. */
  lemma SettingsAfter(s: State, a: Action)
    ensures var t := Step(s, a);
      && t.online == (if a.SetOnline? then a.online else s.online)
      && t.retryDelay == (if a.SetRetryDelay? then a.delay else s.retryDelay)
      && t.urlTemplate == (if a.SetUrlTemplate? && Trim(a.urlTemplate) != "" then Trim(a.urlTemplate) else s.urlTemplate)
      && (a.Tile? || a.Clear? || a.SetRetryDelay? ==> t.failures == s.failures)
  {
    hide Filled;
    match a {
      case Tile(k, cached, now) =>
        FilledFrame(s.(queued := s.queued + {k}, queue := s.queue + [k]));
      case Finish(k, outcome, now) =>
        var free := s.(running := s.running - {k}, queued := s.queued - {k});
        FilledFrame(match outcome
                    case Loaded => free.(failures := free.failures - {k})
                    case NotFound => Failed(free, k, true, now)
                    case Transient => Failed(free, k, false, now));
      case SetUrlTemplate(urlTemplate) =>
        FilledFrame(Aborted(s.(urlTemplate := Trim(urlTemplate), failures := map[])));
      case _ =>
    }
  }

  lemma {:induction false} FilledAsksServer(s: State, i: nat)
    requires |s.requests| <= i < |Filled(s).requests|
    ensures Filled(s).requests[i].urlTemplate == s.urlTemplate
    decreases |s.queue|
  {
    if |s.running| < MAX_CONCURRENT_DOWNLOADS && s.queue != [] {
      var t := StartFirst(s);
      FilledKeepsLine(t);
      if i < |t.requests| {
        assert Filled(s).requests[i] == t.requests[i];
      } else {
        FilledAsksServer(t, i);
      }
    }
  }

  /** Every request goes to the server in force, also those for tiles queued before it was set. */
  lemma RequestsUseServer(s: State, a: Action, i: nat)
    requires |s.requests| <= i < |Step(s, a).requests|
    ensures Step(s, a).requests[i].urlTemplate == Step(s, a).urlTemplate
  {
    SettingsAfter(s, a);
    hide Filled;
    match a {
      case Tile(k, cached, now) =>
        FilledAsksServer(s.(queued := s.queued + {k}, queue := s.queue + [k]), i);
      case Finish(k, outcome, now) =>
        var free := s.(running := s.running - {k}, queued := s.queued - {k});
        FilledAsksServer(match outcome
                         case Loaded => free.(failures := free.failures - {k})
                         case NotFound => Failed(free, k, true, now)
                         case Transient => Failed(free, k, false, now), i);
      case SetUrlTemplate(urlTemplate) =>
        FilledAsksServer(Aborted(s.(urlTemplate := Trim(urlTemplate), failures := map[])), i);
      case _ =>
    }
  }

  /** At most four downloads run and none waits while fewer do, in every run from a fresh cache. */
  lemma FourAtATime(urlTemplate: string, actions: seq<Action>)
    ensures var s := Run(Fresh(urlTemplate), actions);
      |s.running| <= 4 && (s.queue != [] ==> |s.running| == 4)
  {
    RunKeeps(Fresh(urlTemplate), actions);
  }

  /** A fresh cache is online at its server, with nothing queued, requested or remembered. */
  lemma FreshMeans(urlTemplate: string)
    ensures var s := Fresh(urlTemplate);
      && s.online && s.urlTemplate == urlTemplate && s.queue == [] && s.queued == {} && s.running == {}
      && s.failures == map[] && s.requests == [] && Inv(s)
  {
  }

  /** The delays a fresh cache applies: half a minute, doubled up to ten minutes. */
  lemma DefaultDelays(urlTemplate: string, failures: nat)
    requires failures > 0
    ensures Fresh(urlTemplate).retryDelay == 30_000
    ensures Backoff(30_000, failures) ==
      if failures == 1 then 30_000 else if failures == 2 then 60_000 else if failures == 3 then 120_000
      else if failures == 4 then 240_000 else if failures == 5 then 480_000 else 600_000
  {
    if failures > 5 {
      Pow2Grows(failures - 1, 5);
    } else {
      assert Pow2(0) == 1 && Pow2(1) == 2 && Pow2(2) == 4 && Pow2(3) == 8 && Pow2(4) == 16;
    }
  }

  lemma {:induction false} Pow2Grows(n: nat, m: nat)
    requires n >= m
    ensures Pow2(n) >= Pow2(m) && Pow2(5) == 32
    decreases n
  {
    assert Pow2(5) == 32;
    if n > m {
      Pow2Grows(n - 1, m);
    }
  }
}
