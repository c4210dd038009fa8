/** The download scheduler of the map tile cache, as a state machine over its events. */
module TileScheduler {
  import opened Text

  datatype TileKey = TileKey(zoom: int, x: int, y: int)

  /** A failed tile: when it may be asked for again, the latest delay, and whether it is gone for good. */
  datatype Failure = Failure(retryAt: int, delay: int, permanent: bool)

  /** A download handed to the network: the tile and the server template it is asked from. */
  datatype Request = Request(urlTemplate: string, key: TileKey)

  datatype Outcome = Loaded | NotFound | Transient

  datatype State = State(
    queue: seq<TileKey>, queued: set<TileKey>, running: set<TileKey>, failures: map<TileKey, Failure>,
    online: bool, retryDelay: int, urlTemplate: string, requests: seq<Request>)

  const MAX_CONCURRENT_DOWNLOADS := 4
  const MAX_RETRY_DELAY := 600000
  const DEFAULT_RETRY_DELAY := 30000

  function Min(a: int, b: int): int {
    if a < b then a else b
  }

  function Max(a: int, b: int): int {
    if a < b then b else a
  }

  // The steps

  function StartFirst(s: State): State
    requires s.queue != []
  {
    s.(queue := s.queue[1..], running := s.running + {s.queue[0]},
       requests := s.requests + [Request(s.urlTemplate, s.queue[0])])
  }

  /** Downloads started, oldest first, until four run or none waits. */
  function Filled(s: State): State
    decreases |s.queue|
  {
    if |s.running| < MAX_CONCURRENT_DOWNLOADS && s.queue != [] then Filled(StartFirst(s)) else s
  }

  function Enqueued(s: State, key: TileKey): State {
    if key in s.queued then s else Filled(s.(queued := s.queued + {key}, queue := s.queue + [key]))
  }

  predicate MayRequest(s: State, key: TileKey, now: int) {
    key !in s.failures || (!s.failures[key].permanent && now >= s.failures[key].retryAt)
  }

  function Asked(s: State, key: TileKey, cached: bool, now: int): State {
    if !cached && s.online && MayRequest(s, key, now) then Enqueued(s, key) else s
  }

  function Aborted(s: State): State {
    s.(queued := s.queued - s.running, running := {})
  }

  function NextDelay(delay: int, retryDelay: int): int {
    if delay <= 0 then retryDelay else Min(delay * 2, Max(MAX_RETRY_DELAY, retryDelay))
  }

  function Failed(s: State, key: TileKey, permanent: bool, now: int): State {
    var before := if key in s.failures then s.failures[key] else Failure(0, 0, false);
    var delay := NextDelay(before.delay, s.retryDelay);
    s.(failures := s.failures[key := if permanent then before.(permanent := true)
                                     else Failure(now + delay, delay, before.permanent)])
  }

  function Finished(s: State, key: TileKey, outcome: Outcome, now: int): State {
    var free := s.(running := s.running - {key}, queued := s.queued - {key});
    Filled(match outcome
           case Loaded => free.(failures := free.failures - {key})
           case NotFound => Failed(free, key, true, now)
           case Transient => Failed(free, key, false, now))
  }

  predicate ChangesTemplate(s: State, urlTemplate: string) {
    Trim(urlTemplate) != "" && Trim(urlTemplate) != s.urlTemplate
  }

  function Redirected(s: State, urlTemplate: string): State {
    if !ChangesTemplate(s, urlTemplate) then s else
    Filled(Aborted(s.(urlTemplate := Trim(urlTemplate), failures := map[])))
  }

  function Permanent(failures: map<TileKey, Failure>): map<TileKey, Failure> {
    map k | k in failures && failures[k].permanent :: failures[k]
  }

  function Switched(s: State, online: bool): State {
    var kept := if online && !s.online then s.(failures := Permanent(s.failures)) else s;
    if online then kept.(online := true) else Aborted(kept).(online := false, queue := [], queued := {})
  }

  function Cleared(s: State): State {
    Aborted(s).(queue := [], queued := {})
  }

  // The state machine

  datatype Action =
    | Tile(key: TileKey, cached: bool, now: int)
    | Finish(key: TileKey, outcome: Outcome, now: int)
    | SetUrlTemplate(urlTemplate: string)
    | SetOnline(online: bool)
    | Clear
    | SetRetryDelay(delay: int)

  /** One event. Only a running download can finish: an aborted one is disconnected before. */
  function Step(s: State, a: Action): State {
    match a
    case Tile(key, cached, now) => Asked(s, key, cached, now)
    case Finish(key, outcome, now) => if key in s.running then Finished(s, key, outcome, now) else s
    case SetUrlTemplate(urlTemplate) => Redirected(s, urlTemplate)
    case SetOnline(online) => Switched(s, online)
    case Clear => Cleared(s)
    case SetRetryDelay(delay) => s.(retryDelay := delay)
  }

  function Run(s: State, actions: seq<Action>): State
    decreases |actions|
  {
    if actions == [] then s else Run(Step(s, actions[0]), actions[1..])
  }

  function Fresh(urlTemplate: string): State {
    State([], {}, {}, map[], true, DEFAULT_RETRY_DELAY, urlTemplate, [])
  }

  /** The scheduler as the cache keeps it: fields updated in place, one method per event. */
  class TileCache {
    var queue: seq<TileKey>
    var queued: set<TileKey>
    var running: set<TileKey>
    var failures: map<TileKey, Failure>
    var online: bool
    var retryDelay: int
    var urlTemplate: string
    var requests: seq<Request>

    function Contents(): State
      reads this
    {
      State(queue, queued, running, failures, online, retryDelay, urlTemplate, requests)
    }

    constructor (urlTemplate: string)
      ensures Contents() == Fresh(urlTemplate)
    {
      queue, queued, running, failures := [], {}, {}, map[];
      online, retryDelay, requests := true, DEFAULT_RETRY_DELAY, [];
      this.urlTemplate := urlTemplate;
    }

    method StartNext()
      modifies this`queue, this`running, this`requests
      ensures Contents() == Filled(old(Contents()))
    {
      while |running| < MAX_CONCURRENT_DOWNLOADS && queue != []
        invariant Filled(Contents()) == Filled(old(Contents()))
        decreases |queue|
      {
        var key := queue[0];
        queue := queue[1..];
        requests := requests + [Request(urlTemplate, key)];
        running := running + {key};
      }
    }

    method Enqueue(key: TileKey)
      modifies this`queue, this`queued, this`running, this`requests
      ensures Contents() == Enqueued(old(Contents()), key)
    {
      if key in queued {
        return;
      }
      queued := queued + {key};
      queue := queue + [key];
      StartNext();
    }

    /** Asked for by every repaint; `cached` is the memory and disk lookup. */
    method Ask(key: TileKey, cached: bool, now: int) returns (found: bool)
      modifies this`queue, this`queued, this`running, this`requests
      ensures found == cached && Contents() == Asked(old(Contents()), key, cached, now)
    {
      if cached {
        return true;
      }
      if online && MayRequest(Contents(), key, now) {
        Enqueue(key);
      }
      found := false;
    }

    method AbortRunning()
      modifies this`queued, this`running
      ensures Contents() == Aborted(old(Contents()))
    {
      var rest := running;
      while rest != {}
        invariant rest <= running == old(running)
        invariant queued == old(queued) - (running - rest)
        decreases |rest|
      {
        var key :| key in rest;
        queued := queued - {key};
        rest := rest - {key};
      }
      running := {};
    }

    method RecordFailure(key: TileKey, permanent: bool, now: int)
      modifies this`failures
      ensures Contents() == Failed(old(Contents()), key, permanent, now)
    {
      var failure := if key in failures then failures[key] else Failure(0, 0, false);
      if permanent {
        failures := failures[key := failure.(permanent := true)];
        return;
      }
      var delay := NextDelay(failure.delay, retryDelay);
      failures := failures[key := failure.(delay := delay, retryAt := now + delay)];
    }

    method FinishDownload(key: TileKey, outcome: Outcome, now: int)
      requires key in running
      modifies this
      ensures Contents() == Finished(old(Contents()), key, outcome, now)
    {
      running := running - {key};
      queued := queued - {key};
      match outcome {
        case Loaded => failures := failures - {key};
        case NotFound => RecordFailure(key, true, now);
        case Transient => RecordFailure(key, false, now);
      }
      StartNext();
    }

    method SetTemplate(urlTemplate: string)
      modifies this
      ensures Contents() == Redirected(old(Contents()), urlTemplate)
    {
      var trimmed := Trim(urlTemplate);
      if trimmed == "" || trimmed == this.urlTemplate {
        return;
      }
      this.urlTemplate := trimmed;
      failures := map[];
      AbortRunning();
      StartNext();
    }

    method SwitchOnline(online: bool)
      modifies this
      ensures Contents() == Switched(old(Contents()), online)
    {
      if online && !this.online {
        failures := Permanent(failures);
      }
      this.online := online;
      if !online {
        AbortRunning();
        queue := [];
        queued := {};
      }
    }

    method Clear()
      modifies this
      ensures Contents() == Cleared(old(Contents()))
    {
      AbortRunning();
      queue := [];
      queued := {};
    }

    /** Any event, as the cache receives it; the reply of an aborted download is disconnected. */
    method Handle(a: Action)
      modifies this
      ensures Contents() == Step(old(Contents()), a)
    {
      match a {
        case Tile(key, cached, now) => var found := Ask(key, cached, now);
        case Finish(key, outcome, now) => if key in running { FinishDownload(key, outcome, now); }
        case SetUrlTemplate(urlTemplate) => SetTemplate(urlTemplate);
        case SetOnline(online) => SwitchOnline(online);
        case Clear => Clear();
        case SetRetryDelay(delay) => retryDelay := delay;
      }
    }

    method PendingDownloads() returns (pending: nat)
      requires Inv(Contents())
      ensures pending == |queued|
    {
      PendingIsQueued(Contents());
      pending := |queue| + |running|;
    }
  }

  // What every run keeps

  function Keys(queue: seq<TileKey>): set<TileKey> {
    set k | k in queue
  }

  predicate Distinct(queue: seq<TileKey>) {
    queue == [] || (queue[0] !in queue[1..] && Distinct(queue[1..]))
  }

  lemma {:induction false} DistinctMeans(queue: seq<TileKey>, i: nat, j: nat)
    requires Distinct(queue) && i < j < |queue|
    ensures queue[i] != queue[j]
  {
    if i == 0 {
      assert queue[j] == queue[1..][j - 1];
    } else {
      DistinctMeans(queue[1..], i - 1, j - 1);
    }
  }

  lemma {:induction false} DistinctExtends(queue: seq<TileKey>, key: TileKey)
    requires Distinct(queue) && key !in queue
    ensures Distinct(queue + [key])
  {
    if queue != [] {
      DistinctExtends(queue[1..], key);
      assert (queue + [key])[1..] == queue[1..] + [key];
    }
  }

  /** What holds while downloads are being started. */
  ghost predicate Consistent(s: State) {
    && Distinct(s.queue)
    && Keys(s.queue) !! s.running
    && s.queued == Keys(s.queue) + s.running
    && |s.running| <= MAX_CONCURRENT_DOWNLOADS
    && (!s.online ==> s.queue == [] && s.running == {})
    && forall k :: k in s.failures && s.failures[k].permanent ==> k !in s.queued
  }

  /** What holds between events. */
  ghost predicate Inv(s: State) {
    && Consistent(s)
    && (s.queue != [] ==> |s.running| == MAX_CONCURRENT_DOWNLOADS)
  }

  lemma {:induction false} PendingIsQueued(s: State)
    requires Inv(s)
    ensures |s.queue| + |s.running| == |s.queued|
  {
    KeysCount(s.queue);
  }

  lemma {:induction false} KeysCount(queue: seq<TileKey>)
    requires Distinct(queue)
    ensures |Keys(queue)| == |queue|
  {
    if queue != [] {
      assert Keys(queue) == Keys(queue[1..]) + {queue[0]};
      KeysCount(queue[1..]);
    }
  }

  lemma KeysOfRest(queue: seq<TileKey>)
    requires queue != []
    ensures Keys(queue) == Keys(queue[1..]) + {queue[0]}
    ensures queue[0] in queue[1..] <==> queue[0] in Keys(queue[1..])
  {
  }

  /** Moving the head of the queue to the running downloads keeps both apart and their union the same. */
  lemma HeadMoves(queue: seq<TileKey>, running: set<TileKey>)
    requires queue != [] && Distinct(queue) && Keys(queue) !! running
    ensures Distinct(queue[1..]) && Keys(queue[1..]) !! running + {queue[0]}
    ensures Keys(queue[1..]) + (running + {queue[0]}) == Keys(queue) + running
    ensures |running + {queue[0]}| == |running| + 1
  {
    var key, rest := queue[0], queue[1..];
    assert Distinct(rest) && key !in rest;
    KeysOfRest(queue);
    hide Distinct, Keys;
    assert key in Keys(queue);
  }

  lemma StartFirstKeeps(s: State)
    requires Consistent(s) && |s.running| < MAX_CONCURRENT_DOWNLOADS && s.queue != []
    ensures Consistent(StartFirst(s))
  {
    hide Distinct, Keys;
    HeadMoves(s.queue, s.running);
  }

  /** Starting downloads fills the slots, takes from the front of the queue and asks in that order. */
  lemma {:induction false} FilledKeeps(s: State)
    requires Consistent(s)
    ensures Inv(Filled(s))
    decreases |s.queue|
  {
    if |s.running| < MAX_CONCURRENT_DOWNLOADS && s.queue != [] {
      StartFirstKeeps(s);
      FilledKeeps(StartFirst(s));
    }
  }

  lemma QueuedExtends(s: State, key: TileKey)
    requires Inv(s) && s.online && key !in s.queued
    requires key in s.failures ==> !s.failures[key].permanent
    ensures Consistent(s.(queued := s.queued + {key}, queue := s.queue + [key]))
  {
    hide Distinct, Keys;
    assert key !in s.queue && key !in s.running by {
      KeysExtend(s.queue, key);
    }
    DistinctExtends(s.queue, key);
    KeysExtend(s.queue, key);
  }

  lemma KeysExtend(queue: seq<TileKey>, key: TileKey)
    ensures Keys(queue + [key]) == Keys(queue) + {key}
    ensures key in queue <==> key in Keys(queue)
  {
  }

  lemma EnqueuedKeeps(s: State, key: TileKey)
    requires Inv(s) && s.online
    requires key in s.failures ==> !s.failures[key].permanent
    ensures Inv(Enqueued(s, key))
  {
    if key !in s.queued {
      var t := s.(queued := s.queued + {key}, queue := s.queue + [key]);
      QueuedExtends(s, key);
      FilledKeeps(t);
    }
  }

  lemma {:induction false} FinishedKeeps(s: State, key: TileKey, outcome: Outcome, now: int)
    requires Inv(s) && key in s.running
    ensures Inv(Finished(s, key, outcome, now))
  {
    var free := s.(running := s.running - {key}, queued := s.queued - {key});
    assert Consistent(free);
    FilledKeeps(match outcome
                case Loaded => free.(failures := free.failures - {key})
                case NotFound => Failed(free, key, true, now)
                case Transient => Failed(free, key, false, now));
  }

  lemma StepKeeps(s: State, a: Action)
    requires Inv(s)
    ensures Inv(Step(s, a))
  {
    match a {
      case Tile(key, cached, now) =>
        if !cached && s.online && MayRequest(s, key, now) {
          EnqueuedKeeps(s, key);
        }
      case Finish(key, outcome, now) =>
        if key in s.running {
          FinishedKeeps(s, key, outcome, now);
        }
      case SetUrlTemplate(urlTemplate) =>
        if ChangesTemplate(s, urlTemplate) {
          FilledKeeps(Aborted(s.(urlTemplate := Trim(urlTemplate), failures := map[])));
        }
      case _ =>
    }
  }

  /** Every run keeps the bookkeeping: what is queued or running once and only once, four at a time, nothing
      waiting while a slot is free, nothing at all offline, and nothing the server does not have. */
  lemma {:induction false} RunKeeps(s: State, actions: seq<Action>)
    requires Inv(s)
    ensures Inv(Run(s, actions))
    decreases |actions|
  {
    hide Inv, Step;
    if actions != [] {
      StepKeeps(s, actions[0]);
      RunKeeps(Step(s, actions[0]), actions[1..]);
    }
  }
}
