/**
 * The stale-while-revalidate cache in front of the upstream load, as a state
 * machine. The process-wide cache slot starts empty; every event (a data
 * request, the completion of a background refresh, a manual refresh) is one
 * atomic transition. The clock reading and the outcome of the upstream load
 * are parameters of the event.
 */
module Cache {
  import opened Wrappers

  /** How long a cached entry counts as fresh: 30 minutes, in milliseconds. */
  const CacheDuration: int := 30 * 60 * 1000

  /** The cached table set, when it was loaded, and whether a background refresh is under way. */
  datatype Entry<D> = Entry(timestamp: int, data: D, refreshing: bool)

  /** Why the upstream load failed (the message of the thrown error). */
  datatype LoadError = LoadError(message: string)

  /**
   * The cache slot together with the number of background refresh tasks that
   * have been started and have not yet completed.
   */
  datatype Sys<D> = Sys(cache: Option<Entry<D>>, pending: nat)

  /** The state when the process starts: no entry, nothing in flight. */
  function Init<D>(): Sys<D> {
    Sys(None, 0)
  }

  /** What a data request answers: the data, whether it came from the cache, and whether it scheduled a refresh. */
  datatype Reply<D> = Reply(data: D, fromCache: bool, refreshScheduled: bool)

  /** The next state and the answer of one request; an error answer becomes a 500 response. */
  datatype Served<D, A> = Served(next: Sys<D>, answer: Result<A, LoadError>)

  /** The entry is older than the cache duration at time `now` (strictly). */
  predicate IsStale<D>(e: Entry<D>, now: int) {
    now - e.timestamp > CacheDuration
  }

  /**
   * A request on the main endpoint at time `now`. `load` is what the upstream
   * load would return if this request performed one; only a debug request or
   * a request on an empty cache does.
   */
  function Request<D>(s: Sys<D>, isDebug: bool, now: int, load: Result<D, LoadError>): (out: Served<D, Reply<D>>)
    // a debug request loads from upstream and neither reads nor writes the cache
    ensures isDebug ==> out.next == s
    ensures isDebug ==> out.answer == (match load
                                       case Success(d) => Success(Reply(d, false, false))
                                       case Failure(e) => Failure(e))
    // a normal request on an empty cache loads, and stores the result only on success
    ensures !isDebug && s.cache.None? ==> out.next.pending == s.pending
    ensures !isDebug && s.cache.None? && load.Success? ==>
              && out.next.cache == Some(Entry(now, load.value, false))
              && out.answer == Success(Reply(load.value, false, false))
    ensures !isDebug && s.cache.None? && load.Failure? ==> out.next == s && out.answer == Failure(load.error)
    // a normal request on a filled cache answers from it, whatever the upstream would say
    ensures !isDebug && s.cache.Some? ==>
              && out.answer.Success?
              && out.answer.value.data == s.cache.value.data
              && out.answer.value.fromCache
              && (out.answer.value.refreshScheduled <==> IsStale(s.cache.value, now) && !s.cache.value.refreshing)
    // serving from the cache changes at most the refreshing flag, which it only ever sets
    ensures !isDebug && s.cache.Some? ==>
              && out.next.cache.Some?
              && out.next.cache.value.data == s.cache.value.data
              && out.next.cache.value.timestamp == s.cache.value.timestamp
              && (out.next.cache.value.refreshing <==> s.cache.value.refreshing || out.answer.value.refreshScheduled)
              && out.next.pending == s.pending + (if out.answer.value.refreshScheduled then 1 else 0)
  {
    if s.cache.Some? && !isDebug then
      var e := s.cache.value;
      var needsRefresh := now - e.timestamp > CacheDuration && !e.refreshing;
      if needsRefresh then
        Served(Sys(Some(e.(refreshing := true)), s.pending + 1), Success(Reply(e.data, true, true)))
      else
        Served(s, Success(Reply(e.data, true, false)))
    else
      match load
      case Failure(err) => Served(s, Failure(err))
      case Success(d) =>
        var next := if isDebug then s else Sys(Some(Entry(now, d, false)), s.pending);
        Served(next, Success(Reply(d, false, false)))
  }

  /**
   * The freshness boundary is strict: an idle entry exactly the cache duration
   * old is still served without a refresh; one millisecond later the request
   * schedules one.
   */
  lemma TtlBoundary<D>(s: Sys<D>, now: int, load: Result<D, LoadError>)
    requires s.cache.Some? && !s.cache.value.refreshing
    ensures now == s.cache.value.timestamp + CacheDuration ==> !Request(s, false, now, load).answer.value.refreshScheduled
    ensures now == s.cache.value.timestamp + CacheDuration + 1 ==> Request(s, false, now, load).answer.value.refreshScheduled
  {
  }

  /**
   * One started background refresh finishes at time `now` with outcome `load`:
   * success installs a fresh entry; failure keeps the stale data and timestamp
   * and only clears the refreshing flag, so the stale entry keeps being served.
   */
  function BackgroundDone<D>(s: Sys<D>, now: int, load: Result<D, LoadError>): (s': Sys<D>)
    requires s.pending > 0
    ensures s'.pending == s.pending - 1
    ensures load.Success? ==> s'.cache == Some(Entry(now, load.value, false))
    ensures load.Failure? ==> (s'.cache.Some? <==> s.cache.Some?)
    ensures load.Failure? && s.cache.Some? ==>
              && s'.cache.value.data == s.cache.value.data
              && s'.cache.value.timestamp == s.cache.value.timestamp
              && !s'.cache.value.refreshing
  {
    match load
    case Success(d) => Sys(Some(Entry(now, d, false)), s.pending - 1)
    case Failure(_) =>
      var cache := if s.cache.Some? then Some(s.cache.value.(refreshing := false)) else None;
      Sys(cache, s.pending - 1)
  }

  /**
   * A manual refresh at time `now` with outcome `load`: success replaces the
   * entry unconditionally (also clearing the refreshing flag); failure leaves
   * the cache untouched and is reported to the caller.
   */
  function ManualRefresh<D>(s: Sys<D>, now: int, load: Result<D, LoadError>): (out: Served<D, ()>)
    ensures out.next.pending == s.pending
    ensures load.Success? ==> out.next.cache == Some(Entry(now, load.value, false)) && out.answer.Success?
    ensures load.Failure? ==> out.next == s && out.answer == Failure(load.error)
  {
    match load
    case Success(d) => Served(Sys(Some(Entry(now, d, false)), s.pending), Success(()))
    case Failure(err) => Served(s, Failure(err))
  }

  /** The events that change the cache, in the order they take effect. */
  datatype Event<D> =
    | RequestEvent(isDebug: bool, now: int, load: Result<D, LoadError>)
    | BackgroundEvent(now: int, load: Result<D, LoadError>)
    | ManualEvent(now: int, load: Result<D, LoadError>)

  /** One event; a background completion with no refresh in flight cannot happen (`None`). */
  function Step<D>(s: Sys<D>, e: Event<D>): Option<Sys<D>> {
    match e
    case RequestEvent(isDebug, now, load) => Some(Request(s, isDebug, now, load).next)
    case BackgroundEvent(now, load) => if s.pending > 0 then Some(BackgroundDone(s, now, load)) else None
    case ManualEvent(now, load) => Some(ManualRefresh(s, now, load).next)
  }

  /** The state after `events` from `s`, or `None` if the sequence cannot happen. */
  function RunFrom<D>(s: Sys<D>, events: seq<Event<D>>): Option<Sys<D>>
    decreases |events|
  {
    if events == [] then Some(s)
    else
      match RunFrom(s, events[..|events| - 1])
      case None => None
      case Some(mid) => Step(mid, events[|events| - 1])
  }

  /**
   * Single-flight: a refresh is in flight exactly when the entry is marked
   * refreshing, and then there is exactly one.
   */
  predicate SingleFlight<D>(s: Sys<D>) {
    s.pending == if s.cache.Some? && s.cache.value.refreshing then 1 else 0
  }

  /** Requests and background completions keep the single-flight invariant. */
  lemma StepKeepsSingleFlight<D>(s: Sys<D>, e: Event<D>)
    requires SingleFlight(s) && !e.ManualEvent?
    ensures Step(s, e).Some? ==> SingleFlight(Step(s, e).value)
  {
  }

  /**
   * Without manual refreshes, and with every cold-path load atomic, from
   * process start at most one background refresh is ever in flight, and one
   * is in flight exactly while the entry is marked refreshing. A cold load
   * that lands late breaks this (`LateColdLoadAllowsSecondRefresh`).
   */
  lemma {:induction false} AtMostOneRefreshInFlight<D>(events: seq<Event<D>>)
    requires forall k :: 0 <= k < |events| ==> !events[k].ManualEvent?
    ensures RunFrom(Init(), events).Some? ==> SingleFlight(RunFrom(Init(), events).value)
    ensures RunFrom(Init(), events).Some? ==> RunFrom(Init(), events).value.pending <= 1
    decreases |events|
  {
    if events != [] {
      var n := |events| - 1;
      AtMostOneRefreshInFlight(events[..n]);
      var mid := RunFrom(Init(), events[..n]);
      if mid.Some? {
        StepKeepsSingleFlight(mid.value, events[n]);
      }
    }
  }

  /**
   * While a refresh is under way, no request schedules another: any run of
   * requests alone keeps the same entry data, keeps it marked refreshing and
   * starts no further background task.
   */
  lemma {:induction false} NoSecondRefreshWhileRefreshing<D>(s: Sys<D>, events: seq<Event<D>>)
    requires s.cache.Some? && s.cache.value.refreshing
    requires forall k :: 0 <= k < |events| ==> events[k].RequestEvent?
    ensures RunFrom(s, events).Some?
    ensures RunFrom(s, events).value.pending == s.pending
    ensures RunFrom(s, events).value.cache.Some?
    ensures RunFrom(s, events).value.cache.value.refreshing
    ensures RunFrom(s, events).value.cache.value.data == s.cache.value.data
    decreases |events|
  {
    if events != [] {
      var n := |events| - 1;
      NoSecondRefreshWhileRefreshing(s, events[..n]);
    }
  }

  /**
   * Manual refreshes break single flight: one clears the refreshing flag
   * while a background refresh is still in flight, and a later stale request
   * then starts a second one.
   */
  lemma ManualRefreshAllowsSecondRefresh(a: int, b: int)
    ensures var events := [
              RequestEvent(false, 0, Success(a)),
              RequestEvent(false, CacheDuration + 1, Success(a)),
              ManualEvent(CacheDuration + 2, Success(b)),
              RequestEvent(false, 2 * CacheDuration + 3, Success(b))];
            RunFrom(Init(), events) == Some(Sys(Some(Entry(CacheDuration + 2, b, true)), 2))
  {
    var events := [
      RequestEvent(false, 0, Success(a)),
      RequestEvent(false, CacheDuration + 1, Success(a)),
      ManualEvent(CacheDuration + 2, Success(b)),
      RequestEvent(false, 2 * CacheDuration + 3, Success(b))];
    assert events[..1][..0] == [];
    assert events[..2][..1] == events[..1];
    assert events[..3][..2] == events[..2];
    assert events[..4] == events;
    assert RunFrom(Init(), events[..1]) == Some(Sys(Some(Entry(0, a, false)), 0));
    assert RunFrom(Init(), events[..2]) == Some(Sys(Some(Entry(0, a, true)), 1));
    assert RunFrom(Init(), events[..3]) == Some(Sys(Some(Entry(CacheDuration + 2, b, false)), 1));
  }

  /**
   * The store that ends a request on an empty cache, taken when its upstream
   * load returns: the request read the clock at `started`, before awaiting the
   * load. Success stores the entry unconditionally, whatever the cache holds by
   * then; failure stores nothing.
   */
  function ColdLoadLands<D>(s: Sys<D>, started: int, load: Result<D, LoadError>): (s': Sys<D>)
    ensures s'.pending == s.pending
    ensures load.Success? ==> s'.cache == Some(Entry(started, load.value, false))
    ensures load.Failure? ==> s' == s
  {
    match load
    case Success(d) => Sys(Some(Entry(started, d, false)), s.pending)
    case Failure(_) => s
  }

  /** A normal request on an empty cache is its own load landing at once: the atomic form of the cold path. */
  lemma ColdRequestIsImmediateLanding<D>(s: Sys<D>, now: int, load: Result<D, LoadError>)
    requires s.cache.None?
    ensures Request(s, false, now, load).next == ColdLoadLands(s, now, load)
  {
  }

  /**
   * A cold load that lands late also breaks single flight, with no manual
   * refresh: a request that found the cache empty at time 0 is still awaiting
   * its load while another cold request fills the cache at time 1 and a stale
   * request at `CacheDuration + 2` starts a background refresh. The late store
   * clears the refreshing flag with the refresh still in flight, and the next
   * stale request starts a second one.
   */
  lemma LateColdLoadAllowsSecondRefresh(a: int, b: int)
    ensures var events := [RequestEvent(false, 1, Success(a)), RequestEvent(false, CacheDuration + 2, Success(a))];
            && RunFrom(Init(), events) == Some(Sys(Some(Entry(1, a, true)), 1))
            && var landed := ColdLoadLands(RunFrom(Init(), events).value, 0, Success(b));
               Request(landed, false, CacheDuration + 3, Success(b)).next == Sys(Some(Entry(0, b, true)), 2)
  {
    var events := [RequestEvent(false, 1, Success(a)), RequestEvent(false, CacheDuration + 2, Success(a))];
    assert events[..1][..0] == [];
    assert events[..2] == events;
    assert RunFrom(Init(), events[..1]) == Some(Sys(Some(Entry(1, a, false)), 0));
  }

  /**
   * The entry's data and timestamp were produced by event `e` taken in state
   * `pre`: a successful load at that time by a non-debug request that found
   * the cache empty, by a background refresh or by a manual refresh.
   */
  ghost predicate Produced<D>(pre: Sys<D>, e: Event<D>, entry: Entry<D>) {
    match e
    case RequestEvent(isDebug, now, load) => !isDebug && pre.cache.None? && load == Success(entry.data) && now == entry.timestamp
    case BackgroundEvent(now, load) => load == Success(entry.data) && now == entry.timestamp
    case ManualEvent(now, load) => load == Success(entry.data) && now == entry.timestamp
  }

  /** Event `events[k]`, taken in the state the events before it reach from process start, produced `entry`. */
  ghost predicate ProducedAt<D>(events: seq<Event<D>>, k: int, entry: Entry<D>) {
    && 0 <= k < |events|
    && RunFrom(Init(), events[..k]).Some?
    && Produced(RunFrom(Init(), events[..k]).value, events[k], entry)
  }

  /** A step either keeps the entry's data and timestamp or installs what the event itself loaded. */
  lemma StepKeepsOrProduces<D>(s: Sys<D>, e: Event<D>)
    requires Step(s, e).Some? && Step(s, e).value.cache.Some?
    ensures || (s.cache.Some?
                && Step(s, e).value.cache.value.data == s.cache.value.data
                && Step(s, e).value.cache.value.timestamp == s.cache.value.timestamp)
            || Produced(s, e, Step(s, e).value.cache.value)
  {
  }

  /**
   * Whatever the cache holds was returned by a successful load at the time
   * recorded in the entry, performed by a request that found the cache empty,
   * a background refresh or a manual refresh: debug loads, failed loads and
   * the unused loads of requests served from the cache never reach it.
   */
  lemma {:induction false} CachedDataWasLoaded<D>(events: seq<Event<D>>)
    requires RunFrom(Init(), events).Some? && RunFrom(Init(), events).value.cache.Some?
    ensures exists k :: ProducedAt(events, k, RunFrom(Init(), events).value.cache.value)
    decreases |events|
  {
    var n := |events| - 1;
    var mid := RunFrom(Init<D>(), events[..n]);
    var s' := RunFrom(Init(), events).value;
    StepKeepsOrProduces(mid.value, events[n]);
    if Produced(mid.value, events[n], s'.cache.value) {
      assert ProducedAt(events, n, s'.cache.value);
    } else {
      CachedDataWasLoaded(events[..n]);
      var k :| ProducedAt(events[..n], k, mid.value.cache.value);
      assert events[..n][..k] == events[..k];
      assert events[..n][k] == events[k];
      assert ProducedAt(events, k, s'.cache.value);
    }
  }

  /** Once filled, the cache is never emptied again by any event. */
  lemma {:induction false} FilledStaysFilled<D>(s: Sys<D>, events: seq<Event<D>>)
    requires s.cache.Some?
    ensures RunFrom(s, events).Some? ==> RunFrom(s, events).value.cache.Some?
    decreases |events|
  {
    if events != [] {
      FilledStaysFilled(s, events[..|events| - 1]);
    }
  }
}
