/** controllers/eventsController.cs, `GetEvents`: the list query, fronted by
    a frequency-gated cache of single-event lookups held in two instance
    dictionaries. */
module EventsController {
  import opened Wrappers
  import opened Models
  import opened Data
  import EventService

  const VisitThresholdForCache := 5
  const ErrorRetrievingEvents := "Error retrieving events"

  /** The cache key is built from the begin time, artist name, location and
      title; the end time is not part of it. */
  datatype CacheKey = CacheKey(begin: DateTime, artistName: string, location: string, title: string)

  /** The query parameters of `GET /api/events`. */
  datatype EventsQuery = EventsQuery(
    take: int,
    skip: int,
    artistName: Option<string>,
    title: Option<string>,
    location: Option<string>,
    beginDatetime: Option<DateTime>,
    endDatetime: Option<DateTime>)

  /** What the action answers. */
  datatype EventsReply =
    | EventList(events: seq<Event>)             // Ok(events)
    | CachedDetail(eventDetail: Event)           // Ok(new { eventDetail, cached = true })
    | FetchedDetail(detail: Option<Event>)       // Ok(eventResult)
    | ServerError(statusCode: int, message: string)

  /** `_frequencyCache` (string -> int?) and `_memoryCache` (string -> Event). */
  type FrequencyCache = map<CacheKey, Option<int>>
  type MemoryCache = map<CacheKey, Option<Event>>

  datatype Caches = Caches(frequency: FrequencyCache, memory: MemoryCache)

  const EmptyCaches := Caches(map[], map[])

  /** All five of title, artist name, begin, end and location are given. */
  predicate Complete(q: EventsQuery) {
    q.title.Some? && q.artistName.Some? && q.beginDatetime.Some? && q.endDatetime.Some? && q.location.Some?
  }

  function KeyOf(q: EventsQuery): CacheKey
    requires Complete(q)
  {
    CacheKey(q.beginDatetime.value, q.artistName.value, q.location.value, q.title.value)
  }

  /** Two complete queries that differ only in their end time share a key. */
  lemma KeyIgnoresEnd(q: EventsQuery, end: DateTime)
    requires Complete(q)
    ensures Complete(q.(endDatetime := Some(end))) && KeyOf(q.(endDatetime := Some(end))) == KeyOf(q)
  {
  }

  /** The list query; an exception it raises is caught and answered with
      500 "Error retrieving events". */
  function ListReply(db: Catalogue, q: EventsQuery): (r: EventsReply)
    ensures r.ServerError? <==> q.take < 0 || q.skip < 0
    ensures r.ServerError? ==> r == ServerError(500, ErrorRetrievingEvents)
    ensures r.EventList? ==>
      EventService.GetEventsAsync(db, q.title, q.artistName, q.beginDatetime, q.endDatetime, q.location, q.take, q.skip) == Ok(r.events)
  {
    match EventService.GetEventsAsync(db, q.title, q.artistName, q.beginDatetime, q.endDatetime, q.location, q.take, q.skip)
    case Ok(events) => EventList(events)
    case Err(_) => ServerError(500, ErrorRetrievingEvents)
  }

  function FetchDetail(db: Catalogue, q: EventsQuery): Result<Option<Event>>
    requires Complete(q)
  {
    EventService.GetEventAsync(db, q.title.value, q.artistName.value, q.beginDatetime.value, q.endDatetime.value, q.location.value)
  }

  /** The frequency update: only a key already present is rewritten, a null
      count becoming 1 and a count n becoming n + 1 (unchecked `++`). */
  function Bumped(freq: FrequencyCache, key: CacheKey): (r: FrequencyCache)
    ensures r.Keys == freq.Keys
    ensures forall k :: k in freq && k != key ==> r[k] == freq[k]
    ensures key in freq && freq[key].None? ==> r[key] == Some(1)
    ensures key in freq && freq[key].Some? ==> r[key] == Some(Wrap32(freq[key].value + 1))
    ensures key in freq && freq[key].Some? && InInt32(freq[key].value + 1) ==> r[key] == Some(freq[key].value + 1)
  {
    if key !in freq then freq
    else match freq[key]
      case None => freq[key := Some(1)]
      case Some(n) => freq[key := Some(Wrap32(n + 1))]
  }

  /** `Dictionary.Add`: throws when the key is already present. */
  function Add<K, V>(m: map<K, V>, k: K, v: V): (r: Result<map<K, V>>)
    ensures r.Ok? <==> k !in m
    ensures r.Ok? ==> r.value == m[k := v]
  {
    if k in m then Err("An item with the same key has already been added.") else Ok(m[k := v])
  }

  /** One call of `GetEvents` as written: its reply and the caches after it.
      Fetching, counting and admission all sit inside the branch where the
      key is already in the warm cache, so the warm cache never changes and
      the frequency cache never gains a key. */
  function Respond(db: Catalogue, s: Caches, q: EventsQuery): (res: (Caches, EventsReply))
    ensures res.0.memory == s.memory
    ensures res.0.frequency.Keys == s.frequency.Keys
    ensures forall k :: k in s.frequency && !(Complete(q) && k == KeyOf(q)) ==> res.0.frequency[k] == s.frequency[k]
    ensures !Complete(q) || KeyOf(q) !in s.memory ==> res == (s, ListReply(db, q))
    ensures Complete(q) && KeyOf(q) in s.memory && s.memory[KeyOf(q)].Some? ==>
      res == (s, CachedDetail(s.memory[KeyOf(q)].value))
    ensures res.1.CachedDetail? ==> Complete(q) && KeyOf(q) in s.memory && s.memory[KeyOf(q)] == Some(res.1.eventDetail)
    ensures res.1.ServerError? ==> res.1 == ServerError(500, ErrorRetrievingEvents)
  {
    if !Complete(q) then (s, ListReply(db, q))
    else
      var key := KeyOf(q);
      if key !in s.memory then (s, ListReply(db, q))
      else match s.memory[key]
        case Some(cached) => (s, CachedDetail(cached))
        case None => Miss(db, s, q)
  }

  /** The branch of `Respond` where the key is in the warm cache with a
      null entry: fetch, count, and maybe admit. */
  function Miss(db: Catalogue, s: Caches, q: EventsQuery): (res: (Caches, EventsReply))
    requires Complete(q) && KeyOf(q) in s.memory
    ensures res.0.memory == s.memory
    ensures res.0.frequency.Keys == s.frequency.Keys
    ensures forall k :: k in s.frequency && k != KeyOf(q) ==> res.0.frequency[k] == s.frequency[k]
    ensures res.1.ServerError? ==> res.1 == ServerError(500, ErrorRetrievingEvents)
  {
    var key := KeyOf(q);
    var fetched := FetchDetail(db, q);
    if fetched.Err? then (s, ServerError(500, ErrorRetrievingEvents))
    else
      var counted := s.(frequency := Bumped(s.frequency, key));
      match fetched.value
        case None => (counted, FetchedDetail(None))
        case Some(e) =>
          if key !in counted.frequency then (counted, ServerError(500, ErrorRetrievingEvents))
          else if counted.frequency[key].Some? && counted.frequency[key].value >= VisitThresholdForCache then
            match Add(counted.memory, key, Some(e))
              case Err(_) => (counted, ServerError(500, ErrorRetrievingEvents))
              case Ok(m) => (counted.(memory := m), FetchedDetail(Some(e)))
          else (counted, FetchedDetail(Some(e)))
  }

  /** What a miss does: a failed fetch is 500 with nothing changed;
      otherwise the count is bumped, a missing event is returned as null,
      and a found event is returned while its count is below the threshold
      and answered with 500 from then on, since adding a key the warm cache
      already holds throws (as does reading a count that was never
      stored). */
  lemma MissOutcome(db: Catalogue, s: Caches, q: EventsQuery)
    requires Complete(q) && KeyOf(q) in s.memory
    ensures FetchDetail(db, q).Err? ==> Miss(db, s, q) == (s, ServerError(500, ErrorRetrievingEvents))
    ensures FetchDetail(db, q).Ok? ==> Miss(db, s, q).0 == s.(frequency := Bumped(s.frequency, KeyOf(q)))
    ensures FetchDetail(db, q) == Ok(None) ==> Miss(db, s, q).1 == FetchedDetail(None)
    ensures FetchDetail(db, q).Ok? && FetchDetail(db, q).value.Some? ==>
      Miss(db, s, q).1 ==
        if KeyOf(q) in s.frequency && Bumped(s.frequency, KeyOf(q))[KeyOf(q)].Some?
           && Bumped(s.frequency, KeyOf(q))[KeyOf(q)].value < VisitThresholdForCache
        then FetchedDetail(FetchDetail(db, q).value)
        else ServerError(500, ErrorRetrievingEvents)
  {
  }

  /** A sequence of calls on one controller instance, in order. */
  function Replay(db: Catalogue, s: Caches, qs: seq<EventsQuery>): (r: (Caches, seq<EventsReply>))
    ensures |r.1| == |qs|
  {
    if qs == [] then (s, [])
    else
      var before := Replay(db, s, qs[..|qs| - 1]);
      var step := Respond(db, before.0, qs[|qs| - 1]);
      (step.0, before.1 + [step.1])
  }

  /** One more call extends the replay by that call's step. */
  lemma ReplaySnoc(db: Catalogue, s: Caches, qs: seq<EventsQuery>, q: EventsQuery)
    ensures Replay(db, s, qs + [q]) ==
      (Respond(db, Replay(db, s, qs).0, q).0, Replay(db, s, qs).1 + [Respond(db, Replay(db, s, qs).0, q).1])
  {
    assert (qs + [q])[..|qs|] == qs;
  }

  /** Whatever is asked, the warm cache keeps the entries it started with,
      and so does the key set of the frequency cache. */
  lemma {:induction false} ReplayKeepsKeys(db: Catalogue, s: Caches, qs: seq<EventsQuery>)
    ensures Replay(db, s, qs).0.memory == s.memory
    ensures Replay(db, s, qs).0.frequency.Keys == s.frequency.Keys
  {
    if qs != [] {
      ReplayKeepsKeys(db, s, qs[..|qs| - 1]);
    }
  }

  /** Both caches start empty and stay empty, and every call is answered by
      the list query. */
  lemma {:induction false} ReplayFromEmpty(db: Catalogue, qs: seq<EventsQuery>)
    ensures Replay(db, EmptyCaches, qs).0 == EmptyCaches
    ensures forall i :: 0 <= i < |qs| ==> Replay(db, EmptyCaches, qs).1[i] == ListReply(db, qs[i])
  {
    if qs != [] {
      var init, last := qs[..|qs| - 1], qs[|qs| - 1];
      assert qs == init + [last];
      ReplayFromEmpty(db, init);
      ReplaySnoc(db, EmptyCaches, init, last);
      var replies := Replay(db, EmptyCaches, init).1 + [ListReply(db, last)];
      forall i | 0 <= i < |qs| ensures replies[i] == ListReply(db, qs[i]) {
        if i < |init| {
          assert qs[i] == init[i];
        }
      }
    }
  }

  function Repeat(q: EventsQuery, n: nat): (r: seq<EventsQuery>)
    ensures |r| == n && forall i :: 0 <= i < n ==> r[i] == q
  {
    if n == 0 then [] else Repeat(q, n - 1) + [q]
  }

  /** The sixth identical lookup of an existing event is still answered by
      the list query: nothing was ever promoted. */
  lemma SixthLookupNotCached(db: Catalogue, q: EventsQuery)
    requires Complete(q)
    ensures Replay(db, EmptyCaches, Repeat(q, 6)).1[5] == ListReply(db, q)
    ensures !Replay(db, EmptyCaches, Repeat(q, 6)).1[5].CachedDetail?
  {
    ReplayFromEmpty(db, Repeat(q, 6));
  }

  // ---------------------------------------------------------------------
  // The admission filter as intended: count every complete lookup that
  // misses the warm cache, and admit the result once the count reaches
  // the threshold.

  /** The count a lookup has reached: a null or missing count is 0. */
  function CountOf(freq: FrequencyCache, key: CacheKey): int {
    if key in freq && freq[key].Some? then freq[key].value else 0
  }

  /** The fetch finds the event and the lookup reaches the threshold. */
  predicate Admits(db: Catalogue, s: Caches, q: EventsQuery)
    requires Complete(q)
  {
    && FetchDetail(db, q).Ok? && FetchDetail(db, q).value.Some?
    && CountOf(s.frequency, KeyOf(q)) + 1 >= VisitThresholdForCache
  }

  /** The warm cache holds an event for the lookup's key. */
  predicate Hit(s: Caches, q: EventsQuery) {
    Complete(q) && KeyOf(q) in s.memory && s.memory[KeyOf(q)].Some?
  }

  function IntendedRespond(db: Catalogue, s: Caches, q: EventsQuery): (res: (Caches, EventsReply))
    ensures forall k :: k in s.memory ==> k in res.0.memory
    ensures Hit(s, q) ==> res == (s, CachedDetail(s.memory[KeyOf(q)].value))
    ensures res.1.CachedDetail? ==> Hit(s, q)
    ensures !Complete(q) ==> res == (s, ListReply(db, q))
    ensures Complete(q) && !Hit(s, q) && FetchDetail(db, q).Ok? ==> res.1 == FetchedDetail(FetchDetail(db, q).value)
  {
    if !Complete(q) then (s, ListReply(db, q))
    else if Hit(s, q) then (s, CachedDetail(s.memory[KeyOf(q)].value))
    else
      var key := KeyOf(q);
      var fetched := FetchDetail(db, q);
      var counted := s.(frequency := s.frequency[key := Some(CountOf(s.frequency, key) + 1)]);
      if fetched.Err? then (counted, ServerError(500, ErrorRetrievingEvents))
      else if Admits(db, s, q) then (counted.(memory := s.memory[key := fetched.value]), FetchedDetail(fetched.value))
      else (counted, FetchedDetail(fetched.value))
  }

  /** A corrected miss raises the key's count from c to c + 1, answers a
      failed fetch with 500, and admits a found event exactly when c + 1
      reaches the threshold. */
  lemma IntendedMissOutcome(db: Catalogue, s: Caches, q: EventsQuery)
    requires Complete(q) && !Hit(s, q)
    ensures IntendedRespond(db, s, q).0.frequency == s.frequency[KeyOf(q) := Some(CountOf(s.frequency, KeyOf(q)) + 1)]
    ensures IntendedRespond(db, s, q).0.memory ==
      if Admits(db, s, q) then s.memory[KeyOf(q) := FetchDetail(db, q).value] else s.memory
    ensures FetchDetail(db, q).Err? ==> IntendedRespond(db, s, q).1 == ServerError(500, ErrorRetrievingEvents)
  {
  }

  function ReplayIntended(db: Catalogue, s: Caches, qs: seq<EventsQuery>): (r: (Caches, seq<EventsReply>))
    ensures |r.1| == |qs|
  {
    if qs == [] then (s, [])
    else
      var before := ReplayIntended(db, s, qs[..|qs| - 1]);
      var step := IntendedRespond(db, before.0, qs[|qs| - 1]);
      (step.0, before.1 + [step.1])
  }

  lemma ReplayIntendedSnoc(db: Catalogue, s: Caches, qs: seq<EventsQuery>, q: EventsQuery)
    ensures ReplayIntended(db, s, qs + [q]) ==
      (IntendedRespond(db, ReplayIntended(db, s, qs).0, q).0,
       ReplayIntended(db, s, qs).1 + [IntendedRespond(db, ReplayIntended(db, s, qs).0, q).1])
  {
    assert (qs + [q])[..|qs|] == qs;
  }

  /** A lookup counted `c` times before, not yet admitted, is counted once
      more and admitted when the count reaches the threshold. */
  lemma IntendedMissStep(db: Catalogue, q: EventsQuery, e: Event, c: nat)
    requires Complete(q) && FetchDetail(db, q) == Ok(Some(e))
    ensures var s := Caches(if c == 0 then map[] else map[KeyOf(q) := Some(c)], map[]);
      IntendedRespond(db, s, q) ==
        (Caches(map[KeyOf(q) := Some(c + 1)], if c + 1 >= VisitThresholdForCache then map[KeyOf(q) := Some(e)] else map[]),
         FetchedDetail(Some(e)))
  {
    var key := KeyOf(q);
    var freq: FrequencyCache := if c == 0 then map[] else map[key := Some(c)];
    assert freq[key := Some(c + 1)] == map[key := Some(c + 1)];
  }

  /** Up to the threshold, n identical lookups of an existing event leave
      the count at n, and admit the event exactly when n reaches the
      threshold. */
  lemma {:induction false} IntendedWarmUpState(db: Catalogue, q: EventsQuery, e: Event, n: nat)
    requires Complete(q) && FetchDetail(db, q) == Ok(Some(e))
    requires n <= VisitThresholdForCache
    ensures ReplayIntended(db, EmptyCaches, Repeat(q, n)).0 ==
      Caches(if n == 0 then map[] else map[KeyOf(q) := Some(n)],
             if n == VisitThresholdForCache then map[KeyOf(q) := Some(e)] else map[])
  {
    if n > 0 {
      var init := Repeat(q, n - 1);
      assert Repeat(q, n) == init + [q];
      IntendedWarmUpState(db, q, e, n - 1);
      IntendedMissStep(db, q, e, n - 1);
      ReplayIntendedSnoc(db, EmptyCaches, init, q);
    }
  }

  /** Up to the threshold, every one of n identical lookups of an existing
      event goes to the store. */
  lemma {:induction false} IntendedWarmUp(db: Catalogue, q: EventsQuery, e: Event, n: nat)
    requires Complete(q) && FetchDetail(db, q) == Ok(Some(e))
    requires n <= VisitThresholdForCache
    ensures forall i :: 0 <= i < n ==> ReplayIntended(db, EmptyCaches, Repeat(q, n)).1[i] == FetchedDetail(Some(e))
  {
    if n > 0 {
      var init := Repeat(q, n - 1);
      assert Repeat(q, n) == init + [q];
      IntendedWarmUp(db, q, e, n - 1);
      IntendedWarmUpState(db, q, e, n - 1);
      IntendedMissStep(db, q, e, n - 1);
      ReplayIntendedSnoc(db, EmptyCaches, init, q);
    }
  }

  /** The first five identical lookups go to the store; the sixth is served
      from the warm cache. */
  lemma SixthLookupCachedWhenIntended(db: Catalogue, q: EventsQuery, e: Event)
    requires Complete(q) && FetchDetail(db, q) == Ok(Some(e))
    ensures var res := ReplayIntended(db, EmptyCaches, Repeat(q, 6));
      && (forall i :: 0 <= i < 5 ==> res.1[i] == FetchedDetail(Some(e)))
      && res.1[5] == CachedDetail(e)
  {
    IntendedWarmUp(db, q, e, 5);
    IntendedWarmUpState(db, q, e, 5);
    assert Repeat(q, 6) == Repeat(q, 5) + [q];
    ReplayIntendedSnoc(db, EmptyCaches, Repeat(q, 5), q);
  }

  class EventsController {
    var frequencyCache: FrequencyCache
    var memoryCache: MemoryCache

    /** Both dictionaries start empty with each controller instance. */
    constructor ()
      ensures State() == EmptyCaches
    {
      frequencyCache := map[];
      memoryCache := map[];
    }

    function State(): Caches
      reads this
    {
      Caches(frequencyCache, memoryCache)
    }

    method GetEvents(db: Catalogue, take: int, skip: int, artistName: Option<string>, title: Option<string>,
                     location: Option<string>, beginDatetime: Option<DateTime>, endDatetime: Option<DateTime>)
      returns (r: EventsReply)
      modifies this
      ensures (State(), r) == Respond(db, old(State()), EventsQuery(take, skip, artistName, title, location, beginDatetime, endDatetime))
    {
      var q := EventsQuery(take, skip, artistName, title, location, beginDatetime, endDatetime);
      ghost var s := State();
      if Complete(q) {
        var cacheKey := KeyOf(q);
        if cacheKey in memoryCache {
          var cachedEvent := memoryCache[cacheKey];
          if cachedEvent.Some? {
            assert Respond(db, s, q) == (s, CachedDetail(cachedEvent.value));
            return CachedDetail(cachedEvent.value);
          }
          assert Respond(db, s, q) == Miss(db, s, q);
          var eventResult := FetchDetail(db, q);
          if eventResult.Err? {
            return ServerError(500, ErrorRetrievingEvents);
          }
          if cacheKey in frequencyCache {
            var value := frequencyCache[cacheKey];
            if value.Some? {
              frequencyCache := frequencyCache[cacheKey := Some(Wrap32(value.value + 1))];
            } else {
              frequencyCache := frequencyCache[cacheKey := Some(1)];
            }
          }
          assert frequencyCache == Bumped(s.frequency, cacheKey);
          if eventResult.value.Some? {
            if cacheKey !in frequencyCache {
              return ServerError(500, ErrorRetrievingEvents);
            }
            if frequencyCache[cacheKey].Some? && frequencyCache[cacheKey].value >= VisitThresholdForCache {
              var added := Add(memoryCache, cacheKey, eventResult.value);
              memoryCache := match added case Ok(m) => m case Err(_) => memoryCache;
              if added.Err? {
                return ServerError(500, ErrorRetrievingEvents);
              }
            }
          }
          return FetchedDetail(eventResult.value);
        }
      }
      assert Respond(db, s, q) == (s, ListReply(db, q));
      r := ListReply(db, q);
    }
  }
}
