/** Services/eventService.cs: the event catalogue. The two queries are
    functions of a snapshot of the tables; create, update and delete are
    methods that change the events table of the data context. */
module EventService {
  import opened Wrappers
  import opened Models
  import opened Data

  const AmbiguousMessage := "More than 1 event with the same information"
  const LocationNotFound := "Location not found"
  /** The database's refusal of an event whose artist does not exist
      (foreign key Event_artistId_fkey). */
  const ArtistForeignKeyError := "insert on table \"Event\" violates foreign key constraint \"Event_artistId_fkey\""
  const EventNotFound := "Event not found"
  const NothingToUpdate := "Nothing to update"
  const ArtistNotFound := "Artist not found"
  const EventUpdated := "Event updated successfully"
  const EventDeleted := "Event deleted successfully"

  // ---------------------------------------------------------------------
  // Strings and lookups

  /** `String.Contains`: `sub` is a prefix of `s` or of one of its tails. */
  predicate Contains(s: string, sub: string) {
    sub <= s || (s != [] && Contains(s[1..], sub))
  }

  /** `sub` occurs in `s` starting at position `i`. */
  predicate OccursAt(s: string, sub: string, i: int) {
    0 <= i && i + |sub| <= |s| && s[i..i + |sub|] == sub
  }

  lemma PrefixOccurs(s: string, sub: string)
    ensures sub <= s <==> OccursAt(s, sub, 0)
  {
    if |sub| <= |s| { assert s[..|sub|] == s[0..|sub|]; }
  }

  lemma TailOccurs(s: string, sub: string, i: nat)
    requires s != []
    ensures OccursAt(s[1..], sub, i) <==> OccursAt(s, sub, i + 1)
  {
    if i + 1 + |sub| <= |s| {
      assert s[i + 1..i + 1 + |sub|] == s[1..][i..i + |sub|];
    }
  }

  /** `Contains` holds exactly when `sub` occurs in `s` at some position. */
  lemma {:induction false} ContainsAt(s: string, sub: string)
    ensures Contains(s, sub) <==> exists i :: OccursAt(s, sub, i)
  {
    PrefixOccurs(s, sub);
    if s != [] && !(sub <= s) {
      ContainsAt(s[1..], sub);
      if exists i :: OccursAt(s[1..], sub, i) {
        var i :| OccursAt(s[1..], sub, i);
        TailOccurs(s, sub, i);
      }
      if exists i :: OccursAt(s, sub, i) {
        var i :| OccursAt(s, sub, i);
        if i > 0 {
          TailOccurs(s, sub, i - 1);
        }
      }
    }
  }

  predicate IsNullOrEmpty(s: Option<string>) {
    s.None? || s.value == ""
  }

  /** The name of the artist with primary key `id`, if there is one. */
  function ArtistName(artists: seq<Artist>, id: int): (r: Option<string>)
    ensures r.Some? ==> exists i :: 0 <= i < |artists| && artists[i].id == id && artists[i].name == r.value
    ensures r.None? <==> forall i :: 0 <= i < |artists| ==> artists[i].id != id
  {
    if artists == [] then None
    else if artists[0].id == id then Some(artists[0].name)
    else
      var r := ArtistName(artists[1..], id);
      assert r.Some? ==> exists i :: 0 <= i < |artists[1..]| && artists[1..][i].id == id && artists[1..][i].name == r.value;
      r
  }

  /** The address of the location with primary key `id`, if there is one. */
  function LocationAddress(locations: seq<Location>, id: int): (r: Option<string>)
    ensures r.Some? ==> exists i :: 0 <= i < |locations| && locations[i].id == id && locations[i].address == r.value
    ensures r.None? <==> forall i :: 0 <= i < |locations| ==> locations[i].id != id
  {
    if locations == [] then None
    else if locations[0].id == id then Some(locations[0].address)
    else
      var r := LocationAddress(locations[1..], id);
      assert r.Some? ==> exists i :: 0 <= i < |locations[1..]| && locations[1..][i].id == id && locations[1..][i].address == r.value;
      r
  }

  /** `FirstOrDefault(l => l.Address == address)` over the locations table. */
  function FirstLocationWithAddress(locations: seq<Location>, address: string): (r: Option<Location>)
    ensures r.Some? ==> r.value in locations && r.value.address == address
    ensures r.None? <==> forall i :: 0 <= i < |locations| ==> locations[i].address != address
  {
    if locations == [] then None
    else if locations[0].address == address then Some(locations[0])
    else FirstLocationWithAddress(locations[1..], address)
  }

  /** `FindAsync(id)` on the events table: the position of the event with
      that primary key. */
  function FindEventIndex(events: seq<Event>, id: int): (r: Option<nat>)
    ensures r.Some? ==> r.value < |events| && events[r.value].id == id
    ensures r.Some? ==> forall j :: 0 <= j < r.value ==> events[j].id != id
    ensures r.None? <==> forall j :: 0 <= j < |events| ==> events[j].id != id
  {
    if events == [] then None
    else if events[0].id == id then Some(0)
    else
      match FindEventIndex(events[1..], id)
      case None => None
      case Some(i) => Some(i + 1)
  }

  // ---------------------------------------------------------------------
  // Sequence helpers for the query pipeline

  /** `r` is `s` with some elements dropped and the rest kept in order. */
  predicate Subsequence(r: seq<Event>, s: seq<Event>)
    decreases |s|
  {
    r == [] || (s != [] && ((r[0] == s[0] && Subsequence(r[1..], s[1..])) || Subsequence(r, s[1..])))
  }

  function Filter(s: seq<Event>, p: Event -> bool): (r: seq<Event>)
    ensures forall x :: x in r <==> x in s && p(x)
    ensures |r| <= |s|
  {
    if s == [] then []
    else if p(s[0]) then [s[0]] + Filter(s[1..], p)
    else Filter(s[1..], p)
  }

  /** `Where` keeps the elements that pass, each as often as in `s`, in
      the order of `s`. */
  lemma {:induction false} FilterKeeps(s: seq<Event>, p: Event -> bool)
    ensures forall x :: multiset(Filter(s, p))[x] == if p(x) then multiset(s)[x] else 0
    ensures Subsequence(Filter(s, p), s)
  {
    if s != [] {
      FilterKeeps(s[1..], p);
      assert s == [s[0]] + s[1..];
      if p(s[0]) {
        assert Filter(s, p)[1..] == Filter(s[1..], p);
      }
    }
  }

  /** Two distinct positions that pass the filter give a result of more
      than one element. */
  lemma {:induction false} FilterHasTwoFrom(s: seq<Event>, p: Event -> bool, i: nat, j: nat)
    requires i < j < |s| && p(s[i]) && p(s[j])
    ensures |Filter(s, p)| > 1
  {
    if i == 0 {
      assert s[j] in s[1..];
      assert s[j] in Filter(s[1..], p);
    } else {
      FilterHasTwoFrom(s[1..], p, i - 1, j - 1);
    }
  }

  /** A result of more than one element comes from two distinct positions
      that pass the filter. */
  lemma {:induction false} FilterHasTwoAt(s: seq<Event>, p: Event -> bool) returns (i: nat, j: nat)
    requires |Filter(s, p)| > 1
    ensures i < j < |s| && p(s[i]) && p(s[j])
  {
    var rest := Filter(s[1..], p);
    if p(s[0]) {
      assert rest[0] in rest;
      var k :| 0 <= k < |s[1..]| && s[1..][k] == rest[0];
      i, j := 0, k + 1;
    } else {
      var i', j' := FilterHasTwoAt(s[1..], p);
      i, j := i' + 1, j' + 1;
    }
  }

  predicate SortedByBegin(s: seq<Event>) {
    forall i, j :: 0 <= i < j < |s| ==> s[i].beginDatetime <= s[j].beginDatetime
  }

  /** Inserts `e` before the first element that does not begin earlier. */
  function InsertByBegin(e: Event, s: seq<Event>): (r: seq<Event>)
    requires SortedByBegin(s)
    ensures SortedByBegin(r)
    ensures multiset(r) == multiset(s) + multiset{e}
  {
    if s == [] then [e]
    else if e.beginDatetime <= s[0].beginDatetime then
      SortedCons(e, s);
      [e] + s
    else
      var tail := InsertByBegin(e, s[1..]);
      InsertedBound(s, e, tail);
      SortedCons(s[0], tail);
      assert s == [s[0]] + s[1..];
      [s[0]] + tail
  }

  lemma SortedCons(h: Event, t: seq<Event>)
    requires SortedByBegin(t)
    requires forall x :: x in t ==> h.beginDatetime <= x.beginDatetime
    ensures SortedByBegin([h] + t)
  {
    forall i, j | 0 <= i < j < |[h] + t|
      ensures ([h] + t)[i].beginDatetime <= ([h] + t)[j].beginDatetime
    {
      assert ([h] + t)[j] == t[j - 1];
      if i > 0 { assert ([h] + t)[i] == t[i - 1]; } else { assert t[j - 1] in t; }
    }
  }

  /** The head of a sorted sequence begins no later than anything that
      inserting a later-beginning `e` into its tail can produce. */
  lemma InsertedBound(s: seq<Event>, e: Event, tail: seq<Event>)
    requires s != [] && SortedByBegin(s) && s[0].beginDatetime < e.beginDatetime
    requires multiset(tail) == multiset(s[1..]) + multiset{e}
    ensures forall x :: x in tail ==> s[0].beginDatetime <= x.beginDatetime
  {
    forall x | x in tail ensures s[0].beginDatetime <= x.beginDatetime {
      assert x in multiset(tail);
      if x != e {
        assert x in multiset(s[1..]);
        var k :| 0 <= k < |s[1..]| && s[1..][k] == x;
        assert s[k + 1] == x;
      }
    }
  }

  /** `OrderBy(e => e.BeginDatetime)`: a sorted permutation. Events that
      begin at the same time keep their storage order. */
  function SortByBegin(s: seq<Event>): (r: seq<Event>)
    ensures SortedByBegin(r)
    ensures multiset(r) == multiset(s)
  {
    if s == [] then []
    else
      assert s == [s[0]] + s[1..];
      InsertByBegin(s[0], SortByBegin(s[1..]))
  }

  /** `OFFSET n`: everything after the first `n` elements. */
  function Skip(s: seq<Event>, n: nat): (r: seq<Event>)
    ensures |r| == if n >= |s| then 0 else |s| - n
    ensures forall i :: 0 <= i < |r| ==> r[i] == s[n + i]
  {
    if n >= |s| then [] else s[n..]
  }

  /** `LIMIT n`: the first `n` elements, or all of them if there are fewer. */
  function Take(s: seq<Event>, n: nat): (r: seq<Event>)
    ensures |r| == if n >= |s| then |s| else n
    ensures forall i :: 0 <= i < |r| ==> r[i] == s[i]
  {
    if n >= |s| then s else s[..n]
  }

  // ---------------------------------------------------------------------
  // GetEventsAsync

  /** PostgreSQL's refusals of a negative `OFFSET` and of a negative
      `LIMIT`; the offset is evaluated first. */
  const NegativeOffsetError := "OFFSET must not be negative"
  const NegativeLimitError := "LIMIT must not be negative"

  /** The filters of `GetEventsAsync`: title, artist name and location
      address contain their argument, the event begins no earlier than
      `beginDateTime` and no later than `endDateTime`; a null or empty
      text filter and a null time filter impose nothing. An event whose
      artist or location row is missing drops out of a join on it. */
  predicate MatchesFilters(db: Catalogue, e: Event, title: Option<string>, artistName: Option<string>,
                           beginDateTime: Option<DateTime>, endDateTime: Option<DateTime>, location: Option<string>)
  {
    && (IsNullOrEmpty(title) || Contains(e.title, title.value))
    && (IsNullOrEmpty(artistName) ||
          var name := ArtistName(db.artists, e.artistId); name.Some? && Contains(name.value, artistName.value))
    && (IsNullOrEmpty(location) ||
          var address := LocationAddress(db.locations, e.locationId); address.Some? && Contains(address.value, location.value))
    && (beginDateTime.None? || e.beginDatetime >= beginDateTime.value)
    && (endDateTime.None? || e.beginDatetime <= endDateTime.value)
  }

  /** A text filter on the artist or the location keeps only events whose
      joined row exists and whose name or address contains the text. */
  lemma MatchesFiltersJoins(db: Catalogue, e: Event, title: Option<string>, artistName: Option<string>,
                            beginDateTime: Option<DateTime>, endDateTime: Option<DateTime>, location: Option<string>)
    requires MatchesFilters(db, e, title, artistName, beginDateTime, endDateTime, location)
    ensures !IsNullOrEmpty(artistName) ==>
      exists i :: 0 <= i < |db.artists| && db.artists[i].id == e.artistId && Contains(db.artists[i].name, artistName.value)
    ensures !IsNullOrEmpty(location) ==>
      exists i :: 0 <= i < |db.locations| && db.locations[i].id == e.locationId && Contains(db.locations[i].address, location.value)
  {
  }

  /** The stored events that pass the filters, in storage order. */
  function Matching(db: Catalogue, title: Option<string>, artistName: Option<string>,
                    beginDateTime: Option<DateTime>, endDateTime: Option<DateTime>, location: Option<string>): (r: seq<Event>)
    ensures forall e :: e in r <==> e in db.events && MatchesFilters(db, e, title, artistName, beginDateTime, endDateTime, location)
  {
    Filter(db.events, e => MatchesFilters(db, e, title, artistName, beginDateTime, endDateTime, location))
  }

  /** Each matching event occurs as often as it is stored, and in storage
      order; the others do not occur. */
  lemma MatchingKeeps(db: Catalogue, title: Option<string>, artistName: Option<string>,
                      beginDateTime: Option<DateTime>, endDateTime: Option<DateTime>, location: Option<string>)
    ensures var r := Matching(db, title, artistName, beginDateTime, endDateTime, location);
      && (forall e :: multiset(r)[e] == (if MatchesFilters(db, e, title, artistName, beginDateTime, endDateTime, location)
                                         then multiset(db.events)[e] else 0))
      && Subsequence(r, db.events)
  {
    FilterKeeps(db.events, e => MatchesFilters(db, e, title, artistName, beginDateTime, endDateTime, location));
  }

  /** The matching events in begin order. */
  function MatchingSorted(db: Catalogue, title: Option<string>, artistName: Option<string>,
                          beginDateTime: Option<DateTime>, endDateTime: Option<DateTime>, location: Option<string>): seq<Event>
  {
    SortByBegin(Matching(db, title, artistName, beginDateTime, endDateTime, location))
  }

  /** The page of matching events: ordered by begin time, the first `skip`
      dropped, at most `take` kept. A negative count is refused. */
  function GetEventsAsync(db: Catalogue, title: Option<string>, artistName: Option<string>,
                          beginDateTime: Option<DateTime>, endDateTime: Option<DateTime>, location: Option<string>,
                          take: int, skip: int): (r: Result<seq<Event>>)
    ensures r.Err? <==> take < 0 || skip < 0
    ensures r.Err? ==> r.error == if skip < 0 then NegativeOffsetError else NegativeLimitError
    ensures r.Ok? ==>
      exists t :: SortedByBegin(t) &&
        multiset(t) == multiset(Matching(db, title, artistName, beginDateTime, endDateTime, location)) &&
        r.value == Take(Skip(t, skip), take)
    ensures r.Ok? ==> forall e :: e in r.value ==>
      e in db.events && MatchesFilters(db, e, title, artistName, beginDateTime, endDateTime, location)
    ensures r.Ok? ==> SortedByBegin(r.value)
    ensures r.Ok? ==>
      var n := |Matching(db, title, artistName, beginDateTime, endDateTime, location)|;
      |r.value| == if skip >= n then 0 else if take <= n - skip then take else n - skip
  {
    if skip < 0 then Err(NegativeOffsetError)
    else if take < 0 then Err(NegativeLimitError)
    else
      var filtered := Matching(db, title, artistName, beginDateTime, endDateTime, location);
      var sorted := SortByBegin(filtered);
      SortedPreservesMembers(filtered, sorted);
      WindowProps(sorted, skip, take);
      Ok(Take(Skip(sorted, skip), take))
  }

  /** A permutation has the same elements and length. */
  lemma SortedPreservesMembers(s: seq<Event>, t: seq<Event>)
    requires multiset(t) == multiset(s)
    ensures |t| == |s|
    ensures forall x :: x in t <==> x in s
  {
    assert |multiset(t)| == |multiset(s)|;
    forall x ensures x in t <==> x in s {
      assert x in t <==> x in multiset(t);
      assert x in s <==> x in multiset(s);
    }
  }

  /** What `OFFSET` then `LIMIT` keep of a sorted sequence. */
  lemma WindowProps(s: seq<Event>, skip: nat, take: nat)
    requires SortedByBegin(s)
    ensures forall x :: x in Take(Skip(s, skip), take) ==> x in s
    ensures SortedByBegin(Take(Skip(s, skip), take))
  {
    var w := Take(Skip(s, skip), take);
    forall x | x in w ensures x in s {
      var i :| 0 <= i < |w| && w[i] == x;
      assert w[i] == s[skip + i];
    }
    forall i, j | 0 <= i < j < |w| ensures w[i].beginDatetime <= w[j].beginDatetime {
      assert w[i] == s[skip + i] && w[j] == s[skip + j];
    }
  }

  /** Consecutive pages: the page of `a` events from the start followed by
      the page of `b` events after them is the page of `a + b` events. */
  lemma PagesCompose(db: Catalogue, title: Option<string>, artistName: Option<string>,
                     beginDateTime: Option<DateTime>, endDateTime: Option<DateTime>, location: Option<string>,
                     a: nat, b: nat)
    ensures var first := GetEventsAsync(db, title, artistName, beginDateTime, endDateTime, location, a, 0);
      var next := GetEventsAsync(db, title, artistName, beginDateTime, endDateTime, location, b, a);
      var both := GetEventsAsync(db, title, artistName, beginDateTime, endDateTime, location, a + b, 0);
      first.Ok? && next.Ok? && both.Ok? && first.value + next.value == both.value
  {
    TakeSkipCompose(MatchingSorted(db, title, artistName, beginDateTime, endDateTime, location), a, b);
  }

  lemma TakeSkipCompose(s: seq<Event>, a: nat, b: nat)
    ensures Take(Skip(s, 0), a) + Take(Skip(s, a), b) == Take(Skip(s, 0), a + b)
  {
    if a + b <= |s| {
      if a > 0 && b > 0 { assert s[..a] + s[a..][..b] == s[..a + b]; }
    } else if a <= |s| {
      if a > 0 && b > 0 { assert s[..a] + s[a..] == s; }
    }
  }

  // ---------------------------------------------------------------------
  // GetEventAsync

  lemma AmbiguityAt(s: seq<Event>, p: Event -> bool)
    ensures |Filter(s, p)| > 1 <==> exists i, j :: 0 <= i < j < |s| && p(s[i]) && p(s[j])
  {
    if |Filter(s, p)| > 1 {
      var i, j := FilterHasTwoAt(s, p);
    }
    if exists i, j :: 0 <= i < j < |s| && p(s[i]) && p(s[j]) {
      var i, j :| 0 <= i < j < |s| && p(s[i]) && p(s[j]);
      FilterHasTwoFrom(s, p, i, j);
    }
  }

  /** All five fields equal the request, through the artist and location
      joins. */
  predicate ExactMatch(db: Catalogue, e: Event, title: string, artistName: string,
                       beginDateTime: DateTime, endDateTime: DateTime, location: string)
  {
    && e.title == title
    && ArtistName(db.artists, e.artistId) == Some(artistName)
    && LocationAddress(db.locations, e.locationId) == Some(location)
    && e.beginDatetime == beginDateTime
    && e.endDatetime == endDateTime
  }

  /** The one event matching all five fields exactly, `None` if there is
      none, and an exception if there are several. */
  function GetEventAsync(db: Catalogue, title: string, artistName: string,
                         beginDateTime: DateTime, endDateTime: DateTime, location: string): (r: Result<Option<Event>>)
    ensures r.Err? <==> exists i, j ::
      && 0 <= i < j < |db.events|
      && ExactMatch(db, db.events[i], title, artistName, beginDateTime, endDateTime, location)
      && ExactMatch(db, db.events[j], title, artistName, beginDateTime, endDateTime, location)
    ensures r.Err? ==> r.error == AmbiguousMessage
    ensures r == Ok(None) <==>
      forall e :: e in db.events ==> !ExactMatch(db, e, title, artistName, beginDateTime, endDateTime, location)
    ensures r.Ok? && r.value.Some? ==>
      r.value.value in db.events && ExactMatch(db, r.value.value, title, artistName, beginDateTime, endDateTime, location)
  {
    var p := e => ExactMatch(db, e, title, artistName, beginDateTime, endDateTime, location);
    var events := Filter(db.events, p);
    AmbiguityAt(db.events, p);
    if |events| > 1 then Err(AmbiguousMessage)
    else if |events| == 0 then Ok(None)
    else
      assert events[0] in events;
      Ok(Some(events[0]))
  }

  // ---------------------------------------------------------------------
  // Updates

  /** The fields `UpdateEvent` writes: a non-empty title replaces the title,
      a non-zero artist id replaces the artist; nothing else changes. */
  function ApplyUpdate(e: Event, dto: EventUpdateDto): (r: Event)
    ensures r.id == e.id && r.beginDatetime == e.beginDatetime
    ensures r.endDatetime == e.endDatetime && r.locationId == e.locationId
    ensures r.title == (if dto.title != "" then dto.title else e.title)
    ensures r.artistId == (if dto.artistId != 0 then dto.artistId else e.artistId)
  {
    var e1 := if dto.title != "" then e.(title := dto.title) else e;
    if dto.artistId != 0 then e1.(artistId := dto.artistId) else e1
  }

  /** Removing the event at `i` keeps the ids distinct and below the
      sequence, removes that id and keeps every other event. */
  lemma RemoveAtProps(events: seq<Event>, i: nat, next: int)
    requires i < |events| && DistinctIds(events)
    requires forall k :: 0 <= k < |events| ==> events[k].id < next
    ensures var rest := events[..i] + events[i + 1..];
      && DistinctIds(rest)
      && (forall k :: 0 <= k < |rest| ==> rest[k].id < next)
      && (forall e :: e in rest ==> e.id != events[i].id)
      && (forall e :: e in events && e.id != events[i].id ==> e in rest)
  {
    var rest := events[..i] + events[i + 1..];
    RemoveAtIndex(events, i);
    forall e | e in rest ensures e.id != events[i].id {
      var k :| 0 <= k < |rest| && rest[k] == e;
    }
    forall e | e in events && e.id != events[i].id ensures e in rest {
      var k :| 0 <= k < |events| && events[k] == e;
      if k < i { assert rest[k] == e; } else { assert rest[k - 1] == e; }
    }
  }

  lemma RemoveAtIndex(events: seq<Event>, i: nat)
    requires i < |events|
    ensures var rest := events[..i] + events[i + 1..];
      && |rest| == |events| - 1
      && (forall k :: 0 <= k < i ==> rest[k] == events[k])
      && (forall k :: i <= k < |rest| ==> rest[k] == events[k + 1])
  {
  }

  class EventService {
    const context: DataContext

    constructor (context: DataContext)
      ensures this.context == context
    {
      this.context := context;
    }

    /** Adds an event at the first location with the given address. */
    method CreateEventAsync(eventDto: EventCreateDto) returns (r: Result<Event>)
      requires context.Valid()
      modifies context`events, context`nextEventId
      ensures context.Valid()
      ensures FirstLocationWithAddress(context.locations, eventDto.location).None? ==>
        r == Err(LocationNotFound) && context.events == old(context.events) && context.nextEventId == old(context.nextEventId)
      ensures FirstLocationWithAddress(context.locations, eventDto.location).Some? ==>
        context.nextEventId == old(context.nextEventId) + 1
      ensures FirstLocationWithAddress(context.locations, eventDto.location).Some? &&
              ArtistName(context.artists, eventDto.artistId).None? ==>
        r == Err(ArtistForeignKeyError) && context.events == old(context.events)
      ensures FirstLocationWithAddress(context.locations, eventDto.location).Some? &&
              ArtistName(context.artists, eventDto.artistId).Some? ==>
        r.Ok?
      ensures r.Ok? ==>
        && r.value == Event(old(context.nextEventId), eventDto.title, eventDto.artistId,
                            eventDto.beginDateTime, eventDto.endDateTime,
                            FirstLocationWithAddress(context.locations, eventDto.location).value.id)
        && context.events == old(context.events) + [r.value]
    {
      var location := FirstLocationWithAddress(context.locations, eventDto.location);
      if location.None? {
        return Err(LocationNotFound);
      }
      var eventEntity := Event(context.nextEventId, eventDto.title, eventDto.artistId,
                               eventDto.beginDateTime, eventDto.endDateTime, location.value.id);
      // the id sequence advances even when the insert is then refused
      context.nextEventId := context.nextEventId + 1;
      if ArtistName(context.artists, eventDto.artistId).None? {
        return Err(ArtistForeignKeyError);
      }
      context.events := context.events + [eventEntity];
      r := Ok(eventEntity);
    }

    method UpdateEvent(id: int, eventDto: EventUpdateDto) returns (r: ServiceResponse<()>)
      requires context.Valid()
      modifies context`events
      ensures context.Valid()
      ensures FindEventIndex(old(context.events), id).None? ==>
        r == FailServiceResponse(404, Some(EventNotFound)) && context.events == old(context.events)
      ensures FindEventIndex(old(context.events), id).Some? && eventDto.title == "" && eventDto.artistId == 0 ==>
        r == FailServiceResponse(204, Some(NothingToUpdate)) && context.events == old(context.events)
      ensures FindEventIndex(old(context.events), id).Some? && eventDto.artistId != 0 &&
              ArtistName(context.artists, eventDto.artistId).None? ==>
        r == FailServiceResponse(404, Some(ArtistNotFound)) && context.events == old(context.events)
      ensures r.Success() <==>
        && FindEventIndex(old(context.events), id).Some?
        && !(eventDto.title == "" && eventDto.artistId == 0)
        && (eventDto.artistId == 0 || ArtistName(context.artists, eventDto.artistId).Some?)
      ensures r.Success() ==>
        var i := FindEventIndex(old(context.events), id).value;
        && r == SuccessServiceResponse(None, Some(EventUpdated))
        && context.events == old(context.events)[i := ApplyUpdate(old(context.events)[i], eventDto)]
      ensures !r.Success() ==> context.events == old(context.events)
    {
      var index := FindEventIndex(context.events, id);
      if index.None? {
        return FailServiceResponse(404, Some(EventNotFound));
      }
      if IsNullOrEmpty(Some(eventDto.title)) && eventDto.artistId == 0 {
        return FailServiceResponse(204, Some(NothingToUpdate));
      }
      // the title is written to the tracked entity first; it is dropped
      // with the request's context when the artist check below fails
      var eventEntity := context.events[index.value];
      if eventDto.title != "" {
        eventEntity := eventEntity.(title := eventDto.title);
      }
      if eventDto.artistId != 0 {
        if ArtistName(context.artists, eventDto.artistId).None? {
          return FailServiceResponse(404, Some(ArtistNotFound));
        }
        eventEntity := eventEntity.(artistId := eventDto.artistId);
      }
      context.events := context.events[index.value := eventEntity];
      r := SuccessServiceResponse(None, Some(EventUpdated));
    }

    method DeleteEventAsync(eventId: int) returns (r: ServiceResponse<()>)
      requires context.Valid()
      modifies context`events
      ensures context.Valid()
      ensures FindEventIndex(old(context.events), eventId).None? <==> r == FailServiceResponse(404, Some(EventNotFound))
      ensures FindEventIndex(old(context.events), eventId).None? ==> context.events == old(context.events)
      ensures FindEventIndex(old(context.events), eventId).Some? ==>
        var i := FindEventIndex(old(context.events), eventId).value;
        && r == SuccessServiceResponse(None, Some(EventDeleted))
        && context.events == old(context.events)[..i] + old(context.events)[i + 1..]
      ensures forall e :: e in context.events ==> e.id != eventId
      ensures forall e :: e in old(context.events) && e.id != eventId ==> e in context.events
    {
      var index := FindEventIndex(context.events, eventId);
      if index.None? {
        return FailServiceResponse(404, Some(EventNotFound));
      }
      var i := index.value;
      RemoveAtProps(context.events, i, context.nextEventId);
      context.events := context.events[..i] + context.events[i + 1..];
      r := SuccessServiceResponse(None, Some(EventDeleted));
    }
  }
}
