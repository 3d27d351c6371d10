# Ticket reservation backend, modelled in Dafny

This project models the core of an events-and-tickets backend written in C#
on ASP.NET Core and Entity Framework over PostgreSQL. The core is:

- **Ticket reservation.** The tickets table is keyed by (EventId, RowNumber,
  SectionNumber, SeatNumber). A buyer buys or refunds a batch of seats in one
  transaction. Either every selected row changes, or the call fails and the
  table is left as it was. Modelled in `tickets_service.dfy`.
- **Event catalogue.**
  - The list query filters, then orders by begin time, then skips and takes.
  - The exact single-event lookup rejects ambiguous matches.
  - Create, update and delete of events are guarded, and their failure
    outcomes (404 / 204 / foreign-key error) are kept.
  - Modelled in `event_service.dfy`.
- **Frequency-gated event cache.** `GetEvents` keeps two instance
  dictionaries: a visit count per key and a warm map. Modelled in
  `events_controller.dfy`.
- **Seat generation for an event.**
  - The list partition `tickets_eventid<id>` of the tickets table is created
    if it is missing.
  - Then the seats are generated as sections × rows × seats, each with a
    random integral price.
  - They are inserted in one batch.
  - Modelled in `init_service.dfy`, using the partition statement of
    `consts.dfy`.
- **Shared types.**
  - `wrappers.dfy` holds `Option` and `Result`.
  - `models.dfy` holds the entities, the success/failure response union,
    the seat identifier record and C# `int` arithmetic.
  - `data_context.dfy` holds the data context (the tables) and its integrity
    invariant `Valid`.

### Modelling choices

- The tickets table and the partitions are maps. The events, artists and
  locations tables are sequences in storage order.
- The services are classes over a shared `DataContext`. Their methods change
  only the fields they name.
- Buy and refund are proved against pure outcome functions (`BuyOutcome`,
  `RefundOutcome`). The buy/refund protocol lemmas are stated about those
  functions.
- `GetEvents` is proved against `Respond`, a pure one-call step over the two
  caches. `Replay` chains such calls.
- The store lookups the controller makes are a catalogue snapshot passed in.
- `Program.cs` registers the controllers with `AddControllers()`, so ASP.NET
  Core builds a new `EventsController` for every request. Its two
  dictionaries therefore start empty on every call. `Replay` and the lemmas
  about several calls describe one instance that receives them all. That is
  the lifetime the cache needs to be of any use, and the one under which its
  defect shows. In the program as deployed, every call sees empty
  dictionaries, so every call takes the list query (`ReplayFromEmpty` with a
  single call).
- Randomness is a nondeterministic choice within the bounds the code allows.

### Behaviour kept as written

- `BuyTicket` has no not-found outcome: requested seats that are not stored
  are ignored.
- Neither buy nor refund touches `PurchasedTime`.
- `GetTicketsInfo` ignores its `seatsIds` argument.
- In `GetEvents`, the fetch, the count update and the admission all sit
  inside the branch where the key is already in the warm map, so nothing is
  ever admitted (see Findings).
- Prices are drawn as whole numbers from a range built with `(int)`
  conversions, not from the real interval rounded to cents.

## Model

| member | source | states |
|---|---|---|
| Models.ResponseFlags | Models/ServiceResponse.cs:9-43 | documents the response shape: a success response has `Success` true and a failure response has it false |
| Models.ServiceResponse.WithMessage | Models/ServiceResponse.cs:17-21 | setting `Message` on either variant changes only the message and keeps the flag, the data and the status code |
| Models.Wrap32 | controllers/eventsController.cs:48 | unchecked `int` arithmetic: the result is in range, equals the exact value when that is in range, and is congruent to it modulo 2^32 |
| Consts.Execute | utils/consts.cs:9-31 | the statement fails exactly when the name is absent and another partition already holds the event id; on success the old partitions are kept, only the named one may be added, and a new one holds exactly the event id |
| Consts.ExecuteIdempotent | utils/consts.cs:17-28 | running the statement a second time has no further effect |
| TicketsService.GetTicketsInfo | Services/ticketsService.cs:12-26 | the result holds exactly the stored tickets whose buyer is `email`, unchanged |
| TicketsService.GetTicketsInfoIgnoresSeatIds | Services/ticketsService.cs:16-20 | documents the signature: the result does not depend on `seatsIds` |
| TicketsService.BuyOutcome | Services/ticketsService.cs:34-84 | the buy fails with 500 and the unavailable message, leaving the table unchanged, iff some stored requested seat is bought by someone else; on success exactly the stored requested seats become bought by `email`, nothing else changes, and the data is exactly those rows after the update |
| TicketsService.RefundOutcome | Services/ticketsService.cs:86-138 | the refund fails with 500 and the not-booked message, leaving the table unchanged, iff the number of requested seats held by `email` differs from the request length; on success exactly those seats are released and the message is "Tickets refunded successfully." |
| TicketsService.RefundSucceedsIff | Services/ticketsService.cs:100-112 | a refund succeeds iff every request entry names a stored seat held by `email` and no seat is named twice |
| TicketsService.RequestedKeysCard | Services/ticketsService.cs:109 | a request names at most as many seats as it has entries, and exactly as many iff no seat is named twice |
| TicketsService.BuyIdempotent | Services/ticketsService.cs:56-65 | after a successful buy, buying the same batch again by the same buyer succeeds with the same table and response |
| TicketsService.BuyConflict | Services/ticketsService.cs:56-59 | once `x` has bought a seat, any other buyer's batch naming it fails with 500 and leaves the table unchanged |
| TicketsService.BuyThenRefundRestores | Services/ticketsService.cs:61-65 | buying distinct stored free seats, then refunding them by the same buyer, succeeds and restores the table exactly |
| TicketsService.RefundThenBuySucceeds | Services/ticketsService.cs:114-118 | after a successful refund, any buyer can buy the same batch |
| TicketsService.RefundWithoutOwnershipFails | Services/ticketsService.cs:100-112 | a refund naming a seat that `email` does not hold fails with 500 and changes nothing |
| TicketsService.LookupAfterBuyAndRefund | Services/ticketsService.cs:16-20 | after a successful buy the buyer's lookup lists each bought seat as bought; after a successful refund it lists none of the refunded seats |
| TicketsService.TicketService.BuyTicket | Services/ticketsService.cs:34-84 | the loop that marks each selected row leaves the response and table that `BuyOutcome` prescribes, and keeps the data context valid |
| TicketsService.TicketService.RefundTicket | Services/ticketsService.cs:86-138 | the loop that releases each selected row leaves the response and table that `RefundOutcome` prescribes, and keeps the data context valid |
| EventService.ArtistName | Services/eventService.cs:19 | the join to the artist: a name is found iff some artist has that id, and it is that artist's name |
| EventService.LocationAddress | Services/eventService.cs:22 | the join to the location: an address is found iff some location has that id, and it is that location's address |
| EventService.FirstLocationWithAddress | Services/eventService.cs:65 | a stored location with exactly the address, or none iff no location has it |
| EventService.FindEventIndex | Services/eventService.cs:82 | the first position holding the id, or none iff no event has it |
| EventService.Filter | Services/eventService.cs:15-28 | keeps exactly the elements that satisfy the predicate |
| EventService.FilterKeeps | Services/eventService.cs:15-28 | `Where` keeps each passing element exactly as often as the input holds it, drops the others, and keeps input order (a subsequence) |
| EventService.SortByBegin | Services/eventService.cs:31 | the result is ordered by begin time and is a permutation of the input |
| EventService.ContainsAt | Services/eventService.cs:16-22 | `Contains` holds exactly when the text occurs in the string at some position |
| EventService.MatchesFiltersJoins | Services/eventService.cs:18-22 | an artist or location text filter keeps only events whose joined artist or location row exists and whose name or address contains the text |
| EventService.Matching | Services/eventService.cs:13-28 | holds exactly the stored events that pass every given filter |
| EventService.MatchingKeeps | Services/eventService.cs:13-28 | each stored event that passes every filter occurs as often as it is stored, the others not at all, in storage order |
| EventService.Skip | Services/eventService.cs:32 | the rows after the first `skip`, in order; none when there are no more |
| EventService.Take | Services/eventService.cs:33 | the first `take` rows, in order, or all of them when there are fewer |
| EventService.GetEventsAsync | Services/eventService.cs:11-35 | refused, with PostgreSQL's offset or limit message, iff `skip` or `take` is negative; otherwise the result is the matching events in some begin-time order, with the first `skip` dropped and at most `take` kept: every returned event is stored and passes every filter, the result is sorted, and its length is `min(take, max(0, matches - skip))` |
| EventService.PagesCompose | Services/eventService.cs:32-33 | for non-negative counts, all three pages are answered, and the page of `a` events followed by the page of `b` events after them is the page of `a + b` events |
| EventService.AmbiguityAt | Services/eventService.cs:49 | more than one event matches iff two distinct positions match |
| EventService.GetEventAsync | Services/eventService.cs:37-53 | fails with the ambiguity message iff two distinct stored events match all five fields; returns none iff no event matches; otherwise returns a stored matching event |
| EventService.ApplyUpdate | Services/eventService.cs:101-119 | a non-empty title replaces the title, a non-zero artist id replaces the artist, and the id, times and location are kept |
| EventService.RemoveAtProps | Services/eventService.cs:142 | removing the found event keeps ids distinct, removes that id and keeps every other event |
| EventService.EventService.CreateEventAsync | Services/eventService.cs:63-78 | fails with "Location not found" and no change when no location has the address; otherwise consumes one id, fails on an unknown artist, and succeeds when the artist exists, appending the event that carries the request's fields and the location's id |
| EventService.EventService.UpdateEvent | Services/eventService.cs:80-128 | 404 for an unknown id, 204 for an empty update, 404 for an unknown artist, each with no change; it succeeds iff the id is known, the update is not empty and any given artist exists, and then only that event changes, as `ApplyUpdate` says |
| EventService.EventService.DeleteEventAsync | Services/eventService.cs:130-149 | 404 and no change iff the id is unknown; otherwise removes exactly that event, so no event with the id remains and every other event is kept |
| InitService.IntToString | Services/initService.cs:138 | the text of an int starts with a minus sign iff it is negative, and its digits read back as its magnitude |
| InitService.PartitionName | Services/initService.cs:138 | the name is `tickets_eventid` followed by the event id, which reads back from the rest of the name |
| InitService.PartitionNameInjective | Services/initService.cs:138 | distinct event ids give distinct partition names |
| InitService.ParseNatDigits | Services/initService.cs:138 | the decimal text of a number reads back as that number |
| InitService.Truncate | Services/initService.cs:149 | the `(int)` conversion of a decimal rounds toward zero: the result is within one of the value, never beyond it away from zero |
| InitService.PriceDrawRange | Services/initService.cs:145-150 | the lower bound is `(int)(mean - sd)`; the upper bound is `(int)(mean + sd)` when that is not below the lower bound and below `int.MaxValue`; for `sd >= 0` with both conversions in range and the upper bound below `int.MaxValue`, the range is exactly those two values |
| InitService.GeneratePrice | Services/initService.cs:145-150 | fails exactly when the range cannot be formed; otherwise returns a whole number within the range |
| Data.DataContext.Valid | Data/MydatabaseContext.cs:71 | under the database's key and partition constraints, every stored ticket's event id has a partition |
| InitService.GridLength | Services/initService.cs:19-35 | the generated grid has sections × rows × seats entries |
| InitService.GridMembers | Services/initService.cs:25-32 | a key is generated iff it has the event id and its section, row and seat are each within their counts |
| InitService.GridIncreasing | Services/initService.cs:19-23 | keys are generated in strictly increasing section, then row, then seat order |
| InitService.GridDistinct | Services/initService.cs:19-23 | no key is generated twice |
| InitService.BuildTicketData | Services/initService.cs:18-35 | the nested loops produce one ticket per grid key, in grid order, unbought with no buyer or purchase time, each priced within the draw range; they fail iff the range cannot be formed |
| InitService.InsertRange | Services/initService.cs:37-38 | the batch is stored iff every row has a partition, a new key and a price that fits numeric(7,2), and no key repeats; the stored table then holds the old rows unchanged plus exactly the new ones |
| InitService.InsertGridSucceeds | Services/initService.cs:37-38 | a freshly generated grid batch is accepted when its event has a partition, both range bounds fit numeric(7,2) and no grid key is stored |
| InitService.InsertGridContents | Services/initService.cs:37-38 | an accepted grid batch adds exactly the grid's keys, each an unsold ticket priced within the range |
| InitService.InitService.CreatePartitionIfNotExists | Services/initService.cs:135-143 | runs the partition statement for `tickets_eventid<id>` and keeps the partitions it yields |
| InitService.InitService.CreateTicketsForEvent | Services/initService.cs:12-47 | the partition is ensured first and kept even if the insert fails; any failure returns 500 "Failed to create tickets" with the tickets unchanged; the call succeeds whenever the partition statement succeeds and leaves a partition for the event, both range bounds fit numeric(7,2) and no grid key is stored; on success the new tickets are exactly the grid, unbought and priced within the range, and old tickets are unchanged |
| EventsController.KeyIgnoresEnd | controllers/eventsController.cs:27 | two complete queries that differ only in the end time share a cache key |
| EventsController.Bumped | controllers/eventsController.cs:46-50 | only a key already present is rewritten: null becomes 1 and n becomes n + 1 with 32-bit wrap-around; no key is added |
| EventsController.ListReply | controllers/eventsController.cs:65-70 | the list query's page is returned; a refused query (negative `take` or `skip`) is answered with 500 "Error retrieving events" |
| EventsController.Add | controllers/eventsController.cs:57 | `Dictionary.Add` succeeds iff the key is absent |
| EventsController.Respond | controllers/eventsController.cs:22-72 | the warm map never changes and the frequency map gains no key; an incomplete query or a key absent from the warm map gets the list query and changes nothing; a warm non-null entry is returned as cached with nothing changed; every error is 500 "Error retrieving events" |
| EventsController.Miss | controllers/eventsController.cs:42-61 | a lookup whose key holds a null warm entry never changes the warm map or the frequency map's keys, counts only its own key, and fails only with 500 "Error retrieving events" |
| EventsController.MissOutcome | controllers/eventsController.cs:42-61 | a failed fetch gives 500 with nothing changed; otherwise the count is bumped as `Bumped` says, a missing event is returned as null, and a found event is returned while its bumped count is below 5 and answered with 500 from 5 on (the `Add` on a present key throws), as it is when the key has no count |
| EventsController.ReplayKeepsKeys | controllers/eventsController.cs:13-14 | over any sequence of calls the warm map and the key set of the frequency map stay as they began |
| EventsController.ReplayFromEmpty | controllers/eventsController.cs:30 | from empty dictionaries, both stay empty and every call is answered by the list query |
| EventsController.SixthLookupNotCached | controllers/eventsController.cs:30-62 | the sixth identical complete lookup is still answered by the list query, not from the cache |
| EventsController.IntendedRespond | controllers/eventsController.cs:30-62 | corrected admission filter: an incomplete query gets the list reply, a warm hit is returned as cached with nothing changed, and a miss returns the fetched result |
| EventsController.IntendedMissOutcome | controllers/eventsController.cs:42-61 | corrected miss: the key's count goes from c (null or missing as 0) to c + 1, a failed fetch is answered with 500, and a found event is admitted to the warm map exactly when c + 1 reaches 5; otherwise the warm map is unchanged |
| EventsController.IntendedMissStep | controllers/eventsController.cs:52-58 | corrected filter: a lookup of an existing event counted c times and not yet admitted is counted c + 1 times, is admitted iff c + 1 reaches 5, and returns the fetched event |
| EventsController.IntendedWarmUpState | controllers/eventsController.cs:52-58 | corrected filter: after n ≤ 5 identical lookups of an existing event from empty, the count is n and the event is admitted iff n reaches 5 |
| EventsController.IntendedWarmUp | controllers/eventsController.cs:52-58 | corrected filter: each of n ≤ 5 identical lookups of an existing event from empty returns the fetched event |
| EventsController.SixthLookupCachedWhenIntended | controllers/eventsController.cs:15 | corrected filter: the first five identical lookups go to the store and the sixth is served from the cache |
| EventsController.EventsController.constructor | controllers/eventsController.cs:13-14 | both dictionaries start empty |
| EventsController.EventsController.GetEvents | controllers/eventsController.cs:19-72 | the action's reply and the new dictionaries are exactly those `Respond` gives for the old dictionaries |

## Left out

- Storage faults (lost connections, timeouts) are not modelled for the ticket
  and event operations. Only the refusals the database itself makes are
  modelled: primary key, foreign key, partition routing, partition overlap
  and numeric overflow.
- The exception path of `GetTicketsInfo` is not modelled. Its query cannot
  fail in this model.
- Transactions, isolation levels, row locking and concurrent interleavings
  are not modelled. Each buy, refund and seed call is one atomic step, and a
  failure means no change.
- `CreateLocations`, `CreateArtists` and `CreateEvents` are bulk inserts of
  fixed lists and random dates. They are not part of this model, and neither
  are `GetRandomDateTime`, `GetRandomLocation`, `GetRandomArtist` or
  `GetEventByIdAsync`.
- Random draws are nondeterministic choices. The distribution is not
  modelled.
- `DateTime` is an integer tick count. The culture-dependent text of the
  cache key is replaced by a tuple of the same four fields.
- The other controller actions are not part of this model, and neither are
  `controllers/ticketsController.cs`, `controllers/initController.cs` or
  `Program.cs`. From the init controller, only its positivity check on the
  counts and the event id is used, as the precondition of
  `CreateTicketsForEvent`.
- Console logging is left out. So is the text of framework exception
  messages, except where it decides the outcome.
- EventService.GetEventsAsync: `ORDER BY` on equal begin times leaves the
  order to the database. The model uses a stable insertion sort. The
  contract states the page as a window of some begin-time ordering of the
  matching events, not one particular order among equal begin times.
- EventService.GetEventsAsync: `Skip` and `Take` are modelled as the
  `OFFSET` and `LIMIT` the query is translated to. A negative count is
  refused as PostgreSQL refuses it. The translation itself is not modelled.
- TicketsService.TicketService.BuyTicket, TicketsService.TicketService.RefundTicket:
  the seat selection filters the tickets table with `Any` over a local list
  of anonymous objects. The model assumes the provider translates that
  query. If it cannot, the query throws, the catch block answers 500, and
  no buy or refund succeeds; that outcome is not modelled.
- EventService.GetEventsAsync: `Contains` is modelled as exact substring
  search. Database collation is not modelled.
- InitService.PriceDrawRange: decimal arithmetic is modelled with exact
  reals. The 96-bit decimal range of `meanPrice ± sd` is not modelled.
- Consts.Execute: only the effect of the PL/pgSQL block on the partitions of
  `public.tickets` is modelled, not its text. A non-partition table in schema
  `public` with the same name is not modelled.

## Findings

| source | as written | input that shows it | evidently intended | confidence | as-written member | corrected member |
|---|---|---|---|---|---|---|
| controllers/eventsController.cs:30-62 | the fetch, the count update and the admission run only when the key is already in `_memoryCache`, and `_memoryCache.Add` on that present key would throw, so the warm map never gains an entry | six identical requests with title, artist, location, begin and end all set, for an existing event: all six go to the list query and none is served from the cache | count every complete lookup that misses the warm map, and admit the fetched event once the count reaches 5, so the sixth lookup is a cache hit; this also needs dictionaries that outlive a request (a singleton controller or shared dictionaries), since each request gets a new controller | not executed | EventsController.SixthLookupNotCached | EventsController.SixthLookupCachedWhenIntended |
