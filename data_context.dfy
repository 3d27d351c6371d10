/** Data/MydatabaseContext.cs: the tables the services read and write. */
module Data {
  import opened Models
  import Consts

  /** The tickets table, keyed by its composite primary key. */
  type TicketTable = map<SeatKey, Ticket>

  /** Every row is stored under its own primary key. */
  ghost predicate Keyed(table: TicketTable) {
    forall k :: k in table ==> table[k].Key() == k
  }

  /** The event ids of a table are pairwise distinct (primary key). */
  ghost predicate DistinctIds(events: seq<Event>) {
    forall i, j :: 0 <= i < j < |events| ==> events[i].id != events[j].id
  }

  /** A snapshot of the catalogue tables, in storage order, as the queries
      of the event service see them. */
  datatype Catalogue = Catalogue(events: seq<Event>, artists: seq<Artist>, locations: seq<Location>)

  class DataContext {
    var tickets: TicketTable
    var partitions: Consts.Partitions
    var events: seq<Event>
    var artists: seq<Artist>
    var locations: seq<Location>
    /** The next value of the events id sequence (a serial column). */
    var nextEventId: int

    /** The database's own guarantees: primary keys, and every ticket lies
        in a partition that holds its event id. */
    ghost predicate Valid()
      reads this
      ensures Valid() ==> forall t :: t in tickets.Values ==> t.eventId in partitions.Values
    {
      && Keyed(tickets)
      && (forall k :: k in tickets ==> k.eventId in partitions.Values)
      && DistinctIds(events)
      && (forall i :: 0 <= i < |events| ==> events[i].id < nextEventId)
    }

    constructor (artists: seq<Artist>, locations: seq<Location>)
      ensures Valid()
      ensures tickets == map[] && partitions == map[] && events == []
      ensures this.artists == artists && this.locations == locations && nextEventId == 1
    {
      tickets := map[];
      partitions := map[];
      events := [];
      this.artists := artists;
      this.locations := locations;
      nextEventId := 1;
    }
  }
}
