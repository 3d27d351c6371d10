/** The entities of Models/: tickets, events, artists, locations, the request
    DTOs, the service response hierarchy and the seat identifier record. */
module Models {
  import opened Wrappers

  /** A point in time (DateTime), abstracted to a tick count. */
  type DateTime = int

  /** The range of the C# `int` type. */
  const MinInt32: int := -0x8000_0000
  const MaxInt32: int := 0x7fff_ffff

  predicate InInt32(n: int) {
    MinInt32 <= n <= MaxInt32
  }

  /** Unchecked 32-bit two's-complement wrap-around of an `int` result. */
  function Wrap32(n: int): (r: int)
    ensures InInt32(r)
    ensures InInt32(n) ==> r == n
    ensures (r - n) % 0x1_0000_0000 == 0
  {
    (n - MinInt32) % 0x1_0000_0000 + MinInt32
  }

  /** The composite primary key of the tickets table:
      (EventId, RowNumber, SectionNumber, SeatNumber). */
  datatype SeatKey = SeatKey(eventId: int, rowNumber: int, sectionNumber: int, seatNumber: int)

  /** One row of the tickets table. The price column is numeric(7,2). */
  datatype Ticket = Ticket(
    eventId: int,
    rowNumber: int,
    sectionNumber: int,
    seatNumber: int,
    price: real,
    isBought: bool,
    purchasedTime: Option<DateTime>,
    buyerEmail: Option<string>)
  {
    function Key(): SeatKey {
      SeatKey(eventId, rowNumber, sectionNumber, seatNumber)
    }
  }

  datatype Event = Event(
    id: int,
    title: string,
    artistId: int,
    beginDatetime: DateTime,
    endDatetime: DateTime,
    locationId: int)

  datatype Artist = Artist(id: int, name: string)

  datatype Location = Location(id: int, address: string)

  datatype EventCreateDto = EventCreateDto(
    title: string,
    artistId: int,
    location: string,
    beginDateTime: DateTime,
    endDateTime: DateTime)

  datatype EventUpdateDto = EventUpdateDto(title: string, artistId: int)

  /** The response hierarchy as a sum type: only the success variant carries
      `Data`, only the failure variant carries `StatusCode`, and both share
      the one `Message`. An unset `Message` or `Data` is `None`. */
  datatype ServiceResponse<+T> =
    | SuccessServiceResponse(data: Option<T>, message: Option<string>)
    | FailServiceResponse(statusCode: int, message: Option<string>)
  {
    /** The `Success` flag, fixed by the constructor of each variant. */
    predicate Success() {
      SuccessServiceResponse?
    }

    /** Writing `Message` through either variant sets the shared base field
        and leaves the variant, its flag and its payload alone. */
    function WithMessage(m: Option<string>): (r: ServiceResponse<T>)
      ensures r.message == m
      ensures r.Success() == Success()
      ensures Success() ==> r.SuccessServiceResponse? && r.data == data
      ensures !Success() ==> r.FailServiceResponse? && r.statusCode == statusCode
    {
      this.(message := m)
    }
  }

  /** The seat identifier sent by clients to buy or refund. */
  datatype SeatsInfoType = SeatsInfoType(eventId: int, seatNumber: int, rowNumber: int, sectionNumber: int)
  {
    function Key(): SeatKey {
      SeatKey(eventId, rowNumber, sectionNumber, seatNumber)
    }
  }

  /** A freshly constructed response has the flag of its variant. */
  lemma ResponseFlags<T>(data: Option<T>, code: int, m: Option<string>)
    ensures SuccessServiceResponse(data, m).Success()
    ensures !ServiceResponse<T>.FailServiceResponse(code, m).Success()
  {
  }
}
