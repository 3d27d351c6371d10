/** Services/initService.cs: seat generation for an event. The partition of
    the tickets table for the event is created first (unless present), then
    the cross product sections x rows x seats is built with a random price
    per seat and inserted in one batch. */
module InitService {
  import opened Wrappers
  import opened Models
  import opened Data
  import Consts

  const FailedToCreateTickets := "Failed to create tickets"
  const Int32Overflow := "Value was either too large or too small for an Int32."
  const MinValueAboveMax := "'minValue' cannot be greater than maxValue."
  const NoPartitionError := "no partition of relation \"tickets\" found for row"
  const DuplicateKeyError := "duplicate key value violates unique constraint \"tickets_eventid_pkey\""
  const NumericOverflow := "numeric field overflow"

  // ---------------------------------------------------------------------
  // Partition naming: $"tickets_eventid{eventId}"

  function DigitChar(d: nat): char
    requires d < 10
  {
    "0123456789"[d]
  }

  function DigitValue(c: char): nat {
    if '0' <= c <= '9' then (c - '0') as nat else 0
  }

  /** The decimal digits of `n`, most significant first, no leading zero. */
  function NatDigits(n: nat): (s: string)
    ensures |s| > 0 && '0' <= s[0] <= '9'
    decreases n
  {
    if n < 10 then [DigitChar(n)] else NatDigits(n / 10) + [DigitChar(n % 10)]
  }

  /** Reads a string of decimal digits back as a number. */
  function ParseDigits(s: string): nat {
    if s == [] then 0 else ParseDigits(s[..|s| - 1]) * 10 + DigitValue(s[|s| - 1])
  }

  lemma {:induction false} ParseNatDigits(n: nat)
    ensures ParseDigits(NatDigits(n)) == n
    decreases n
  {
    if n >= 10 {
      ParseNatDigits(n / 10);
      var s := NatDigits(n);
      assert s[..|s| - 1] == NatDigits(n / 10);
      assert DigitValue(s[|s| - 1]) == n % 10;
    } else {
      assert DigitValue(DigitChar(n)) == n;
    }
  }

  /** The invariant-culture text of an int: a minus sign, then digits. */
  function IntToString(i: int): (r: string)
    ensures |r| > 0 && (r[0] == '-' <==> i < 0)
    ensures i >= 0 ==> ParseDigits(r) == i
    ensures i < 0 ==> ParseDigits(r[1..]) == -i
  {
    if i < 0 then
      NegativeText(-i);
      ['-'] + NatDigits(-i)
    else
      ParseNatDigits(i);
      NatDigits(i)
  }

  lemma NegativeText(n: nat)
    ensures var r := ['-'] + NatDigits(n); r[0] == '-' && ParseDigits(r[1..]) == n
  {
    var digits := NatDigits(n);
    ParseNatDigits(n);
    assert (['-'] + digits)[1..] == digits;
  }

  const PartitionPrefix := "tickets_eventid"

  /** `$"tickets_eventid{eventId}"`: the prefix followed by the event id,
      which reads back from the rest of the name. */
  function PartitionName(eventId: int): (r: string)
    ensures |r| > |PartitionPrefix| && r[..|PartitionPrefix|] == PartitionPrefix
    ensures eventId >= 0 ==> ParseDigits(r[|PartitionPrefix|..]) == eventId
    ensures eventId < 0 ==> r[|PartitionPrefix|] == '-' && ParseDigits(r[|PartitionPrefix| + 1..]) == -eventId
  {
    var r := PartitionPrefix + IntToString(eventId);
    assert r[|PartitionPrefix|..] == IntToString(eventId);
    r
  }

  /** Distinct events get distinct partition names. */
  lemma PartitionNameInjective(a: int, b: int)
    requires PartitionName(a) == PartitionName(b)
    ensures a == b
  {
  }

  // ---------------------------------------------------------------------
  // GeneratePrice

  /** The `(int)` conversion of a decimal: truncation toward zero. */
  function Truncate(x: real): (r: int)
    ensures x >= 0.0 ==> r as real <= x < r as real + 1.0
    ensures x < 0.0 ==> r as real - 1.0 < x <= r as real
  {
    if x >= 0.0 then x.Floor else -((-x).Floor)
  }

  /** The inclusive range of values `new Random().Next((int)minPrice,
      (int)maxPrice + 1)` can return, or the exception it raises: either
      conversion can overflow, `+ 1` wraps, `Next` rejects a lower bound
      above the upper one and returns the lower bound when they are equal. */
  function PriceDrawRange(meanPrice: real, sd: real): (r: Result<(int, int)>)
    ensures r.Ok? ==> r.value.0 <= r.value.1 && r.value.0 == Truncate(meanPrice - sd)
    ensures r.Ok? && Truncate(meanPrice - sd) <= Truncate(meanPrice + sd) < MaxInt32 ==>
      r.value.1 == Truncate(meanPrice + sd)
    ensures r.Ok? && Truncate(meanPrice + sd) == MaxInt32 ==> r.value == (MinInt32, MinInt32)
    ensures sd >= 0.0 && MinInt32 <= Truncate(meanPrice - sd) && Truncate(meanPrice + sd) < MaxInt32 ==>
      r == Ok((Truncate(meanPrice - sd), Truncate(meanPrice + sd)))
  {
    var minPrice := meanPrice - sd;
    var maxPrice := meanPrice + sd;
    var lo := Truncate(minPrice);
    var hi := Truncate(maxPrice);
    if !InInt32(lo) || !InInt32(hi) then Err(Int32Overflow)
    else
      var upper := Wrap32(hi + 1);
      assert hi < MaxInt32 ==> upper == hi + 1;
      if lo > upper then Err(MinValueAboveMax)
      else if lo == upper then Ok((lo, lo))
      else Ok((lo, upper - 1))
  }

  /** `price` is a whole number in the inclusive range. */
  predicate DrawnFrom(price: real, range: (int, int)) {
    price.Floor as real == price && range.0 <= price.Floor <= range.1
  }

  /** A price drawn at random from the range, as a whole number. */
  method GeneratePrice(meanPrice: real, sd: real) returns (r: Result<real>)
    ensures r.Err? <==> PriceDrawRange(meanPrice, sd).Err?
    ensures r.Ok? ==> PriceDrawRange(meanPrice, sd).Ok? && DrawnFrom(r.value, PriceDrawRange(meanPrice, sd).value)
  {
    var range := PriceDrawRange(meanPrice, sd);
    if range.Err? {
      return Err(range.error);
    }
    var p: int :| range.value.0 <= p <= range.value.1;
    r := Ok(p as real);
  }

  // ---------------------------------------------------------------------
  // The seat grid, in the order the nested loops produce it

  /** The blocks one after the other. */
  function Flatten(blocks: seq<seq<SeatKey>>): seq<SeatKey> {
    if blocks == [] then [] else Flatten(blocks[..|blocks| - 1]) + blocks[|blocks| - 1]
  }

  /** Seats 0..k-1 of row `j` in section `i`. */
  function SeatRow(e: int, i: int, j: int, k: nat): seq<SeatKey> {
    seq(k, c => SeatKey(e, j, i, c))
  }

  /** Rows 0..j-1 of section `i`, each of `n` seats. */
  function Rows(e: int, i: int, j: nat, n: nat): seq<SeatKey> {
    Flatten(seq(j, r => SeatRow(e, i, r, n)))
  }

  /** Sections 0..i-1, each of `rows` rows of `n` seats. */
  function Grid(e: int, i: nat, rows: nat, n: nat): seq<SeatKey> {
    Flatten(seq(i, s => Rows(e, s, rows, n)))
  }

  lemma FlattenSnoc(blocks: seq<seq<SeatKey>>, b: seq<SeatKey>)
    ensures Flatten(blocks + [b]) == Flatten(blocks) + b
  {
    assert (blocks + [b])[..|blocks|] == blocks;
  }

  /** One more seat, row or section extends the sequence at its end. */
  lemma SeatRowStep(e: int, i: int, j: int, k: nat)
    ensures SeatRow(e, i, j, k + 1) == SeatRow(e, i, j, k) + [SeatKey(e, j, i, k)]
  {
  }

  lemma RowsStep(e: int, i: int, j: nat, n: nat)
    ensures Rows(e, i, j + 1, n) == Rows(e, i, j, n) + SeatRow(e, i, j, n)
  {
    var blocks := seq(j, r => SeatRow(e, i, r, n));
    assert seq(j + 1, r => SeatRow(e, i, r, n)) == blocks + [SeatRow(e, i, j, n)];
    FlattenSnoc(blocks, SeatRow(e, i, j, n));
  }

  lemma GridStep(e: int, i: nat, rows: nat, n: nat)
    ensures Grid(e, i + 1, rows, n) == Grid(e, i, rows, n) + Rows(e, i, rows, n)
  {
    var blocks := seq(i, s => Rows(e, s, rows, n));
    assert seq(i + 1, s => Rows(e, s, rows, n)) == blocks + [Rows(e, i, rows, n)];
    FlattenSnoc(blocks, Rows(e, i, rows, n));
  }

  lemma {:induction false} FlattenLength(blocks: seq<seq<SeatKey>>, m: nat)
    requires forall p :: 0 <= p < |blocks| ==> |blocks[p]| == m
    ensures |Flatten(blocks)| == |blocks| * m
  {
    if blocks != [] {
      var init := blocks[..|blocks| - 1];
      FlattenLength(init, m);
      assert |blocks| * m == |init| * m + m;
    }
  }

  lemma {:induction false} FlattenMembers(blocks: seq<seq<SeatKey>>, x: SeatKey)
    ensures x in Flatten(blocks) <==> exists p :: 0 <= p < |blocks| && x in blocks[p]
  {
    if blocks != [] {
      var init := blocks[..|blocks| - 1];
      FlattenMembers(init, x);
      if exists p :: 0 <= p < |init| && x in init[p] {
        var p :| 0 <= p < |init| && x in init[p];
        assert blocks[p] == init[p];
      }
      if exists p :: 0 <= p < |blocks| && x in blocks[p] {
        var p :| 0 <= p < |blocks| && x in blocks[p];
        if p < |init| { assert init[p] == blocks[p]; }
      }
    }
  }

  /** The grid has one entry per section, row and seat. */
  lemma GridLength(e: int, i: nat, rows: nat, n: nat)
    ensures |Grid(e, i, rows, n)| == i * (rows * n)
  {
    forall s | 0 <= s < i ensures |Rows(e, s, rows, n)| == rows * n {
      FlattenLength(seq(rows, r => SeatRow(e, s, r, n)), n);
    }
    FlattenLength(seq(i, s => Rows(e, s, rows, n)), rows * n);
  }

  lemma SeatRowMembers(e: int, i: int, j: int, k: nat, x: SeatKey)
    ensures x in SeatRow(e, i, j, k) <==>
      x.eventId == e && x.sectionNumber == i && x.rowNumber == j && 0 <= x.seatNumber < k
  {
    if x.eventId == e && x.sectionNumber == i && x.rowNumber == j && 0 <= x.seatNumber < k {
      assert SeatRow(e, i, j, k)[x.seatNumber] == x;
    }
  }

  lemma RowsMembers(e: int, i: int, j: nat, n: nat, x: SeatKey)
    ensures x in Rows(e, i, j, n) <==>
      x.eventId == e && x.sectionNumber == i && 0 <= x.rowNumber < j && 0 <= x.seatNumber < n
  {
    var blocks := seq(j, r => SeatRow(e, i, r, n));
    FlattenMembers(blocks, x);
    if x in Rows(e, i, j, n) {
      var p :| 0 <= p < |blocks| && x in blocks[p];
      SeatRowMembers(e, i, p, n, x);
    }
    if x.eventId == e && x.sectionNumber == i && 0 <= x.rowNumber < j && 0 <= x.seatNumber < n {
      SeatRowMembers(e, i, x.rowNumber, n, x);
      assert x in blocks[x.rowNumber];
    }
  }

  /** The grid is exactly the cross product of the ranges. */
  lemma GridMembers(e: int, i: nat, rows: nat, n: nat, x: SeatKey)
    ensures x in Grid(e, i, rows, n) <==>
      x.eventId == e && 0 <= x.sectionNumber < i && 0 <= x.rowNumber < rows && 0 <= x.seatNumber < n
  {
    var blocks := seq(i, s => Rows(e, s, rows, n));
    FlattenMembers(blocks, x);
    if x in Grid(e, i, rows, n) {
      var p :| 0 <= p < |blocks| && x in blocks[p];
      RowsMembers(e, p, rows, n, x);
    }
    if x.eventId == e && 0 <= x.sectionNumber < i && 0 <= x.rowNumber < rows && 0 <= x.seatNumber < n {
      RowsMembers(e, x.sectionNumber, rows, n, x);
      assert x in blocks[x.sectionNumber];
    }
  }

  /** Section, then row, then seat. */
  predicate LexLess(a: SeatKey, b: SeatKey) {
    || a.sectionNumber < b.sectionNumber
    || (a.sectionNumber == b.sectionNumber && a.rowNumber < b.rowNumber)
    || (a.sectionNumber == b.sectionNumber && a.rowNumber == b.rowNumber && a.seatNumber < b.seatNumber)
  }

  predicate StrictlyIncreasing(s: seq<SeatKey>) {
    forall p, q :: 0 <= p < q < |s| ==> LexLess(s[p], s[q])
  }

  lemma ConcatIncreasing(a: seq<SeatKey>, b: seq<SeatKey>)
    requires StrictlyIncreasing(a) && StrictlyIncreasing(b)
    requires forall x, y :: x in a && y in b ==> LexLess(x, y)
    ensures StrictlyIncreasing(a + b)
  {
    forall p, q | 0 <= p < q < |a + b| ensures LexLess((a + b)[p], (a + b)[q]) {
      if q < |a| {
        assert (a + b)[p] == a[p] && (a + b)[q] == a[q];
      } else if p >= |a| {
        assert (a + b)[p] == b[p - |a|] && (a + b)[q] == b[q - |a|];
      } else {
        assert a[p] in a && b[q - |a|] in b;
      }
    }
  }

  /** Blocks that are each increasing, and wholly ordered among
      themselves, flatten to an increasing sequence. */
  lemma {:induction false} FlattenIncreasing(blocks: seq<seq<SeatKey>>)
    requires forall p :: 0 <= p < |blocks| ==> StrictlyIncreasing(blocks[p])
    requires forall p, q, x, y :: 0 <= p < q < |blocks| && x in blocks[p] && y in blocks[q] ==> LexLess(x, y)
    ensures StrictlyIncreasing(Flatten(blocks))
  {
    if blocks != [] {
      var init, last := blocks[..|blocks| - 1], blocks[|blocks| - 1];
      FlattenIncreasing(init);
      forall x, y | x in Flatten(init) && y in last ensures LexLess(x, y) {
        FlattenMembers(init, x);
        var p :| 0 <= p < |init| && x in init[p];
        assert x in blocks[p];
      }
      ConcatIncreasing(Flatten(init), last);
    }
  }

  lemma SeatRowIncreasing(e: int, i: int, j: int, k: nat)
    ensures StrictlyIncreasing(SeatRow(e, i, j, k))
  {
  }

  lemma RowsIncreasing(e: int, i: int, j: nat, n: nat)
    ensures StrictlyIncreasing(Rows(e, i, j, n))
  {
    var blocks := seq(j, r => SeatRow(e, i, r, n));
    forall p | 0 <= p < |blocks| ensures StrictlyIncreasing(blocks[p]) {
      SeatRowIncreasing(e, i, p, n);
    }
    forall p, q, x, y | 0 <= p < q < |blocks| && x in blocks[p] && y in blocks[q] ensures LexLess(x, y) {
      SeatRowMembers(e, i, p, n, x);
      SeatRowMembers(e, i, q, n, y);
    }
    FlattenIncreasing(blocks);
  }

  /** The generated seats appear in lexicographic order section -> row ->
      seat, and so are pairwise distinct. */
  lemma GridIncreasing(e: int, i: nat, rows: nat, n: nat)
    ensures StrictlyIncreasing(Grid(e, i, rows, n))
  {
    var blocks := seq(i, s => Rows(e, s, rows, n));
    forall p | 0 <= p < |blocks| ensures StrictlyIncreasing(blocks[p]) {
      RowsIncreasing(e, p, rows, n);
    }
    forall p, q, x, y | 0 <= p < q < |blocks| && x in blocks[p] && y in blocks[q] ensures LexLess(x, y) {
      RowsMembers(e, p, rows, n, x);
      RowsMembers(e, q, rows, n, y);
    }
    FlattenIncreasing(blocks);
  }

  lemma GridDistinct(e: int, i: nat, rows: nat, n: nat)
    ensures forall p, q :: 0 <= p < q < |Grid(e, i, rows, n)| ==> Grid(e, i, rows, n)[p] != Grid(e, i, rows, n)[q]
  {
    GridIncreasing(e, i, rows, n);
  }

  // ---------------------------------------------------------------------
  // Building and inserting the tickets

  /** A generated ticket: of the event, with no buyer fields set. */
  predicate Unsold(t: Ticket, eventId: int) {
    t.eventId == eventId && !t.isBought && t.buyerEmail == None && t.purchasedTime == None
  }

  /** The nested loops that fill `ticketData`, one price drawn per seat. */
  method BuildTicketData(meanPrice: real, sd: real, eventId: int, numberOfSeats: int, amountOfSections: int, amountOfRows: int)
    returns (r: Result<seq<Ticket>>)
    requires numberOfSeats > 0 && amountOfSections > 0 && amountOfRows > 0
    ensures r.Err? <==> PriceDrawRange(meanPrice, sd).Err?
    ensures r.Ok? ==>
      var grid := Grid(eventId, amountOfSections, amountOfRows, numberOfSeats);
      && |r.value| == |grid|
      && (forall p :: 0 <= p < |r.value| ==> r.value[p].Key() == grid[p])
      && (forall t :: t in r.value ==> Unsold(t, eventId))
      && (forall t :: t in r.value ==> PricedWithin(t, meanPrice, sd))
  {
    var ticketData: seq<Ticket> := [];
    ghost var e, rows, n := eventId, amountOfRows, numberOfSeats;
    for i := 0 to amountOfSections
      invariant |ticketData| == |Grid(e, i, rows, n)|
      invariant forall p :: 0 <= p < |ticketData| ==> ticketData[p].Key() == Grid(e, i, rows, n)[p]
      invariant forall t :: t in ticketData ==> Unsold(t, eventId) && PricedWithin(t, meanPrice, sd)
      invariant i > 0 ==> PriceDrawRange(meanPrice, sd).Ok?
    {
      for j := 0 to amountOfRows
        invariant |ticketData| == |Grid(e, i, rows, n) + Rows(e, i, j, n)|
        invariant forall p :: 0 <= p < |ticketData| ==> ticketData[p].Key() == (Grid(e, i, rows, n) + Rows(e, i, j, n))[p]
        invariant forall t :: t in ticketData ==> Unsold(t, eventId) && PricedWithin(t, meanPrice, sd)
        invariant j > 0 ==> PriceDrawRange(meanPrice, sd).Ok?
      {
        for k := 0 to numberOfSeats
          invariant |ticketData| == |Grid(e, i, rows, n) + Rows(e, i, j, n) + SeatRow(e, i, j, k)|
          invariant forall p :: 0 <= p < |ticketData| ==>
            ticketData[p].Key() == (Grid(e, i, rows, n) + Rows(e, i, j, n) + SeatRow(e, i, j, k))[p]
          invariant forall t :: t in ticketData ==> Unsold(t, eventId) && PricedWithin(t, meanPrice, sd)
          invariant k > 0 ==> PriceDrawRange(meanPrice, sd).Ok?
        {
          var price := GeneratePrice(meanPrice, sd);
          if price.Err? {
            return Err(price.error);
          }
          ticketData := ticketData + [Ticket(eventId, j, i, k, price.value, false, None, None)];
          SeatRowStep(e, i, j, k);
        }
        RowsStep(e, i, j, n);
      }
      GridStep(e, i, rows, n);
    }
    r := Ok(ticketData);
  }

  /** The price is a whole number that `GeneratePrice` can return. */
  predicate PricedWithin(t: Ticket, meanPrice: real, sd: real) {
    PriceDrawRange(meanPrice, sd).Ok? && DrawnFrom(t.price, PriceDrawRange(meanPrice, sd).value)
  }

  /** The price column is numeric(7,2). */
  predicate FitsPriceColumn(price: real) {
    -100000.0 < price < 100000.0
  }

  /** None of the grid's keys is stored yet. */
  predicate GridFree(table: TicketTable, eventId: int, sections: nat, rowCount: nat, seats: nat) {
    forall k :: k in Grid(eventId, sections, rowCount, seats) ==> k !in table
  }

  /** Every price the range can yield fits the price column. */
  predicate RangeFitsPriceColumn(meanPrice: real, sd: real) {
    var range := PriceDrawRange(meanPrice, sd);
    range.Ok? && FitsPriceColumn(range.value.0 as real) && FitsPriceColumn(range.value.1 as real)
  }

  predicate RowKeysDistinct(rows: seq<Ticket>) {
    forall p, q :: 0 <= p < q < |rows| ==> rows[p].Key() != rows[q].Key()
  }

  /** The rows of a batch, by their primary key. */
  function RowsByKey(rows: seq<Ticket>): (m: map<SeatKey, Ticket>)
    requires RowKeysDistinct(rows)
    ensures forall t :: t in rows ==> t.Key() in m && m[t.Key()] == t
    ensures forall k :: k in m ==> exists p :: 0 <= p < |rows| && rows[p].Key() == k
  {
    if rows == [] then map[]
    else
      var init, last := rows[..|rows| - 1], rows[|rows| - 1];
      assert forall p :: 0 <= p < |init| ==> init[p] == rows[p];
      assert forall t :: t in rows ==> t in init || t == last by {
        assert rows == init + [last];
      }
      RowsByKey(init)[last.Key() := last]
  }

  /** `AddRangeAsync` + `SaveChangesAsync`: the rows are inserted together
      or, if the database refuses one of them, not at all. */
  function InsertRange(table: TicketTable, parts: Consts.Partitions, rows: seq<Ticket>): (r: Result<TicketTable>)
    ensures r.Ok? <==>
      && (forall t :: t in rows ==> t.eventId in parts.Values && t.Key() !in table && FitsPriceColumn(t.price))
      && RowKeysDistinct(rows)
    ensures r.Ok? ==> table.Keys <= r.value.Keys && forall k :: k in table ==> r.value[k] == table[k]
    ensures r.Ok? ==> forall t :: t in rows ==> t.Key() in r.value && r.value[t.Key()] == t
    ensures r.Ok? ==> forall k :: k in r.value ==> k in table || exists p :: 0 <= p < |rows| && rows[p].Key() == k
  {
    if exists t :: t in rows && t.eventId !in parts.Values then Err(NoPartitionError)
    else if exists t :: t in rows && t.Key() in table then Err(DuplicateKeyError)
    else if !RowKeysDistinct(rows) then Err(DuplicateKeyError)
    else if exists t :: t in rows && !FitsPriceColumn(t.price) then Err(NumericOverflow)
    else Ok(table + RowsByKey(rows))
  }

  /** A freshly built grid batch is accepted when its event has a
      partition, its prices fit the column and none of its keys is stored. */
  lemma InsertGridSucceeds(table: TicketTable, parts: Consts.Partitions, rows: seq<Ticket>, meanPrice: real, sd: real,
                           eventId: int, sections: nat, rowCount: nat, seats: nat)
    requires var grid := Grid(eventId, sections, rowCount, seats);
      && |rows| == |grid|
      && (forall p :: 0 <= p < |rows| ==> rows[p].Key() == grid[p])
      && (forall t :: t in rows ==> Unsold(t, eventId) && PricedWithin(t, meanPrice, sd))
    requires eventId in parts.Values && RangeFitsPriceColumn(meanPrice, sd)
    requires GridFree(table, eventId, sections, rowCount, seats)
    ensures InsertRange(table, parts, rows).Ok?
  {
    var grid := Grid(eventId, sections, rowCount, seats);
    GridDistinct(eventId, sections, rowCount, seats);
    forall t | t in rows ensures t.eventId in parts.Values && t.Key() !in table && FitsPriceColumn(t.price) {
      var p :| 0 <= p < |rows| && rows[p] == t;
      assert grid[p] in grid;
    }
    assert RowKeysDistinct(rows);
  }

  /** An accepted grid batch adds exactly the grid's keys, each an unsold
      ticket priced within the range. */
  lemma InsertGridContents(table: TicketTable, parts: Consts.Partitions, rows: seq<Ticket>, meanPrice: real, sd: real,
                           eventId: int, sections: nat, rowCount: nat, seats: nat)
    requires var grid := Grid(eventId, sections, rowCount, seats);
      && |rows| == |grid|
      && (forall p :: 0 <= p < |rows| ==> rows[p].Key() == grid[p])
      && (forall t :: t in rows ==> Unsold(t, eventId) && PricedWithin(t, meanPrice, sd))
    requires InsertRange(table, parts, rows).Ok?
    ensures var after := InsertRange(table, parts, rows).value;
      && (forall k :: k in after && k !in table <==> k in Grid(eventId, sections, rowCount, seats))
      && (forall k :: k in Grid(eventId, sections, rowCount, seats) ==>
            Unsold(after[k], eventId) && PricedWithin(after[k], meanPrice, sd))
  {
    var grid := Grid(eventId, sections, rowCount, seats);
    var after := InsertRange(table, parts, rows).value;
    forall k | k in after && k !in table ensures k in grid {
      var p :| 0 <= p < |rows| && rows[p].Key() == k;
      assert grid[p] == k;
    }
    forall k | k in grid ensures k in after && k !in table && Unsold(after[k], eventId) && PricedWithin(after[k], meanPrice, sd) {
      var p :| 0 <= p < |grid| && grid[p] == k;
      assert rows[p] in rows;
    }
  }

  class InitService {
    const context: DataContext

    constructor (context: DataContext)
      ensures this.context == context
    {
      this.context := context;
    }

    /** Runs the partition statement for `eventId`. The statement runs on
        its own, so what it creates stays even if the ticket insert later
        fails. */
    method CreatePartitionIfNotExists(eventId: int) returns (r: Result<()>)
      requires context.Valid()
      modifies context`partitions
      ensures context.Valid()
      ensures var after := Consts.Execute(Consts.CreatePartitionIfNotExistsSQL(PartitionName(eventId), eventId), old(context.partitions));
        && (r.Ok? <==> after.Ok?)
        && context.partitions == if after.Ok? then after.value else old(context.partitions)
    {
      var partitionName := PartitionName(eventId);
      var mutation := Consts.CreatePartitionIfNotExistsSQL(partitionName, eventId);
      var after := Consts.Execute(mutation, context.partitions);
      if after.Err? {
        return Err(after.error);
      }
      context.partitions := after.value;
      r := Ok(());
    }

    method CreateTicketsForEvent(meanPrice: real, sd: real, eventId: int, numberOfSeats: int, amountOfSections: int, amountOfRows: int)
      returns (r: ServiceResponse<()>)
      requires context.Valid()
      requires eventId > 0 && numberOfSeats > 0 && amountOfSections > 0 && amountOfRows > 0
      modifies context`tickets, context`partitions
      ensures context.Valid()
      ensures r == SuccessServiceResponse(None, None) || r == FailServiceResponse(500, Some(FailedToCreateTickets))
      ensures var after := Consts.Execute(Consts.CreatePartitionIfNotExistsSQL(PartitionName(eventId), eventId), old(context.partitions));
        context.partitions == if after.Ok? then after.value else old(context.partitions)
      ensures var after := Consts.Execute(Consts.CreatePartitionIfNotExistsSQL(PartitionName(eventId), eventId), old(context.partitions));
        && after.Ok? && eventId in after.value.Values
        && RangeFitsPriceColumn(meanPrice, sd)
        && GridFree(old(context.tickets), eventId, amountOfSections, amountOfRows, numberOfSeats)
        ==> r.Success()
      ensures !r.Success() ==> context.tickets == old(context.tickets)
      ensures r.Success() ==>
        && PartitionName(eventId) in context.partitions
        && eventId in context.partitions.Values
        && PriceDrawRange(meanPrice, sd).Ok?
        && old(context.tickets).Keys <= context.tickets.Keys
        && (forall k :: k in old(context.tickets) ==> context.tickets[k] == old(context.tickets)[k])
        && (forall k :: k in context.tickets && k !in old(context.tickets) <==>
              k in Grid(eventId, amountOfSections, amountOfRows, numberOfSeats))
        && (forall k :: k in Grid(eventId, amountOfSections, amountOfRows, numberOfSeats) ==>
              Unsold(context.tickets[k], eventId) && PricedWithin(context.tickets[k], meanPrice, sd))
    {
      var partition := CreatePartitionIfNotExists(eventId);
      if partition.Err? {
        return FailServiceResponse(500, Some(FailedToCreateTickets));
      }
      var ticketData := BuildTicketData(meanPrice, sd, eventId, numberOfSeats, amountOfSections, amountOfRows);
      if ticketData.Err? {
        return FailServiceResponse(500, Some(FailedToCreateTickets));
      }
      ghost var grid := Grid(eventId, amountOfSections, amountOfRows, numberOfSeats);
      ghost var rows := ticketData.value;
      if && eventId in context.partitions.Values && RangeFitsPriceColumn(meanPrice, sd)
         && GridFree(context.tickets, eventId, amountOfSections, amountOfRows, numberOfSeats)
      {
        InsertGridSucceeds(context.tickets, context.partitions, rows, meanPrice, sd, eventId, amountOfSections, amountOfRows, numberOfSeats);
      }
      var inserted := InsertRange(context.tickets, context.partitions, ticketData.value);
      if inserted.Err? {
        return FailServiceResponse(500, Some(FailedToCreateTickets));
      }
      InsertGridContents(context.tickets, context.partitions, rows, meanPrice, sd, eventId, amountOfSections, amountOfRows, numberOfSeats);
      context.tickets := inserted.value;
      r := SuccessServiceResponse(None, None);
    }
  }
}
