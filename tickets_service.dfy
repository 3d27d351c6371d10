/** Services/ticketsService.cs: looking up, buying and refunding tickets.
    Each buy or refund runs in one transaction: it either updates every
    selected row and commits, or throws before saving, so that the failed
    call leaves the table as it was. Each call is one atomic step here. */
module TicketsService {
  import opened Wrappers
  import opened Models
  import opened Data

  const TransactionErrorPrefix := "An error occurred while processing the transaction: "
  const UnavailableMessage := "One or more tickets are unavailable."
  const NotBookedMessage := "One or more seats are not booked."
  const RefundedMessage := "Tickets refunded successfully."

  /** A service call's response together with the tickets table after it. */
  datatype Outcome<+T> = Outcome(response: ServiceResponse<T>, table: TicketTable)

  /** Key `k` equals the identifier of some entry of the request. */
  predicate Requested(k: SeatKey, seatsInfo: seq<SeatsInfoType>) {
    exists i :: 0 <= i < |seatsInfo| && seatsInfo[i].Key() == k
  }

  /** The identifiers of a request, as a set. */
  function RequestedKeys(seatsInfo: seq<SeatsInfoType>): set<SeatKey> {
    set i | 0 <= i < |seatsInfo| :: seatsInfo[i].Key()
  }

  /** No seat is named twice in the request. */
  predicate DistinctKeys(seatsInfo: seq<SeatsInfoType>) {
    forall i, j :: 0 <= i < j < |seatsInfo| ==> seatsInfo[i].Key() != seatsInfo[j].Key()
  }

  /** A ticket that someone other than `email` holds (or that is marked
      bought with no buyer recorded). */
  predicate Unavailable(t: Ticket, email: string) {
    t.isBought && t.buyerEmail != Some(email)
  }

  predicate OwnedBy(t: Ticket, email: string) {
    t.isBought && t.buyerEmail == Some(email)
  }

  // ---------------------------------------------------------------------
  // GetTicketsInfo

  /** The tickets whose buyer is `email`. The section, row and seat
      conditions of the query compare each column with itself, so the
      `seatsIds` argument has no influence on the result. */
  function GetTicketsInfo(table: TicketTable, email: string, seatsIds: Option<seq<string>>): (r: ServiceResponse<TicketTable>)
    ensures r.SuccessServiceResponse? && r.data.Some? && r.message == None
    ensures forall k :: k in r.data.value <==> k in table && table[k].buyerEmail == Some(email)
    ensures forall k :: k in r.data.value ==> r.data.value[k] == table[k]
  {
    SuccessServiceResponse(Some(map k | k in table && table[k].buyerEmail == Some(email) :: table[k]), None)
  }

  lemma GetTicketsInfoIgnoresSeatIds(table: TicketTable, email: string, a: Option<seq<string>>, b: Option<seq<string>>)
    ensures GetTicketsInfo(table, email, a) == GetTicketsInfo(table, email, b)
  {
  }

  // ---------------------------------------------------------------------
  // BuyTicket

  /** The rows a buy loads: every stored ticket whose key is requested.
      Requested keys with no row are simply not loaded. */
  function BuySelection(table: TicketTable, seatsInfo: seq<SeatsInfoType>): set<SeatKey> {
    set k | k in table && Requested(k, seatsInfo)
  }

  /** `table` with every key of `sel` marked bought by `email`. */
  function Purchased(table: TicketTable, sel: set<SeatKey>, email: string): TicketTable {
    map k | k in table :: if k in sel then table[k].(isBought := true, buyerEmail := Some(email)) else table[k]
  }

  /** The effect of `BuyTicket` on the table, and its response. */
  function BuyOutcome(table: TicketTable, email: string, seatsInfo: seq<SeatsInfoType>): (out: Outcome<TicketTable>)
    ensures out.response.FailServiceResponse? <==>
      exists k :: k in table && Requested(k, seatsInfo) && Unavailable(table[k], email)
    ensures out.response.FailServiceResponse? ==>
      && out.table == table
      && out.response.statusCode == 500
      && out.response.message == Some(TransactionErrorPrefix + UnavailableMessage)
    ensures out.table.Keys == table.Keys
    ensures out.response.SuccessServiceResponse? ==> forall k :: k in table ==>
      out.table[k] == if Requested(k, seatsInfo) then table[k].(isBought := true, buyerEmail := Some(email)) else table[k]
    ensures out.response.SuccessServiceResponse? ==>
      && out.response.data.Some?
      && (forall k :: k in out.response.data.value <==> k in table && Requested(k, seatsInfo))
      && (forall k :: k in out.response.data.value ==> out.response.data.value[k] == out.table[k])
  {
    var sel := BuySelection(table, seatsInfo);
    if exists k :: k in sel && Unavailable(table[k], email) then
      Outcome(FailServiceResponse(500, Some(TransactionErrorPrefix + UnavailableMessage)), table)
    else
      var table' := Purchased(table, sel, email);
      Outcome(SuccessServiceResponse(Some(map k | k in sel :: table'[k]), None), table')
  }

  // ---------------------------------------------------------------------
  // RefundTicket

  /** The rows a refund loads: requested tickets that `email` holds. */
  function RefundSelection(table: TicketTable, email: string, seatsInfo: seq<SeatsInfoType>): set<SeatKey> {
    set k | k in table && OwnedBy(table[k], email) && Requested(k, seatsInfo)
  }

  /** `table` with every key of `sel` marked not bought, buyer cleared. */
  function Released(table: TicketTable, sel: set<SeatKey>): TicketTable {
    map k | k in table :: if k in sel then table[k].(isBought := false, buyerEmail := None) else table[k]
  }

  /** The effect of `RefundTicket` on the table, and its response: the
      number of loaded rows must equal the number of request entries. */
  function RefundOutcome(table: TicketTable, email: string, seatsInfo: seq<SeatsInfoType>): (out: Outcome<()>)
    ensures out.response.FailServiceResponse? <==> |RefundSelection(table, email, seatsInfo)| != |seatsInfo|
    ensures out.response.FailServiceResponse? ==>
      && out.table == table
      && out.response.statusCode == 500
      && out.response.message == Some(TransactionErrorPrefix + NotBookedMessage)
    ensures out.table.Keys == table.Keys
    ensures out.response.SuccessServiceResponse? ==>
      && out.response == SuccessServiceResponse(None, Some(RefundedMessage))
      && forall k :: k in table ==>
           out.table[k] == if OwnedBy(table[k], email) && Requested(k, seatsInfo)
                           then table[k].(isBought := false, buyerEmail := None) else table[k]
  {
    var sel := RefundSelection(table, email, seatsInfo);
    if |sel| != |seatsInfo| then
      Outcome(FailServiceResponse(500, Some(TransactionErrorPrefix + NotBookedMessage)), table)
    else
      Outcome(SuccessServiceResponse(None, Some(RefundedMessage)), Released(table, sel))
  }

  // ---------------------------------------------------------------------
  // Properties of the buy/refund protocol

  /** Requesting one more seat adds its key to the requested set. */
  lemma RequestedKeysSnoc(seatsInfo: seq<SeatsInfoType>)
    requires seatsInfo != []
    ensures RequestedKeys(seatsInfo) == RequestedKeys(seatsInfo[..|seatsInfo| - 1]) + {seatsInfo[|seatsInfo| - 1].Key()}
  {
    var n := |seatsInfo| - 1;
    var init := seatsInfo[..n];
    forall k | k in RequestedKeys(seatsInfo) ensures k in RequestedKeys(init) + {seatsInfo[n].Key()} {
      var i :| 0 <= i < |seatsInfo| && seatsInfo[i].Key() == k;
      if i < n { assert init[i] == seatsInfo[i]; }
    }
    forall k | k in RequestedKeys(init) ensures k in RequestedKeys(seatsInfo) {
      var i :| 0 <= i < |init| && init[i].Key() == k;
      assert seatsInfo[i] == init[i];
    }
  }

  /** A request with one more seat names no seat twice exactly when the
      shorter one names none twice and the new key is not among its keys. */
  lemma DistinctKeysSnoc(seatsInfo: seq<SeatsInfoType>)
    requires seatsInfo != []
    ensures DistinctKeys(seatsInfo) <==>
      DistinctKeys(seatsInfo[..|seatsInfo| - 1]) && seatsInfo[|seatsInfo| - 1].Key() !in RequestedKeys(seatsInfo[..|seatsInfo| - 1])
  {
    var n := |seatsInfo| - 1;
    var init := seatsInfo[..n];
    var last := seatsInfo[n].Key();
    if last in RequestedKeys(init) {
      var i :| 0 <= i < |init| && init[i].Key() == last;
      assert seatsInfo[i].Key() == seatsInfo[n].Key();
    } else {
      if DistinctKeys(init) {
        forall i, j | 0 <= i < j < |seatsInfo| ensures seatsInfo[i].Key() != seatsInfo[j].Key() {
          assert seatsInfo[i] == init[i];
          if j < n { assert seatsInfo[j] == init[j]; }
          else { assert init[i].Key() in RequestedKeys(init); }
        }
      }
      if DistinctKeys(seatsInfo) {
        forall i, j | 0 <= i < j < |init| ensures init[i].Key() != init[j].Key() {
          assert init[i] == seatsInfo[i] && init[j] == seatsInfo[j];
        }
      }
    }
  }

  lemma {:induction false} RequestedKeysCard(seatsInfo: seq<SeatsInfoType>)
    ensures |RequestedKeys(seatsInfo)| <= |seatsInfo|
    ensures |RequestedKeys(seatsInfo)| == |seatsInfo| <==> DistinctKeys(seatsInfo)
  {
    if seatsInfo != [] {
      var init := seatsInfo[..|seatsInfo| - 1];
      RequestedKeysCard(init);
      RequestedKeysSnoc(seatsInfo);
      DistinctKeysSnoc(seatsInfo);
    }
  }

  /** A subset of a finite set with the same size is the whole set. */
  lemma SubsetSameCard<T>(a: set<T>, b: set<T>)
    requires a <= b && |a| == |b|
    ensures a == b
  {
    assert b == a + (b - a);
    assert |b| == |a| + |b - a|;
    assert b - a == {};
  }

  /** A refund succeeds exactly when every request entry names a stored
      ticket held by `email` and no seat is named twice. */
  lemma RefundSucceedsIff(table: TicketTable, email: string, seatsInfo: seq<SeatsInfoType>)
    ensures RefundOutcome(table, email, seatsInfo).response.Success() <==>
      && (forall i :: 0 <= i < |seatsInfo| ==>
            seatsInfo[i].Key() in table && OwnedBy(table[seatsInfo[i].Key()], email))
      && DistinctKeys(seatsInfo)
  {
    var sel := RefundSelection(table, email, seatsInfo);
    var keys := RequestedKeys(seatsInfo);
    assert sel <= keys by {
      forall k | k in sel ensures k in keys {
        var i :| 0 <= i < |seatsInfo| && seatsInfo[i].Key() == k;
      }
    }
    RequestedKeysCard(seatsInfo);
    assert |sel| <= |keys| by { SubsetCard(sel, keys); }
    if |sel| == |seatsInfo| {
      SubsetSameCard(sel, keys);
      forall i | 0 <= i < |seatsInfo|
        ensures seatsInfo[i].Key() in table && OwnedBy(table[seatsInfo[i].Key()], email)
      {
        assert seatsInfo[i].Key() in keys;
      }
    }
    if && (forall i :: 0 <= i < |seatsInfo| ==>
             seatsInfo[i].Key() in table && OwnedBy(table[seatsInfo[i].Key()], email))
       && DistinctKeys(seatsInfo)
    {
      assert keys <= sel;
      assert sel == keys;
    }
  }

  lemma SubsetCard<T>(a: set<T>, b: set<T>)
    requires a <= b
    ensures |a| <= |b|
  {
    assert b == a + (b - a);
  }

  /** Buying a batch again by the same buyer succeeds and changes nothing:
      re-buying one's own seats is tolerated. */
  lemma BuyIdempotent(table: TicketTable, email: string, seatsInfo: seq<SeatsInfoType>)
    requires BuyOutcome(table, email, seatsInfo).response.Success()
    ensures BuyOutcome(BuyOutcome(table, email, seatsInfo).table, email, seatsInfo)
         == BuyOutcome(table, email, seatsInfo)
  {
    var first := BuyOutcome(table, email, seatsInfo);
    var second := BuyOutcome(first.table, email, seatsInfo);
    assert second.response.Success();
    assert second.table == first.table;
  }

  /** Once `x` holds a seat, a buy by anyone else that names it fails as a
      whole and leaves the table alone (at most one owner per seat). */
  lemma BuyConflict(table: TicketTable, x: string, a: seq<SeatsInfoType>, y: string, b: seq<SeatsInfoType>, k: SeatKey)
    requires BuyOutcome(table, x, a).response.Success()
    requires x != y && k in table && Requested(k, a) && Requested(k, b)
    ensures BuyOutcome(BuyOutcome(table, x, a).table, y, b).response == FailServiceResponse(500, Some(TransactionErrorPrefix + UnavailableMessage))
    ensures BuyOutcome(BuyOutcome(table, x, a).table, y, b).table == BuyOutcome(table, x, a).table
  {
    var t1 := BuyOutcome(table, x, a).table;
    assert Unavailable(t1[k], y);
  }

  /** A successful buy by `email` of distinct stored seats that were free
      and had no buyer recorded, followed by a refund of the same batch by
      `email`, succeeds and restores the table exactly. */
  lemma BuyThenRefundRestores(table: TicketTable, email: string, seatsInfo: seq<SeatsInfoType>)
    requires DistinctKeys(seatsInfo)
    requires forall i :: 0 <= i < |seatsInfo| ==> seatsInfo[i].Key() in table
    requires forall i :: 0 <= i < |seatsInfo| ==>
      !table[seatsInfo[i].Key()].isBought && table[seatsInfo[i].Key()].buyerEmail == None
    ensures BuyOutcome(table, email, seatsInfo).response.Success()
    ensures RefundOutcome(BuyOutcome(table, email, seatsInfo).table, email, seatsInfo).response.Success()
    ensures RefundOutcome(BuyOutcome(table, email, seatsInfo).table, email, seatsInfo).table == table
  {
    var bought := BuyOutcome(table, email, seatsInfo);
    assert bought.response.Success() by {
      forall k | k in table && Requested(k, seatsInfo) ensures !Unavailable(table[k], email) {
        var i :| 0 <= i < |seatsInfo| && seatsInfo[i].Key() == k;
      }
    }
    RefundSucceedsIff(bought.table, email, seatsInfo);
    var refunded := RefundOutcome(bought.table, email, seatsInfo);
    forall k | k in table ensures refunded.table[k] == table[k] {
      if Requested(k, seatsInfo) {
        var i :| 0 <= i < |seatsInfo| && seatsInfo[i].Key() == k;
      }
    }
  }

  /** After a successful refund the seats are free again: a buy of the same
      batch by any buyer succeeds. */
  lemma RefundThenBuySucceeds(table: TicketTable, x: string, seatsInfo: seq<SeatsInfoType>, y: string)
    requires RefundOutcome(table, x, seatsInfo).response.Success()
    ensures BuyOutcome(RefundOutcome(table, x, seatsInfo).table, y, seatsInfo).response.Success()
  {
    RefundSucceedsIff(table, x, seatsInfo);
    var t1 := RefundOutcome(table, x, seatsInfo).table;
    forall k | k in t1 && Requested(k, seatsInfo) ensures !Unavailable(t1[k], y) {
      var i :| 0 <= i < |seatsInfo| && seatsInfo[i].Key() == k;
    }
  }

  /** A refund naming a seat that `email` does not hold fails as a whole. */
  lemma RefundWithoutOwnershipFails(table: TicketTable, email: string, seatsInfo: seq<SeatsInfoType>, i: nat)
    requires i < |seatsInfo|
    requires seatsInfo[i].Key() !in table || !OwnedBy(table[seatsInfo[i].Key()], email)
    ensures RefundOutcome(table, email, seatsInfo).response == FailServiceResponse(500, Some(TransactionErrorPrefix + NotBookedMessage))
    ensures RefundOutcome(table, email, seatsInfo).table == table
  {
    RefundSucceedsIff(table, email, seatsInfo);
  }

  /** After a successful buy, the buyer's lookup lists every bought seat,
      marked bought; after a successful refund it lists none of them. */
  lemma LookupAfterBuyAndRefund(table: TicketTable, email: string, seatsInfo: seq<SeatsInfoType>, k: SeatKey)
    requires k in table && Requested(k, seatsInfo)
    ensures BuyOutcome(table, email, seatsInfo).response.Success() ==>
      var info := GetTicketsInfo(BuyOutcome(table, email, seatsInfo).table, email, None).data.value;
      k in info && info[k].isBought
    ensures RefundOutcome(table, email, seatsInfo).response.Success() ==>
      k !in GetTicketsInfo(RefundOutcome(table, email, seatsInfo).table, email, None).data.value
  {
    if RefundOutcome(table, email, seatsInfo).response.Success() {
      RefundSucceedsIff(table, email, seatsInfo);
    }
  }

  // ---------------------------------------------------------------------
  // The service

  class TicketService {
    const context: DataContext

    constructor (context: DataContext)
      ensures this.context == context
    {
      this.context := context;
    }

    /** Buys every stored seat named in `seatsInfo` for `email`, unless one
        of them is held by someone else. */
    method BuyTicket(email: string, seatsInfo: seq<SeatsInfoType>) returns (r: ServiceResponse<TicketTable>)
      requires context.Valid()
      modifies context`tickets
      ensures context.Valid()
      ensures Outcome(r, context.tickets) == BuyOutcome(old(context.tickets), email, seatsInfo)
    {
      var ticketsToBuy := BuySelection(context.tickets, seatsInfo);
      if exists k :: k in ticketsToBuy && Unavailable(context.tickets[k], email) {
        return FailServiceResponse(500, Some(TransactionErrorPrefix + UnavailableMessage));
      }
      var todo := ticketsToBuy;
      while todo != {}
        invariant todo <= ticketsToBuy
        invariant context.tickets == Purchased(old(context.tickets), ticketsToBuy - todo, email)
        decreases todo
      {
        var k :| k in todo;
        context.tickets := context.tickets[k := context.tickets[k].(isBought := true, buyerEmail := Some(email))];
        todo := todo - {k};
      }
      assert ticketsToBuy - todo == ticketsToBuy;
      r := SuccessServiceResponse(Some(map k | k in ticketsToBuy :: context.tickets[k]), None);
      assert !(exists k :: k in ticketsToBuy && Unavailable(old(context.tickets)[k], email));
    }

    /** Refunds the seats named in `seatsInfo`, provided `email` holds
        exactly that many of them. */
    method RefundTicket(email: string, seatsInfo: seq<SeatsInfoType>) returns (r: ServiceResponse<()>)
      requires context.Valid()
      modifies context`tickets
      ensures context.Valid()
      ensures Outcome(r, context.tickets) == RefundOutcome(old(context.tickets), email, seatsInfo)
    {
      var bookedSeats := RefundSelection(context.tickets, email, seatsInfo);
      if |bookedSeats| != |seatsInfo| {
        return FailServiceResponse(500, Some(TransactionErrorPrefix + NotBookedMessage));
      }
      var todo := bookedSeats;
      while todo != {}
        invariant todo <= bookedSeats
        invariant context.tickets == Released(old(context.tickets), bookedSeats - todo)
        decreases todo
      {
        var k :| k in todo;
        context.tickets := context.tickets[k := context.tickets[k].(isBought := false, buyerEmail := None)];
        todo := todo - {k};
      }
      r := SuccessServiceResponse(None, Some(RefundedMessage));
    }
  }
}
