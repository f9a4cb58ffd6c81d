/** The in-memory store of leads (internal/db/memory.go) behind the Store contract
    (internal/db/store.go). The mutex makes each method one atomic step. */
module Memory {
  import opened Results
  import opened Counting

  /** The contact and shipment details, which the store only carries. */
  datatype Lead = Lead(firstName: string, lastName: string, companyName: string, email: string,
                       phone: string, origin: string, destination: string, serviceType: string,
                       cargoDetails: string, source: string, userAgent: string)

  datatype QuoteRequest = QuoteRequest(reference: string, ipHash: string, lead: Lead)

  datatype Row = Row(id: string, createdAt: int, quote: QuoteRequest)

  datatype EmailEvent = EmailEvent(quoteId: string, messageId: string, eventType: string, errorMessage: string)

  datatype StoreError = DuplicateReference | Unavailable

  predicate HasReference(rows: seq<Row>, reference: string) {
    exists i :: 0 <= i < |rows| && rows[i].quote.reference == reference
  }

  predicate HasId(rows: seq<Row>, id: string) {
    exists i :: 0 <= i < |rows| && rows[i].id == id
  }

  function IsRecent(ipHash: string, since: int): Row -> bool {
    (row: Row) => row.quote.ipHash == ipHash && row.createdAt > since
  }

  /** Counted are the rows of this address that were created strictly after the given time. */
  lemma RecentRows(rows: seq<Row>, ipHash: string, since: int)
    ensures CountOf(rows, IsRecent(ipHash, since)) ==
            |set i: nat | i < |rows| && rows[i].quote.ipHash == ipHash && rows[i].createdAt > since|
  {
    assert Where(rows, IsRecent(ipHash, since)) ==
           set i: nat | i < |rows| && rows[i].quote.ipHash == ipHash && rows[i].createdAt > since;
  }

  class MemoryStore {
    var quotes: seq<Row>
    var events: seq<EmailEvent>

    constructor ()
      ensures quotes == [] && events == []
    {
      quotes, events := [], [];
    }

    /** id is the store's next random id and now its clock. */
    method CreateQuoteRequest(q: QuoteRequest, id: string, now: int) returns (r: Result<string, StoreError>)
      modifies this`quotes
      ensures HasReference(old(quotes), q.reference) ==> r == Err(DuplicateReference) && quotes == old(quotes)
      ensures !HasReference(old(quotes), q.reference) ==> r == Ok(id) && quotes == old(quotes) + [Row(id, now, q)]
    {
      for i := 0 to |quotes|
        invariant forall k :: 0 <= k < i ==> quotes[k].quote.reference != q.reference
      {
        if quotes[i].quote.reference == q.reference {
          return Err(DuplicateReference);
        }
      }
      quotes := quotes + [Row(id, now, q)];
      r := Ok(id);
    }

    method CountQuoteRequestsSince(ipHash: string, since: int) returns (n: nat)
      ensures n == CountOf(quotes, IsRecent(ipHash, since))
      ensures n == |set i: nat | i < |quotes| && quotes[i].quote.ipHash == ipHash && quotes[i].createdAt > since|
    {
      n := 0;
      var f := IsRecent(ipHash, since);
      CountNone(quotes[..0], f);
      for i := 0 to |quotes|
        invariant n == CountOf(quotes[..i], f)
      {
        CountAppended(quotes[..i], quotes[i], f);
        assert quotes[..i + 1] == quotes[..i] + [quotes[i]];
        if quotes[i].quote.ipHash == ipHash && quotes[i].createdAt > since {
          n := n + 1;
        }
      }
      assert quotes[..|quotes|] == quotes;
      RecentRows(quotes, ipHash, since);
    }

    method RecordEmailEvent(e: EmailEvent)
      modifies this`events
      ensures events == old(events) + [e]
    {
      events := events + [e];
    }
  }
}
