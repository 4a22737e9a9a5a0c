/** The listing grid's `fetchAllRecords`: pages 1, 2, 3, … are requested one
    after the other until a page comes back short or the page budget is
    spent; any failed request aborts the whole fetch. */
module NumericFetch {
  import opened Wrappers
  import opened Json
  import opened Responses
  import opened Fetching
  import opened Traces

  /** The payload of page `page`: `{locationId, page, pageLimit[, sort]}`. */
  function NumericPayload(c: FetchConfig, page: int): (p: Payload)
    ensures p.page == Some(page) && p.startAfterId.None?
    ensures p.limitKey == PageLimitKey && p.limit == c.pageLimit
    ensures p.locationId == c.locationId && p.sort == SortFor(c)
  {
    Payload(c.locationId, Some(page), None, PageLimitKey, c.pageLimit, SortFor(c))
  }

  /** The records a successful exchange contributed. */
  function PageRecords(x: Exchange): seq<Value> {
    match Answer(x)
    case Ok(data) => ExtractRecords(data)
    case Err(_) => []
  }

  /** All records of a trace, page after page. */
  function RecordsOf(trace: seq<Exchange>): seq<Value>
    decreases |trace|
  {
    if trace == [] then [] else PageRecords(trace[0]) + RecordsOf(trace[1..])
  }

  /** The exchange succeeded and its page was full, so the loop goes on. */
  predicate FullPage(c: FetchConfig, x: Exchange) {
    Answer(x).Ok? && |ExtractRecords(Answer(x).value)| >= c.pageLimit
  }

  /** The requests a fetch sent, with their replies, and its outcome: the
      records, or the message of the error that aborted it. */
  datatype Fetched = Fetched(trace: seq<Exchange>, result: Result<seq<Value>>)

  /** The exchange of page `i + 1`, request number `i`. */
  function Request(c: FetchConfig, server: Server, i: nat): (x: Exchange)
    ensures x.payload == NumericPayload(c, i + 1) && x.reply == server(i, x.payload)
  {
    Exchange(NumericPayload(c, i + 1), server(i, NumericPayload(c, i + 1)))
  }

  /** The exchanges of the loop, numbered by request. */
  function Requester(c: FetchConfig, server: Server): nat -> Exchange {
    (i: nat) => Request(c, server, i)
  }

  /** Every exchange but the last brought a full page. */
  predicate FullUntilLast(c: FetchConfig, trace: seq<Exchange>) {
    forall k :: 0 <= k < |trace| - 1 ==> FullPage(c, trace[k])
  }

  lemma FullUntilLastCons(c: FetchConfig, x: Exchange, rest: seq<Exchange>)
    requires FullPage(c, x) && FullUntilLast(c, rest)
    ensures FullUntilLast(c, [x] + rest)
  {
    var trace := [x] + rest;
    forall k | 0 <= k < |trace| - 1
      ensures FullPage(c, trace[k])
    {
      if k > 0 {
        assert trace[k] == rest[k - 1];
      }
    }
  }

  /** The loop from iteration `i` on (`page = i + 1`, request number `i`). */
  function NumericFrom(c: FetchConfig, server: Server, i: nat): (r: Fetched)
    requires i < PageBudget(c)
    ensures 1 <= |r.trace| <= PageBudget(c) - i
    ensures Follows(Requester(c, server), i, r.trace)
    ensures FullUntilLast(c, r.trace)
    ensures r.result.Err? ==> Answer(r.trace[|r.trace| - 1]) == Err(r.result.error)
    ensures r.result.Ok? ==>
              && Answer(r.trace[|r.trace| - 1]).Ok?
              && r.result.value == RecordsOf(r.trace)
              && (!FullPage(c, r.trace[|r.trace| - 1]) || |r.trace| == PageBudget(c) - i)
    decreases PageBudget(c) - i
  {
    var x := Request(c, server, i);
    FollowsCons(Requester(c, server), i, x, []);
    assert [x] + [] == [x];
    match Answer(x)
    case Err(e) => Fetched([x], Err(e))
    case Ok(data) =>
      var records := ExtractRecords(data);
      assert PageRecords(x) == records;
      assert RecordsOf([x]) == records by {
        assert [x][1..] == [];
      }
      if |records| < c.pageLimit || i + 1 == PageBudget(c) then Fetched([x], Ok(records))
      else
        var rest := NumericFrom(c, server, i + 1);
        var trace := [x] + rest.trace;
        assert trace[1..] == rest.trace;
        assert trace[|trace| - 1] == rest.trace[|rest.trace| - 1];
        FollowsCons(Requester(c, server), i, x, rest.trace);
        FullUntilLastCons(c, x, rest.trace);
        match rest.result
        case Err(e) => Fetched(trace, Err(e))
        case Ok(more) =>
          assert RecordsOf(trace) == records + more;
          Fetched(trace, Ok(records + more))
  }

  /** `fetchAllRecords(config)` in page-number mode. */
  function FetchNumeric(c: FetchConfig, server: Server): (r: Fetched)
    ensures 1 <= |r.trace| <= PageBudget(c)
    ensures Follows(Requester(c, server), 0, r.trace)
    ensures FullUntilLast(c, r.trace)
    ensures r.result.Err? ==> Answer(r.trace[|r.trace| - 1]) == Err(r.result.error)
    ensures r.result.Ok? ==>
              && Answer(r.trace[|r.trace| - 1]).Ok?
              && r.result.value == RecordsOf(r.trace)
              && (!FullPage(c, r.trace[|r.trace| - 1]) || |r.trace| == PageBudget(c))
  {
    NumericFrom(c, server, 0)
  }

  /** Request `k` of a fetch asks for page `k + 1`, with the configured page
      size and sort clause, and gets the server's reply to request `k`. */
  lemma RequestedPage(c: FetchConfig, server: Server, k: nat)
    requires k < |FetchNumeric(c, server).trace|
    ensures var x := FetchNumeric(c, server).trace[k];
            && x.payload.page == Some(k + 1) && x.payload.startAfterId.None?
            && x.payload.limitKey == PageLimitKey && x.payload.limit == c.pageLimit
            && x.payload.sort == SortFor(c)
            && x.reply == server(k, x.payload)
  {
    FollowsAt(Requester(c, server), 0, FetchNumeric(c, server).trace, k);
  }

  /** While every page comes back full, the loop requests exactly as many
      pages as the budget allows. */
  lemma FullPagesUseBudget(c: FetchConfig, server: Server, i: nat)
    requires i < PageBudget(c)
    requires forall k: nat :: FullPage(c, Request(c, server, k))
    ensures |NumericFrom(c, server, i).trace| == PageBudget(c) - i
    ensures NumericFrom(c, server, i).result.Ok?
  {
    var trace := NumericFrom(c, server, i).trace;
    FollowsAt(Requester(c, server), i, trace, |trace| - 1);
    assert FullPage(c, trace[|trace| - 1]);
  }

  /** A first page that comes back short (an empty body included) ends the
      fetch after one request with that page's records. */
  lemma ShortFirstPageStops(c: FetchConfig, server: Server)
    requires var p := NumericPayload(c, 1); !FullPage(c, Exchange(p, server(0, p)))
    requires var p := NumericPayload(c, 1); Answer(Exchange(p, server(0, p))).Ok?
    ensures |FetchNumeric(c, server).trace| == 1
    ensures FetchNumeric(c, server).result ==
              Ok(var p := NumericPayload(c, 1); ExtractRecords(Answer(Exchange(p, server(0, p))).value))
  {
    var r := FetchNumeric(c, server);
    assert r.trace[1..] == [];
  }

  /** A failing first request aborts the fetch with its error message and
      nothing else is requested. */
  lemma FailedFirstPageAborts(c: FetchConfig, server: Server)
    requires var p := NumericPayload(c, 1); Answer(Exchange(p, server(0, p))).Err?
    ensures |FetchNumeric(c, server).trace| == 1
    ensures FetchNumeric(c, server).result ==
              Err(var p := NumericPayload(c, 1); Answer(Exchange(p, server(0, p))).error)
  {
  }
}
