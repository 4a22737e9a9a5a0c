/** What the two `fetchAllRecords` loops share: the configuration they read,
    the search payloads they send, and the server they talk to. */
module Fetching {
  import opened Wrappers
  import opened Text
  import opened Json
  import opened Responses

  /** The configuration fields the fetch loops read. `sortField` and
      `sortOrder` are only used by the listing grid. */
  datatype FetchConfig = FetchConfig(locationId: string, pageLimit: int, maxPages: int,
                                     sortField: string, sortOrder: string)

  /** `{field, direction}`, the single entry of a payload's `sort` array. */
  datatype SortClause = SortClause(field: string, direction: string)

  /** Which key carries the page size: `pageLimit` or `limit`. */
  datatype LimitKey = PageLimitKey | LimitKey

  /** A search request body. Absent keys are `None`. */
  datatype Payload = Payload(locationId: string, page: Option<int>, startAfterId: Option<Value>,
                             limitKey: LimitKey, limit: int, sort: Option<SortClause>)

  /** The remote side: the reply to the `n`-th request (counting from 0) when
      it carries `payload`. The request number lets the server answer the
      same payload differently over time. */
  type Server = (nat, Payload) -> Reply

  /** One request and its reply. */
  datatype Exchange = Exchange(payload: Payload, reply: Reply)

  /** `Math.max(1, config.maxPages || 1)`: how many loop iterations may run. */
  function PageBudget(c: FetchConfig): (b: nat)
    ensures b >= 1
    ensures c.maxPages >= 1 ==> b == c.maxPages
  {
    if c.maxPages < 1 then 1 else c.maxPages
  }

  /** What `apiRequest` made of an exchange. */
  function Answer(x: Exchange): Result<Value> {
    ApiRequest(x.reply)
  }

  /** The sort clause of the listing grid: present only for a non-empty
      `sortField`, naming the field by its last `.`-segment and sorting
      `desc` only for the order "desc". */
  function SortFor(c: FetchConfig): (s: Option<SortClause>)
    ensures s.Some? <==> c.sortField != ""
    ensures s.Some? ==> s.value.field == LastSegment(c.sortField) && '.' !in s.value.field
    ensures s.Some? ==> (s.value.direction == "desc" <==> c.sortOrder == "desc")
    ensures s.Some? ==> (s.value.direction == "desc" || s.value.direction == "asc")
  {
    if c.sortField == "" then None
    else
      var field := if '.' in c.sortField then LastSegment(c.sortField)
                   else (LastSegmentNoDot(c.sortField); c.sortField);
      var asc: string := "asc";
      Some(SortClause(field, if c.sortOrder == "desc" then "desc" else asc))
  }
}
