/** The outage widget's `fetchAllRecords`: each iteration sends a
    `pageLimit`-keyed payload and, only if that request fails, a `limit`-keyed
    one; the cursor a response names is sent with the next iteration. */
module CursorFetch {
  import opened Wrappers
  import opened Json
  import opened Responses
  import opened Fetching
  import opened Traces

  /** The error thrown when the answered request gave a falsy body. */
  const NoDataMessage: string := "Unable to fetch records."

  /** `{locationId, pageLimit|limit[, startAfterId]}`: a cursor, when there
      is one, is sent as `startAfterId`. */
  function CursorPayload(c: FetchConfig, key: LimitKey, cursor: Option<Value>): (p: Payload)
    ensures p.locationId == c.locationId && p.limitKey == key && p.limit == c.pageLimit
    ensures p.startAfterId == cursor && p.page.None? && p.sort.None?
  {
    Payload(c.locationId, None, cursor, key, c.pageLimit, None)
  }

  /** The requests of one loop iteration: the `pageLimit` request and, when
      it was sent, the `limit` request. */
  datatype Round = Round(first: Exchange, fallback: Option<Exchange>)

  /** How many requests a round sent. */
  function Size(r: Round): nat {
    if r.fallback.Some? then 2 else 1
  }

  /** The request whose outcome the iteration goes on with. */
  function Last(r: Round): Exchange {
    if r.fallback.Some? then r.fallback.value else r.first
  }

  /** The inner loop over the two payloads, starting at request number `n`:
      the `limit` payload is tried only when the `pageLimit` one failed. */
  function Attempt(c: FetchConfig, server: Server, n: nat, cursor: Option<Value>): (r: Round)
    ensures r.first.payload == CursorPayload(c, PageLimitKey, cursor)
    ensures r.first.reply == server(n, r.first.payload)
    ensures r.fallback.Some? <==> Answer(r.first).Err?
    ensures r.fallback.Some? ==> r.fallback.value.payload == CursorPayload(c, LimitKey, cursor)
    ensures r.fallback.Some? ==> r.fallback.value.reply == server(n + 1, r.fallback.value.payload)
  {
    var first := CursorPayload(c, PageLimitKey, cursor);
    var x := Exchange(first, server(n, first));
    if Answer(x).Ok? then Round(x, None)
    else
      var second := CursorPayload(c, LimitKey, cursor);
      Round(x, Some(Exchange(second, server(n + 1, second))))
  }

  /** What the iteration goes on with: the body of the answered request when
      it is truthy; the "Unable to fetch records." error when it is falsy;
      the last request's error when both failed. */
  function RoundData(r: Round): (d: Result<Value>)
    ensures d.Ok? ==> Truthy(d.value) && Answer(Last(r)) == Ok(d.value)
    ensures Answer(Last(r)).Ok? && Truthy(Answer(Last(r)).value) ==> d == Answer(Last(r))
    ensures Answer(Last(r)).Ok? && d.Err? ==> d.error == NoDataMessage
    ensures Answer(Last(r)).Err? ==> d == Answer(Last(r))
  {
    match Answer(Last(r))
    case Ok(data) => if Truthy(data) then Ok(data) else Err(NoDataMessage)
    case Err(e) => Err(e)
  }

  /** The records an iteration contributed. */
  function RoundRecords(r: Round): seq<Value> {
    match RoundData(r)
    case Ok(data) => ExtractRecords(data)
    case Err(_) => []
  }

  /** The cursor an iteration hands to the next one: the one its data names,
      and none after a failed iteration. */
  function NextCursor(r: Round): (cursor: Option<Value>)
    ensures cursor.Some? ==> Truthy(cursor.value)
    ensures RoundData(r).Ok? ==> cursor == ExtractNextCursor(RoundData(r).value)
    ensures RoundData(r).Err? ==> cursor.None?
  {
    match RoundData(r)
    case Ok(data) => ExtractNextCursor(data)
    case Err(_) => None
  }

  /** The iteration succeeded and the loop goes on: a cursor came back or the
      page was full. */
  predicate Continues(c: FetchConfig, r: Round) {
    RoundData(r).Ok? && (NextCursor(r).Some? || |RoundRecords(r)| >= c.pageLimit)
  }

  /** How many requests the rounds sent. */
  function Requests(rounds: seq<Round>): nat {
    Used(Size, rounds)
  }

  /** All records of the rounds, iteration after iteration. */
  function RecordsOf(rounds: seq<Round>): seq<Value>
    decreases |rounds|
  {
    if rounds == [] then [] else RoundRecords(rounds[0]) + RecordsOf(rounds[1..])
  }

  /** The inner loop as a step of the outer one: request number and cursor
      in, round out. */
  function Attempter(c: FetchConfig, server: Server): (nat, Option<Value>) -> Round {
    (n: nat, cursor: Option<Value>) => Attempt(c, server, n, cursor)
  }

  /** The rounds are what the loop does from request number `n` on with the
      cursor `start`: each round is the inner loop run with the cursor the
      previous round returned, numbered after the previous round's requests. */
  predicate SentFrom(c: FetchConfig, server: Server, n: nat, start: Option<Value>, rounds: seq<Round>) {
    Chained(Attempter(c, server), Size, NextCursor, n, start, rounds)
  }

  /** Every iteration but the last went on. */
  predicate ContinuesUntilLast(c: FetchConfig, rounds: seq<Round>) {
    forall k :: 0 <= k < |rounds| - 1 ==> Continues(c, rounds[k])
  }

  /** The iterations a fetch ran and its outcome. */
  datatype CursorFetched = CursorFetched(rounds: seq<Round>, result: Result<seq<Value>>)

  lemma ContinuesUntilLastCons(c: FetchConfig, x: Round, rest: seq<Round>)
    requires Continues(c, x) && ContinuesUntilLast(c, rest)
    ensures ContinuesUntilLast(c, [x] + rest)
  {
    var rounds := [x] + rest;
    forall k | 0 <= k < |rounds| - 1
      ensures Continues(c, rounds[k])
    {
      if k > 0 {
        assert rounds[k] == rest[k - 1];
      }
    }
  }

  /** The rounds the loop from iteration `i` on ran (first request number
      `n`, start cursor `cursor`): at least one and at most the remaining
      budget, each the inner loop run as the previous one left off, all but
      the last going on. */
  predicate Ran(c: FetchConfig, server: Server, i: nat, n: nat, cursor: Option<Value>, rounds: seq<Round>) {
    && 1 <= |rounds| <= PageBudget(c) - i
    && SentFrom(c, server, n, cursor, rounds)
    && ContinuesUntilLast(c, rounds)
  }

  /** How the loop from iteration `i` on ended: a failure is the last
      round's; a success holds all rounds' records and stopped because the
      last round did not go on or the budget ran out. */
  predicate Settled(c: FetchConfig, i: nat, rounds: seq<Round>, result: Result<seq<Value>>)
    requires rounds != []
  {
    && (result.Err? ==> RoundData(rounds[|rounds| - 1]) == Err(result.error))
    && (result.Ok? ==>
          && RoundData(rounds[|rounds| - 1]).Ok?
          && result.value == RecordsOf(rounds)
          && (!Continues(c, rounds[|rounds| - 1]) || |rounds| == PageBudget(c) - i))
  }

  /** What the loop from iteration `i` on promises. */
  predicate Outcome(c: FetchConfig, server: Server, i: nat, n: nat, cursor: Option<Value>, r: CursorFetched) {
    Ran(c, server, i, n, cursor, r.rounds) && Settled(c, i, r.rounds, r.result)
  }

  /** A round that ends the loop is a whole fetch of one round. */
  lemma StopOutcome(c: FetchConfig, server: Server, i: nat, n: nat, cursor: Option<Value>, round: Round)
    requires i < PageBudget(c) && round == Attempt(c, server, n, cursor)
    requires RoundData(round).Ok? ==> !Continues(c, round) || i + 1 == PageBudget(c)
    ensures Outcome(c, server, i, n, cursor, CursorFetched([round], Stop(round)))
  {
    ChainedCons(Attempter(c, server), Size, NextCursor, n, cursor, round, []);
    assert [round] + [] == [round];
    assert RecordsOf([round]) == RoundRecords(round) by {
      assert [round][1..] == [];
    }
  }

  /** A round that goes on, followed by the rounds of the rest of the loop. */
  lemma MoreRounds(c: FetchConfig, server: Server, i: nat, n: nat, cursor: Option<Value>, round: Round,
                   rest: seq<Round>)
    requires i + 1 < PageBudget(c) && round == Attempt(c, server, n, cursor) && Continues(c, round)
    requires Ran(c, server, i + 1, n + Size(round), NextCursor(round), rest)
    ensures Ran(c, server, i, n, cursor, [round] + rest)
  {
    ChainedCons(Attempter(c, server), Size, NextCursor, n, cursor, round, rest);
    ContinuesUntilLastCons(c, round, rest);
  }

  /** The outcome of a round that goes on, followed by the rest of the loop. */
  lemma MoreSettled(c: FetchConfig, i: nat, round: Round, rest: CursorFetched)
    requires rest.rounds != [] && |rest.rounds| <= PageBudget(c) - (i + 1)
    requires Settled(c, i + 1, rest.rounds, rest.result)
    ensures Settled(c, i, [round] + rest.rounds, Then(round, rest).result)
  {
    var rounds := [round] + rest.rounds;
    assert rounds[1..] == rest.rounds;
    assert rounds[|rounds| - 1] == rest.rounds[|rest.rounds| - 1];
    assert RecordsOf(rounds) == RoundRecords(round) + RecordsOf(rest.rounds);
  }

  /** The outcome of a fetch of the single round `round`. */
  function Stop(round: Round): Result<seq<Value>> {
    match RoundData(round)
    case Err(e) => Err(e)
    case Ok(_) => Ok(RoundRecords(round))
  }

  /** `round` followed by the rest of the loop: the rest's failure, or the
      round's records in front of the rest's. */
  function Then(round: Round, rest: CursorFetched): CursorFetched {
    CursorFetched([round] + rest.rounds,
                  match rest.result
                  case Err(e) => Err(e)
                  case Ok(more) => Ok(RoundRecords(round) + more))
  }

  /** The loop from iteration `i` on, its first request being number `n` and
      `cursor` the cursor it starts with. */
  function CursorFrom(c: FetchConfig, server: Server, i: nat, n: nat, cursor: Option<Value>): (r: CursorFetched)
    requires i < PageBudget(c)
    ensures Outcome(c, server, i, n, cursor, r)
    decreases PageBudget(c) - i
  {
    var round := Attempt(c, server, n, cursor);
    if Continues(c, round) && i + 1 < PageBudget(c) then
      var rest := CursorFrom(c, server, i + 1, n + Size(round), NextCursor(round));
      MoreRounds(c, server, i, n, cursor, round, rest.rounds);
      MoreSettled(c, i, round, rest);
      Then(round, rest)
    else
      StopOutcome(c, server, i, n, cursor, round);
      CursorFetched([round], Stop(round))
  }

  /** `fetchAllRecords(config)` in cursor mode. */
  function FetchCursor(c: FetchConfig, server: Server): (r: CursorFetched)
    ensures 1 <= |r.rounds| <= PageBudget(c)
    ensures SentFrom(c, server, 0, None, r.rounds)
    ensures ContinuesUntilLast(c, r.rounds)
    ensures r.result.Err? ==> RoundData(r.rounds[|r.rounds| - 1]) == Err(r.result.error)
    ensures r.result.Ok? ==>
              && RoundData(r.rounds[|r.rounds| - 1]).Ok?
              && r.result.value == RecordsOf(r.rounds)
              && (!Continues(c, r.rounds[|r.rounds| - 1]) || |r.rounds| == PageBudget(c))
  {
    CursorFrom(c, server, 0, 0, None)
  }

  /** Every round sends one or two requests. */
  lemma {:induction false} RequestsBetween(rounds: seq<Round>)
    ensures |rounds| <= Requests(rounds) <= 2 * |rounds|
    decreases |rounds|
  {
    if rounds != [] {
      RequestsBetween(rounds[1..]);
      assert Requests(rounds) == Size(rounds[0]) + Requests(rounds[1..]);
    }
  }

  /** At most `2 * max(1, maxPages)` requests are sent. */
  lemma RequestBound(c: FetchConfig, server: Server)
    ensures Requests(FetchCursor(c, server).rounds) <= 2 * PageBudget(c)
  {
    RequestsBetween(FetchCursor(c, server).rounds);
  }

  /** What round `k` of a fetch sent (the rounds of `FetchCursor` are sent
      from request 0 with no cursor): the `pageLimit` payload with the cursor
      the previous round returned (none in round 0), then the `limit` payload
      with the same cursor exactly when the first request failed. */
  lemma RoundPayloads(c: FetchConfig, server: Server, rounds: seq<Round>, k: nat)
    requires SentFrom(c, server, 0, None, rounds)
    requires k < |rounds|
    ensures var cursor := if k == 0 then None else NextCursor(rounds[k - 1]);
            && rounds[k].first.payload == CursorPayload(c, PageLimitKey, cursor)
            && (rounds[k].fallback.Some? <==> Answer(rounds[k].first).Err?)
            && (rounds[k].fallback.Some? ==> rounds[k].fallback.value.payload == CursorPayload(c, LimitKey, cursor))
  {
    ChainedAt(Attempter(c, server), Size, NextCursor, 0, None, rounds, k);
  }

  /** A full page that came back without a cursor makes the next round send
      the very payload of the first round again. */
  lemma FullPageWithoutCursorRestarts(c: FetchConfig, server: Server, rounds: seq<Round>, k: nat)
    requires SentFrom(c, server, 0, None, rounds) && ContinuesUntilLast(c, rounds)
    requires k + 1 < |rounds|
    requires NextCursor(rounds[k]).None?
    ensures rounds[k + 1].first.payload == rounds[0].first.payload
    ensures |RoundRecords(rounds[k])| >= c.pageLimit
  {
    RoundPayloads(c, server, rounds, k + 1);
    RoundPayloads(c, server, rounds, 0);
    assert Continues(c, rounds[k]);
  }

  /** A fetch starts with the inner loop at request 0 and without a cursor. */
  lemma StartsFresh(c: FetchConfig, server: Server, rounds: seq<Round>)
    requires SentFrom(c, server, 0, None, rounds) && rounds != []
    ensures rounds[0] == Attempt(c, server, 0, None)
  {
    ChainedAt(Attempter(c, server), Size, NextCursor, 0, None, rounds, 0);
  }

  /** A truthy 2xx body for the `pageLimit` request is used at once: the
      iteration sends nothing else and goes on with that body's records and
      cursor. */
  lemma FirstSucceeds(c: FetchConfig, server: Server, n: nat, cursor: Option<Value>, status: int, body: Value)
    requires IsOk(status) && Truthy(body)
    requires server(n, CursorPayload(c, PageLimitKey, cursor)) == Response(status, body)
    ensures var round := Attempt(c, server, n, cursor);
            && Size(round) == 1
            && RoundData(round) == Ok(body)
            && RoundRecords(round) == ExtractRecords(body)
            && NextCursor(round) == ExtractNextCursor(body)
  {
  }

  /** When the `pageLimit` request fails and the `limit` request after it
      gets a truthy 2xx body, the iteration goes on with that body: its
      records and the cursor it hands on come from it. */
  lemma FallbackSucceeds(c: FetchConfig, server: Server, n: nat, cursor: Option<Value>, status: int, body: Value)
    requires ApiRequest(server(n, CursorPayload(c, PageLimitKey, cursor))).Err?
    requires IsOk(status) && Truthy(body)
    requires server(n + 1, CursorPayload(c, LimitKey, cursor)) == Response(status, body)
    ensures var round := Attempt(c, server, n, cursor);
            && Size(round) == 2
            && RoundData(round) == Ok(body)
            && RoundRecords(round) == ExtractRecords(body)
            && NextCursor(round) == ExtractNextCursor(body)
  {
  }

  /** In particular a fetch whose first `pageLimit` request fails goes on
      with the truthy body of its first `limit` request (the rounds of
      `FetchCursor` are sent from request 0 with no cursor). */
  lemma FirstFallbackIsUsed(c: FetchConfig, server: Server, rounds: seq<Round>, status: int, body: Value)
    requires SentFrom(c, server, 0, None, rounds) && rounds != []
    requires ApiRequest(server(0, CursorPayload(c, PageLimitKey, None))).Err?
    requires IsOk(status) && Truthy(body)
    requires server(1, CursorPayload(c, LimitKey, None)) == Response(status, body)
    ensures RoundData(rounds[0]) == Ok(body)
    ensures RoundRecords(rounds[0]) == ExtractRecords(body)
    ensures NextCursor(rounds[0]) == ExtractNextCursor(body)
  {
    StartsFresh(c, server, rounds);
    FallbackSucceeds(c, server, 0, None, status, body);
  }

  /** A 2xx reply with an empty body to the first request ends the fetch
      after that one request with "Unable to fetch records.". */
  lemma EmptyBodyAborts(c: FetchConfig, server: Server, status: int)
    requires IsOk(status)
    requires server(0, CursorPayload(c, PageLimitKey, None)) == Response(status, Null)
    ensures FetchCursor(c, server).result == Err(NoDataMessage)
    ensures Requests(FetchCursor(c, server).rounds) == 1
  {
    var r := FetchCursor(c, server);
    assert r.rounds[1..] == [];
    assert Requests(r.rounds) == Size(r.rounds[0]) + Used(Size, []);
  }

  /** When both payloads of the first round fail, the fetch fails with the
      error of the second one. */
  lemma BothFailuresAbort(c: FetchConfig, server: Server)
    requires ApiRequest(server(0, CursorPayload(c, PageLimitKey, None))).Err?
    requires ApiRequest(server(1, CursorPayload(c, LimitKey, None))).Err?
    ensures FetchCursor(c, server).result == Err(ApiRequest(server(1, CursorPayload(c, LimitKey, None))).error)
    ensures Requests(FetchCursor(c, server).rounds) == 2
  {
    var r := FetchCursor(c, server);
    assert r.rounds[1..] == [];
    assert Requests(r.rounds) == Size(r.rounds[0]) + Used(Size, []);
  }
}
