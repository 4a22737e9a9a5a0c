# Inkline listing grid and outage events widget: a Dafny model

This project models the data-handling core of two browser widgets that read
custom-object records from a search endpoint:

- `inkline-listing-grid.js`, the listing grid. It fetches records page by page (`page`, `pageLimit`, an optional `sort` clause). It renders each record through an HTML template with `{{ token }}` placeholders and pages the rendered items on the client with prev / index / next buttons.
- `outage-events-widget.js`, the outage widget. It fetches records with cursor paging. Each iteration tries a `pageLimit`-keyed payload and falls back to a `limit`-keyed one. It lists one display name per record.

The model is functional. JSON bodies are a `Json.Value` datatype: `Null`, `Bool`, integral `Num`, `Str`, `Arr`, or `Obj` as a map of own properties. JavaScript truthiness, own-property access and `String(value)` are defined on it.

The lookups are pure functions over that datatype. They are `extractField`, `extractName`, `extractUpdatedAt`, `extractCreatedAt`, `extractRecords` and `extractNextCursor`. They all share one "first candidate path whose value is accepted" search, `Json.FirstAt`.

The template engine has three parts:

- `escapeHtml` is the chain of five `replace` calls, `Html.Chain`. It is proved equal to a one-pass escape, `Html.Escape`, which also has an inverse, `Html.Unescape`.
- `buildTemplateHtml` is a left-to-right scanner, `Template.Expand`. It is written over an arbitrary token resolver.
- `getTokenValue` is that resolver, `Template.TokenText`.

The server is a function `Fetching.Server` from a request number and a payload to a reply. A reply is an HTTP status with a parsed body, or a transport failure. Both fetch loops are recursive functions over this server, bounded by `max(1, maxPages)`. They return the exchanges they made together with the outcome.

The pagination of the grid is a state machine:

- a state is a `View`: the current page and the buttons;
- `updatePage` is the transition;
- the prev / next / active flags are a pure function of the page.

Modules follow the two scripts:

- `Json`, `Text`, `Numerals`, `Wrappers`: values and the JavaScript built-ins used on them.
- `Fields`: the field and timestamp lookups.
- `Responses`: `extractRecords`, `extractNextCursor` and `apiRequest`.
- `Html` and `Template`: the template engine.
- `Pagination` and `Listing`: client-side paging and the rendered items.
- `Fetching`, `NumericFetch` and `CursorFetch`: the fetch loops.
- `Names`: the name list.
- `Filtering` and `Traces`: generic helpers. `Filtering` is the "map, drop the empty ones" loop shape. `Traces` describes a sequence of exchanges produced one after another.

## Model

| member | source | states |
|---|---|---|
| Fields.ExtractField | inkline-listing-grid.js:326-353 | `null` for a falsy record or an empty key. Otherwise the value at the first hit of the probe list: each container's full key, then its short key, container by container; then the record's own full key and short key. |
| Fields.ExtractFieldFirstContainer | inkline-listing-grid.js:339-347 | The first container, in the order properties, propertyValues, values, customFields, fields, data, attributes, that holds the full or the short key decides the result. Within it the full key wins. The stored value is returned whatever it is, including 0, "" and false. |
| Fields.ExtractFieldOwnKeys | inkline-listing-grid.js:349-352 | When no container holds either key form, the record's own full key is used, then its own short key, else `null`. |
| Fields.ExtractFieldAbsent | inkline-listing-grid.js:327-352 | `extractField` finds nothing (`None`, the final `return null`) if and only if the record is falsy, the key is empty, or neither key form is in any container or on the record. A stored `null` is found, as `Some(Null)`. |
| Fields.ScanFromNone | inkline-listing-grid.js:339-352 | The container scan misses if and only if no container and no own property holds either key form. |
| Fields.ExtractName | outage-events-widget.js:119-150 | `null` for a falsy record. It agrees with `extractField` whenever that lookup hits. Otherwise it is the first truthy of `name`, `title`, `displayName`. |
| Fields.ExtractUpdatedAt | inkline-listing-grid.js:356-362 | The first truthy of `updatedAt`, `updated_at`, `meta.updatedAt`, `meta.updated_at`; `null` exactly when none is truthy. A truthy top-level `updatedAt` always wins, then `updated_at`. |
| Fields.ExtractCreatedAt | inkline-listing-grid.js:365-377 | The first truthy of the six top-level and the four `meta` spellings; `null` exactly when none is truthy. A truthy top-level `createdAt` always wins. |
| Fields.UpdatedPrefersTopLevel | inkline-listing-grid.js:357-360 | When either top-level update-time spelling is truthy, `meta` is never read: replacing `meta` does not change the result. |
| Fields.CreatedPrefersTopLevel | inkline-listing-grid.js:366-375 | When any of the six top-level creation-time spellings is truthy, `meta` is never read: replacing `meta` does not change the result. |
| Json.FirstAtAgree | inkline-listing-grid.js:356-377 | The first-truthy search reads no path after the first accepted one: two values that agree up to an accepted path give the same result. |
| Responses.ExtractRecords | outage-events-widget.js:97-105 | The array at the first of `records`, `data.records`, `data`, `results`, `items` that holds an array. Empty when none does. |
| Responses.RecordsFirst | inkline-listing-grid.js:304 | A top-level `records` array is used whatever else the body holds. |
| Responses.NullBodyIsEmpty | outage-events-widget.js:98 | A `null` body gives no records and no cursor. |
| Responses.ExtractNextCursor | outage-events-widget.js:107-117 | The first truthy value among the seven cursor locations, in order. `null` exactly when none is truthy. |
| Responses.ErrorMessage | outage-events-widget.js:177-185 | A truthy string `data.message` is the message. A truthy array message is joined with ", ". Any other truthy message is its `String` form. Otherwise the message is "Request failed (" + status + ")." |
| Responses.DefaultMessageCarriesStatus | inkline-listing-grid.js:488 | The status can be read back from the default message. |
| Responses.ApiRequest | outage-events-widget.js:167-191 | Success if and only if the reply has a 2xx status, and then the result is the parsed body, `null` included. A transport failure keeps its message. A non-2xx status fails with the message rule. |
| Numerals.ParseIntOfIntToString | inkline-listing-grid.js:270 | `parseInt(String(i), 10)` is `i` for every integer `i`: the round trip of a button's `data-inkline-page` value. |
| Numerals.IntToStringInjective | inkline-listing-grid.js:608 | Distinct page numbers have distinct texts, so comparing with `String(currentPage)` singles out one button. |
| Numerals.ParseInt | inkline-listing-grid.js:597-598 | `parseInt` gives `NaN` exactly when no digits follow the leading white space and optional sign. |
| Html.EscapeHtmlText | inkline-listing-grid.js:419-426 | The chain of five global replacements, `&` first, equals a single pass that replaces each special character by its entity. |
| Html.ChainIsSinglePass | inkline-listing-grid.js:420-425 | The replacement order makes the chain a single pass: no entity produced by an earlier step is re-escaped. |
| Html.EscapeIsSafe | inkline-listing-grid.js:419-426 | The escaped text contains no `<`, `>`, `"` or `'`. Every `&` in it begins one of `&amp;`, `&lt;`, `&gt;`, `&quot;`, `&#39;`. |
| Html.EscapeIdentity | inkline-listing-grid.js:419-426 | Escaping returns the text unchanged if and only if it holds none of the five special characters. It never shortens the text. |
| Html.UnescapeEscape | inkline-listing-grid.js:419-426 | Escaping loses nothing: decoding the five entities gives back the original text. |
| Template.MatchAt | inkline-listing-grid.js:445 | A match at the start of the template covers at least `{{`, one body character and `}}`, and never more than the template. |
| Template.MatchAtShape | inkline-listing-grid.js:445 | Every match is `{{`, a non-empty body without `}`, then `}}`, and its capture is the token of that body. |
| Template.MatchesAnyBody | inkline-listing-grid.js:445 | Conversely `{{`, any non-empty body without `}`, then `}}` is matched, whatever follows, and covers exactly those characters. |
| Template.MatchesPlaceholder | inkline-listing-grid.js:445 | `{{`, white space, a token, white space, `}}` is matched, and the capture is exactly the token. |
| Template.RenderPlaceholder | inkline-listing-grid.js:444-449 | A placeholder is replaced by the escaped text of its trimmed token. Rendering continues right after the closing braces. |
| Template.RenderCopiesText | inkline-listing-grid.js:445 | Text at none of whose positions a match starts is copied verbatim, and rendering carries on with what follows. A `{` that opens no placeholder, as in `a{b}`, is such text. |
| Template.NoBraceUnmatched | inkline-listing-grid.js:445 | No match starts inside text that holds no `{`. |
| Template.Render | inkline-listing-grid.js:444-450 | A template with no `{{` is returned unchanged. When the template holds no `<`, `>`, `"` or `'`, the rendered text holds none either, whatever the record contains. |
| Template.TokenText | inkline-listing-grid.js:429-441 | The two update-time tokens give the formatted update time, or "" when there is none; the two creation-time tokens likewise. Every other token gives "" when `extractField` finds nothing or finds `null`, and the `String` form of the stored value otherwise. |
| Template.UnresolvedTokenIsEmpty | inkline-listing-grid.js:438-439 | A non-timestamp token that `extractField` cannot resolve renders as "", never as the placeholder. |
| Template.StoredValueText | inkline-listing-grid.js:438-440 | A stored non-null value renders as its `String` form, falsy values included. |
| Template.StoredNullIsEmpty | inkline-listing-grid.js:438-448 | A placeholder whose token holds a stored `null` renders as nothing, as a missing field does. |
| Template.UpdatedTokensIgnoreContainers | inkline-listing-grid.js:430-433 | `updatedAt` and `updated_at` consult only the timestamp lookup. They render as "" when it finds nothing, whatever the containers hold. |
| Template.CreatedTokensIgnoreContainers | inkline-listing-grid.js:434-437 | The same for `createdAt` and `created_at`. |
| Pagination.TotalPages | inkline-listing-grid.js:236 | `max(1, ceil(n / pageSize))`: at least one page; the pages hold all records; there is exactly one page if and only if `n <= pageSize`; with more than one page, the last is not empty. |
| Pagination.UpdatePage | inkline-listing-grid.js:590-599 | From a page in range, "prev", "next" and any index leave the page in range. A parsed index always lands in range. |
| Pagination.StepsStopAtTheEnds | inkline-listing-grid.js:592-595 | "prev" on the first page and "next" on the last page are no-ops. |
| Pagination.StepsMoveOnePage | inkline-listing-grid.js:592-595 | Away from the ends, "prev" and "next" move exactly one page. |
| Pagination.UnreadableValueIsNoOp | inkline-listing-grid.js:596-598 | A value that does not parse as an integer leaves the page unchanged. |
| Pagination.IndexValueSelectsPage | inkline-listing-grid.js:597-598 | The value of index button `i` selects page `i`. |
| Pagination.IndexValueIsClamped | inkline-listing-grid.js:598 | Indices below 0 go to the first page. Indices past the end go to the last page. |
| Pagination.PageSlice | inkline-listing-grid.js:206-208 | The visible slice of page `i` is `records[i*pageSize .. min(n, (i+1)*pageSize))`, element for element. It is empty past the end. |
| Pagination.PagesCoverRecords | inkline-listing-grid.js:206-208 | The slices of pages `0 .. totalPages-1`, concatenated, are exactly the records. |
| Pagination.RecordOnPage | inkline-listing-grid.js:206-208 | Record `j` appears on page `j / pageSize` at position `j % pageSize`, and that page exists. |
| Pagination.RenderControls | inkline-listing-grid.js:250-285 | No controls when there is at most one page. Otherwise there is one button per page plus prev and next. |
| Pagination.RefreshControls | inkline-listing-grid.js:605-631 | The refresh keeps the buttons and their values. A button is active if and only if its value is `String(currentPage)`. |
| Pagination.ControlsShape | inkline-listing-grid.js:255-285 | On page `current`, prev comes first and is disabled if and only if `current <= 0`. Next comes last and is disabled if and only if `current >= totalPages-1`. Index button `i` carries `String(i)`. Exactly the button of `current` is active. |
| Pagination.InitialRenderIsPageZero | inkline-listing-grid.js:636-637 | The initial render, which marks button 0 active, matches the reference controls of page 0, the page it is called with. |
| Pagination.RefreshShowsPage | inkline-listing-grid.js:600-633 | Refreshing any page's buttons onto page `current` gives exactly the controls of `current`. |
| Listing.Start | inkline-listing-grid.js:636-637 | The first render leaves a consistent view: page 0 in range, and the buttons of page 0. |
| Listing.Navigate | inkline-listing-grid.js:590-633 | `updatePage` moves to the page the transition gives, and keeps the view consistent. |
| Listing.Click | inkline-listing-grid.js:288-298 | A click on any button keeps the view consistent. A disabled button is ignored. |
| Listing.ClickIndexButton | inkline-listing-grid.js:266-270 | Clicking index button `i` shows page `i`. |
| Listing.ClickStepAtEnds | inkline-listing-grid.js:260-263 | Clicking prev on the first page or next on the last page changes nothing. |
| Listing.ItemOf | inkline-listing-grid.js:217-218 | A record is skipped if and only if its rendered output is blank after trimming. Otherwise its item is non-empty and trimmed. |
| Listing.PageItems | inkline-listing-grid.js:216-229 | At most one item per record of the page; every item is non-empty and trimmed. |
| Listing.PageItemsOnePerRecord | inkline-listing-grid.js:216-229 | When no record renders blank, item `i` is the trimmed output of record `i`. |
| Listing.PageItemsAllBlank | inkline-listing-grid.js:216-229 | When every record renders blank, nothing is shown. |
| Listing.PageItemsMembers | inkline-listing-grid.js:216-229 | Every item is the trimmed output of some non-blank record of the page, and every non-blank record's trimmed output is an item. |
| Listing.PageItemsAppend | inkline-listing-grid.js:216-229 | Items keep record order: the items of two consecutive runs of records are the items of the first run followed by those of the second. |
| Listing.ShownItems | inkline-listing-grid.js:206-229 | The items of a page never outnumber the page size. |
| Names.NameOf | outage-events-widget.js:275-276 | A record contributes if and only if `extractName` is truthy, and then it contributes `String(name)`. |
| Names.CollectNames | outage-events-widget.js:272-277 | The loop computes the names of the records: the name of each record that has one, in record order. |
| Names.NamesOfMembers | outage-events-widget.js:274-277 | Every listed name belongs to some record, and every record's truthy name is listed. |
| Names.NamesOfAppend | outage-events-widget.js:274-277 | Names keep record order: the names of two consecutive runs of records follow each other. |
| Names.NamesOfAllNamed | outage-events-widget.js:274-277 | When every record has a truthy name, there is one name per record, in record order. |
| Names.NamesOf | outage-events-widget.js:272-277 | There are never more names than records. |
| Fetching.PageBudget | inkline-listing-grid.js:508 | `max(1, maxPages || 1)`: at least one iteration, and exactly `maxPages` when it is positive. |
| Fetching.SortFor | inkline-listing-grid.js:517-527 | A sort clause is sent if and only if `sortField` is non-empty. The field is its last `.`-segment. The direction is "desc" exactly when `sortOrder` is "desc", and "asc" otherwise. |
| NumericFetch.FetchNumeric | inkline-listing-grid.js:505-544 | One to `max(1, maxPages)` requests, numbered 0, 1, …, for pages 1, 2, …; every page but the last came back full. A failure is the last request's error. A success is the in-order concatenation of all pages' records, and stopped at a short page or at the budget. |
| NumericFetch.NumericFrom | inkline-listing-grid.js:510-541 | The same for the loop from iteration `i` on. |
| NumericFetch.RequestedPage | inkline-listing-grid.js:511-529 | Request `k` asks for page `k + 1` with the configured page size and sort, and gets the server's reply to request `k`. |
| NumericFetch.FullPagesUseBudget | inkline-listing-grid.js:508-541 | While every page comes back full, exactly `max(1, maxPages)` pages are requested and the fetch succeeds. |
| NumericFetch.ShortFirstPageStops | inkline-listing-grid.js:536-538 | A short first page, an empty body included, ends the fetch after one request with that page's records. |
| NumericFetch.FailedFirstPageAborts | inkline-listing-grid.js:529 | A failing first request aborts the fetch with its error, and nothing else is requested. |
| CursorFetch.Attempt | outage-events-widget.js:225-236 | An iteration sends the `pageLimit` payload. It sends the `limit` payload with the same cursor, as the next request, if and only if the first request failed. |
| CursorFetch.RoundData | outage-events-widget.js:228-240 | The iteration goes on with the body of the answered request exactly when that request succeeded and its body is truthy. A falsy body from a successful request fails with "Unable to fetch records.". A failure of the last request keeps its error. |
| CursorFetch.NextCursor | outage-events-widget.js:247 | After a successful iteration the cursor passed on is `extractNextCursor` of its data, truthy when present. After a failed one there is none. |
| CursorFetch.FirstSucceeds | outage-events-widget.js:228-247 | A truthy 2xx body for the `pageLimit` request ends the inner loop at once. The iteration's records and next cursor are read from that body. |
| CursorFetch.FallbackSucceeds | outage-events-widget.js:228-247 | When the `pageLimit` request fails and the `limit` request gets a truthy 2xx body, the iteration sends two requests and goes on with that body's records and cursor. |
| CursorFetch.StartsFresh | outage-events-widget.js:196-229 | The first iteration starts at request 0 without a cursor. |
| CursorFetch.FirstFallbackIsUsed | outage-events-widget.js:196-247 | A fetch whose first `pageLimit` request fails goes on with the truthy body of its first `limit` request: its records and its cursor. |
| CursorFetch.CursorFrom | outage-events-widget.js:200-253 | The loop from iteration `i` on runs one to the remaining budget of iterations, each continuing from the previous one's request number and cursor; all but the last continued. A failure is the last iteration's. A success concatenates all records and stopped because there was neither a cursor nor a full page, or the budget ran out. |
| CursorFetch.FetchCursor | outage-events-widget.js:194-256 | The whole fetch, from request 0 with no cursor: one to `max(1, maxPages)` iterations, with the outcome above. |
| CursorFetch.RequestsBetween | outage-events-widget.js:228-236 | Every iteration sends one or two requests. |
| CursorFetch.RequestBound | outage-events-widget.js:198-236 | At most `2 * max(1, maxPages)` requests are sent. |
| CursorFetch.RoundPayloads | outage-events-widget.js:203-247 | Iteration `k` sends the `pageLimit` payload with the previous iteration's cursor (none in iteration 0). It sends the `limit` payload with the same cursor exactly when the first request failed. |
| CursorFetch.FullPageWithoutCursorRestarts | outage-events-widget.js:247-250 | A full page without a cursor makes the next iteration send the first iteration's payload again. |
| CursorFetch.EmptyBodyAborts | outage-events-widget.js:167-240 | A 2xx reply with an empty body to the first request aborts the fetch with "Unable to fetch records." after one request. |
| CursorFetch.BothFailuresAbort | outage-events-widget.js:228-239 | When both payloads of the first iteration fail, the fetch fails with the second error after two requests. |
| Text.Trim | inkline-listing-grid.js:218 | `trim()` leaves no white space at either end. |
| Text.TrimSurrounded | inkline-listing-grid.js:445 | Trimming a token surrounded by white space gives exactly the token. |
| Text.LastSegment | inkline-listing-grid.js:328 | `split('.').pop()` is a suffix holding no '.', preceded by a '.' when it is not the whole string. |

## Left out

- DOM work: container creation, loading and error paragraphs, `renderList`, fragment parsing through `<template>`, `data-inkline-item` tagging and removal, Font Awesome and CSS injection, and `formatEventDates`. A rendered item is modelled as the trimmed HTML string. A click is modelled as the index of the clicked button: the `<i>` icon redirection and the missing-attribute guard of the click handler are DOM plumbing.
- Transport: `fetch`, the URL, the headers, `loadTemplate`, and `JSON.parse` with its `{raw: text}` fallback. Each reply is taken from the `Server` function as a status and an already-parsed body. A transport failure is modelled as the message of the rejected `fetch`.
- The server is answered by request number and payload, so replies can differ over time. Nothing about the server's real behaviour is modelled.
- Date formatting: `formatDateTimeValue` depends on `Date` parsing and locale output. It is the parameter `fmt` of the template functions.
- Numbers are integers: floating-point values, `NaN` and exponent notation in `String(value)` are not modelled.
- `Json.JsString` renders a plain object as "[object Object]" and an array by joining its elements with ",". Nested arrays and `null` elements follow `Array.prototype.join`. `undefined` does not occur in parsed JSON.
- Own properties of arrays and strings, such as indices and `length`, are not modelled: only objects have own properties. So reading a container from an array record, as `record.values` does, differs from JavaScript. There `values` is inherited from `Array.prototype`, so the container is a function. Then `extractField([...], "name")` gives that function's name, "values", and the key `length` gives 0. The model gives `None` in both cases.
- Object key order is not modelled, because no modelled lookup iterates over keys.
- Configuration reading (`readConfigFromDataset`, `readConfig`): it forces `pageSize` positive, so `pageSize > 0` is a precondition. `pageLimit` and `maxPages` need no precondition: any integer is accepted and `max(1, maxPages)` is computed as written.
- The empty-record-list text, the title, the button labels `String(i + 1)` and the chevron icons are presentation only.
- `async`/`await`, `logDebug`, the debug logging of the first record, and the `init` bootstrap are sequencing only: the fetch loops are already sequential.
- The listing grid's `extractNextCursor` (inkline-listing-grid.js:313-323) is identical to the outage widget's and unused. Both widgets' `extractRecords` and error-message rules are the same function in the model.
- Template.TokenOf: a body made only of white space is captured as its last character, as the lazy pattern does. No lemma is stated about what such a token renders to.

## Behaviour as written

The model follows the code as written:

- `extractCreatedAt` consults `meta.createdAt`, `meta.created_at`, `meta.createdOn` and `meta.created_on` only. `meta.createdTime` and `meta.created_time` are never read (inkline-listing-grid.js:372-375).
- There is no `event_datetime` composite token: every token other than the four timestamp spellings goes to `extractField` (inkline-listing-grid.js:429-441).
- The timestamp lookups check only the record's own keys and `meta`, using truthiness. They do not walk the field containers.
- In cursor mode, a full page returned without a cursor makes the next iteration send the first iteration's payload again, because no page number is sent (outage-events-widget.js:203-223, 247-252). `CursorFetch.FullPageWithoutCursorRestarts` states this.
- The initial `renderPagination` always marks button 0 active (inkline-listing-grid.js:271). That is correct only because it is called on page 0 (inkline-listing-grid.js:636-637). `Pagination.InitialRenderIsPageZero` states this.
