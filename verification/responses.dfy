/** Normalisation of search responses (`extractRecords`, `extractNextCursor`)
    and the outcome of one search request (`apiRequest`). */
module Responses {
  import opened Wrappers
  import opened Text
  import opened Numerals
  import opened Json

  /** Where the records array may sit, in the order checked. */
  const RecordPaths: seq<seq<string>> := [["records"], ["data", "records"], ["data"], ["results"], ["items"]]

  /** Where the next cursor may sit, in the order checked. */
  const CursorPaths: seq<seq<string>> :=
    [["meta", "nextStartAfterId"], ["meta", "startAfterId"], ["nextStartAfterId"], ["startAfterId"],
     ["nextCursor"], ["cursor"], ["nextPage"]]

  /** `extractRecords(data)`: the first array among the five shapes; an empty
      sequence when the body is falsy or none of them is an array. */
  function ExtractRecords(data: Value): (r: seq<Value>)
    ensures (forall k :: 0 <= k < |RecordPaths| ==> !Hit(data, RecordPaths[k], ArrayValue)) ==> r == []
    ensures forall j :: 0 <= j < |RecordPaths| && Hit(data, RecordPaths[j], ArrayValue) &&
                        (forall k :: 0 <= k < j ==> !Hit(data, RecordPaths[k], ArrayValue)) ==>
                          Some(Arr(r)) == At(data, RecordPaths[j])
  {
    match FirstAt(data, RecordPaths, ArrayValue)
    case Some(Arr(items)) => items
    case _ => []
  }

  /** `extractNextCursor(data)`: the first truthy value among the seven
      cursor locations, else `None` (`null`). */
  function ExtractNextCursor(data: Value): (r: Option<Value>)
    ensures r.Some? ==> Truthy(r.value)
    ensures r.None? <==> forall k :: 0 <= k < |CursorPaths| ==> !Hit(data, CursorPaths[k], TruthyValue)
    ensures forall j :: 0 <= j < |CursorPaths| && Hit(data, CursorPaths[j], TruthyValue) &&
                        (forall k :: 0 <= k < j ==> !Hit(data, CursorPaths[k], TruthyValue)) ==>
                          r == At(data, CursorPaths[j])
  {
    FirstAt(data, CursorPaths, TruthyValue)
  }

  /** A top-level `records` array is used whatever else the body holds. */
  lemma RecordsFirst(data: Value)
    requires data.Obj? && "records" in data.fields && data.fields["records"].Arr?
    ensures ExtractRecords(data) == data.fields["records"].items
  {
    AtOne(data, "records");
  }

  /** A body that is `null` (an empty response text) has no records and no cursor. */
  lemma NullBodyIsEmpty()
    ensures ExtractRecords(Null) == [] && ExtractNextCursor(Null).None?
  {
    forall k | 0 <= k < |RecordPaths|
      ensures !Hit(Null, RecordPaths[k], ArrayValue)
    {
      assert RecordPaths[k] != [];
    }
    forall k | 0 <= k < |CursorPaths|
      ensures !Hit(Null, CursorPaths[k], TruthyValue)
    {
      assert CursorPaths[k] != [];
    }
  }

  /** What the transport hands back for one request: a status with the parsed
      body (`Null` when the text was empty), or a rejected `fetch`. */
  datatype Reply = Response(status: int, body: Value) | TransportFailure(message: string)

  predicate IsOk(status: int) {
    200 <= status <= 299
  }

  const RequestFailedPrefix: string := "Request failed ("

  /** The message of the `Error` thrown for a non-2xx response. */
  function ErrorMessage(status: int, body: Value): (m: string)
    ensures !Hit(body, ["message"], TruthyValue) ==> m == RequestFailedPrefix + IntToString(status) + ")."
    ensures Hit(body, ["message"], TruthyValue) && At(body, ["message"]).value.Str? ==>
              m == At(body, ["message"]).value.s
    ensures Hit(body, ["message"], TruthyValue) && At(body, ["message"]).value.Arr? ==>
              m == Join(ElementStrings(At(body, ["message"]).value), ", ")
    ensures Hit(body, ["message"], TruthyValue) && !At(body, ["message"]).value.Arr? ==>
              m == JsString(At(body, ["message"]).value)
  {
    AtOne(body, "message");
    var message := Prop(body, "message");
    if message.Some? && Truthy(message.value) then
      if message.value.Arr? then Join(ElementStrings(message.value), ", ") else JsString(message.value)
    else RequestFailedPrefix + IntToString(status) + ")."
  }

  /** The status can be read back from the default message with `parseInt`. */
  lemma DefaultMessageCarriesStatus(status: int, body: Value)
    requires !Hit(body, ["message"], TruthyValue)
    ensures ParseInt(ErrorMessage(status, body)[|RequestFailedPrefix|..]) == Some(status)
  {
    var m := ErrorMessage(status, body);
    var digits := IntToString(status);
    assert m[|RequestFailedPrefix|..] == digits + ").";
    ParseIntOfIntToString(status);
    ParseIntIgnoresSuffix(digits, ").");
  }

  /** `parseInt` stops at the first character that is not a digit. */
  lemma ParseIntIgnoresSuffix(digits: string, suffix: string)
    requires digits != [] && (digits[0] == '-' || IsDigit(digits[0]))
    requires AllDigits(digits[1..])
    requires suffix != [] && !IsDigit(suffix[0])
    ensures ParseInt(digits + suffix) == ParseInt(digits)
  {
    NoLeadingSpace(digits);
    NoLeadingSpace(digits + suffix);
    var u := Unsigned(digits);
    assert Unsigned(digits + suffix) == u + suffix;
    LeadingDigitsOfDigitsThen(u, suffix);
  }

  lemma {:induction false} LeadingDigitsOfDigitsThen(ds: string, suffix: string)
    requires AllDigits(ds)
    requires suffix != [] && !IsDigit(suffix[0])
    ensures LeadingDigits(ds + suffix) == LeadingDigits(ds)
    decreases |ds|
  {
    if ds != [] {
      assert (ds + suffix)[1..] == ds[1..] + suffix;
      LeadingDigitsOfDigitsThen(ds[1..], suffix);
    }
  }

  /** `apiRequest`'s outcome: the parsed body for a 2xx status (even when it is
      `null`), otherwise the error its message rule produces. */
  function ApiRequest(reply: Reply): (r: Result<Value>)
    ensures r.Ok? <==> reply.Response? && IsOk(reply.status)
    ensures r.Ok? ==> r.value == reply.body
    ensures reply.TransportFailure? ==> r == Err(reply.message)
    ensures reply.Response? && !IsOk(reply.status) ==> r == Err(ErrorMessage(reply.status, reply.body))
  {
    match reply
    case TransportFailure(message) => Err(message)
    case Response(status, body) => if IsOk(status) then Ok(body) else Err(ErrorMessage(status, body))
  }
}
