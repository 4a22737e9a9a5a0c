/** The name list of the outage widget: the loop in `init` that turns each
    fetched record into its display name. */
module Names {
  import opened Wrappers
  import opened Json
  import opened Fields
  import opened Filtering

  /** `String(name)` for a record whose `extractName` is truthy; `None` when
      the record is skipped. */
  function NameOf(record: Value, key: string): (r: Option<string>)
    ensures r.Some? <==> ExtractName(record, key).Some? && Truthy(ExtractName(record, key).value)
    ensures r.Some? ==> r.value == JsString(ExtractName(record, key).value)
  {
    match ExtractName(record, key)
    case Some(name) => if Truthy(name) then Some(JsString(name)) else None
    case None => None
  }

  /** The per-record step of the loop. */
  function Namer(key: string): Value -> Option<string> {
    record => NameOf(record, key)
  }

  /** The names of `records`, in record order, skipped records left out. */
  function NamesOf(records: seq<Value>, key: string): (names: seq<string>)
    ensures |names| <= |records|
  {
    FilterMap(records, Namer(key))
  }

  /** The loop of `init`: one pass over the records, pushing the name of each
      record whose `extractName` is truthy. */
  method CollectNames(records: seq<Value>, key: string) returns (names: seq<string>)
    ensures names == NamesOf(records, key)
  {
    names := [];
    var i := 0;
    while i < |records|
      invariant 0 <= i <= |records|
      invariant names == FilterMap(records[..i], Namer(key))
    {
      var name := NameOf(records[i], key);
      if name.Some? {
        names := names + [name.value];
      }
      FilterMapPrefixStep(records, i, Namer(key));
      i := i + 1;
    }
    assert records[..i] == records;
  }

  /** Names of consecutive runs of records follow each other. */
  lemma NamesOfAppend(a: seq<Value>, b: seq<Value>, key: string)
    ensures NamesOf(a + b, key) == NamesOf(a, key) + NamesOf(b, key)
  {
    FilterMapAppend(a, b, Namer(key));
  }

  /** Exactly the records with a truthy name contribute their names: every
      listed name is the name of some record, and every record's name is listed. */
  lemma NamesOfMembers(records: seq<Value>, key: string)
    ensures forall s :: s in NamesOf(records, key) <==>
              exists i :: 0 <= i < |records| && NameOf(records[i], key) == Some(s)
  {
    FilterMapMembers(records, Namer(key));
    assert forall i :: 0 <= i < |records| ==> Namer(key)(records[i]) == NameOf(records[i], key);
  }

  /** When every record has a truthy name, the list holds one name per
      record, in record order. */
  lemma NamesOfAllNamed(records: seq<Value>, key: string)
    requires forall i :: 0 <= i < |records| ==> NameOf(records[i], key).Some?
    ensures |NamesOf(records, key)| == |records|
    ensures forall i :: 0 <= i < |records| ==> NamesOf(records, key)[i] == NameOf(records[i], key).value
  {
    assert forall i :: 0 <= i < |records| ==> Namer(key)(records[i]) == NameOf(records[i], key);
    FilterMapKeepsAll(records, Namer(key));
  }
}
