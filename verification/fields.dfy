/** Field resolution over records whose shape is not fixed
    (`extractField`, `extractName`, `extractUpdatedAt`, `extractCreatedAt`). */
module Fields {
  import opened Wrappers
  import opened Text
  import opened Json

  /** The record properties that may hold custom fields, in lookup order. */
  const Containers: seq<string> :=
    ["properties", "propertyValues", "values", "customFields", "fields", "data", "attributes"]

  /** The lookup order as a list of paths, from container `i` on: in each
      container the full key and then the short key, container by container;
      then the record's own full key and its own short key. */
  function ProbesFrom(full: string, short: string, i: nat): (ps: seq<seq<string>>)
    requires i <= |Containers|
    ensures |ps| == 2 * (|Containers| - i) + 2
    decreases |Containers| - i
  {
    if i == |Containers| then [[full], [short]]
    else [[Containers[i], full], [Containers[i], short]] + ProbesFrom(full, short, i + 1)
  }

  function Probes(key: string): seq<seq<string>> {
    ProbesFrom(key, LastSegment(key), 0)
  }

  /** The `for` loop over the candidate containers followed by the two
      own-property checks, from container `i` on. A container counts only when
      it is truthy and has the key as an own property; the stored value is
      returned whatever it is. */
  function ScanFrom(record: Value, full: string, short: string, i: nat): (r: Option<Value>)
    requires i <= |Containers|
    ensures r == FirstAt(record, ProbesFrom(full, short, i), AnyValue)
    decreases |Containers| - i
  {
    var ps := ProbesFrom(full, short, i);
    FirstAtStep(record, ps, AnyValue);
    FirstAtStep(record, ps[1..], AnyValue);
    if i == |Containers| then
      AtOne(record, full);
      AtOne(record, short);
      if HasOwn(record, full) then Prop(record, full)
      else if HasOwn(record, short) then Prop(record, short)
      else None
    else
      assert ps[1..][1..] == ProbesFrom(full, short, i + 1);
      AtTwo(record, Containers[i], full);
      AtTwo(record, Containers[i], short);
      var obj := Prop(record, Containers[i]);
      if obj.Some? && Truthy(obj.value) && HasOwn(obj.value, full) then Prop(obj.value, full)
      else if obj.Some? && Truthy(obj.value) && HasOwn(obj.value, short) then Prop(obj.value, short)
      else ScanFrom(record, full, short, i + 1)
  }

  /** `extractField(record, fieldKey)`; `None` is the `null` it returns when
      the record or the key is falsy or no probe finds the key. */
  function ExtractField(record: Value, key: string): (r: Option<Value>)
    ensures !Truthy(record) || key == "" ==> r.None?
    ensures Truthy(record) && key != "" ==> r == FirstAt(record, Probes(key), AnyValue)
  {
    if !Truthy(record) || key == "" then None
    else ScanFrom(record, key, LastSegment(key), 0)
  }

  /** `record[c][key]` exists as an own property of a truthy container. */
  predicate InContainer(record: Value, c: string, key: string) {
    Hit(record, [c, key], AnyValue)
  }

  /** Neither key form is in any container from `i` on. */
  predicate MissesFrom(record: Value, full: string, short: string, i: nat)
    requires i <= |Containers|
  {
    forall k :: i <= k < |Containers| ==> !InContainer(record, Containers[k], full) && !InContainer(record, Containers[k], short)
  }

  lemma {:induction false} ScanFromFirstContainer(record: Value, full: string, short: string, from: nat, i: nat)
    requires from <= i < |Containers|
    requires forall k :: from <= k < i ==>
               !InContainer(record, Containers[k], full) && !InContainer(record, Containers[k], short)
    requires InContainer(record, Containers[i], full) || InContainer(record, Containers[i], short)
    ensures ScanFrom(record, full, short, from) ==
              if InContainer(record, Containers[i], full) then At(record, [Containers[i], full])
              else At(record, [Containers[i], short])
    decreases i - from
  {
    AtTwo(record, Containers[from], full);
    AtTwo(record, Containers[from], short);
    if from < i {
      ScanFromFirstContainer(record, full, short, from + 1, i);
    }
  }

  lemma {:induction false} ScanFromOwnKeys(record: Value, full: string, short: string, i: nat)
    requires i <= |Containers|
    requires MissesFrom(record, full, short, i)
    ensures ScanFrom(record, full, short, i) ==
              if HasOwn(record, full) then Prop(record, full)
              else if HasOwn(record, short) then Prop(record, short)
              else None
    decreases |Containers| - i
  {
    if i < |Containers| {
      AtTwo(record, Containers[i], full);
      AtTwo(record, Containers[i], short);
      ScanFromOwnKeys(record, full, short, i + 1);
    }
  }

  /** A scan that finds nothing found nothing in container `i` either. */
  lemma ScanFromMissOne(record: Value, full: string, short: string, i: nat)
    requires i < |Containers|
    requires ScanFrom(record, full, short, i).None?
    ensures !InContainer(record, Containers[i], full) && !InContainer(record, Containers[i], short)
    ensures ScanFrom(record, full, short, i + 1).None?
  {
    AtTwo(record, Containers[i], full);
    AtTwo(record, Containers[i], short);
  }

  lemma {:induction false} ScanFromMiss(record: Value, full: string, short: string, i: nat)
    requires i <= |Containers|
    requires ScanFrom(record, full, short, i).None?
    ensures MissesFrom(record, full, short, i)
    decreases |Containers| - i
  {
    if i < |Containers| {
      ScanFromMissOne(record, full, short, i);
      ScanFromMiss(record, full, short, i + 1);
      forall k | i <= k < |Containers|
        ensures !InContainer(record, Containers[k], full) && !InContainer(record, Containers[k], short)
      {
        if k > i {
          assert MissesFrom(record, full, short, i + 1);
        }
      }
    }
  }

  lemma ScanFromNone(record: Value, full: string, short: string)
    ensures ScanFrom(record, full, short, 0).None? <==>
              MissesFrom(record, full, short, 0) && !HasOwn(record, full) && !HasOwn(record, short)
  {
    if ScanFrom(record, full, short, 0).None? {
      ScanFromMiss(record, full, short, 0);
    }
    if MissesFrom(record, full, short, 0) {
      ScanFromOwnKeys(record, full, short, 0);
    }
  }

  /** The first container, in the fixed order, that holds the full or the short
      key decides the result; within it the full key wins. Stored values are
      returned as they are, `0`, `""`, `false` and `null` included. */
  lemma ExtractFieldFirstContainer(record: Value, key: string, i: nat)
    requires Truthy(record) && key != ""
    requires i < |Containers|
    requires forall k :: 0 <= k < i ==>
               !InContainer(record, Containers[k], key) && !InContainer(record, Containers[k], LastSegment(key))
    requires InContainer(record, Containers[i], key) || InContainer(record, Containers[i], LastSegment(key))
    ensures ExtractField(record, key) ==
              if InContainer(record, Containers[i], key) then At(record, [Containers[i], key])
              else At(record, [Containers[i], LastSegment(key)])
  {
    ScanFromFirstContainer(record, key, LastSegment(key), 0, i);
  }

  /** When no container holds either key form, the record's own full key and
      then its own short key are tried, and `null` results when both miss. */
  lemma ExtractFieldOwnKeys(record: Value, key: string)
    requires Truthy(record) && key != ""
    requires MissesFrom(record, key, LastSegment(key), 0)
    ensures ExtractField(record, key) ==
              if HasOwn(record, key) then Prop(record, key)
              else if HasOwn(record, LastSegment(key)) then Prop(record, LastSegment(key))
              else None
  {
    ScanFromOwnKeys(record, key, LastSegment(key), 0);
  }

  /** `extractField` returns `null` exactly when the record is falsy, the key
      is empty, or neither key form is found in any container or on the record. */
  lemma ExtractFieldAbsent(record: Value, key: string)
    ensures ExtractField(record, key).None? <==>
              || !Truthy(record) || key == ""
              || (MissesFrom(record, key, LastSegment(key), 0) && !HasOwn(record, key) && !HasOwn(record, LastSegment(key)))
  {
    ScanFromNone(record, key, LastSegment(key));
  }

  /** The fallback of `extractName` once the field lookup misses. */
  const NamePaths: seq<seq<string>> := [["name"], ["title"], ["displayName"]]

  /** `extractName(record, propertyKey)`: the same container scan as
      `extractField` (without its empty-key guard), then the first truthy of
      `name`, `title`, `displayName`. */
  function ExtractName(record: Value, key: string): (r: Option<Value>)
    ensures !Truthy(record) ==> r.None?
    ensures key != "" && ExtractField(record, key).Some? ==> r == ExtractField(record, key)
    ensures && Truthy(record) && MissesFrom(record, key, LastSegment(key), 0)
            && !HasOwn(record, key) && !HasOwn(record, LastSegment(key)) ==>
              r == FirstAt(record, NamePaths, TruthyValue)
  {
    if !Truthy(record) then None
    else
      var hit := ScanFrom(record, key, LastSegment(key), 0);
      ScanFromNone(record, key, LastSegment(key));
      if hit.Some? then hit else FirstAt(record, NamePaths, TruthyValue)
  }

  const UpdatedAtPaths: seq<seq<string>> :=
    [["updatedAt"], ["updated_at"], ["meta", "updatedAt"], ["meta", "updated_at"]]

  const CreatedAtPaths: seq<seq<string>> :=
    [["createdAt"], ["created_at"], ["createdOn"], ["created_on"], ["createdTime"], ["created_time"],
     ["meta", "createdAt"], ["meta", "created_at"], ["meta", "createdOn"], ["meta", "created_on"]]

  /** `extractUpdatedAt(record)`: the first truthy of the record's own
      `updatedAt`, `updated_at`, then `meta.updatedAt`, `meta.updated_at`. */
  function ExtractUpdatedAt(record: Value): (r: Option<Value>)
    ensures r.Some? ==> Truthy(r.value)
    ensures r.None? <==> forall k :: 0 <= k < |UpdatedAtPaths| ==> !Hit(record, UpdatedAtPaths[k], TruthyValue)
    ensures Hit(record, ["updatedAt"], TruthyValue) ==> r == At(record, ["updatedAt"])
    ensures !Hit(record, ["updatedAt"], TruthyValue) && Hit(record, ["updated_at"], TruthyValue) ==>
              r == At(record, ["updated_at"])
  {
    FirstAt(record, UpdatedAtPaths, TruthyValue)
  }

  /** `extractCreatedAt(record)`: six top-level spellings, then four under
      `meta` (`meta.createdTime` and `meta.created_time` are not consulted). */
  function ExtractCreatedAt(record: Value): (r: Option<Value>)
    ensures r.Some? ==> Truthy(r.value)
    ensures r.None? <==> forall k :: 0 <= k < |CreatedAtPaths| ==> !Hit(record, CreatedAtPaths[k], TruthyValue)
    ensures Hit(record, ["createdAt"], TruthyValue) ==> r == At(record, ["createdAt"])
  {
    FirstAt(record, CreatedAtPaths, TruthyValue)
  }

  /** Replacing `meta` leaves every top-level spelling as it was. */
  lemma TopLevelUnchanged(record: Value, meta: Value, path: seq<string>)
    requires record.Obj? && |path| == 1 && path[0] != "meta"
    ensures At(Obj(record.fields["meta" := meta]), path) == At(record, path)
  {
    assert path == [path[0]];
    AtOne(record, path[0]);
    AtOne(Obj(record.fields["meta" := meta]), path[0]);
  }

  /** Both top-level spellings of the update time are consulted before any
      `meta` one: a truthy top-level stamp hides whatever `meta` holds. */
  lemma UpdatedPrefersTopLevel(record: Value, meta: Value)
    requires record.Obj?
    requires Hit(record, ["updatedAt"], TruthyValue) || Hit(record, ["updated_at"], TruthyValue)
    ensures ExtractUpdatedAt(record) == ExtractUpdatedAt(Obj(record.fields["meta" := meta]))
  {
    var other := Obj(record.fields["meta" := meta]);
    forall k | 0 <= k < 2
      ensures At(record, UpdatedAtPaths[k]) == At(other, UpdatedAtPaths[k])
    {
      TopLevelUnchanged(record, meta, UpdatedAtPaths[k]);
    }
    if Hit(record, ["updatedAt"], TruthyValue) {
      assert Hit(record, UpdatedAtPaths[0], TruthyValue);
    } else {
      assert Hit(record, UpdatedAtPaths[1], TruthyValue);
    }
    FirstAtAgree(record, other, UpdatedAtPaths, TruthyValue, 2);
  }

  /** Likewise all six top-level spellings of the creation time come before
      the four under `meta`. */
  lemma CreatedPrefersTopLevel(record: Value, meta: Value)
    requires record.Obj?
    requires exists k :: 0 <= k < 6 && Hit(record, CreatedAtPaths[k], TruthyValue)
    ensures ExtractCreatedAt(record) == ExtractCreatedAt(Obj(record.fields["meta" := meta]))
  {
    var other := Obj(record.fields["meta" := meta]);
    forall k | 0 <= k < 6
      ensures At(record, CreatedAtPaths[k]) == At(other, CreatedAtPaths[k])
    {
      TopLevelUnchanged(record, meta, CreatedAtPaths[k]);
    }
    FirstAtAgree(record, other, CreatedAtPaths, TruthyValue, 6);
  }
}
