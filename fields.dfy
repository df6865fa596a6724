/** The record schema every store entry is expected to follow: the required field
    names, the ones a user may set, the presence check and the blank record. */
module Fields {
  import opened Json
  import opened Strings

  const LastUpdated: string := "lastUpdated"

  /** Every store record carries these fields, in this order. */
  const RequiredFields: seq<string> := ["apparel", "shoes", "jewelery", "bags", "notes", "lastUpdated"]

  /** The required fields without the one the form stamps automatically. */
  const UserSettableFields: seq<string> := Without(RequiredFields, LastUpdated)

  lemma RequiredFieldsDistinct()
    ensures Distinct(RequiredFields) && RequiredFields[5] == LastUpdated
  {
  }

  /** The user-settable fields are the required ones, in the same order, with only
      `lastUpdated` removed. */
  lemma UserSettableFieldsOrder()
    ensures UserSettableFields == RequiredFields[..5]
    ensures |UserSettableFields| == |RequiredFields| - 1
    ensures LastUpdated !in UserSettableFields
    ensures forall f :: f in UserSettableFields <==> f in RequiredFields && f != LastUpdated
  {
    RequiredFieldsDistinct();
    WithoutAt(RequiredFields, 5);
    assert RequiredFields[6..] == [];
  }

  /** `fields.every((field) => field in m)`. */
  function AllPresent(fields: seq<string>, m: map<string, Value>): (ok: bool)
    ensures ok <==> forall f :: f in fields ==> f in m
  {
    fields == [] || (fields[0] in m && AllPresent(fields[1..], m))
  }

  /** `validateStoreData`: false for anything that is not an object (null included),
      otherwise whether every required field is present as a key, whatever its value. */
  function ValidateStoreData(storeData: Value): (ok: bool)
    ensures ok <==> storeData.Obj? && forall f :: f in RequiredFields ==> f in storeData.fields
    ensures !Truthy(storeData) ==> !ok
  {
    if !Truthy(storeData) || !storeData.Obj? then false
    else AllPresent(RequiredFields, storeData.fields)
  }

  /** Only keys matter: two records with the same keys are both valid or both not. */
  lemma ValidityIgnoresValues(m: map<string, Value>, m': map<string, Value>)
    requires m.Keys == m'.Keys
    ensures ValidateStoreData(Obj(m)) == ValidateStoreData(Obj(m'))
  {
  }

  /** Adding a key, with any value, to a valid record keeps it valid. */
  lemma ValidityMonotone(m: map<string, Value>, k: string, v: Value)
    requires ValidateStoreData(Obj(m))
    ensures ValidateStoreData(Obj(m[k := v]))
  {
  }

  /** A record holding each of `fields` as a key, every value null. */
  function NullRecord(fields: seq<string>): map<string, Value> {
    map f | f in fields :: Null
  }

  /** The record `createEmptyStoreData` returns. */
  function EmptyStoreData(): map<string, Value> {
    NullRecord(RequiredFields)
  }

  /** `createEmptyStoreData`: start from `{}` and set each required field to null. */
  method CreateEmptyStoreData() returns (emptyStore: map<string, Value>)
    ensures emptyStore.Keys == set f | f in RequiredFields
    ensures forall f :: f in emptyStore ==> emptyStore[f] == Null
    ensures emptyStore == EmptyStoreData()
  {
    emptyStore := map[];
    for i := 0 to |RequiredFields|
      invariant emptyStore == NullRecord(RequiredFields[..i])
    {
      assert RequiredFields[..i + 1] == RequiredFields[..i] + [RequiredFields[i]];
      emptyStore := emptyStore[RequiredFields[i] := Null];
    }
    assert RequiredFields[..|RequiredFields|] == RequiredFields;
  }

  /** The blank record passes validation. */
  lemma EmptyStoreDataIsValid()
    ensures ValidateStoreData(Obj(EmptyStoreData()))
  {
  }
}
