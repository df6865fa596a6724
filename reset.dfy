/** The bulk reset script: every store in the fetched document is rebuilt as a
    blank record holding exactly the required fields, all null. */
module ResetInventory {
  import opened Json
  import opened Fields

  /** The document the reset writes back. */
  function ResetDocument(currentData: Document): (resetData: Document)
    ensures resetData.Keys == currentData.Keys
    ensures forall s :: s in resetData ==> resetData[s] == Obj(EmptyStoreData())
  {
    map s | s in currentData :: Obj(EmptyStoreData())
  }

  /** The nested loops of `resetInventoryData`: for each store, `resetData[s] = {}`,
      then `resetData[s][field] = null` for each required field. */
  method ResetInventoryData(currentData: Document) returns (resetData: Document)
    ensures resetData == ResetDocument(currentData)
  {
    resetData := map[];
    var remaining := currentData.Keys;
    while remaining != {}
      invariant remaining <= currentData.Keys
      invariant resetData.Keys == currentData.Keys - remaining
      invariant forall s :: s in resetData ==> resetData[s] == Obj(EmptyStoreData())
      decreases remaining
    {
      var storeName :| storeName in remaining;
      // `resetData[storeName] = {}`: the inner loop fills that same object.
      var store: map<string, Value> := map[];
      for i := 0 to |RequiredFields|
        invariant store == NullRecord(RequiredFields[..i])
      {
        assert RequiredFields[..i + 1] == RequiredFields[..i] + [RequiredFields[i]];
        store := store[RequiredFields[i] := Null];
      }
      assert RequiredFields[..|RequiredFields|] == RequiredFields;
      resetData := resetData[storeName := Obj(store)];
      remaining := remaining - {storeName};
    }
  }

  /** Every store of the reset document has exactly the required fields, each null,
      and so passes validation; nothing of the old entries survives. */
  lemma ResetRecordsAreBlank(currentData: Document, s: string)
    requires s in currentData
    ensures var r := ResetDocument(currentData)[s];
      && r.Obj?
      && r.fields.Keys == set f | f in RequiredFields
      && (forall f :: f in r.fields ==> r.fields[f] == Null)
      && ValidateStoreData(r)
  {
    EmptyStoreDataIsValid();
  }

  /** Resetting a reset document changes nothing. */
  lemma ResetIdempotent(currentData: Document)
    ensures ResetDocument(ResetDocument(currentData)) == ResetDocument(currentData)
  {
  }

  /** The reset depends only on which stores there are, not on what they held. */
  lemma ResetDependsOnlyOnStoreNames(d1: Document, d2: Document)
    requires d1.Keys == d2.Keys
    ensures ResetDocument(d1) == ResetDocument(d2)
  {
  }

  lemma ResetOfEmpty()
    ensures ResetDocument(map[]) == map[]
  {
  }
}
