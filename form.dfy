/** The mobile submission form: pick a store (or arrive with `?store=`), set a
    level for each category, submit. The handlers' pure parts come first; the
    component's state and its handlers follow as the class SubmissionForm, with
    every fetch and save outcome passed in as a parameter. */
module Form {
  import opened Json
  import opened Fields
  import opened Levels
  import opened OrderedObject
  import ResetInventory

  /** Stores whose form shows the shoes row (compared case-sensitively). */
  const StoresWithShoes: seq<string> := ["Mineola", "Huntington", "Skokie", "Atlanta", "Ridgewood", "Brooklyn"]

  /** The values a level select can report: its placeholder and the three levels. */
  const LevelOptions: seq<string> := ["", "light", "medium", "heavy"]

  /** The keys `Object.keys(data[store] || {})` lists: a stored record's keys, and
      none for a store the document lacks or holds as null. */
  function StoredCategories(data: Document, store: string): (keys: set<string>)
    ensures store in data && data[store].Obj? ==> keys == data[store].fields.Keys
    ensures store !in data || data[store] == Null ==> keys == {}
  {
    Spread(Get(data, store)).Keys
  }

  /** The category map `handleFetchData` starts the form with: every stored category
      of the store, each unselected. */
  function BlankCategories(data: Document, store: string): (blank: map<string, Value>)
    ensures blank.Keys == StoredCategories(data, store)
    ensures forall c :: c in blank ==> blank[c] == Null
  {
    map c | c in StoredCategories(data, store) :: Null
  }

  /** The `reduce` in `handleFetchData`: one null entry per key of the store's entry. */
  method InitCategories(data: Document, store: string) returns (updatedCategories: map<string, Value>)
    ensures store !in data ==> updatedCategories == map[]
    ensures store in data && data[store].Obj? ==> updatedCategories.Keys == data[store].fields.Keys
    ensures forall c :: c in updatedCategories ==> updatedCategories[c] == Null
    ensures updatedCategories == BlankCategories(data, store)
  {
    var originalKeys := StoredCategories(data, store);
    updatedCategories := map[];
    var remaining := originalKeys;
    while remaining != {}
      invariant remaining <= originalKeys
      invariant updatedCategories == map c | c in originalKeys - remaining :: Null
      decreases remaining
    {
      var category :| category in remaining;
      updatedCategories := updatedCategories[category := Null];
      remaining := remaining - {category};
    }
  }

  /** On a freshly reset document the form starts every store on the blank record. */
  lemma BlankCategoriesAfterReset(d: Document, s: string)
    requires s in d
    ensures BlankCategories(ResetInventory.ResetDocument(d), s) == EmptyStoreData()
  {
  }

  /** `{...prev, [category]: level}` from `handleCategoryChange`. */
  function WithCategory(prev: map<string, Value>, category: string, level: Value): (next: map<string, Value>)
    ensures next.Keys == prev.Keys + {category}
    ensures next[category] == level
    ensures forall c :: c in prev && c != category ==> next[c] == prev[c]
  {
    prev[category := level]
  }

  /** The categories a sequence of selections touches. */
  function ChangedCategories(changes: seq<(string, string)>): set<string> {
    if changes == [] then {} else ChangedCategories(changes[..|changes| - 1]) + {changes[|changes| - 1].0}
  }

  /** The category map after the user's selections, applied in turn by `handleCategoryChange`:
      a touched category holds the level of its last selection. */
  function ApplyChanges(categories: map<string, Value>, changes: seq<(string, string)>): (r: map<string, Value>)
    ensures r.Keys == categories.Keys + ChangedCategories(changes)
    ensures forall c :: c in categories && c !in ChangedCategories(changes) ==> r[c] == categories[c]
    ensures forall c :: c in ChangedCategories(changes) ==>
      LastDefinition(changes, c).Some? && r[c] == Str(LastDefinition(changes, c).value)
    decreases |changes|
  {
    if changes == [] then categories
    else
      var n := |changes| - 1;
      WithCategory(ApplyChanges(categories, changes[..n]), changes[n].0, Str(changes[n].1))
  }

  /** `{...categories, lastUpdated: timeStamp}`. */
  function WithTimeStamp(categories: map<string, Value>, timeStamp: string): (stamped: map<string, Value>)
    ensures stamped.Keys == categories.Keys + {LastUpdated}
    ensures stamped[LastUpdated] == Str(timeStamp)
    ensures forall c :: c in categories && c != LastUpdated ==> stamped[c] == categories[c]
  {
    categories[LastUpdated := Str(timeStamp)]
  }

  /** `{...freshDataJson, [storeName]: categoriesWithTimeStamp}`: the document
      `handleSubmit` sends. Only the submitted store's entry differs from the fresh
      snapshot, and it is replaced, not merged with what was stored. */
  function MergeSubmission(freshData: Document, storeName: string, categories: map<string, Value>, timeStamp: string): (updatedData: Document)
    ensures updatedData.Keys == freshData.Keys + {storeName}
    ensures forall s :: s in freshData && s != storeName ==> updatedData[s] == freshData[s]
    ensures updatedData[storeName] == Obj(WithTimeStamp(categories, timeStamp))
  {
    freshData[storeName := Obj(WithTimeStamp(categories, timeStamp))]
  }

  /** What the store held before has no influence on the entry the submission writes. */
  lemma SubmissionReplacesWholesale(fresh1: Document, fresh2: Document, storeName: string, categories: map<string, Value>, timeStamp: string)
    ensures MergeSubmission(fresh1, storeName, categories, timeStamp)[storeName]
         == MergeSubmission(fresh2, storeName, categories, timeStamp)[storeName]
  {
  }

  /** Whether the row for `category` is shown on step 2: `lastUpdated` is never
      rendered, and the shoes row is hidden for stores outside StoresWithShoes. */
  predicate RowDisplayed(storeName: string, category: string): (shown: bool)
    ensures category == LastUpdated ==> !shown
    ensures category == "shoes" ==> (shown <==> storeName in StoresWithShoes)
    ensures category != LastUpdated && category != "shoes" ==> shown
  {
    category != LastUpdated && !(category == "shoes" && storeName !in StoresWithShoes)
  }

  /** The rows a user can set for `storeName`: displayed rows of stored categories only. */
  function VisibleRows(data: Document, storeName: string): (rows: set<string>)
    ensures rows <= StoredCategories(data, storeName)
    ensures forall c :: c in rows ==> RowDisplayed(storeName, c)
  {
    set c | c in StoredCategories(data, storeName) && RowDisplayed(storeName, c)
  }

  lemma RowVisibility(data: Document, storeName: string)
    ensures LastUpdated !in VisibleRows(data, storeName)
    ensures "shoes" in StoredCategories(data, storeName) ==>
      ("shoes" in VisibleRows(data, storeName) <==> storeName in StoresWithShoes)
    ensures forall c :: c in StoredCategories(data, storeName) && c != LastUpdated && c != "shoes" ==> c in VisibleRows(data, storeName)
  {
  }

  /** A submission built from the form's selections writes back exactly the keys of
      the entry the form was loaded from, plus `lastUpdated`, stamped; a row the
      user could not see (the hidden shoes row, say) goes back as null. */
  lemma {:induction false} SubmissionKeepsKeys(data: Document, freshData: Document, store: string, changes: seq<(string, string)>, timeStamp: string)
    requires ChangedCategories(changes) <= VisibleRows(data, store)
    ensures var saved := MergeSubmission(freshData, store, ApplyChanges(BlankCategories(data, store), changes), timeStamp)[store];
      && saved.Obj?
      && saved.fields.Keys == StoredCategories(data, store) + {LastUpdated}
      && saved.fields[LastUpdated] == Str(timeStamp)
      && (forall c :: c in StoredCategories(data, store) && c !in VisibleRows(data, store) && c != LastUpdated ==> saved.fields[c] == Null)
  {
    var blank := BlankCategories(data, store);
    assert blank.Keys == StoredCategories(data, store);
    var edited := ApplyChanges(blank, changes);
    assert edited.Keys == StoredCategories(data, store);
  }

  /** A store whose entry follows the schema is written back following it, whatever
      the user selected. */
  lemma SubmissionKeepsSchema(data: Document, freshData: Document, store: string, changes: seq<(string, string)>, timeStamp: string)
    requires ValidateStoreData(Get(data, store))
    ensures ValidateStoreData(MergeSubmission(freshData, store, ApplyChanges(BlankCategories(data, store), changes), timeStamp)[store])
  {
    var blank := BlankCategories(data, store);
    assert forall f :: f in RequiredFields ==> f in blank;
  }

  /** `getBackgroundColor` of the form's level selects. */
  function BackgroundColor(level: Value): (colour: string)
    ensures ParseLevel(level).None? <==> colour == "#fff"
  {
    if level == Str("light") then "#d1f5d3"
    else if level == Str("medium") then "#fff3cd"
    else if level == Str("heavy") then "#ffdede"
    else "#fff"
  }

  /** The three levels get three different colours. */
  lemma BackgroundColorDistinguishesLevels(a: Value, b: Value)
    requires ParseLevel(a) != ParseLevel(b)
    ensures BackgroundColor(a) != BackgroundColor(b)
  {
  }

  /** A value the level select can hold: null until chosen, then a select option. */
  predicate IsSelection(v: Value) {
    v == Null || (v.Str? && v.s in LevelOptions)
  }

  /** The component `MobileStoreSteps`: its four pieces of state and its handlers. */
  class SubmissionForm {
    var data: Document
    var storeName: string
    var categories: map<string, Value>
    var step: int

    ghost predicate Valid()
      reads this
    {
      && (step != 1 ==> storeName != "")
      && (forall c :: c in categories ==> IsSelection(categories[c]))
    }

    constructor ()
      ensures Valid()
      ensures data == map[] && storeName == "" && categories == map[] && step == 1
    {
      data := map[];
      storeName := "";
      categories := map[];
      step := 1;
    }

    /** `handleFetchData(store)`; `response` is the parsed body of `/api/data`, or None
        when the request or the parse failed (the handler then only alerts). */
    method HandleFetchData(store: string, response: Option<Document>)
      requires Valid()
      modifies this
      ensures Valid()
      ensures storeName == old(storeName) && step == old(step)
      ensures response.None? ==> data == old(data) && categories == old(categories)
      ensures response.Some? ==> data == response.value && categories == BlankCategories(response.value, store)
    {
      if response.Some? {
        data := response.value;
        var updated := InitCategories(data, store);
        categories := updated;
      }
    }

    /** The effect run when the `store` query parameter arrives: a present, non-empty
        value selects that store, loads the data and skips to step 2. */
    method OnStoreParameter(storeFromParams: Option<string>, response: Option<Document>)
      requires Valid()
      modifies this
      ensures Valid()
      ensures (storeFromParams.None? || storeFromParams.value == "") ==>
        data == old(data) && storeName == old(storeName) && categories == old(categories) && step == old(step)
      ensures storeFromParams.Some? && storeFromParams.value != "" ==>
        && storeName == storeFromParams.value
        && step == 2
        && (response.None? ==> data == old(data) && categories == old(categories))
        && (response.Some? ==> data == response.value && categories == BlankCategories(response.value, storeName))
    {
      if storeFromParams.Some? && storeFromParams.value != "" {
        storeName := storeFromParams.value;
        HandleFetchData(storeFromParams.value, response);
        step := 2;
      }
    }

    /** The store picker of step 1; it offers the placeholder and the keys of `data`. */
    method SelectStore(name: string)
      requires Valid() && step == 1
      requires name == "" || name in data
      modifies this
      ensures Valid()
      ensures storeName == name
      ensures data == old(data) && categories == old(categories) && step == old(step)
    {
      storeName := name;
    }

    /** `handleStoreNameSubmit`: without a store it only alerts; otherwise it loads the
        data and moves to step 2, whether or not the load succeeded. */
    method HandleStoreNameSubmit(response: Option<Document>)
      requires Valid() && step == 1
      modifies this
      ensures Valid()
      ensures storeName == old(storeName)
      ensures old(storeName) == "" ==> step == 1 && data == old(data) && categories == old(categories)
      ensures old(storeName) != "" ==>
        && step == 2
        && (response.None? ==> data == old(data) && categories == old(categories))
        && (response.Some? ==> data == response.value && categories == BlankCategories(response.value, storeName))
    {
      if storeName == "" {
        return;
      }
      HandleFetchData(storeName, response);
      step := 2;
    }

    /** `handleCategoryChange`, fired by the select of a displayed row. */
    method HandleCategoryChange(category: string, level: string)
      requires Valid() && step == 2
      requires category in VisibleRows(data, storeName) && level in LevelOptions
      modifies this
      ensures Valid()
      ensures categories == WithCategory(old(categories), category, Str(level))
      ensures data == old(data) && storeName == old(storeName) && step == old(step)
    {
      categories := WithCategory(categories, category, Str(level));
    }

    /** `handleSubmit`. `freshData` is the re-fetched document (None: the fetch failed and
        the handler stops); `saveOk` is whether `/api/save-stores` answered ok (false
        for an error status or a failed request). Returns the document sent, if any. */
    method HandleSubmit(timeStamp: string, freshData: Option<Document>, saveOk: bool) returns (sent: Option<Document>)
      requires Valid() && step == 2
      modifies this
      ensures Valid()
      ensures storeName == old(storeName) && categories == old(categories)
      ensures freshData.None? ==> sent == None && data == old(data) && step == 2
      ensures freshData.Some? ==> sent == Some(MergeSubmission(freshData.value, storeName, categories, timeStamp))
      ensures freshData.Some? && saveOk ==> data == sent.value && step == 3
      ensures !saveOk ==> data == old(data) && step == 2
      ensures sent.Some? ==> storeName != "" && storeName in sent.value && sent.value[storeName].Obj?
      ensures sent.Some? ==> var entry := sent.value[storeName].fields;
        && LastUpdated in entry && entry[LastUpdated] == Str(timeStamp)
        && forall c :: c in entry && c != LastUpdated ==> IsSelection(entry[c])
    {
      if freshData.None? {
        return None;
      }
      var updatedData := MergeSubmission(freshData.value, storeName, categories, timeStamp);
      sent := Some(updatedData);
      if saveOk {
        data := updatedData;
        step := 3;
      }
    }
  }

  /** Without a `store` query parameter nothing fills `data` before the first submit:
      at every press of "Next" the picker offers no store, so the only choice is the
      placeholder, and the form stays on step 1 however often "Next" is pressed and
      whatever a load would have returned. */
  method WithoutStoreParameter(responses: seq<Option<Document>>) returns (offered: set<string>, step: int)
    ensures offered == {}
    ensures step == 1
  {
    var form := new SubmissionForm();
    offered := {};
    var i := 0;
    while i < |responses|
      invariant 0 <= i <= |responses|
      invariant form.Valid() && form.step == 1 && form.data == map[] && form.storeName == ""
      invariant offered == {}
    {
      offered := offered + form.data.Keys;
      form.SelectStore("");
      form.HandleStoreNameSubmit(responses[i]);
      i := i + 1;
    }
    step := form.step;
  }
}
