# Store inventory tracker: a verified model of its document logic

The inventory tracker keeps one JSON document in a remote bin. The document maps each
store name to a record of categories: `apparel`, `shoes`, `jewelery`, `bags`,
`notes` and `lastUpdated`. Staff report a level (`light`, `medium` or `heavy`) for
each category of their store on a mobile form. Two grids show the whole document.

This project models the parts of the code that compute something:

- **Record schema**: the required fields, the user-settable fields, the validator and
  the blank record (`Fields`).
- **Bulk reset**: rebuilds every store as a blank record (`ResetInventory`).
- **Submission form**: a wizard (`Form`). Its pure parts come first:
  - the blank category map;
  - a single selection;
  - the merge that writes one store's entry into a freshly fetched document;
  - row visibility;
  - colours.

  Its state and handlers are the class `Form.SubmissionForm`.
- **Read-only grid** (`GridView`):
  - the load that sorts the stores, sorts each store's categories and moves
    `lastUpdated` last;
  - the cell styling;
  - the three-letter store codes.
- **Editable grid** (`GridEditor`): the store sort, the nested update that sets one
  cell's `level`, and the colours.

Shared modules:

- `Json` models parsed JSON values and a few JavaScript semantics:
  - truthiness;
  - missing properties reading as `undefined`;
  - the object spread `{...v}`, which for a string enumerates its character indices.
- `OrderedObject` models objects whose property order matters:
  - assigning an existing key keeps its position;
  - assigning a new key appends it;
  - `delete` removes a key;
  - an object literal that repeats a key takes the value of its last definition.
- `Strings` models the default `Array.prototype.sort` of strings as an insertion sort
  under character order. `SortedUnique` shows that every sorting algorithm gives the
  same result under that order.
- `Levels` models the three level strings.

Where the code works step by step, the model does too:

- the reset's nested loops;
- the blank-record `forEach`;
- the form's initialising `reduce`;
- the grid's reduce and `for…in` passes that reassign and delete properties.

Each of these is a method with loop invariants. It is proved equal to a function that
states the result, and the lemmas are about that function.

Fetches, saves, the clock and query parameters become parameters:

- a fetched document is an `Option` (None when the request or the parse failed);
- a save outcome is a `bool`;
- a timestamp is a `string`.

A `TypeError` that the code would throw becomes a None result. For example, the
editable grid throws on `prev[storeName][category]` when the store's entry is null.

The code computes no weekly cycle and does not classify a record as fresh or stale.
No function normalises a record when it is read; the reset is the only operation that
rewrites records to the schema.

Several properties follow from the code as written:

- **Wizard stuck without `?store=`.** Without a `store` query parameter, `data` is
  still `{}` on step 1. At every press of "Next" the store picker offers no store, so
  the form stays on step 1 however often "Next" is pressed
  (`Form.WithoutStoreParameter`).
- **Editable grid shows no levels.** The submission form stores each chosen level as
  a plain string. The editable grid reads `cell.level`, so every cell the form wrote
  as a level string shows the placeholder and the default colour
  (`GridEditor.StringCellShowsNoLevel`). Choosing a level turns such a cell into an
  object keyed by its character positions plus `level` (`GridEditor.StringCellSpread`).
  A category the user left unselected is written as `null`, and the reset writes
  `null` into every cell. Reading `.level` of a `null` cell throws, so the editable
  grid does not render such a document.
- **Second MINEOLA wins.** The store-code literal defines `MINEOLA` twice, and the
  second definition wins (`GridView.MineolaIsM79`).

## Model

| member | source | states |
|---|---|---|
| `Fields.RequiredFieldsDistinct` | constants/fields.js:2-9 | The six required field names are pairwise distinct and `lastUpdated` is the last of them. |
| `Fields.UserSettableFieldsOrder` | constants/fields.js:12-14 | The user-settable fields are the required fields in their order with only `lastUpdated` removed: one element fewer, `lastUpdated` absent, every other required field present. |
| `Fields.AllPresent` | constants/fields.js:33 | The `every` check holds exactly when each listed field is a key of the record. |
| `Fields.ValidateStoreData` | constants/fields.js:27-34 | Validation holds exactly when the value is an object having every required field as a key, null values included; a falsy or non-object value is invalid. |
| `Fields.ValidityIgnoresValues` | constants/fields.js:33 | Two records with the same keys are both valid or both invalid, whatever their values. |
| `Fields.ValidityMonotone` | constants/fields.js:33 | Adding any key with any value to a valid record keeps it valid. |
| `Fields.CreateEmptyStoreData` | constants/fields.js:37-43 | The `forEach` loop builds the record whose keys are exactly the required fields, each null. |
| `Fields.EmptyStoreDataIsValid` | constants/fields.js:27-43 | The blank record passes validation. |
| `ResetInventory.ResetDocument` | reset-inventory-data.js:37-46 | The reset document has the same store names as the input, and every store holds the blank record. |
| `ResetInventory.ResetInventoryData` | reset-inventory-data.js:37-46 | The nested loops, one over the stores and one over the required fields, build exactly ResetDocument of the input. |
| `ResetInventory.ResetRecordsAreBlank` | reset-inventory-data.js:40-45 | Each reset store has exactly the required keys, all null, so no old key survives, and it passes validation. |
| `ResetInventory.ResetIdempotent` | reset-inventory-data.js:37-46 | Resetting a reset document gives the same document. |
| `ResetInventory.ResetDependsOnlyOnStoreNames` | reset-inventory-data.js:37-46 | Documents with the same store names reset to the same document, whatever the stores held. |
| `ResetInventory.ResetOfEmpty` | reset-inventory-data.js:37-46 | An empty document resets to an empty document. |
| `Levels.ParseLevel` | pages/form.jsx:111-117 | A value is a level exactly when it is one of the strings `light`, `medium` or `heavy`, compared strictly. |
| `Levels.TimestampIsNoLevel` | pages/form.jsx:76-85 | A timestamp in `toISOString` form is never one of the level strings. |
| `Json.Spread` | pages/form.jsx:42-44 | The spread `{...v}`, and `Object.keys` of a value with an empty-object fallback, give an object's own properties, a string's index keys, and nothing for null or undefined. |
| `Json.CharacterEntriesShape` | pages/grid.tsx:36-38 | Spreading a string gives exactly the keys "0" … String(n-1), each holding the one-character string at that index. |
| `Json.IndexKeysDigits` | pages/grid.tsx:36-38 | Every index key of a spread string is a numeral. |
| `Form.StoredCategories` | pages/form.jsx:25 | The categories listed for a store are its stored record's keys, and none when the document lacks the store or holds it as null. |
| `Form.BlankCategories` | pages/form.jsx:42-50 | The starting category map has exactly the store's stored categories, each null. |
| `Form.InitCategories` | pages/form.jsx:42-50 | The initialising reduce yields the blank category map: an unknown store gives `{}`; a known store gives exactly its record's keys, `lastUpdated` included, each null. |
| `Form.BlankCategoriesAfterReset` | pages/form.jsx:42-50 | On a freshly reset document, every store's form starts from the blank record. |
| `Form.WithCategory` | pages/form.jsx:68-73 | A selection sets that category and leaves every other category unchanged, adding the category if it was absent. |
| `Form.ApplyChanges` | pages/form.jsx:68-73 | A run of selections adds only the categories it touches. Each touched category holds the level of its last selection, and every untouched category keeps its value. |
| `Form.WithTimeStamp` | pages/form.jsx:82-85 | The stamped map has the categories plus `lastUpdated`, set to the timestamp, with every other category unchanged. |
| `Form.MergeSubmission` | pages/form.jsx:87-90 | The saved document has the fresh document's stores plus the submitted one. Every other store is the fresh snapshot's entry, and the submitted store is the stamped categories. |
| `Form.SubmissionReplacesWholesale` | pages/form.jsx:82-90 | The submitted store's new entry is the same whatever the fresh document held: it replaces the old entry and is not merged with it. |
| `Form.RowDisplayed` | pages/form.jsx:175-188 | The `lastUpdated` row is never displayed. The `shoes` row is displayed exactly for stores in the shoes list. Every other row is displayed. |
| `Form.VisibleRows` | pages/form.jsx:174-188 | The rows a user can set are stored categories of the store whose row is displayed. |
| `Form.RowVisibility` | pages/form.jsx:174-188 | The `lastUpdated` row is never shown. The `shoes` row is shown exactly when the store is in the shoes list. Every other stored category is shown. |
| `Form.SubmissionKeepsKeys` | pages/form.jsx:42-90 | Selections on visible rows write back exactly the loaded record's keys plus `lastUpdated`, stamped. A row the user could not see goes back as null. |
| `Form.SubmissionKeepsSchema` | pages/form.jsx:75-90 | A store whose record passes validation still passes it after any submission. |
| `Form.BackgroundColor` | pages/form.jsx:110-121 | The colour is `#fff` exactly when the value is not a level. |
| `Form.BackgroundColorDistinguishesLevels` | pages/form.jsx:110-121 | Light, medium, heavy and "no level" get four different colours. |
| `Form.SubmissionForm.constructor` | pages/form.jsx:19-22 | The form starts on step 1 with empty data, no store and no categories. |
| `Form.SubmissionForm.HandleFetchData` | pages/form.jsx:36-56 | A successful load replaces `data` and resets the categories to the blank map of the store. A failed load changes nothing. |
| `Form.SubmissionForm.OnStoreParameter` | pages/form.jsx:28-34 | A non-empty `store` parameter selects that store, loads and goes to step 2. An absent or empty one changes nothing. |
| `Form.SubmissionForm.SelectStore` | pages/form.jsx:135-151 | The picker sets the store name to the placeholder or to one of the keys of `data`, and nothing else. |
| `Form.SubmissionForm.HandleStoreNameSubmit` | pages/form.jsx:58-66 | With no store, it stays on step 1 and loads nothing. Otherwise it loads and moves to step 2, whether or not the load succeeded. |
| `Form.SubmissionForm.HandleCategoryChange` | pages/form.jsx:68-73 | On step 2, the categories become WithCategory of the old ones, and the rest of the state is unchanged. |
| `Form.SubmissionForm.HandleSubmit` | pages/form.jsx:75-108 | A failed fresh fetch sends nothing. Otherwise it sends MergeSubmission of the fresh document. Only an ok save stores the document and reaches step 3; a failed save stays on step 2. A sent document always names a non-empty store. Its entry has `lastUpdated` set to the timestamp, and every other value is null or one of the select's options. |
| `Form.WithoutStoreParameter` | pages/form.jsx:19-66 | Without a `store` parameter, the picker offers no store at any press of "Next", and any number of presses leaves the form on step 1. |
| `OrderedObject.Put` | pages/grid.jsx:52 | Assigning an existing key keeps the key order, a new key is appended, and only that property's value changes. |
| `OrderedObject.Delete` | pages/grid.jsx:69 | `delete` removes the key from the key order and from the properties, and nothing else. |
| `OrderedObject.Rebuild` | pages/grid.jsx:51-54 | The reduce builds a well-formed object holding each listed key with the source's value, in list order when the list has no repeats. |
| `OrderedObject.SortedByKey` | pages/grid.jsx:58-63 | The key-sorted copy of a record has the same properties and values, with its keys in ascending order. |
| `OrderedObject.RebuildSorted` | pages/grid.tsx:15-19 | Sort-then-reduce gives exactly the key-sorted copy: same properties and values, keys in ascending order. |
| `OrderedObject.SortObject` | pages/grid.jsx:50-54 | The accumulator loop of the reduce builds the key-sorted copy. |
| `OrderedObject.ObjectLiteral` | pages/grid.jsx:3-21 | A literal with repeated keys gives each key the value of its last definition. |
| `Strings.Without` | constants/fields.js:12-14 | The filter removes exactly the given string and keeps every other element. |
| `Strings.WithoutAt` | constants/fields.js:12-14 | Filtering out an element that occurs once keeps the other elements in their original order. |
| `Strings.SortStrings` | pages/grid.jsx:50 | The sort returns the same strings, each as often as in the input. |
| `Strings.SortStringsAscending` | pages/grid.jsx:50 | The sort output is sorted, and strictly ascending when the input has no repeats. |
| `Strings.SortStringsSameElements` | pages/grid.jsx:50 | Sorting keeps exactly the same strings. |
| `Strings.SortedUnique` | pages/grid.jsx:50 | Two sorted arrangements of the same strings are equal, so the result does not depend on the sorting algorithm. |
| `Strings.SortStringsPermutation` | pages/grid.jsx:50 | Rearranging the input does not change the sorted output. |
| `Strings.ToUpperCase` | pages/grid.jsx:143 | Upper-casing keeps the length and maps `a`–`z` to `A`–`Z`, leaving every other character unchanged. |
| `GridView.MoveLastUpdatedLast` | pages/grid.jsx:67-71 | Read, delete and re-assign make `lastUpdated` the last key and keep the other keys in order. Only a missing `lastUpdated` is added, as undefined. |
| `GridView.DisplayRow` | pages/grid.jsx:57-71 | A displayed row has its categories in ascending order, then `lastUpdated`, with the same keys and values (`lastUpdated` undefined if it was missing). |
| `GridView.DisplayRowKeysDependOnKeySet` | pages/grid.jsx:57-64 | The order of a row's cells depends only on which categories the record has. |
| `GridView.Reordered` | pages/grid.jsx:50-71 | The load fails exactly when a store's entry is null. Otherwise it lists every store once, in ascending order. |
| `GridView.ReorderedRows` | pages/grid.jsx:57-71 | Every store's row shows all its categories in ascending order with their stored values, then `lastUpdated`. |
| `GridView.ReorderedFrom` | pages/grid.jsx:50-71 | Sorted store names, together with each store's displayed row, are exactly the reordered document. |
| `GridView.ThreePasses` | pages/grid.jsx:50-71 | The reduce, the categories pass and the `lastUpdated` pass together produce the reordered document. |
| `GridView.SortEachRecord` | pages/grid.jsx:57-64 | The first `for…in` pass replaces each record by its key-sorted copy and keeps the store order. It fails exactly when some entry is null. |
| `GridView.MoveEachLastUpdated` | pages/grid.jsx:67-71 | The second pass moves `lastUpdated` last in every record and keeps the store order. |
| `GridView.ReorderForGrid` | pages/grid.jsx:50-71 | The effect's three passes compute exactly the reordered document, or fail. |
| `GridView.Header` | pages/grid.jsx:122 | The header is absent (the page throws) exactly when there are no stores. Otherwise it is the first store's keys, so it matches every store with those keys. |
| `GridView.ColumnsLineUp` | pages/grid.jsx:122-145 | When all records have the same categories, every row's cells line up with the header. |
| `GridView.StoresGrid.constructor` | pages/grid.jsx:24-25 | The grid starts empty and loading. |
| `GridView.StoresGrid.FetchData` | pages/grid.jsx:42-82 | A successful load shows the reordered document and stops loading. A failed request or a null entry leaves the page loading. |
| `GridView.CellTextColor` | pages/grid.jsx:28-40 | The text is black exactly for a level and `#b3b3b3` exactly otherwise. |
| `GridView.BackgroundColor` | pages/grid.jsx:86-97 | The background is `#ffffff` exactly when the value is not a level. |
| `GridView.BackgroundColorDistinguishesLevels` | pages/grid.jsx:86-97 | Light, medium, heavy and "no level" get four different backgrounds. |
| `GridView.FontWeight` | pages/grid.jsx:188-191 | The weight is `600` exactly for `light`. |
| `GridView.RenderCell` | pages/grid.jsx:145-198 | A category cell shows its name. A `lastUpdated` cell shows a date exactly when its value is truthy. The colours come from the value. |
| `GridView.LastUpdatedCellUnstyled` | pages/grid.jsx:146-177 | A `lastUpdated` cell (a timestamp, null or undefined) always gets grey text, normal weight and a white background. |
| `GridView.StoreIdToThreeLetterMap` | pages/grid.jsx:3-21 | The store-code table maps each name to the code of its last definition in the literal. |
| `GridView.ThreeLetterCode` | pages/grid.jsx:143 | The code is the last definition in the literal for the upper-cased store name, if there is one. |
| `GridView.MineolaUpperCase` | pages/grid.jsx:143 | "Mineola" upper-cases to "MINEOLA". |
| `GridView.MineolaLastDefinition` | pages/grid.jsx:3-21 | The last definition of MINEOLA is `M79`. |
| `GridView.MineolaIsM79` | pages/grid.jsx:16 | The store code for "Mineola" is `M79`, not `M80`. |
| `GridEditor.SortStores` | pages/grid.tsx:15-19 | The loaded document has the same stores and values, with keys in ascending order. |
| `GridEditor.SortStoresIgnoresOrder` | pages/grid.tsx:15-19 | Documents with the same stores and values load identically, whatever their order. |
| `GridEditor.WithLevel` | pages/grid.tsx:37-40 | The new cell keeps every property of the old one except `level`, which becomes the selection. |
| `GridEditor.LevelChange` | pages/grid.tsx:32-43 | The update throws, giving None, exactly when the store's entry is missing or null. |
| `GridEditor.LevelChangeSetsLevel` | pages/grid.tsx:35-40 | The edited cell's `level` is the selection, and all its other properties are kept. The store gains the category if it lacked it. |
| `GridEditor.LevelChangeFrame` | pages/grid.tsx:33-42 | Every other store and every other category of the store are unchanged, and the store order is kept. |
| `GridEditor.LevelChangeIdempotent` | pages/grid.tsx:32-43 | Applying the same selection twice equals applying it once. |
| `GridEditor.StringCellSpread` | pages/grid.tsx:37-40 | A plain-string cell becomes an object with its character positions plus `level`. |
| `GridEditor.CellLevel` | pages/grid.tsx:128 | A cell's level is its `level` property, and undefined when it is not an object with one. |
| `GridEditor.SelectValue` | pages/grid.tsx:132 | The select shows the cell's level when that is truthy, so every level is shown, and the placeholder otherwise. |
| `GridEditor.SelectionShown` | pages/grid.tsx:128-139 | After a selection, the cell's `level`, the select's value and the colour all follow the chosen level. |
| `GridEditor.StringCellShowsNoLevel` | pages/grid.tsx:128-132 | A cell holding a plain level string shows the placeholder and the default colour. |
| `GridEditor.BackgroundColor` | pages/grid.tsx:61-72 | The colour is `#ffffff` exactly when the value is not a level. |
| `GridEditor.BackgroundColorDistinguishesLevels` | pages/grid.tsx:61-72 | Light, medium, heavy and "no level" get four different colours. |

## Left out

**Not modelled at all**

- Network access is not modelled. This covers `pages/api/data.js`, `pages/api/save-stores.js` and the remote fetch and write in the reset script. These are HTTP calls to the bin and carry its credentials. Their outcomes are parameters here. The save endpoint's second `res.status(500)` after a successful save (save-stores.js) is such transport plumbing.
- The text-message senders and the e-mail snapshot (`pages/api/send-text.js`, `send-wednesday-texts.js`, `send-email.js`) are not part of this model. They wrap external clients and a headless browser.
- The grid's date text (`toLocaleString` month and day) depends on locale and time zone. It is modelled as `DateOf(value)`.
- React rendering, styles other than the colours and font weight, and `alert` and `console` output are left out.
- The editable grid's save button, `saveChanges` in grid.tsx, performs only a POST and an alert, so it is left out.

**Timing and concurrency**

- Concurrency is left out. `HandleSubmit` treats the fresh fetch and the save as one step. Another submitter saving between them would be overwritten.
- The query-parameter effect sets step 2 before its fetch completes. `OnStoreParameter` models the completed sequence only.
- In `HandleSubmit`, a failed fresh fetch is modelled as `freshData == None`. In the code it throws outside the `try`, so the handler stops without an alert; the state is the same.

**JavaScript semantics simplified**

- Only null, undefined, strings and objects are JSON values. Numbers, booleans and arrays do not occur in the document the code reads.
- The read-only grid types every store entry as a record or null. A non-object entry, such as a string, is not modelled there.
- `Strings.ToUpperCase`: only `a`–`z` are upper-cased. JavaScript's full Unicode case mapping is not modelled.
- `Json.CharacterEntries`: a string has one index key per character here. JavaScript gives one per UTF-16 code unit, so a character outside the Basic Multilingual Plane yields two keys there, each holding a lone surrogate.
- `Json.CharacterEntriesShape`: states the keys and values per character, not per UTF-16 code unit, for the reason above.
- `Json.Spread`: the index keys of a spread string follow the same per-character counting.
- `GridEditor.StringCellSpread`: the positions of a spread string cell are counted per character, for the same reason.
- `Strings.SortStrings`: characters compare by their code. For text outside the Basic Multilingual Plane, that order differs from JavaScript's UTF-16 code-unit order.
- JavaScript enumerates integer-like keys (such as "10") first, in numeric order, before all other keys. The ordered objects here keep plain insertion order, so that rule is not modelled.
- `GridEditor.LevelChange`: the categories inside one store record are an unordered map. The order of cells within a row of the editable grid is not tracked across an update.
- `GridEditor.LevelChange`: a string store entry's `length` property is not modelled.
- `GridEditor.CellLevel`: reading `.level` of a null cell throws in the page. It is modelled as undefined.
- A failure while parsing a response body is not told apart from a failed request: both are a None response.
- A `store` query parameter given more than once arrives as an array. In the model it is a plain optional string.

**Outside the code**

- The code schedules no reminders, computes no weekly cycle and classifies no record as fresh or stale, so the model has none of these.
