/** The read-only inventory grid: the document is loaded once, its stores are
    put in ascending order, each store's categories too, and `lastUpdated` is
    moved to the end of every row; cells are coloured by level and rows are
    labelled with a three-letter store code. */
module GridView {
  import opened Json
  import opened Strings
  import opened OrderedObject
  import opened Levels
  import Fields

  /** A store record with its properties in enumeration order. */
  type Row = Object<Value>

  /** A store entry of the fetched document: a record, or JSON `null` (None). */
  type Entry = Option<Row>

  /** The fetched document, stores in the order the JSON text lists them. */
  type StoreDocument = Object<Entry>

  /** Every record in the document lists each of its properties once. */
  predicate RowsWellFormed(data: StoreDocument) {
    forall s :: s in data.props && data.props[s].Some? ==> WellFormed(data.props[s].value)
  }

  /** Read `lastUpdated`, delete it, assign it again: `lastUpdated` becomes the last
      property, the others keep their order, and only a missing `lastUpdated` is
      added, as undefined. */
  function MoveLastUpdatedLast(row: Row): (r: Row)
    ensures WellFormed(row) ==> WellFormed(r)
    ensures |r.keys| > 0 && r.keys[|r.keys| - 1] == Fields.LastUpdated
    ensures r.keys[..|r.keys| - 1] == Without(row.keys, Fields.LastUpdated)
    ensures r.props == row.props[Fields.LastUpdated := Read(row, Fields.LastUpdated)]
  {
    var moved := Put(Delete(row, Fields.LastUpdated), Fields.LastUpdated, Read(row, Fields.LastUpdated));
    assert moved.keys == Without(row.keys, Fields.LastUpdated) + [Fields.LastUpdated];
    moved
  }

  /** A record as the grid shows it: its categories in ascending order with their
      stored values, then `lastUpdated`, undefined when the record has none. */
  function DisplayRow(row: Row): (r: Row)
    requires WellFormed(row)
    ensures WellFormed(r)
    ensures |r.keys| > 0 && r.keys[|r.keys| - 1] == Fields.LastUpdated
    ensures Ascending(r.keys[..|r.keys| - 1])
    ensures forall k :: k in r.keys <==> k in row.keys || k == Fields.LastUpdated
    ensures forall k :: k in row.props ==> k in r.props && r.props[k] == row.props[k]
    ensures Fields.LastUpdated !in row.props ==> r.props[Fields.LastUpdated] == Undefined
  {
    var sorted := SortedByKey(row);
    SortStringsSameElements(row.keys);
    WithoutSubsequence(sorted.keys, Fields.LastUpdated);
    MoveLastUpdatedLast(sorted)
  }

  /** Which categories a row shows, and in which order, depends only on which
      categories the record has, not on the order the stored JSON lists them in. */
  lemma DisplayRowKeysDependOnKeySet(r1: Row, r2: Row)
    requires WellFormed(r1) && WellFormed(r2)
    requires r1.props.Keys == r2.props.Keys
    ensures DisplayRow(r1).keys == DisplayRow(r2).keys
  {
    DistinctSameElements(r1.keys, r2.keys);
    SortStringsPermutation(r1.keys, r2.keys);
    var d1, d2 := DisplayRow(r1), DisplayRow(r2);
    assert d1.keys == d1.keys[..|d1.keys| - 1] + [Fields.LastUpdated];
    assert d2.keys == d2.keys[..|d2.keys| - 1] + [Fields.LastUpdated];
  }

  /** No store entry is `null`. */
  predicate AllRecords(data: StoreDocument) {
    forall s :: s in data.props ==> data.props[s].Some?
  }

  /** What the loading effect leaves in `stores`: every store of the document once,
      in ascending order, each shown by DisplayRow; None when a store's entry is
      `null`, on which `Object.keys` throws and the load is abandoned. */
  function Reordered(data: StoreDocument): (r: Option<Object<Row>>)
    requires WellFormed(data) && RowsWellFormed(data)
    ensures r.None? <==> exists s :: s in data.props && data.props[s] == None
    ensures r.Some? ==>
      && WellFormed(r.value)
      && r.value.keys == SortStrings(data.keys)
      && Ascending(r.value.keys)
      && r.value.props.Keys == data.props.Keys
  {
    SortStringsSameElements(data.keys);
    SortStringsAscending(data.keys);
    if !AllRecords(data) then None
    else Some(Object(SortStrings(data.keys), map s | s in data.props :: DisplayRow(data.props[s].value)))
  }

  /** Each store's row shows all of its record's categories in ascending order with
      their stored values, then `lastUpdated`, undefined if the record had none. */
  lemma ReorderedRows(data: StoreDocument, s: string)
    requires WellFormed(data) && RowsWellFormed(data)
    requires Reordered(data).Some? && s in data.props
    ensures data.props[s].Some? && s in Reordered(data).value.props
    ensures var record, row := data.props[s].value, Reordered(data).value.props[s];
      && WellFormed(row)
      && |row.keys| > 0 && row.keys[|row.keys| - 1] == Fields.LastUpdated
      && Ascending(row.keys[..|row.keys| - 1])
      && (forall k :: k in row.keys <==> k in record.keys || k == Fields.LastUpdated)
      && (forall k :: k in record.props ==> k in row.props && row.props[k] == record.props[k])
      && (Fields.LastUpdated !in record.props ==> row.props[Fields.LastUpdated] == Undefined)
  {
  }

  /** The effect's reordering as the source performs it: a reduce into a fresh
      object, then one pass over the stores that replaces each record by its
      key-sorted copy, then one that moves `lastUpdated` to the end. */
  method ReorderForGrid(data: StoreDocument) returns (r: Option<Object<Row>>)
    requires WellFormed(data) && RowsWellFormed(data)
    ensures r == Reordered(data)
  {
    var sortedData := SortObject(data);
    var categoriesSorted := SortEachRecord(sortedData);
    if categoriesSorted.None? {
      return None;
    }
    var reordered := MoveEachLastUpdated(categoriesSorted.value);
    var rows := Records(reordered.props);
    assert AllRecords(data);
    ThreePasses(data, categoriesSorted.value, reordered, rows);
    r := Some(Object(reordered.keys, rows));
  }

  /** The records of a document none of whose entries is `null`. */
  function Records(entries: map<string, Entry>): (rows: map<string, Row>)
    requires forall s :: s in entries ==> entries[s].Some?
    ensures rows.Keys == entries.Keys
    ensures forall s :: s in entries ==> entries[s] == Some(rows[s])
  {
    map s | s in entries :: entries[s].value
  }

  /** What the three passes leave is what Reordered describes. */
  lemma ThreePasses(data: StoreDocument, categoriesSorted: StoreDocument, reordered: StoreDocument, rows: map<string, Row>)
    requires WellFormed(data) && RowsWellFormed(data) && AllRecords(data)
    requires categoriesSorted.props.Keys == data.props.Keys
    requires forall s :: s in data.props ==> categoriesSorted.props[s] == Some(SortedByKey(data.props[s].value))
    requires reordered.keys == SortStrings(data.keys) && reordered.props.Keys == data.props.Keys
    requires forall s :: s in data.props ==> reordered.props[s] == Some(MoveLastUpdatedLast(categoriesSorted.props[s].value))
    requires rows.Keys == data.props.Keys
    requires forall s :: s in data.props ==> reordered.props[s] == Some(rows[s])
    ensures Reordered(data) == Some(Object(reordered.keys, rows))
  {
    forall s | s in rows ensures rows[s] == DisplayRow(data.props[s].value) {
    }
    ReorderedFrom(data, reordered.keys, rows);
  }

  /** Sorted store names beside each store's displayed row are what Reordered gives. */
  lemma ReorderedFrom(data: StoreDocument, keys: seq<string>, rows: map<string, Row>)
    requires WellFormed(data) && RowsWellFormed(data) && AllRecords(data)
    requires keys == SortStrings(data.keys) && rows.Keys == data.props.Keys
    requires forall s :: s in rows ==> rows[s] == DisplayRow(data.props[s].value)
    ensures Reordered(data) == Some(Object(keys, rows))
  {
    var displayed := map s | s in data.props :: DisplayRow(data.props[s].value);
    SameMap(displayed, rows);
  }

  /** `cur` is `d` with the records of its first `i` stores key-sorted. */
  predicate SortedUpTo(cur: StoreDocument, d: StoreDocument, i: nat)
    requires WellFormed(d) && RowsWellFormed(d)
  {
    && i <= |d.keys|
    && cur.keys == d.keys && cur.props.Keys == d.props.Keys
    && (forall j :: 0 <= j < i ==> d.props[d.keys[j]].Some? && cur.props[d.keys[j]] == Some(SortedByKey(d.props[d.keys[j]].value)))
    && (forall j :: i <= j < |d.keys| ==> cur.props[d.keys[j]] == d.props[d.keys[j]])
  }

  lemma SortStep(cur: StoreDocument, d: StoreDocument, i: nat, row: Row)
    requires WellFormed(d) && RowsWellFormed(d)
    requires SortedUpTo(cur, d, i) && i < |d.keys| && cur.props[d.keys[i]] == Some(row)
    ensures SortedUpTo(Put(cur, d.keys[i], Some(SortedByKey(row))), d, i + 1)
  {
    var next := Put(cur, d.keys[i], Some(SortedByKey(row)));
    forall j | 0 <= j < |d.keys| && j != i ensures next.props[d.keys[j]] == cur.props[d.keys[j]] {
      assert d.keys[j] != d.keys[i];
    }
  }

  /** `for (storeName in sortedData) sortedData[storeName] = <its key-sorted copy>`;
      None when an entry is `null`. */
  method SortEachRecord(d: StoreDocument) returns (r: Option<StoreDocument>)
    requires WellFormed(d) && RowsWellFormed(d)
    ensures r.None? <==> exists s :: s in d.props && d.props[s].None?
    ensures r.Some? ==> r.value.keys == d.keys && r.value.props.Keys == d.props.Keys
    ensures r.Some? ==> forall s :: s in d.props ==> r.value.props[s] == Some(SortedByKey(d.props[s].value))
  {
    var keys := d.keys;
    var sortedData := d;
    var i := 0;
    while i < |keys|
      invariant SortedUpTo(sortedData, d, i)
    {
      var storeName := keys[i];
      var entry := sortedData.props[storeName];
      if entry.None? {
        return None;
      }
      SortStep(sortedData, d, i, entry.value);
      var sortedRow := SortObject(entry.value);
      sortedData := Put(sortedData, storeName, Some(sortedRow));
      i := i + 1;
    }
    forall s | s in d.props ensures d.props[s].Some? && sortedData.props[s] == Some(SortedByKey(d.props[s].value)) {
      var j :| 0 <= j < |keys| && keys[j] == s;
    }
    r := Some(sortedData);
  }

  /** `cur` is `d` with `lastUpdated` moved last in the records of its first `i` stores. */
  predicate MovedUpTo(cur: StoreDocument, d: StoreDocument, i: nat)
    requires WellFormed(d) && AllRecords(d)
  {
    && i <= |d.keys|
    && cur.keys == d.keys && cur.props.Keys == d.props.Keys
    && (forall j :: 0 <= j < i ==> cur.props[d.keys[j]] == Some(MoveLastUpdatedLast(d.props[d.keys[j]].value)))
    && (forall j :: i <= j < |d.keys| ==> cur.props[d.keys[j]] == d.props[d.keys[j]])
  }

  lemma MoveStep(cur: StoreDocument, d: StoreDocument, i: nat, row: Row)
    requires WellFormed(d) && AllRecords(d)
    requires MovedUpTo(cur, d, i) && i < |d.keys| && cur.props[d.keys[i]] == Some(row)
    ensures MovedUpTo(Put(cur, d.keys[i], Some(MoveLastUpdatedLast(row))), d, i + 1)
  {
    var next := Put(cur, d.keys[i], Some(MoveLastUpdatedLast(row)));
    forall j | 0 <= j < |d.keys| && j != i ensures next.props[d.keys[j]] == cur.props[d.keys[j]] {
      assert d.keys[j] != d.keys[i];
    }
  }

  /** `for (storeName in sortedData)`: read `lastUpdated`, delete it, assign it again. */
  method MoveEachLastUpdated(d: StoreDocument) returns (r: StoreDocument)
    requires WellFormed(d) && AllRecords(d)
    ensures r.keys == d.keys && r.props.Keys == d.props.Keys
    ensures forall s :: s in d.props ==> r.props[s] == Some(MoveLastUpdatedLast(d.props[s].value))
  {
    var keys := d.keys;
    r := d;
    var i := 0;
    while i < |keys|
      invariant MovedUpTo(r, d, i)
    {
      var storeName := keys[i];
      var row := r.props[storeName].value;
      MoveStep(r, d, i, row);
      var lastUpdated := Read(row, Fields.LastUpdated);
      row := Delete(row, Fields.LastUpdated);
      row := Put(row, Fields.LastUpdated, lastUpdated);
      r := Put(r, storeName, Some(row));
      i := i + 1;
    }
    forall s | s in d.props ensures r.props[s] == Some(MoveLastUpdatedLast(d.props[s].value)) {
      var j :| 0 <= j < |keys| && keys[j] == s;
    }
  }

  /** The column headings: the categories of the first store. None when there are no
      stores, where the heading row's `Object.keys(undefined)` throws. */
  function Header(stores: Object<Row>): (h: Option<seq<string>>)
    requires WellFormed(stores)
    ensures h.None? <==> stores.keys == []
    ensures h.Some? ==> h.value == stores.props[stores.keys[0]].keys
    ensures h.Some? ==> forall s :: s in stores.props && stores.props[s].keys == stores.props[stores.keys[0]].keys ==> stores.props[s].keys == h.value
  {
    if stores.keys == [] then None else Some(stores.props[stores.keys[0]].keys)
  }

  /** When every store record has the same categories, every row of the grid
      lists its cells under the headings in the same order, `lastUpdated` last. */
  lemma {:induction false} ColumnsLineUp(data: StoreDocument, s: string)
    requires WellFormed(data) && RowsWellFormed(data)
    requires forall a, b :: a in data.props && b in data.props && data.props[a].Some? && data.props[b].Some? ==>
      data.props[a].value.props.Keys == data.props[b].value.props.Keys
    requires Reordered(data).Some? && s in data.props
    ensures WellFormed(Reordered(data).value) && s in Reordered(data).value.props
    ensures Header(Reordered(data).value) == Some(Reordered(data).value.props[s].keys)
  {
    var stores := Reordered(data).value;
    var first := stores.keys[0];
    assert first in stores.props;
    DisplayRowKeysDependOnKeySet(data.props[s].value, data.props[first].value);
  }

  /** The page component: what it has loaded and whether it is still loading. */
  class StoresGrid {
    var stores: Object<Row>
    var loading: bool

    constructor ()
      ensures stores == Empty() && loading
    {
      stores := Empty();
      loading := true;
    }

    /** The loading effect. `response` is the parsed document, or None when the
        request failed, answered with an error status or did not parse; the
        effect then only alerts and the page keeps showing "Loading...". */
    method FetchData(response: Option<StoreDocument>)
      requires response.Some? ==> WellFormed(response.value) && RowsWellFormed(response.value)
      modifies this
      ensures response.Some? && Reordered(response.value).Some? ==>
        stores == Reordered(response.value).value && !loading
      ensures response.None? || Reordered(response.value).None? ==>
        stores == old(stores) && loading == old(loading)
    {
      if response.Some? {
        var sortedData := ReorderForGrid(response.value);
        if sortedData.Some? {
          stores := sortedData.value;
          loading := false;
        }
      }
    }
  }

  /** `getCellTextColor`: black for a level, grey for anything else. */
  function CellTextColor(level: Value): (colour: string)
    ensures ParseLevel(level).Some? <==> colour == "black"
    ensures ParseLevel(level).None? <==> colour == "#b3b3b3"
  {
    if level == Str("light") || level == Str("medium") || level == Str("heavy") then "black"
    else "#b3b3b3"
  }

  /** The grid's `getBackgroundColor`. */
  function BackgroundColor(level: Value): (colour: string)
    ensures ParseLevel(level).None? <==> colour == "#ffffff"
  {
    if level == Str("light") then "#5cb85c"
    else if level == Str("medium") then "#e2e3e5"
    else if level == Str("heavy") then "#f8d7da"
    else "#ffffff"
  }

  /** The three levels get three different background colours. */
  lemma BackgroundColorDistinguishesLevels(a: Value, b: Value)
    requires ParseLevel(a) != ParseLevel(b)
    ensures BackgroundColor(a) != BackgroundColor(b)
  {
  }

  /** A cell's font weight: bold only for "light". */
  function FontWeight(level: Value): (weight: string)
    ensures weight == "600" <==> level == Str("light")
  {
    if level == Str("light") then "600" else "normal"
  }

  /** What a cell shows: its category name, or, in the `lastUpdated` column, the
      date of a truthy value and nothing for a falsy one. */
  datatype CellText = Label(category: string) | DateOf(timestamp: Value) | NoDate

  datatype Cell = Cell(text: CellText, colour: string, fontWeight: string, background: string)

  function RenderCell(category: string, value: Value): (c: Cell)
    ensures c.text.Label? <==> category != Fields.LastUpdated
    ensures c.text.Label? ==> c.text.category == category
    ensures c.text.DateOf? <==> category == Fields.LastUpdated && Truthy(value)
    ensures c.colour == CellTextColor(value) && c.fontWeight == FontWeight(value) && c.background == BackgroundColor(value)
  {
    var text := if category != Fields.LastUpdated then Label(category)
                else if Truthy(value) then DateOf(value) else NoDate;
    Cell(text, CellTextColor(value), FontWeight(value), BackgroundColor(value))
  }

  /** A `lastUpdated` cell holds a timestamp, or nothing when the store was never
      submitted (null after a reset, undefined when the record lacked the field):
      never a level, so it always gets the default, level-less styling. */
  lemma LastUpdatedCellUnstyled(value: Value)
    requires value == Null || value == Undefined || (value.Str? && IsIsoTimestamp(value.s))
    ensures RenderCell(Fields.LastUpdated, value) == Cell(if value.Str? then DateOf(value) else NoDate, "#b3b3b3", "normal", "#ffffff")
  {
    if value.Str? {
      TimestampIsNoLevel(value.s);
    }
  }

  /** The definitions of `storeIdToThreeLetterMap`, in source order: MINEOLA is defined twice. */
  const AbbreviationDefinitions: seq<(string, string)> := [
    ("MINEOLA", "M80"), ("HUNTINGTON", "HUN"), ("EASTCHESTER", "EAS"), ("RIDGEWOOD", "RIG"),
    ("SKOKIE", "SKO"), ("WHIPPANY", "WHP"), ("STAMFORD", "STA"), ("ATLANTA", "ATL"),
    ("BOCA RATON", "BOC"), ("AVENTURA", "AVN"), ("BROOKLYN", "BKN"), ("MARLBORO", "MLB"),
    ("MINEOLA", "M79"), ("FOREST HILLS", "FHL"), ("MANHATTAN", "MAN"), ("WEST BABYLON", "WBA"),
    ("NEWTON", "NWT")
  ]

  /** The store-code table as the object literal evaluates: each name maps to the
      code of its last definition. */
  function StoreIdToThreeLetterMap(): (codes: Object<string>)
    ensures WellFormed(codes)
    ensures forall name :: Lookup(codes, name) == LastDefinition(AbbreviationDefinitions, name)
  {
    ObjectLiteral(AbbreviationDefinitions)
  }

  /** `storeIdToThreeLetterMap[storeName.toUpperCase()]`; None renders an empty cell. */
  function ThreeLetterCode(storeName: string): (code: Option<string>)
    ensures code == LastDefinition(AbbreviationDefinitions, ToUpperCase(storeName))
  {
    Lookup(StoreIdToThreeLetterMap(), ToUpperCase(storeName))
  }

  lemma MineolaUpperCase()
    ensures ToUpperCase("Mineola") == "MINEOLA"
  {
    var u := ToUpperCase("Mineola");
    assert u[0] == 'M' && u[1] == 'I' && u[2] == 'N' && u[3] == 'E' && u[4] == 'O' && u[5] == 'L' && u[6] == 'A';
  }

  /** The second MINEOLA definition is the last one. */
  lemma MineolaLastDefinition()
    ensures LastDefinition(AbbreviationDefinitions, "MINEOLA") == Some("M79")
  {
    var defs := AbbreviationDefinitions;
    forall j | 13 <= j < |defs| ensures defs[j].0 != "MINEOLA" {
      assert j == 13 || j == 14 || j == 15 || j == 16;
      assert |defs[j].0| != |"MINEOLA"|;
    }
    LastDefinitionSkip(defs, "MINEOLA", 13);
    assert defs[..13][12] == ("MINEOLA", "M79");
  }

  /** The second MINEOLA definition wins for the store as the form names it. */
  lemma MineolaIsM79()
    ensures ThreeLetterCode("Mineola") == Some("M79")
  {
    MineolaUpperCase();
    MineolaLastDefinition();
  }
}
