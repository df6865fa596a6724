/** The editable grid: the document's stores are put in ascending order once on
    load, every cell offers a level select, and a selection replaces the cell by a
    copy with its `level` property set. Cells are coloured by that property. */
module GridEditor {
  import opened Json
  import opened Strings
  import opened OrderedObject
  import opened Levels

  /** The loaded document: store name to that store's entry, in enumeration order. */
  type Stores = Object<Value>

  /** The property read `entry[k]` on a store entry or a cell that is not null or
      undefined: an object's property, or the character a string holds at that index. */
  function Field(v: Value, k: string): Value {
    Get(Spread(v), k)
  }

  /** The load: `Object.keys(data).sort().reduce((obj, key) => { obj[key] = data[key]; return obj; }, {})`. */
  function SortStores(data: Stores): (sortedData: Stores)
    requires WellFormed(data)
    ensures WellFormed(sortedData)
    ensures sortedData.keys == SortStrings(data.keys) && Ascending(sortedData.keys)
    ensures forall s :: s in sortedData.keys <==> s in data.keys
    ensures sortedData.props == data.props
  {
    RebuildSorted(data);
    SortStringsSameElements(data.keys);
    Rebuild(data, SortStrings(data.keys))
  }

  /** The order stores are listed in after the load depends only on which stores
      there are, not on the order the stored JSON lists them in. */
  lemma SortStoresIgnoresOrder(d1: Stores, d2: Stores)
    requires WellFormed(d1) && WellFormed(d2) && d1.props == d2.props
    ensures SortStores(d1) == SortStores(d2)
  {
    DistinctSameElements(d1.keys, d2.keys);
    SortStringsPermutation(d1.keys, d2.keys);
  }

  /** The cell `{...cell, level: value}`. */
  function WithLevel(cell: Value, value: string): (updated: Value)
    ensures updated.Obj?
    ensures updated.fields.Keys == Spread(cell).Keys + {"level"}
    ensures updated.fields["level"] == Str(value)
    ensures forall k :: k in Spread(cell) && k != "level" ==> updated.fields[k] == Spread(cell)[k]
  {
    Obj(Spread(cell)["level" := Str(value)])
  }

  /** `handleLevelChange(storeName, category, value)`:
      `{...prev, [storeName]: {...prev[storeName], [category]: {...prev[storeName][category], level: value}}}`.
      None when `prev[storeName]` is null or undefined, where reading `[category]` of it
      throws: exactly when the store has no entry or a null one. */
  function LevelChange(prev: Stores, storeName: string, category: string, value: string): (r: Option<Stores>)
    ensures r.None? <==> storeName !in prev.props || prev.props[storeName] == Null || prev.props[storeName] == Undefined
  {
    var entry := Read(prev, storeName);
    if entry == Null || entry == Undefined then None
    else
      var record := Spread(entry);
      Some(Put(prev, storeName, Obj(record[category := WithLevel(Get(record, category), value)])))
  }

  /** The edited cell has `level` set to the selection and keeps every other
      property it had; the store gets the edited category if it lacked it. */
  lemma LevelChangeSetsLevel(prev: Stores, storeName: string, category: string, value: string)
    requires LevelChange(prev, storeName, category, value).Some?
    ensures var r := LevelChange(prev, storeName, category, value).value;
      var before := Field(prev.props[storeName], category);
      && storeName in r.props && r.props[storeName].Obj?
      && r.props[storeName].fields.Keys == Spread(prev.props[storeName]).Keys + {category}
      && var cell := r.props[storeName].fields[category];
      && cell.Obj?
      && cell.fields.Keys == Spread(before).Keys + {"level"}
      && cell.fields["level"] == Str(value)
      && (forall k :: k in Spread(before) && k != "level" ==> cell.fields[k] == Spread(before)[k])
  {
  }

  /** Every other category of the store and every other store are left as they were,
      and the stores keep their order. */
  lemma LevelChangeFrame(prev: Stores, storeName: string, category: string, value: string)
    requires WellFormed(prev)
    requires LevelChange(prev, storeName, category, value).Some?
    ensures var r := LevelChange(prev, storeName, category, value).value;
      && WellFormed(r)
      && r.keys == prev.keys
      && r.props.Keys == prev.props.Keys
      && (forall s :: s in prev.props && s != storeName ==> r.props[s] == prev.props[s])
      && (forall c :: c in Spread(prev.props[storeName]) && c != category ==>
            r.props[storeName].fields[c] == Spread(prev.props[storeName])[c])
  {
  }

  /** Choosing the same level twice is the same as choosing it once. */
  lemma LevelChangeIdempotent(prev: Stores, storeName: string, category: string, value: string)
    requires LevelChange(prev, storeName, category, value).Some?
    ensures var once := LevelChange(prev, storeName, category, value).value;
      LevelChange(once, storeName, category, value) == Some(once)
  {
    var once := LevelChange(prev, storeName, category, value).value;
    var record := Spread(prev.props[storeName]);
    var cell := WithLevel(Get(record, category), value);
    var next := record[category := cell];
    assert once.props[storeName] == Obj(next);
    assert WithLevel(Get(next, category), value) == cell by {
      SameMap(Spread(cell)["level" := Str(value)], cell.fields);
    }
    assert next[category := cell] == next;
    assert storeName in once.keys;
    assert once.props[storeName := Obj(next)] == once.props;
  }

  /** A cell stored as a plain level string, as the submission form writes it,
      becomes an object keyed by its character positions plus `level`: the string
      itself is not kept under any name but its characters. */
  lemma StringCellSpread(t: string, value: string)
    ensures var cell := WithLevel(Str(t), value);
      && cell.fields.Keys == IndexKeys(|t|) + {"level"}
      && "level" !in IndexKeys(|t|)
      && cell.fields["level"] == Str(value)
      && (forall i :: 0 <= i < |t| ==> Decimal(i) in cell.fields && cell.fields[Decimal(i)] == Str([t[i]]))
  {
    CharacterEntriesShape(t);
    IndexKeysDigits(|t|);
    assert !AllDigits("level") by {
      assert !('0' <= "level"[0] <= '9');
    }
    forall i | 0 <= i < |t| ensures Decimal(i) != "level" {
      assert AllDigits(Decimal(i));
    }
  }

  /** `stores[storeName][category].level`, the property every cell is coloured by
      (the cell being an object or a string; a null cell is not rendered here). */
  function CellLevel(cell: Value): (level: Value)
    ensures cell.Obj? && "level" in cell.fields ==> level == cell.fields["level"]
    ensures !(cell.Obj? && "level" in cell.fields) ==> level == Undefined
  {
    match cell
    case Obj(fields) => Get(fields, "level")
    case _ => Undefined
  }

  /** `stores[storeName][category].level || ''`, the value the select shows: the
      cell's `level` when that is truthy, the placeholder otherwise, so a cell with a
      level shows it. */
  function SelectValue(cell: Value): (shown: Value)
    ensures Truthy(CellLevel(cell)) ==> shown == CellLevel(cell)
    ensures !Truthy(CellLevel(cell)) ==> shown == Str("")
    ensures ParseLevel(CellLevel(cell)).Some? ==> shown == CellLevel(cell)
  {
    if Truthy(CellLevel(cell)) then CellLevel(cell) else Str("")
  }

  /** After a selection the edited cell shows and is coloured by the chosen level. */
  lemma SelectionShown(prev: Stores, storeName: string, category: string, value: string)
    requires LevelChange(prev, storeName, category, value).Some?
    ensures var cell := LevelChange(prev, storeName, category, value).value.props[storeName].fields[category];
      && CellLevel(cell) == Str(value)
      && SelectValue(cell) == Str(value)
      && BackgroundColor(CellLevel(cell)) == BackgroundColor(Str(value))
  {
  }

  /** A level stored as a plain string has no `level` property: such a cell shows the
      placeholder and the default colour whatever level it holds. */
  lemma StringCellShowsNoLevel(t: string)
    ensures SelectValue(Str(t)) == Str("")
    ensures BackgroundColor(CellLevel(Str(t))) == "#ffffff"
  {
  }

  /** `getBackgroundColor` of the editable grid. */
  function BackgroundColor(level: Value): (colour: string)
    ensures ParseLevel(level).None? <==> colour == "#ffffff"
  {
    if level == Str("light") then "#d4edda"
    else if level == Str("medium") then "#ffeeba"
    else if level == Str("heavy") then "#f8d7da"
    else "#ffffff"
  }

  /** The three levels get three different colours. */
  lemma BackgroundColorDistinguishesLevels(a: Value, b: Value)
    requires ParseLevel(a) != ParseLevel(b)
    ensures BackgroundColor(a) != BackgroundColor(b)
  {
  }
}
