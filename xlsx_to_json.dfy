/**
 * Turning one spreadsheet sheet into catalogue items: the cell normaliser,
 * the header detection that maps standard field keys onto the sheet's own
 * column headers, and the row-by-row conversion.
 */
module XlsxToJson {
  import opened Wrappers
  import opened Text
  import opened Values

  // ---------------------------------------------------------------------
  // Cell normaliser

  /** The `field_type` argument; any other string selects the string branch. */
  datatype FieldType = StringType | BooleanType | DateType | FloatType | IntType

  /**
   * The date branch (`strptime`/`strftime` over four formats) and the
   * `float()`/`int()` conversions are library parsing; the model takes them
   * as given functions, applied only to cells that are not missing.
   */
  datatype Parsers = Parsers(toDate: Value -> Value, toFloat: Value -> Value, toInt: Value -> Value)

  const TrueWords: seq<string> := ["yes", "y", "true", "1"]
  const FalseWords: seq<string> := ["no", "n", "false", "0"]

  /** `pd.isna(value) or value is None or value == ''`. */
  predicate IsMissing(v: Value) {
    IsNa(v) || v == Str("")
  }

  /** The boolean read of a stripped, lower-cased text. */
  function TruthValue(w: string): Value {
    if w in TrueWords then Bool(true)
    else if w in FalseWords then Bool(false)
    else Null
  }

  /** The boolean branch, for a cell that is not missing. */
  function NormalizeBoolean(v: Value): Value {
    match v
    case Bool(_) => v
    case Str(s) => TruthValue(Lower(Trim(s)))
    case _ => Null
  }

  /** `normalize_value(value, field_type)`. */
  function NormalizeValue(v: Value, t: FieldType, p: Parsers): Value {
    if IsMissing(v) then Null
    else
      match t
      case BooleanType => NormalizeBoolean(v)
      case DateType => p.toDate(v)
      case FloatType => p.toFloat(v)
      case IntType => p.toInt(v)
      case StringType => if Truthy(v) then Str(Trim(PyStr(v))) else Null
  }

  // ---------------------------------------------------------------------
  // Header detection

  /** `col.lower().strip()`. */
  function HeaderKey(col: string): string {
    Trim(Lower(col))
  }

  /**
   * `columns_lower`: the dict from header key to header, as a list of pairs
   * in the dict's insertion order (first occurrence of a key), each key
   * holding the last header that produced it.
   */
  type Columns = seq<(string, string)>

  /** `d[key] = col` on an insertion-ordered dict. */
  function Put(cl: Columns, key: string, col: string): (r: Columns)
    ensures |r| == |cl| || |r| == |cl| + 1
  {
    if cl == [] then [(key, col)]
    else if cl[0].0 == key then [(key, col)] + cl[1..]
    else [cl[0]] + Put(cl[1..], key, col)
  }

  /** The dict built from `pairs` in order, a later pair overwriting an earlier one with the same key. */
  function DictOf(pairs: Columns): Columns {
    if pairs == [] then []
    else
      var last := pairs[|pairs| - 1];
      Put(DictOf(pairs[..|pairs| - 1]), last.0, last.1)
  }

  /** The pairs `(col.lower().strip(), col)`, in header order. */
  function KeyedHeaders(headers: seq<string>): (pairs: Columns)
    ensures |pairs| == |headers|
    ensures forall i :: 0 <= i < |headers| ==> pairs[i] == (HeaderKey(headers[i]), headers[i])
  {
    seq(|headers|, i requires 0 <= i < |headers| => (HeaderKey(headers[i]), headers[i]))
  }

  /** `{col.lower().strip(): col for col in df.columns}`. */
  function ColumnsLower(headers: seq<string>): Columns {
    DictOf(KeyedHeaders(headers))
  }

  /** `columns_lower.get(key)`. */
  function Lookup(cl: Columns, key: string): Option<string> {
    if cl == [] then None
    else if cl[0].0 == key then Some(cl[0].1)
    else Lookup(cl[1..], key)
  }

  const ItemNumberPatterns: seq<string> := ["item number", "item_number", "support item number", "support_item_number", "item no"]
  const SupportNamePatterns: seq<string> := ["support name", "support_name", "description", "name", "support item name"]
  const RegistrationGroupPatterns: seq<string> := ["registration group", "registration_group", "reg group", "group"]
  const CategoryPatterns: seq<string> := ["category", "support category", "support_category"]
  const UnitPatterns: seq<string> := ["unit", "unit of measure", "uom", "unit_of_measure"]
  const ClaimTypePatterns: seq<string> := ["claim type", "claim_type", "claiming"]
  const EffectiveFromPatterns: seq<string> := ["effective from", "effective_from", "start date", "from date"]
  const EffectiveToPatterns: seq<string> := ["effective to", "effective_to", "end date", "to date"]
  const NotesPatterns: seq<string> := ["notes", "note", "comments", "conditions"]

  /** The header under the first pattern that is a key of `cl`. */
  function FirstPattern(cl: Columns, patterns: seq<string>): Option<string> {
    if patterns == [] then None
    else if Lookup(cl, patterns[0]).Some? then Lookup(cl, patterns[0])
    else FirstPattern(cl, patterns[1..])
  }

  /** `mapping[key] = col` when a column was found, `mapping` otherwise. */
  function With(mapping: map<string, string>, key: string, found: Option<string>): map<string, string> {
    if found.Some? then mapping[key := found.value] else mapping
  }

  /** The aliases tried for each state, in order. */
  function Aliases(s: State): seq<string> {
    match s
    case NSW => ["nsw", "new south wales"]
    case VIC => ["vic", "victoria"]
    case QLD => ["qld", "queensland"]
    case SA => ["sa", "south australia"]
    case WA => ["wa", "western australia"]
    case TAS => ["tas", "tasmania"]
    case NT => ["nt", "northern territory"]
    case ACT => ["act", "australian capital territory"]
  }

  /** A header key holds the price of the state named `alias`: exactly the alias, or one of six price phrasings. */
  predicate PriceHeader(alias: string, key: string) {
    || alias == key
    || Contains(key, alias + " price")
    || Contains(key, "price " + alias)
    || Contains(key, alias + "_price")
    || Contains(key, "price_" + alias)
    || Contains(key, alias + " limit")
    || Contains(key, "price limit " + alias)
  }

  /** The header of the first entry of `cl` whose key is a price header for `alias`. */
  function FirstPriceColumn(cl: Columns, alias: string): Option<string> {
    if cl == [] then None
    else if PriceHeader(alias, cl[0].0) then Some(cl[0].1)
    else FirstPriceColumn(cl[1..], alias)
  }

  /** The price column of a state: the first alias with a price header decides. */
  function StateColumn(cl: Columns, aliases: seq<string>): Option<string> {
    if aliases == [] then None
    else if FirstPriceColumn(cl, aliases[0]).Some? then FirstPriceColumn(cl, aliases[0])
    else StateColumn(cl, aliases[1..])
  }

  /** The state loop of `detect_column_mapping`, over the states in `ss`. */
  function WithStates(mapping: map<string, string>, cl: Columns, ss: seq<State>): map<string, string> {
    if ss == [] then mapping
    else
      var s := ss[|ss| - 1];
      With(WithStates(mapping, cl, ss[..|ss| - 1]), FieldName(PriceLimit(s)), StateColumn(cl, Aliases(s)))
  }

  /** The patterns tried, in order, for a field that is not a price. */
  function Patterns(f: Field): seq<string> {
    match f
    case SupportName => SupportNamePatterns
    case RegistrationGroup => RegistrationGroupPatterns
    case Category => CategoryPatterns
    case Unit => UnitPatterns
    case ClaimType => ClaimTypePatterns
    case PriceLimit(_) => []
    case EffectiveFrom => EffectiveFromPatterns
    case EffectiveTo => EffectiveToPatterns
    case Notes => NotesPatterns
  }

  /** The fields searched before the state loop, and after it. */
  const LeadingFields: seq<Field> := [SupportName, RegistrationGroup, Category, Unit, ClaimType]
  const TrailingFields: seq<Field> := [EffectiveFrom, EffectiveTo, Notes]

  /** The first-pattern blocks of `detect_column_mapping` for the fields `fs`, in order. */
  function WithFields(mapping: map<string, string>, cl: Columns, fs: seq<Field>): map<string, string> {
    if fs == [] then mapping
    else
      var f := fs[|fs| - 1];
      With(WithFields(mapping, cl, fs[..|fs| - 1]), FieldName(f), FirstPattern(cl, Patterns(f)))
  }

  /** The blocks of `detect_column_mapping` run over the header dictionary `cl`. */
  function MappingOf(cl: Columns): map<string, string> {
    var m := With(map[], "item_number", FirstPattern(cl, ItemNumberPatterns));
    WithFields(WithStates(WithFields(m, cl, LeadingFields), cl, States), cl, TrailingFields)
  }

  /** `detect_column_mapping`: standard field key to the sheet's own header. */
  function ColumnMapping(headers: seq<string>): map<string, string> {
    MappingOf(ColumnsLower(headers))
  }

  /** One `for pattern in [...]: if pattern in columns_lower: mapping[key] = ...; break` loop. */
  method MapFirstPattern(mapping: map<string, string>, cl: Columns, key: string, patterns: seq<string>)
    returns (result: map<string, string>)
    ensures result == With(mapping, key, FirstPattern(cl, patterns))
  {
    result := mapping;
    var i := 0;
    while i < |patterns|
      invariant 0 <= i <= |patterns|
      invariant FirstPattern(cl, patterns) == FirstPattern(cl, patterns[i..])
      invariant result == mapping
    {
      assert patterns[i..][1..] == patterns[i + 1..];
      if Lookup(cl, patterns[i]).Some? {
        result := mapping[key := Lookup(cl, patterns[i]).value];
        return;
      }
      i := i + 1;
    }
  }

  /** The scan over `columns_lower` for one alias, stopping at the first price header. */
  method FindPriceColumn(cl: Columns, alias: string) returns (found: Option<string>)
    ensures found == FirstPriceColumn(cl, alias)
  {
    found := None;
    var j := 0;
    while j < |cl|
      invariant 0 <= j <= |cl|
      invariant FirstPriceColumn(cl, alias) == FirstPriceColumn(cl[j..], alias)
    {
      assert cl[j..][1..] == cl[j + 1..];
      var (colLower, colActual) := cl[j];
      if PriceHeader(alias, colLower) {
        found := Some(colActual);
        return;
      }
      j := j + 1;
    }
  }

  /** The loop over one state's aliases, stopping once the state's key is mapped. */
  method MapState(mapping: map<string, string>, cl: Columns, s: State) returns (result: map<string, string>)
    requires FieldName(PriceLimit(s)) !in mapping
    ensures result == With(mapping, FieldName(PriceLimit(s)), StateColumn(cl, Aliases(s)))
  {
    var key := FieldName(PriceLimit(s));
    var aliases := Aliases(s);
    result := mapping;
    var i := 0;
    while i < |aliases|
      invariant 0 <= i <= |aliases|
      invariant StateColumn(cl, aliases) == StateColumn(cl, aliases[i..])
      invariant result == mapping
    {
      assert aliases[i..][1..] == aliases[i + 1..];
      var found := FindPriceColumn(cl, aliases[i]);
      if found.Some? {
        result := result[key := found.value];
      }
      if key in result {
        return;
      }
      i := i + 1;
    }
  }

  /** The first-pattern blocks before the state loop: support name to claim type. */
  method MapLeadingFields(mapping: map<string, string>, cl: Columns) returns (result: map<string, string>)
    ensures result == WithFields(mapping, cl, LeadingFields)
  {
    assert LeadingFields[..0] == [];
    WithFieldsStep(mapping, cl, LeadingFields, 0);
    result := MapFirstPattern(mapping, cl, FieldName(SupportName), Patterns(SupportName));
    WithFieldsStep(mapping, cl, LeadingFields, 1);
    result := MapFirstPattern(result, cl, FieldName(RegistrationGroup), Patterns(RegistrationGroup));
    WithFieldsStep(mapping, cl, LeadingFields, 2);
    result := MapFirstPattern(result, cl, FieldName(Category), Patterns(Category));
    WithFieldsStep(mapping, cl, LeadingFields, 3);
    result := MapFirstPattern(result, cl, FieldName(Unit), Patterns(Unit));
    WithFieldsStep(mapping, cl, LeadingFields, 4);
    result := MapFirstPattern(result, cl, FieldName(ClaimType), Patterns(ClaimType));
    assert LeadingFields[..5] == LeadingFields;
  }

  /** The loop over the eight states, in the order the source lists them. */
  method MapStates(mapping: map<string, string>, cl: Columns) returns (result: map<string, string>)
    requires forall s :: FieldName(PriceLimit(s)) !in mapping
    ensures result == WithStates(mapping, cl, States)
  {
    result := mapping;
    for j := 0 to |States|
      invariant result == WithStates(mapping, cl, States[..j])
      invariant forall s :: FieldName(PriceLimit(s)) in result ==> s in States[..j]
    {
      WithStatesStep(mapping, cl, j);
      StatesDistinct(j);
      StateKeysAfter(result, cl, j);
      result := MapState(result, cl, States[j]);
    }
    assert States[..|States|] == States;
  }

  /** The first-pattern blocks after the state loop: the two dates and the notes. */
  method MapTrailingFields(mapping: map<string, string>, cl: Columns) returns (result: map<string, string>)
    ensures result == WithFields(mapping, cl, TrailingFields)
  {
    assert TrailingFields[..0] == [];
    WithFieldsStep(mapping, cl, TrailingFields, 0);
    result := MapFirstPattern(mapping, cl, FieldName(EffectiveFrom), Patterns(EffectiveFrom));
    WithFieldsStep(mapping, cl, TrailingFields, 1);
    result := MapFirstPattern(result, cl, FieldName(EffectiveTo), Patterns(EffectiveTo));
    WithFieldsStep(mapping, cl, TrailingFields, 2);
    result := MapFirstPattern(result, cl, FieldName(Notes), Patterns(Notes));
    assert TrailingFields[..3] == TrailingFields;
  }

  /** `detect_column_mapping`. */
  method DetectColumnMapping(headers: seq<string>) returns (mapping: map<string, string>)
    ensures mapping == ColumnMapping(headers)
  {
    var cl := ColumnsLower(headers);
    mapping := MapFirstPattern(map[], cl, "item_number", ItemNumberPatterns);
    forall s ensures FieldName(PriceLimit(s)) !in mapping {
      FieldNamesDistinct(PriceLimit(s), PriceLimit(s));
    }
    LeadingKeys(mapping, cl);
    mapping := MapLeadingFields(mapping, cl);
    mapping := MapStates(mapping, cl);
    mapping := MapTrailingFields(mapping, cl);
  }

  // ---------------------------------------------------------------------
  // Sheet conversion

  /** One data row: header to cell; a header with no entry holds an empty cell. */
  type Row = map<string, Value>

  /** A sheet as `pd.read_excel` gives it: the header row and the data rows, in order. */
  datatype Sheet = Sheet(headers: seq<string>, rows: seq<Row>)

  /** `df.empty`: no columns or no rows. */
  predicate IsEmpty(sheet: Sheet) {
    |sheet.headers| == 0 || |sheet.rows| == 0
  }

  /** `row[col]`. */
  function Cell(row: Row, col: string): Value {
    Get(row, col)
  }

  /** The `field_type` each field of an item is normalised with. */
  function TypeOf(f: Field): FieldType {
    match f
    case EffectiveFrom => DateType
    case EffectiveTo => DateType
    case PriceLimit(_) => FloatType
    case _ => StringType
  }

  /** The value of a field in the item built from `row`: None when the field has no column. */
  function FieldValue(mapping: map<string, string>, row: Row, f: Field, p: Parsers): Value {
    var key := FieldName(f);
    if key in mapping then NormalizeValue(Cell(row, mapping[key]), TypeOf(f), p) else Null
  }

  /** The normalised item number of a row, when the sheet has an item-number column. */
  function RowNumber(mapping: map<string, string>, row: Row, p: Parsers): Value
    requires "item_number" in mapping
  {
    NormalizeValue(Cell(row, mapping["item_number"]), StringType, p)
  }

  /** The dict literal of the conversion, given the value read for each field. */
  function DictLiteral(number: Value, idx: nat, value: Field -> Value): Item {
    map[
      "item_number" := number,
      "support_name" := value(SupportName),
      "registration_group" := value(RegistrationGroup),
      "category" := value(Category),
      "unit" := value(Unit),
      "claim_type" := value(ClaimType),
      "effective_from" := value(EffectiveFrom),
      "effective_to" := value(EffectiveTo),
      "notes" := value(Notes),
      "raw_row_index" := Int(idx + 2)
    ]
  }

  /** The item dict before the state loop. */
  function BaseItem(mapping: map<string, string>, row: Row, idx: nat, number: Value, p: Parsers): Item {
    DictLiteral(number, idx, f => FieldValue(mapping, row, f, p))
  }

  /** The state loop of the conversion, over the states in `ss`. */
  function WithPrices(item: Item, mapping: map<string, string>, row: Row, ss: seq<State>, p: Parsers): Item {
    if ss == [] then item
    else
      var s := ss[|ss| - 1];
      WithPrices(item, mapping, row, ss[..|ss| - 1], p)[FieldName(PriceLimit(s)) := FieldValue(mapping, row, PriceLimit(s), p)]
  }

  /** The item emitted for the row at position `idx`. */
  function ItemOf(mapping: map<string, string>, row: Row, idx: nat, number: Value, p: Parsers): Item {
    WithPrices(BaseItem(mapping, row, idx, number, p), mapping, row, States, p)
  }

  /** The items of the rows `rows`, the first at position 0: rows with no item number are skipped. */
  function ItemsOf(mapping: map<string, string>, rows: seq<Row>, p: Parsers): seq<Item> {
    if rows == [] || "item_number" !in mapping then []
    else
      var idx := |rows| - 1;
      var before := ItemsOf(mapping, rows[..idx], p);
      var number := RowNumber(mapping, rows[idx], p);
      if Truthy(number) then before + [ItemOf(mapping, rows[idx], idx, number, p)] else before
  }

  /** `convert_sheet_to_items`. */
  function SheetItems(sheet: Sheet, p: Parsers): seq<Item> {
    if IsEmpty(sheet) then [] else ItemsOf(ColumnMapping(sheet.headers), sheet.rows, p)
  }

  /** The item dict of one row, completed by the loop over the states. */
  method BuildItem(colMap: map<string, string>, row: Row, idx: nat, itemNumber: Value, p: Parsers) returns (item: Item)
    ensures item == ItemOf(colMap, row, idx, itemNumber, p)
  {
    var base := BaseItem(colMap, row, idx, itemNumber, p);
    item := base;
    for j := 0 to |States|
      invariant item == WithPrices(base, colMap, row, States[..j], p)
    {
      WithPricesStep(base, colMap, row, j, p);
      var colKey := FieldName(PriceLimit(States[j]));
      if colKey in colMap {
        item := item[colKey := NormalizeValue(Cell(row, colMap[colKey]), FloatType, p)];
      } else {
        item := item[colKey := Null];
      }
    }
    assert States[..|States|] == States;
  }

  /** `convert_sheet_to_items`: the row loop appending one item per numbered row. */
  method ConvertSheetToItems(sheet: Sheet, p: Parsers) returns (items: seq<Item>)
    ensures items == SheetItems(sheet, p)
  {
    if IsEmpty(sheet) {
      return [];
    }
    var colMap := DetectColumnMapping(sheet.headers);
    items := [];
    for idx := 0 to |sheet.rows|
      invariant items == ItemsOf(colMap, sheet.rows[..idx], p)
    {
      ItemsOfStep(colMap, sheet.rows, idx, p);
      var row := sheet.rows[idx];
      if "item_number" !in colMap {
        continue;
      }
      var itemNumber := NormalizeValue(Cell(row, colMap["item_number"]), StringType, p);
      if !Truthy(itemNumber) {
        continue;
      }
      var item := BuildItem(colMap, row, idx, itemNumber, p);
      items := items + [item];
    }
    assert sheet.rows[..|sheet.rows|] == sheet.rows;
  }

  // ---------------------------------------------------------------------
  // Helpers for the loops

  /** One more state: its price key is set. */
  lemma WithPricesStep(item: Item, mapping: map<string, string>, row: Row, j: nat, p: Parsers)
    requires j < |States|
    ensures WithPrices(item, mapping, row, States[..j + 1], p)
      == WithPrices(item, mapping, row, States[..j], p)[FieldName(PriceLimit(States[j])) := FieldValue(mapping, row, PriceLimit(States[j]), p)]
  {
    assert States[..j + 1][..j] == States[..j];
  }

  /** One more row: its item is appended when it has an item number. */
  lemma ItemsOfStep(mapping: map<string, string>, rows: seq<Row>, idx: nat, p: Parsers)
    requires idx < |rows|
    ensures "item_number" !in mapping ==> ItemsOf(mapping, rows[..idx + 1], p) == ItemsOf(mapping, rows[..idx], p)
    ensures "item_number" in mapping && !Truthy(RowNumber(mapping, rows[idx], p))
      ==> ItemsOf(mapping, rows[..idx + 1], p) == ItemsOf(mapping, rows[..idx], p)
    ensures "item_number" in mapping && Truthy(RowNumber(mapping, rows[idx], p))
      ==> (ItemsOf(mapping, rows[..idx + 1], p)
           == ItemsOf(mapping, rows[..idx], p) + [ItemOf(mapping, rows[idx], idx, RowNumber(mapping, rows[idx], p), p)])
  {
    assert rows[..idx + 1][..idx] == rows[..idx];
  }

  /** One more first-pattern block. */
  lemma WithFieldsStep(m: map<string, string>, cl: Columns, fs: seq<Field>, i: nat)
    requires i < |fs|
    ensures WithFields(m, cl, fs[..i + 1]) == With(WithFields(m, cl, fs[..i]), FieldName(fs[i]), FirstPattern(cl, Patterns(fs[i])))
  {
    assert fs[..i + 1][..i] == fs[..i];
  }

  /** The first-pattern blocks for `fs` leave a key no field of `fs` is named by as it was. */
  lemma {:induction false} WithFieldsOther(m: map<string, string>, cl: Columns, fs: seq<Field>, k: string)
    requires forall i :: 0 <= i < |fs| ==> FieldName(fs[i]) != k
    ensures k in WithFields(m, cl, fs) <==> k in m
    ensures k in m ==> WithFields(m, cl, fs)[k] == m[k]
  {
    if fs != [] {
      WithFieldsOther(m, cl, fs[..|fs| - 1], k);
    }
  }

  /** One more state of the state loop. */
  lemma WithStatesStep(m: map<string, string>, cl: Columns, j: nat)
    requires j < |States|
    ensures WithStates(m, cl, States[..j + 1])
      == With(WithStates(m, cl, States[..j]), FieldName(PriceLimit(States[j])), StateColumn(cl, Aliases(States[j])))
  {
    assert States[..j + 1][..j] == States[..j];
  }

  /** The blocks before the state loop set no price key. */
  lemma LeadingKeys(m: map<string, string>, cl: Columns)
    requires forall s :: FieldName(PriceLimit(s)) !in m
    ensures forall s :: FieldName(PriceLimit(s)) !in WithFields(m, cl, LeadingFields)
  {
    forall s ensures FieldName(PriceLimit(s)) !in WithFields(m, cl, LeadingFields) {
      forall i | 0 <= i < |LeadingFields| ensures FieldName(LeadingFields[i]) != FieldName(PriceLimit(s)) {
        FieldNamesDistinct(LeadingFields[i], PriceLimit(s));
      }
      WithFieldsOther(m, cl, LeadingFields, FieldName(PriceLimit(s)));
    }
  }

  /** The states are listed once each. */
  lemma StatesDistinct(j: nat)
    requires j < |States|
    ensures States[j] !in States[..j]
  {
  }

  /** After the state at position `j`, only the states up to it have a price key. */
  lemma StateKeysAfter(m: map<string, string>, cl: Columns, j: nat)
    requires j < |States|
    requires forall s :: FieldName(PriceLimit(s)) in m ==> s in States[..j]
    ensures forall s :: FieldName(PriceLimit(s)) in With(m, FieldName(PriceLimit(States[j])), StateColumn(cl, Aliases(States[j]))) ==> s in States[..j + 1]
  {
    assert States[..j + 1] == States[..j] + [States[j]];
    forall s | FieldName(PriceLimit(s)) in With(m, FieldName(PriceLimit(States[j])), StateColumn(cl, Aliases(States[j])))
      ensures s in States[..j + 1]
    {
      FieldNamesDistinct(PriceLimit(s), PriceLimit(States[j]));
    }
  }
}
