# Support catalogue: version comparison and sheet conversion

This project models the two computational cores of the NDIS support catalogue tool. It proves
properties about them in Dafny.

- **Version comparison** (`version_diff.py`). First, each catalogue is indexed by item number. A
  catalogue is a list of current items and a list of legacy items. Then every item number of the
  OLD or the NEW catalogue is put into exactly one of seven lists:
  - added
  - removed
  - moved to legacy
  - legacy removed
  - modified
  - unchanged
  - anomalies

  A *modified* record carries its field changes. Sixteen fields are compared, in a fixed order,
  after a normalisation that ignores surrounding whitespace and letter case. The engine can also
  flatten the modified records into a table, and count the lists.
- **Sheet conversion** (`xlsx_to_json.py`). Three functions are modelled:
  - `normalize_value` reads one spreadsheet cell as a string, a boolean, a date, a float or an int.
  - `detect_column_mapping` finds, for each standard field, the header of the sheet column that
    holds it. Headers are lower-cased and stripped. A descriptive field takes the first pattern
    that matches. A state price takes the first alias whose price header is found.
  - `convert_sheet_to_items` turns each data row that has an item number into an item dict.

The model follows the source's own form:
- Pure code becomes functions, and lemmas about those functions.
- Each loop of the source becomes a `method` with a `for` or `while` loop. Each such method is
  proved equal to a specification function, and the properties are proved about that function.
- Python dicts of items are `map<string, Value>`. The `columns_lower` dict is an ordered list of
  pairs, because the state scan walks it in insertion order.
- `compare_catalogues` iterates a Python `set` in an unspecified order. `ClassifyAll` therefore
  promises its result for *some* ordering of the item numbers. `CompareCatalogues` then proves
  that the seven lists are the same partition whatever that ordering is.

Modules:
- `Wrappers`: `Option`.
- `Text`: ASCII `strip`, `lower`, substring test and `str(int)`.
- `Values`: Python values, fields and states.
- `VersionDiff` and `VersionDiffProperties`: the comparison engine and what is proved about it.
- `XlsxToJson` and `XlsxToJsonProperties`: the sheet conversion and what is proved about it.

## Model

| member | source | states |
|---|---|---|
| Text.TrimStart | version_diff.py:27 | `lstrip` removes exactly a whitespace prefix; the result is empty or starts with a non-space |
| Text.TrimEnd | version_diff.py:27 | `rstrip` removes exactly a whitespace suffix; the result is empty or ends with a non-space |
| Text.Trim | version_diff.py:27 | the result of `strip()` neither starts nor ends with whitespace |
| Text.Lower | version_diff.py:27 | `lower()` keeps the length |
| Text.ContainsAt | xlsx_to_json.py:168-174 | `t in s` holds iff `t` occurs in `s` at some position |
| Text.TrimStartSpacePrefix | version_diff.py:27 | a whitespace prefix does not change `lstrip` |
| Text.TrimEndSpaceSuffix | version_diff.py:27 | a whitespace suffix does not change `rstrip` |
| Text.TrimStartAppend | version_diff.py:27 | `lstrip` of a string with non-space content commutes with appending |
| Text.TrimAllSpace | version_diff.py:27 | a string of whitespace only strips to the empty string |
| Text.TrimUnpadded | version_diff.py:27 | a string without surrounding whitespace is its own `strip()` |
| Text.TrimIgnoresPadding | version_diff.py:27 | `strip()` ignores any whitespace added on either side |
| Text.LowerCharKeepsSpace | version_diff.py:27 | lower-casing never creates or removes whitespace |
| Text.LowerTrimStart | version_diff.py:27 | lower-casing commutes with `lstrip` |
| Text.LowerTrimEnd | version_diff.py:27 | lower-casing commutes with `rstrip` |
| Text.LowerTrim | version_diff.py:27 | `s.strip().lower() == s.lower().strip()` |
| Text.LowerIdempotent | version_diff.py:27 | lower-casing twice is lower-casing once |
| Text.LowerUnpadded | version_diff.py:27 | lower-casing a text without surrounding whitespace gives a lower-case text without it |
| Text.TrimTwice | version_diff.py:27 | `strip()` is idempotent |
| Values.FieldNamesDistinct | version_diff.py:47-52 | no two fields share a dict key; no field key is `item_number` or `raw_row_index` |
| VersionDiffProperties.NormalizeIgnoresPadding | version_diff.py:17-28 | strings differing only by surrounding whitespace compare equal |
| VersionDiffProperties.NormalizeIgnoresCase | version_diff.py:17-28 | strings differing only by letter case compare equal |
| VersionDiffProperties.NormalizeNoneIsBlank | version_diff.py:24-27 | None compares equal to `""`; a string compares equal to None iff it is blank |
| VersionDiffProperties.NormalizedStringIsCanonical | version_diff.py:26-27 | a normalised string is lower case with no surrounding whitespace |
| VersionDiffProperties.NormalizeNonString | version_diff.py:28 | a non-string compares by `str()`, which never equals None's `""` |
| VersionDiff.ComputeFieldChanges | version_diff.py:31-68 | the loop over the compared fields returns the ordered list of changes `FieldChanges` |
| VersionDiffProperties.ComparedFieldsPositions | version_diff.py:47-52 | the sixteen compared fields, each once, at its position |
| VersionDiffProperties.ChangesOverMembers | version_diff.py:54-66 | a change is recorded iff its field is compared and differs after normalisation, with the raw values |
| VersionDiffProperties.ChangesOverSorted | version_diff.py:54-66 | the changes follow the order of the fields scanned |
| VersionDiffProperties.FieldChangesSpec | version_diff.py:31-68 | the changed fields are exactly those whose normalised values differ; each change holds `.get()` of both items |
| VersionDiffProperties.FieldChangesInOrder | version_diff.py:47-66 | the changes dict lists fields in the compared order, none twice |
| VersionDiffProperties.NoChangesIff | version_diff.py:31-68 | no changes iff every compared field compares equal |
| VersionDiffProperties.NoChangesWithSelf | version_diff.py:31-68 | an item compared with itself has no changes |
| VersionDiffProperties.CosmeticEditNotReported | version_diff.py:17-68 | re-padding or lower-casing a string field reports no change |
| VersionDiffProperties.InFieldOrderCard | version_diff.py:54-66 | changes in field order have as many entries as changed fields |
| VersionDiffProperties.TwoChanges | version_diff.py:54-66 | changes naming exactly two fields are those two, in field order |
| VersionDiff.Numbers | version_diff.py:87-100 | the empty item number is never indexed |
| VersionDiffProperties.NumbersSpec | version_diff.py:87-100 | the indexed numbers are exactly the non-empty item numbers of the list |
| VersionDiffProperties.LastWithSpec | version_diff.py:87-100 | a slot holds the last item with that number, or nothing if there is none |
| VersionDiff.LastWithNumbers | version_diff.py:87-100 | a number has an item in a list iff it is one of the list's numbers |
| VersionDiff.NumbersAppend | version_diff.py:87-100 | appending an item adds its number and makes it the last for that number |
| VersionDiff.IndexAddCurrent | version_diff.py:87-92 | one pass of the current loop sets, or creates, the current slot of the item's number |
| VersionDiff.IndexAddLegacy | version_diff.py:95-100 | one pass of the legacy loop sets, or creates, the legacy slot of the item's number |
| VersionDiff.IndexCatalogue | version_diff.py:71-102 | `_index_catalogue` returns the index `CatalogueIndex` |
| VersionDiff.IndexCurrentItems | version_diff.py:87-92 | the current loop builds the index of the current items |
| VersionDiff.IndexLegacyItems | version_diff.py:95-100 | the legacy loop completes that index with the legacy items |
| VersionDiffProperties.IndexSpec | version_diff.py:71-102 | a number is indexed iff it numbers a current or legacy item; its slots are the last item of each list |
| VersionDiffProperties.IndexSlotsFilled | version_diff.py:71-102 | each slot is filled iff the number occurs in that list; every entry has a filled slot |
| VersionDiff.Classify | version_diff.py:136-219 | the record made for a number carries that number |
| VersionDiffProperties.ClassifyCategory | version_diff.py:146-219 | the decision table in closed form: the list chosen for each combination of filled slots |
| VersionDiffProperties.ClassifyRecords | version_diff.py:146-219 | each record carries the slot items, the review flag, the changes or the description the source builds |
| VersionDiffProperties.PresentLabelsMembers | version_diff.py:202-210 | the description names a slot iff the slot is filled, and names nothing else |
| VersionDiffProperties.PresentLabelsOrdered | version_diff.py:202-210 | the slot names appear in the order OLD Current, OLD Legacy, NEW Current, NEW Legacy |
| VersionDiffProperties.JoinSmall | version_diff.py:218 | `sep.join` of one, two and three parts |
| VersionDiffProperties.AnomalyOfTwo | version_diff.py:201-218 | two filled slots are described as `Unusual transition: A → B`, with the separator as written |
| VersionDiffProperties.AddedRemovedSymmetry | version_diff.py:146-160 | swapping OLD and NEW turns added into removed and back |
| VersionDiff.ClassifyItem | version_diff.py:137-219 | the loop body builds the record `Classify` decides |
| VersionDiff.Decisions | version_diff.py:136 | one record for each listed number, in order |
| VersionDiff.Filter | version_diff.py:136-219 | the records of a category are exactly those of the list with that category |
| VersionDiff.AppendBuckets | version_diff.py:148-212 | appending a record extends its own list only, and the total by one |
| VersionDiff.SortBuckets | version_diff.py:136-219 | each list is the records of its category in order; nothing is lost |
| VersionDiff.FilterDistinct | version_diff.py:136-219 | filtering keeps item numbers distinct |
| VersionDiff.ListsCard | version_diff.py:124 | an ordering of a set has the set's size |
| VersionDiff.ListsStep | version_diff.py:136 | one more set element iterated |
| VersionDiff.SortDecisionsStep | version_diff.py:136-219 | one more record appended to its list |
| VersionDiff.DecisionsSound | version_diff.py:136-219 | every listed record is the decision for a compared number, in the list of its category |
| VersionDiff.DecisionsComplete | version_diff.py:136-219 | the decision for every compared number is in its list |
| VersionDiff.DecisionsDistinct | version_diff.py:136-219 | no list holds a number twice; there are as many records as numbers |
| VersionDiff.DecisionsClassified | version_diff.py:136-219 | records decided in any order of the numbers and sorted into lists form a partition of the numbers |
| VersionDiff.ClassifyAll | version_diff.py:124-219 | the loop over the set of numbers gives the sorted decisions for some ordering of that set |
| VersionDiff.CompareCatalogues | version_diff.py:105-221 | every number of either index gets its record, once, in the list of its category; nothing else is listed |
| VersionDiffProperties.ComparedNumbers | version_diff.py:120-124 | the compared numbers are the non-empty item numbers of the four lists |
| VersionDiffProperties.PartitionCovers | version_diff.py:136-219 | a number is compared iff some list holds it |
| VersionDiffProperties.PartitionExclusive | version_diff.py:136-219 | no number is in two lists, and no list holds a number twice |
| VersionDiffProperties.BucketNumbers | version_diff.py:136-219 | each list holds exactly the compared numbers of its category |
| VersionDiffProperties.DistinctCard | version_diff.py:136-219 | a list without repeats has as many elements as its set |
| VersionDiffProperties.DistinctNumbersCard | version_diff.py:136-219 | a list of records with distinct numbers has as many numbers as records |
| VersionDiff.CreateModifiedItemsTable | version_diff.py:224-255 | the nested loop returns `ModifiedTable` of the modified records |
| VersionDiffProperties.ModifiedTableLength | version_diff.py:243-253 | the table has one row per field change |
| VersionDiffProperties.ModifiedTableSplit | version_diff.py:243-253 | the table of a list is the table of a prefix followed by that of the rest |
| VersionDiffProperties.AllModifiedSlices | version_diff.py:243-253 | both sides of a cut of modified records are modified records |
| VersionDiffProperties.ModifiedTableRows | version_diff.py:243-253 | a row is in the table iff it is some change of some record, with that record's number and the raw values |
| VersionDiffProperties.SummaryCounts | version_diff.py:258-286 | each count is the number of compared items of its category; the total is the number compared |
| VersionDiffProperties.SelfDecision | version_diff.py:136-219 | with one catalogue on both sides, a current number is unchanged and a legacy-only one is an anomaly |
| VersionDiffProperties.BucketMember | version_diff.py:136-219 | a listed record is the decision for its number, in its category |
| VersionDiffProperties.SelfBucket | version_diff.py:181-219 | with one catalogue on both sides, the list is decided by whether the number is current |
| VersionDiffProperties.SelfMember | version_diff.py:136-219 | a record of a self-comparison is unchanged iff its number is current, else an anomaly |
| VersionDiffProperties.SelfEmptyBucket | version_diff.py:136-219 | a self-comparison leaves the other five lists empty |
| VersionDiffProperties.SelfComparisonNoChanges | version_diff.py:105-221 | comparing a catalogue with itself adds, removes, moves, drops and modifies nothing |
| VersionDiffProperties.SelfComparisonUnchanged | version_diff.py:181-197 | comparing a catalogue with itself: the unchanged numbers are exactly the current ones |
| VersionDiffProperties.SelfCurrentUnchanged | version_diff.py:181-197 | a current number of a self-comparison is unchanged |
| VersionDiffProperties.SelfComparisonAnomalies | version_diff.py:201-219 | comparing a catalogue with itself: the anomalies are exactly the legacy-only numbers |
| VersionDiffProperties.SelfLegacyAnomaly | version_diff.py:201-219 | a legacy-only number of a self-comparison is an anomaly |
| VersionDiffProperties.SelfUnchangedIsCurrent | version_diff.py:181-197 | an unchanged record of a self-comparison is a current number |
| VersionDiffProperties.SelfAnomalyIsLegacyOnly | version_diff.py:201-219 | an anomaly of a self-comparison is a legacy-only number |
| VersionDiffProperties.LegacyOnBothSidesIsAnomaly | test_tool.py:152-170 | an item legacy in both catalogues is an anomaly described as `OLD Legacy → NEW Legacy` |
| VersionDiffProperties.RevivedLegacyIsAnomaly | version_diff.py:201-219 | a legacy item that comes back as current is an anomaly `OLD Legacy → NEW Current` |
| VersionDiffProperties.CurrentToLegacyIsMoved | test_tool.py:252-270 | an item current in OLD and legacy only in NEW is moved to legacy, with both items |
| VersionDiffProperties.CurrentWinsOverOldLegacy | version_diff.py:181-197 | an item current in both catalogues is modified or unchanged, whatever its OLD legacy slot |
| VersionDiffProperties.PricedItemOther | test_tool.py:113-130 | the reduced fixture item holds no other compared field |
| VersionDiffProperties.RenameDiffers | version_diff.py:54-66 | the name is a change iff its normalised text differs |
| VersionDiffProperties.RepriceDiffers | version_diff.py:54-66 | the NSW price is a change iff its text differs |
| VersionDiffProperties.RenameAndRepriceDiffers | test_tool.py:193-210 | after a rename and a price change exactly the name and the NSW price differ |
| VersionDiffProperties.RenameAndRepriceIsModified | test_tool.py:193-210 | the changes are the name, then the NSW price, each with its raw old and new values |
| VersionDiffProperties.RenameAndRepriceClassified | test_tool.py:193-210 | such an item is classified as modified with those two changes |
| VersionDiffProperties.ChangedCurrentIsModified | version_diff.py:181-191 | a current item with changes is modified with exactly those changes |
| XlsxToJsonProperties.MissingCellIsNone | xlsx_to_json.py:59-61 | a missing, NaN or empty cell is None whatever the type |
| XlsxToJsonProperties.ParsedCells | xlsx_to_json.py:74-97 | the date, float and int readers see only cells that are not missing |
| XlsxToJsonProperties.TruthWordsDisjoint | xlsx_to_json.py:68-71 | no word is both a true word and a false word; none is empty |
| XlsxToJsonProperties.BooleanCell | xlsx_to_json.py:63-72 | a boolean cell is True iff it is True or a true word, False iff False or a false word, else None |
| XlsxToJsonProperties.BooleanText | xlsx_to_json.py:66-72 | a text cell is read by its stripped lower-case form alone |
| XlsxToJsonProperties.BooleanIgnoresPaddingAndCase | xlsx_to_json.py:66-72 | the boolean reading ignores surrounding whitespace and letter case |
| XlsxToJsonProperties.StringCell | xlsx_to_json.py:99-100 | a string cell is None iff missing or falsy, else the stripped `str()`, which is its own strip |
| XlsxToJsonProperties.BlankCellIsEmptyString | xlsx_to_json.py:59-100 | a whitespace-only cell becomes `""`, not None, since the empty check precedes the strip |
| XlsxToJsonProperties.StringIgnoresPadding | xlsx_to_json.py:99-100 | padding a non-empty text does not change the string reading |
| XlsxToJsonProperties.StrippedTextKept | xlsx_to_json.py:99-100 | a non-empty text without surrounding whitespace is read as itself |
| XlsxToJsonProperties.StringCellTwice | xlsx_to_json.py:59-100 | reading a read string again changes nothing, except that `""` becomes None |
| XlsxToJson.Put | xlsx_to_json.py:112 | a dict assignment keeps the size or adds one entry |
| XlsxToJsonProperties.KeysOf | xlsx_to_json.py:112 | the keys of `columns_lower`, in order |
| XlsxToJsonProperties.LookupKeys | xlsx_to_json.py:118 | a key is found iff it is a key |
| XlsxToJsonProperties.PutLookup | xlsx_to_json.py:112 | `d[key] = col` sets `key` and leaves every other key alone |
| XlsxToJsonProperties.PutKeys | xlsx_to_json.py:112 | `d[key] = col` keeps the key order, appending a new key |
| XlsxToJsonProperties.DictOfKeys | xlsx_to_json.py:112 | the keys are the header keys in order of first occurrence |
| XlsxToJsonProperties.FirstOccurrencesDistinct | xlsx_to_json.py:112 | those keys are distinct and are exactly the header keys |
| XlsxToJsonProperties.DictOfLast | xlsx_to_json.py:112 | a key holds the value of the last pair with that key |
| XlsxToJsonProperties.ColumnsLowerHas | xlsx_to_json.py:112 | a key is present iff some header lower-cases and strips to it |
| XlsxToJsonProperties.ColumnsLowerLast | xlsx_to_json.py:112 | a key maps to the last header producing it |
| XlsxToJsonProperties.FirstPatternSpec | xlsx_to_json.py:117-121 | the first pattern that is a key decides; nothing is found iff no pattern is a key |
| XlsxToJsonProperties.FirstPriceColumnSpec | xlsx_to_json.py:167-176 | the column scan stops at the first price header in `columns_lower` order; nothing iff there is none |
| XlsxToJsonProperties.StateColumnSpec | xlsx_to_json.py:165-178 | a state's aliases are tried in order; the first with a price header decides |
| XlsxToJson.MapFirstPattern | xlsx_to_json.py:117-121 | one first-pattern loop sets the key to the first matching header, or leaves the mapping alone |
| XlsxToJson.FindPriceColumn | xlsx_to_json.py:167-176 | the inner column scan returns `FirstPriceColumn` |
| XlsxToJson.MapState | xlsx_to_json.py:165-178 | the alias loop of one state sets its price key to `StateColumn`, or leaves it unset |
| XlsxToJson.MapLeadingFields | xlsx_to_json.py:123-150 | the five blocks before the state loop, in order |
| XlsxToJson.MapStates | xlsx_to_json.py:153-178 | the state loop over the eight states in order |
| XlsxToJson.MapTrailingFields | xlsx_to_json.py:180-195 | the three blocks after the state loop, in order |
| XlsxToJson.DetectColumnMapping | xlsx_to_json.py:103-197 | `detect_column_mapping` returns `ColumnMapping(headers)` |
| XlsxToJson.WithFieldsStep | xlsx_to_json.py:123-195 | one more first-pattern block |
| XlsxToJson.WithFieldsOther | xlsx_to_json.py:123-195 | the blocks for some fields leave every other key as it was |
| XlsxToJson.WithStatesStep | xlsx_to_json.py:164-178 | one more state |
| XlsxToJson.LeadingKeys | xlsx_to_json.py:123-150 | the blocks before the state loop set no price key |
| XlsxToJson.StateKeysAfter | xlsx_to_json.py:164-178 | after a state's turn, only the states so far have a price key |
| XlsxToJsonProperties.WithFieldsListed | xlsx_to_json.py:123-195 | a listed field gets its first matching header when there is one |
| XlsxToJsonProperties.WithFieldsOtherField | xlsx_to_json.py:123-195 | an unlisted field keeps its entry |
| XlsxToJsonProperties.WithFieldsKeys | xlsx_to_json.py:123-195 | the blocks add only standard keys |
| XlsxToJsonProperties.WithStatesSpec | xlsx_to_json.py:164-178 | the state loop sets each listed state's price key to its detected column, and nothing else |
| XlsxToJsonProperties.WithStatesField | xlsx_to_json.py:164-178 | the state loop, for one field |
| XlsxToJsonProperties.MappedItemNumber | xlsx_to_json.py:117-121 | `item_number` is mapped iff one of its patterns is a header key, to that header |
| XlsxToJsonProperties.MappedLeadingField | xlsx_to_json.py:123-150 | a field searched before the state loop is mapped iff detected, to the detected header |
| XlsxToJsonProperties.MappedPriceField | xlsx_to_json.py:164-178 | a price is mapped iff detected, to the first alias's price column |
| XlsxToJsonProperties.MappedTrailingField | xlsx_to_json.py:180-195 | a field searched after the state loop is mapped iff detected, to the detected header |
| XlsxToJsonProperties.MappedKey | xlsx_to_json.py:103-197 | the mapping has no key other than `item_number` and the field keys |
| XlsxToJsonProperties.MappedFieldAt | xlsx_to_json.py:123-195 | any field is mapped iff detected, to the detected header |
| XlsxToJsonProperties.ColumnMappingSpec | xlsx_to_json.py:103-197 | the whole mapping: `item_number` and every field are present iff detected, with the detected header, and no other key |
| XlsxToJsonProperties.DetectedByKeys | xlsx_to_json.py:112-195 | whether a field is detected depends only on the header keys |
| XlsxToJsonProperties.FirstPatternByKeys | xlsx_to_json.py:117-121 | whether a pattern list finds a header depends only on the header keys |
| XlsxToJsonProperties.ColumnsLowerKeys | xlsx_to_json.py:112 | headers that agree once lower-cased and stripped give the same keys in the same order |
| XlsxToJsonProperties.MappingIgnoresCase | xlsx_to_json.py:103-197 | headers differing only in case or padding map the same fields |
| XlsxToJsonProperties.MappingKeysByKeys | xlsx_to_json.py:103-197 | the mapped fields depend only on the header keys |
| XlsxToJsonProperties.MappedKeyByKeys | xlsx_to_json.py:103-197 | one mapped key carries over to headers with the same keys |
| XlsxToJsonProperties.HeaderMatch | xlsx_to_json.py:112-121 | a pattern list finds nothing iff no header, lower-cased and stripped, equals one of its patterns |
| XlsxToJsonProperties.MappedHeaderIsLast | xlsx_to_json.py:112-195 | a descriptive field maps to the last header matching its first hit pattern |
| XlsxToJson.BuildItem | xlsx_to_json.py:221-240 | the dict literal completed by the state loop is `ItemOf` |
| XlsxToJson.ConvertSheetToItems | xlsx_to_json.py:200-244 | `convert_sheet_to_items` returns `SheetItems` |
| XlsxToJson.WithPricesStep | xlsx_to_json.py:235-240 | one more state's price set |
| XlsxToJson.ItemsOfStep | xlsx_to_json.py:212-242 | one more row: its item is appended iff it has an item number |
| XlsxToJsonProperties.NoItemNumberHeader | xlsx_to_json.py:214-215 | a sheet without an item-number header yields no items |
| XlsxToJsonProperties.EmittingRowsSpec | xlsx_to_json.py:212-219 | the emitting rows are exactly the rows with an item number, in strictly increasing order |
| XlsxToJsonProperties.PositionsMembers | xlsx_to_json.py:212-219 | a row position is listed iff it lies before the bound and the row test holds for it |
| XlsxToJsonProperties.PositionsIncreasing | xlsx_to_json.py:212-219 | the listed positions strictly increase |
| XlsxToJsonProperties.PositionsBound | xlsx_to_json.py:212-242 | at most one position, hence at most one item, per row |
| XlsxToJsonProperties.ItemsOfPrefix | xlsx_to_json.py:212-242 | the items of the first rows are the items of their emitting rows, in row order |
| XlsxToJsonProperties.ItemsOfRows | xlsx_to_json.py:200-244 | the `k`-th item is the item of the `k`-th emitting row; no row is skipped unless it lacks an item number |
| XlsxToJsonProperties.WithPricesOther | xlsx_to_json.py:235-240 | the state loop leaves every non-price key as it was |
| XlsxToJsonProperties.WithPricesListed | xlsx_to_json.py:235-240 | the state loop sets every listed state's price from its column, or None |
| XlsxToJsonProperties.WithPricesKeys | xlsx_to_json.py:235-240 | the state loop adds only price keys |
| XlsxToJsonProperties.ItemOfField | xlsx_to_json.py:221-240 | every field is present: None without a column, else the cell normalised with the field's type |
| XlsxToJsonProperties.BaseItemField | xlsx_to_json.py:221-232 | the dict literal holds each descriptive field |
| XlsxToJsonProperties.ItemOfIdentity | xlsx_to_json.py:221-232 | `item_number` is the row's number and `raw_row_index` is the position plus 2 |
| XlsxToJsonProperties.ItemOfKeys | xlsx_to_json.py:221-240 | an item holds `item_number`, `raw_row_index` and the field keys, and nothing else |
| XlsxToJsonProperties.EmittedItemNumber | xlsx_to_json.py:217-222 | an emitted item's number is a non-empty stripped string, the identifier the comparison indexes by |
| XlsxToJsonProperties.RowIndexIncreasing | xlsx_to_json.py:212-242 | `raw_row_index` strictly increases along the item list |

## Left out

- Reading workbooks (`openpyxl`, `pandas.read_excel`), writing JSON, and the Streamlit pages are I/O. A sheet is given as its header row and its data rows.
- The date, float and int branches of `normalize_value` call `datetime.strptime`, `float()` and `int()`. They are parameters of the model (`Parsers`), applied only after the common missing-value check.
- `Value` has no case for the pandas `Timestamp`, `datetime` or `NaT` cells that `read_excel` gives for date columns. The source treats `NaT` as missing at xlsx_to_json.py:60 and formats a `datetime` as `%Y-%m-%d` at lines 75-76. In the model a date cell is text or another `Value`, read by the date parser parameter.
- The model has no floating point. A float cell carries the text `str()` gives for it. `pd.isna` is None or the text `nan`.
- `NormalizeForComparison` works on ASCII only. `strip` and `lower` do not model Unicode whitespace or case.
- `ItemNumberOf`: only a string item number indexes an item. A non-string truthy `item_number` is not modelled. The conversion always produces strings.
- Non-string column headers are not modelled: headers are strings.
- A row is a map from header to cell, so two columns with the same label cannot both be represented.
- `ConvertSheetToItems` takes the row position as the pandas index, which assumes the default range index.
- `Catalogue`: a missing `current_items` or `legacy_items` key is an empty list.
- `compare_catalogues` iterates a set in an unspecified order. The model states its result for some ordering, and proves that the partition does not depend on that ordering.
- The flat-schema comparison, `convert_catalogue_to_json`, sheet listing and preview are not part of this model. They are reading and glue around the modelled functions.
- The test fixture's scenarios are stated over generic items reduced to the relevant fields, not over the literal fixture dicts. For example, item 05_002_0002_1_1 is reduced to its name and NSW price.
- `SelfComparisonAnomalies`: comparing a catalogue with itself reports every number that is only legacy as an anomaly, since neither side has a current slot for it.
