/**
 * The version-comparison engine of the support catalogue tool: it reconciles
 * an OLD and a NEW catalogue, each split into current and legacy items, and
 * puts every item number into exactly one of seven buckets.
 */
module VersionDiff {
  import opened Wrappers
  import opened Text
  import opened Values

  // ---------------------------------------------------------------------
  // Normaliser

  /** `_normalize_for_comparison`: the text two field values are compared by. */
  function NormalizeForComparison(v: Value): string {
    match v
    case Null => ""
    case Str(s) => Lower(Trim(s))
    case _ => PyStr(v)
  }

  // ---------------------------------------------------------------------
  // Field-diff engine

  /** The fields compared, in the order they are compared and reported. */
  const ComparedFields: seq<Field> := [
    SupportName, RegistrationGroup, Category, Unit, ClaimType,
    PriceLimit(NSW), PriceLimit(VIC), PriceLimit(QLD), PriceLimit(SA),
    PriceLimit(WA), PriceLimit(TAS), PriceLimit(NT), PriceLimit(ACT),
    EffectiveFrom, EffectiveTo, Notes
  ]

  /** One entry `field: {'old': ..., 'new': ...}` of a changes dict. */
  datatype FieldChange = FieldChange(field: Field, oldValue: Value, newValue: Value)

  predicate Differs(oldItem: Item, newItem: Item, field: Field) {
    NormalizeForComparison(Get(oldItem, FieldName(field))) != NormalizeForComparison(Get(newItem, FieldName(field)))
  }

  function ChangeOf(oldItem: Item, newItem: Item, field: Field): FieldChange {
    FieldChange(field, Get(oldItem, FieldName(field)), Get(newItem, FieldName(field)))
  }

  /** The changes found by comparing `fields` in order; a dict is kept as an ordered list. */
  function ChangesOver(fields: seq<Field>, oldItem: Item, newItem: Item): seq<FieldChange> {
    if fields == [] then []
    else
      var field := fields[|fields| - 1];
      var earlier := ChangesOver(fields[..|fields| - 1], oldItem, newItem);
      if Differs(oldItem, newItem, field) then earlier + [ChangeOf(oldItem, newItem, field)] else earlier
  }

  function FieldChanges(oldItem: Item, newItem: Item): seq<FieldChange> {
    ChangesOver(ComparedFields, oldItem, newItem)
  }

  /** `_compute_field_changes`. */
  method ComputeFieldChanges(oldItem: Item, newItem: Item) returns (changes: seq<FieldChange>)
    ensures changes == FieldChanges(oldItem, newItem)
  {
    changes := [];
    for i := 0 to |ComparedFields|
      invariant changes == ChangesOver(ComparedFields[..i], oldItem, newItem)
    {
      var field := ComparedFields[i];
      var oldVal := Get(oldItem, FieldName(field));
      var newVal := Get(newItem, FieldName(field));
      var oldNormalized := NormalizeForComparison(oldVal);
      var newNormalized := NormalizeForComparison(newVal);
      assert ComparedFields[..i + 1][..i] == ComparedFields[..i];
      if oldNormalized != newNormalized {
        changes := changes + [FieldChange(field, oldVal, newVal)];
      }
    }
    assert ComparedFields[..|ComparedFields|] == ComparedFields;
  }

  // ---------------------------------------------------------------------
  // Indexer

  /** A catalogue snapshot; a missing list is an empty one. */
  datatype Catalogue = Catalogue(currentItems: seq<Item>, legacyItems: seq<Item>)

  /** The `{'current': ..., 'legacy': ...}` entry of an index. */
  datatype Slots = Slots(current: Option<Item>, legacy: Option<Item>)

  const NoSlots := Slots(None, None)

  type Index = map<string, Slots>

  /** The item number an item is indexed under; `""` when it has none. */
  function ItemNumberOf(item: Item): string {
    match Get(item, "item_number")
    case Str(s) => s
    case _ => ""
  }

  /** The non-empty item numbers of `items`. */
  function Numbers(items: seq<Item>): (ks: set<string>)
    ensures "" !in ks
  {
    if items == [] then {}
    else
      var k := ItemNumberOf(items[|items| - 1]);
      Numbers(items[..|items| - 1]) + (if k != "" then {k} else {})
  }

  /** The last item of `items` numbered `k`. */
  function LastWith(items: seq<Item>, k: string): Option<Item> {
    if items == [] then None
    else if ItemNumberOf(items[|items| - 1]) == k then Some(items[|items| - 1])
    else LastWith(items[..|items| - 1], k)
  }

  function IndexOver(current: seq<Item>, legacy: seq<Item>): Index {
    map k | k in Numbers(current) + Numbers(legacy) :: Slots(LastWith(current, k), LastWith(legacy, k))
  }

  function CatalogueIndex(cat: Catalogue): Index {
    IndexOver(cat.currentItems, cat.legacyItems)
  }

  function SlotsAt(index: Index, k: string): Slots {
    if k in index then index[k] else NoSlots
  }

  lemma {:induction false} LastWithNumbers(items: seq<Item>, k: string)
    requires k != ""
    ensures LastWith(items, k).Some? <==> k in Numbers(items)
  {
    if items != [] {
      LastWithNumbers(items[..|items| - 1], k);
    }
  }

  lemma NumbersAppend(items: seq<Item>, item: Item)
    ensures var k := ItemNumberOf(item);
      Numbers(items + [item]) == Numbers(items) + (if k != "" then {k} else {})
    ensures forall j :: LastWith(items + [item], j) == if ItemNumberOf(item) == j then Some(item) else LastWith(items, j)
  {
    var longer := items + [item];
    assert longer[..|longer| - 1] == items;
  }

  lemma IndexAddCurrent(current: seq<Item>, legacy: seq<Item>, item: Item)
    ensures var m, k := IndexOver(current, legacy), ItemNumberOf(item);
      IndexOver(current + [item], legacy)
        == if k == "" then m else m[k := SlotsAt(m, k).(current := Some(item))]
  {
    var m, k := IndexOver(current, legacy), ItemNumberOf(item);
    var lhs := IndexOver(current + [item], legacy);
    NumbersAppend(current, item);
    if k != "" {
      LastWithNumbers(legacy, k);
      var rhs := m[k := SlotsAt(m, k).(current := Some(item))];
      assert lhs.Keys == rhs.Keys;
      forall j | j in lhs ensures lhs[j] == rhs[j] {
      }
    } else {
      assert lhs.Keys == m.Keys;
      forall j | j in lhs ensures lhs[j] == m[j] {
      }
    }
  }

  lemma IndexAddLegacy(current: seq<Item>, legacy: seq<Item>, item: Item)
    ensures var m, k := IndexOver(current, legacy), ItemNumberOf(item);
      IndexOver(current, legacy + [item])
        == if k == "" then m else m[k := SlotsAt(m, k).(legacy := Some(item))]
  {
    var m, k := IndexOver(current, legacy), ItemNumberOf(item);
    var lhs := IndexOver(current, legacy + [item]);
    NumbersAppend(legacy, item);
    if k != "" {
      LastWithNumbers(current, k);
      var rhs := m[k := SlotsAt(m, k).(legacy := Some(item))];
      assert lhs.Keys == rhs.Keys;
      forall j | j in lhs ensures lhs[j] == rhs[j] {
      }
    } else {
      assert lhs.Keys == m.Keys;
      forall j | j in lhs ensures lhs[j] == m[j] {
      }
    }
  }

  /** `_index_catalogue`: the current items first, then the legacy items. */
  method IndexCatalogue(cat: Catalogue) returns (index: Index)
    ensures index == CatalogueIndex(cat)
  {
    index := IndexCurrentItems(cat.currentItems);
    index := IndexLegacyItems(index, cat.currentItems, cat.legacyItems);
  }

  /** The first loop of `_index_catalogue`: fill the current slots. */
  method IndexCurrentItems(current: seq<Item>) returns (index: Index)
    ensures index == IndexOver(current, [])
  {
    index := map[];
    for i := 0 to |current|
      invariant index == IndexOver(current[..i], [])
    {
      var item := current[i];
      IndexAddCurrent(current[..i], [], item);
      assert current[..i + 1] == current[..i] + [item];
      var itemNum := ItemNumberOf(item);
      if itemNum != "" {
        if itemNum !in index {
          index := index[itemNum := NoSlots];
        }
        index := index[itemNum := index[itemNum].(current := Some(item))];
      }
    }
    assert current[..|current|] == current;
  }

  /** The second loop of `_index_catalogue`: fill the legacy slots of the index of `current`. */
  method IndexLegacyItems(index0: Index, current: seq<Item>, legacy: seq<Item>) returns (index: Index)
    requires index0 == IndexOver(current, [])
    ensures index == IndexOver(current, legacy)
  {
    index := index0;
    for j := 0 to |legacy|
      invariant index == IndexOver(current, legacy[..j])
    {
      var item := legacy[j];
      IndexAddLegacy(current, legacy[..j], item);
      assert legacy[..j + 1] == legacy[..j] + [item];
      var itemNum := ItemNumberOf(item);
      if itemNum != "" {
        if itemNum !in index {
          index := index[itemNum := NoSlots];
        }
        index := index[itemNum := index[itemNum].(legacy := Some(item))];
      }
    }
    assert legacy[..|legacy|] == legacy;
  }

  // ---------------------------------------------------------------------
  // Classifier

  /** One record of one of the seven result lists. */
  datatype Entry =
    | Added(itemNumber: string, item: Item)
    | Removed(itemNumber: string, item: Item, requiresReview: bool)
    | MovedToLegacy(itemNumber: string, oldItem: Item, newLegacyItem: Item)
    | LegacyRemoved(itemNumber: string, item: Item)
    | Modified(itemNumber: string, oldItem: Item, newItem: Item, changes: seq<FieldChange>)
    | Unchanged(itemNumber: string, item: Item)
    | Anomaly(itemNumber: string, oldCurrent: Option<Item>, oldLegacy: Option<Item>,
              newCurrent: Option<Item>, newLegacy: Option<Item>, description: string)

  /** The seven result lists, by name. */
  datatype BucketName =
    | AddedBucket | RemovedBucket | MovedToLegacyBucket | LegacyRemovedBucket
    | ModifiedBucket | UnchangedBucket | AnomaliesBucket

  function CategoryOf(e: Entry): BucketName {
    match e
    case Added(_, _) => AddedBucket
    case Removed(_, _, _) => RemovedBucket
    case MovedToLegacy(_, _, _) => MovedToLegacyBucket
    case LegacyRemoved(_, _) => LegacyRemovedBucket
    case Modified(_, _, _, _) => ModifiedBucket
    case Unchanged(_, _) => UnchangedBucket
    case Anomaly(_, _, _, _, _, _) => AnomaliesBucket
  }

  const AnomalyPrefix := "Unusual transition: "

  /** The separator of the anomaly description, three characters between spaces, kept as written. */
  const Arrow := " \U{00E2}\U{2020}\U{2019} "

  /** The slot names, in the order an anomaly description lists them. */
  const SlotLabels: seq<string> := ["OLD Current", "OLD Legacy", "NEW Current", "NEW Legacy"]

  /** Which of the four slots OLD Current, OLD Legacy, NEW Current, NEW Legacy are filled. */
  function Presence(o: Slots, n: Slots): seq<bool> {
    [o.current.Some?, o.legacy.Some?, n.current.Some?, n.legacy.Some?]
  }

  /** The `anomaly_desc` list. */
  function PresentLabels(o: Slots, n: Slots): seq<string> {
    (if o.current.Some? then ["OLD Current"] else [])
    + (if o.legacy.Some? then ["OLD Legacy"] else [])
    + (if n.current.Some? then ["NEW Current"] else [])
    + (if n.legacy.Some? then ["NEW Legacy"] else [])
  }

  /** `sep.join(parts)`. */
  function Join(sep: string, parts: seq<string>): string {
    if parts == [] then ""
    else if |parts| == 1 then parts[0]
    else parts[0] + sep + Join(sep, parts[1..])
  }

  function AnomalyDescription(o: Slots, n: Slots): string {
    AnomalyPrefix + Join(Arrow, PresentLabels(o, n))
  }

  /** The decision table of `compare_catalogues` for one item number: the first rule that matches wins. */
  function Classify(k: string, o: Slots, n: Slots): (e: Entry)
    ensures e.itemNumber == k
  {
    if n.current.Some? && o.current.None? && o.legacy.None? then
      Added(k, n.current.value)
    else if o.current.Some? && n.current.None? && n.legacy.None? then
      Removed(k, o.current.value, true)
    else if o.current.Some? && n.legacy.Some? && n.current.None? then
      MovedToLegacy(k, o.current.value, n.legacy.value)
    else if o.legacy.Some? && n.current.None? && n.legacy.None? then
      LegacyRemoved(k, o.legacy.value)
    else if o.current.Some? && n.current.Some? then
      var changes := FieldChanges(o.current.value, n.current.value);
      if changes != [] then Modified(k, o.current.value, n.current.value, changes)
      else Unchanged(k, n.current.value)
    else
      Anomaly(k, o.current, o.legacy, n.current, n.legacy, AnomalyDescription(o, n))
  }

  function Decision(oldIndex: Index, newIndex: Index, k: string): Entry {
    Classify(k, SlotsAt(oldIndex, k), SlotsAt(newIndex, k))
  }

  /** The decision for every item number, given the two indexes. */
  function DecideWith(oldIndex: Index, newIndex: Index): string -> Entry {
    k => Decision(oldIndex, newIndex, k)
  }

  /** The `results` dict of `compare_catalogues`. */
  datatype Comparison = Comparison(
    added: seq<Entry>, removed: seq<Entry>, movedToLegacy: seq<Entry>, legacyRemoved: seq<Entry>,
    modified: seq<Entry>, unchangedItems: seq<Entry>, anomalies: seq<Entry>)

  const EmptyComparison := Comparison([], [], [], [], [], [], [])

  function Bucket(r: Comparison, c: BucketName): seq<Entry> {
    match c
    case AddedBucket => r.added
    case RemovedBucket => r.removed
    case MovedToLegacyBucket => r.movedToLegacy
    case LegacyRemovedBucket => r.legacyRemoved
    case ModifiedBucket => r.modified
    case UnchangedBucket => r.unchangedItems
    case AnomaliesBucket => r.anomalies
  }

  /** `r` with `e` appended to the list of its category. */
  function Append(r: Comparison, e: Entry): Comparison {
    match CategoryOf(e)
    case AddedBucket => r.(added := r.added + [e])
    case RemovedBucket => r.(removed := r.removed + [e])
    case MovedToLegacyBucket => r.(movedToLegacy := r.movedToLegacy + [e])
    case LegacyRemovedBucket => r.(legacyRemoved := r.legacyRemoved + [e])
    case ModifiedBucket => r.(modified := r.modified + [e])
    case UnchangedBucket => r.(unchangedItems := r.unchangedItems + [e])
    case AnomaliesBucket => r.(anomalies := r.anomalies + [e])
  }

  function TotalEntries(r: Comparison): nat {
    |r.added| + |r.removed| + |r.movedToLegacy| + |r.legacyRemoved|
    + |r.modified| + |r.unchangedItems| + |r.anomalies|
  }

  function NumbersIn(es: seq<Entry>): set<string> {
    set e | e in es :: e.itemNumber
  }

  predicate DistinctNumbers(es: seq<Entry>) {
    forall i, j :: 0 <= i < j < |es| ==> es[i].itemNumber != es[j].itemNumber
  }

  /**
   * `r` holds, for each item number in `done` and no other, the record
   * `decide` makes for it, once, in the list of its category.
   */
  ghost predicate ClassifiedAs(decide: string -> Entry, done: set<string>, r: Comparison) {
    BucketsSound(decide, done, r) && BucketsComplete(decide, done, r) && BucketsDistinct(done, r)
  }

  /** Every record of `r` is the decision for a number of `done`, in the list of its category. */
  ghost predicate BucketsSound(decide: string -> Entry, done: set<string>, r: Comparison) {
    forall c, e :: e in Bucket(r, c) ==> e.itemNumber in done && e == decide(e.itemNumber) && CategoryOf(e) == c
  }

  /** The decision for every number of `done` is in the list of its category. */
  ghost predicate BucketsComplete(decide: string -> Entry, done: set<string>, r: Comparison) {
    forall k :: k in done ==> decide(k).itemNumber == k && decide(k) in Bucket(r, CategoryOf(decide(k)))
  }

  /** No list of `r` holds a number twice, and `r` has as many records as `done` has numbers. */
  ghost predicate BucketsDistinct(done: set<string>, r: Comparison) {
    (forall c :: DistinctNumbers(Bucket(r, c))) && TotalEntries(r) == |done|
  }

  /** `decide` makes, for each number of `ks`, a record of that number. */
  ghost predicate NumberedOn(decide: string -> Entry, ks: set<string>) {
    forall k :: k in ks ==> decide(k).itemNumber == k
  }

  /** `order` lists every element of `ks` exactly once: one order a set may be iterated in. */
  ghost predicate Lists(order: seq<string>, ks: set<string>) {
    && (forall i, j :: 0 <= i < j < |order| ==> order[i] != order[j])
    && (forall k :: k in ks <==> k in order)
  }

  /** The records decided for the item numbers of `order`, in that order. */
  function Decisions(decide: string -> Entry, order: seq<string>): (es: seq<Entry>)
    ensures |es| == |order|
    ensures forall i :: 0 <= i < |order| ==> es[i] == decide(order[i])
  {
    if order == [] then []
    else Decisions(decide, order[..|order| - 1]) + [decide(order[|order| - 1])]
  }

  /** The buckets obtained by appending the records of `es` one after another. */
  function Sort(es: seq<Entry>): Comparison {
    if es == [] then EmptyComparison else Append(Sort(es[..|es| - 1]), es[|es| - 1])
  }

  /** The records of `es` whose category is `c`, in order. */
  function Filter(es: seq<Entry>, c: BucketName): (fs: seq<Entry>)
    ensures forall e :: e in fs <==> e in es && CategoryOf(e) == c
  {
    if es == [] then []
    else
      var earlier := Filter(es[..|es| - 1], c);
      assert forall e :: e in es <==> e in es[..|es| - 1] || e == es[|es| - 1];
      if CategoryOf(es[|es| - 1]) == c then earlier + [es[|es| - 1]] else earlier
  }

  lemma AppendBuckets(r: Comparison, e: Entry)
    ensures forall c :: Bucket(Append(r, e), c) == if c == CategoryOf(e) then Bucket(r, c) + [e] else Bucket(r, c)
    ensures TotalEntries(Append(r, e)) == TotalEntries(r) + 1
  {
  }

  /** Each bucket of `Sort(es)` is the filter of `es` by that category; nothing is lost. */
  lemma {:induction false} SortBuckets(es: seq<Entry>)
    ensures forall c :: Bucket(Sort(es), c) == Filter(es, c)
    ensures TotalEntries(Sort(es)) == |es|
  {
    if es != [] {
      SortBuckets(es[..|es| - 1]);
      AppendBuckets(Sort(es[..|es| - 1]), es[|es| - 1]);
    }
  }

  lemma {:induction false} FilterDistinct(es: seq<Entry>, c: BucketName)
    requires DistinctNumbers(es)
    ensures DistinctNumbers(Filter(es, c))
  {
    if es != [] {
      var init, last := es[..|es| - 1], es[|es| - 1];
      assert DistinctNumbers(init);
      FilterDistinct(init, c);
      if CategoryOf(last) == c {
        var fs := Filter(init, c);
        forall i | 0 <= i < |fs| ensures fs[i].itemNumber != last.itemNumber {
          assert fs[i] in init;
        }
      }
    }
  }

  lemma {:induction false} ListsCard(order: seq<string>, ks: set<string>)
    requires Lists(order, ks)
    ensures |ks| == |order|
  {
    if order != [] {
      var init, last := order[..|order| - 1], order[|order| - 1];
      assert Lists(init, ks - {last}) by {
        forall k ensures k in ks - {last} <==> k in init {
          assert k in order <==> k in init || k == last;
        }
      }
      ListsCard(init, ks - {last});
    }
  }

  /** Every record in a bucket of the sorted decisions is the decision for a listed number, of that category. */
  lemma DecisionsSound(decide: string -> Entry, order: seq<string>, ks: set<string>)
    requires Lists(order, ks) && NumberedOn(decide, ks)
    ensures BucketsSound(decide, ks, Sort(Decisions(decide, order)))
  {
    var es := Decisions(decide, order);
    SortBuckets(es);
    forall c, e | e in Bucket(Sort(es), c)
      ensures e.itemNumber in ks && e == decide(e.itemNumber) && CategoryOf(e) == c
    {
      var i :| 0 <= i < |es| && es[i] == e;
      assert order[i] in ks;
    }
  }

  /** The decision for every listed number is in the bucket of its category. */
  lemma DecisionsComplete(decide: string -> Entry, order: seq<string>, ks: set<string>)
    requires Lists(order, ks) && NumberedOn(decide, ks)
    ensures BucketsComplete(decide, ks, Sort(Decisions(decide, order)))
  {
    var es := Decisions(decide, order);
    SortBuckets(es);
    forall k | k in ks ensures decide(k).itemNumber == k && decide(k) in Bucket(Sort(es), CategoryOf(decide(k))) {
      var i :| 0 <= i < |order| && order[i] == k;
      assert es[i] in es;
    }
  }

  /** No bucket of the sorted decisions holds two records for one number, and there are as many records as numbers. */
  lemma DecisionsDistinct(decide: string -> Entry, order: seq<string>, ks: set<string>)
    requires Lists(order, ks) && NumberedOn(decide, ks)
    ensures BucketsDistinct(ks, Sort(Decisions(decide, order)))
  {
    var es := Decisions(decide, order);
    SortBuckets(es);
    ListsCard(order, ks);
    assert DistinctNumbers(es) by {
      forall i, j | 0 <= i < j < |es| ensures es[i].itemNumber != es[j].itemNumber {
        assert order[i] in ks && order[j] in ks;
      }
    }
    forall c ensures DistinctNumbers(Bucket(Sort(es), c)) {
      FilterDistinct(es, c);
    }
  }

  /** Records decided in the order `order` and sorted into buckets classify exactly the numbers listed. */
  lemma DecisionsClassified(decide: string -> Entry, order: seq<string>, ks: set<string>)
    requires Lists(order, ks) && NumberedOn(decide, ks)
    ensures ClassifiedAs(decide, ks, Sort(Decisions(decide, order)))
  {
    DecisionsSound(decide, order, ks);
    DecisionsComplete(decide, order, ks);
    DecisionsDistinct(decide, order, ks);
  }

  /** The body of the loop of `compare_catalogues`: the record made for one item number. */
  method ClassifyItem(itemNum: string, oldEntry: Slots, newEntry: Slots) returns (entry: Entry)
    ensures entry == Classify(itemNum, oldEntry, newEntry)
  {
    var oldCurrent, oldLegacy := oldEntry.current, oldEntry.legacy;
    var newCurrent, newLegacy := newEntry.current, newEntry.legacy;
    if newCurrent.Some? && oldCurrent.None? && oldLegacy.None? {
      entry := Added(itemNum, newCurrent.value);
    } else if oldCurrent.Some? && newCurrent.None? && newLegacy.None? {
      entry := Removed(itemNum, oldCurrent.value, true);
    } else if oldCurrent.Some? && newLegacy.Some? && newCurrent.None? {
      entry := MovedToLegacy(itemNum, oldCurrent.value, newLegacy.value);
    } else if oldLegacy.Some? && newCurrent.None? && newLegacy.None? {
      entry := LegacyRemoved(itemNum, oldLegacy.value);
    } else if oldCurrent.Some? && newCurrent.Some? {
      var changes := ComputeFieldChanges(oldCurrent.value, newCurrent.value);
      if changes != [] {
        entry := Modified(itemNum, oldCurrent.value, newCurrent.value, changes);
      } else {
        entry := Unchanged(itemNum, newCurrent.value);
      }
    } else {
      var anomalyDesc: seq<string> := [];
      if oldCurrent.Some? {
        anomalyDesc := anomalyDesc + ["OLD Current"];
      }
      if oldLegacy.Some? {
        anomalyDesc := anomalyDesc + ["OLD Legacy"];
      }
      if newCurrent.Some? {
        anomalyDesc := anomalyDesc + ["NEW Current"];
      }
      if newLegacy.Some? {
        anomalyDesc := anomalyDesc + ["NEW Legacy"];
      }
      assert anomalyDesc == PresentLabels(oldEntry, newEntry);
      entry := Anomaly(itemNum, oldCurrent, oldLegacy, newCurrent, newLegacy,
                       AnomalyPrefix + Join(Arrow, anomalyDesc));
    }
  }

  /** `compare_catalogues`: index both catalogues, then classify every item number of either. */
  method CompareCatalogues(oldCat: Catalogue, newCat: Catalogue) returns (results: Comparison)
    ensures var oldIndex, newIndex := CatalogueIndex(oldCat), CatalogueIndex(newCat);
      ClassifiedAs(DecideWith(oldIndex, newIndex), oldIndex.Keys + newIndex.Keys, results)
  {
    var oldIndex := IndexCatalogue(oldCat);
    var newIndex := IndexCatalogue(newCat);
    results := ClassifyAll(oldIndex, newIndex);
    ghost var decide, all := DecideWith(oldIndex, newIndex), oldIndex.Keys + newIndex.Keys;
    ghost var order :| Lists(order, all) && results == Sort(Decisions(decide, order));
    DecisionsClassified(decide, order, all);
  }

  /** One more item number listed. */
  lemma ListsStep(order: seq<string>, ks: set<string>, k: string)
    requires Lists(order, ks) && k !in ks
    ensures Lists(order + [k], ks + {k})
  {
    forall i, j | 0 <= i < j < |order| + 1 ensures (order + [k])[i] != (order + [k])[j] {
      if j == |order| {
        assert order[i] in ks;
      }
    }
  }

  /** One more decision sorted into its bucket. */
  lemma SortDecisionsStep(decide: string -> Entry, order: seq<string>, k: string)
    ensures Sort(Decisions(decide, order + [k])) == Append(Sort(Decisions(decide, order)), decide(k))
  {
    assert (order + [k])[..|order|] == order;
    var es := Decisions(decide, order);
    assert (es + [decide(k)])[..|es|] == es;
  }

  /**
   * The loop of `compare_catalogues`. A set is iterated in an unspecified
   * order, so the result is the records decided in SOME order of the item
   * numbers, each appended to the list of its category.
   */
  method ClassifyAll(oldIndex: Index, newIndex: Index) returns (results: Comparison)
    ensures exists order ::
              Lists(order, oldIndex.Keys + newIndex.Keys) && results == Sort(Decisions(DecideWith(oldIndex, newIndex), order))
  {
    var allItemNumbers := oldIndex.Keys + newIndex.Keys;
    results := EmptyComparison;
    var remaining := allItemNumbers;
    ghost var order: seq<string> := [];
    while remaining != {}
      invariant remaining <= allItemNumbers
      invariant Lists(order, allItemNumbers - remaining)
      invariant results == Sort(Decisions(DecideWith(oldIndex, newIndex), order))
      decreases remaining
    {
      var itemNum :| itemNum in remaining;
      var oldEntry := SlotsAt(oldIndex, itemNum);
      var newEntry := SlotsAt(newIndex, itemNum);
      var entry := ClassifyItem(itemNum, oldEntry, newEntry);
      ListsStep(order, allItemNumbers - remaining, itemNum);
      assert allItemNumbers - (remaining - {itemNum}) == (allItemNumbers - remaining) + {itemNum};
      SortDecisionsStep(DecideWith(oldIndex, newIndex), order, itemNum);
      results := Append(results, entry);
      order := order + [itemNum];
      remaining := remaining - {itemNum};
    }
    assert allItemNumbers - remaining == allItemNumbers;
  }

  // ---------------------------------------------------------------------
  // Projections

  /** One row of the modified-items table. */
  datatype TableRow = TableRow(itemNumber: string, field: Field, oldValue: Value, newValue: Value)

  predicate AllModified(es: seq<Entry>) {
    forall e :: e in es ==> e.Modified?
  }

  function RowsOf(e: Entry): seq<TableRow>
    requires e.Modified?
  {
    seq(|e.changes|, i requires 0 <= i < |e.changes| =>
      TableRow(e.itemNumber, e.changes[i].field, e.changes[i].oldValue, e.changes[i].newValue))
  }

  function ModifiedTable(es: seq<Entry>): seq<TableRow>
    requires AllModified(es)
  {
    if es == [] then [] else ModifiedTable(es[..|es| - 1]) + RowsOf(es[|es| - 1])
  }

  /** `create_modified_items_table`; it reads `item_number` and `changes`, which only modified records have. */
  method CreateModifiedItemsTable(modifiedItems: seq<Entry>) returns (rows: seq<TableRow>)
    requires AllModified(modifiedItems)
    ensures rows == ModifiedTable(modifiedItems)
  {
    rows := [];
    for i := 0 to |modifiedItems|
      invariant rows == ModifiedTable(modifiedItems[..i])
    {
      var modified := modifiedItems[i];
      var itemNum := modified.itemNumber;
      var changes := modified.changes;
      assert modifiedItems[..i + 1][..i] == modifiedItems[..i];
      for j := 0 to |changes|
        invariant rows == ModifiedTable(modifiedItems[..i]) + RowsOf(modified)[..j]
      {
        assert RowsOf(modified)[..j + 1] == RowsOf(modified)[..j] + [RowsOf(modified)[j]];
        rows := rows + [TableRow(itemNum, changes[j].field, changes[j].oldValue, changes[j].newValue)];
      }
      assert RowsOf(modified)[..|changes|] == RowsOf(modified);
    }
    assert modifiedItems[..|modifiedItems|] == modifiedItems;
  }

  /** The dict returned by `get_comparison_summary`. */
  datatype Summary = Summary(
    added: nat, removed: nat, movedToLegacy: nat, legacyRemoved: nat,
    modified: nat, unchangedItems: nat, anomalies: nat, totalItemsCompared: nat)

  /** `get_comparison_summary`: the length of each list, then their sum. */
  function ComparisonSummary(r: Comparison): Summary {
    var s := Summary(|r.added|, |r.removed|, |r.movedToLegacy|, |r.legacyRemoved|,
                     |r.modified|, |r.unchangedItems|, |r.anomalies|, 0);
    s.(totalItemsCompared := s.added + s.removed + s.movedToLegacy + s.legacyRemoved
                             + s.modified + s.unchangedItems + s.anomalies)
  }
}
