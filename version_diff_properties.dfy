/**
 * What the comparison engine promises: normalisation that ignores padding
 * and case, field changes that are exactly the differing fields, an index
 * holding the last item of each number, a decision table that puts every
 * item number in exactly one bucket, and the counts built on top of it.
 */
module VersionDiffProperties {
  import opened Wrappers
  import opened Text
  import opened Values
  import opened VersionDiff

  // ---------------------------------------------------------------------
  // Normaliser

  /** Surrounding whitespace does not change how a string compares. */
  lemma NormalizeIgnoresPadding(pre: string, s: string, post: string)
    requires AllSpace(pre) && AllSpace(post)
    ensures NormalizeForComparison(Str(pre + s + post)) == NormalizeForComparison(Str(s))
  {
    TrimIgnoresPadding(pre, s, post);
  }

  /** Neither does letter case. */
  lemma NormalizeIgnoresCase(s: string)
    ensures NormalizeForComparison(Str(Lower(s))) == NormalizeForComparison(Str(s))
  {
    LowerTrim(s);
    LowerIdempotent(Trim(s));
  }

  /** None and the empty string compare equal, and only the empty or blank string compares equal to None. */
  lemma NormalizeNoneIsBlank(s: string)
    ensures NormalizeForComparison(Null) == NormalizeForComparison(Str("")) == ""
    ensures NormalizeForComparison(Str(s)) == NormalizeForComparison(Null) <==> Trim(s) == ""
  {
  }

  /** A normalised string is lower case and has no surrounding whitespace. */
  lemma NormalizedStringIsCanonical(s: string)
    ensures var r := NormalizeForComparison(Str(s));
      Lower(r) == r && (r == [] || (!IsSpace(r[0]) && !IsSpace(r[|r| - 1])))
  {
    LowerUnpadded(Trim(s));
  }

  /**
   * Values of other types compare by their `str()` text, so a number never
   * equals None. `str()` of a Python float is never empty.
   */
  lemma NormalizeNonString(v: Value)
    requires !v.Null? && !v.Str?
    requires v.Float? ==> v.text != ""
    ensures NormalizeForComparison(v) == PyStr(v)
    ensures NormalizeForComparison(v) != NormalizeForComparison(Null)
  {
    match v
    case Bool(b) =>
    case Int(i) =>
      assert IntToString(i) != [] by {
        if i < 0 {
          assert IntToString(i) == "-" + NatToString(-i);
        } else {
          assert IntToString(i) == NatToString(i);
        }
      }
    case Float(t) =>
  }

  // ---------------------------------------------------------------------
  // Field-diff engine

  /** The fields named by a list of changes: the keys of the changes dict. */
  function ChangedFields(changes: seq<FieldChange>): set<Field> {
    set c | c in changes :: c.field
  }

  /** The position of a field in the compared list. */
  function FieldPos(f: Field): nat {
    match f
    case SupportName => 0
    case RegistrationGroup => 1
    case Category => 2
    case Unit => 3
    case ClaimType => 4
    case PriceLimit(s) =>
      5 + (match s case NSW => 0 case VIC => 1 case QLD => 2 case SA => 3
                   case WA => 4 case TAS => 5 case NT => 6 case ACT => 7)
    case EffectiveFrom => 13
    case EffectiveTo => 14
    case Notes => 15
  }

  /** Every field except `item_number` and `raw_row_index` is compared, once, at its position. */
  lemma ComparedFieldsPositions()
    ensures |ComparedFields| == 16
    ensures forall i :: 0 <= i < 16 ==> FieldPos(ComparedFields[i]) == i
    ensures forall f :: FieldPos(f) < 16 && ComparedFields[FieldPos(f)] == f
  {
  }

  /** A change is reported for a field iff the field is compared and differs, and it keeps the raw values. */
  lemma {:induction false} ChangesOverMembers(fields: seq<Field>, oldItem: Item, newItem: Item)
    ensures forall c :: c in ChangesOver(fields, oldItem, newItem) <==>
      c.field in fields && Differs(oldItem, newItem, c.field) && c == ChangeOf(oldItem, newItem, c.field)
  {
    if fields != [] {
      var init := fields[..|fields| - 1];
      ChangesOverMembers(init, oldItem, newItem);
      assert forall f :: f in fields <==> f in init || f == fields[|fields| - 1];
    }
  }

  /** The changes come in increasing field position, so no field twice. */
  predicate InFieldOrder(cs: seq<FieldChange>) {
    forall i, j :: 0 <= i < j < |cs| ==> FieldPos(cs[i].field) < FieldPos(cs[j].field)
  }

  /** Over fields listed in increasing position, the changes come in increasing position too. */
  lemma {:induction false} ChangesOverSorted(fields: seq<Field>, oldItem: Item, newItem: Item)
    requires forall i, j :: 0 <= i < j < |fields| ==> FieldPos(fields[i]) < FieldPos(fields[j])
    ensures InFieldOrder(ChangesOver(fields, oldItem, newItem))
  {
    if fields != [] {
      var init, last := fields[..|fields| - 1], fields[|fields| - 1];
      ChangesOverSorted(init, oldItem, newItem);
      ChangesOverMembers(init, oldItem, newItem);
      var cs0 := ChangesOver(init, oldItem, newItem);
      var cs := ChangesOver(fields, oldItem, newItem);
      forall i | 0 <= i < |cs0| ensures FieldPos(cs0[i].field) < FieldPos(last) {
        assert cs0[i] in cs0;
        var p :| 0 <= p < |init| && init[p] == cs0[i].field;
        assert fields[p] == init[p];
      }
      if Differs(oldItem, newItem, last) {
        assert cs == cs0 + [ChangeOf(oldItem, newItem, last)];
        forall i, j | 0 <= i < j < |cs| ensures FieldPos(cs[i].field) < FieldPos(cs[j].field) {
          assert cs[i] == cs0[i];
          if j < |cs0| {
            assert cs[j] == cs0[j];
          }
        }
      } else {
        assert cs == cs0;
      }
    }
  }

  /**
   * `_compute_field_changes`: a field is a key of the result iff its
   * normalised old and new values differ, and its entry holds the raw values.
   */
  lemma FieldChangesSpec(oldItem: Item, newItem: Item)
    ensures forall f :: f in ChangedFields(FieldChanges(oldItem, newItem)) <==> Differs(oldItem, newItem, f)
    ensures forall c :: c in FieldChanges(oldItem, newItem) ==>
      c.oldValue == Get(oldItem, FieldName(c.field)) && c.newValue == Get(newItem, FieldName(c.field))
  {
    ChangesOverMembers(ComparedFields, oldItem, newItem);
    ComparedFieldsPositions();
    forall f | Differs(oldItem, newItem, f) ensures f in ChangedFields(FieldChanges(oldItem, newItem)) {
      assert ChangeOf(oldItem, newItem, f) in FieldChanges(oldItem, newItem);
    }
  }

  /** The keys of the changes dict come in the compared order, so none twice. */
  lemma FieldChangesInOrder(oldItem: Item, newItem: Item)
    ensures InFieldOrder(FieldChanges(oldItem, newItem))
  {
    ComparedFieldsPositions();
    ChangesOverSorted(ComparedFields, oldItem, newItem);
  }

  /** No changes iff every compared field has equal normalised values. */
  lemma NoChangesIff(oldItem: Item, newItem: Item)
    ensures FieldChanges(oldItem, newItem) == [] <==> forall f :: !Differs(oldItem, newItem, f)
  {
    FieldChangesSpec(oldItem, newItem);
    var cs := FieldChanges(oldItem, newItem);
    if cs != [] {
      assert cs[0] in cs;
      assert cs[0].field in ChangedFields(cs);
    }
  }

  /** Comparing an item with itself yields no changes. */
  lemma NoChangesWithSelf(item: Item)
    ensures FieldChanges(item, item) == []
  {
    NoChangesIff(item, item);
  }

  /** Padding or case differences in a string field are not reported. */
  lemma CosmeticEditNotReported(oldItem: Item, f: Field, pre: string, s: string, post: string)
    requires AllSpace(pre) && AllSpace(post)
    requires Get(oldItem, FieldName(f)) == Str(s)
    ensures FieldChanges(oldItem, oldItem[FieldName(f) := Str(pre + Lower(s) + post)]) == []
  {
    var newItem := oldItem[FieldName(f) := Str(pre + Lower(s) + post)];
    NormalizeIgnoresPadding(pre, Lower(s), post);
    NormalizeIgnoresCase(s);
    forall g ensures !Differs(oldItem, newItem, g) {
      FieldNamesDistinct(f, g);
    }
    NoChangesIff(oldItem, newItem);
  }

  // ---------------------------------------------------------------------
  // Indexer

  /** `Numbers(items)` holds exactly the non-empty item numbers occurring in `items`. */
  lemma {:induction false} NumbersSpec(items: seq<Item>)
    ensures forall k :: k in Numbers(items) <==>
      k != "" && exists i :: 0 <= i < |items| && ItemNumberOf(items[i]) == k
  {
    if items != [] {
      var init := items[..|items| - 1];
      NumbersSpec(init);
      forall k | k != "" && (exists i :: 0 <= i < |items| && ItemNumberOf(items[i]) == k)
        ensures k in Numbers(items)
      {
        var i :| 0 <= i < |items| && ItemNumberOf(items[i]) == k;
        if i < |init| {
          assert ItemNumberOf(init[i]) == k;
        }
      }
      forall k | k in Numbers(items)
        ensures exists i :: 0 <= i < |items| && ItemNumberOf(items[i]) == k
      {
        if k in Numbers(init) {
          var i :| 0 <= i < |init| && ItemNumberOf(init[i]) == k;
          assert ItemNumberOf(items[i]) == k;
        } else {
          assert ItemNumberOf(items[|items| - 1]) == k;
        }
      }
    }
  }

  /** `LastWith(items, k)` is the item at the last position numbered `k`, if there is one. */
  lemma {:induction false} LastWithSpec(items: seq<Item>, k: string)
    ensures LastWith(items, k).None? <==> forall i :: 0 <= i < |items| ==> ItemNumberOf(items[i]) != k
    ensures LastWith(items, k).Some? ==>
      exists i :: (0 <= i < |items| && items[i] == LastWith(items, k).value
                   && ItemNumberOf(items[i]) == k && forall j :: i < j < |items| ==> ItemNumberOf(items[j]) != k)
  {
    if items != [] {
      var init := items[..|items| - 1];
      LastWithSpec(init, k);
      if ItemNumberOf(items[|items| - 1]) != k {
        assert forall i :: 0 <= i < |init| ==> init[i] == items[i];
        if LastWith(init, k).Some? {
          var i :| 0 <= i < |init| && init[i] == LastWith(init, k).value
            && ItemNumberOf(init[i]) == k && forall j :: i < j < |init| ==> ItemNumberOf(init[j]) != k;
          assert items[i] == LastWith(items, k).value;
        }
      }
    }
  }

  /**
   * `_index_catalogue`: the keys are exactly the non-empty item numbers of
   * the current and legacy items, and each slot holds the last item of its
   * list with that number, or None when the list has none.
   */
  lemma IndexSpec(cat: Catalogue, k: string)
    ensures k in CatalogueIndex(cat) <==> k in Numbers(cat.currentItems) || k in Numbers(cat.legacyItems)
    ensures k in CatalogueIndex(cat) ==>
      CatalogueIndex(cat)[k] == Slots(LastWith(cat.currentItems, k), LastWith(cat.legacyItems, k))
    ensures k !in CatalogueIndex(cat) ==> SlotsAt(CatalogueIndex(cat), k) == NoSlots
  {
    if k != "" {
      LastWithNumbers(cat.currentItems, k);
      LastWithNumbers(cat.legacyItems, k);
    } else {
      assert k !in Numbers(cat.currentItems) && k !in Numbers(cat.legacyItems);
    }
  }

  /** Every indexed number has at least one filled slot, and a number in both lists fills both. */
  lemma IndexSlotsFilled(cat: Catalogue, k: string)
    requires k in CatalogueIndex(cat)
    ensures var sl := CatalogueIndex(cat)[k];
      && (sl.current.Some? <==> k in Numbers(cat.currentItems))
      && (sl.legacy.Some? <==> k in Numbers(cat.legacyItems))
      && (sl.current.Some? || sl.legacy.Some?)
  {
    LastWithNumbers(cat.currentItems, k);
    LastWithNumbers(cat.legacyItems, k);
  }

  // ---------------------------------------------------------------------
  // Classifier: the decision table

  /** The decision table in closed form: the category is fixed by which slots are filled. */
  lemma ClassifyCategory(k: string, o: Slots, n: Slots)
    ensures var c, oc, ol, nc, nl := CategoryOf(Classify(k, o, n)),
                                     o.current.Some?, o.legacy.Some?, n.current.Some?, n.legacy.Some?;
      && (c == AddedBucket <==> nc && !oc && !ol)
      && (c == RemovedBucket <==> oc && !nc && !nl)
      && (c == MovedToLegacyBucket <==> oc && !nc && nl)
      && (c == LegacyRemovedBucket <==> !oc && ol && !nc && !nl)
      && (c == ModifiedBucket <==> oc && nc && FieldChanges(o.current.value, n.current.value) != [])
      && (c == UnchangedBucket <==> oc && nc && FieldChanges(o.current.value, n.current.value) == [])
      && (c == AnomaliesBucket <==> !oc && (ol || !nc) && (nc || nl || !ol))
  {
  }

  /** What each record carries: the items from the slots, the review flag, the changes. */
  lemma ClassifyRecords(k: string, o: Slots, n: Slots)
    ensures var e := Classify(k, o, n);
      && (e.Added? ==> e.item == n.current.value)
      && (e.Removed? ==> e.item == o.current.value && e.requiresReview)
      && (e.MovedToLegacy? ==> e.oldItem == o.current.value && e.newLegacyItem == n.legacy.value)
      && (e.LegacyRemoved? ==> e.item == o.legacy.value)
      && (e.Modified? ==> e.oldItem == o.current.value && e.newItem == n.current.value
                          && e.changes == FieldChanges(o.current.value, n.current.value) && e.changes != [])
      && (e.Unchanged? ==> e.item == n.current.value)
      && (e.Anomaly? ==> e.oldCurrent == o.current && e.oldLegacy == o.legacy
                         && e.newCurrent == n.current && e.newLegacy == n.legacy
                         && e.description == AnomalyDescription(o, n))
  {
  }

  /** The rank of a slot label in the fixed order OLD Current, OLD Legacy, NEW Current, NEW Legacy. */
  function LabelRank(l: string): nat {
    if l == SlotLabels[0] then 0 else if l == SlotLabels[1] then 1 else if l == SlotLabels[2] then 2 else 3
  }

  /** The anomaly description lists a slot's label iff the slot is filled, and no other text. */
  lemma PresentLabelsMembers(o: Slots, n: Slots)
    ensures var labels, present := PresentLabels(o, n), Presence(o, n);
      && (forall i :: 0 <= i < 4 ==> (SlotLabels[i] in labels <==> present[i]))
      && (forall l :: l in labels ==> l in SlotLabels)
  {
    var a := if o.current.Some? then ["OLD Current"] else [];
    var b := if o.legacy.Some? then ["OLD Legacy"] else [];
    var c := if n.current.Some? then ["NEW Current"] else [];
    var d := if n.legacy.Some? then ["NEW Legacy"] else [];
    assert PresentLabels(o, n) == a + b + c + d;
    assert forall l :: l in a + b + c + d <==> l in a || l in b || l in c || l in d;
  }

  /** The labels of the anomaly description come in the fixed slot order, each at most once. */
  lemma PresentLabelsOrdered(o: Slots, n: Slots)
    ensures var labels := PresentLabels(o, n);
      forall i, j :: 0 <= i < j < |labels| ==> LabelRank(labels[i]) < LabelRank(labels[j])
  {
    var ranks := seq(4, i requires 0 <= i < 4 => LabelRank(SlotLabels[i]));
    assert ranks == [0, 1, 2, 3];
  }

  /** `sep.join` of one part is the part; of more, the first, the separator, and the join of the rest. */
  lemma JoinSmall(sep: string, a: string, b: string, c: string)
    ensures Join(sep, [a]) == a
    ensures Join(sep, [a, b]) == a + sep + b
    ensures Join(sep, [a, b, c]) == a + sep + b + sep + c
  {
    assert [a, b][1..] == [b];
    assert [a, b, c][1..] == [b, c];
    assert [b, c][1..] == [c];
    assert Join(sep, [b, c]) == b + sep + c;
    assert Join(sep, [a, b, c]) == a + sep + (b + sep + c);
  }

  /** `compare_catalogues` treats the added and removed cases symmetrically: swapping OLD and NEW swaps them. */
  lemma AddedRemovedSymmetry(oldIndex: Index, newIndex: Index, k: string)
    ensures Decision(oldIndex, newIndex, k).Added? <==> Decision(newIndex, oldIndex, k).Removed?
  {
  }

  // ---------------------------------------------------------------------
  // Classifier: partition and counts

  /** The numbers of `done` whose record falls in category `c`. */
  ghost function CategoryNumbers(decide: string -> Entry, done: set<string>, c: BucketName): set<string> {
    set k | k in done && CategoryOf(decide(k)) == c
  }

  /** The item numbers of `es`, in order. */
  function NumberList(es: seq<Entry>): (ks: seq<string>)
    ensures |ks| == |es| && forall i :: 0 <= i < |es| ==> ks[i] == es[i].itemNumber
  {
    seq(|es|, i requires 0 <= i < |es| => es[i].itemNumber)
  }

  lemma {:induction false} DistinctCard(ks: seq<string>)
    requires forall i, j :: 0 <= i < j < |ks| ==> ks[i] != ks[j]
    ensures |set k | k in ks| == |ks|
  {
    if ks != [] {
      var init, last := ks[..|ks| - 1], ks[|ks| - 1];
      DistinctCard(init);
      assert (set k | k in ks) == (set k | k in init) + {last};
    }
  }

  lemma DistinctNumbersCard(es: seq<Entry>)
    requires DistinctNumbers(es)
    ensures |NumbersIn(es)| == |es|
  {
    var ks := NumberList(es);
    DistinctCard(ks);
    assert NumbersIn(es) == set k | k in ks by {
      forall e | e in es ensures e.itemNumber in ks {
        var i :| 0 <= i < |es| && es[i] == e;
        assert ks[i] == e.itemNumber;
      }
    }
  }

  /** Partition, coverage: a number is compared iff some bucket lists it. */
  lemma PartitionCovers(decide: string -> Entry, done: set<string>, r: Comparison)
    requires ClassifiedAs(decide, done, r)
    ensures forall k :: k in done <==> exists c :: k in NumbersIn(Bucket(r, c))
  {
    forall k | k in done ensures exists c :: k in NumbersIn(Bucket(r, c)) {
      assert k in NumbersIn(Bucket(r, CategoryOf(decide(k))));
    }
    forall k, c | k in NumbersIn(Bucket(r, c)) ensures k in done {
      var e :| e in Bucket(r, c) && e.itemNumber == k;
    }
  }

  /** Partition, exclusivity: no number is in two buckets, and no bucket lists a number twice. */
  lemma PartitionExclusive(decide: string -> Entry, done: set<string>, r: Comparison)
    requires ClassifiedAs(decide, done, r)
    ensures forall c1, c2, k :: k in NumbersIn(Bucket(r, c1)) && k in NumbersIn(Bucket(r, c2)) ==> c1 == c2
    ensures forall c :: |Bucket(r, c)| == |NumbersIn(Bucket(r, c))|
  {
    forall c1, c2, k | k in NumbersIn(Bucket(r, c1)) && k in NumbersIn(Bucket(r, c2)) ensures c1 == c2 {
      var e1 :| e1 in Bucket(r, c1) && e1.itemNumber == k;
      var e2 :| e2 in Bucket(r, c2) && e2.itemNumber == k;
      BucketMember(decide, done, r, c1, e1);
      BucketMember(decide, done, r, c2, e2);
    }
    forall c | true ensures |Bucket(r, c)| == |NumbersIn(Bucket(r, c))| {
      DistinctNumbersCard(Bucket(r, c));
    }
  }

  /** Each bucket holds one record per compared number of its category. */
  lemma BucketNumbers(decide: string -> Entry, done: set<string>, r: Comparison, c: BucketName)
    requires ClassifiedAs(decide, done, r)
    ensures NumbersIn(Bucket(r, c)) == CategoryNumbers(decide, done, c)
    ensures |Bucket(r, c)| == |CategoryNumbers(decide, done, c)|
  {
    var b := Bucket(r, c);
    forall k | k in CategoryNumbers(decide, done, c) ensures k in NumbersIn(b) {
      assert decide(k) in b;
    }
    forall k | k in NumbersIn(b) ensures k in CategoryNumbers(decide, done, c) {
      var e :| e in b && e.itemNumber == k;
      BucketMember(decide, done, r, c, e);
    }
    assert DistinctNumbers(b);
    DistinctNumbersCard(b);
  }

  /** `get_comparison_summary`: each count is the number of compared numbers of that category, and the total is the number compared. */
  lemma SummaryCounts(decide: string -> Entry, done: set<string>, r: Comparison)
    requires ClassifiedAs(decide, done, r)
    ensures var s := ComparisonSummary(r);
      && s.added == |CategoryNumbers(decide, done, AddedBucket)|
      && s.removed == |CategoryNumbers(decide, done, RemovedBucket)|
      && s.movedToLegacy == |CategoryNumbers(decide, done, MovedToLegacyBucket)|
      && s.legacyRemoved == |CategoryNumbers(decide, done, LegacyRemovedBucket)|
      && s.modified == |CategoryNumbers(decide, done, ModifiedBucket)|
      && s.unchangedItems == |CategoryNumbers(decide, done, UnchangedBucket)|
      && s.anomalies == |CategoryNumbers(decide, done, AnomaliesBucket)|
      && s.totalItemsCompared == |done|
  {
    BucketNumbers(decide, done, r, AddedBucket);
    BucketNumbers(decide, done, r, RemovedBucket);
    BucketNumbers(decide, done, r, MovedToLegacyBucket);
    BucketNumbers(decide, done, r, LegacyRemovedBucket);
    BucketNumbers(decide, done, r, ModifiedBucket);
    BucketNumbers(decide, done, r, UnchangedBucket);
    BucketNumbers(decide, done, r, AnomaliesBucket);
  }

  /** The numbers `compare_catalogues` compares: every non-empty item number of the four lists. */
  lemma ComparedNumbers(oldCat: Catalogue, newCat: Catalogue)
    ensures CatalogueIndex(oldCat).Keys + CatalogueIndex(newCat).Keys
      == Numbers(oldCat.currentItems) + Numbers(oldCat.legacyItems)
         + Numbers(newCat.currentItems) + Numbers(newCat.legacyItems)
  {
  }

  // ---------------------------------------------------------------------
  // Comparing a catalogue with itself

  /** `r` is the outcome of comparing `cat` with itself. */
  ghost predicate SelfCompared(cat: Catalogue, r: Comparison) {
    var index := CatalogueIndex(cat);
    ClassifiedAs(DecideWith(index, index), index.Keys + index.Keys, r)
  }

  /** With the same index on both sides, a current number is unchanged and a legacy-only number is an anomaly. */
  lemma SelfDecision(cat: Catalogue, k: string)
    requires k in CatalogueIndex(cat)
    ensures var c := CategoryOf(Decision(CatalogueIndex(cat), CatalogueIndex(cat), k));
      && (k in Numbers(cat.currentItems) ==> c == UnchangedBucket)
      && (k !in Numbers(cat.currentItems) ==> c == AnomaliesBucket)
  {
    var index := CatalogueIndex(cat);
    IndexSlotsFilled(cat, k);
    var sl := index[k];
    if sl.current.Some? {
      NoChangesWithSelf(sl.current.value);
    }
  }

  /** What `ClassifiedAs` says of one record of one bucket. */
  lemma BucketMember(decide: string -> Entry, done: set<string>, r: Comparison, c: BucketName, e: Entry)
    requires ClassifiedAs(decide, done, r) && e in Bucket(r, c)
    ensures e.itemNumber in done && e == decide(e.itemNumber) && CategoryOf(e) == c
  {
  }

  /** With the same index on both sides, the bucket of a number depends only on whether it is current. */
  lemma SelfBucket(cat: Catalogue, e: Entry)
    requires var index := CatalogueIndex(cat); e.itemNumber in index && e == Decision(index, index, e.itemNumber)
    ensures CategoryOf(e) == UnchangedBucket || CategoryOf(e) == AnomaliesBucket
    ensures CategoryOf(e) == UnchangedBucket <==> e.itemNumber in Numbers(cat.currentItems)
    ensures e.itemNumber in Numbers(cat.currentItems) + Numbers(cat.legacyItems)
  {
    SelfDecision(cat, e.itemNumber);
    IndexSpec(cat, e.itemNumber);
  }

  /** The unchanged and anomalies buckets are the two lists of those names. */
  lemma NamedBuckets(r: Comparison)
    ensures Bucket(r, UnchangedBucket) == r.unchangedItems
    ensures Bucket(r, AnomaliesBucket) == r.anomalies
  {
  }

  /** A record of a self-comparison: in the bucket its number's currency decides. */
  lemma SelfMember(cat: Catalogue, r: Comparison, c: BucketName, e: Entry)
    requires SelfCompared(cat, r)
    requires e in Bucket(r, c)
    ensures c == UnchangedBucket || c == AnomaliesBucket
    ensures c == UnchangedBucket <==> e.itemNumber in Numbers(cat.currentItems)
    ensures e.itemNumber in Numbers(cat.currentItems) + Numbers(cat.legacyItems)
  {
    var index := CatalogueIndex(cat);
    BucketMember(DecideWith(index, index), index.Keys + index.Keys, r, c, e);
    SelfBucket(cat, e);
  }

  /** A self-comparison leaves every bucket but unchanged and anomalies empty. */
  lemma SelfEmptyBucket(cat: Catalogue, r: Comparison, c: BucketName)
    requires SelfCompared(cat, r)
    requires c != UnchangedBucket && c != AnomaliesBucket
    ensures Bucket(r, c) == []
  {
    if Bucket(r, c) != [] {
      SelfMember(cat, r, c, Bucket(r, c)[0]);
    }
  }

  /** Comparing a catalogue with itself adds, removes, moves, drops and modifies nothing. */
  lemma SelfComparisonNoChanges(cat: Catalogue, r: Comparison)
    requires SelfCompared(cat, r)
    ensures r.added == [] && r.removed == [] && r.movedToLegacy == [] && r.legacyRemoved == [] && r.modified == []
  {
    SelfEmptyBucket(cat, r, AddedBucket);
    SelfEmptyBucket(cat, r, RemovedBucket);
    SelfEmptyBucket(cat, r, MovedToLegacyBucket);
    SelfEmptyBucket(cat, r, LegacyRemovedBucket);
    SelfEmptyBucket(cat, r, ModifiedBucket);
  }

  /** Comparing a catalogue with itself: the unchanged numbers are the current ones. */
  lemma SelfComparisonUnchanged(cat: Catalogue, r: Comparison)
    requires SelfCompared(cat, r)
    ensures NumbersIn(r.unchangedItems) == Numbers(cat.currentItems)
  {
    forall k | k in Numbers(cat.currentItems) ensures k in NumbersIn(r.unchangedItems) {
      SelfCurrentUnchanged(cat, r, k);
    }
    forall k | k in NumbersIn(r.unchangedItems) ensures k in Numbers(cat.currentItems) {
      var e :| e in r.unchangedItems && e.itemNumber == k;
      SelfUnchangedIsCurrent(cat, r, e);
    }
  }

  /** A current item of a catalogue compared with itself is unchanged. */
  lemma SelfCurrentUnchanged(cat: Catalogue, r: Comparison, k: string)
    requires SelfCompared(cat, r)
    requires k in Numbers(cat.currentItems)
    ensures k in NumbersIn(r.unchangedItems)
  {
    var index := CatalogueIndex(cat);
    IndexSpec(cat, k);
    SelfDecision(cat, k);
    assert DecideWith(index, index)(k) in Bucket(r, UnchangedBucket);
  }

  /** Comparing a catalogue with itself: the anomalies are the numbers that are only legacy. */
  lemma SelfComparisonAnomalies(cat: Catalogue, r: Comparison)
    requires SelfCompared(cat, r)
    ensures NumbersIn(r.anomalies) == Numbers(cat.legacyItems) - Numbers(cat.currentItems)
  {
    forall k | k in Numbers(cat.legacyItems) - Numbers(cat.currentItems) ensures k in NumbersIn(r.anomalies) {
      SelfLegacyAnomaly(cat, r, k);
    }
    forall k | k in NumbersIn(r.anomalies) ensures k in Numbers(cat.legacyItems) - Numbers(cat.currentItems) {
      var e :| e in r.anomalies && e.itemNumber == k;
      SelfAnomalyIsLegacyOnly(cat, r, e);
    }
  }

  /** A legacy-only item of a catalogue compared with itself is an anomaly. */
  lemma SelfLegacyAnomaly(cat: Catalogue, r: Comparison, k: string)
    requires SelfCompared(cat, r)
    requires k in Numbers(cat.legacyItems) && k !in Numbers(cat.currentItems)
    ensures k in NumbersIn(r.anomalies)
  {
    var index := CatalogueIndex(cat);
    IndexSpec(cat, k);
    SelfDecision(cat, k);
    assert DecideWith(index, index)(k) in Bucket(r, AnomaliesBucket);
  }

  /** An unchanged record of a self-comparison is a current item. */
  lemma SelfUnchangedIsCurrent(cat: Catalogue, r: Comparison, e: Entry)
    requires SelfCompared(cat, r)
    requires e in r.unchangedItems
    ensures e.itemNumber in Numbers(cat.currentItems)
  {
    NamedBuckets(r);
    SelfMember(cat, r, UnchangedBucket, e);
  }

  /** An anomaly of a self-comparison is an item that is only legacy. */
  lemma SelfAnomalyIsLegacyOnly(cat: Catalogue, r: Comparison, e: Entry)
    requires SelfCompared(cat, r)
    requires e in r.anomalies
    ensures e.itemNumber in Numbers(cat.legacyItems) - Numbers(cat.currentItems)
  {
    NamedBuckets(r);
    SelfMember(cat, r, AnomaliesBucket, e);
  }

  // ---------------------------------------------------------------------
  // Scenarios of the bundled fixture

  /** Item 05_999_9999_1_1 is legacy in both catalogues: an anomaly naming both legacy slots. */
  lemma LegacyOnBothSidesIsAnomaly(k: string, oldLegacy: Item, newLegacy: Item)
    ensures Classify(k, Slots(None, Some(oldLegacy)), Slots(None, Some(newLegacy)))
      == Anomaly(k, None, Some(oldLegacy), None, Some(newLegacy),
                 AnomalyPrefix + "OLD Legacy" + Arrow + "NEW Legacy")
  {
    var o, n := Slots(None, Some(oldLegacy)), Slots(None, Some(newLegacy));
    assert PresentLabels(o, n) == ["OLD Legacy", "NEW Legacy"];
    AnomalyOfTwo(o, n, "OLD Legacy", "NEW Legacy");
  }

  /** Two filled slots are described as the first, the arrow, then the second. */
  lemma AnomalyOfTwo(o: Slots, n: Slots, a: string, b: string)
    requires PresentLabels(o, n) == [a, b]
    ensures AnomalyDescription(o, n) == AnomalyPrefix + a + Arrow + b
  {
    JoinSmall(Arrow, a, b, "");
  }

  /** A legacy item that comes back as current is an anomaly too. */
  lemma RevivedLegacyIsAnomaly(k: string, oldLegacy: Item, newCurrent: Item)
    ensures Classify(k, Slots(None, Some(oldLegacy)), Slots(Some(newCurrent), None))
      == Anomaly(k, None, Some(oldLegacy), Some(newCurrent), None,
                 AnomalyPrefix + "OLD Legacy" + Arrow + "NEW Current")
  {
    var o, n := Slots(None, Some(oldLegacy)), Slots(Some(newCurrent), None);
    assert PresentLabels(o, n) == ["OLD Legacy", "NEW Current"];
    AnomalyOfTwo(o, n, "OLD Legacy", "NEW Current");
  }

  /** Item 05_003_0003_1_1 goes from current to legacy. */
  lemma CurrentToLegacyIsMoved(k: string, oldCurrent: Item, newLegacy: Item)
    ensures Classify(k, Slots(Some(oldCurrent), None), Slots(None, Some(newLegacy)))
      == MovedToLegacy(k, oldCurrent, newLegacy)
  {
  }

  /** An item both current and legacy in OLD and only current in NEW is compared as current. */
  lemma CurrentWinsOverOldLegacy(k: string, oldCurrent: Item, oldLegacy: Item, newCurrent: Item)
    ensures CategoryOf(Classify(k, Slots(Some(oldCurrent), Some(oldLegacy)), Slots(Some(newCurrent), None)))
      in {ModifiedBucket, UnchangedBucket}
  {
  }

  /** An item reduced to its number, name and NSW price, as item 05_002_0002_1_1 of the fixture. */
  function PricedItem(k: string, name: string, nsw: string): Item {
    map["item_number" := Str(k), FieldName(SupportName) := Str(name), FieldName(PriceLimit(NSW)) := Float(nsw)]
  }

  /** The three keys of a `PricedItem` are distinct. */
  lemma PricedItemKeys()
    ensures FieldName(SupportName) != FieldName(PriceLimit(NSW))
    ensures FieldName(SupportName) != "item_number" && FieldName(PriceLimit(NSW)) != "item_number"
  {
    assert FieldName(SupportName)[0] == 's';
    assert FieldName(PriceLimit(NSW))[0] == 'p';
    assert "item_number"[0] == 'i';
  }

  /** A `PricedItem` holds nothing under the name of any other compared field. */
  lemma PricedItemOther(k: string, name: string, nsw: string, f: Field)
    requires f != SupportName && f != PriceLimit(NSW)
    ensures Get(PricedItem(k, name, nsw), FieldName(f)) == Null
  {
    FieldNamesDistinct(f, SupportName);
    FieldNamesDistinct(f, PriceLimit(NSW));
  }

  /** Of the compared fields, exactly the name and the NSW price differ after a rename and a price change. */
  lemma RenameAndRepriceDiffers(k: string, oldName: string, newName: string, oldPrice: string, newPrice: string, f: Field)
    requires NormalizeForComparison(Str(oldName)) != NormalizeForComparison(Str(newName))
    requires oldPrice != newPrice
    ensures Differs(PricedItem(k, oldName, oldPrice), PricedItem(k, newName, newPrice), f)
        <==> f == SupportName || f == PriceLimit(NSW)
  {
    if f == SupportName {
      RenameDiffers(k, oldName, newName, oldPrice, newPrice);
    } else if f == PriceLimit(NSW) {
      RepriceDiffers(k, oldName, newName, oldPrice, newPrice);
    } else {
      PricedItemOther(k, oldName, oldPrice, f);
      PricedItemOther(k, newName, newPrice, f);
    }
  }

  /** The name differs when its normalised text does. */
  lemma RenameDiffers(k: string, oldName: string, newName: string, oldPrice: string, newPrice: string)
    ensures Differs(PricedItem(k, oldName, oldPrice), PricedItem(k, newName, newPrice), SupportName)
        <==> NormalizeForComparison(Str(oldName)) != NormalizeForComparison(Str(newName))
  {
    PricedItemKeys();
    assert Get(PricedItem(k, oldName, oldPrice), FieldName(SupportName)) == Str(oldName);
    assert Get(PricedItem(k, newName, newPrice), FieldName(SupportName)) == Str(newName);
  }

  /** The NSW price differs exactly when its text does. */
  lemma RepriceDiffers(k: string, oldName: string, newName: string, oldPrice: string, newPrice: string)
    ensures Differs(PricedItem(k, oldName, oldPrice), PricedItem(k, newName, newPrice), PriceLimit(NSW)) <==> oldPrice != newPrice
  {
    PricedItemKeys();
    assert Get(PricedItem(k, oldName, oldPrice), FieldName(PriceLimit(NSW))) == Float(oldPrice);
    assert Get(PricedItem(k, newName, newPrice), FieldName(PriceLimit(NSW))) == Float(newPrice);
    assert NormalizeForComparison(Float(oldPrice)) == oldPrice;
    assert NormalizeForComparison(Float(newPrice)) == newPrice;
  }

  /** Changes in field order name each field at most once, so there are as many changes as changed fields. */
  lemma {:induction false} InFieldOrderCard(cs: seq<FieldChange>)
    requires InFieldOrder(cs)
    ensures |ChangedFields(cs)| == |cs|
  {
    if cs != [] {
      var init, last := cs[..|cs| - 1], cs[|cs| - 1];
      assert InFieldOrder(init);
      InFieldOrderCard(init);
      assert cs == init + [last];
      assert ChangedFields(cs) == ChangedFields(init) + {last.field};
      assert last.field !in ChangedFields(init);
    }
  }

  /** Changes in field order that name exactly the fields `f` and `g`, `f` first, are two: one for `f`, then one for `g`. */
  lemma TwoChanges(cs: seq<FieldChange>, f: Field, g: Field)
    requires InFieldOrder(cs) && FieldPos(f) < FieldPos(g)
    requires forall h :: h in ChangedFields(cs) <==> h == f || h == g
    ensures |cs| == 2 && cs[0].field == f && cs[1].field == g
  {
    assert ChangedFields(cs) == {f, g};
    InFieldOrderCard(cs);
    assert cs[0].field in ChangedFields(cs) && cs[1].field in ChangedFields(cs);
  }

  /** Item 05_002_0002_1_1: a rename and an NSW price change are reported, in field order, with the raw values. */
  lemma RenameAndRepriceIsModified(k: string, oldName: string, newName: string, oldPrice: string, newPrice: string)
    requires NormalizeForComparison(Str(oldName)) != NormalizeForComparison(Str(newName))
    requires oldPrice != newPrice
    ensures FieldChanges(PricedItem(k, oldName, oldPrice), PricedItem(k, newName, newPrice))
      == [FieldChange(SupportName, Str(oldName), Str(newName)),
          FieldChange(PriceLimit(NSW), Float(oldPrice), Float(newPrice))]
  {
    var o, n := PricedItem(k, oldName, oldPrice), PricedItem(k, newName, newPrice);
    var cs := FieldChanges(o, n);
    FieldChangesSpec(o, n);
    FieldChangesInOrder(o, n);
    forall f ensures f in ChangedFields(cs) <==> f == SupportName || f == PriceLimit(NSW) {
      RenameAndRepriceDiffers(k, oldName, newName, oldPrice, newPrice, f);
    }
    TwoChanges(cs, SupportName, PriceLimit(NSW));
    PricedItemKeys();
    assert cs[0] in cs && cs[1] in cs;
  }

  /** ... and the item is therefore classified as modified. */
  lemma RenameAndRepriceClassified(k: string, oldName: string, newName: string, oldPrice: string, newPrice: string)
    requires NormalizeForComparison(Str(oldName)) != NormalizeForComparison(Str(newName))
    requires oldPrice != newPrice
    ensures Classify(k, Slots(Some(PricedItem(k, oldName, oldPrice)), None), Slots(Some(PricedItem(k, newName, newPrice)), None))
      == Modified(k, PricedItem(k, oldName, oldPrice), PricedItem(k, newName, newPrice),
                  [FieldChange(SupportName, Str(oldName), Str(newName)),
                   FieldChange(PriceLimit(NSW), Float(oldPrice), Float(newPrice))])
  {
    RenameAndRepriceIsModified(k, oldName, newName, oldPrice, newPrice);
    ChangedCurrentIsModified(k, PricedItem(k, oldName, oldPrice), PricedItem(k, newName, newPrice));
  }

  /** An item current on both sides, with at least one field change, is modified with exactly those changes. */
  lemma ChangedCurrentIsModified(k: string, o: Item, n: Item)
    requires FieldChanges(o, n) != []
    ensures Classify(k, Slots(Some(o), None), Slots(Some(n), None)) == Modified(k, o, n, FieldChanges(o, n))
  {
  }

  // ---------------------------------------------------------------------
  // Projections

  /** The total number of field changes over a list of modified records. */
  function ChangeCount(es: seq<Entry>): nat
    requires AllModified(es)
  {
    if es == [] then 0 else ChangeCount(es[..|es| - 1]) + |es[|es| - 1].changes|
  }

  /** `create_modified_items_table` has one row per field change. */
  lemma {:induction false} ModifiedTableLength(es: seq<Entry>)
    requires AllModified(es)
    ensures |ModifiedTable(es)| == ChangeCount(es)
  {
    if es != [] {
      ModifiedTableLength(es[..|es| - 1]);
    }
  }

  /** The rows keep the order of the input: the table of a list is the table of a prefix followed by that of the rest. */
  lemma {:induction false} ModifiedTableSplit(es: seq<Entry>, i: nat)
    requires AllModified(es) && i <= |es|
    ensures AllModified(es[..i]) && AllModified(es[i..])
    ensures ModifiedTable(es) == ModifiedTable(es[..i]) + ModifiedTable(es[i..])
  {
    AllModifiedSlices(es, i);
    if i < |es| {
      var init, last := es[..|es| - 1], es[|es| - 1];
      AllModifiedSlices(es, |es| - 1);
      ModifiedTableSplit(init, i);
      assert init[..i] == es[..i];
      var rest := es[i..];
      assert rest[..|rest| - 1] == init[i..];
      assert rest != [] && rest[|rest| - 1] == last;
      assert ModifiedTable(rest) == ModifiedTable(rest[..|rest| - 1]) + RowsOf(rest[|rest| - 1]);
      assert ModifiedTable(rest) == ModifiedTable(init[i..]) + RowsOf(last);
    } else {
      assert es[..i] == es;
    }
  }

  /** The two sides of a cut of modified records are modified records. */
  lemma AllModifiedSlices(es: seq<Entry>, i: nat)
    requires AllModified(es) && i <= |es|
    ensures AllModified(es[..i]) && AllModified(es[i..])
  {
    assert forall e :: e in es[..i] ==> e in es;
    assert forall e :: e in es[i..] ==> e in es;
  }

  /** A row is in the table iff it is one change of one of the records, with its item number and values. */
  lemma {:induction false} ModifiedTableRows(es: seq<Entry>, row: TableRow)
    requires AllModified(es)
    ensures row in ModifiedTable(es) <==>
      exists i, j :: 0 <= i < |es| && 0 <= j < |es[i].changes|
        && row == TableRow(es[i].itemNumber, es[i].changes[j].field, es[i].changes[j].oldValue, es[i].changes[j].newValue)
  {
    if es != [] {
      var init, last := es[..|es| - 1], es[|es| - 1];
      ModifiedTableRows(init, row);
      if row in RowsOf(last) {
        var j :| 0 <= j < |last.changes| && RowsOf(last)[j] == row;
        assert es[|es| - 1] == last;
      }
      if exists i, j :: (0 <= i < |es| && 0 <= j < |es[i].changes|
        && row == TableRow(es[i].itemNumber, es[i].changes[j].field, es[i].changes[j].oldValue, es[i].changes[j].newValue))
      {
        var i, j :| 0 <= i < |es| && 0 <= j < |es[i].changes|
          && row == TableRow(es[i].itemNumber, es[i].changes[j].field, es[i].changes[j].oldValue, es[i].changes[j].newValue);
        if i < |init| {
          assert init[i] == es[i];
        } else {
          assert RowsOf(last)[j] == row;
        }
      }
    }
  }
}
