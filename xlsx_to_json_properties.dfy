/**
 * What the sheet conversion promises: how single cells are normalised, which
 * header each standard field is read from, and what the emitted items look
 * like.
 */
module XlsxToJsonProperties {
  import opened Wrappers
  import opened Text
  import opened Values
  import opened XlsxToJson
  import VersionDiff

  // ---------------------------------------------------------------------
  // Cell normaliser

  /** A missing, NaN or empty-string cell normalises to None whatever the field type. */
  lemma MissingCellIsNone(v: Value, t: FieldType, p: Parsers)
    requires IsMissing(v)
    ensures NormalizeValue(v, t, p) == Null
  {
  }

  /** The date, float and int parsers see only cells that are not missing. */
  lemma ParsedCells(v: Value, p: Parsers)
    ensures NormalizeValue(v, DateType, p) == (if IsMissing(v) then Null else p.toDate(v))
    ensures NormalizeValue(v, FloatType, p) == (if IsMissing(v) then Null else p.toFloat(v))
    ensures NormalizeValue(v, IntType, p) == (if IsMissing(v) then Null else p.toInt(v))
  {
  }

  /** No word is both a true word and a false word. */
  lemma TruthWordsDisjoint(w: string)
    ensures !(w in TrueWords && w in FalseWords)
    ensures "" !in TrueWords && "" !in FalseWords
  {
    if w in TrueWords {
      assert w == "yes" || w == "y" || w == "true" || w == "1";
      assert w[0] in {'y', 't', '1'};
    }
  }

  /**
   * The boolean branch: True exactly for `True` and the true words, False
   * exactly for `False` and the false words, None for everything else.
   */
  lemma BooleanCell(v: Value, p: Parsers)
    ensures NormalizeValue(v, BooleanType, p) == Bool(true)
        <==> v == Bool(true) || (v.Str? && Lower(Trim(v.s)) in TrueWords)
    ensures NormalizeValue(v, BooleanType, p) == Bool(false)
        <==> v == Bool(false) || (v.Str? && Lower(Trim(v.s)) in FalseWords)
    ensures NormalizeValue(v, BooleanType, p) in {Null, Bool(true), Bool(false)}
  {
    match v
    case Str(s) =>
      BooleanText(s, p);
      TruthWordsDisjoint(Lower(Trim(s)));
    case Bool(b) =>
      assert !IsMissing(v);
    case _ =>
  }

  /** A text cell, empty or not, is read by its stripped lower-case form alone. */
  lemma BooleanText(s: string, p: Parsers)
    ensures NormalizeValue(Str(s), BooleanType, p) == TruthValue(Lower(Trim(s)))
  {
    if s == [] {
      var w := Lower(Trim(s));
      assert |w| == 0;
      TruthWordsDisjoint(w);
      assert TruthValue(w) == Null;
    } else {
      assert !IsMissing(Str(s));
    }
  }

  /** The boolean branch ignores surrounding whitespace and letter case. */
  lemma BooleanIgnoresPaddingAndCase(pre: string, s: string, post: string, p: Parsers)
    requires AllSpace(pre) && AllSpace(post)
    ensures NormalizeValue(Str(pre + s + post), BooleanType, p) == NormalizeValue(Str(s), BooleanType, p)
    ensures NormalizeValue(Str(Lower(s)), BooleanType, p) == NormalizeValue(Str(s), BooleanType, p)
  {
    BooleanText(pre + s + post, p);
    BooleanText(s, p);
    BooleanText(Lower(s), p);
    TrimIgnoresPadding(pre, s, post);
    LowerTrim(s);
    LowerTrim(Lower(s));
    LowerIdempotent(s);
  }

  /**
   * The string branch: None exactly for missing and falsy cells (`False`,
   * `0`, `0.0`), otherwise `str(value)` with the surrounding whitespace
   * stripped.
   */
  lemma StringCell(v: Value, p: Parsers)
    ensures NormalizeValue(v, StringType, p) == Null <==> IsMissing(v) || !Truthy(v)
    ensures NormalizeValue(v, StringType, p) != Null ==> NormalizeValue(v, StringType, p) == Str(Trim(PyStr(v)))
    ensures NormalizeValue(v, StringType, p) != Null ==> Trim(NormalizeValue(v, StringType, p).s) == NormalizeValue(v, StringType, p).s
  {
    if !IsMissing(v) && Truthy(v) {
      TrimTwice(PyStr(v));
    }
  }

  /** A whitespace-only cell becomes the empty string, not None: the empty check comes before the strip. */
  lemma BlankCellIsEmptyString(s: string, p: Parsers)
    requires s != [] && AllSpace(s)
    ensures NormalizeValue(Str(s), StringType, p) == Str("")
    ensures NormalizeValue(Str(""), StringType, p) == Null
  {
    TrimAllSpace(s);
  }

  /** Surrounding whitespace around a non-empty text does not change the string branch. */
  lemma StringIgnoresPadding(pre: string, s: string, post: string, p: Parsers)
    requires AllSpace(pre) && AllSpace(post) && s != []
    ensures NormalizeValue(Str(pre + s + post), StringType, p) == NormalizeValue(Str(s), StringType, p)
  {
    TrimIgnoresPadding(pre, s, post);
  }

  /** Normalising a normalised string cell again changes nothing, except that `""` then becomes None. */
  lemma StringCellTwice(v: Value, p: Parsers)
    ensures NormalizeValue(v, StringType, p) != Str("")
      ==> NormalizeValue(NormalizeValue(v, StringType, p), StringType, p) == NormalizeValue(v, StringType, p)
    ensures NormalizeValue(Str(""), StringType, p) == Null
  {
    StringCell(v, p);
    var r := NormalizeValue(v, StringType, p);
    if r != Null && r != Str("") {
      StrippedTextKept(r.s, p);
    }
  }

  /** A non-empty text without surrounding whitespace is kept as it is. */
  lemma StrippedTextKept(t: string, p: Parsers)
    requires t != [] && !IsSpace(t[0]) && !IsSpace(t[|t| - 1])
    ensures NormalizeValue(Str(t), StringType, p) == Str(t)
  {
    TrimUnpadded(t);
    assert !IsMissing(Str(t));
  }

  // ---------------------------------------------------------------------
  // `columns_lower`

  /** The keys of `columns_lower`, in order. */
  function KeysOf(cl: Columns): (ks: seq<string>)
    ensures |ks| == |cl| && forall i :: 0 <= i < |cl| ==> ks[i] == cl[i].0
  {
    if cl == [] then [] else [cl[0].0] + KeysOf(cl[1..])
  }

  predicate DistinctKeys(cl: Columns) {
    forall i, j :: 0 <= i < j < |cl| ==> cl[i].0 != cl[j].0
  }

  /** `ks` with every repetition of an earlier element dropped. */
  function FirstOccurrences(ks: seq<string>): seq<string> {
    if ks == [] then []
    else
      var d := FirstOccurrences(ks[..|ks| - 1]);
      if ks[|ks| - 1] in d then d else d + [ks[|ks| - 1]]
  }

  /** A key is looked up exactly when it is a key. */
  lemma {:induction false} LookupKeys(cl: Columns, k: string)
    ensures Lookup(cl, k).Some? <==> k in KeysOf(cl)
  {
    if cl != [] {
      LookupKeys(cl[1..], k);
      assert KeysOf(cl) == [cl[0].0] + KeysOf(cl[1..]);
    }
  }

  /** `d[key] = col` sets `key` and leaves every other key alone. */
  lemma {:induction false} PutLookup(cl: Columns, key: string, col: string, k: string)
    ensures Lookup(Put(cl, key, col), k) == if k == key then Some(col) else Lookup(cl, k)
  {
    if cl != [] && cl[0].0 != key {
      PutLookup(cl[1..], key, col, k);
    }
  }

  /** `d[key] = col` keeps the key order, and appends `key` when it is new. */
  lemma {:induction false} PutKeys(cl: Columns, key: string, col: string)
    ensures KeysOf(Put(cl, key, col)) == if key in KeysOf(cl) then KeysOf(cl) else KeysOf(cl) + [key]
  {
    if cl != [] {
      assert KeysOf(cl) == [cl[0].0] + KeysOf(cl[1..]);
      if cl[0].0 != key {
        PutKeys(cl[1..], key, col);
        assert Put(cl, key, col) == [cl[0]] + Put(cl[1..], key, col);
        assert KeysOf(Put(cl, key, col)) == [cl[0].0] + KeysOf(Put(cl[1..], key, col));
      } else {
        assert KeysOf(Put(cl, key, col)) == [key] + KeysOf(cl[1..]);
      }
    }
  }

  /** The keys of a dict built from pairs are the pairs' keys in order of first occurrence. */
  lemma {:induction false} DictOfKeys(pairs: Columns)
    ensures KeysOf(DictOf(pairs)) == FirstOccurrences(KeysOf(pairs))
  {
    if pairs != [] {
      var init := pairs[..|pairs| - 1];
      DictOfKeys(init);
      PutKeys(DictOf(init), pairs[|pairs| - 1].0, pairs[|pairs| - 1].1);
      assert KeysOf(pairs)[..|pairs| - 1] == KeysOf(init);
    }
  }

  /** The keys of `columns_lower` are distinct. */
  lemma {:induction false} FirstOccurrencesDistinct(ks: seq<string>)
    ensures forall i, j :: 0 <= i < j < |FirstOccurrences(ks)| ==> FirstOccurrences(ks)[i] != FirstOccurrences(ks)[j]
    ensures forall k :: k in FirstOccurrences(ks) <==> k in ks
  {
    if ks != [] {
      FirstOccurrencesDistinct(ks[..|ks| - 1]);
      assert ks == ks[..|ks| - 1] + [ks[|ks| - 1]];
    }
  }

  /** The pair at `i` is the last one with key `key`. */
  predicate LastWithKey(pairs: Columns, key: string, i: int) {
    && 0 <= i < |pairs| && pairs[i].0 == key
    && forall j :: i < j < |pairs| ==> pairs[j].0 != key
  }

  /** A key of a dict built from pairs holds the value of the last pair with that key. */
  lemma {:induction false} DictOfLast(pairs: Columns, key: string)
    ensures Lookup(DictOf(pairs), key).Some?
      ==> exists i :: LastWithKey(pairs, key, i) && Lookup(DictOf(pairs), key).value == pairs[i].1
  {
    if pairs != [] {
      var n := |pairs| - 1;
      var init := pairs[..n];
      PutLookup(DictOf(init), pairs[n].0, pairs[n].1, key);
      if pairs[n].0 == key {
        assert LastWithKey(pairs, key, n);
      } else if Lookup(DictOf(init), key).Some? {
        DictOfLast(init, key);
        var i :| LastWithKey(init, key, i) && Lookup(DictOf(init), key).value == init[i].1;
        forall j | i < j < |pairs| ensures pairs[j].0 != key {
          if j < n {
            assert pairs[j] == init[j];
          }
        }
        assert pairs[i] == init[i];
        assert LastWithKey(pairs, key, i);
      }
    }
  }

  /** A header key is a key of `columns_lower` exactly when some header produces it. */
  lemma ColumnsLowerHas(headers: seq<string>, key: string)
    ensures Lookup(ColumnsLower(headers), key).Some? <==> exists i :: 0 <= i < |headers| && HeaderKey(headers[i]) == key
  {
    var pairs := KeyedHeaders(headers);
    LookupKeys(DictOf(pairs), key);
    DictOfKeys(pairs);
    FirstOccurrencesDistinct(KeysOf(pairs));
    if key in KeysOf(pairs) {
      var i :| 0 <= i < |pairs| && KeysOf(pairs)[i] == key;
      assert HeaderKey(headers[i]) == key;
    }
  }

  /** `columns_lower[key]` is the last header that produces `key`: the later header wins. */
  lemma ColumnsLowerLast(headers: seq<string>, key: string)
    ensures Lookup(ColumnsLower(headers), key).Some?
      ==> exists i :: LastHeaderWith(headers, key, i) && Lookup(ColumnsLower(headers), key).value == headers[i]
  {
    var pairs := KeyedHeaders(headers);
    DictOfLast(pairs, key);
    if Lookup(DictOf(pairs), key).Some? {
      var i :| LastWithKey(pairs, key, i) && Lookup(DictOf(pairs), key).value == pairs[i].1;
      assert pairs[i] == (HeaderKey(headers[i]), headers[i]);
      forall j | i < j < |headers| ensures HeaderKey(headers[j]) != key {
        assert pairs[j] == (HeaderKey(headers[j]), headers[j]);
      }
      assert LastHeaderWith(headers, key, i);
    }
  }

  /** The header at `i` is the last one whose key is `key`. */
  predicate LastHeaderWith(headers: seq<string>, key: string, i: int) {
    && 0 <= i < |headers| && HeaderKey(headers[i]) == key
    && forall j :: i < j < |headers| ==> HeaderKey(headers[j]) != key
  }

  // ---------------------------------------------------------------------
  // First-match searches

  /** Pattern `i` is the first of `patterns` that is a key of `cl`. */
  predicate FirstHit(cl: Columns, patterns: seq<string>, i: int) {
    && 0 <= i < |patterns| && Lookup(cl, patterns[i]).Some?
    && forall j :: 0 <= j < i ==> Lookup(cl, patterns[j]).None?
  }

  /** The first pattern that is a key decides; none is found when no pattern is a key. */
  lemma {:induction false} FirstPatternSpec(cl: Columns, patterns: seq<string>)
    ensures FirstPattern(cl, patterns).None? <==> forall i :: 0 <= i < |patterns| ==> Lookup(cl, patterns[i]).None?
    ensures FirstPattern(cl, patterns).Some?
      ==> exists i :: FirstHit(cl, patterns, i) && FirstPattern(cl, patterns) == Lookup(cl, patterns[i])
  {
    if patterns != [] {
      var rest := patterns[1..];
      FirstPatternSpec(cl, rest);
      if Lookup(cl, patterns[0]).Some? {
        assert FirstHit(cl, patterns, 0);
      } else if FirstPattern(cl, rest).Some? {
        var i :| FirstHit(cl, rest, i) && FirstPattern(cl, rest) == Lookup(cl, rest[i]);
        forall j | 0 <= j < i + 1 ensures Lookup(cl, patterns[j]).None? {
          if j > 0 {
            assert patterns[j] == rest[j - 1];
          }
        }
        assert FirstHit(cl, patterns, i + 1);
      } else {
        forall i | 0 <= i < |patterns| ensures Lookup(cl, patterns[i]).None? {
          if i > 0 {
            assert patterns[i] == rest[i - 1];
          }
        }
      }
    }
  }

  /** Entry `j` of `cl` is the first whose key is a price header for `alias`. */
  predicate FirstPriceEntry(cl: Columns, alias: string, j: int) {
    && 0 <= j < |cl| && PriceHeader(alias, cl[j].0)
    && forall k :: 0 <= k < j ==> !PriceHeader(alias, cl[k].0)
  }

  /** The column scan for one alias stops at the first price header, in `columns_lower` order. */
  lemma {:induction false} FirstPriceColumnSpec(cl: Columns, alias: string)
    ensures FirstPriceColumn(cl, alias).None? <==> forall j :: 0 <= j < |cl| ==> !PriceHeader(alias, cl[j].0)
    ensures FirstPriceColumn(cl, alias).Some?
      ==> exists j :: FirstPriceEntry(cl, alias, j) && FirstPriceColumn(cl, alias).value == cl[j].1
  {
    if cl != [] {
      var rest := cl[1..];
      FirstPriceColumnSpec(rest, alias);
      if PriceHeader(alias, cl[0].0) {
        assert FirstPriceEntry(cl, alias, 0);
      } else if FirstPriceColumn(rest, alias).Some? {
        var j :| FirstPriceEntry(rest, alias, j) && FirstPriceColumn(rest, alias).value == rest[j].1;
        forall k | 0 <= k < j + 1 ensures !PriceHeader(alias, cl[k].0) {
          if k > 0 {
            assert cl[k] == rest[k - 1];
          }
        }
        assert FirstPriceEntry(cl, alias, j + 1);
      } else {
        forall j | 0 <= j < |cl| ensures !PriceHeader(alias, cl[j].0) {
          if j > 0 {
            assert cl[j] == rest[j - 1];
          }
        }
      }
    }
  }

  /** Alias `i` is the first of `aliases` with a price header. */
  predicate FirstAlias(cl: Columns, aliases: seq<string>, i: int) {
    && 0 <= i < |aliases| && FirstPriceColumn(cl, aliases[i]).Some?
    && forall j :: 0 <= j < i ==> FirstPriceColumn(cl, aliases[j]).None?
  }

  /** The aliases of a state are tried in order, and the first with a price header decides. */
  lemma {:induction false} StateColumnSpec(cl: Columns, aliases: seq<string>)
    ensures StateColumn(cl, aliases).None? <==> forall i :: 0 <= i < |aliases| ==> FirstPriceColumn(cl, aliases[i]).None?
    ensures StateColumn(cl, aliases).Some?
      ==> exists i :: FirstAlias(cl, aliases, i) && StateColumn(cl, aliases) == FirstPriceColumn(cl, aliases[i])
  {
    if aliases != [] {
      var rest := aliases[1..];
      StateColumnSpec(cl, rest);
      if FirstPriceColumn(cl, aliases[0]).Some? {
        assert FirstAlias(cl, aliases, 0);
      } else if StateColumn(cl, rest).Some? {
        var i :| FirstAlias(cl, rest, i) && StateColumn(cl, rest) == FirstPriceColumn(cl, rest[i]);
        forall j | 0 <= j < i + 1 ensures FirstPriceColumn(cl, aliases[j]).None? {
          if j > 0 {
            assert aliases[j] == rest[j - 1];
          }
        }
        assert FirstAlias(cl, aliases, i + 1);
      } else {
        forall i | 0 <= i < |aliases| ensures FirstPriceColumn(cl, aliases[i]).None? {
          if i > 0 {
            assert aliases[i] == rest[i - 1];
          }
        }
      }
    }
  }

  // ---------------------------------------------------------------------
  // The column mapping

  /** The header a field is read from: first pattern for a descriptive field, first alias with a price header for a price. */
  function Detected(cl: Columns, f: Field): Option<string> {
    if f.PriceLimit? then StateColumn(cl, Aliases(f.state)) else FirstPattern(cl, Patterns(f))
  }

  /** The keys the mapping can hold. */
  ghost predicate StandardKey(k: string) {
    k == "item_number" || exists f :: FieldName(f) == k
  }

  /** The first-pattern blocks for `fs` set the key of a listed field to its first matching header when there is one. */
  lemma {:induction false} WithFieldsListed(m: map<string, string>, cl: Columns, fs: seq<Field>, f: Field)
    requires f in fs
    ensures FieldName(f) in WithFields(m, cl, fs) <==> FirstPattern(cl, Patterns(f)).Some? || FieldName(f) in m
    ensures FirstPattern(cl, Patterns(f)).Some? ==> WithFields(m, cl, fs)[FieldName(f)] == FirstPattern(cl, Patterns(f)).value
  {
    var init, g := fs[..|fs| - 1], fs[|fs| - 1];
    if f != g {
      assert f in init by {
        var i :| 0 <= i < |fs| && fs[i] == f;
        assert init[i] == f;
      }
      WithFieldsListed(m, cl, init, f);
      FieldNamesDistinct(f, g);
    } else if FirstPattern(cl, Patterns(f)).None? && f in init {
      WithFieldsListed(m, cl, init, f);
    } else if FirstPattern(cl, Patterns(f)).None? {
      forall i | 0 <= i < |init| ensures FieldName(init[i]) != FieldName(f) {
        FieldNamesDistinct(init[i], f);
      }
      WithFieldsOther(m, cl, init, FieldName(f));
    }
  }

  /** The first-pattern blocks for `fs` leave the key of a field not in `fs` as it was. */
  lemma WithFieldsOtherField(m: map<string, string>, cl: Columns, fs: seq<Field>, f: Field)
    requires f !in fs
    ensures FieldName(f) in WithFields(m, cl, fs) <==> FieldName(f) in m
    ensures FieldName(f) in m ==> WithFields(m, cl, fs)[FieldName(f)] == m[FieldName(f)]
  {
    forall i | 0 <= i < |fs| ensures FieldName(fs[i]) != FieldName(f) {
      FieldNamesDistinct(fs[i], f);
    }
    WithFieldsOther(m, cl, fs, FieldName(f));
  }

  /** The first-pattern blocks add only standard keys. */
  lemma {:induction false} WithFieldsKeys(m: map<string, string>, cl: Columns, fs: seq<Field>, k: string)
    requires k in WithFields(m, cl, fs)
    ensures k in m || StandardKey(k)
  {
    if fs != [] {
      var g := fs[|fs| - 1];
      if k != FieldName(g) {
        WithFieldsKeys(m, cl, fs[..|fs| - 1], k);
      }
    }
  }

  /** The state loop sets the price key of each listed state to its detected column, and nothing else. */
  lemma {:induction false} WithStatesSpec(m: map<string, string>, cl: Columns, ss: seq<State>)
    requires forall s :: FieldName(PriceLimit(s)) !in m
    ensures "item_number" in WithStates(m, cl, ss) <==> "item_number" in m
    ensures "item_number" in m ==> WithStates(m, cl, ss)["item_number"] == m["item_number"]
    ensures forall f ::
      (FieldName(f) in WithStates(m, cl, ss) <==> (f.PriceLimit? && f.state in ss && Detected(cl, f).Some?) || FieldName(f) in m)
    ensures forall f :: FieldName(f) in WithStates(m, cl, ss) ==>
      WithStates(m, cl, ss)[FieldName(f)] == if f.PriceLimit? then Detected(cl, f).value else m[FieldName(f)]
    ensures forall k :: k in WithStates(m, cl, ss) ==> k in m || StandardKey(k)
  {
    if ss != [] {
      var init, s := ss[..|ss| - 1], ss[|ss| - 1];
      WithStatesSpec(m, cl, init);
      var key := FieldName(PriceLimit(s));
      FieldNamesDistinct(PriceLimit(s), PriceLimit(s));
      forall f ensures FieldName(f) == key <==> f == PriceLimit(s) {
        FieldNamesDistinct(f, PriceLimit(s));
      }
      assert forall x :: x in ss <==> x in init || x == s;
    }
  }

  /** The state loop, for one field. */
  lemma WithStatesField(m: map<string, string>, cl: Columns, ss: seq<State>, f: Field)
    requires forall s :: FieldName(PriceLimit(s)) !in m
    ensures FieldName(f) in WithStates(m, cl, ss) <==> (f.PriceLimit? && f.state in ss && Detected(cl, f).Some?) || FieldName(f) in m
    ensures FieldName(f) in WithStates(m, cl, ss) ==>
      WithStates(m, cl, ss)[FieldName(f)] == if f.PriceLimit? then Detected(cl, f).value else m[FieldName(f)]
  {
    WithStatesSpec(m, cl, ss);
  }

  /** `detect_column_mapping` maps `item_number` exactly when one of its patterns is a header key, to that header. */
  lemma MappedItemNumber(cl: Columns)
    ensures "item_number" in MappingOf(cl) <==> FirstPattern(cl, ItemNumberPatterns).Some?
    ensures "item_number" in MappingOf(cl)
      ==> MappingOf(cl)["item_number"] == FirstPattern(cl, ItemNumberPatterns).value
  {
    var cl := cl;
    var m := With(map[], "item_number", FirstPattern(cl, ItemNumberPatterns));
    var lead := WithFields(m, cl, LeadingFields);
    var w := WithStates(lead, cl, States);
    forall s ensures FieldName(PriceLimit(s)) !in m {
      FieldNamesDistinct(PriceLimit(s), PriceLimit(s));
    }
    LeadingKeys(m, cl);
    WithStatesSpec(lead, cl, States);
    forall i | 0 <= i < |LeadingFields| ensures FieldName(LeadingFields[i]) != "item_number" {
      FieldNamesDistinct(LeadingFields[i], LeadingFields[i]);
    }
    forall i | 0 <= i < |TrailingFields| ensures FieldName(TrailingFields[i]) != "item_number" {
      FieldNamesDistinct(TrailingFields[i], TrailingFields[i]);
    }
    WithFieldsOther(m, cl, LeadingFields, "item_number");
    WithFieldsOther(w, cl, TrailingFields, "item_number");
  }

  /** A field searched before the state loop keeps the header its first-pattern block found. */
  lemma MappedLeadingField(cl: Columns, f: Field)
    requires f in LeadingFields
    ensures FieldName(f) in MappingOf(cl) <==> Detected(cl, f).Some?
    ensures FieldName(f) in MappingOf(cl) ==> MappingOf(cl)[FieldName(f)] == Detected(cl, f).value
  {
    var cl := cl;
    var m := With(map[], "item_number", FirstPattern(cl, ItemNumberPatterns));
    var lead := WithFields(m, cl, LeadingFields);
    var w := WithStates(lead, cl, States);
    forall s ensures FieldName(PriceLimit(s)) !in m {
      FieldNamesDistinct(PriceLimit(s), PriceLimit(s));
    }
    LeadingKeys(m, cl);
    FieldNamesDistinct(f, f);
    WithFieldsOtherField(w, cl, TrailingFields, f);
    WithStatesField(lead, cl, States, f);
    WithFieldsListed(m, cl, LeadingFields, f);
  }

  /** A price field holds the column of the first of its state's aliases that has a price header. */
  lemma MappedPriceField(cl: Columns, f: Field)
    requires f.PriceLimit?
    ensures FieldName(f) in MappingOf(cl) <==> Detected(cl, f).Some?
    ensures FieldName(f) in MappingOf(cl) ==> MappingOf(cl)[FieldName(f)] == Detected(cl, f).value
  {
    var cl := cl;
    var m := With(map[], "item_number", FirstPattern(cl, ItemNumberPatterns));
    var lead := WithFields(m, cl, LeadingFields);
    var w := WithStates(lead, cl, States);
    forall s ensures FieldName(PriceLimit(s)) !in m {
      FieldNamesDistinct(PriceLimit(s), PriceLimit(s));
    }
    LeadingKeys(m, cl);
    FieldNamesDistinct(f, f);
    WithFieldsOtherField(w, cl, TrailingFields, f);
    assert f.state in States;
    WithStatesField(lead, cl, States, f);
  }

  /** A field searched after the state loop holds the header its first-pattern block found. */
  lemma MappedTrailingField(cl: Columns, f: Field)
    requires f in TrailingFields
    ensures FieldName(f) in MappingOf(cl) <==> Detected(cl, f).Some?
    ensures FieldName(f) in MappingOf(cl) ==> MappingOf(cl)[FieldName(f)] == Detected(cl, f).value
  {
    var cl := cl;
    var m := With(map[], "item_number", FirstPattern(cl, ItemNumberPatterns));
    var lead := WithFields(m, cl, LeadingFields);
    var w := WithStates(lead, cl, States);
    forall s ensures FieldName(PriceLimit(s)) !in m {
      FieldNamesDistinct(PriceLimit(s), PriceLimit(s));
    }
    LeadingKeys(m, cl);
    FieldNamesDistinct(f, f);
    WithFieldsOtherField(m, cl, LeadingFields, f);
    WithStatesField(lead, cl, States, f);
    WithFieldsListed(w, cl, TrailingFields, f);
  }

  /** `detect_column_mapping` sets no key other than `item_number` and the field keys. */
  lemma MappedKey(cl: Columns, k: string)
    requires k in MappingOf(cl)
    ensures StandardKey(k)
  {
    var cl := cl;
    var m := With(map[], "item_number", FirstPattern(cl, ItemNumberPatterns));
    var lead := WithFields(m, cl, LeadingFields);
    var w := WithStates(lead, cl, States);
    forall s ensures FieldName(PriceLimit(s)) !in m {
      FieldNamesDistinct(PriceLimit(s), PriceLimit(s));
    }
    LeadingKeys(m, cl);
    WithStatesSpec(lead, cl, States);
    WithFieldsKeys(w, cl, TrailingFields, k);
    if k in lead {
      WithFieldsKeys(m, cl, LeadingFields, k);
      assert StandardKey("item_number");
    }
  }

  /**
   * `detect_column_mapping`: `item_number` and every field are mapped exactly
   * when detected, to the detected header, and the mapping holds no other key.
   */
  lemma ColumnMappingSpec(headers: seq<string>)
    ensures "item_number" in ColumnMapping(headers) <==> FirstPattern(ColumnsLower(headers), ItemNumberPatterns).Some?
    ensures "item_number" in ColumnMapping(headers)
      ==> ColumnMapping(headers)["item_number"] == FirstPattern(ColumnsLower(headers), ItemNumberPatterns).value
    ensures forall f :: FieldName(f) in ColumnMapping(headers) <==> Detected(ColumnsLower(headers), f).Some?
    ensures forall f ::
      (FieldName(f) in ColumnMapping(headers) ==> ColumnMapping(headers)[FieldName(f)] == Detected(ColumnsLower(headers), f).value)
    ensures forall k :: k in ColumnMapping(headers) ==> StandardKey(k)
  {
    MappedItemNumber(ColumnsLower(headers));
    forall f ensures FieldName(f) in ColumnMapping(headers) <==> Detected(ColumnsLower(headers), f).Some?
      ensures FieldName(f) in ColumnMapping(headers) ==> ColumnMapping(headers)[FieldName(f)] == Detected(ColumnsLower(headers), f).value
    {
      MappedFieldAt(ColumnsLower(headers), f);
    }
    forall k | k in ColumnMapping(headers) ensures StandardKey(k) {
      MappedKey(ColumnsLower(headers), k);
    }
  }

  /** Every field is a price, listed before the state loop, or listed after it. */
  lemma FieldsCase(f: Field)
    ensures f.PriceLimit? || f in LeadingFields || f in TrailingFields
  {
    match f
    case SupportName => assert LeadingFields[0] == f;
    case RegistrationGroup => assert LeadingFields[1] == f;
    case Category => assert LeadingFields[2] == f;
    case Unit => assert LeadingFields[3] == f;
    case ClaimType => assert LeadingFields[4] == f;
    case PriceLimit(_) =>
    case EffectiveFrom => assert TrailingFields[0] == f;
    case EffectiveTo => assert TrailingFields[1] == f;
    case Notes => assert TrailingFields[2] == f;
  }

  // ---------------------------------------------------------------------
  // Case-insensitive matching

  /** Whether a field is detected depends only on the keys of `columns_lower`, not on the headers they map to. */
  lemma DetectedByKeys(cl1: Columns, cl2: Columns, f: Field)
    requires KeysOf(cl1) == KeysOf(cl2)
    ensures Detected(cl1, f).Some? <==> Detected(cl2, f).Some?
  {
    if f.PriceLimit? {
      var aliases := Aliases(f.state);
      StateColumnSpec(cl1, aliases);
      StateColumnSpec(cl2, aliases);
      forall i | 0 <= i < |aliases|
        ensures FirstPriceColumn(cl1, aliases[i]).None? <==> FirstPriceColumn(cl2, aliases[i]).None?
      {
        FirstPriceColumnSpec(cl1, aliases[i]);
        FirstPriceColumnSpec(cl2, aliases[i]);
        assert forall j :: 0 <= j < |cl1| ==> cl1[j].0 == KeysOf(cl1)[j] == cl2[j].0;
      }
    } else {
      FirstPatternByKeys(cl1, cl2, Patterns(f));
    }
  }

  /** Whether a pattern list finds a header depends only on the keys of `columns_lower`. */
  lemma FirstPatternByKeys(cl1: Columns, cl2: Columns, patterns: seq<string>)
    requires KeysOf(cl1) == KeysOf(cl2)
    ensures FirstPattern(cl1, patterns).Some? <==> FirstPattern(cl2, patterns).Some?
  {
    FirstPatternSpec(cl1, patterns);
    FirstPatternSpec(cl2, patterns);
    forall j | 0 <= j < |patterns| ensures Lookup(cl1, patterns[j]).Some? <==> Lookup(cl2, patterns[j]).Some? {
      LookupKeys(cl1, patterns[j]);
      LookupKeys(cl2, patterns[j]);
    }
  }

  /** Headers that agree once lower-cased and stripped give `columns_lower` the same keys, in the same order. */
  lemma ColumnsLowerKeys(h1: seq<string>, h2: seq<string>)
    requires |h1| == |h2|
    requires forall i :: 0 <= i < |h1| ==> HeaderKey(h1[i]) == HeaderKey(h2[i])
    ensures KeysOf(ColumnsLower(h1)) == KeysOf(ColumnsLower(h2))
  {
    DictOfKeys(KeyedHeaders(h1));
    DictOfKeys(KeyedHeaders(h2));
    assert KeysOf(KeyedHeaders(h1)) == KeysOf(KeyedHeaders(h2));
  }

  /**
   * Header matching ignores case and surrounding whitespace: headers that
   * agree once lower-cased and stripped map the same standard keys.
   */
  lemma MappingIgnoresCase(h1: seq<string>, h2: seq<string>)
    requires |h1| == |h2|
    requires forall i :: 0 <= i < |h1| ==> HeaderKey(h1[i]) == HeaderKey(h2[i])
    ensures ColumnMapping(h1).Keys == ColumnMapping(h2).Keys
  {
    var cl1, cl2 := ColumnsLower(h1), ColumnsLower(h2);
    ColumnsLowerKeys(h1, h2);
    MappingKeysByKeys(cl1, cl2);
  }

  /** The keys of the mapping depend only on the keys of `columns_lower`. */
  lemma MappingKeysByKeys(cl1: Columns, cl2: Columns)
    requires KeysOf(cl1) == KeysOf(cl2)
    ensures MappingOf(cl1).Keys == MappingOf(cl2).Keys
  {
    forall k | k in MappingOf(cl1) ensures k in MappingOf(cl2) {
      MappedKeyByKeys(cl1, cl2, k);
    }
    forall k | k in MappingOf(cl2) ensures k in MappingOf(cl1) {
      MappedKeyByKeys(cl2, cl1, k);
    }
  }

  /** One key of the mapping carries over to a `columns_lower` with the same keys. */
  lemma MappedKeyByKeys(cl1: Columns, cl2: Columns, k: string)
    requires KeysOf(cl1) == KeysOf(cl2)
    requires k in MappingOf(cl1)
    ensures k in MappingOf(cl2)
  {
    MappedKey(cl1, k);
    if k == "item_number" {
      MappedItemNumber(cl1);
      MappedItemNumber(cl2);
      FirstPatternByKeys(cl1, cl2, ItemNumberPatterns);
    } else {
      var f :| FieldName(f) == k;
      MappedFieldAt(cl1, f);
      MappedFieldAt(cl2, f);
      DetectedByKeys(cl1, cl2, f);
    }
  }

  /** A field is a key of the mapping exactly when it is detected, to the detected header. */
  lemma MappedFieldAt(cl: Columns, f: Field)
    ensures FieldName(f) in MappingOf(cl) <==> Detected(cl, f).Some?
    ensures FieldName(f) in MappingOf(cl) ==> MappingOf(cl)[FieldName(f)] == Detected(cl, f).value
  {
    FieldsCase(f);
    if f in LeadingFields {
      MappedLeadingField(cl, f);
    } else if f in TrailingFields {
      MappedTrailingField(cl, f);
    } else {
      MappedPriceField(cl, f);
    }
  }

  /** A pattern list finds nothing exactly when no header, lower-cased and stripped, equals one of its patterns. */
  lemma HeaderMatch(headers: seq<string>, patterns: seq<string>)
    ensures FirstPattern(ColumnsLower(headers), patterns).None?
      <==> forall i, j :: 0 <= i < |headers| && 0 <= j < |patterns| ==> HeaderKey(headers[i]) != patterns[j]
  {
    FirstPatternSpec(ColumnsLower(headers), patterns);
    forall j | 0 <= j < |patterns| {
      ColumnsLowerHas(headers, patterns[j]);
    }
  }

  /**
   * A descriptive field is read from a header whose key is the first of the
   * field's patterns that any header produces; of the headers producing that
   * key, the last one.
   */
  lemma MappedHeaderIsLast(headers: seq<string>, f: Field)
    requires !f.PriceLimit? && FieldName(f) in ColumnMapping(headers)
    ensures exists j, i ::
      (FirstHit(ColumnsLower(headers), Patterns(f), j)
       && LastHeaderWith(headers, Patterns(f)[j], i) && ColumnMapping(headers)[FieldName(f)] == headers[i])
  {
    var cl := ColumnsLower(headers);
    MappedFieldAt(cl, f);
    FirstPatternSpec(cl, Patterns(f));
    var j :| FirstHit(cl, Patterns(f), j) && FirstPattern(cl, Patterns(f)) == Lookup(cl, Patterns(f)[j]);
    ColumnsLowerLast(headers, Patterns(f)[j]);
    var i :| LastHeaderWith(headers, Patterns(f)[j], i) && Lookup(cl, Patterns(f)[j]).value == headers[i];
  }

  /** Without an item-number header the sheet yields no items. */
  lemma NoItemNumberHeader(sheet: Sheet, p: Parsers)
    requires forall i, j :: 0 <= i < |sheet.headers| && 0 <= j < |ItemNumberPatterns| ==> HeaderKey(sheet.headers[i]) != ItemNumberPatterns[j]
    ensures SheetItems(sheet, p) == []
  {
    HeaderMatch(sheet.headers, ItemNumberPatterns);
    MappedItemNumber(ColumnsLower(sheet.headers));
  }

  // ---------------------------------------------------------------------
  // The emitted items

  /** The row at position `i` yields an item: the sheet has an item-number column and the row's number is truthy. */
  predicate Emits(mapping: map<string, string>, rows: seq<Row>, i: int, p: Parsers) {
    0 <= i < |rows| && "item_number" in mapping && Truthy(RowNumber(mapping, rows[i], p))
  }

  /** The item of the row at position `i`. */
  function RowItem(mapping: map<string, string>, rows: seq<Row>, i: int, p: Parsers): Item
    requires Emits(mapping, rows, i, p)
  {
    ItemOf(mapping, rows[i], i, RowNumber(mapping, rows[i], p), p)
  }

  /** The positions before `n` at which `keep` holds, in increasing order. */
  function Positions(keep: int -> bool, n: nat): seq<int> {
    if n == 0 then [] else Positions(keep, n - 1) + if keep(n - 1) then [n - 1] else []
  }

  /** The positions of the rows before `n` that yield an item, in row order. */
  function EmittingRows(mapping: map<string, string>, rows: seq<Row>, n: nat, p: Parsers): seq<int> {
    Positions(i => Emits(mapping, rows, i, p), n)
  }

  /** `EmittingRows` lists every emitting row before `n`, and only those, in strictly increasing order. */
  lemma EmittingRowsSpec(mapping: map<string, string>, rows: seq<Row>, n: nat, p: Parsers)
    ensures forall i :: i in EmittingRows(mapping, rows, n, p) <==> 0 <= i < n && Emits(mapping, rows, i, p)
    ensures forall k, l ::
      (0 <= k < l < |EmittingRows(mapping, rows, n, p)| ==> EmittingRows(mapping, rows, n, p)[k] < EmittingRows(mapping, rows, n, p)[l])
  {
    PositionsMembers(i => Emits(mapping, rows, i, p), n);
    PositionsIncreasing(i => Emits(mapping, rows, i, p), n);
  }

  /** The positions before `n` at which `keep` holds are listed, and nothing else. */
  lemma {:induction false} PositionsMembers(keep: int -> bool, n: nat)
    ensures forall i :: i in Positions(keep, n) <==> 0 <= i < n && keep(i)
  {
    if n > 0 {
      PositionsMembers(keep, n - 1);
    }
  }

  /** The positions are listed in strictly increasing order. */
  lemma {:induction false} PositionsIncreasing(keep: int -> bool, n: nat)
    ensures forall k, l :: (0 <= k < l < |Positions(keep, n)| ==> Positions(keep, n)[k] < Positions(keep, n)[l])
  {
    if n > 0 {
      var prev := Positions(keep, n - 1);
      PositionsIncreasing(keep, n - 1);
      PositionsMembers(keep, n - 1);
      if keep(n - 1) {
        var cur := prev + [n - 1];
        forall k, l | 0 <= k < l < |cur| ensures cur[k] < cur[l] {
          assert prev[k] in prev;
        }
      }
    }
  }

  /** At most one position below `n` each. */
  lemma {:induction false} PositionsBound(keep: int -> bool, n: nat)
    ensures |Positions(keep, n)| <= n
  {
    if n > 0 {
      PositionsBound(keep, n - 1);
    }
  }

  /** The items of the first `n` rows are the items of the emitting rows among them, in row order. */
  lemma {:induction false} ItemsOfPrefix(mapping: map<string, string>, rows: seq<Row>, n: nat, p: Parsers)
    requires n <= |rows|
    ensures |ItemsOf(mapping, rows[..n], p)| == |EmittingRows(mapping, rows, n, p)|
    ensures forall k :: 0 <= k < |ItemsOf(mapping, rows[..n], p)| ==>
      Emits(mapping, rows, EmittingRows(mapping, rows, n, p)[k], p)
      && ItemsOf(mapping, rows[..n], p)[k] == RowItem(mapping, rows, EmittingRows(mapping, rows, n, p)[k], p)
  {
    if n > 0 {
      ItemsOfPrefix(mapping, rows, n - 1, p);
      ItemsOfStep(mapping, rows, n - 1, p);
      var before := ItemsOf(mapping, rows[..n - 1], p);
      var src := EmittingRows(mapping, rows, n - 1, p);
      if Emits(mapping, rows, n - 1, p) {
        var items := ItemsOf(mapping, rows[..n], p);
        var pos := EmittingRows(mapping, rows, n, p);
        assert items == before + [RowItem(mapping, rows, n - 1, p)];
        assert pos == src + [n - 1];
        forall k | 0 <= k < |items| ensures Emits(mapping, rows, pos[k], p) && items[k] == RowItem(mapping, rows, pos[k], p) {
          if k < |before| {
            assert items[k] == before[k] && pos[k] == src[k];
          }
        }
      } else {
        assert ItemsOf(mapping, rows[..n], p) == before;
        assert EmittingRows(mapping, rows, n, p) == src;
      }
    }
  }

  /**
   * `convert_sheet_to_items` on a non-empty sheet: one item per row that has a
   * truthy item number, in row order, each built from its own row.
   */
  lemma ItemsOfRows(mapping: map<string, string>, rows: seq<Row>, p: Parsers)
    ensures |ItemsOf(mapping, rows, p)| == |EmittingRows(mapping, rows, |rows|, p)| <= |rows|
    ensures forall k :: 0 <= k < |ItemsOf(mapping, rows, p)| ==>
      Emits(mapping, rows, EmittingRows(mapping, rows, |rows|, p)[k], p)
      && ItemsOf(mapping, rows, p)[k] == RowItem(mapping, rows, EmittingRows(mapping, rows, |rows|, p)[k], p)
    ensures forall i :: i in EmittingRows(mapping, rows, |rows|, p) <==> Emits(mapping, rows, i, p)
    ensures forall k, l ::
      (0 <= k < l < |ItemsOf(mapping, rows, p)| ==> EmittingRows(mapping, rows, |rows|, p)[k] < EmittingRows(mapping, rows, |rows|, p)[l])
  {
    ItemsOfPrefix(mapping, rows, |rows|, p);
    EmittingRowsSpec(mapping, rows, |rows|, p);
    assert rows[..|rows|] == rows;
    PositionsBound(i => Emits(mapping, rows, i, p), |rows|);
  }

  // ---------------------------------------------------------------------
  // The shape of one item

  /** The state loop leaves a key that is no listed state's price key as it was. */
  lemma {:induction false} WithPricesOther(item: Item, mapping: map<string, string>, row: Row, ss: seq<State>, p: Parsers, k: string)
    requires forall i :: 0 <= i < |ss| ==> FieldName(PriceLimit(ss[i])) != k
    ensures k in WithPrices(item, mapping, row, ss, p) <==> k in item
    ensures k in item ==> WithPrices(item, mapping, row, ss, p)[k] == item[k]
  {
    if ss != [] {
      WithPricesOther(item, mapping, row, ss[..|ss| - 1], p, k);
    }
  }

  /** The state loop sets the price of every listed state from its column. */
  lemma {:induction false} WithPricesListed(item: Item, mapping: map<string, string>, row: Row, ss: seq<State>, p: Parsers, s: State)
    requires s in ss
    ensures FieldName(PriceLimit(s)) in WithPrices(item, mapping, row, ss, p)
    ensures WithPrices(item, mapping, row, ss, p)[FieldName(PriceLimit(s))] == FieldValue(mapping, row, PriceLimit(s), p)
  {
    var init, t := ss[..|ss| - 1], ss[|ss| - 1];
    if s != t {
      assert s in init by {
        var i :| 0 <= i < |ss| && ss[i] == s;
        assert init[i] == s;
      }
      WithPricesListed(item, mapping, row, init, p, s);
      FieldNamesDistinct(PriceLimit(s), PriceLimit(t));
    }
  }

  /** The state loop adds only price keys. */
  lemma {:induction false} WithPricesKeys(item: Item, mapping: map<string, string>, row: Row, ss: seq<State>, p: Parsers, k: string)
    requires k in WithPrices(item, mapping, row, ss, p)
    ensures k in item || exists s :: FieldName(PriceLimit(s)) == k
  {
    if ss != [] && k != FieldName(PriceLimit(ss[|ss| - 1])) {
      WithPricesKeys(item, mapping, row, ss[..|ss| - 1], p, k);
    }
  }

  /** Each field of an item holds the normalised cell of its column, or None when the sheet has no such column. */
  lemma ItemOfField(mapping: map<string, string>, row: Row, idx: nat, number: Value, p: Parsers, f: Field)
    ensures FieldName(f) in ItemOf(mapping, row, idx, number, p)
    ensures ItemOf(mapping, row, idx, number, p)[FieldName(f)] == FieldValue(mapping, row, f, p)
    ensures FieldName(f) !in mapping ==> ItemOf(mapping, row, idx, number, p)[FieldName(f)] == Null
    ensures FieldName(f) in mapping ==>
      ItemOf(mapping, row, idx, number, p)[FieldName(f)] == NormalizeValue(Cell(row, mapping[FieldName(f)]), TypeOf(f), p)
  {
    var base := BaseItem(mapping, row, idx, number, p);
    if f.PriceLimit? {
      StatesListed(f.state);
      WithPricesListed(base, mapping, row, States, p, f.state);
    } else {
      forall i | 0 <= i < |States| ensures FieldName(PriceLimit(States[i])) != FieldName(f) {
        FieldNamesDistinct(PriceLimit(States[i]), f);
      }
      WithPricesOther(base, mapping, row, States, p, FieldName(f));
      FieldNamesDistinct(f, f);
      BaseItemField(mapping, row, idx, number, p, f);
    }
  }

  /** The dict literal of the conversion holds each descriptive field. */
  lemma BaseItemField(mapping: map<string, string>, row: Row, idx: nat, number: Value, p: Parsers, f: Field)
    requires !f.PriceLimit?
    ensures FieldName(f) in BaseItem(mapping, row, idx, number, p)
    ensures BaseItem(mapping, row, idx, number, p)[FieldName(f)] == FieldValue(mapping, row, f, p)
  {
    DictLiteralFields(number, idx, f => FieldValue(mapping, row, f, p));
    match f
    case SupportName =>
    case RegistrationGroup =>
    case Category =>
    case Unit =>
    case ClaimType =>
    case EffectiveFrom =>
    case EffectiveTo =>
    case Notes =>
  }

  /** The entries of the dict literal, field by field. */
  lemma DictLiteralFields(number: Value, idx: nat, value: Field -> Value)
    ensures DictLiteral(number, idx, value)["support_name"] == value(SupportName)
    ensures DictLiteral(number, idx, value)["registration_group"] == value(RegistrationGroup)
    ensures DictLiteral(number, idx, value)["category"] == value(Category)
    ensures DictLiteral(number, idx, value)["unit"] == value(Unit)
    ensures DictLiteral(number, idx, value)["claim_type"] == value(ClaimType)
    ensures DictLiteral(number, idx, value)["effective_from"] == value(EffectiveFrom)
    ensures DictLiteral(number, idx, value)["effective_to"] == value(EffectiveTo)
    ensures DictLiteral(number, idx, value)["notes"] == value(Notes)
  {
  }

  /** `item_number` and `raw_row_index` hold the row's number and its position in the workbook (header row 1, first data row 2). */
  lemma ItemOfIdentity(mapping: map<string, string>, row: Row, idx: nat, number: Value, p: Parsers)
    ensures Get(ItemOf(mapping, row, idx, number, p), "item_number") == number
    ensures Get(ItemOf(mapping, row, idx, number, p), "raw_row_index") == Int(idx + 2)
  {
    var base := BaseItem(mapping, row, idx, number, p);
    forall i | 0 <= i < |States|
      ensures FieldName(PriceLimit(States[i])) != "item_number" && FieldName(PriceLimit(States[i])) != "raw_row_index"
    {
      FieldNamesDistinct(PriceLimit(States[i]), PriceLimit(States[i]));
    }
    WithPricesOther(base, mapping, row, States, p, "item_number");
    WithPricesOther(base, mapping, row, States, p, "raw_row_index");
  }

  /** An item holds `item_number`, `raw_row_index` and the field keys, and nothing else. */
  lemma ItemOfKeys(mapping: map<string, string>, row: Row, idx: nat, number: Value, p: Parsers, k: string)
    requires k in ItemOf(mapping, row, idx, number, p)
    ensures k == "item_number" || k == "raw_row_index" || exists f :: FieldName(f) == k
  {
    var base := BaseItem(mapping, row, idx, number, p);
    WithPricesKeys(base, mapping, row, States, p, k);
    if k in base {
      assert k in {"item_number", FieldName(SupportName), FieldName(RegistrationGroup), FieldName(Category), FieldName(Unit),
        FieldName(ClaimType), FieldName(EffectiveFrom), FieldName(EffectiveTo), FieldName(Notes), "raw_row_index"};
    }
  }

  /** An emitted item carries a non-empty, stripped string item number, which the comparison reads as its identifier. */
  lemma EmittedItemNumber(mapping: map<string, string>, rows: seq<Row>, i: int, p: Parsers)
    requires Emits(mapping, rows, i, p)
    ensures Get(RowItem(mapping, rows, i, p), "item_number").Str?
    ensures Get(RowItem(mapping, rows, i, p), "item_number").s != ""
    ensures Trim(Get(RowItem(mapping, rows, i, p), "item_number").s) == Get(RowItem(mapping, rows, i, p), "item_number").s
    ensures VersionDiff.ItemNumberOf(RowItem(mapping, rows, i, p)) == Get(RowItem(mapping, rows, i, p), "item_number").s
  {
    var number := RowNumber(mapping, rows[i], p);
    ItemOfIdentity(mapping, rows[i], i, number, p);
    StringCell(Cell(rows[i], mapping["item_number"]), p);
  }

  /** The rows of emitted items are told apart by `raw_row_index`, which grows along the item list. */
  lemma RowIndexIncreasing(mapping: map<string, string>, rows: seq<Row>, p: Parsers, k: int, l: int)
    requires 0 <= k < l < |ItemsOf(mapping, rows, p)|
    ensures Get(ItemsOf(mapping, rows, p)[k], "raw_row_index").Int?
    ensures Get(ItemsOf(mapping, rows, p)[l], "raw_row_index").Int?
    ensures Get(ItemsOf(mapping, rows, p)[k], "raw_row_index").i < Get(ItemsOf(mapping, rows, p)[l], "raw_row_index").i
  {
    ItemsOfRows(mapping, rows, p);
    var src := EmittingRows(mapping, rows, |rows|, p);
    ItemOfIdentity(mapping, rows[src[k]], src[k], RowNumber(mapping, rows[src[k]], p), p);
    ItemOfIdentity(mapping, rows[src[l]], src[l], RowNumber(mapping, rows[src[l]], p), p);
  }
}
