/**
 * The Python values that flow through the catalogue code: spreadsheet cells
 * and the fields of catalogue items.  Numbers are carried by their `str()`
 * text, since the comparison only ever looks at that text.
 */
module Values {
  import opened Text

  datatype Value =
    | Null                 // None (and, for cells, NaN)
    | Str(s: string)
    | Bool(b: bool)
    | Int(i: int)
    | Float(text: string)  // a float, by the text `str()` gives for it

  /** A catalogue item, or any other dict from field names to values. */
  type Item = map<string, Value>

  /** The eight states and territories that carry a price limit, in the order the code lists them. */
  datatype State = NSW | VIC | QLD | SA | WA | TAS | NT | ACT

  const States: seq<State> := [NSW, VIC, QLD, SA, WA, TAS, NT, ACT]

  /** Every state is listed. */
  lemma StatesListed(s: State)
    ensures s in States
  {
    match s
    case NSW => assert States[0] == s;
    case VIC => assert States[1] == s;
    case QLD => assert States[2] == s;
    case SA => assert States[3] == s;
    case WA => assert States[4] == s;
    case TAS => assert States[5] == s;
    case NT => assert States[6] == s;
    case ACT => assert States[7] == s;
  }

  /** The lower-case code the price-limit key is built from. */
  function StateCode(s: State): string {
    match s
    case NSW => "nsw"
    case VIC => "vic"
    case QLD => "qld"
    case SA => "sa"
    case WA => "wa"
    case TAS => "tas"
    case NT => "nt"
    case ACT => "act"
  }

  /** The descriptive and price fields of an item (not `item_number`, not `raw_row_index`). */
  datatype Field =
    | SupportName | RegistrationGroup | Category | Unit | ClaimType
    | PriceLimit(state: State)
    | EffectiveFrom | EffectiveTo | Notes

  /** The dict key a field is stored under. */
  function FieldName(f: Field): string {
    match f
    case SupportName => "support_name"
    case RegistrationGroup => "registration_group"
    case Category => "category"
    case Unit => "unit"
    case ClaimType => "claim_type"
    case PriceLimit(s) => "price_limit_" + StateCode(s)
    case EffectiveFrom => "effective_from"
    case EffectiveTo => "effective_to"
    case Notes => "notes"
  }

  /** No two fields share a key, and no compared key is `item_number` or `raw_row_index`. */
  lemma FieldNamesDistinct(f: Field, g: Field)
    ensures FieldName(f) == FieldName(g) ==> f == g
    ensures FieldName(f) != "item_number" && FieldName(f) != "raw_row_index"
  {
    if f.PriceLimit? {
      assert FieldName(f)[..12] == "price_limit_";
      assert FieldName(f)[12..] == StateCode(f.state);
    }
    if g.PriceLimit? {
      assert FieldName(g)[..12] == "price_limit_";
      assert FieldName(g)[12..] == StateCode(g.state);
    }
  }

  /** `item.get(key)`. */
  function Get(item: Item, key: string): Value {
    if key in item then item[key] else Null
  }

  predicate IsZeroFloatText(t: string) {
    t == "0.0" || t == "-0.0"
  }

  /** `pd.isna(v)` for a scalar cell. */
  predicate IsNa(v: Value) {
    v.Null? || (v.Float? && v.text == "nan")
  }

  /** Python truthiness, `bool(v)`. */
  predicate Truthy(v: Value) {
    match v
    case Null => false
    case Str(s) => s != ""
    case Bool(b) => b
    case Int(i) => i != 0
    case Float(t) => !IsZeroFloatText(t)
  }

  /** `str(v)`. */
  function PyStr(v: Value): string {
    match v
    case Null => "None"
    case Str(s) => s
    case Bool(b) => if b then "True" else "False"
    case Int(i) => IntToString(i)
    case Float(t) => t
  }
}
