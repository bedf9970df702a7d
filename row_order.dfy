/**
 * app.js, the table order: `sortState`, the click toggle of
 * `bindSortButtons`, `compareAny` and `applySort`.
 */
module RowOrder {
  import opened Wrappers
  import opened JsValues
  import opened Calendar
  import opened Records
  import opened Collation
  import opened StableSort
  import opened Seqs

  datatype Dir = Asc | Desc

  /** `sortState`: the column the table is ordered by and the direction. */
  datatype SortState = SortState(key: string, dir: Dir)

  /** The order the page starts with: actual start date, ascending. */
  const InitialSort: SortState := SortState("start_real", Asc)

  /**
   * A click on a sort button whose `data-key` is `key` ("" when the
   * attribute is missing or empty): nothing happens without a key; the
   * current column flips direction; another column becomes the column,
   * ascending.
   */
  function Toggle(st: SortState, key: string): (r: SortState)
    ensures key == "" ==> r == st
    ensures key != "" ==> r.key == key
    ensures key != "" && key == st.key ==> r.dir != st.dir
    ensures key != "" && key != st.key ==> r.dir == Asc
  {
    if key == "" then st
    else if st.key == key then SortState(key, if st.dir == Asc then Desc else Asc)
    else SortState(key, Asc)
  }

  /** Two clicks on the current column restore the order. */
  lemma ToggleTwiceRestores(st: SortState, key: string)
    requires key == st.key
    ensures Toggle(Toggle(st, key), key) == st
  {
  }

  /** A new column is ascending after one click and descending after two. */
  lemma ToggleNewColumn(st: SortState, key: string)
    requires key != "" && key != st.key
    ensures Toggle(st, key) == SortState(key, Asc)
    ensures Toggle(Toggle(st, key), key) == SortState(key, Desc)
  {
  }

  // ---------------------------------------------------------------------------
  // getVal and compareAny

  /** A time value, or the `Number.POSITIVE_INFINITY` that stands for a missing date. */
  datatype TimeVal = At(ms: int) | Infinity

  predicate IsDateKey(key: string) {
    key == "data_inicio" || key == "start_real"
  }

  /** `getVal(r)` for the two date columns. */
  function DateVal(r: Row, key: string): (t: TimeVal)
    requires IsDateKey(key)
    ensures var d := if key == "data_inicio" then r.dInicio else r.dStartReal;
      && (t.Infinity? <==> d.None?)
      && (d.Some? ==> t == At(TimeOf(d.value)))
  {
    var d := if key == "data_inicio" then r.dInicio else r.dStartReal;
    if d.Some? then At(TimeOf(d.value)) else Infinity
  }

  /**
   * The sign of `va - vb`, which is all `sort` reads: infinity minus a
   * time is positive, a time minus infinity negative, and infinity minus
   * infinity is NaN, which `sort` takes as 0.
   */
  function TimeDiff(a: TimeVal, b: TimeVal): int {
    match (a, b)
    case (At(x), At(y)) => x - y
    case (At(_), Infinity) => -1
    case (Infinity, At(_)) => 1
    case (Infinity, Infinity) => 0
  }

  /**
   * `getVal(r)`, that is `r[key]`, for the other columns; a key the row
   * lacks reads as undefined. The row object also has the keys `dInicio`
   * and `dStartReal`, holding `Date` objects; no sort button carries them,
   * and they are read here as undefined.
   */
  function FieldVal(r: Row, key: string): (v: JsValue)
    ensures IsPrimitive(v) && (v.Str? || v.Bool? || v.Undefined?)
  {
    if key == "cliente" then Str(r.cliente)
    else if key == "implantador" then Str(r.implantador)
    else if key == "concluido" then Str(r.concluido)
    else if key == "previsao_start" then Str(r.previsaoStart)
    else if key == "passado_suporte" then Str(r.passadoSuporte)
    else if key == "status_label" then Str(Label(r.status))
    else if key == "noStartReal" then Bool(r.noStartReal)
    else Undefined
  }

  predicate IsPrimitive(v: JsValue) {
    !v.Arr? && !v.Obj?
  }

  /**
   * `compareAny(a, b)`: equal values tie; a missing or empty value goes
   * after any other; otherwise the texts are compared by `localeCompare`.
   */
  function CompareAny(a: JsValue, b: JsValue): (r: int)
    requires IsPrimitive(a) && IsPrimitive(b)
    ensures r == -1 || r == 0 || r == 1
    ensures a == b ==> r == 0
    ensures a != b && (IsNullish(a) || a == Str("")) ==> r == 1
    ensures a != b && !IsNullish(a) && a != Str("") && (IsNullish(b) || b == Str("")) ==> r == -1
  {
    if a == b then 0
    else if IsNullish(a) || a == Str("") then 1
    else if IsNullish(b) || b == Str("") then -1
    else LocaleCompare(ToStr(a), ToStr(b))
  }

  /** The comparator of `applySort` before the direction is applied. */
  function BaseCmp(key: string, a: Row, b: Row): int {
    if IsDateKey(key) then TimeDiff(DateVal(a, key), DateVal(b, key))
    else CompareAny(FieldVal(a, key), FieldVal(b, key))
  }

  function Mult(dir: Dir): int {
    if dir == Asc then 1 else -1
  }

  /** The comparator `applySort` hands to `sort`. */
  function RowCmp(st: SortState): (Row, Row) -> int {
    (a: Row, b: Row) => BaseCmp(st.key, a, b) * Mult(st.dir)
  }

  /** `applySort(list)`: a sorted copy of the list under the current sort state. */
  function ApplySort(list: seq<Row>, st: SortState): (r: seq<Row>)
    ensures multiset(r) == multiset(list)
  {
    SortBy(list, RowCmp(st))
  }

  // ---------------------------------------------------------------------------
  // The comparator is consistent

  /** The text a cell value shows for comparison: "" for a missing value. */
  function TextOf(v: JsValue): string {
    match v
    case Str(s) => s
    case Bool(b) => ToStr(Bool(b))
    case _ => ""
  }

  function TextKey(r: Row, key: string): string {
    TextOf(FieldVal(r, key))
  }

  /** `compareAny` on texts, with "" standing for a missing value. */
  function TextCmp(x: string, y: string): int {
    if x == y then 0
    else if x == "" then 1
    else if y == "" then -1
    else LocaleCompare(x, y)
  }

  /** Two texts, two booleans or two missing values compare as their texts. */
  lemma CompareAnySameKind(u: JsValue, v: JsValue)
    requires (u.Str? && v.Str?) || (u.Bool? && v.Bool?) || (u.Undefined? && v.Undefined?)
    ensures CompareAny(u, v) == TextCmp(TextOf(u), TextOf(v))
  {
    if u.Bool? {
      assert TextOf(u) == (if u.b then "true" else "false");
      assert TextOf(v) == (if v.b then "true" else "false");
      assert u == v <==> TextOf(u) == TextOf(v);
    }
  }

  /** On a non-date column, `compareAny` compares the columns' texts. */
  lemma CompareAnyAsText(key: string, a: Row, b: Row)
    requires !IsDateKey(key)
    ensures BaseCmp(key, a, b) == TextCmp(TextKey(a, key), TextKey(b, key))
  {
    var u, v := FieldVal(a, key), FieldVal(b, key);
    assert (u.Str? && v.Str?) || (u.Bool? && v.Bool?) || (u.Undefined? && v.Undefined?);
    CompareAnySameKind(u, v);
  }

  lemma TextCmpAntisymmetric(x: string, y: string)
    ensures TextCmp(x, y) < 0 <==> TextCmp(y, x) > 0
  {
    LocaleCompareAntisymmetric(x, y);
  }

  lemma TextCmpTransitive(x: string, y: string, z: string)
    requires TextCmp(x, y) <= 0 && TextCmp(y, z) <= 0
    ensures TextCmp(x, z) <= 0
  {
    if x != y && y != z && x != z && z != "" {
      LocaleCompareTransitive(x, y, z);
    }
  }

  lemma BaseCmpAntisymmetric(key: string, a: Row, b: Row)
    ensures BaseCmp(key, a, b) < 0 <==> BaseCmp(key, b, a) > 0
  {
    if !IsDateKey(key) {
      CompareAnyAsText(key, a, b);
      CompareAnyAsText(key, b, a);
      TextCmpAntisymmetric(TextKey(a, key), TextKey(b, key));
    }
  }

  lemma BaseCmpTransitive(key: string, a: Row, b: Row, c: Row)
    requires BaseCmp(key, a, b) <= 0 && BaseCmp(key, b, c) <= 0
    ensures BaseCmp(key, a, c) <= 0
  {
    if !IsDateKey(key) {
      CompareAnyAsText(key, a, b);
      CompareAnyAsText(key, b, c);
      CompareAnyAsText(key, a, c);
      TextCmpTransitive(TextKey(a, key), TextKey(b, key), TextKey(c, key));
    }
  }

  /**
   * Whatever the column and direction, the comparator orders rows
   * consistently, so `sort` has a single stable result.
   */
  lemma RowCmpConsistent(st: SortState)
    ensures Consistent(RowCmp(st))
  {
    var cmp := RowCmp(st);
    forall a, b ensures cmp(a, b) < 0 <==> cmp(b, a) > 0 {
      BaseCmpAntisymmetric(st.key, a, b);
      BaseCmpAntisymmetric(st.key, b, a);
    }
    forall a, b, c | cmp(a, b) <= 0 && cmp(b, c) <= 0 ensures cmp(a, c) <= 0 {
      if st.dir == Asc {
        BaseCmpTransitive(st.key, a, b, c);
      } else {
        BaseCmpAntisymmetric(st.key, b, a);
        BaseCmpAntisymmetric(st.key, c, b);
        BaseCmpAntisymmetric(st.key, a, c);
        BaseCmpTransitive(st.key, c, b, a);
      }
    }
  }

  // ---------------------------------------------------------------------------
  // What the sorted table looks like

  /**
   * `applySort` returns a permutation of the rows, ordered by the
   * comparator, in which rows the comparator ties keep their input order.
   */
  lemma ApplySortCorrect(list: seq<Row>, st: SortState)
    ensures multiset(ApplySort(list, st)) == multiset(list)
    ensures Sorted(ApplySort(list, st), RowCmp(st))
    ensures forall z :: Select(ApplySort(list, st), TiedWith(RowCmp(st), z))
                     == Select(list, TiedWith(RowCmp(st), z))
  {
    RowCmpConsistent(st);
    SortBySorted(list, RowCmp(st));
    forall z ensures Select(ApplySort(list, st), TiedWith(RowCmp(st), z))
                  == Select(list, TiedWith(RowCmp(st), z)) {
      SortByStable(list, RowCmp(st), z);
    }
  }

  function DateOf(r: Row, key: string): Option<int>
    requires IsDateKey(key)
  {
    if key == "data_inicio" then r.dInicio else r.dStartReal
  }

  /**
   * On a date column, ascending puts dated rows in date order and every
   * row without a date after them; descending puts the rows without a
   * date first and the dated rows from the latest back.
   */
  lemma DateColumnOrder(list: seq<Row>, st: SortState, i: int, j: int)
    requires IsDateKey(st.key)
    requires 0 <= i < j < |list|
    ensures var s := ApplySort(list, st);
      && (st.dir == Asc && DateOf(s[i], st.key).None? ==> DateOf(s[j], st.key).None?)
      && (st.dir == Desc && DateOf(s[j], st.key).None? ==> DateOf(s[i], st.key).None?)
      && (DateOf(s[i], st.key).Some? && DateOf(s[j], st.key).Some? ==>
           if st.dir == Asc then DateOf(s[i], st.key).value <= DateOf(s[j], st.key).value
           else DateOf(s[i], st.key).value >= DateOf(s[j], st.key).value)
  {
    var s := ApplySort(list, st);
    ApplySortCorrect(list, st);
    assert RowCmp(st)(s[i], s[j]) <= 0;
    var di, dj := DateOf(s[i], st.key), DateOf(s[j], st.key);
    if di.Some? && dj.Some? {
      TimeOrder(di.value, dj.value);
      TimeOrder(dj.value, di.value);
    }
  }

  /** On a text column, rows with an empty value come last in ascending order and first in descending order. */
  lemma EmptyTextOrder(list: seq<Row>, st: SortState, i: int, j: int)
    requires !IsDateKey(st.key)
    requires 0 <= i < j < |list|
    ensures var s := ApplySort(list, st);
      && (st.dir == Asc && TextKey(s[i], st.key) == "" ==> TextKey(s[j], st.key) == "")
      && (st.dir == Desc && TextKey(s[j], st.key) == "" ==> TextKey(s[i], st.key) == "")
  {
    var s := ApplySort(list, st);
    ApplySortCorrect(list, st);
    assert RowCmp(st)(s[i], s[j]) <= 0;
    CompareAnyAsText(st.key, s[i], s[j]);
  }
}
