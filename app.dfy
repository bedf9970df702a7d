/**
 * app.js, the page state: the loaded rows `rawData`, the shown rows
 * `filtered` and `sortState`, and the handlers that change them (`init`,
 * `applyFilters`, `clearFilters`, a sort-button click) or read them
 * (`renderAll`).
 */
module App {
  import opened Wrappers
  import opened JsValues
  import opened Records
  import opened Seqs
  import opened Filters
  import opened RowOrder
  import opened Aggregates

  /** What one `renderAll` puts on the page, apart from the markup. */
  datatype View = View(
    kpis: Kpis,          // the five KPI cards
    shown: nat,          // "Mostrando <shown> de <loaded> registros"
    loaded: nat,
    bars: seq<Bar>,      // the bars per implantador
    table: seq<Row>)     // the table body, in order

  class Dashboard {
    var rawData: seq<Row>
    var filtered: seq<Row>
    var sortState: SortState

    /** The shown rows are always some of the loaded rows, in their order. */
    ghost predicate Valid()
      reads this
    {
      IsSubsequence(filtered, rawData)
    }

    /** The state when the script starts: no rows, start-real date ascending. */
    constructor()
      ensures rawData == [] && filtered == [] && sortState == InitialSort
      ensures Valid()
    {
      rawData := [];
      filtered := [];
      sortState := InitialSort;
    }

    /**
     * `applyFilters`: the loaded rows that pass the controls. The table is
     * then drawn by `renderAll` (see Render).
     */
    method ApplyFilters(c: Controls)
      modifies this
      ensures filtered == FilterRows(rawData, c)
      ensures rawData == old(rawData) && sortState == old(sortState)
      ensures Valid()
    {
      filtered := FilterRows(rawData, c);
      FilterKeepsOrder(rawData, c);
    }

    /** `clearFilters`: every control emptied, so every loaded row is shown. */
    method ClearFilters()
      modifies this
      ensures filtered == FilterRows(rawData, NoControls) == rawData
      ensures rawData == old(rawData) && sortState == old(sortState)
      ensures Valid()
    {
      ApplyFilters(NoControls);
      ClearedControlsKeepAll(rawData);
    }

    /**
     * `init` with the payload the fetch delivered (the fetch itself is not
     * modelled) and the controls' current values: on success the rows
     * replace the loaded rows and are filtered; on failure nothing changes
     * and the error text shown is returned.
     */
    method Init(payload: JsValue, c: Controls) returns (error: Option<string>)
      requires Valid()
      modifies this
      ensures sortState == old(sortState)
      ensures NormalizeRows(payload).Ok? ==>
        && error.None?
        && rawData == NormalizeRows(payload).value
        && filtered == FilterRows(rawData, c)
      ensures NormalizeRows(payload).Err? ==>
        && error == Some(ErrorText(ErrorMessage(NormalizeRows(payload).error)))
        && rawData == old(rawData) && filtered == old(filtered)
      ensures Valid()
    {
      match NormalizeRows(payload)
      case Ok(rows) =>
        rawData := rows;
        ApplyFilters(c);
        error := None;
      case Err(e) =>
        error := Some(ErrorText(ErrorMessage(e)));
    }

    /**
     * A click on a sort button with attribute `data-key` equal to `key`
     * ("" when absent), with one click handler bound (see ClickWithHandlers
     * for what happens after a refresh).
     */
    method ClickSort(key: string)
      requires Valid()
      modifies this
      ensures sortState == Toggle(old(sortState), key)
      ensures rawData == old(rawData) && filtered == old(filtered)
      ensures Valid()
    {
      if key == "" {
        return;
      }
      if sortState.key == key {
        sortState := sortState.(dir := if sortState.dir == Asc then Desc else Asc);
      } else {
        sortState := sortState.(key := key);
        sortState := sortState.(dir := Asc);
      }
    }

    /**
     * `renderAll`, given the day number of today: the KPIs and the bars of
     * the shown rows, the counts line, and the shown rows in table order.
     */
    method Render(today: int) returns (v: View)
      requires Valid()
      ensures v.kpis == KpisOf(filtered, today)
      ensures v.kpis.done + v.kpis.open == v.kpis.total == v.shown <= v.loaded == |rawData|
      ensures v.bars == RowBars(filtered)
      ensures v.table == ApplySort(filtered, sortState)
      ensures multiset(v.table) == multiset(filtered)
    {
      SubsequenceLength(filtered, rawData);
      var entries := Tally(filtered);
      TallyPositive(filtered);
      v := View(KpisOf(filtered, today), |filtered|, |rawData|, BarsOf(entries), ApplySort(filtered, sortState));
    }
  }

  // ---------------------------------------------------------------------------
  // The click handlers bound by every successful init

  /**
   * A click as the page runs it after `n` successful loads: each load binds
   * one more handler to every sort button, and the handlers run in turn,
   * each toggling the state the previous one left.
   */
  function ClickWithHandlers(st: SortState, key: string, n: nat): (r: SortState)
    ensures key == "" ==> r == st
    ensures key != "" && n >= 1 ==> r.key == key
    decreases n
  {
    if n == 0 then st else ClickWithHandlers(Toggle(st, key), key, n - 1)
  }

  /**
   * After a refresh, so with two handlers bound, a click on the current
   * column leaves the order as it was, and a click on another column
   * orders it descending at once.
   */
  lemma RefreshBreaksSortButtons(st: SortState, key: string)
    requires key != ""
    ensures key == st.key ==> ClickWithHandlers(st, key, 2) == st
    ensures key != st.key ==> ClickWithHandlers(st, key, 2) == SortState(key, Desc)
  {
    assert ClickWithHandlers(st, key, 2) == Toggle(Toggle(st, key), key) by {
      assert ClickWithHandlers(Toggle(Toggle(st, key), key), key, 0) == Toggle(Toggle(st, key), key);
    }
    if key == st.key {
      ToggleTwiceRestores(st, key);
    } else {
      ToggleNewColumn(st, key);
    }
  }

  /**
   * With `n` handlers a click on the current column flips the direction
   * exactly when `n` is odd: every second load disables the flip.
   */
  lemma {:induction false} ClickWithHandlersParity(st: SortState, n: nat)
    requires st.key != ""
    ensures ClickWithHandlers(st, st.key, n) == if n % 2 == 0 then st else Toggle(st, st.key)
  {
    if n >= 2 {
      ToggleTwiceRestores(st, st.key);
      assert ClickWithHandlers(st, st.key, n) == ClickWithHandlers(Toggle(st, st.key), st.key, n - 1);
      assert Toggle(st, st.key).key == st.key;
      assert ClickWithHandlers(Toggle(st, st.key), st.key, n - 1)
          == ClickWithHandlers(st, st.key, n - 2);
      ClickWithHandlersParity(st, n - 2);
    }
  }
}
