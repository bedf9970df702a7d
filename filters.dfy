/**
 * app.js, `applyFilters`: the filter controls and the test each row must
 * pass to stay in the table.
 */
module Filters {
  import opened Wrappers
  import opened Text
  import opened JsValues
  import opened Calendar
  import opened Records
  import opened Seqs

  /**
   * The values of the filter controls. The date inputs are given as the
   * day numbers of the chosen dates (None when the input is empty).
   */
  datatype Controls = Controls(
    implantador: string,     // fImplantador.value, "" for all
    status: string,          // fStatus.value: "suporte", "concluido", "andamento" or ""
    search: string,          // fSearch.value, as typed
    onlyNoStartReal: bool,   // onlyNoStartReal.checked
    inicioDe: Option<int>,
    inicioAte: Option<int>,
    startRealDe: Option<int>,
    startRealAte: Option<int>)

  /** The controls as `clearFilters` leaves them. */
  const NoControls: Controls := Controls("", "", "", false, None, None, None, None)

  /** Milliseconds from midnight to 23:59:59, the time of an "until" bound. */
  const EndOfDayMs: int := 86399000

  /** The status select: each known choice tests the yes-fields directly. */
  predicate StatusMatches(r: Row, status: string) {
    && (status == "suporte" ==> IsSim(Str(r.passadoSuporte)))
    && (status == "concluido" ==> IsSim(Str(r.concluido)))
    && (status == "andamento" ==> !IsSim(Str(r.concluido)) && !IsSim(Str(r.passadoSuporte)))
  }

  /**
   * One date block of the filter: with neither bound set it passes; else
   * the row needs a date no earlier than the start bound's midnight and no
   * later than the end bound's 23:59:59.
   */
  predicate InRange(d: Option<int>, from: Option<int>, until: Option<int>) {
    || (from.None? && until.None?)
    || (&& d.Some?
        && (from.None? || TimeOf(d.value) >= TimeOf(from.value))
        && (until.None? || TimeOf(d.value) <= TimeOf(until.value) + EndOfDayMs))
  }

  /** The text typed in the search box, trimmed and lower-cased. */
  function SearchText(c: Controls): string {
    Lower(Trim(c.search))
  }

  /** The search test: an empty search passes; else client and implantador, lower-cased, contain it. */
  predicate SearchPasses(r: Row, c: Controls) {
    SearchText(c) == "" || Contains(Lower(r.cliente + " " + r.implantador), SearchText(c))
  }

  /** The callback of `rawData.filter` in `applyFilters`. */
  predicate Keep(r: Row, c: Controls)
    ensures Keep(r, c) && c.implantador != "" ==> r.implantador == c.implantador
    ensures Keep(r, c) && c.onlyNoStartReal ==> r.noStartReal
    ensures Keep(r, c) && (c.inicioDe.Some? || c.inicioAte.Some?) ==> r.dInicio.Some?
    ensures Keep(r, c) && (c.startRealDe.Some? || c.startRealAte.Some?) ==> r.dStartReal.Some?
  {
    && (c.implantador == "" || r.implantador == c.implantador)
    && StatusMatches(r, c.status)
    && (!c.onlyNoStartReal || r.noStartReal)
    && SearchPasses(r, c)
    && InRange(r.dInicio, c.inicioDe, c.inicioAte)
    && InRange(r.dStartReal, c.startRealDe, c.startRealAte)
  }

  function KeepTest(c: Controls): Row -> bool {
    r => Keep(r, c)
  }

  /** `filtered`: the rows that pass, in their order. */
  function FilterRows(rows: seq<Row>, c: Controls): (kept: seq<Row>)
    ensures |kept| <= |rows|
    ensures forall i :: 0 <= i < |kept| ==> kept[i] in rows && Keep(kept[i], c)
    ensures forall i :: 0 <= i < |rows| && Keep(rows[i], c) ==> rows[i] in kept
  {
    Select(rows, KeepTest(c))
  }

  // ---------------------------------------------------------------------------
  // Properties

  /** Filtering only deletes rows; it never reorders them. */
  lemma FilterKeepsOrder(rows: seq<Row>, c: Controls)
    ensures IsSubsequence(FilterRows(rows, c), rows)
  {
    SelectIsSubsequence(rows, KeepTest(c));
  }

  /** With the cleared controls every row is shown. */
  lemma ClearedControlsKeepAll(rows: seq<Row>)
    ensures FilterRows(rows, NoControls) == rows
  {
    forall r: Row
      ensures Keep(r, NoControls)
    {
      assert SearchText(NoControls) == "" by {
        TrimEmpty();
      }
    }
    SelectAll(rows, KeepTest(NoControls));
  }

  /** Filtering the table again with the same controls changes nothing. */
  lemma FilterIdempotent(rows: seq<Row>, c: Controls)
    ensures FilterRows(FilterRows(rows, c), c) == FilterRows(rows, c)
  {
    SelectIdempotent(rows, KeepTest(c));
  }

  /**
   * The status choices on a normalised row: "suporte" keeps exactly the
   * rows labelled handed to support, "andamento" exactly those in
   * progress; "concluido" keeps the concluded rows and also the rows
   * handed to support whose `concluido` is yes; other values keep all.
   */
  lemma StatusChoices(r: Row, status: string)
    requires r.status == StatusOf(r.concluido, r.passadoSuporte)
    ensures StatusMatches(r, "suporte") <==> r.status == HandedToSupport
    ensures StatusMatches(r, "andamento") <==> r.status == InProgress
    ensures StatusMatches(r, "concluido") <==>
      r.status == Concluded || (r.status == HandedToSupport && IsSim(Str(r.concluido)))
    ensures status != "suporte" && status != "concluido" && status != "andamento"
      ==> StatusMatches(r, status)
  {
  }

  /** A day bound admits whole days: the start bound from its midnight, the end bound to its last second. */
  lemma DayBoundsInclusive(d: int, b: int)
    ensures TimeOf(d) >= TimeOf(b) <==> d >= b
    ensures TimeOf(d) <= TimeOf(b) + EndOfDayMs <==> d <= b
  {
    if d <= b - 1 {
      assert TimeOf(d) <= TimeOf(b - 1);
    }
    if d >= b + 1 {
      assert TimeOf(d) >= TimeOf(b + 1);
    }
  }

  /**
   * The date test in calendar days: a set bound excludes the rows without
   * a date, and the bounds are inclusive days.
   */
  lemma InRangeByDay(d: Option<int>, from: Option<int>, until: Option<int>)
    ensures InRange(d, from, until) <==>
      || (from.None? && until.None?)
      || (&& d.Some?
          && (from.None? || from.value <= d.value)
          && (until.None? || d.value <= until.value))
  {
    if d.Some? && from.Some? {
      DayBoundsInclusive(d.value, from.value);
    }
    if d.Some? && until.Some? {
      DayBoundsInclusive(d.value, until.value);
    }
  }

  /** The search finds a row by its client name, whatever the case and the surrounding blanks. */
  lemma SearchFindsClient(r: Row, c: Controls)
    requires SearchText(c) == Lower(r.cliente)
    ensures SearchPasses(r, c)
  {
    var hay := r.cliente + " " + r.implantador;
    assert hay[..|r.cliente|] == r.cliente;
    assert Lower(hay)[0..|r.cliente|] == Lower(r.cliente);
    assert OccursAt(Lower(hay), SearchText(c), 0);
  }

  /** Controls of which no two set the same filter. */
  predicate Disjoint(c1: Controls, c2: Controls) {
    && (c1.implantador == "" || c2.implantador == "")
    && (c1.status == "" || c2.status == "")
    && (c1.search == "" || c2.search == "")
    && (c1.inicioDe.None? || c2.inicioDe.None?)
    && (c1.inicioAte.None? || c2.inicioAte.None?)
    && (c1.startRealDe.None? || c2.startRealDe.None?)
    && (c1.startRealAte.None? || c2.startRealAte.None?)
  }

  function Pick(a: string, b: string): string {
    if a != "" then a else b
  }

  function PickDate(a: Option<int>, b: Option<int>): Option<int> {
    if a.Some? then a else b
  }

  /** The controls that set every filter either of two disjoint controls sets. */
  function Combine(c1: Controls, c2: Controls): Controls {
    Controls(
      Pick(c1.implantador, c2.implantador),
      Pick(c1.status, c2.status),
      Pick(c1.search, c2.search),
      c1.onlyNoStartReal || c2.onlyNoStartReal,
      PickDate(c1.inicioDe, c2.inicioDe),
      PickDate(c1.inicioAte, c2.inicioAte),
      PickDate(c1.startRealDe, c2.startRealDe),
      PickDate(c1.startRealAte, c2.startRealAte))
  }

  lemma TrimEmpty()
    ensures Trim("") == ""
  {
    TrimCore([], [], []);
  }

  /** The tests combine by "and": a row passes the combined controls exactly when it passes both. */
  lemma KeepCombined(r: Row, c1: Controls, c2: Controls)
    requires Disjoint(c1, c2)
    ensures Keep(r, Combine(c1, c2)) <==> Keep(r, c1) && Keep(r, c2)
  {
    SearchCombined(r, c1, c2);
    InRangeCombined(r.dInicio, c1.inicioDe, c1.inicioAte, c2.inicioDe, c2.inicioAte);
    InRangeCombined(r.dStartReal, c1.startRealDe, c1.startRealAte, c2.startRealDe, c2.startRealAte);
  }

  /** With at most one search text set, the combined search passes exactly when both do. */
  lemma SearchCombined(r: Row, c1: Controls, c2: Controls)
    requires c1.search == "" || c2.search == ""
    ensures SearchPasses(r, Combine(c1, c2)) <==> SearchPasses(r, c1) && SearchPasses(r, c2)
  {
    var c := Combine(c1, c2);
    TrimEmpty();
    if c1.search == "" {
      assert c.search == c2.search;
      assert SearchText(c1) == Lower("");
      assert SearchText(c) == SearchText(c2);
    } else {
      assert c.search == c1.search;
      assert SearchText(c2) == Lower("");
      assert SearchText(c) == SearchText(c1);
    }
  }

  /** Date blocks with bounds taken from two disjoint sets pass exactly when both blocks do. */
  lemma InRangeCombined(d: Option<int>, from1: Option<int>, until1: Option<int>, from2: Option<int>, until2: Option<int>)
    requires from1.None? || from2.None?
    requires until1.None? || until2.None?
    ensures InRange(d, PickDate(from1, from2), PickDate(until1, until2))
        <==> InRange(d, from1, until1) && InRange(d, from2, until2)
  {
  }

  /**
   * The filters compose and commute: filtering with the combined controls
   * is filtering with one set and then with the other, in either order.
   */
  lemma FilterComposes(rows: seq<Row>, c1: Controls, c2: Controls)
    requires Disjoint(c1, c2)
    ensures FilterRows(rows, Combine(c1, c2)) == FilterRows(FilterRows(rows, c1), c2)
    ensures FilterRows(rows, Combine(c1, c2)) == FilterRows(FilterRows(rows, c2), c1)
  {
    forall i | 0 <= i < |rows| ensures Keep(rows[i], Combine(c1, c2)) <==> Keep(rows[i], c1) && Keep(rows[i], c2) {
      KeepCombined(rows[i], c1, c2);
    }
    SelectConjunction(rows, KeepTest(c1), KeepTest(c2), KeepTest(Combine(c1, c2)));
    SelectConjunction(rows, KeepTest(c2), KeepTest(c1), KeepTest(Combine(c1, c2)));
  }
}
