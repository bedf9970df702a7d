/**
 * app.js, `renderAll`: the KPI counts over the filtered rows and the bars
 * of rows per implantador.
 */
module Aggregates {
  import opened JsValues
  import opened Calendar
  import opened Records
  import opened Seqs
  import opened StableSort

  // ---------------------------------------------------------------------------
  // KPIs

  /** `isConcluidoSim(r.concluido)`. */
  function IsDone(): Row -> bool {
    (r: Row) => IsSim(Str(r.concluido))
  }

  function IsOpen(): Row -> bool {
    (r: Row) => !IsSim(Str(r.concluido))
  }

  /** `isSim(r.passado_suporte)`. */
  function IsSupport(): Row -> bool {
    (r: Row) => IsSim(Str(r.passadoSuporte))
  }

  /**
   * The callback counting late rows, `today` being the day number of
   * today's local midnight: not concluded, with a start-real date whose
   * time is before that midnight.
   */
  function IsLate(today: int): Row -> bool {
    (r: Row) => !IsSim(Str(r.concluido)) && r.dStartReal.Some? && TimeOf(r.dStartReal.value) < TimeOf(today)
  }

  datatype Kpis = Kpis(total: nat, done: nat, open: nat, support: nat, late: nat)

  /** The five KPI values; `open` is computed as `total - done`. */
  function KpisOf(rows: seq<Row>, today: int): (k: Kpis)
    ensures k.total == |rows|
    ensures k.done + k.open == k.total
    ensures k.open == |Select(rows, IsOpen())|
    ensures k.done == |Select(rows, IsDone())|
    ensures k.support == |Select(rows, IsSupport())| <= k.total
    ensures k.late == |Select(rows, IsLate(today))| <= k.open
  {
    SelectSplitsCount(rows, IsDone(), IsOpen());
    SelectStronger(rows, IsLate(today), IsOpen());
    var total := |rows|;
    var done := |Select(rows, IsDone())|;
    Kpis(total, done, total - done, |Select(rows, IsSupport())|, |Select(rows, IsLate(today))|)
  }

  /** A row is late exactly when it is not concluded and its start-real day is before today. */
  lemma LateByDay(r: Row, today: int)
    ensures IsLate(today)(r) <==>
      !IsSim(Str(r.concluido)) && r.dStartReal.Some? && r.dStartReal.value < today
  {
    if r.dStartReal.Some? {
      TimeOrder(r.dStartReal.value, today);
    }
  }

  /** A row counted late stays late on every later day. */
  lemma LateGrowsWithToday(rows: seq<Row>, today: int, later: int)
    requires today <= later
    ensures KpisOf(rows, today).late <= KpisOf(rows, later).late
  {
    forall i | 0 <= i < |rows| && IsLate(today)(rows[i]) ensures IsLate(later)(rows[i]) {
      LateByDay(rows[i], today);
      LateByDay(rows[i], later);
    }
    SelectStronger(rows, IsLate(today), IsLate(later));
  }

  // ---------------------------------------------------------------------------
  // Rows per implantador

  /** The bar a row is counted in when its implantador is empty. */
  const NoImplantador: string := "(Sem implantador)"

  /** `r.implantador || "(Sem implantador)"`. */
  function GroupKey(r: Row): (k: string)
    ensures k != ""
    ensures r.implantador != "" ==> k == r.implantador
    ensures r.implantador == "" ==> k == NoImplantador
  {
    if r.implantador != "" then r.implantador else NoImplantador
  }

  function GroupKeys(rows: seq<Row>): (keys: seq<string>)
    ensures |keys| == |rows|
    ensures forall i :: 0 <= i < |rows| ==> keys[i] == GroupKey(rows[i])
  {
    seq(|rows|, i requires 0 <= i < |rows| => GroupKey(rows[i]))
  }

  /** How many times `k` occurs in `s`. */
  function Count(s: seq<string>, k: string): nat {
    if s == [] then 0
    else Count(s[..|s| - 1], k) + (if s[|s| - 1] == k then 1 else 0)
  }

  predicate Distinct(ks: seq<string>) {
    forall i, j :: 0 <= i < j < |ks| ==> ks[i] != ks[j]
  }

  /** The texts of `s` without repetition, in the order of their first occurrence. */
  function FirstSeen(s: seq<string>): (ks: seq<string>)
    ensures Distinct(ks)
    ensures forall k :: k in ks <==> k in s
  {
    if s == [] then []
    else
      var p := FirstSeen(s[..|s| - 1]);
      assert s == s[..|s| - 1] + [s[|s| - 1]];
      if s[|s| - 1] in p then p else p + [s[|s| - 1]]
  }

  /** A bar before sorting: a name and its row count, one `Map` entry. */
  type Entry = (string, nat)

  /** The entries for the names `ks`, each with its count in `s`. */
  function Pairs(ks: seq<string>, s: seq<string>): (es: seq<Entry>)
    ensures |es| == |ks|
    ensures forall j :: 0 <= j < |ks| ==> es[j] == (ks[j], Count(s, ks[j]))
  {
    if ks == [] then []
    else Pairs(ks[..|ks| - 1], s) + [(ks[|ks| - 1], Count(s, ks[|ks| - 1]))]
  }

  /** `[...map.entries()]` after the counting loop: the names in insertion order with their counts. */
  function TallyOf(rows: seq<Row>): (t: seq<Entry>)
    ensures forall i :: 0 <= i < |t| ==> t[i].0 in GroupKeys(rows) && t[i].1 == Count(GroupKeys(rows), t[i].0)
  {
    Pairs(FirstSeen(GroupKeys(rows)), GroupKeys(rows))
  }

  /** The index of the first occurrence of `k` in `s`. */
  function FirstIndex(s: seq<string>, k: string): (i: nat)
    requires k in s
    ensures i < |s| && s[i] == k && k !in s[..i]
  {
    if s[0] == k then 0 else 1 + FirstIndex(s[1..], k)
  }

  /** Only the first occurrence has no earlier occurrence. */
  lemma FirstIndexUnique(s: seq<string>, k: string, i: nat)
    requires i < |s| && s[i] == k && k !in s[..i]
    ensures FirstIndex(s, k) == i
  {
    var f := FirstIndex(s, k);
    forall t | 0 <= t < i ensures s[t] != k {
      assert s[..i][t] == s[t];
    }
    forall t | 0 <= t < f ensures s[t] != k {
      assert s[..f][t] == s[t];
    }
  }

  /** Appending a key does not move the first occurrence of an earlier key. */
  lemma FirstIndexSnoc(s: seq<string>, x: string, k: string)
    requires k in s
    ensures FirstIndex(s + [x], k) == FirstIndex(s, k)
  {
    var f := FirstIndex(s, k);
    assert (s + [x])[..f] == s[..f];
    FirstIndexUnique(s + [x], k, f);
  }

  /** The names appear in `s` in the same order, each first seen before the next. */
  predicate NamesInFirstOrder(ks: seq<string>, s: seq<string>) {
    forall i, j :: 0 <= i < j < |ks| ==>
      && ks[i] in s && ks[j] in s
      && FirstIndex(s, ks[i]) < FirstIndex(s, ks[j])
  }

  /** The first-seen names are listed in the order of their first occurrences. */
  lemma {:induction false} FirstSeenOrder(s: seq<string>)
    ensures NamesInFirstOrder(FirstSeen(s), s)
  {
    if s != [] {
      var p, x := s[..|s| - 1], s[|s| - 1];
      assert s == p + [x];
      FirstSeenSnoc(p, x);
      FirstSeenOrder(p);
      var f, fp := FirstSeen(s), FirstSeen(p);
      forall i, j | 0 <= i < j < |f|
        ensures f[i] in s && f[j] in s && FirstIndex(s, f[i]) < FirstIndex(s, f[j])
      {
        assert f[i] == fp[i] && f[i] in p;
        FirstIndexSnoc(p, x, f[i]);
        if j < |fp| {
          assert f[j] == fp[j];
          FirstIndexSnoc(p, x, f[j]);
        } else {
          assert f[j] == x && x !in p;
          assert s[..|p|] == p;
          FirstIndexUnique(s, x, |p|);
        }
      }
    }
  }

  lemma CountSnoc(s: seq<string>, x: string, k: string)
    ensures Count(s + [x], k) == Count(s, k) + (if x == k then 1 else 0)
  {
    assert (s + [x])[..|s|] == s;
  }

  lemma {:induction false} CountAbsent(s: seq<string>, k: string)
    requires k !in s
    ensures Count(s, k) == 0
  {
    if s != [] {
      assert k !in s[..|s| - 1];
      CountAbsent(s[..|s| - 1], k);
    }
  }

  lemma {:induction false} CountPresent(s: seq<string>, k: string)
    requires k in s
    ensures Count(s, k) >= 1
  {
    if s[|s| - 1] != k {
      assert s == s[..|s| - 1] + [s[|s| - 1]];
      assert k in s[..|s| - 1];
      CountPresent(s[..|s| - 1], k);
    }
  }

  lemma {:induction false} CountDistinct(ks: seq<string>, k: string)
    requires Distinct(ks) && k in ks
    ensures Count(ks, k) == 1
  {
    var p := ks[..|ks| - 1];
    assert ks == p + [ks[|ks| - 1]];
    if ks[|ks| - 1] == k {
      assert k !in p;
      CountAbsent(p, k);
    } else {
      assert k in p;
      CountDistinct(p, k);
    }
  }

  /** The sum of the counts in `s` of the names `ks`. */
  function SumOf(ks: seq<string>, s: seq<string>): nat {
    if ks == [] then 0
    else SumOf(ks[..|ks| - 1], s) + Count(s, ks[|ks| - 1])
  }

  lemma {:induction false} SumOfSnoc(ks: seq<string>, s: seq<string>, x: string)
    ensures SumOf(ks, s + [x]) == SumOf(ks, s) + Count(ks, x)
  {
    if ks != [] {
      SumOfSnoc(ks[..|ks| - 1], s, x);
      CountSnoc(s, x, ks[|ks| - 1]);
    }
  }

  /** Counting every name once counts every element once. */
  lemma {:induction false} FirstSeenSum(s: seq<string>)
    ensures SumOf(FirstSeen(s), s) == |s|
  {
    if s != [] {
      var p, x := s[..|s| - 1], s[|s| - 1];
      assert s == p + [x];
      var f := FirstSeen(p);
      FirstSeenSnoc(p, x);
      FirstSeenSum(p);
      SumOfSnoc(f, p, x);
      if x in f {
        CountDistinct(f, x);
      } else {
        CountAbsent(f, x);
        CountAbsent(p, x);
        CountSnoc(p, x, x);
        assert (f + [x])[..|f|] == f;
      }
    }
  }

  /** The sum of the counts of some entries. */
  function SumCounts(es: seq<Entry>): nat {
    if es == [] then 0 else es[0].1 + SumCounts(es[1..])
  }

  lemma {:induction false} SumCountsSnoc(es: seq<Entry>, e: Entry)
    ensures SumCounts(es + [e]) == SumCounts(es) + e.1
  {
    if es != [] {
      assert (es + [e])[1..] == es[1..] + [e];
      SumCountsSnoc(es[1..], e);
    }
  }

  lemma {:induction false} SumCountsPairs(ks: seq<string>, s: seq<string>)
    ensures SumCounts(Pairs(ks, s)) == SumOf(ks, s)
  {
    if ks != [] {
      SumCountsPairs(ks[..|ks| - 1], s);
      SumCountsSnoc(Pairs(ks[..|ks| - 1], s), (ks[|ks| - 1], Count(s, ks[|ks| - 1])));
    }
  }

  /**
   * The tally has one entry per bar name, each name once, in order of
   * first appearance; each count is the number of rows of that name, at
   * least 1, and the counts add up to the number of rows.
   */
  lemma TallyCorrect(rows: seq<Row>)
    ensures var t := TallyOf(rows);
      && (forall i, j :: 0 <= i < j < |t| ==> t[i].0 != t[j].0)
      && (forall k :: (exists i :: 0 <= i < |t| && t[i].0 == k) <==> k in GroupKeys(rows))
      && (forall i :: 0 <= i < |t| ==> t[i].1 == Count(GroupKeys(rows), t[i].0) >= 1)
      && SumCounts(t) == |rows|
  {
    var keys := GroupKeys(rows);
    var f := FirstSeen(keys);
    var t := TallyOf(rows);
    forall k ensures (exists i :: 0 <= i < |t| && t[i].0 == k) <==> k in keys {
      if k in keys {
        var i :| 0 <= i < |f| && f[i] == k;
        assert t[i].0 == k;
      }
    }
    forall i | 0 <= i < |t| ensures t[i].1 >= 1 {
      CountPresent(keys, f[i]);
    }
    SumCountsPairs(f, keys);
    FirstSeenSum(keys);
  }

  /** The entries' names appear in `s` in the same order, each first seen before the next. */
  predicate InFirstSeenOrder(t: seq<Entry>, s: seq<string>) {
    forall i, j :: 0 <= i < j < |t| ==>
      && t[i].0 in s && t[j].0 in s
      && FirstIndex(s, t[i].0) < FirstIndex(s, t[j].0)
  }

  /**
   * The tally lists the names in the order in which the rows first show
   * them, which is the insertion order of the `Map`.
   */
  lemma TallyInFirstSeenOrder(rows: seq<Row>)
    ensures InFirstSeenOrder(TallyOf(rows), GroupKeys(rows))
  {
    var keys := GroupKeys(rows);
    FirstSeenOrder(keys);
    PairsKeepOrder(FirstSeen(keys), keys);
  }

  /** The entries follow the order of their names. */
  lemma PairsKeepOrder(ks: seq<string>, s: seq<string>)
    requires NamesInFirstOrder(ks, s)
    ensures InFirstSeenOrder(Pairs(ks, s), s)
  {
    var t := Pairs(ks, s);
    forall i, j | 0 <= i < j < |t|
      ensures t[i].0 in s && t[j].0 in s && FirstIndex(s, t[i].0) < FirstIndex(s, t[j].0)
    {
      assert t[i].0 == ks[i] && t[j].0 == ks[j];
    }
  }

  /** One more key leaves the first-seen names alone or appends the key. */
  lemma FirstSeenSnoc(p: seq<string>, x: string)
    ensures FirstSeen(p + [x]) == if x in FirstSeen(p) then FirstSeen(p) else FirstSeen(p) + [x]
  {
    assert (p + [x])[..|p|] == p;
  }

  /** After one more key, every count is exact. */
  lemma CountsStep(p: seq<string>, x: string, counts: map<string, nat>)
    requires forall k :: k in counts ==> counts[k] == Count(p, k)
    requires x !in counts ==> x !in p
    ensures var counts' := counts[x := (if x in counts then counts[x] else 0) + 1];
      forall k :: k in counts' ==> counts'[k] == Count(p + [x], k)
  {
    forall k ensures Count(p + [x], k) == Count(p, k) + (if x == k then 1 else 0) {
      CountSnoc(p, x, k);
    }
    if x !in counts {
      CountAbsent(p, x);
    }
  }

  /**
   * The state of the counting loop after the keys `seen`: the map's keys,
   * in insertion order, are the names of `seen` in order of first
   * appearance, and each maps to its number of occurrences.
   */
  ghost predicate Counted(names: seq<string>, counts: map<string, nat>, seen: seq<string>) {
    && names == FirstSeen(seen)
    && (forall k :: k in counts <==> k in names)
    && (forall k :: k in counts ==> counts[k] == Count(seen, k))
  }

  /** `map.set(key, (map.get(key) || 0) + 1)` keeps the loop state exact. */
  lemma CountedStep(names: seq<string>, counts: map<string, nat>, seen: seq<string>, key: string)
    requires Counted(names, counts, seen)
    ensures Counted(if key in counts then names else names + [key],
                    counts[key := (if key in counts then counts[key] else 0) + 1],
                    seen + [key])
  {
    FirstSeenSnoc(seen, key);
    CountsStep(seen, key, counts);
  }

  /** Listing the counted names with their counts gives the tally. */
  lemma EntriesOfCounts(names: seq<string>, counts: map<string, nat>, keys: seq<string>)
    requires Counted(names, counts, keys)
    ensures forall j :: 0 <= j < |names| ==> names[j] in counts
    ensures seq(|names|, j requires 0 <= j < |names| && names[j] in counts => (names[j], counts[names[j]]))
         == Pairs(names, keys)
  {
  }

  /** The bar names of the first `i` rows. */
  function KeysUpTo(rows: seq<Row>, i: nat): (keys: seq<string>)
    requires i <= |rows|
    ensures |keys| == i
  {
    seq(i, j requires 0 <= j < i => GroupKey(rows[j]))
  }

  /** One more row adds its bar name at the end. */
  lemma KeysUpToSnoc(rows: seq<Row>, i: nat)
    requires i < |rows|
    ensures KeysUpTo(rows, i + 1) == KeysUpTo(rows, i) + [GroupKey(rows[i])]
  {
  }

  /** Counting row `i` turns the state after `i` rows into the state after `i + 1`. */
  lemma CountedNext(rows: seq<Row>, i: nat, names: seq<string>, counts: map<string, nat>)
    requires i < |rows| && Counted(names, counts, KeysUpTo(rows, i))
    ensures var key := GroupKey(rows[i]);
      Counted(if key in counts then names else names + [key],
              counts[key := (if key in counts then counts[key] else 0) + 1],
              KeysUpTo(rows, i + 1))
  {
    KeysUpToSnoc(rows, i);
    CountedStep(names, counts, KeysUpTo(rows, i), GroupKey(rows[i]));
  }

  /** Once every row is counted, the map's entries in insertion order are the tally. */
  lemma CountedAll(rows: seq<Row>, names: seq<string>, counts: map<string, nat>)
    requires Counted(names, counts, KeysUpTo(rows, |rows|))
    ensures forall j :: 0 <= j < |names| ==> names[j] in counts
    ensures seq(|names|, j requires 0 <= j < |names| && names[j] in counts => (names[j], counts[names[j]]))
         == TallyOf(rows)
  {
    assert KeysUpTo(rows, |rows|) == GroupKeys(rows);
    EntriesOfCounts(names, counts, GroupKeys(rows));
  }

  /**
   * The counting loop of `renderAll`: `map.set(key, (map.get(key) || 0) + 1)`
   * for each row, then the map's entries in insertion order.
   */
  method Tally(rows: seq<Row>) returns (entries: seq<Entry>)
    ensures entries == TallyOf(rows)
  {
    var names: seq<string> := [];
    var counts: map<string, nat> := map[];
    for i := 0 to |rows|
      invariant Counted(names, counts, KeysUpTo(rows, i))
    {
      var key := GroupKey(rows[i]);
      var previous := if key in counts then counts[key] else 0;
      CountedNext(rows, i, names, counts);
      names := if key in counts then names else names + [key];
      counts := counts[key := previous + 1];
    }
    CountedAll(rows, names, counts);
    entries := seq(|names|, j requires 0 <= j < |names| => (names[j], counts[names[j]]));
  }

  // ---------------------------------------------------------------------------
  // Bars

  /** The comparator `(a, b) => b[1] - a[1]`: larger counts first. */
  function ByCountDesc(): (Entry, Entry) -> int {
    (a: Entry, b: Entry) => b.1 - a.1
  }

  lemma ByCountDescConsistent()
    ensures Consistent(ByCountDesc())
  {
  }

  /** The quotient of a division lies between its two neighbouring multiples. */
  lemma DivBetween(x: nat, m: nat)
    requires m >= 1
    ensures m * (x / m) <= x < m * (x / m) + m
  {
  }

  lemma MulBelow(m: nat, p: nat, q: nat)
    requires m >= 1 && m * p < m * q
    ensures p < q
  {
  }

  /** `Math.round((n / max) * 100)` in exact arithmetic: the percentage rounded half up. */
  function Percent(n: nat, max: nat): (p: nat)
    requires max >= 1
    ensures 2 * max * p <= 200 * n + max < 2 * max * p + 2 * max
    ensures n <= max ==> p <= 100
    ensures n == max ==> p == 100
  {
    var m := 2 * max;
    var p := (200 * n + max) / m;
    DivBetween(200 * n + max, m);
    assert n <= max ==> p <= 100 by {
      if n <= max {
        assert m * p < m * 101;
        MulBelow(m, p, 101);
      }
    }
    assert n == max ==> p >= 100 by {
      if n == max {
        assert m * 100 < m * p + m;
        assert m * 99 < m * p;
        MulBelow(m, 99, p);
      }
    }
    p
  }

  datatype Bar = Bar(name: string, count: nat, percent: nat)

  /** Sorting by `ByCountDesc` puts larger counts first and keeps every count. */
  lemma SortedByCount(entries: seq<Entry>)
    requires forall i :: 0 <= i < |entries| ==> entries[i].1 >= 1
    ensures forall i :: 0 <= i < |entries| ==> SortBy(entries, ByCountDesc())[i].1 >= 1
    ensures forall i, j :: 0 <= i < j < |entries| ==>
      SortBy(entries, ByCountDesc())[i].1 >= SortBy(entries, ByCountDesc())[j].1
  {
    var sorted := SortBy(entries, ByCountDesc());
    ByCountDescConsistent();
    SortBySorted(entries, ByCountDesc());
    forall i | 0 <= i < |sorted| ensures sorted[i].1 >= 1 {
      assert sorted[i] in multiset(entries);
    }
    forall i, j | 0 <= i < j < |sorted| ensures sorted[i].1 >= sorted[j].1 {
      assert ByCountDesc()(sorted[i], sorted[j]) <= 0;
    }
  }

  /**
   * The bars of entries already sorted by count, larger first: each
   * count as a percentage of the first, which is 100%.
   */
  function Scale(sorted: seq<Entry>): (bars: seq<Bar>)
    requires forall i :: 0 <= i < |sorted| ==> sorted[i].1 >= 1
    requires forall i, j :: 0 <= i < j < |sorted| ==> sorted[i].1 >= sorted[j].1
    ensures |bars| == |sorted|
    ensures forall i :: 0 <= i < |bars| ==> (bars[i].name, bars[i].count) == sorted[i]
    ensures forall i :: 0 <= i < |bars| ==> bars[i].percent == Percent(sorted[i].1, sorted[0].1)
    ensures |bars| > 0 ==> bars[0].percent == 100
    ensures forall i :: 0 <= i < |bars| ==> bars[i].percent <= 100
  {
    var max := if |sorted| > 0 then sorted[0].1 else 1;
    seq(|sorted|, i requires 0 <= i < |sorted| => Bar(sorted[i].0, sorted[i].1, Percent(sorted[i].1, max)))
  }

  /**
   * The bars: the entries sorted by count, larger first, each with its
   * count as a percentage of the first (largest) count.
   */
  function BarsOf(entries: seq<Entry>): (bars: seq<Bar>)
    requires forall i :: 0 <= i < |entries| ==> entries[i].1 >= 1
    ensures |bars| == |entries|
    ensures forall i :: 0 <= i < |bars| ==>
      (bars[i].name, bars[i].count) == SortBy(entries, ByCountDesc())[i]
    ensures forall i, j :: 0 <= i < j < |bars| ==> bars[i].count >= bars[j].count
    ensures forall i :: 0 <= i < |bars| ==> bars[i].count >= 1
    ensures forall i :: 0 <= i < |bars| ==> bars[i].percent == Percent(bars[i].count, bars[0].count)
    ensures |bars| > 0 ==> bars[0].percent == 100
    ensures forall i :: 0 <= i < |bars| ==> bars[i].percent <= 100
  {
    var sorted := SortBy(entries, ByCountDesc());
    SortedByCount(entries);
    Scale(sorted)
  }

  lemma {:induction false} SumCountsInsert(x: Entry, s: seq<Entry>)
    ensures SumCounts(InsertBy(x, s, ByCountDesc())) == x.1 + SumCounts(s)
  {
    if s != [] && ByCountDesc()(s[0], x) <= 0 {
      SumCountsInsert(x, s[1..]);
    }
  }

  lemma {:induction false} SumCountsSorted(s: seq<Entry>)
    ensures SumCounts(SortBy(s, ByCountDesc())) == SumCounts(s)
  {
    if s != [] {
      var p, x := s[..|s| - 1], s[|s| - 1];
      assert s == p + [x];
      SumCountsSorted(p);
      SumCountsInsert(x, SortBy(p, ByCountDesc()));
      SumCountsSnoc(p, x);
    }
  }

  /** Every count of the tally is at least 1, as the bars need. */
  lemma TallyPositive(rows: seq<Row>)
    ensures forall i :: 0 <= i < |TallyOf(rows)| ==> TallyOf(rows)[i].1 >= 1
  {
    TallyCorrect(rows);
  }

  /** The bars `renderAll` draws for the rows: the tally of the rows, sorted and scaled. */
  function RowBars(rows: seq<Row>): (bars: seq<Bar>)
    ensures |bars| == |TallyOf(rows)|
    ensures forall i :: 0 <= i < |bars| ==>
      (bars[i].name, bars[i].count) == SortBy(TallyOf(rows), ByCountDesc())[i]
    ensures forall i, j :: 0 <= i < j < |bars| ==> bars[i].count >= bars[j].count
    ensures forall i :: 0 <= i < |bars| ==> bars[i].count >= 1
    ensures forall i :: 0 <= i < |bars| ==> bars[i].percent == Percent(bars[i].count, bars[0].count)
    ensures |bars| > 0 ==> bars[0].percent == 100
    ensures forall i :: 0 <= i < |bars| ==> bars[i].percent <= 100
  {
    TallyPositive(rows);
    BarsOf(TallyOf(rows))
  }

  /**
   * The bars of the filtered rows are the tally's entries, larger counts
   * first, equal counts kept in the tally's order of first appearance,
   * and their counts add up to the number of rows.
   */
  lemma BarsCorrect(rows: seq<Row>)
    ensures var t := TallyOf(rows);
      var sorted := SortBy(t, ByCountDesc());
      && multiset(sorted) == multiset(t)
      && (forall z :: Select(sorted, TiedWith(ByCountDesc(), z)) == Select(t, TiedWith(ByCountDesc(), z)))
      && SumCounts(sorted) == |rows|
  {
    TallyCorrect(rows);
    var t := TallyOf(rows);
    var sorted := SortBy(t, ByCountDesc());
    ByCountDescConsistent();
    forall z ensures Select(sorted, TiedWith(ByCountDesc(), z)) == Select(t, TiedWith(ByCountDesc(), z)) {
      SortByStable(t, ByCountDesc(), z);
    }
    SumCountsSorted(t);
  }
}
