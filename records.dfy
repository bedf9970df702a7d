/**
 * app.js, helpers and payload normalisation: the Brazilian date parser,
 * text normalisation, the yes-token and "not started" tests, the
 * three-way status label and the mapping of an API payload to rows.
 */
module Records {
  import opened Wrappers
  import opened Text
  import opened JsValues
  import opened Calendar
  import opened Seqs

  /** `strNorm(v)`: `(v ?? "").toString().trim()`. */
  function StrNorm(v: JsValue): (s: string)
    ensures IsTrimmed(s)
    ensures IsNullish(v) ==> s == ""
    ensures !IsNullish(v) ==>
      exists i, j :: 0 <= i <= j <= |ToStr(v)| && s == ToStr(v)[i..j]
        && AllSpace(ToStr(v)[..i]) && AllSpace(ToStr(v)[j..])
  {
    if IsNullish(v) then "" else Trim(ToStr(v))
  }

  /** A text normalises to its core: the blanks around it are cut, nothing else. */
  lemma StrNormStripsBlanks(a: string, m: string, b: string)
    requires AllSpace(a) && AllSpace(b) && IsTrimmed(m)
    ensures StrNorm(Str(a + m + b)) == m
  {
    TrimCore(a, m, b);
  }

  /** A text that is already trimmed comes back from `strNorm` unchanged. */
  lemma StrNormOfTrimmed(s: string)
    requires IsTrimmed(s)
    ensures StrNorm(Str(s)) == s
  {
    TrimOfTrimmed(s);
  }

  // ---------------------------------------------------------------------------
  // parseBrDate

  /** The regular expression `^\d{2}\/\d{2}\/\d{4}$`. */
  predicate MatchesBrPattern(s: string) {
    && |s| == 10
    && IsDigit(s[0]) && IsDigit(s[1]) && s[2] == '/'
    && IsDigit(s[3]) && IsDigit(s[4]) && s[5] == '/'
    && AllDigits(s[6..])
  }

  /** A text of the pattern splits at its two slashes into day, month and year. */
  lemma BrSplit(s: string)
    requires MatchesBrPattern(s)
    ensures Split(s, '/') == [s[..2], s[3..5], s[6..]]
    ensures AllDigits(s[..2]) && AllDigits(s[3..5]) && AllDigits(s[6..])
  {
    assert '/' !in s[6..] by {
      forall i | 0 <= i < |s[6..]| ensures s[6..][i] != '/' {
        assert IsDigit(s[6..][i]);
      }
    }
    SplitWhole(s[6..], '/');
    assert s[3..] == s[3..5] + ['/'] + s[6..];
    SplitFirst(s[3..5], '/', s[6..]);
    assert s == s[..2] + ['/'] + s[3..];
    SplitFirst(s[..2], '/', s[3..]);
  }

  /**
   * `parseBrDate(str)`: null unless `str` is a non-empty string whose trimmed
   * text has the pattern; otherwise the day of `new Date(yyyy, mm - 1, dd)`,
   * which rolls an impossible day or month over instead of failing.
   */
  function ParseBrDate(v: JsValue): (d: Option<int>)
    ensures d.Some? <==> v.Str? && MatchesBrPattern(Trim(v.s))
  {
    if !Truthy(v) || !v.Str? then
      if v.Str? then
        TrimOfTrimmed(v.s);
        None
      else None
    else
      var s := Trim(v.s);
      if !MatchesBrPattern(s) then None
      else
        // the three fields `split("/")` yields (see BrSplit)
        assert AllDigits(s[..2]) && AllDigits(s[3..5]) by {
          assert s[..2][0] == s[0] && s[..2][1] == s[1] && s[3..5][0] == s[3] && s[3..5][1] == s[4];
        }
        Some(MakeDay(DigitsValue(s[6..]), DigitsValue(s[3..5]) - 1, DigitsValue(s[..2])))
  }

  /** A day, a month and a year field joined by slashes read as `new Date(yyyy, mm - 1, dd)`. */
  lemma ParseBrDateOfParts(dd: string, mm: string, yyyy: string)
    requires |dd| == 2 && |mm| == 2 && |yyyy| == 4
    requires AllDigits(dd) && AllDigits(mm) && AllDigits(yyyy)
    ensures MatchesBrPattern(dd + "/" + mm + "/" + yyyy)
    ensures ParseBrDate(Str(dd + "/" + mm + "/" + yyyy))
      == Some(MakeDay(DigitsValue(yyyy), DigitsValue(mm) - 1, DigitsValue(dd)))
  {
    var s := dd + "/" + mm + "/" + yyyy;
    PartsMatchPattern(dd, mm, yyyy);
    PatternIsTrimmed(s);
  }

  lemma PartsMatchPattern(dd: string, mm: string, yyyy: string)
    requires |dd| == 2 && |mm| == 2 && |yyyy| == 4
    requires AllDigits(dd) && AllDigits(mm) && AllDigits(yyyy)
    ensures var s := dd + "/" + mm + "/" + yyyy;
      MatchesBrPattern(s) && s[..2] == dd && s[3..5] == mm && s[6..] == yyyy
  {
    var s := dd + "/" + mm + "/" + yyyy;
    assert s[..2] == dd && s[3..5] == mm && s[6..] == yyyy;
  }

  lemma PatternIsTrimmed(s: string)
    requires MatchesBrPattern(s)
    ensures Trim(s) == s
  {
    TrimCore([], s, []);
    assert [] + s + [] == s;
  }

  /** The two decimal digits of `n`, with a leading zero. */
  function Pad2(n: nat): (s: string)
    requires n < 100
    ensures |s| == 2 && AllDigits(s) && DigitsValue(s) == n
  {
    DigitsValueSnoc([], DigitChar(n / 10));
    assert [] + [DigitChar(n / 10)] == [DigitChar(n / 10)];
    DigitsValueSnoc([DigitChar(n / 10)], DigitChar(n % 10));
    [DigitChar(n / 10)] + [DigitChar(n % 10)]
  }

  /** The four decimal digits of `n`, with leading zeros. */
  function Pad4(n: nat): (s: string)
    requires n < 10000
    ensures |s| == 4 && AllDigits(s) && DigitsValue(s) == n
  {
    var hi, lo := Pad2(n / 100), Pad2(n % 100);
    DigitsValueSnoc(hi, lo[0]);
    DigitsValueSnoc(hi + [lo[0]], lo[1]);
    DigitsValueSnoc([], lo[0]);
    assert [] + [lo[0]] == [lo[0]];
    DigitsValueSnoc([lo[0]], lo[1]);
    assert lo == [lo[0]] + [lo[1]];
    assert hi + lo == hi + [lo[0]] + [lo[1]];
    hi + lo
  }

  /** `dd/mm/yyyy` for a date of years 0000 to 9999. */
  function BrText(y: nat, m: nat, d: nat): string
    requires y < 10000 && m < 100 && d < 100
  {
    Pad2(d) + "/" + Pad2(m) + "/" + Pad4(y)
  }

  /** Every real date written as `dd/mm/yyyy` is read back as that date. */
  lemma ParseBrDateRoundTrip(y: nat, m: nat, d: nat)
    requires y < 10000 && ValidDate(y, m, d)
    ensures MatchesBrPattern(BrText(y, m, d))
    ensures ParseBrDate(Str(BrText(y, m, d))) == Some(DayOf(y, m, d))
  {
    ParseBrDateOfParts(Pad2(d), Pad2(m), Pad4(y));
  }

  /** `31/02/2024` is accepted and read as 2 March 2024. */
  lemma ParseBrDateRollsOver()
    ensures ParseBrDate(Str("31/02/2024")) == Some(DayOf(2024, 3, 2))
  {
    var dd, mm, yyyy := Pad2(31), Pad2(2), Pad4(2024);
    assert dd + "/" + mm + "/" + yyyy == "31/02/2024";
    ParseBrDateOfParts(dd, mm, yyyy);
    RolloverExample();
  }

  // ---------------------------------------------------------------------------
  // isSim / isConcluidoSim / isNoStartRealText

  /** `isSim(v)` (and its alias `isConcluidoSim`): the normalised, lower-cased text is a yes-token. */
  predicate IsSim(v: JsValue)
    ensures IsSim(v) ==> !IsNullish(v)
  {
    var x := Lower(StrNorm(v));
    x == "sim" || x == "true" || x == "1"
  }

  /** A value whose text is already trimmed normalises to that text. */
  lemma StrNormOfText(v: JsValue, s: string)
    requires !IsNullish(v) && ToStr(v) == s && IsTrimmed(s)
    ensures StrNorm(v) == s
  {
    TrimOfTrimmed(s);
  }

  lemma TrueIsSim()
    ensures IsSim(Bool(true))
  {
    StrNormOfText(Bool(true), "true");
  }

  lemma FalseIsNotSim()
    ensures !IsSim(Bool(false))
  {
    StrNormOfText(Bool(false), "false");
  }

  /** A spreadsheet boolean counts as yes exactly when it is `true`. */
  lemma IsSimOfBoolean(b: bool)
    ensures IsSim(Bool(b)) <==> b
  {
    if b {
      TrueIsSim();
    } else {
      FalseIsNotSim();
    }
  }

  lemma OneIsSim()
    ensures IsSim(Num(1))
  {
    StrNormOfText(Num(1), "1");
  }

  lemma ZeroIsNotSim()
    ensures !IsSim(Num(0))
  {
    StrNormOfText(Num(0), "0");
  }

  /** Of the numbers 0 and 1, a spreadsheet number counts as yes exactly when it is 1. */
  lemma IsSimOfBit(n: int)
    requires n == 0 || n == 1
    ensures IsSim(Num(n)) <==> n == 1
  {
    if n == 1 {
      OneIsSim();
    } else {
      ZeroIsNotSim();
    }
  }

  /** White space around a text does not change whether it is a yes-token. */
  lemma IsSimIgnoresSpace(a: string, m: string, b: string)
    requires AllSpace(a) && AllSpace(b) && IsTrimmed(m)
    ensures IsSim(Str(a + m + b)) <==> IsSim(Str(m))
  {
    assert StrNorm(Str(a + m + b)) == m by {
      TrimCore(a, m, b);
    }
    assert StrNorm(Str(m)) == m by {
      TrimOfTrimmed(m);
    }
  }

  /** Case does not matter: `SIM` is a yes-token. */
  lemma IsSimIgnoresCase()
    ensures IsSim(Str("SIM"))
  {
    StrNormOfText(Str("SIM"), "SIM");
    LowerOfSim();
  }

  lemma LowerOfSim()
    ensures Lower("SIM") == "sim"
  {
    var low := Lower("SIM");
    assert |low| == 3 && low[0] == 's' && low[1] == 'i' && low[2] == 'm';
  }

  const PhraseNoStartReal: string := "sem start real"
  const PhraseNoForecast: string := "sem previs"
  const PhraseNoForecastAccented: string := "sem previs\U{00E3}o"
  const PhraseNoForecastPlain: string := "sem previsao"

  /** `isNoStartRealText(v)`: a "not started" phrase, an empty text or a lone dash. */
  predicate IsNoStartRealText(v: JsValue)
    ensures IsNullish(v) ==> IsNoStartRealText(v)
    ensures IsSim(v) ==> !IsNoStartRealText(v)
  {
    var x := Lower(StrNorm(v));
    || Contains(x, PhraseNoStartReal)
    || Contains(x, PhraseNoForecast)
    || Contains(x, PhraseNoForecastAccented)
    || Contains(x, PhraseNoForecastPlain)
    || x == ""
    || x == "-"
  }

  /** The two longer "sem previsão" phrases start with "sem previs". */
  lemma NoForecastPrefixes()
    ensures PhraseNoForecastAccented[..10] == PhraseNoForecast
    ensures PhraseNoForecastPlain[..10] == PhraseNoForecast
  {
  }

  /** The two longer "sem previsão" phrases add nothing: "sem previs" already covers them. */
  lemma NoForecastPhrasesSubsumed(v: JsValue)
    ensures var x := Lower(StrNorm(v));
      IsNoStartRealText(v) <==>
        Contains(x, PhraseNoStartReal) || Contains(x, PhraseNoForecast) || x == "" || x == "-"
  {
    var x := Lower(StrNorm(v));
    NoForecastPrefixes();
    if Contains(x, PhraseNoForecastAccented) {
      ContainsPrefix(x, PhraseNoForecastAccented, 10);
    }
    if Contains(x, PhraseNoForecastPlain) {
      ContainsPrefix(x, PhraseNoForecastPlain, 10);
    }
  }

  predicate IsDateChar(c: char) {
    IsDigit(c) || c == '/'
  }

  /** Lower-casing leaves a date text alone. */
  lemma LowerOfPattern(t: string)
    requires MatchesBrPattern(t)
    ensures Lower(t) == t
    ensures forall i :: 0 <= i < |t| ==> IsDateChar(t[i])
  {
    forall i | 0 <= i < |t| ensures IsDateChar(t[i]) {
      if i >= 6 {
        assert t[i] == t[6..][i - 6];
      }
    }
  }

  /** Every "not started" phrase opens with an `s`, which no date text holds. */
  lemma PhrasesOpenWithS()
    ensures PhraseNoStartReal[0] == 's' && PhraseNoForecast[0] == 's'
    ensures PhraseNoForecastAccented[0] == 's' && PhraseNoForecastPlain[0] == 's'
  {
  }

  /** A text of digits and slashes contains none of the "not started" phrases. */
  lemma DateCharsHaveNoPhrase(t: string)
    requires forall i :: 0 <= i < |t| ==> IsDateChar(t[i])
    ensures !Contains(t, PhraseNoStartReal) && !Contains(t, PhraseNoForecast)
    ensures !Contains(t, PhraseNoForecastAccented) && !Contains(t, PhraseNoForecastPlain)
  {
    PhrasesOpenWithS();
    NotContainsForeign(t, PhraseNoStartReal, 0, IsDateChar);
    NotContainsForeign(t, PhraseNoForecast, 0, IsDateChar);
    NotContainsForeign(t, PhraseNoForecastAccented, 0, IsDateChar);
    NotContainsForeign(t, PhraseNoForecastPlain, 0, IsDateChar);
  }

  /** A date text is never a "not started" text. */
  lemma DateTextIsStarted(s: string)
    requires MatchesBrPattern(Trim(s))
    ensures !IsNoStartRealText(Str(s))
  {
    var t := Trim(s);
    LowerOfPattern(t);
    assert Lower(StrNorm(Str(s))) == t;
    DateCharsHaveNoPhrase(t);
  }

  // ---------------------------------------------------------------------------
  // Status label

  /** The three values of `status_label`. */
  datatype Status = HandedToSupport | Concluded | InProgress

  function Label(st: Status): string {
    match st
    case HandedToSupport => "Passado para suporte"
    case Concluded => "Conclu\U{00ED}do"
    case InProgress => "Em andamento"
  }

  /**
   * `status_label`: handed to support when `passado_suporte` is yes, else
   * concluded when `concluido` is yes, else in progress.
   */
  function StatusOf(concluido: string, passadoSuporte: string): (st: Status)
    ensures st == HandedToSupport <==> IsSim(Str(passadoSuporte))
    ensures st == Concluded <==> !IsSim(Str(passadoSuporte)) && IsSim(Str(concluido))
    ensures st == InProgress <==> !IsSim(Str(passadoSuporte)) && !IsSim(Str(concluido))
  {
    if IsSim(Str(passadoSuporte)) then HandedToSupport
    else if IsSim(Str(concluido)) then Concluded
    else InProgress
  }

  // ---------------------------------------------------------------------------
  // Rows

  /** One normalised record, the object `normalizeRows` builds for each raw row. */
  datatype Row = Row(
    cliente: string,
    implantador: string,
    concluido: string,
    dataInicio: string,
    previsaoStart: string,
    startReal: string,
    passadoSuporte: string,
    dInicio: Option<int>,
    dStartReal: Option<int>,
    status: Status,
    noStartReal: bool)

  /** What every row built by `normalizeRows` satisfies. */
  predicate WellFormed(r: Row) {
    && IsTrimmed(r.cliente) && IsTrimmed(r.implantador) && IsTrimmed(r.concluido)
    && IsTrimmed(r.dataInicio) && IsTrimmed(r.previsaoStart) && IsTrimmed(r.startReal)
    && IsTrimmed(r.passadoSuporte)
    && r.dInicio == ParseBrDate(Str(r.dataInicio))
    && r.dStartReal == ParseBrDate(Str(r.startReal))
    && r.status == StatusOf(r.concluido, r.passadoSuporte)
    && r.noStartReal == (r.dStartReal.None? || IsNoStartRealText(Str(r.startReal)))
  }

  /**
   * `r` is the object `normalizeRows` builds from `raw`: each text field is
   * `strNorm` of the raw field of the same name, and the dates, the status
   * and the no-start flag are derived from those texts.
   */
  predicate NormalizedFrom(r: Row, raw: JsValue) {
    && r.cliente == StrNorm(Get(raw, "cliente"))
    && r.implantador == StrNorm(Get(raw, "implantador"))
    && r.concluido == StrNorm(Get(raw, "concluido"))
    && r.dataInicio == StrNorm(Get(raw, "data_inicio"))
    && r.previsaoStart == StrNorm(Get(raw, "previsao_start"))
    && r.startReal == StrNorm(Get(raw, "start_real"))
    && r.passadoSuporte == StrNorm(Get(raw, "passado_suporte"))
    && WellFormed(r)
  }

  /** The callback of `rows.map` in `normalizeRows`, for a row that is not null or undefined. */
  function NormalizeRow(raw: JsValue): (r: Row)
    requires !IsNullish(raw)
    ensures NormalizedFrom(r, raw)
  {
    var cliente := StrNorm(Get(raw, "cliente"));
    var implantador := StrNorm(Get(raw, "implantador"));
    var concluido := StrNorm(Get(raw, "concluido"));
    var dataInicio := StrNorm(Get(raw, "data_inicio"));
    var previsaoStart := StrNorm(Get(raw, "previsao_start"));
    var startReal := StrNorm(Get(raw, "start_real"));
    var passadoSuporte := StrNorm(Get(raw, "passado_suporte"));
    var dInicio := ParseBrDate(Str(dataInicio));
    var dStartReal := ParseBrDate(Str(startReal));
    Row(cliente, implantador, concluido, dataInicio, previsaoStart, startReal, passadoSuporte,
        dInicio, dStartReal, StatusOf(concluido, passadoSuporte),
        dStartReal.None? || IsNoStartRealText(Str(startReal)))
  }

  /** One raw record has one normalised row: the description above leaves no freedom. */
  lemma NormalizedFromUnique(r: Row, raw: JsValue)
    requires !IsNullish(raw) && NormalizedFrom(r, raw)
    ensures r == NormalizeRow(raw)
  {
  }

  /** `noStartReal` holds exactly for the rows without a parsed start-real date. */
  lemma NoStartRealIffUndated(r: Row)
    requires WellFormed(r)
    ensures r.noStartReal <==> r.dStartReal.None?
  {
    if r.dStartReal.Some? {
      DateTextIsStarted(r.startReal);
    }
  }

  /** A field that already holds a trimmed text normalises to that text. */
  lemma StrNormField(raw: JsValue, name: string, s: string)
    requires Get(raw, name) == Str(s) && IsTrimmed(s)
    ensures StrNorm(Get(raw, name)) == s
  {
    StrNormOfTrimmed(s);
  }

  /**
   * Normalising is idempotent: a record whose fields hold a normalised row's
   * texts normalises to that same row.
   */
  lemma NormalizeRowIdempotent(r: Row, raw: JsValue)
    requires WellFormed(r) && raw.Obj?
    requires Get(raw, "cliente") == Str(r.cliente)
    requires Get(raw, "implantador") == Str(r.implantador)
    requires Get(raw, "concluido") == Str(r.concluido)
    requires Get(raw, "data_inicio") == Str(r.dataInicio)
    requires Get(raw, "previsao_start") == Str(r.previsaoStart)
    requires Get(raw, "start_real") == Str(r.startReal)
    requires Get(raw, "passado_suporte") == Str(r.passadoSuporte)
    ensures NormalizeRow(raw) == r
  {
    StrNormField(raw, "cliente", r.cliente);
    StrNormField(raw, "implantador", r.implantador);
    StrNormField(raw, "concluido", r.concluido);
    StrNormField(raw, "data_inicio", r.dataInicio);
    StrNormField(raw, "previsao_start", r.previsaoStart);
    StrNormField(raw, "start_real", r.startReal);
    StrNormField(raw, "passado_suporte", r.passadoSuporte);
  }

  // ---------------------------------------------------------------------------
  // normalizeRows

  /** What `normalizeRows` throws. */
  datatype LoadError =
    | Unexpected(message: string)        // the `new Error(err)` of the unrecognised payload branch
    | NullishRow(index: nat, row: JsValue) // `r.cliente` read on a null or undefined row

  /** The `message` of the thrown error (for a nullish row, V8's TypeError text). */
  function ErrorMessage(e: LoadError): string {
    match e
    case Unexpected(m) => m
    case NullishRow(_, row) =>
      "Cannot read properties of " + (if row.Null? then "null" else "undefined") + " (reading 'cliente')"
  }

  function UnexpectedMessage(payload: JsValue): string {
    "Resposta inesperada da API. Esperado array ou {ok:true,data:[...]}. Tipo recebido: "
    + TypeTag(payload)
  }

  /**
   * The rows of a payload, tried in order: a bare array; `{ok: true, data: [...]}`;
   * `{ok: true, data: {data: [...]}}`. None for any other shape.
   */
  function PayloadRows(payload: JsValue): (rows: Option<seq<JsValue>>)
    ensures payload.Arr? ==> rows == Some(payload.items)
    ensures !payload.Arr? && Get(payload, "ok") == Bool(true) && Get(payload, "data").Arr?
      ==> rows == Some(Get(payload, "data").items)
    ensures !payload.Arr? && Get(payload, "ok") == Bool(true) && !Get(payload, "data").Arr?
      && Get(Get(payload, "data"), "data").Arr?
      ==> rows == Some(Get(Get(payload, "data"), "data").items)
    ensures rows.None? <==>
      && !payload.Arr?
      && (Get(payload, "ok") != Bool(true)
          || (!Get(payload, "data").Arr? && !Get(Get(payload, "data"), "data").Arr?))
  {
    if payload.Arr? then Some(payload.items)
    else if Truthy(payload) && Get(payload, "ok") == Bool(true) && Get(payload, "data").Arr? then
      Some(Get(payload, "data").items)
    else if Truthy(payload) && Get(payload, "ok") == Bool(true) && Truthy(Get(payload, "data"))
      && Get(Get(payload, "data"), "data").Arr? then
      Some(Get(Get(payload, "data"), "data").items)
    else None
  }

  /**
   * `normalizeRows(payload)`: the normalised rows in input order, or the
   * error it throws: the payload's own `error` when truthy, else the
   * "Resposta inesperada" message with the payload's type tag.
   */
  function NormalizeRows(payload: JsValue): (res: Result<seq<Row>, LoadError>)
    ensures PayloadRows(payload).None? ==> res.Err? && res.error.Unexpected?
    ensures res.Ok? ==>
      && PayloadRows(payload).Some?
      && |res.value| == |PayloadRows(payload).value|
      && forall i :: 0 <= i < |res.value| ==> NormalizedFrom(res.value[i], PayloadRows(payload).value[i])
    ensures res.Err? && res.error.NullishRow? ==>
      && PayloadRows(payload).Some?
      && res.error.index < |PayloadRows(payload).value|
      && IsNullish(PayloadRows(payload).value[res.error.index])
      && forall i :: 0 <= i < res.error.index ==> !IsNullish(PayloadRows(payload).value[i])
  {
    match PayloadRows(payload)
    case None =>
      var err := Get(payload, "error");
      Err(Unexpected(if Truthy(err) then ToStr(err) else UnexpectedMessage(payload)))
    case Some(rows) =>
      match MapUnless(rows, IsNullish, NormalizeRow)
      case Ok(out) => Ok(out)
      case Err(i) => Err(NullishRow(i, rows[i]))
  }

  /**
   * A payload whose shape is recognised yields one normalised row per raw
   * row, in the same order, unless a raw row is null or undefined.
   */
  lemma NormalizeRowsPreservesOrder(payload: JsValue)
    requires PayloadRows(payload).Some?
    ensures var rows := PayloadRows(payload).value;
      match NormalizeRows(payload)
      case Ok(out) =>
        && |out| == |rows|
        && forall i :: 0 <= i < |rows| ==>
          && out[i].cliente == StrNorm(Get(rows[i], "cliente"))
          && out[i].implantador == StrNorm(Get(rows[i], "implantador"))
          && out[i].concluido == StrNorm(Get(rows[i], "concluido"))
          && out[i].dataInicio == StrNorm(Get(rows[i], "data_inicio"))
          && out[i].previsaoStart == StrNorm(Get(rows[i], "previsao_start"))
          && out[i].startReal == StrNorm(Get(rows[i], "start_real"))
          && out[i].passadoSuporte == StrNorm(Get(rows[i], "passado_suporte"))
          && WellFormed(out[i])
      case Err(e) => e.NullishRow? && IsNullish(rows[e.index])
  {
  }

  /**
   * An unrecognised payload is an error whose message is the payload's own
   * `error` when that is truthy and the generic message otherwise.
   */
  lemma NormalizeRowsRejects(payload: JsValue)
    requires PayloadRows(payload).None?
    ensures NormalizeRows(payload).Err?
    ensures var e := NormalizeRows(payload).error;
      && e.Unexpected?
      && (Truthy(Get(payload, "error")) ==> ErrorMessage(e) == ToStr(Get(payload, "error")))
      && (!Truthy(Get(payload, "error")) ==> ErrorMessage(e) == UnexpectedMessage(payload))
  {
  }
}
